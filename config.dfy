/**
 * ConfigMOPSO.java, ConfigGA.java and ConfigPSO.java: inputErrorCheck, an
 * ordered chain of guards each of which throws IllegalArgumentException.
 * The model returns None when every guard passes and Some(reason) naming the
 * first guard that throws. The three lookups through ObjectiveFunction (a
 * trial execute, the maximum values and the minimum values) are inputs, None
 * standing for a null result; a null or empty function name is None or "".
 */
module Config {
  import opened Commons

  /** The guard that threw, one per log message of the validators. */
  datatype Reason =
    | TooFewVariables
    | TooFewParticles
    | TooFewIterations
    | TooFewObjectives
    | TooFewConstraints
    | NoFunctionName
    | TrialFailed
    | NoMaxValue
    | NoMinValue
    | ObjectivesMismatch
    | EpsilonTooSmall
    | EpsilonTooLarge
    | AlphaTooSmall
    | AlphaTooLarge
    | BadCrossoverRate
    | BadMutationRate
    | BadEliteNumber
    | BadWeight
    | BadConstant1
    | BadConstant2

  /** One guard of a validator: the reason it throws with, and whether its input passes it. */
  datatype Check = Check(reason: Reason, passes: bool)

  /** The reason of the first check from index i on that does not pass, as a chain of guards reports it. */
  function FirstFailureFrom(checks: seq<Check>, i: nat): (r: Option<Reason>)
    requires i <= |checks|
    ensures r.None? <==> forall j :: i <= j < |checks| ==> checks[j].passes
    decreases |checks| - i
  {
    if i == |checks| then None
    else if !checks[i].passes then Some(checks[i].reason)
    else FirstFailureFrom(checks, i + 1)
  }

  /** The reason of the first check that does not pass. */
  function FirstFailure(checks: seq<Check>): Option<Reason> {
    FirstFailureFrom(checks, 0)
  }

  /** When check k is the first that fails, the chain reports k's reason. */
  lemma {:induction false} FirstFailureIs(checks: seq<Check>, k: int, i: nat)
    requires i <= k < |checks| && !checks[k].passes
    requires forall j :: i <= j < k ==> checks[j].passes
    ensures FirstFailureFrom(checks, i) == Some(checks[k].reason)
    decreases k - i
  {
    if i < k {
      FirstFailureIs(checks, k, i + 1);
    }
  }

  /** When every check passes, the chain reports nothing. */
  lemma NoFailure(checks: seq<Check>)
    requires forall i :: 0 <= i < |checks| ==> checks[i].passes
    ensures FirstFailure(checks) == None
  {
  }

  /** StringUtility.isNullOrEmpty. */
  predicate NullOrEmpty(name: Option<string>) {
    name.None? || |name.value| == 0
  }

  /** The guards of ConfigMOPSO.inputErrorCheck in source order. */
  function MopsoChecks(numberOfVariables: int, numberOfParticles: int, numberOfIterations: int,
                       numberOfObjectives: int, numberOfConstraints: int, name: Option<string>,
                       trial: Option<seq<real>>, maxValue: Option<seq<real>>, minValue: Option<seq<real>>,
                       epsilon: real, alpha: real): seq<Check>
  {
    [ Check(TooFewVariables, numberOfVariables >= 2),
      Check(TooFewParticles, numberOfParticles >= 3),
      Check(TooFewIterations, numberOfIterations >= 0),
      Check(TooFewObjectives, numberOfObjectives >= 1),
      Check(TooFewConstraints, numberOfConstraints >= 0),
      Check(NoFunctionName, !NullOrEmpty(name)),
      Check(TrialFailed, trial.Some?),
      Check(NoMaxValue, maxValue.Some?),
      Check(NoMinValue, minValue.Some?),
      Check(ObjectivesMismatch, minValue.Some? && |minValue.value| == numberOfObjectives),
      Check(EpsilonTooSmall, epsilon >= 0.0),
      Check(EpsilonTooLarge, epsilon < 1.0),
      Check(AlphaTooSmall, alpha >= 0.0),
      Check(AlphaTooLarge, alpha < 1.0) ]
  }

  /**
   * ConfigMOPSO.inputErrorCheck: the name of the file of initial solutions
   * is taken but never looked at, and the number of objectives is compared
   * with the length of the minimum values.
   */
  function CheckMopso(numberOfVariables: int, numberOfParticles: int, numberOfIterations: int,
                      numberOfObjectives: int, numberOfConstraints: int, name: Option<string>,
                      fileNameOfInitialSolutions: Option<string>,
                      trial: Option<seq<real>>, maxValue: Option<seq<real>>, minValue: Option<seq<real>>,
                      epsilon: real, alpha: real): (r: Option<Reason>)
    ensures r.None? <==>
      && numberOfVariables >= 2 && numberOfParticles >= 3 && numberOfIterations >= 0
      && numberOfObjectives >= 1 && numberOfConstraints >= 0 && !NullOrEmpty(name)
      && trial.Some? && maxValue.Some? && minValue.Some? && |minValue.value| == numberOfObjectives
      && 0.0 <= epsilon < 1.0 && 0.0 <= alpha < 1.0
  {
    if numberOfVariables < 2 then Some(TooFewVariables)
    else if numberOfParticles < 3 then Some(TooFewParticles)
    else if numberOfIterations < 0 then Some(TooFewIterations)
    else if numberOfObjectives < 1 then Some(TooFewObjectives)
    else if numberOfConstraints < 0 then Some(TooFewConstraints)
    else if NullOrEmpty(name) then Some(NoFunctionName)
    else if trial.None? then Some(TrialFailed)
    else if maxValue.None? then Some(NoMaxValue)
    else if minValue.None? then Some(NoMinValue)
    else if |minValue.value| != numberOfObjectives then Some(ObjectivesMismatch)
    else if epsilon < 0.0 then Some(EpsilonTooSmall)
    else if epsilon >= 1.0 then Some(EpsilonTooLarge)
    else if alpha < 0.0 then Some(AlphaTooSmall)
    else if alpha >= 1.0 then Some(AlphaTooLarge)
    else None
  }

  /** The guards of ConfigGA.inputErrorCheck in source order. */
  function GaChecks(numberOfVariables: int, numberOfPopulations: int, numberOfIterations: int,
                    name: Option<string>, trial: Option<seq<real>>, maxValue: Option<seq<real>>,
                    minValue: Option<seq<real>>, rateOfCrossOver: real, rateOfMutation: real,
                    numberOfElite: real): seq<Check>
  {
    [ Check(TooFewVariables, numberOfVariables >= 1),
      Check(TooFewParticles, numberOfPopulations >= 1),
      Check(TooFewIterations, numberOfIterations >= 0),
      Check(NoFunctionName, !NullOrEmpty(name)),
      Check(TrialFailed, trial.Some?),
      Check(NoMaxValue, maxValue.Some?),
      Check(NoMinValue, minValue.Some?),
      Check(BadCrossoverRate, 0.0 <= rateOfCrossOver <= 1.0),
      Check(BadMutationRate, 0.0 <= rateOfMutation <= 1.0),
      Check(BadEliteNumber, 0.0 <= numberOfElite <= numberOfPopulations as real) ]
  }

  /**
   * ConfigGA.inputErrorCheck: the number of bits is taken but never looked
   * at; the elite count is a double compared with the population size.
   */
  function CheckGa(numberOfBits: int, numberOfVariables: int, numberOfPopulations: int, numberOfIterations: int,
                   name: Option<string>, trial: Option<seq<real>>, maxValue: Option<seq<real>>,
                   minValue: Option<seq<real>>, rateOfCrossOver: real, rateOfMutation: real,
                   numberOfElite: real): (r: Option<Reason>)
    ensures r.None? <==>
      && numberOfVariables >= 1 && numberOfPopulations >= 1 && numberOfIterations >= 0 && !NullOrEmpty(name)
      && trial.Some? && maxValue.Some? && minValue.Some?
      && 0.0 <= rateOfCrossOver <= 1.0 && 0.0 <= rateOfMutation <= 1.0
      && 0.0 <= numberOfElite <= numberOfPopulations as real
  {
    if numberOfVariables < 1 then Some(TooFewVariables)
    else if numberOfPopulations < 1 then Some(TooFewParticles)
    else if numberOfIterations < 0 then Some(TooFewIterations)
    else if NullOrEmpty(name) then Some(NoFunctionName)
    else if trial.None? then Some(TrialFailed)
    else if maxValue.None? then Some(NoMaxValue)
    else if minValue.None? then Some(NoMinValue)
    else if rateOfCrossOver < 0.0 || rateOfCrossOver > 1.0 then Some(BadCrossoverRate)
    else if rateOfMutation < 0.0 || rateOfMutation > 1.0 then Some(BadMutationRate)
    else if numberOfElite < 0.0 || numberOfElite > numberOfPopulations as real then Some(BadEliteNumber)
    else None
  }

  /** The guards of ConfigPSO.inputErrorCheck in source order. */
  function PsoChecks(numberOfVariables: int, numberOfParticles: int, numberOfIterations: int,
                     name: Option<string>, trial: Option<seq<real>>, maxValue: Option<seq<real>>,
                     minValue: Option<seq<real>>, weight: real, constant1: real, constant2: real): seq<Check>
  {
    [ Check(TooFewVariables, numberOfVariables >= 1),
      Check(TooFewParticles, numberOfParticles >= 1),
      Check(TooFewIterations, numberOfIterations >= 0),
      Check(NoFunctionName, !NullOrEmpty(name)),
      Check(TrialFailed, trial.Some?),
      Check(NoMaxValue, maxValue.Some?),
      Check(NoMinValue, minValue.Some?),
      Check(BadWeight, 0.0 <= weight <= 1.0),
      Check(BadConstant1, 0.0 <= constant1 <= 2.0),
      Check(BadConstant2, 0.0 <= constant2 <= 2.0) ]
  }

  /** ConfigPSO.inputErrorCheck. */
  function CheckPso(numberOfVariables: int, numberOfParticles: int, numberOfIterations: int,
                    name: Option<string>, trial: Option<seq<real>>, maxValue: Option<seq<real>>,
                    minValue: Option<seq<real>>, weight: real, constant1: real, constant2: real): (r: Option<Reason>)
    ensures r.None? <==>
      && numberOfVariables >= 1 && numberOfParticles >= 1 && numberOfIterations >= 0 && !NullOrEmpty(name)
      && trial.Some? && maxValue.Some? && minValue.Some?
      && 0.0 <= weight <= 1.0 && 0.0 <= constant1 <= 2.0 && 0.0 <= constant2 <= 2.0
  {
    if numberOfVariables < 1 then Some(TooFewVariables)
    else if numberOfParticles < 1 then Some(TooFewParticles)
    else if numberOfIterations < 0 then Some(TooFewIterations)
    else if NullOrEmpty(name) then Some(NoFunctionName)
    else if trial.None? then Some(TrialFailed)
    else if maxValue.None? then Some(NoMaxValue)
    else if minValue.None? then Some(NoMinValue)
    else if weight < 0.0 || weight > 1.0 then Some(BadWeight)
    else if constant1 < 0.0 || constant1 > 2.0 then Some(BadConstant1)
    else if constant2 < 0.0 || constant2 > 2.0 then Some(BadConstant2)
    else None
  }

  /** CheckMopso applies its guards in source order: it reports the first that fails. */
  lemma CheckMopsoInOrder(numberOfVariables: int, numberOfParticles: int, numberOfIterations: int,
                          numberOfObjectives: int, numberOfConstraints: int, name: Option<string>,
                          fileNameOfInitialSolutions: Option<string>,
                          trial: Option<seq<real>>, maxValue: Option<seq<real>>, minValue: Option<seq<real>>,
                          epsilon: real, alpha: real)
    ensures CheckMopso(numberOfVariables, numberOfParticles, numberOfIterations, numberOfObjectives,
                       numberOfConstraints, name, fileNameOfInitialSolutions, trial, maxValue, minValue,
                       epsilon, alpha)
         == FirstFailure(MopsoChecks(numberOfVariables, numberOfParticles, numberOfIterations, numberOfObjectives,
                                     numberOfConstraints, name, trial, maxValue, minValue, epsilon, alpha))
  {
    var c := MopsoChecks(numberOfVariables, numberOfParticles, numberOfIterations, numberOfObjectives,
                         numberOfConstraints, name, trial, maxValue, minValue, epsilon, alpha);
    if numberOfVariables < 2 { FirstFailureIs(c, 0, 0); }
    else if numberOfParticles < 3 { FirstFailureIs(c, 1, 0); }
    else if numberOfIterations < 0 { FirstFailureIs(c, 2, 0); }
    else if numberOfObjectives < 1 { FirstFailureIs(c, 3, 0); }
    else if numberOfConstraints < 0 { FirstFailureIs(c, 4, 0); }
    else if NullOrEmpty(name) { FirstFailureIs(c, 5, 0); }
    else if trial.None? { FirstFailureIs(c, 6, 0); }
    else if maxValue.None? { FirstFailureIs(c, 7, 0); }
    else if minValue.None? { FirstFailureIs(c, 8, 0); }
    else if |minValue.value| != numberOfObjectives { FirstFailureIs(c, 9, 0); }
    else if epsilon < 0.0 { FirstFailureIs(c, 10, 0); }
    else if epsilon >= 1.0 { FirstFailureIs(c, 11, 0); }
    else if alpha < 0.0 { FirstFailureIs(c, 12, 0); }
    else if alpha >= 1.0 { FirstFailureIs(c, 13, 0); }
    else { NoFailure(c); }
  }

  /** CheckGa applies its guards in source order: it reports the first that fails. */
  lemma CheckGaInOrder(numberOfBits: int, numberOfVariables: int, numberOfPopulations: int, numberOfIterations: int,
                       name: Option<string>, trial: Option<seq<real>>, maxValue: Option<seq<real>>,
                       minValue: Option<seq<real>>, rateOfCrossOver: real, rateOfMutation: real,
                       numberOfElite: real)
    ensures CheckGa(numberOfBits, numberOfVariables, numberOfPopulations, numberOfIterations, name, trial,
                    maxValue, minValue, rateOfCrossOver, rateOfMutation, numberOfElite)
         == FirstFailure(GaChecks(numberOfVariables, numberOfPopulations, numberOfIterations, name, trial,
                                  maxValue, minValue, rateOfCrossOver, rateOfMutation, numberOfElite))
  {
    var c := GaChecks(numberOfVariables, numberOfPopulations, numberOfIterations, name, trial,
                      maxValue, minValue, rateOfCrossOver, rateOfMutation, numberOfElite);
    if numberOfVariables < 1 { FirstFailureIs(c, 0, 0); }
    else if numberOfPopulations < 1 { FirstFailureIs(c, 1, 0); }
    else if numberOfIterations < 0 { FirstFailureIs(c, 2, 0); }
    else if NullOrEmpty(name) { FirstFailureIs(c, 3, 0); }
    else if trial.None? { FirstFailureIs(c, 4, 0); }
    else if maxValue.None? { FirstFailureIs(c, 5, 0); }
    else if minValue.None? { FirstFailureIs(c, 6, 0); }
    else if rateOfCrossOver < 0.0 || rateOfCrossOver > 1.0 { FirstFailureIs(c, 7, 0); }
    else if rateOfMutation < 0.0 || rateOfMutation > 1.0 { FirstFailureIs(c, 8, 0); }
    else if numberOfElite < 0.0 || numberOfElite > numberOfPopulations as real { FirstFailureIs(c, 9, 0); }
    else { NoFailure(c); }
  }

  /** CheckPso applies its guards in source order: it reports the first that fails. */
  lemma CheckPsoInOrder(numberOfVariables: int, numberOfParticles: int, numberOfIterations: int,
                        name: Option<string>, trial: Option<seq<real>>, maxValue: Option<seq<real>>,
                        minValue: Option<seq<real>>, weight: real, constant1: real, constant2: real)
    ensures CheckPso(numberOfVariables, numberOfParticles, numberOfIterations, name, trial, maxValue, minValue,
                     weight, constant1, constant2)
         == FirstFailure(PsoChecks(numberOfVariables, numberOfParticles, numberOfIterations, name, trial,
                                   maxValue, minValue, weight, constant1, constant2))
  {
    var c := PsoChecks(numberOfVariables, numberOfParticles, numberOfIterations, name, trial,
                       maxValue, minValue, weight, constant1, constant2);
    if numberOfVariables < 1 { FirstFailureIs(c, 0, 0); }
    else if numberOfParticles < 1 { FirstFailureIs(c, 1, 0); }
    else if numberOfIterations < 0 { FirstFailureIs(c, 2, 0); }
    else if NullOrEmpty(name) { FirstFailureIs(c, 3, 0); }
    else if trial.None? { FirstFailureIs(c, 4, 0); }
    else if maxValue.None? { FirstFailureIs(c, 5, 0); }
    else if minValue.None? { FirstFailureIs(c, 6, 0); }
    else if weight < 0.0 || weight > 1.0 { FirstFailureIs(c, 7, 0); }
    else if constant1 < 0.0 || constant1 > 2.0 { FirstFailureIs(c, 8, 0); }
    else if constant2 < 0.0 || constant2 > 2.0 { FirstFailureIs(c, 9, 0); }
    else { NoFailure(c); }
  }
}
