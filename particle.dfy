/**
 * Particle.java: one particle of a swarm, with its position, velocity,
 * fitness and constraint violations, and the best position it has visited.
 * The Java double[] fields are sequences that the methods reassign; the two
 * constraint arrays, which copy() shares by reference, are never written in
 * place anywhere, so sharing them is the same as copying their values.
 */
module Particles {
  import opened Commons
  import opened Rank

  /** EvaluatedValues.java: what a constrained objective function returns. */
  datatype EvaluatedValues = EvaluatedValues(fitness: seq<real>, constraintViolation: seq<real>)

  /** The personal-best record of a particle. */
  datatype Best = Best(position: seq<real>, fitness: seq<real>, constraintViolation: seq<real>)

  /** The comparisons updateBest makes are defined (no index error in Rank.dominated or fitness[0]). */
  predicate CanUpdateBest(numberOfObjectives: int, fitness: seq<real>, cv: seq<real>, best: Best) {
    if numberOfObjectives > 1 then
      |fitness| <= |best.fitness| && (|cv| > 0 ==> |best.constraintViolation| <= |cv|)
    else
      |cv| == 0 ==> |fitness| > 0 && |best.fitness| > 0
  }

  /** Whether updateBest takes the current state as the new best. */
  predicate Improves(numberOfObjectives: int, fitness: seq<real>, cv: seq<real>, best: Best)
    requires CanUpdateBest(numberOfObjectives, fitness, cv, best)
  {
    if numberOfObjectives > 1 then
      if |cv| == 0 then !DominatedRelaxed(best.fitness, fitness, 0.0, 0.0)
      else !DominatedConstrainedAsWritten(best.fitness, fitness, best.constraintViolation, cv, 0.0, 0.0)
    else
      |cv| == 0 && fitness[0] < best.fitness[0]
  }

  /**
   * The best record after adopting the current state: position and fitness are
   * copied over the front of the best arrays and, for a constrained
   * multi-objective particle, the constraint array is taken as well.
   */
  function Adopt(numberOfObjectives: int, position: seq<real>, fitness: seq<real>, cv: seq<real>, best: Best): (r: Best)
    requires |position| <= |best.position| && |fitness| <= |best.fitness|
    ensures |r.position| == |best.position| && |r.fitness| == |best.fitness|
    ensures r.position[..|position|] == position && r.fitness[..|fitness|] == fitness
  {
    Best(ArrayCopy(position, best.position, |position|),
         ArrayCopy(fitness, best.fitness, |fitness|),
         if numberOfObjectives > 1 && |cv| > 0 then cv else best.constraintViolation)
  }

  /**
   * updateBest on values. A single-objective unconstrained particle keeps the
   * smaller fitness[0], ties going to the old best; a single-objective
   * constrained particle never changes its best; a multi-objective particle
   * replaces its best exactly when the old best does not dominate the current
   * fitness (0 epsilon, 0 alpha), constraints counted as Rank.java counts them.
   */
  function NextBest(numberOfObjectives: int, position: seq<real>, fitness: seq<real>, cv: seq<real>, best: Best): (r: Best)
    requires CanUpdateBest(numberOfObjectives, fitness, cv, best)
    requires Improves(numberOfObjectives, fitness, cv, best) ==>
      |position| <= |best.position| && |fitness| <= |best.fitness|
    ensures r == best || (Improves(numberOfObjectives, fitness, cv, best) && r == Adopt(numberOfObjectives, position, fitness, cv, best))
    ensures numberOfObjectives <= 1 && |cv| == 0 ==>
      r.fitness[0] <= best.fitness[0] && r.fitness[0] <= fitness[0] &&
      (r == best <==> !(fitness[0] < best.fitness[0]))
    ensures numberOfObjectives <= 1 && |cv| > 0 ==> r == best
    ensures numberOfObjectives > 1 && |cv| == 0 ==> (r == best <==> Dominated(best.fitness, fitness))
    ensures numberOfObjectives > 1 && |cv| > 0 ==>
      (r == best <== DominatedConstrainedAsWritten(best.fitness, fitness, best.constraintViolation, cv, 0.0, 0.0)) &&
      (r.constraintViolation == cv <== !DominatedConstrainedAsWritten(best.fitness, fitness, best.constraintViolation, cv, 0.0, 0.0))
  {
    if Improves(numberOfObjectives, fitness, cv, best) then
      var a := Adopt(numberOfObjectives, position, fitness, cv, best);
      if numberOfObjectives > 1 && |cv| == 0 then
        AdoptDiffers(position, fitness, best, a);
        a
      else a
    else best
  }

  /** Adopting a fitness the old best does not dominate changes the best record. */
  lemma AdoptDiffers(position: seq<real>, fitness: seq<real>, best: Best, a: Best)
    requires |fitness| <= |best.fitness| && |position| <= |best.position|
    requires !Dominated(best.fitness, fitness)
    requires a.fitness == ArrayCopy(fitness, best.fitness, |fitness|)
    ensures a != best
  {
    var k :| 0 <= k < |fitness| && best.fitness[k] > fitness[k];
    assert a.fitness[k] == fitness[k];
  }

  /** Under the plain rule an identical fitness does not replace the best. */
  lemma IdenticalFitnessKeepsBest(numberOfObjectives: int, position: seq<real>, fitness: seq<real>, best: Best)
    requires numberOfObjectives > 1 && fitness == best.fitness
    ensures NextBest(numberOfObjectives, position, fitness, [], best) == best
  {
    assert Dominated(best.fitness, fitness);
  }

  /** A multi-objective fitness better somewhere than the old best always replaces it. */
  lemma BetterSomewhereReplaces(numberOfObjectives: int, position: seq<real>, fitness: seq<real>, best: Best, k: int)
    requires numberOfObjectives > 1 && |fitness| <= |best.fitness| && |position| <= |best.position|
    requires 0 <= k < |fitness| && fitness[k] < best.fitness[k]
    ensures NextBest(numberOfObjectives, position, fitness, [], best) == Adopt(numberOfObjectives, position, fitness, [], best)
    ensures NextBest(numberOfObjectives, position, fitness, [], best).fitness[..|fitness|] == fitness
  {
    assert !Dominated(best.fitness, fitness);
  }

  /**
   * With two constraints, a current state violating both replaces a best
   * with the same fitness that violates neither, because the count as
   * written lets more violations dominate; under the corrected count the
   * feasible best dominates and would be kept.
   */
  lemma ViolatingStateReplacesFeasibleBest(position: seq<real>)
    requires |position| == 2
    ensures NextBest(2, position, [1.0, 1.0], [1.0, 1.0], Best([0.0, 0.0], [1.0, 1.0], [0.0, 0.0]))
      == Best(position, [1.0, 1.0], [1.0, 1.0])
    ensures DominatedConstrained([1.0, 1.0], [1.0, 1.0], [0.0, 0.0], [1.0, 1.0], 0.0, 0.0)
  {
    var none: seq<real>, both: seq<real> := [0.0, 0.0], [1.0, 1.0];
    assert CountNonzero(none, 2, 0) == 0;
    assert CountNonzero(both, 2, 1) == 1;
    assert CountNonzero(both, 2, 0) == 2;
    assert !DominatedConstrainedAsWritten([1.0, 1.0], [1.0, 1.0], none, both, 0.0, 0.0);
    assert ArrayCopy(position, [0.0, 0.0], 2) == position;
    assert ArrayCopy([1.0, 1.0], [1.0, 1.0], 2) == [1.0, 1.0];
  }

  class Particle {
    var position: seq<real>
    var velocity: seq<real>
    var fitness: seq<real>
    var constraintViolation: seq<real>
    var bestPosition: seq<real>
    var bestFitness: seq<real>
    var bestConstraintViolation: seq<real>

    function BestRecord(): Best
      reads this
    {
      Best(bestPosition, bestFitness, bestConstraintViolation)
    }

    /** Particle(numberOfVariables, numberOfObjectives): zero arrays, no constraints. */
    constructor (numberOfVariables: nat, numberOfObjectives: nat)
      ensures Snapshot() == ZeroState(numberOfVariables, numberOfObjectives)
    {
      position := Zeros(numberOfVariables);
      fitness := Zeros(numberOfObjectives);
      velocity := Zeros(numberOfVariables);
      constraintViolation := [];
      bestPosition := Zeros(numberOfVariables);
      bestFitness := Zeros(numberOfObjectives);
      bestConstraintViolation := [];
    }

    /** Particle(numberOfVariables, numberOfObjectives, numberOfConstraints): constraint arrays start at MAX_VALUE. */
    constructor Constrained(numberOfVariables: nat, numberOfObjectives: nat, numberOfConstraints: nat)
      ensures position == Zeros(numberOfVariables) && velocity == Zeros(numberOfVariables)
      ensures bestPosition == Zeros(numberOfVariables)
      ensures fitness == Zeros(numberOfObjectives) && bestFitness == Zeros(numberOfObjectives)
      ensures |constraintViolation| == numberOfConstraints && |bestConstraintViolation| == numberOfConstraints
      ensures forall i :: 0 <= i < numberOfConstraints ==>
        constraintViolation[i] == MaxValue && bestConstraintViolation[i] == MaxValue
    {
      position := Zeros(numberOfVariables);
      fitness := Zeros(numberOfObjectives);
      velocity := Zeros(numberOfVariables);
      var cv := new real[numberOfConstraints];
      for i := 0 to numberOfConstraints
        invariant forall k :: 0 <= k < i ==> cv[k] == MaxValue
      {
        cv[i] := MaxValue;
      }
      constraintViolation := cv[..];
      bestPosition := Zeros(numberOfVariables);
      bestFitness := Zeros(numberOfObjectives);
      var bcv := new real[numberOfConstraints];
      for i := 0 to numberOfConstraints
        invariant forall k :: 0 <= k < i ==> bcv[k] == MaxValue
      {
        bcv[i] := MaxValue;
      }
      bestConstraintViolation := bcv[..];
    }

    /**
     * evaluate(name) with the objective function's answer passed in: an
     * unconstrained particle takes the fitness, a constrained one takes the
     * fitness and the constraint violations.
     */
    method Evaluate(ev: EvaluatedValues)
      modifies this
      ensures fitness == ev.fitness
      ensures constraintViolation == if |old(constraintViolation)| == 0 then old(constraintViolation) else ev.constraintViolation
      ensures position == old(position) && velocity == old(velocity)
      ensures BestRecord() == old(BestRecord())
    {
      if |constraintViolation| == 0 {
        fitness := ev.fitness;
      } else {
        fitness := ev.fitness;
        constraintViolation := ev.constraintViolation;
      }
    }

    /** updateBest(numberOfObjectives): only the best record changes, as NextBest says. */
    method UpdateBest(numberOfObjectives: int)
      requires CanUpdateBest(numberOfObjectives, fitness, constraintViolation, BestRecord())
      requires Improves(numberOfObjectives, fitness, constraintViolation, BestRecord()) ==>
        |position| <= |bestPosition| && |fitness| <= |bestFitness|
      modifies this
      ensures position == old(position) && velocity == old(velocity)
      ensures fitness == old(fitness) && constraintViolation == old(constraintViolation)
      ensures BestRecord() == NextBest(numberOfObjectives, position, fitness, constraintViolation, old(BestRecord()))
    {
      if numberOfObjectives > 1 {
        if |constraintViolation| == 0 {
          if DominatedRelaxed(bestFitness, fitness, 0.0, 0.0) == false {
            bestPosition := ArrayCopy(position, bestPosition, |position|);
            bestFitness := ArrayCopy(fitness, bestFitness, |fitness|);
          }
        } else {
          if DominatedConstrainedAsWritten(bestFitness, fitness, bestConstraintViolation, constraintViolation, 0.0, 0.0) == false {
            bestPosition := ArrayCopy(position, bestPosition, |position|);
            bestFitness := ArrayCopy(fitness, bestFitness, |fitness|);
            bestConstraintViolation := constraintViolation;
          }
        }
      } else {
        if |constraintViolation| == 0 {
          if fitness[0] < bestFitness[0] {
            bestPosition := ArrayCopy(position, bestPosition, |position|);
            bestFitness := ArrayCopy(fitness, bestFitness, |fitness|);
          }
        }
      }
    }

    /**
     * copy(p): p's arrays are copied over the front of this particle's arrays,
     * and the constraint arrays are taken from p.
     */
    method CopyFrom(p: Particle)
      requires |p.position| <= |position| && |p.velocity| <= |velocity| && |p.fitness| <= |fitness|
      requires |p.bestPosition| <= |bestPosition| && |p.bestFitness| <= |bestFitness|
      modifies this
      ensures position == ArrayCopy(old(p.position), old(position), |old(p.position)|)
      ensures velocity == ArrayCopy(old(p.velocity), old(velocity), |old(p.velocity)|)
      ensures fitness == ArrayCopy(old(p.fitness), old(fitness), |old(p.fitness)|)
      ensures constraintViolation == old(p.constraintViolation)
      ensures bestPosition == ArrayCopy(old(p.bestPosition), old(bestPosition), |old(p.bestPosition)|)
      ensures bestFitness == ArrayCopy(old(p.bestFitness), old(bestFitness), |old(p.bestFitness)|)
      ensures bestConstraintViolation == old(p.bestConstraintViolation)
    {
      position := ArrayCopy(p.position, position, |p.position|);
      velocity := ArrayCopy(p.velocity, velocity, |p.velocity|);
      fitness := ArrayCopy(p.fitness, fitness, |p.fitness|);
      constraintViolation := p.constraintViolation;
      bestPosition := ArrayCopy(p.bestPosition, bestPosition, |p.bestPosition|);
      bestFitness := ArrayCopy(p.bestFitness, bestFitness, |p.bestFitness|);
      bestConstraintViolation := p.bestConstraintViolation;
    }

    /**
     * copy(): a fresh particle sized by this one's position and fitness, with
     * every array copied in (CopyState says what lands where).
     */
    method Copy() returns (result: Particle)
      requires Copyable(Snapshot())
      ensures fresh(result)
      ensures result.Snapshot() == CopyState(Snapshot())
    {
      result := new Particle(|position|, |fitness|);
      result.position := ArrayCopy(position, result.position, |position|);
      result.velocity := ArrayCopy(velocity, result.velocity, |velocity|);
      result.fitness := ArrayCopy(fitness, result.fitness, |fitness|);
      result.constraintViolation := constraintViolation;
      result.bestPosition := ArrayCopy(bestPosition, result.bestPosition, |bestPosition|);
      result.bestFitness := ArrayCopy(bestFitness, result.bestFitness, |bestFitness|);
      result.bestConstraintViolation := bestConstraintViolation;
    }

    /** The values of all fields. */
    function Snapshot(): State
      reads this
    {
      State(position, velocity, fitness, constraintViolation, bestPosition, bestFitness, bestConstraintViolation)
    }
  }

  /** A particle's fields as one value. */
  datatype State = State(position: seq<real>, velocity: seq<real>, fitness: seq<real>,
                         constraintViolation: seq<real>, bestPosition: seq<real>,
                         bestFitness: seq<real>, bestConstraintViolation: seq<real>)

  /** Every array of a particle with v variables and m objectives has its size. */
  predicate StateShaped(s: State, v: nat, m: nat) {
    |s.position| == v && |s.velocity| == v && |s.bestPosition| == v && |s.fitness| == m && |s.bestFitness| == m
  }

  /** copy() can run: every array fits into one sized by position and fitness. */
  predicate Copyable(s: State) {
    |s.velocity| <= |s.position| && |s.bestPosition| <= |s.position| && |s.bestFitness| <= |s.fitness|
  }

  /** The state of a fresh Particle(v, m). */
  function ZeroState(v: nat, m: nat): (r: State)
    ensures StateShaped(r, v, m) && Copyable(r)
    ensures r.constraintViolation == [] && r.bestConstraintViolation == []
  {
    State(Zeros(v), Zeros(v), Zeros(m), [], Zeros(v), Zeros(m), [])
  }

  /**
   * What copy() produces: arrays sized by position and fitness, each original
   * array copied over the front, the constraint arrays shared.
   */
  function CopyState(s: State): State
    requires Copyable(s)
  {
    var v := |s.position|;
    var m := |s.fitness|;
    State(ArrayCopy(s.position, Zeros(v), v), ArrayCopy(s.velocity, Zeros(v), |s.velocity|),
          ArrayCopy(s.fitness, Zeros(m), m), s.constraintViolation,
          ArrayCopy(s.bestPosition, Zeros(v), |s.bestPosition|),
          ArrayCopy(s.bestFitness, Zeros(m), |s.bestFitness|), s.bestConstraintViolation)
  }

  /**
   * A copy keeps position, fitness and the constraint arrays, has every array
   * sized by position or fitness with the original at its front, and equals
   * the original when the particle's arrays already agree in size.
   */
  lemma CopyStateMeaning(s: State)
    requires Copyable(s)
    ensures var r := CopyState(s);
      && r.position == s.position && r.fitness == s.fitness
      && r.constraintViolation == s.constraintViolation && r.bestConstraintViolation == s.bestConstraintViolation
      && |r.velocity| == |r.bestPosition| == |s.position| && |r.bestFitness| == |s.fitness|
      && r.velocity[..|s.velocity|] == s.velocity && r.bestPosition[..|s.bestPosition|] == s.bestPosition
      && r.bestFitness[..|s.bestFitness|] == s.bestFitness
      && (StateShaped(s, |s.position|, |s.fitness|) ==> r == s)
  {
    var v := |s.position|;
    var m := |s.fitness|;
    ArrayCopyWhole(s.position, Zeros(v));
    ArrayCopyWhole(s.fitness, Zeros(m));
    if StateShaped(s, v, m) {
      ArrayCopyWhole(s.velocity, Zeros(v));
      ArrayCopyWhole(s.bestPosition, Zeros(v));
      ArrayCopyWhole(s.bestFitness, Zeros(m));
    }
  }

  /** Copying twice gives the same as copying once. */
  lemma CopyStateIdempotent(s: State)
    requires Copyable(s)
    ensures Copyable(CopyState(s)) && CopyState(CopyState(s)) == CopyState(s)
  {
    CopyStateMeaning(s);
    CopyStateMeaning(CopyState(s));
  }
}
