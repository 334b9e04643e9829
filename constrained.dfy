/**
 * MOPSOMultiThreadConstrain.java and OMOPSOMultiThreadConstraint.java: the
 * multi-objective particle swarm optimiser with constraint violations. The
 * archive is ranked by Rank.ranking(fitness, constraint, epsilon, alpha) with
 * its count as written, so with two or more constraints a particle violating
 * more of them outranks one violating fewer (Rank.ConstrainedRanksInverted);
 * the particles are evaluated one task per particle (EvaluateOne). Both files
 * share evaluate and select line for line, and mutate is MOPSO's.
 */
module Constrained {
  import opened Commons
  import opened Rank
  import opened Particles
  import opened Swarms
  import opened Archive
  import opened Mopso

  /** Rank.ranking(s.getFitness(), s.getConstraint(), epsilon, alpha) on a uniformly shaped swarm. */
  method RankWithConstraints(s: Swarm, v: nat, m: nat, count: nat, epsilon: real, alpha: real,
                             ghost states: seq<State>)
    returns (rank: seq<int>)
    requires s.Shaped(v, m) && s.particle.Length > 0 && states == s.States() && ConstraintCount(states, count)
    requires NoConstrainedAlphaOverflow(Fitnesses(states), Constraints(states), alpha)
    ensures AllShaped(states, v, m) && SameArity(Constraints(states))
    ensures rank == ConstrainedRanks(AsWritten, Fitnesses(states), Constraints(states), epsilon, alpha)
  {
    var rows := FitnessMatrix(s, v, m, states);
    var constraint := ConstraintMatrix(s, count, states);
    rank := RankingConstrained(rows, constraint, epsilon, alpha);
    assert rank == ConstrainedRanks(AsWritten, Fitnesses(states), Constraints(states), epsilon, alpha);
  }

  /**
   * update(swarm, globalBest): every particle moves as in MOPSO, its leader
   * drawn among the members of the archive with the lowest constrained rank
   * (epsilon and alpha both 0).
   */
  method Update(swarm: Swarm, globalBest: Swarm, d1: real, d2: real, d3: real,
                r1: seq<real>, r2: seq<real>, pick: seq<real>, v: nat, m: nat, count: nat,
                ghost ss: seq<State>, ghost gs: seq<State>)
    returns (ghost leaders: seq<int>)
    requires swarm.Valid() && swarm.Shaped(v, m) && globalBest.Shaped(v, m) && Disjoint(swarm, globalBest)
    requires ss == swarm.States() && gs == globalBest.States() && |gs| > 0 && ConstraintCount(gs, count)
    requires |r1| == |ss| && |r2| == |ss| && |pick| == |ss|
    requires forall i :: 0 <= i < |pick| ==> Unit(pick[i])
    modifies swarm.particle[..]
    ensures AllShaped(gs, v, m) && SameArity(Constraints(gs)) && |leaders| == |ss|
    ensures forall i :: 0 <= i < |ss| ==>
      var rank := ConstrainedRanks(AsWritten, Fitnesses(gs), Constraints(gs), 0.0, 0.0);
      0 <= leaders[i] < |gs| && rank[leaders[i]] == MinInt(rank)
    ensures forall i :: 0 <= i < |ss| ==>
      CanMove(ss[i], gs[leaders[i]].position) &&
      swarm.particle[i].Snapshot() == Moved(ss[i], gs[leaders[i]].position, DrawCoefficients(d1, d2, d3), r1[i], r2[i])
  {
    var rank := RankWithConstraints(globalBest, v, m, count, 0.0, 0.0, gs);
    leaders := Steer(swarm, globalBest, rank, DrawCoefficients(d1, d2, d3), r1, r2, pick, v, m, ss, gs);
  }

  /**
   * A leader has the lowest constrained rank, so when some member of the
   * archive is dominated by no other under the constrained rule, no other
   * member dominates the leader either; this holds for the count as written
   * and for the corrected one.
   */
  lemma LeaderUndominated(tally: Tally, f: seq<Fitness>, c: seq<seq<real>>, leader: int, j: int)
    requires SameArity(f) && |c| == |f| && SameArity(c) && 0 <= leader < |f| && 0 <= j < |f|
    requires ConstrainedRanks(tally, f, c, 0.0, 0.0)[leader] == MinInt(ConstrainedRanks(tally, f, c, 0.0, 0.0))
    requires forall k :: 0 <= k < |f| && k != j ==> !DominatedUnder(tally, f[k], f[j], c[k], c[j], 0.0, 0.0)
    ensures forall k :: 0 <= k < |f| && k != leader ==> !DominatedUnder(tally, f[k], f[leader], c[k], c[leader], 0.0, 0.0)
  {
    var rank := ConstrainedRanks(tally, f, c, 0.0, 0.0);
    ConstrainedDominatorsZero(tally, f, c, 0.0, 0.0, j, |f|);
    assert rank[j] == 1;
    assert rank[leader] == 1;
    ConstrainedDominatorsZero(tally, f, c, 0.0, 0.0, leader, |f|);
  }

  /**
   * EvaluateOne.run(): the task reads the number of objectives from particle
   * 0 when it is built, then evaluates particle i and updates its best
   * record; no other particle changes.
   */
  method EvaluateOne(swarm: Swarm, i: int, ev: EvaluatedValues, ghost ss: seq<State>)
    requires swarm.Valid() && 0 <= i < swarm.particle.Length && ss == swarm.States()
    requires Assessable(ss[i], ev, |ss[0].fitness|)
    modifies swarm.particle[i]
    ensures swarm.particle[i].Snapshot() == Assessed(ss[i], ev, |ss[0].fitness|)
    ensures forall k :: 0 <= k < |ss| && k != i ==> swarm.particle[k].Snapshot() == ss[k]
  {
    var numberOfObjectives := |swarm.particle[0].fitness|;
    var p := swarm.particle[i];
    assert p.Snapshot() == ss[i];
    Assess(p, ev, numberOfObjectives);
    assert forall k :: 0 <= k < |ss| && k != i ==> swarm.particle[k] != p;
  }

  /**
   * evaluate(swarm, name, numberOfThreads): one EvaluateOne task per
   * particle. The objective function answers particle i with evaluations[i];
   * when it answers particle 0 with as many objectives as it had, every task
   * reads the same number of objectives whatever order the tasks run in.
   */
  method Evaluate(swarm: Swarm, evaluations: seq<EvaluatedValues>, ghost ss: seq<State>)
    requires swarm.Valid() && swarm.particle.Length > 0 && ss == swarm.States() && |evaluations| == |ss|
    requires |evaluations[0].fitness| == |ss[0].fitness|
    requires forall i :: 0 <= i < |ss| ==> Assessable(ss[i], evaluations[i], |ss[0].fitness|)
    modifies swarm.particle[..]
    ensures forall i :: 0 <= i < |ss| ==>
      swarm.particle[i].Snapshot() == Assessed(ss[i], evaluations[i], |ss[0].fitness|)
  {
    ghost var m := |ss[0].fitness|;
    for i := 0 to swarm.particle.Length
      invariant swarm.Valid()
      invariant forall k :: 0 <= k < i ==> swarm.particle[k].Snapshot() == Assessed(ss[k], evaluations[k], m)
      invariant forall k :: i <= k < |ss| ==> swarm.particle[k].Snapshot() == ss[k]
      invariant |swarm.particle[0].fitness| == m
    {
      ghost var current := swarm.States();
      EvaluateOne(swarm, i, evaluations[i], current);
    }
  }

  /** The first half of select: Swarm.add(swarm, globalBest) and its constrained ranks. */
  method RankCombined(swarm: Swarm, globalBest: Swarm, v: nat, m: nat, count: nat, epsilon: real, alpha: real,
                      ghost ss: seq<State>, ghost gs: seq<State>)
    returns (combined: Swarm, rank: seq<int>)
    requires swarm.Shaped(v, m) && ss == swarm.States() && ConstraintCount(ss, count)
    requires globalBest.Shaped(v, m) && gs == globalBest.States() && |gs| > 0 && ConstraintCount(gs, count)
    requires NoConstrainedAlphaOverflow(Fitnesses(ss + gs), Constraints(ss + gs), alpha)
    ensures fresh(combined) && fresh(combined.particle) && combined.Shaped(v, m) && combined.States() == ss + gs
    ensures SameArity(Fitnesses(ss + gs)) && SameArity(Constraints(ss + gs))
    ensures rank == ConstrainedRanks(AsWritten, Fitnesses(ss + gs), Constraints(ss + gs), epsilon, alpha)
  {
    combined := Join(swarm, globalBest, v, m, ss, gs);
    assert ConstraintCount(ss + gs, count);
    rank := RankWithConstraints(combined, v, m, count, epsilon, alpha, ss + gs);
  }

  /**
   * select(swarm, globalBest, name, epsilon, alpha): the swarm followed by
   * the archive is ranked by the constrained rule on the raw fitness, and
   * the first swarm.length slots of globalBest are overwritten as in MOPSO.
   */
  method Select(swarm: Swarm, globalBest: Swarm, v: nat, m: nat, count: nat,
                maxValue: seq<real>, minValue: seq<real>, epsilon: real, alpha: real,
                ghost ss: seq<State>, ghost gs: seq<State>)
    returns (ghost rank: seq<int>, ghost order: seq<int>, ghost crowding: seq<real>)
    requires swarm.Shaped(v, m) && swarm.particle.Length > 0 && ss == swarm.States() && ConstraintCount(ss, count)
    requires globalBest.Valid() && globalBest.Shaped(v, m) && gs == globalBest.States() && ConstraintCount(gs, count)
    requires 0 < |ss| <= |gs|
    requires NoConstrainedAlphaOverflow(Fitnesses(ss + gs), Constraints(ss + gs), alpha)
    modifies globalBest.particle
    ensures SameArity(Fitnesses(ss + gs)) && SameArity(Constraints(ss + gs))
    ensures rank == ConstrainedRanks(AsWritten, Fitnesses(ss + gs), Constraints(ss + gs), epsilon, alpha) && Selectable(rank, |ss|)
    ensures IsPermutation(order, BorderSize(rank, |ss|))
    ensures BorderSize(rank, |ss|) > 0 && SameArity(LastFitnessOf(ss + gs, rank, |ss|, maxValue, minValue))
    ensures crowding == Crowding(LastFitnessOf(ss + gs, rank, |ss|, maxValue, minValue),
                                 UpperSize(rank, |ss|), BorderSize(rank, |ss|))
    ensures forall i, j :: 0 <= i < j < |order| ==> crowding[order[i]] >= crowding[order[j]]
    ensures globalBest.Valid()
    ensures forall k :: |ss| <= k < |gs| ==> globalBest.particle[k] == old(globalBest.particle[k])
    ensures forall k :: 0 <= k < |ss| ==> fresh(globalBest.particle[k])
    ensures Holds(globalBest, ss + gs, Chosen(rank, |ss|, order))
  {
    var globalSize := swarm.particle.Length;
    var combined, r := RankCombined(swarm, globalBest, v, m, count, epsilon, alpha, ss, gs);
    rank := r;
    order, crowding := Truncate(combined, r, globalBest, globalSize, v, m, maxValue, minValue, ss + gs);
  }
}
