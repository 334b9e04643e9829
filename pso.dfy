/**
 * PSO.java: the single-objective particle swarm optimiser. Every particle
 * moves towards its own best position and towards one global best particle
 * (update), positions and velocities are perturbed non-uniformly (mutate),
 * and the global best is replaced by any particle with a smaller first
 * fitness value (updateGlobalBest). Every random draw is a parameter;
 * Math.sqrt(iterate + 1) is the parameter root.
 */
module Pso {
  import opened Commons
  import opened Particles
  import opened Swarms
  import opened Mopso

  /**
   * update(swarm, globalBest, w, c1, c2): particle i moves with its own pair
   * of draws r1[i], r2[i], shared by all its components, towards the global
   * best particle's position, which is not one of the swarm's particles.
   */
  method Update(swarm: Swarm, globalBest: Particle, c: Coefficients, r1: seq<real>, r2: seq<real>,
                ghost ss: seq<State>)
    requires swarm.Valid() && ss == swarm.States() && |r1| == |ss| && |r2| == |ss|
    requires forall i :: 0 <= i < |ss| ==> swarm.particle[i] != globalBest
    requires forall i :: 0 <= i < |ss| ==> CanMove(ss[i], globalBest.position)
    modifies swarm.particle[..]
    ensures globalBest.Snapshot() == old(globalBest.Snapshot())
    ensures forall i :: 0 <= i < |ss| ==>
      swarm.particle[i].Snapshot() == Moved(ss[i], globalBest.position, c, r1[i], r2[i])
  {
    ghost var leader := globalBest.position;
    for i := 0 to swarm.particle.Length
      invariant globalBest.Snapshot() == old(globalBest.Snapshot())
      invariant forall k :: 0 <= k < i ==> swarm.particle[k].Snapshot() == Moved(ss[k], leader, c, r1[k], r2[k])
      invariant forall k :: i <= k < |ss| ==> swarm.particle[k].Snapshot() == ss[k]
    {
      var p := swarm.particle[i];
      assert p.Snapshot() == ss[i];
      Move(p, globalBest.position, c, r1[i], r2[i]);
      assert forall k :: 0 <= k < |ss| && k != i ==> swarm.particle[k] != p;
    }
  }

  /**
   * mutate(swarm, iterate): every component of every particle is perturbed
   * with probability 1 / numberOfVariables, by (draw - 0.5) / root, and
   * clamped back into its range; the number of variables is read from
   * particle 0, so every particle is taken to have that many.
   */
  method Mutate(swarm: Swarm, root: real, draws: seq<seq<MutationDraws>>, v: nat, ghost ss: seq<State>)
    requires swarm.Valid() && swarm.particle.Length > 0 && ss == swarm.States() && root > 0.0
    requires |draws| >= |ss| && forall i :: 0 <= i < |ss| ==> |ss[i].position| == v && CanMutate(ss[i], draws[i])
    modifies swarm.particle[..]
    ensures forall i :: 0 <= i < |ss| ==>
      swarm.particle[i].Snapshot() == NonUniformPrefix(ss[i], MutationRate(v), root, draws[i], v)
  {
    var rate := MutationRate(|swarm.particle[0].position|);
    assert swarm.particle[0].Snapshot() == ss[0];
    MutateNonUniform(swarm, rate, root, draws, ss);
  }

  /** updateGlobalBest compares first fitness values and copies particles. */
  predicate Scored(s: State) {
    |s.fitness| > 0 && Copyable(s)
  }

  predicate AllScored(ss: seq<State>) {
    forall i :: 0 <= i < |ss| ==> Scored(ss[i])
  }

  /** The candidate a holder index names: -1 is the incoming global best. */
  function Held(ss: seq<State>, g: State, k: int): State
    requires -1 <= k < |ss|
  {
    if k < 0 then g else ss[k]
  }

  /**
   * Which candidate updateGlobalBest holds after looking at the first n
   * particles: -1 while no particle has beaten the incoming global best,
   * otherwise the first particle with the smallest first fitness value.
   */
  function Holder(ss: seq<State>, g: State, n: nat): (k: int)
    requires n <= |ss| && Scored(g) && AllScored(ss)
    ensures -1 <= k < n
    ensures Held(ss, g, k).fitness[0] <= g.fitness[0]
    ensures forall j :: 0 <= j < n ==> Held(ss, g, k).fitness[0] <= ss[j].fitness[0]
    ensures k >= 0 ==> ss[k].fitness[0] < g.fitness[0]
    ensures k >= 0 ==> forall j :: 0 <= j < k ==> ss[j].fitness[0] > ss[k].fitness[0]
  {
    if n == 0 then -1
    else
      var k := Holder(ss, g, n - 1);
      if ss[n - 1].fitness[0] < Held(ss, g, k).fitness[0] then n - 1 else k
  }

  /** One step of updateGlobalBest's loop: particle n takes over exactly when it is strictly better. */
  lemma HolderStep(ss: seq<State>, g: State, n: nat)
    requires n < |ss| && Scored(g) && AllScored(ss)
    ensures Held(ss, g, Holder(ss, g, n + 1)) ==
      var held := Held(ss, g, Holder(ss, g, n));
      if ss[n].fitness[0] < held.fitness[0] then ss[n] else held
  {
  }

  /**
   * What updateGlobalBest returns, as a value: a copy of the old global best
   * or of a particle, whose first fitness value is at most the old global
   * best's and at most every particle's.
   */
  function GlobalBestOf(ss: seq<State>, g: State): (r: State)
    requires Scored(g) && AllScored(ss)
    ensures Scored(r) && r.fitness[0] <= g.fitness[0]
    ensures forall j :: 0 <= j < |ss| ==> r.fitness[0] <= ss[j].fitness[0]
  {
    var h := Held(ss, g, Holder(ss, g, |ss|));
    CopyStateMeaning(h);
    CopyStateIdempotent(h);
    CopyState(h)
  }

  /**
   * The new global best is a copy of a candidate: of the old global best when
   * no particle has a strictly smaller first fitness value, otherwise of the
   * first particle with the smallest one.
   */
  lemma GlobalBestOfCandidate(ss: seq<State>, g: State)
    requires Scored(g) && AllScored(ss)
    ensures (forall j :: 0 <= j < |ss| ==> g.fitness[0] <= ss[j].fitness[0]) ==>
      GlobalBestOf(ss, g) == CopyState(g)
    ensures GlobalBestOf(ss, g) == CopyState(g) ||
      exists k :: 0 <= k < |ss| && GlobalBestOf(ss, g) == CopyState(ss[k]) &&
        ss[k].fitness[0] < g.fitness[0] && forall j :: 0 <= j < k ==> ss[k].fitness[0] < ss[j].fitness[0]
  {
    var k := Holder(ss, g, |ss|);
    if k >= 0 {
      assert GlobalBestOf(ss, g) == CopyState(ss[k]);
    }
  }

  /** The smallest of x and the first fitness values of the first n particles. */
  function MinFirst(ss: seq<State>, x: real, n: nat): (r: real)
    requires n <= |ss| && AllScored(ss)
    ensures r <= x && forall j :: 0 <= j < n ==> r <= ss[j].fitness[0]
    ensures r == x || exists j :: 0 <= j < n && r == ss[j].fitness[0]
  {
    if n == 0 then x
    else
      var r := MinFirst(ss, x, n - 1);
      if ss[n - 1].fitness[0] < r then ss[n - 1].fitness[0] else r
  }

  /** The candidate held after n particles has the smallest first fitness value seen so far. */
  lemma {:induction false} HeldFirst(ss: seq<State>, g: State, n: nat)
    requires n <= |ss| && Scored(g) && AllScored(ss)
    ensures Held(ss, g, Holder(ss, g, n)).fitness[0] == MinFirst(ss, g.fitness[0], n)
  {
    if n > 0 {
      HeldFirst(ss, g, n - 1);
      HolderStep(ss, g, n - 1);
    }
  }

  /** The first fitness value of the new global best is the running minimum. */
  lemma GlobalBestOfFirst(ss: seq<State>, g: State)
    requires Scored(g) && AllScored(ss)
    ensures GlobalBestOf(ss, g).fitness[0] == MinFirst(ss, g.fitness[0], |ss|)
  {
    var h := Held(ss, g, Holder(ss, g, |ss|));
    HeldFirst(ss, g, |ss|);
    CopyStateMeaning(h);
  }

  /** One iteration of updateGlobalBest: a copy of p when its first fitness value is smaller, else ret. */
  method Challenge(p: Particle, ret: Particle, ghost held: State) returns (r: Particle)
    requires Scored(p.Snapshot()) && Scored(held) && ret.Snapshot() == CopyState(held)
    ensures r == ret || fresh(r)
    ensures r.Snapshot() == CopyState(if p.fitness[0] < held.fitness[0] then p.Snapshot() else held)
  {
    CopyStateMeaning(held);
    r := ret;
    if p.fitness[0] < ret.fitness[0] {
      r := p.Copy();
    }
  }

  /** updateGlobalBest(swarm, globalBest): a fresh copy of the held candidate. */
  method UpdateGlobalBest(swarm: Swarm, globalBest: Particle, ghost ss: seq<State>) returns (ret: Particle)
    requires swarm.Full() && ss == swarm.States() && Scored(globalBest.Snapshot()) && AllScored(ss)
    ensures fresh(ret) && ret.Snapshot() == GlobalBestOf(ss, globalBest.Snapshot())
  {
    ghost var g := globalBest.Snapshot();
    ret := globalBest.Copy();
    ghost var held;
    ret, held := Scan(swarm, ret, ss, g);
  }

  /** The loop of updateGlobalBest, from ret holding a copy of g. */
  method Scan(swarm: Swarm, start: Particle, ghost ss: seq<State>, ghost g: State)
    returns (ret: Particle, ghost held: State)
    requires swarm.Full() && ss == swarm.States() && Scored(g) && AllScored(ss)
    requires start.Snapshot() == CopyState(g)
    ensures ret == start || fresh(ret)
    ensures held == Held(ss, g, Holder(ss, g, |ss|)) && ret.Snapshot() == CopyState(held)
  {
    held := g;
    ret := start;
    for i := 0 to swarm.particle.Length
      invariant held == Held(ss, g, Holder(ss, g, i)) && ret.Snapshot() == CopyState(held)
      invariant ret == start || fresh(ret)
    {
      var p := swarm.particle[i];
      assert p.Snapshot() == ss[i];
      HolderStep(ss, g, i);
      ret := Challenge(p, ret, held);
      held := if ss[i].fitness[0] < held.fitness[0] then ss[i] else held;
    }
  }

  /**
   * evaluate(swarm, name), in PSO and OPSO alike: particle i is evaluated,
   * the objective function answering evaluations[i], and its best record
   * updated as a single-objective particle: when the answer carries no
   * constraint violations the best first fitness never grows and is at most
   * the new first fitness, and otherwise the best record is kept.
   */
  method Evaluate(swarm: Swarm, evaluations: seq<EvaluatedValues>, ghost ss: seq<State>)
    requires swarm.Valid() && ss == swarm.States() && |evaluations| == |ss|
    requires forall i :: 0 <= i < |ss| ==> Assessable(ss[i], evaluations[i], 1)
    modifies swarm.particle[..]
    ensures forall i :: 0 <= i < |ss| ==> swarm.particle[i].Snapshot() == Assessed(ss[i], evaluations[i], 1)
    ensures forall i :: 0 <= i < |ss| && |EvaluatedViolation(ss[i], evaluations[i])| == 0 ==>
      var r := swarm.particle[i].Snapshot();
      |ss[i].bestFitness| > 0 && |evaluations[i].fitness| > 0 && |r.bestFitness| > 0 &&
        r.bestFitness[0] <= ss[i].bestFitness[0] && r.bestFitness[0] <= evaluations[i].fitness[0]
    ensures forall i :: 0 <= i < |ss| && |EvaluatedViolation(ss[i], evaluations[i])| > 0 ==>
      var r := swarm.particle[i].Snapshot();
      r.bestPosition == ss[i].bestPosition && r.bestFitness == ss[i].bestFitness
  {
    for i := 0 to swarm.particle.Length
      invariant forall k :: 0 <= k < i ==> swarm.particle[k].Snapshot() == Assessed(ss[k], evaluations[k], 1)
      invariant forall k :: i <= k < |ss| ==> swarm.particle[k].Snapshot() == ss[k]
    {
      var p := swarm.particle[i];
      assert p.Snapshot() == ss[i];
      Assess(p, evaluations[i], 1);
      assert forall k :: 0 <= k < |ss| && k != i ==> swarm.particle[k] != p;
    }
    forall i | 0 <= i < |ss|
      ensures |EvaluatedViolation(ss[i], evaluations[i])| == 0 ==>
        var r := swarm.particle[i].Snapshot();
        |ss[i].bestFitness| > 0 && |evaluations[i].fitness| > 0 && |r.bestFitness| > 0 &&
        r.bestFitness[0] <= ss[i].bestFitness[0] && r.bestFitness[0] <= evaluations[i].fitness[0]
      ensures |EvaluatedViolation(ss[i], evaluations[i])| > 0 ==>
        var r := swarm.particle[i].Snapshot();
        r.bestPosition == ss[i].bestPosition && r.bestFitness == ss[i].bestFitness
    {
      SingleObjectiveAssessed(ss[i], evaluations[i]);
      assert swarm.particle[i].Snapshot() == Assessed(ss[i], evaluations[i], 1);
    }
  }

  /** evaluate then updateBest(1) on one particle, as the single-objective branch of NextBest decides it. */
  lemma SingleObjectiveAssessed(s: State, ev: EvaluatedValues)
    requires Assessable(s, ev, 1)
    ensures var r := Assessed(s, ev, 1);
      |r.constraintViolation| == 0 ==>
        |s.bestFitness| > 0 && |ev.fitness| > 0 && |r.bestFitness| > 0 &&
        r.bestFitness[0] <= s.bestFitness[0] && r.bestFitness[0] <= ev.fitness[0]
    ensures var r := Assessed(s, ev, 1);
      |r.constraintViolation| > 0 ==> r.bestPosition == s.bestPosition && r.bestFitness == s.bestFitness
  {
    var best := Best(s.bestPosition, s.bestFitness, s.bestConstraintViolation);
    var b := NextBest(1, s.position, ev.fitness, EvaluatedViolation(s, ev), best);
  }
}
