/**
 * OPSO.java: the single-objective particle swarm optimiser whose inertia and
 * acceleration coefficients are drawn afresh at every update, and which
 * mutates the swarm with MOPSO's mutation. The global best is kept as in
 * PSO.java, and main records its first fitness value after every
 * generation.
 */
module Opso {
  import opened Commons
  import opened Particles
  import opened Swarms
  import opened Mopso
  import Pso

  /**
   * update(swarm, globalBest): w, c1 and c2 are drawn once per call from d1,
   * d2 and d3, then every particle moves as in PSO.update towards the global
   * best particle.
   */
  method Update(swarm: Swarm, globalBest: Particle, d1: real, d2: real, d3: real,
                r1: seq<real>, r2: seq<real>, ghost ss: seq<State>)
    returns (c: Coefficients)
    requires swarm.Valid() && ss == swarm.States() && |r1| == |ss| && |r2| == |ss|
    requires forall i :: 0 <= i < |ss| ==> swarm.particle[i] != globalBest
    requires forall i :: 0 <= i < |ss| ==> CanMove(ss[i], globalBest.position)
    modifies swarm.particle[..]
    ensures Unit(d1) && Unit(d2) && Unit(d3) ==>
      0.1 <= c.w < 0.5 && 1.5 <= c.c1 < 2.0 && 1.5 <= c.c2 < 2.0
    ensures globalBest.Snapshot() == old(globalBest.Snapshot())
    ensures forall i :: 0 <= i < |ss| ==>
      swarm.particle[i].Snapshot() == Moved(ss[i], globalBest.position, c, r1[i], r2[i])
  {
    c := DrawCoefficients(d1, d2, d3);
    Pso.Update(swarm, globalBest, c, r1, r2, ss);
  }

  /**
   * The first fitness value of the global best after updateGlobalBest has
   * seen the evaluated swarm of each of the first t generations in turn,
   * starting from a global best whose first fitness value is x.
   */
  function BestAfter(x: real, generations: seq<seq<State>>, t: nat): real
    requires t <= |generations|
    requires forall s :: 0 <= s < |generations| ==> Pso.AllScored(generations[s])
  {
    if t == 0 then x
    else Pso.MinFirst(generations[t - 1], BestAfter(x, generations, t - 1), |generations[t - 1]|)
  }

  /** x is at most the first fitness value of every particle of ss. */
  predicate Below(x: real, ss: seq<State>)
    requires Pso.AllScored(ss)
  {
    forall i :: 0 <= i < |ss| ==> x <= ss[i].fitness[0]
  }

  /** The recorded value never grows from one generation to a later one. */
  lemma {:induction false} BestAfterNonIncreasing(x: real, generations: seq<seq<State>>, t: nat, u: nat)
    requires t <= u <= |generations|
    requires forall s :: 0 <= s < |generations| ==> Pso.AllScored(generations[s])
    ensures BestAfter(x, generations, u) <= BestAfter(x, generations, t)
    decreases u - t
  {
    if t < u {
      BestAfterNonIncreasing(x, generations, t + 1, u);
    }
  }

  /**
   * After u generations the recorded value is at most every first fitness
   * value evaluated in any of them.
   */
  lemma BestAfterBelow(x: real, generations: seq<seq<State>>, u: nat, last: real)
    requires u <= |generations|
    requires forall s :: 0 <= s < |generations| ==> Pso.AllScored(generations[s])
    requires last == BestAfter(x, generations, u)
    ensures forall s :: 0 <= s < u ==> Below(last, generations[s])
  {
    forall s | 0 <= s < u
      ensures Below(last, generations[s])
    {
      BestAfterNonIncreasing(x, generations, s + 1, u);
    }
  }

  /**
   * A record holding the global best's first fitness value after each
   * generation is non-increasing and below every value evaluated so far.
   */
  lemma RecordOrdered(x: real, generations: seq<seq<State>>, record: seq<real>)
    requires forall s :: 0 <= s < |generations| ==> Pso.AllScored(generations[s])
    requires |record| == |generations|
    requires forall t :: 0 <= t < |record| ==> record[t] == BestAfter(x, generations, t + 1)
    ensures forall t, u :: 0 <= t <= u < |record| ==> record[u] <= record[t]
    ensures forall t, s :: 0 <= s <= t < |record| ==> Below(record[t], generations[s])
  {
    forall t, u | 0 <= t <= u < |record|
      ensures record[u] <= record[t]
    {
      BestAfterNonIncreasing(x, generations, t + 1, u + 1);
    }
    forall t | 0 <= t < |record|
      ensures forall s :: 0 <= s <= t ==> Below(record[t], generations[s])
    {
      BestAfterBelow(x, generations, t + 1, record[t]);
    }
  }

  /**
   * The bookkeeping of main: after generation iterate the global best is
   * updated from that generation's evaluated swarm and its first fitness
   * value is stored in bestFitness[iterate]. The record is the running
   * minimum, non-increasing, and never above any first fitness value
   * evaluated up to that generation.
   */
  method RecordBestFitness(g: State, generations: seq<seq<State>>) returns (bestFitness: array<real>)
    requires Pso.Scored(g)
    requires forall s :: 0 <= s < |generations| ==> Pso.AllScored(generations[s])
    ensures fresh(bestFitness) && bestFitness.Length == |generations|
    ensures forall t :: 0 <= t < |generations| ==> bestFitness[t] == BestAfter(g.fitness[0], generations, t + 1)
    ensures forall t, u :: 0 <= t <= u < |generations| ==> bestFitness[u] <= bestFitness[t]
    ensures forall t, s :: 0 <= s <= t < |generations| ==> Below(bestFitness[t], generations[s])
  {
    bestFitness := FillRecord(g, generations);
    RecordOrdered(g.fitness[0], generations, bestFitness[..]);
  }

  /** The loop of main: one updateGlobalBest and one entry of bestFitness per generation. */
  method FillRecord(g: State, generations: seq<seq<State>>) returns (bestFitness: array<real>)
    requires Pso.Scored(g)
    requires forall s :: 0 <= s < |generations| ==> Pso.AllScored(generations[s])
    ensures fresh(bestFitness) && bestFitness.Length == |generations|
    ensures forall t :: 0 <= t < |generations| ==> bestFitness[t] == BestAfter(g.fitness[0], generations, t + 1)
  {
    bestFitness := new real[|generations|];
    var globalBest := g;
    for iterate := 0 to |generations|
      invariant Pso.Scored(globalBest) && globalBest.fitness[0] == BestAfter(g.fitness[0], generations, iterate)
      invariant forall t :: 0 <= t < iterate ==> bestFitness[t] == BestAfter(g.fitness[0], generations, t + 1)
    {
      Pso.GlobalBestOfFirst(generations[iterate], globalBest);
      globalBest := Pso.GlobalBestOf(generations[iterate], globalBest);
      bestFitness[iterate] := globalBest.fitness[0];
    }
  }
}
