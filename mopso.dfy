/**
 * MOPSO.java: the multi-objective particle swarm optimiser. A generation moves
 * every particle towards its own best position and towards a leader drawn
 * from the best-ranked members of the archive (update), mutates two thirds of
 * the swarm (mutate), evaluates every particle (evaluate) and rebuilds the
 * archive from the swarm and the old archive (select). Every random draw is a
 * parameter; Math.sqrt(iterate + 1) is the parameter root.
 */
module Mopso {
  import opened Commons
  import opened Rank
  import opened Particles
  import opened Swarms
  import opened Archive

  /** A value of Random.nextDouble(): in [0, 1). */
  predicate Unit(d: real) {
    0.0 <= d < 1.0
  }

  /** Every velocity component lies in [-0.5, 0.5] and every position component in [0, 1]. */
  predicate InBounds(s: State) {
    && (forall j :: 0 <= j < |s.velocity| ==> -0.5 <= s.velocity[j] <= 0.5)
    && (forall j :: 0 <= j < |s.position| ==> 0.0 <= s.position[j] <= 1.0)
  }

  // ---------------------------------------------------------------------------
  // update
  // ---------------------------------------------------------------------------

  /** The inertia weight and the two acceleration coefficients of one update call. */
  datatype Coefficients = Coefficients(w: real, c1: real, c2: real)

  /** w = 0.1 + 0.4 d1, c1 = 1.5 + 0.5 d2 and c2 = 1.5 + 0.5 d3, from three draws. */
  function DrawCoefficients(d1: real, d2: real, d3: real): (c: Coefficients)
    ensures Unit(d1) ==> 0.1 <= c.w < 0.5
    ensures Unit(d2) ==> 1.5 <= c.c1 < 2.0
    ensures Unit(d3) ==> 1.5 <= c.c2 < 2.0
  {
    Coefficients(0.1 + 0.4 * d1, 1.5 + 0.5 * d2, 1.5 + 0.5 * d3)
  }

  /**
   * The new velocity of one component: inertia plus the pulls towards the
   * particle's best position and the leader's position, clamped to
   * [-0.5, 0.5].
   */
  function NextVelocity(c: Coefficients, r1: real, r2: real, velocity: real, best: real, position: real,
                        leader: real): (r: real)
    ensures -0.5 <= r <= 0.5
    ensures var raw := c.w * velocity + c.c1 * r1 * (best - position) + c.c2 * r2 * (leader - position);
      -0.5 <= raw <= 0.5 ==> r == raw
  {
    Limit(c.w * velocity + c.c1 * r1 * (best - position) + c.c2 * r2 * (leader - position), 0.5, -0.5)
  }

  /** The new position of one component: moved by the velocity, clamped to [0, 1]. */
  function NextPosition(position: real, velocity: real): (r: real)
    ensures 0.0 <= r <= 1.0
    ensures 0.0 <= position + velocity <= 1.0 ==> r == position + velocity
  {
    Limit(position + velocity, 1.0, 0.0)
  }

  /** Whether a particle can follow a leader: update reads that many components of each array. */
  predicate CanMove(s: State, leader: seq<real>) {
    |s.velocity| <= |s.position| && |s.velocity| <= |s.bestPosition| && |s.velocity| <= |leader|
  }

  /** The particle after its first n velocity components are updated, each followed by its position. */
  function MovedPrefix(s: State, leader: seq<real>, c: Coefficients, r1: real, r2: real, n: nat): (r: State)
    requires CanMove(s, leader) && n <= |s.velocity|
    ensures |r.velocity| == |s.velocity| && |r.position| == |s.position|
    ensures r == s.(velocity := r.velocity, position := r.position)
    ensures forall j :: 0 <= j < n ==>
      && r.velocity[j] == NextVelocity(c, r1, r2, s.velocity[j], s.bestPosition[j], s.position[j], leader[j])
      && r.position[j] == NextPosition(s.position[j], r.velocity[j])
    ensures forall j :: n <= j < |s.velocity| ==> r.velocity[j] == s.velocity[j]
    ensures forall j :: n <= j < |s.position| ==> r.position[j] == s.position[j]
  {
    if n == 0 then s
    else
      var t := MovedPrefix(s, leader, c, r1, r2, n - 1);
      var j := n - 1;
      var vel := NextVelocity(c, r1, r2, t.velocity[j], t.bestPosition[j], t.position[j], leader[j]);
      t.(velocity := t.velocity[j := vel], position := t.position[j := NextPosition(t.position[j], vel)])
  }

  /** The particle after the whole update loop. */
  function Moved(s: State, leader: seq<real>, c: Coefficients, r1: real, r2: real): State
    requires CanMove(s, leader)
  {
    MovedPrefix(s, leader, c, r1, r2, |s.velocity|)
  }

  /**
   * After update every velocity component lies in [-0.5, 0.5] and every
   * position component the loop visits in [0, 1]; so a particle whose arrays
   * all have the same length, and whose unvisited components were in range,
   * ends in range.
   */
  lemma MovedInBounds(s: State, leader: seq<real>, c: Coefficients, r1: real, r2: real)
    requires CanMove(s, leader)
    ensures var r := Moved(s, leader, c, r1, r2);
      && (forall j :: 0 <= j < |r.velocity| ==> -0.5 <= r.velocity[j] <= 0.5)
      && (forall j :: 0 <= j < |s.velocity| ==> 0.0 <= r.position[j] <= 1.0)
      && (|s.velocity| == |s.position| ==> InBounds(r))
  {
  }

  /** The inner loop of update for particle i, whose leader's position is leader. */
  method Move(p: Particle, leader: seq<real>, c: Coefficients, r1: real, r2: real)
    requires CanMove(p.Snapshot(), leader)
    modifies p
    ensures p.Snapshot() == Moved(old(p.Snapshot()), leader, c, r1, r2)
  {
    ghost var s := p.Snapshot();
    for v := 0 to |p.velocity|
      invariant p.Snapshot() == MovedPrefix(s, leader, c, r1, r2, v)
    {
      var vel := NextVelocity(c, r1, r2, p.velocity[v], p.bestPosition[v], p.position[v], leader[v]);
      p.velocity := p.velocity[v := vel];
      p.position := p.position[v := NextPosition(p.position[v], p.velocity[v])];
    }
  }

  /** Math.floor(n * d) for a draw d: an index below n. */
  function Slot(n: nat, d: real): (k: int)
    requires n > 0 && Unit(d)
    ensures 0 <= k < n
  {
    ProductSign(n as real, 1.0 - d);
    Trunc(n as real * d)
  }

  /** No particle of the swarm is also a particle of the archive. */
  predicate Disjoint(swarm: Swarm, globalBest: Swarm)
    reads swarm.particle, globalBest.particle
  {
    forall i, j :: 0 <= i < swarm.particle.Length && 0 <= j < globalBest.particle.Length ==>
      swarm.particle[i] != globalBest.particle[j]
  }

  /** The member of the best-rank list rank1Index that the draw d picks. */
  function Leader(rank1Index: seq<int>, d: real): int
    requires |rank1Index| > 0 && Unit(d)
  {
    rank1Index[Slot(|rank1Index|, d)]
  }

  /** Every particle of the swarm can follow every member of the archive. */
  predicate CanFollow(ss: seq<State>, gs: seq<State>) {
    forall i, j :: 0 <= i < |ss| && 0 <= j < |gs| ==> CanMove(ss[i], gs[j].position)
  }

  /**
   * The particle loop of update: particle i follows the member of rank1Index
   * its draw pick[i] picks, with its own draws r1[i] and r2[i].
   */
  method FollowLeaders(swarm: Swarm, globalBest: Swarm, rank1Index: seq<int>, c: Coefficients,
                       r1: seq<real>, r2: seq<real>, pick: seq<real>,
                       ghost ss: seq<State>, ghost gs: seq<State>)
    requires swarm.Valid() && globalBest.Full() && Disjoint(swarm, globalBest)
    requires ss == swarm.States() && gs == globalBest.States() && CanFollow(ss, gs)
    requires |rank1Index| > 0 && forall k :: 0 <= k < |rank1Index| ==> 0 <= rank1Index[k] < |gs|
    requires |r1| == |ss| && |r2| == |ss| && |pick| == |ss|
    requires forall i :: 0 <= i < |pick| ==> Unit(pick[i])
    modifies swarm.particle[..]
    ensures forall i :: 0 <= i < |ss| ==>
      swarm.particle[i].Snapshot() == Moved(ss[i], gs[Leader(rank1Index, pick[i])].position, c, r1[i], r2[i])
  {
    ghost var targets := seq(|ss|, i requires 0 <= i < |ss| =>
      Moved(ss[i], gs[Leader(rank1Index, pick[i])].position, c, r1[i], r2[i]));
    for i := 0 to swarm.particle.Length
      invariant Following(swarm, globalBest, ss, gs, targets, i)
    {
      FollowOne(swarm, globalBest, rank1Index, c, r1[i], r2[i], pick[i], ss, gs, targets, i);
    }
  }

  /** The particle loop of update after i particles: those moved, the rest and the archive as they were. */
  ghost predicate Following(swarm: Swarm, globalBest: Swarm, ss: seq<State>, gs: seq<State>, targets: seq<State>,
                            i: int)
    reads swarm.particle, swarm.particle[..], globalBest.particle, globalBest.particle[..]
  {
    && swarm.Full() && globalBest.Full()
    && swarm.particle.Length == |ss| == |targets| && globalBest.particle.Length == |gs| && 0 <= i <= |ss|
    && (forall k :: 0 <= k < i ==> swarm.particle[k].Snapshot() == targets[k])
    && (forall k :: i <= k < |ss| ==> swarm.particle[k].Snapshot() == ss[k])
    && (forall j :: 0 <= j < |gs| ==> globalBest.particle[j].Snapshot() == gs[j])
  }

  /** One turn of the particle loop of update: particle i moves towards the leader its draw picks. */
  method FollowOne(swarm: Swarm, globalBest: Swarm, rank1Index: seq<int>, c: Coefficients, r1: real, r2: real,
                   pick: real, ghost ss: seq<State>, ghost gs: seq<State>, ghost targets: seq<State>, i: nat)
    requires Following(swarm, globalBest, ss, gs, targets, i) && i < |ss|
    requires swarm.Separate() && Disjoint(swarm, globalBest) && CanFollow(ss, gs)
    requires |rank1Index| > 0 && (forall k :: 0 <= k < |rank1Index| ==> 0 <= rank1Index[k] < |gs|) && Unit(pick)
    requires targets[i] == Moved(ss[i], gs[Leader(rank1Index, pick)].position, c, r1, r2)
    modifies swarm.particle[i]
    ensures Following(swarm, globalBest, ss, gs, targets, i + 1)
  {
    var rg := rank1Index[Slot(|rank1Index|, pick)];
    var p := swarm.particle[i];
    var leader := globalBest.particle[rg].position;
    assert p.Snapshot() == ss[i] && leader == gs[rg].position;
    Move(p, leader, c, r1, r2);
    assert forall k :: 0 <= k < |ss| && k != i ==> swarm.particle[k] != p;
    assert forall j :: 0 <= j < |gs| ==> globalBest.particle[j] != p;
  }

  /**
   * The part of update after the archive is ranked: every particle follows a
   * member of rankIndex(rank, min(rank)).
   */
  method Steer(swarm: Swarm, globalBest: Swarm, rank: seq<int>, c: Coefficients,
               r1: seq<real>, r2: seq<real>, pick: seq<real>, v: nat, m: nat,
               ghost ss: seq<State>, ghost gs: seq<State>)
    returns (ghost leaders: seq<int>)
    requires swarm.Valid() && swarm.Shaped(v, m) && globalBest.Shaped(v, m) && Disjoint(swarm, globalBest)
    requires ss == swarm.States() && gs == globalBest.States()
    requires |rank| == globalBest.particle.Length > 0
    requires |r1| == |ss| && |r2| == |ss| && |pick| == |ss|
    requires forall i :: 0 <= i < |pick| ==> Unit(pick[i])
    modifies swarm.particle[..]
    ensures |leaders| == |ss|
    ensures forall i :: 0 <= i < |ss| ==> 0 <= leaders[i] < |rank| && rank[leaders[i]] == MinInt(rank)
    ensures forall i :: 0 <= i < |ss| ==>
      CanMove(ss[i], gs[leaders[i]].position) &&
      swarm.particle[i].Snapshot() == Moved(ss[i], gs[leaders[i]].position, c, r1[i], r2[i])
  {
    var rank1Index := RankIndex(rank, MinInt(rank));
    var first :| 0 <= first < |rank| && rank[first] == MinInt(rank);
    assert first in rank1Index;
    assert CanFollow(ss, gs);
    leaders := seq(|ss|, i requires 0 <= i < |ss| => Leader(rank1Index, pick[i]));
    LeadersOfBestRank(rank, rank1Index, pick, leaders);
    FollowLeaders(swarm, globalBest, rank1Index, c, r1, r2, pick, ss, gs);
  }

  /** Every leader drawn from the best rank's indices is an archive member of the best rank. */
  lemma LeadersOfBestRank(rank: seq<int>, rank1Index: seq<int>, pick: seq<real>, leaders: seq<int>)
    requires |rank| > 0 && |rank1Index| > 0
    requires forall k :: 0 <= k < |rank1Index| ==> 0 <= rank1Index[k] < |rank| && rank[rank1Index[k]] == MinInt(rank)
    requires forall i :: 0 <= i < |pick| ==> Unit(pick[i])
    requires |leaders| == |pick| && forall i :: 0 <= i < |pick| ==> leaders[i] == Leader(rank1Index, pick[i])
    ensures forall i :: 0 <= i < |pick| ==> 0 <= leaders[i] < |rank| && rank[leaders[i]] == MinInt(rank)
  {
  }

  /**
   * update(swarm, globalBest): the archive is ranked by the plain rule, and
   * every particle follows a member of the archive's best rank.
   */
  method Update(swarm: Swarm, globalBest: Swarm, d1: real, d2: real, d3: real,
                r1: seq<real>, r2: seq<real>, pick: seq<real>, v: nat, m: nat,
                ghost ss: seq<State>, ghost gs: seq<State>)
    returns (ghost leaders: seq<int>)
    requires swarm.Valid() && swarm.Shaped(v, m) && globalBest.Shaped(v, m) && Disjoint(swarm, globalBest)
    requires ss == swarm.States() && gs == globalBest.States() && |gs| > 0
    requires |r1| == |ss| && |r2| == |ss| && |pick| == |ss|
    requires forall i :: 0 <= i < |pick| ==> Unit(pick[i])
    modifies swarm.particle[..]
    ensures AllShaped(gs, v, m) && |leaders| == |ss|
    ensures forall i :: 0 <= i < |ss| ==>
      var rank := Ranks(Fitnesses(gs), 0.0, 0.0);
      0 <= leaders[i] < |gs| && rank[leaders[i]] == MinInt(rank)
    ensures forall i :: 0 <= i < |ss| ==>
      CanMove(ss[i], gs[leaders[i]].position) &&
      swarm.particle[i].Snapshot() == Moved(ss[i], gs[leaders[i]].position, DrawCoefficients(d1, d2, d3), r1[i], r2[i])
  {
    var rank := RankFitness(globalBest, v, m, 0.0, 0.0, gs);
    leaders := Steer(swarm, globalBest, rank, DrawCoefficients(d1, d2, d3), r1, r2, pick, v, m, ss, gs);
  }

  /** Rank.ranking(s.getFitness(), epsilon, alpha) on a uniformly shaped swarm. */
  method RankFitness(s: Swarm, v: nat, m: nat, epsilon: real, alpha: real, ghost states: seq<State>)
    returns (rank: seq<int>)
    requires s.Shaped(v, m) && s.particle.Length > 0 && states == s.States()
    requires NoAlphaOverflow(Fitnesses(states), alpha)
    ensures AllShaped(states, v, m) && rank == Ranks(Fitnesses(states), epsilon, alpha)
  {
    var rows := FitnessMatrix(s, v, m, states);
    rank := Ranking(rows, epsilon, alpha);
    assert rank == Ranks(Fitnesses(states), epsilon, alpha);
  }

  /**
   * A leader has the archive's lowest rank, so when some member of the
   * archive is dominated by no other, no other member dominates the leader
   * either.
   */
  lemma LeaderUndominated(f: seq<Fitness>, leader: int, j: int)
    requires SameArity(f) && 0 <= leader < |f| && 0 <= j < |f|
    requires Ranks(f, 0.0, 0.0)[leader] == MinInt(Ranks(f, 0.0, 0.0))
    requires forall k :: 0 <= k < |f| && k != j ==> !DominatedRelaxed(f[k], f[j], 0.0, 0.0)
    ensures forall k :: 0 <= k < |f| && k != leader ==> !DominatedRelaxed(f[k], f[leader], 0.0, 0.0)
  {
    var rank := Ranks(f, 0.0, 0.0);
    DominatorsZero(f, 0.0, 0.0, j, |f|);
    assert rank[j] == 1;
    assert rank[leader] == 1;
    DominatorsZero(f, 0.0, 0.0, leader, |f|);
  }

  // ---------------------------------------------------------------------------
  // mutate
  // ---------------------------------------------------------------------------

  /**
   * The sizes of the uniform, non-uniform and untouched groups: a third of
   * the swarm each, the remainder going to the first groups.
   */
  function SplitSizes(n: nat): (r: (nat, nat, nat))
    ensures r.0 + r.1 + r.2 == n
    ensures r.0 >= r.1 >= r.2 >= r.0 - 1
    ensures r.2 == n / 3
  {
    var size := n / 3;
    var remainder := n % 3;
    if remainder == 0 then (size, size, size)
    else if remainder == 1 then (size + 1, size, size)
    else (size + 1, size + 1, size)
  }

  /** 1 / numberOfVariables. With no variables the mutation loops never run, so the value is not used. */
  function MutationRate(v: nat): real {
    if v == 0 then 0.0 else 1.0 / v as real
  }

  /**
   * The draws for one component: the gate compared with the rate before the
   * position changes, the value drawn when it does, and the same pair for
   * the velocity.
   */
  datatype MutationDraws = MutationDraws(positionGate: real, position: real, velocityGate: real, velocity: real)

  /** The values of the first n components' draws are all in [0, 1). */
  predicate UnitDraws(d: seq<MutationDraws>, n: nat)
    requires n <= |d|
  {
    forall j :: 0 <= j < n ==> Unit(d[j].position) && Unit(d[j].velocity)
  }

  /** Whether a particle can be mutated: the loops index velocity and the draws by position. */
  predicate CanMutate(s: State, d: seq<MutationDraws>) {
    |s.position| <= |s.velocity| && |s.position| <= |d|
  }

  /**
   * Uniform mutation of the first n components: a component whose gate falls
   * below the rate takes the drawn value (the velocity shifted down by 0.5),
   * every other component keeps its value.
   */
  function UniformPrefix(s: State, rate: real, d: seq<MutationDraws>, n: nat): (r: State)
    requires CanMutate(s, d) && n <= |s.position|
    ensures |r.position| == |s.position| && |r.velocity| == |s.velocity|
    ensures r == s.(position := r.position, velocity := r.velocity)
    ensures forall j :: 0 <= j < n ==>
      && r.position[j] == (if d[j].positionGate < rate then d[j].position else s.position[j])
      && r.velocity[j] == (if d[j].velocityGate < rate then d[j].velocity - 0.5 else s.velocity[j])
    ensures forall j :: n <= j < |s.position| ==> r.position[j] == s.position[j]
    ensures forall j :: n <= j < |s.velocity| ==> r.velocity[j] == s.velocity[j]
  {
    if n == 0 then s
    else
      var t := UniformPrefix(s, rate, d, n - 1);
      var j := n - 1;
      var t' := if d[j].positionGate < rate then t.(position := t.position[j := d[j].position]) else t;
      if d[j].velocityGate < rate then t'.(velocity := t'.velocity[j := d[j].velocity - 0.5]) else t'
  }

  /** x moved by (draw - 0.5) / sqrt(iterate + 1) and clamped into [min, max]. */
  function Perturb(x: real, draw: real, root: real, max: real, min: real): (r: real)
    requires root > 0.0
    ensures min <= max ==> min <= r <= max
  {
    Limit(x + (draw - 0.5) / root, max, min)
  }

  /**
   * Non-uniform mutation of the first n components: a component whose gate
   * falls below the rate is perturbed and clamped (position to [0, 1],
   * velocity to [-0.5, 0.5]), every other component keeps its value.
   */
  function NonUniformPrefix(s: State, rate: real, root: real, d: seq<MutationDraws>, n: nat): (r: State)
    requires CanMutate(s, d) && n <= |s.position| && root > 0.0
    ensures |r.position| == |s.position| && |r.velocity| == |s.velocity|
    ensures r == s.(position := r.position, velocity := r.velocity)
    ensures forall j :: 0 <= j < n ==>
      && r.position[j] == (if d[j].positionGate < rate then Perturb(s.position[j], d[j].position, root, 1.0, 0.0)
                           else s.position[j])
      && r.velocity[j] == (if d[j].velocityGate < rate then Perturb(s.velocity[j], d[j].velocity, root, 0.5, -0.5)
                           else s.velocity[j])
    ensures forall j :: n <= j < |s.position| ==> r.position[j] == s.position[j]
    ensures forall j :: n <= j < |s.velocity| ==> r.velocity[j] == s.velocity[j]
  {
    if n == 0 then s
    else
      var t := NonUniformPrefix(s, rate, root, d, n - 1);
      var j := n - 1;
      var t' := if d[j].positionGate < rate
        then t.(position := t.position[j := Perturb(t.position[j], d[j].position, root, 1.0, 0.0)]) else t;
      if d[j].velocityGate < rate
      then t'.(velocity := t'.velocity[j := Perturb(t'.velocity[j], d[j].velocity, root, 0.5, -0.5)]) else t'
  }

  /** Both mutations keep a particle in bounds (uniform mutation given draws in [0, 1)). */
  lemma MutationsKeepBounds(s: State, rate: real, root: real, d: seq<MutationDraws>)
    requires CanMutate(s, d) && root > 0.0 && InBounds(s)
    ensures UnitDraws(d, |s.position|) ==> InBounds(UniformPrefix(s, rate, d, |s.position|))
    ensures InBounds(NonUniformPrefix(s, rate, root, d, |s.position|))
  {
    var u := UniformPrefix(s, rate, d, |s.position|);
    if UnitDraws(d, |s.position|) {
      forall j | 0 <= j < |u.velocity| ensures -0.5 <= u.velocity[j] <= 0.5 {
        if j < |s.position| && d[j].velocityGate < rate {
          assert Unit(d[j].velocity);
        }
      }
    }
  }

  /** The inner loop of the uniform mutation, on one particle. */
  method MutateUniformOne(p: Particle, rate: real, d: seq<MutationDraws>)
    requires CanMutate(p.Snapshot(), d)
    modifies p
    ensures p.Snapshot() == UniformPrefix(old(p.Snapshot()), rate, d, |old(p.position)|)
  {
    ghost var s := p.Snapshot();
    for j := 0 to |p.position|
      invariant p.Snapshot() == UniformPrefix(s, rate, d, j)
    {
      if d[j].positionGate < rate {
        p.position := p.position[j := d[j].position];
      }
      if d[j].velocityGate < rate {
        p.velocity := p.velocity[j := d[j].velocity - 0.5];
      }
    }
  }

  /** The inner loop of the non-uniform mutation, on one particle. */
  method MutateNonUniformOne(p: Particle, rate: real, root: real, d: seq<MutationDraws>)
    requires CanMutate(p.Snapshot(), d) && root > 0.0
    modifies p
    ensures p.Snapshot() == NonUniformPrefix(old(p.Snapshot()), rate, root, d, |old(p.position)|)
  {
    ghost var s := p.Snapshot();
    for j := 0 to |p.position|
      invariant p.Snapshot() == NonUniformPrefix(s, rate, root, d, j)
    {
      if d[j].positionGate < rate {
        p.position := p.position[j := Perturb(p.position[j], d[j].position, root, 1.0, 0.0)];
      }
      if d[j].velocityGate < rate {
        p.velocity := p.velocity[j := Perturb(p.velocity[j], d[j].velocity, root, 0.5, -0.5)];
      }
    }
  }

  /** The uniform mutation loop over a group whose particles hold gs. */
  method MutateUniform(group: Swarm, rate: real, draws: seq<seq<MutationDraws>>, ghost gs: seq<State>)
    requires group.Valid() && gs == group.States() && |draws| >= |gs|
    requires forall i :: 0 <= i < |gs| ==> CanMutate(gs[i], draws[i])
    modifies group.particle[..]
    ensures forall i :: 0 <= i < |gs| ==>
      group.particle[i].Snapshot() == UniformPrefix(gs[i], rate, draws[i], |gs[i].position|)
  {
    for i := 0 to group.particle.Length
      invariant forall k :: 0 <= k < i ==>
        group.particle[k].Snapshot() == UniformPrefix(gs[k], rate, draws[k], |gs[k].position|)
      invariant forall k :: i <= k < |gs| ==> group.particle[k].Snapshot() == gs[k]
    {
      var p := group.particle[i];
      assert p.Snapshot() == gs[i];
      MutateUniformOne(p, rate, draws[i]);
      assert forall k :: 0 <= k < |gs| && k != i ==> group.particle[k] != p;
    }
  }

  /** The non-uniform mutation loop over a group whose particles hold gs. */
  method MutateNonUniform(group: Swarm, rate: real, root: real, draws: seq<seq<MutationDraws>>, ghost gs: seq<State>)
    requires group.Valid() && gs == group.States() && |draws| >= |gs| && root > 0.0
    requires forall i :: 0 <= i < |gs| ==> CanMutate(gs[i], draws[i])
    modifies group.particle[..]
    ensures forall i :: 0 <= i < |gs| ==>
      group.particle[i].Snapshot() == NonUniformPrefix(gs[i], rate, root, draws[i], |gs[i].position|)
  {
    for i := 0 to group.particle.Length
      invariant forall k :: 0 <= k < i ==>
        group.particle[k].Snapshot() == NonUniformPrefix(gs[k], rate, root, draws[k], |gs[k].position|)
      invariant forall k :: i <= k < |gs| ==> group.particle[k].Snapshot() == gs[k]
    {
      var p := group.particle[i];
      assert p.Snapshot() == gs[i];
      MutateNonUniformOne(p, rate, root, draws[i]);
      assert forall k :: 0 <= k < |gs| && k != i ==> group.particle[k] != p;
    }
  }

  /** The draws cover every component of every particle of the first n groups' members. */
  predicate DrawsFit(draws: seq<seq<MutationDraws>>, n: nat, v: nat) {
    |draws| >= n && forall i :: 0 <= i < n ==> |draws[i]| >= v
  }

  /** The particles listed by index all have v variables, and draw k covers particle index[k]. */
  predicate GroupFits(ss: seq<State>, index: seq<int>, draws: seq<seq<MutationDraws>>, v: nat) {
    && DrawsFit(draws, |index|, v)
    && forall k :: 0 <= k < |index| ==> 0 <= index[k] < |ss| && |ss[index[k]].position| == v <= |ss[index[k]].velocity|
  }

  /** The particles listed by index, each mutated uniformly with its own draws. */
  function UniformGroup(ss: seq<State>, index: seq<int>, rate: real, draws: seq<seq<MutationDraws>>, v: nat)
    : (r: seq<State>)
    requires GroupFits(ss, index, draws, v)
    ensures |r| == |index|
    ensures forall k :: 0 <= k < |index| ==> r[k] == UniformPrefix(ss[index[k]], rate, draws[k], v)
  {
    seq(|index|, k requires 0 <= k < |index| => UniformPrefix(ss[index[k]], rate, draws[k], v))
  }

  /** The particles listed by index, each mutated non-uniformly with its own draws. */
  function NonUniformGroup(ss: seq<State>, index: seq<int>, rate: real, root: real,
                           draws: seq<seq<MutationDraws>>, v: nat): (r: seq<State>)
    requires GroupFits(ss, index, draws, v) && root > 0.0
    ensures |r| == |index|
    ensures forall k :: 0 <= k < |index| ==> r[k] == NonUniformPrefix(ss[index[k]], rate, root, draws[k], v)
  {
    seq(|index|, k requires 0 <= k < |index| => NonUniformPrefix(ss[index[k]], rate, root, draws[k], v))
  }

  /** The precondition of mutate on values: a permutation, three non-empty groups and enough draws. */
  predicate CanMutateSwarm(ss: seq<State>, shuffled: seq<int>, v: nat,
                           uniformDraws: seq<seq<MutationDraws>>, nonUniformDraws: seq<seq<MutationDraws>>) {
    && |ss| >= 3 && IsPermutation(shuffled, |ss|)
    && (forall i :: 0 <= i < |ss| ==> |ss[i].position| == v <= |ss[i].velocity|)
    && DrawsFit(uniformDraws, SplitSizes(|ss|).0, v) && DrawsFit(nonUniformDraws, SplitSizes(|ss|).1, v)
  }

  /**
   * What mutate returns, as values: shuffled lists the particles; the first
   * group mutated uniformly, the second non-uniformly and the third as it
   * was, one after the other.
   */
  function Mutated(ss: seq<State>, shuffled: seq<int>, v: nat, root: real,
                   uniformDraws: seq<seq<MutationDraws>>, nonUniformDraws: seq<seq<MutationDraws>>): (r: seq<State>)
    requires CanMutateSwarm(ss, shuffled, v, uniformDraws, nonUniformDraws) && root > 0.0
    ensures |r| == |ss|
  {
    var (n1, n2, n3) := SplitSizes(|ss|);
    var rate := MutationRate(v);
    UniformGroup(ss, shuffled[..n1], rate, uniformDraws, v) +
    NonUniformGroup(ss, shuffled[n1..n1 + n2], rate, root, nonUniformDraws, v) +
    Picked(ss, shuffled[n1 + n2..])
  }

  /** Slot k of what mutate returns, in closed form. */
  lemma MutatedAt(ss: seq<State>, shuffled: seq<int>, v: nat, root: real,
                  uniformDraws: seq<seq<MutationDraws>>, nonUniformDraws: seq<seq<MutationDraws>>, k: int,
                  n1: nat, n2: nat, rate: real)
    requires CanMutateSwarm(ss, shuffled, v, uniformDraws, nonUniformDraws) && root > 0.0 && 0 <= k < |ss|
    requires n1 == SplitSizes(|ss|).0 && n2 == SplitSizes(|ss|).1 && rate == MutationRate(v)
    ensures k < n1 ==>
      Mutated(ss, shuffled, v, root, uniformDraws, nonUniformDraws)[k] ==
      UniformPrefix(ss[shuffled[k]], rate, uniformDraws[k], v)
    ensures n1 <= k < n1 + n2 ==>
      Mutated(ss, shuffled, v, root, uniformDraws, nonUniformDraws)[k] ==
      NonUniformPrefix(ss[shuffled[k]], rate, root, nonUniformDraws[k - n1], v)
    ensures n1 + n2 <= k ==> Mutated(ss, shuffled, v, root, uniformDraws, nonUniformDraws)[k] == ss[shuffled[k]]
  {
    MutatedGroups(ss, shuffled, v, root, uniformDraws, nonUniformDraws, n1, n2, rate);
    var u := UniformGroup(ss, shuffled[..n1], rate, uniformDraws, v);
    var nu := NonUniformGroup(ss, shuffled[n1..n1 + n2], rate, root, nonUniformDraws, v);
    var os := Picked(ss, shuffled[n1 + n2..]);
    ThreeGroupsAt(u, nu, os, k);
    if k < n1 {
      assert u[k] == UniformPrefix(ss[shuffled[k]], rate, uniformDraws[k], v);
    } else if k < n1 + n2 {
      assert shuffled[n1..n1 + n2][k - n1] == shuffled[k];
      assert nu[k - n1] == NonUniformPrefix(ss[shuffled[k]], rate, root, nonUniformDraws[k - n1], v);
    } else {
      assert os[k - n1 - n2] == ss[shuffled[k]];
    }
  }

  /** Slot k of three groups laid end to end. */
  lemma ThreeGroupsAt<T>(a: seq<T>, b: seq<T>, c: seq<T>, k: int)
    requires 0 <= k < |a| + |b| + |c|
    ensures (a + b + c)[k] == if k < |a| then a[k] else if k < |a| + |b| then b[k - |a|] else c[k - |a| - |b|]
  {
  }

  /**
   * What mutate keeps: slot k of the result is particle shuffled[k] with at
   * most its position and velocity changed, the untouched third group is
   * copied as it was, and a particle within the bounds stays within them
   * (uniform draws being unit values).
   */
  lemma MutatedKeeps(ss: seq<State>, shuffled: seq<int>, v: nat, root: real,
                     uniformDraws: seq<seq<MutationDraws>>, nonUniformDraws: seq<seq<MutationDraws>>, k: int)
    requires CanMutateSwarm(ss, shuffled, v, uniformDraws, nonUniformDraws) && root > 0.0 && 0 <= k < |ss|
    ensures var r := Mutated(ss, shuffled, v, root, uniformDraws, nonUniformDraws)[k];
      r == ss[shuffled[k]].(position := r.position, velocity := r.velocity) && |r.position| == v
    ensures SplitSizes(|ss|).0 + SplitSizes(|ss|).1 <= k ==>
      Mutated(ss, shuffled, v, root, uniformDraws, nonUniformDraws)[k] == ss[shuffled[k]]
    ensures InBounds(ss[shuffled[k]]) && (k < SplitSizes(|ss|).0 ==> UnitDraws(uniformDraws[k], v)) ==>
      InBounds(Mutated(ss, shuffled, v, root, uniformDraws, nonUniformDraws)[k])
  {
    var n1, n2, rate := SplitSizes(|ss|).0, SplitSizes(|ss|).1, MutationRate(v);
    MutatedAt(ss, shuffled, v, root, uniformDraws, nonUniformDraws, k, n1, n2, rate);
    var s := ss[shuffled[k]];
    if InBounds(s) {
      if k < n1 {
        MutationsKeepBounds(s, rate, root, uniformDraws[k]);
      } else if k < n1 + n2 {
        MutationsKeepBounds(s, rate, root, nonUniformDraws[k - n1]);
      }
    }
  }

  /** Swarm.picup on a uniformly shaped swarm with every index in range: the picked values, in fresh particles. */
  method Pick(swarm: Swarm, index: seq<int>, v: nat, m: nat, ghost ss: seq<State>) returns (group: Swarm)
    requires swarm.Shaped(v, m) && swarm.particle.Length > 0 && ss == swarm.States()
    requires forall k :: 0 <= k < |index| ==> 0 <= index[k] < |ss|
    ensures fresh(group) && fresh(group.particle) && group.Valid() && group.Shaped(v, m)
    ensures forall k :: 0 <= k < group.particle.Length ==> fresh(group.particle[k])
    ensures group.States() == Picked(ss, index)
  {
    group := Picup(swarm, index);
    forall k | 0 <= k < |index|
      ensures group.particle[k].Snapshot() == ss[index[k]]
    {
      CopyStateMeaning(ss[index[k]]);
    }
  }

  /** The first group of mutate: picked, then mutated uniformly. */
  method PickUniform(swarm: Swarm, index: seq<int>, rate: real, draws: seq<seq<MutationDraws>>,
                     v: nat, m: nat, ghost ss: seq<State>) returns (group: Swarm)
    requires swarm.Shaped(v, m) && swarm.particle.Length > 0 && ss == swarm.States()
    requires GroupFits(ss, index, draws, v)
    ensures fresh(group) && group.Shaped(v, m)
    ensures group.States() == UniformGroup(ss, index, rate, draws, v)
  {
    group := Pick(swarm, index, v, m, ss);
    MutateUniform(group, rate, draws, Picked(ss, index));
    ghost var rs := UniformGroup(ss, index, rate, draws, v);
    forall k | 0 <= k < |rs|
      ensures group.particle[k].Snapshot() == rs[k] && StateShaped(rs[k], v, m)
    {
      assert Picked(ss, index)[k] == ss[index[k]];
      assert rs[k] == UniformPrefix(ss[index[k]], rate, draws[k], v);
      assert StateShaped(ss[index[k]], v, m);
    }
    GroupHolds(group, rs, v, m);
  }

  /** The second group of mutate: picked, then mutated non-uniformly. */
  method PickNonUniform(swarm: Swarm, index: seq<int>, rate: real, root: real, draws: seq<seq<MutationDraws>>,
                        v: nat, m: nat, ghost ss: seq<State>) returns (group: Swarm)
    requires swarm.Shaped(v, m) && swarm.particle.Length > 0 && ss == swarm.States()
    requires GroupFits(ss, index, draws, v) && root > 0.0
    ensures fresh(group) && group.Shaped(v, m)
    ensures group.States() == NonUniformGroup(ss, index, rate, root, draws, v)
  {
    group := Pick(swarm, index, v, m, ss);
    MutateNonUniform(group, rate, root, draws, Picked(ss, index));
    ghost var rs := NonUniformGroup(ss, index, rate, root, draws, v);
    forall k | 0 <= k < |rs|
      ensures group.particle[k].Snapshot() == rs[k] && StateShaped(rs[k], v, m)
    {
      assert Picked(ss, index)[k] == ss[index[k]];
      assert rs[k] == NonUniformPrefix(ss[index[k]], rate, root, draws[k], v);
      assert StateShaped(ss[index[k]], v, m);
    }
    GroupHolds(group, rs, v, m);
  }

  /** A group whose slots hold the shaped values rs, in order, is shaped and its states are rs. */
  lemma GroupHolds(group: Swarm, rs: seq<State>, v: nat, m: nat)
    requires group.Full() && group.particle.Length == |rs|
    requires forall k :: 0 <= k < |rs| ==> group.particle[k].Snapshot() == rs[k] && StateShaped(rs[k], v, m)
    ensures group.Shaped(v, m) && group.States() == rs
  {
  }

  /**
   * mutate(swarm, iterate): the shuffled indices split the swarm into three
   * picked groups; the first is mutated uniformly, the second non-uniformly,
   * and add(uniform, add(nonUniform, untouched)) is returned. A swarm of fewer
   * than three particles leaves the last group empty, and add reads the
   * first particle of its second argument, so at least three are needed.
   */
  method Mutate(swarm: Swarm, root: real, shuffled: seq<int>,
                uniformDraws: seq<seq<MutationDraws>>, nonUniformDraws: seq<seq<MutationDraws>>,
                v: nat, m: nat, ghost ss: seq<State>)
    returns (result: Swarm)
    requires swarm.Shaped(v, m) && ss == swarm.States() && root > 0.0
    requires CanMutateSwarm(ss, shuffled, v, uniformDraws, nonUniformDraws)
    ensures fresh(result) && result.Valid() && result.particle.Length == |ss|
    ensures result.States() == Mutated(ss, shuffled, v, root, uniformDraws, nonUniformDraws)
  {
    var n := swarm.particle.Length;
    var rate := MutationRate(|swarm.particle[0].position|);
    assert rate == MutationRate(v) by { assert swarm.particle[0].Snapshot() == ss[0]; }
    var sizes := SplitSizes(n);
    var num1, num2 := sizes.0, sizes.1;
    MutatedGroups(ss, shuffled, v, root, uniformDraws, nonUniformDraws, num1, num2, rate);
    result := Regroup(swarm, shuffled[..num1], shuffled[num1..num1 + num2], shuffled[num1 + num2..],
                      rate, root, uniformDraws, nonUniformDraws, v, m, ss);
  }

  /**
   * The groups of mutate, given their indices: the first picked and mutated
   * uniformly, the second picked and mutated non-uniformly, the third picked,
   * and add(uniform, add(nonUniform, untouched)).
   */
  method Regroup(swarm: Swarm, index1: seq<int>, index2: seq<int>, index3: seq<int>, rate: real, root: real,
                 uniformDraws: seq<seq<MutationDraws>>, nonUniformDraws: seq<seq<MutationDraws>>,
                 v: nat, m: nat, ghost ss: seq<State>)
    returns (result: Swarm)
    requires swarm.Shaped(v, m) && swarm.particle.Length > 0 && ss == swarm.States() && root > 0.0
    requires GroupFits(ss, index1, uniformDraws, v) && GroupFits(ss, index2, nonUniformDraws, v)
    requires |index3| > 0 && forall k :: 0 <= k < |index3| ==> 0 <= index3[k] < |ss|
    ensures fresh(result) && result.Valid()
    ensures result.States() == UniformGroup(ss, index1, rate, uniformDraws, v) +
      NonUniformGroup(ss, index2, rate, root, nonUniformDraws, v) + Picked(ss, index3)
  {
    var uniform := PickUniform(swarm, index1, rate, uniformDraws, v, m, ss);
    ghost var u := uniform.States();
    var nonUniform := PickNonUniform(swarm, index2, rate, root, nonUniformDraws, v, m, ss);
    ghost var nu := nonUniform.States();
    var untouched := Pick(swarm, index3, v, m, ss);
    ghost var os := untouched.States();
    result := JoinGroups(uniform, nonUniform, untouched, v, m, u, nu, os);
  }

  /** add(uniform, add(nonUniform, untouched)), the last step of mutate. */
  method JoinGroups(uniform: Swarm, nonUniform: Swarm, untouched: Swarm, v: nat, m: nat,
                    ghost u: seq<State>, ghost nu: seq<State>, ghost os: seq<State>)
    returns (result: Swarm)
    requires uniform.Shaped(v, m) && nonUniform.Shaped(v, m) && untouched.Shaped(v, m) && untouched.particle.Length > 0
    requires u == uniform.States() && nu == nonUniform.States() && os == untouched.States()
    ensures fresh(result) && result.Valid() && result.States() == u + nu + os
  {
    var tail := Join(nonUniform, untouched, v, m, nu, os);
    result := Join(uniform, tail, v, m, u, nu + os);
    assert u + (nu + os) == u + nu + os;
  }

  /** Mutated is the three groups, one after the other. */
  lemma MutatedGroups(ss: seq<State>, shuffled: seq<int>, v: nat, root: real,
                      uniformDraws: seq<seq<MutationDraws>>, nonUniformDraws: seq<seq<MutationDraws>>,
                      n1: nat, n2: nat, rate: real)
    requires CanMutateSwarm(ss, shuffled, v, uniformDraws, nonUniformDraws) && root > 0.0
    requires n1 == SplitSizes(|ss|).0 && n2 == SplitSizes(|ss|).1 && rate == MutationRate(v)
    ensures n1 + n2 < |shuffled|
    ensures GroupFits(ss, shuffled[..n1], uniformDraws, v) && GroupFits(ss, shuffled[n1..n1 + n2], nonUniformDraws, v)
    ensures forall k :: n1 + n2 <= k < |shuffled| ==> 0 <= shuffled[k] < |ss|
    ensures Mutated(ss, shuffled, v, root, uniformDraws, nonUniformDraws) ==
        UniformGroup(ss, shuffled[..n1], rate, uniformDraws, v) +
        NonUniformGroup(ss, shuffled[n1..n1 + n2], rate, root, nonUniformDraws, v) +
        Picked(ss, shuffled[n1 + n2..])
  {
  }

  // ---------------------------------------------------------------------------
  // evaluate
  // ---------------------------------------------------------------------------

  /** The constraint array a particle holds once evaluate has stored the answer ev. */
  function EvaluatedViolation(s: State, ev: EvaluatedValues): seq<real> {
    if |s.constraintViolation| == 0 then s.constraintViolation else ev.constraintViolation
  }

  /** updateBest can run after evaluate stored ev (no index error, the best arrays are wide enough). */
  predicate Assessable(s: State, ev: EvaluatedValues, numberOfObjectives: int) {
    var best := Best(s.bestPosition, s.bestFitness, s.bestConstraintViolation);
    && CanUpdateBest(numberOfObjectives, ev.fitness, EvaluatedViolation(s, ev), best)
    && (Improves(numberOfObjectives, ev.fitness, EvaluatedViolation(s, ev), best) ==>
          |s.position| <= |s.bestPosition| && |ev.fitness| <= |s.bestFitness|)
  }

  /**
   * evaluate followed by updateBest, on values: the fitness (and, for a
   * constrained particle, the violations) become the objective function's
   * answer, position and velocity stay, and the best record moves as
   * NextBest says.
   */
  function Assessed(s: State, ev: EvaluatedValues, numberOfObjectives: int): (r: State)
    requires Assessable(s, ev, numberOfObjectives)
    ensures r.position == s.position && r.velocity == s.velocity
    ensures r.fitness == ev.fitness && r.constraintViolation == EvaluatedViolation(s, ev)
    ensures Best(r.bestPosition, r.bestFitness, r.bestConstraintViolation) ==
      NextBest(numberOfObjectives, s.position, ev.fitness, EvaluatedViolation(s, ev),
               Best(s.bestPosition, s.bestFitness, s.bestConstraintViolation))
  {
    var b := NextBest(numberOfObjectives, s.position, ev.fitness, EvaluatedViolation(s, ev),
                      Best(s.bestPosition, s.bestFitness, s.bestConstraintViolation));
    s.(fitness := ev.fitness, constraintViolation := EvaluatedViolation(s, ev),
       bestPosition := b.position, bestFitness := b.fitness, bestConstraintViolation := b.constraintViolation)
  }

  /** particle.evaluate(name) then particle.updateBest(numberOfObjectives). */
  method Assess(p: Particle, ev: EvaluatedValues, numberOfObjectives: int)
    requires Assessable(p.Snapshot(), ev, numberOfObjectives)
    modifies p
    ensures p.Snapshot() == Assessed(old(p.Snapshot()), ev, numberOfObjectives)
  {
    p.Evaluate(ev);
    p.UpdateBest(numberOfObjectives);
  }

  /**
   * evaluate(swarm, name): particle i is evaluated, the objective function
   * answering evaluations[i], and its best record updated, with the number
   * of objectives read from particle 0 before the loop.
   */
  method Evaluate(swarm: Swarm, evaluations: seq<EvaluatedValues>, ghost ss: seq<State>)
    requires swarm.Valid() && swarm.particle.Length > 0 && ss == swarm.States() && |evaluations| == |ss|
    requires forall i :: 0 <= i < |ss| ==> Assessable(ss[i], evaluations[i], |ss[0].fitness|)
    modifies swarm.particle[..]
    ensures forall i :: 0 <= i < |ss| ==>
      swarm.particle[i].Snapshot() == Assessed(ss[i], evaluations[i], |ss[0].fitness|)
  {
    var numberOfObjectives := |swarm.particle[0].fitness|;
    for i := 0 to swarm.particle.Length
      invariant forall k :: 0 <= k < i ==>
        swarm.particle[k].Snapshot() == Assessed(ss[k], evaluations[k], numberOfObjectives)
      invariant forall k :: i <= k < |ss| ==> swarm.particle[k].Snapshot() == ss[k]
    {
      var p := swarm.particle[i];
      assert p.Snapshot() == ss[i];
      Assess(p, evaluations[i], numberOfObjectives);
      assert forall k :: 0 <= k < |ss| && k != i ==> swarm.particle[k] != p;
    }
  }

  // ---------------------------------------------------------------------------
  // select
  // ---------------------------------------------------------------------------

  /**
   * select(swarm, globalBest, name, epsilon, alpha): the swarm followed by
   * the archive is ranked by the relaxed rule on the raw fitness, and the
   * first swarm.length slots of globalBest are overwritten as Truncate says.
   * maxValue and minValue are the objective function's bounds, used to
   * normalise the fitness before the crowding distances.
   */
  method Select(swarm: Swarm, globalBest: Swarm, v: nat, m: nat, maxValue: seq<real>, minValue: seq<real>,
                epsilon: real, alpha: real, ghost ss: seq<State>, ghost gs: seq<State>)
    returns (ghost rank: seq<int>, ghost order: seq<int>, ghost crowding: seq<real>)
    requires swarm.Shaped(v, m) && swarm.particle.Length > 0 && ss == swarm.States()
    requires globalBest.Valid() && globalBest.Shaped(v, m) && gs == globalBest.States()
    requires 0 < |ss| <= |gs|
    requires NoAlphaOverflow(Fitnesses(ss + gs), alpha)
    modifies globalBest.particle
    ensures rank == Ranks(Fitnesses(ss + gs), epsilon, alpha) && Selectable(rank, |ss|)
    ensures IsPermutation(order, BorderSize(rank, |ss|))
    ensures BorderSize(rank, |ss|) > 0 && SameArity(LastFitnessOf(ss + gs, rank, |ss|, maxValue, minValue))
    ensures crowding == Crowding(LastFitnessOf(ss + gs, rank, |ss|, maxValue, minValue),
                                 UpperSize(rank, |ss|), BorderSize(rank, |ss|))
    ensures forall i, j :: 0 <= i < j < |order| ==> crowding[order[i]] >= crowding[order[j]]
    ensures globalBest.Valid()
    ensures forall k :: |ss| <= k < |gs| ==> globalBest.particle[k] == old(globalBest.particle[k])
    ensures forall k :: 0 <= k < |ss| ==> fresh(globalBest.particle[k])
    ensures Holds(globalBest, ss + gs, Chosen(rank, |ss|, order))
  {
    var globalSize := swarm.particle.Length;
    var combined, r := RankCombined(swarm, globalBest, v, m, epsilon, alpha, ss, gs);
    rank := r;
    order, crowding := Truncate(combined, r, globalBest, globalSize, v, m, maxValue, minValue, ss + gs);
  }

  /** The first half of select: Swarm.add(swarm, globalBest) and the ranks of its raw fitness. */
  method RankCombined(swarm: Swarm, globalBest: Swarm, v: nat, m: nat, epsilon: real, alpha: real,
                      ghost ss: seq<State>, ghost gs: seq<State>)
    returns (combined: Swarm, rank: seq<int>)
    requires swarm.Shaped(v, m) && ss == swarm.States()
    requires globalBest.Shaped(v, m) && gs == globalBest.States() && |gs| > 0
    requires NoAlphaOverflow(Fitnesses(ss + gs), alpha)
    ensures fresh(combined) && fresh(combined.particle) && combined.Shaped(v, m) && combined.States() == ss + gs
    ensures rank == Ranks(Fitnesses(ss + gs), epsilon, alpha) && |rank| == |ss| + |gs|
    ensures forall i :: 0 <= i < |rank| ==> rank[i] >= 1
  {
    combined := Join(swarm, globalBest, v, m, ss, gs);
    rank := RankFitness(combined, v, m, epsilon, alpha, ss + gs);
  }
}
