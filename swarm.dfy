/**
 * Swarm.java: an array of particles with matrix-style accessors and the
 * concatenation, pick-up and copy operations the drivers build on. The Java
 * `Particle[] particle` field is never reassigned after construction, so it is
 * a `const` array whose slots start out null.
 */
module Swarms {
  import opened Commons
  import opened Particles

  /** Which particle array a row accessor reads or writes. */
  datatype Field = Position | Velocity | Fitness | Constraint | BestPosition | BestFitness

  function FieldOf(s: State, f: Field): seq<real> {
    match f
    case Position => s.position
    case Velocity => s.velocity
    case Fitness => s.fitness
    case Constraint => s.constraintViolation
    case BestPosition => s.bestPosition
    case BestFitness => s.bestFitness
  }

  /**
   * The field whose length in particle[0] sizes the rows of a getter:
   * getVelocity sizes its rows by the position array, every other getter by
   * the array it returns.
   */
  function WidthField(f: Field): Field {
    if f == Velocity then Position else f
  }

  /** The state with one settable field replaced. */
  function WithField(s: State, f: Field, x: seq<real>): State
    requires f == Position || f == Velocity || f == Fitness
  {
    match f
    case Position => s.(position := x)
    case Velocity => s.(velocity := x)
    case Fitness => s.(fitness := x)
  }

  /** copy() applied to every particle of a list. */
  function CopyAll(ss: seq<State>): (r: seq<State>)
    requires forall i :: 0 <= i < |ss| ==> Copyable(ss[i])
    ensures |r| == |ss| && forall i :: 0 <= i < |ss| ==> r[i] == CopyState(ss[i])
  {
    seq(|ss|, i requires 0 <= i < |ss| && Copyable(ss[i]) => CopyState(ss[i]))
  }

  /** All particles have v variables and m objectives in every array. */
  predicate AllShaped(ss: seq<State>, v: nat, m: nat) {
    forall i :: 0 <= i < |ss| ==> StateShaped(ss[i], v, m)
  }

  /**
   * A particle as the initializing loop leaves it: the initial position and
   * velocity, the maxima copied over zero fitness and into the best fitness,
   * and the position copied over a zero best position.
   */
  predicate Started(s: State, position: seq<real>, velocity: seq<real>, maximum: seq<real>, v: nat, m: nat)
    requires |position| <= v && |maximum| <= m
  {
    && s.position == position && s.velocity == velocity
    && s.fitness == ArrayCopy(maximum, Zeros(m), |maximum|)
    && s.bestFitness == s.fitness
    && s.bestPosition == ArrayCopy(position, Zeros(v), |position|)
  }

  /** One pass of the initializing loop on a zero particle; its constraint arrays stay as they were. */
  method Start(p: Particle, position: seq<real>, velocity: seq<real>, maximum: seq<real>, v: nat, m: nat)
    requires |position| <= v && |maximum| <= m
    requires p.Snapshot().(constraintViolation := [], bestConstraintViolation := []) == ZeroState(v, m)
    modifies p
    ensures Started(p.Snapshot(), position, velocity, maximum, v, m)
    ensures p.constraintViolation == old(p.constraintViolation)
    ensures p.bestConstraintViolation == old(p.bestConstraintViolation)
  {
    p.position := position;
    p.velocity := velocity;
    p.bestPosition := ArrayCopy(p.position, p.bestPosition, |p.position|);
    p.fitness := ArrayCopy(maximum, p.fitness, |maximum|);
    p.bestFitness := ArrayCopy(p.fitness, p.bestFitness, |p.fitness|);
    ArrayCopyWhole(p.fitness, p.bestFitness);
  }

  /** Copies of uniformly shaped particles hold exactly the originals' values. */
  lemma CopyAllShaped(ss: seq<State>, v: nat, m: nat)
    requires AllShaped(ss, v, m)
    ensures (forall i :: 0 <= i < |ss| ==> Copyable(ss[i])) && CopyAll(ss) == ss
  {
    forall i | 0 <= i < |ss| ensures Copyable(ss[i]) && CopyState(ss[i]) == ss[i] {
      CopyStateMeaning(ss[i]);
    }
  }

  class Swarm {
    const particle: array<Particle?>

    /** Swarm(numberOfParticle): an array of that many empty slots. */
    constructor (numberOfParticle: nat)
      ensures particle.Length == numberOfParticle && fresh(particle)
      ensures forall i :: 0 <= i < particle.Length ==> particle[i] == null
    {
      particle := new Particle?[numberOfParticle](_ => null);
    }

    /** Every slot holds a particle. */
    predicate Full()
      reads particle
    {
      forall i :: 0 <= i < particle.Length ==> particle[i] != null
    }

    /** No particle sits in two slots. */
    predicate Separate()
      reads particle
    {
      forall i, j :: 0 <= i < j < particle.Length ==> particle[i] != particle[j]
    }

    predicate Valid()
      reads particle
    {
      Full() && Separate()
    }

    /** Every slot holds a particle with v variables and m objectives in every array. */
    predicate Shaped(v: nat, m: nat)
      reads particle, particle[..]
    {
      Full() && forall i :: 0 <= i < particle.Length ==> StateShaped(particle[i].Snapshot(), v, m)
    }

    /** The values held by the particles, slot by slot. */
    function States(): (r: seq<State>)
      requires Full()
      reads particle, particle[..]
      ensures |r| == particle.Length
      ensures forall i :: 0 <= i < |r| ==> r[i] == particle[i].Snapshot()
    {
      seq(particle.Length, i requires 0 <= i < particle.Length && particle[i] != null
                             reads particle, particle[..] => particle[i].Snapshot())
    }

    /** initialize(numberOfVariables, numberOfObjectives): a fresh zero particle in every slot. */
    method Allocate(numberOfVariables: nat, numberOfObjectives: nat)
      modifies particle
      ensures Valid()
      ensures forall i :: 0 <= i < particle.Length ==> fresh(particle[i])
      ensures forall i :: 0 <= i < particle.Length ==> particle[i].Snapshot() == ZeroState(numberOfVariables, numberOfObjectives)
    {
      for i := 0 to particle.Length
        invariant forall k :: 0 <= k < i ==> particle[k] != null && fresh(particle[k])
        invariant forall k :: 0 <= k < i ==> particle[k].Snapshot() == ZeroState(numberOfVariables, numberOfObjectives)
        invariant forall k, l :: 0 <= k < l < i ==> particle[k] != particle[l]
      {
        particle[i] := new Particle(numberOfVariables, numberOfObjectives);
      }
    }

    /**
     * The first loop of the random initialize methods: a fresh particle per
     * slot, unconstrained when numberOfConstraints is 0 and otherwise with
     * constraint arrays of MAX_VALUE.
     */
    method AllocateConstrained(numberOfVariables: nat, numberOfObjectives: nat, numberOfConstraints: nat)
      modifies particle
      ensures Valid()
      ensures forall k :: 0 <= k < particle.Length ==> fresh(particle[k])
      ensures forall k :: 0 <= k < particle.Length ==>
        && particle[k].Snapshot().(constraintViolation := [], bestConstraintViolation := [])
           == ZeroState(numberOfVariables, numberOfObjectives)
        && |particle[k].constraintViolation| == numberOfConstraints
        && particle[k].bestConstraintViolation == particle[k].constraintViolation
        && (forall c :: 0 <= c < numberOfConstraints ==> particle[k].constraintViolation[c] == MaxValue)
    {
      for i := 0 to particle.Length
        invariant forall k :: 0 <= k < i ==> particle[k] != null && fresh(particle[k])
        invariant forall k, l :: 0 <= k < l < i ==> particle[k] != particle[l]
        invariant forall k :: 0 <= k < i ==>
          && particle[k].Snapshot().(constraintViolation := [], bestConstraintViolation := [])
             == ZeroState(numberOfVariables, numberOfObjectives)
          && |particle[k].constraintViolation| == numberOfConstraints
          && particle[k].bestConstraintViolation == particle[k].constraintViolation
          && (forall c :: 0 <= c < numberOfConstraints ==> particle[k].constraintViolation[c] == MaxValue)
      {
        if numberOfConstraints == 0 {
          particle[i] := new Particle(numberOfVariables, numberOfObjectives);
        } else {
          particle[i] := new Particle.Constrained(numberOfVariables, numberOfObjectives, numberOfConstraints);
          assert particle[i].bestConstraintViolation == particle[i].constraintViolation;
        }
      }
    }

    /**
     * The two random initialize methods, with the random matrices, the
     * objective's maximum and the constraint count passed in (numberOfConstraints
     * 0 for the variant without constraints): every particle starts at its row
     * of initPosition and initVelocity, with the maximum as fitness and best
     * fitness and its position as best position.
     */
    method Initialize(numberOfVariables: nat, numberOfObjectives: nat, numberOfConstraints: nat,
                      initPosition: seq<seq<real>>, initVelocity: seq<seq<real>>, maximum: seq<real>)
      requires |initPosition| >= particle.Length && |initVelocity| >= particle.Length
      requires forall i :: 0 <= i < particle.Length ==> |initPosition[i]| <= numberOfVariables
      requires |maximum| <= numberOfObjectives
      modifies particle
      ensures Valid()
      ensures forall i :: 0 <= i < particle.Length ==> fresh(particle[i])
      ensures forall i :: 0 <= i < particle.Length ==>
        var s := particle[i].Snapshot();
        && s.position == initPosition[i] && s.velocity == initVelocity[i]
        && s.fitness == ArrayCopy(maximum, Zeros(numberOfObjectives), |maximum|)
        && s.bestFitness == s.fitness
        && s.bestPosition == ArrayCopy(initPosition[i], Zeros(numberOfVariables), |initPosition[i]|)
        && |s.constraintViolation| == numberOfConstraints
        && s.bestConstraintViolation == s.constraintViolation
        && (forall k :: 0 <= k < numberOfConstraints ==> s.constraintViolation[k] == MaxValue)
      ensures forall i :: 0 <= i < particle.Length && |initPosition[i]| == numberOfVariables ==>
        particle[i].bestPosition == particle[i].position
      ensures |maximum| == numberOfObjectives ==>
        forall i :: 0 <= i < particle.Length ==> particle[i].fitness == maximum
    {
      AllocateConstrained(numberOfVariables, numberOfObjectives, numberOfConstraints);
      for i := 0 to particle.Length
        invariant Valid()
        invariant forall k :: 0 <= k < particle.Length ==> fresh(particle[k])
        invariant forall k :: 0 <= k < particle.Length ==>
          && |particle[k].constraintViolation| == numberOfConstraints
          && particle[k].bestConstraintViolation == particle[k].constraintViolation
          && (forall c :: 0 <= c < numberOfConstraints ==> particle[k].constraintViolation[c] == MaxValue)
        invariant forall k :: i <= k < particle.Length ==>
          particle[k].Snapshot().(constraintViolation := [], bestConstraintViolation := [])
            == ZeroState(numberOfVariables, numberOfObjectives)
        invariant forall k :: 0 <= k < i ==>
          Started(particle[k].Snapshot(), initPosition[k], initVelocity[k], maximum, numberOfVariables, numberOfObjectives)
      {
        Start(particle[i], initPosition[i], initVelocity[i], maximum, numberOfVariables, numberOfObjectives);
      }
      forall i | 0 <= i < particle.Length && |initPosition[i]| == numberOfVariables
        ensures particle[i].bestPosition == particle[i].position
      {
        ArrayCopyWhole(initPosition[i], Zeros(numberOfVariables));
      }
      if |maximum| == numberOfObjectives {
        ArrayCopyWhole(maximum, Zeros(numberOfObjectives));
      }
    }

    /** Every getter may run: particle[0] exists and no row is wider than its. */
    predicate Readable(f: Field)
      requires Full()
      reads particle, particle[..]
    {
      particle.Length > 0 &&
      forall i :: 0 <= i < particle.Length ==>
        |FieldOf(particle[i].Snapshot(), f)| <= |FieldOf(particle[0].Snapshot(), WidthField(f))|
    }

    /**
     * getPosition, getVelocity, getFitness, getConstraint, getBestPosition and
     * getBestFitness: row i of the new matrix holds particle i's array, padded
     * with zeros to the width particle[0] gives.
     */
    method GetRows(f: Field) returns (matrix: seq<seq<real>>)
      requires Full() && Readable(f)
      ensures |matrix| == particle.Length
      ensures forall i :: 0 <= i < particle.Length ==>
        var row := FieldOf(particle[i].Snapshot(), f);
        var width := |FieldOf(particle[0].Snapshot(), WidthField(f))|;
        |matrix[i]| == width && matrix[i][..|row|] == row &&
        forall k :: |row| <= k < width ==> matrix[i][k] == 0.0
    {
      var width := |FieldOf(particle[0].Snapshot(), WidthField(f))|;
      var rows := new seq<real>[particle.Length](_ => Zeros(width));
      for i := 0 to particle.Length
        invariant forall k :: 0 <= k < i ==>
          var row := FieldOf(particle[k].Snapshot(), f);
          |rows[k]| == width && rows[k][..|row|] == row &&
          forall c :: |row| <= c < width ==> rows[k][c] == 0.0
      {
        var row := FieldOf(particle[i].Snapshot(), f);
        rows[i] := ArrayCopy(row, Zeros(width), |row|);
      }
      matrix := rows[..];
    }

    /**
     * setPosition, setVelocity and setFitness: the front of row i is copied
     * into particle i's array, which keeps its length; nothing else changes.
     */
    method SetRows(f: Field, matrix: seq<seq<real>>)
      requires f == Position || f == Velocity || f == Fitness
      requires Valid() && |matrix| >= particle.Length
      requires forall i :: 0 <= i < particle.Length ==> |matrix[i]| >= |FieldOf(particle[i].Snapshot(), f)|
      modifies particle[..]
      ensures forall i :: 0 <= i < particle.Length ==>
        particle[i].Snapshot() ==
          WithField(old(particle[i].Snapshot()), f, matrix[i][..|FieldOf(old(particle[i].Snapshot()), f)|])
    {
      for i := 0 to particle.Length
        invariant forall k :: i <= k < particle.Length ==> particle[k].Snapshot() == old(particle[k].Snapshot())
        invariant forall k :: 0 <= k < i ==>
          particle[k].Snapshot() ==
            WithField(old(particle[k].Snapshot()), f, matrix[k][..|FieldOf(old(particle[k].Snapshot()), f)|])
      {
        var p := particle[i];
        match f
        case Position => p.position := ArrayCopy(matrix[i], p.position, |p.position|);
        case Velocity => p.velocity := ArrayCopy(matrix[i], p.velocity, |p.velocity|);
        case Fitness => p.fitness := ArrayCopy(matrix[i], p.fitness, |p.fitness|);
      }
    }

    /** particle[i] = p.copy(): slot i takes a fresh copy of p, the other slots keep their particles. */
    method PutCopy(i: int, p: Particle)
      requires 0 <= i < particle.Length && Copyable(p.Snapshot())
      modifies particle
      ensures fresh(particle[i]) && particle[i].Snapshot() == CopyState(p.Snapshot())
      ensures forall k :: 0 <= k < particle.Length && k != i ==> particle[k] == old(particle[k])
    {
      particle[i] := p.Copy();
    }

    /**
     * The copying loop of add and copy: slots offset .. offset+n-1 take fresh
     * copies of src's n particles (whose values are ss) in order, the other
     * slots keep theirs.
     */
    method CopyIn(offset: nat, src: Swarm, ghost ss: seq<State>)
      requires Valid() && src.Full() && src.particle != particle && ss == src.States()
      requires offset + |ss| <= particle.Length
      requires forall i :: 0 <= i < |ss| ==> Copyable(ss[i])
      modifies particle
      ensures Valid()
      ensures forall k :: 0 <= k < particle.Length && !(offset <= k < offset + |ss|) ==>
        particle[k] == old(particle[k])
      ensures forall k :: offset <= k < offset + |ss| ==>
        fresh(particle[k]) && particle[k].Snapshot() == CopyState(ss[k - offset])
    {
      for i := 0 to src.particle.Length
        invariant Valid()
        invariant forall k :: 0 <= k < particle.Length && !(offset <= k < offset + i) ==> particle[k] == old(particle[k])
        invariant forall k :: offset <= k < offset + i ==>
          fresh(particle[k]) && particle[k].Snapshot() == CopyState(ss[k - offset])
      {
        PutCopy(offset + i, src.particle[i]);
      }
    }

    /** copy(): a new swarm holding a copy of every particle. */
    method Copy() returns (result: Swarm)
      requires Full() && particle.Length > 0
      requires forall i :: 0 <= i < particle.Length ==> Copyable(particle[i].Snapshot())
      ensures fresh(result) && fresh(result.particle) && result.Valid()
      ensures forall i :: 0 <= i < result.particle.Length ==> fresh(result.particle[i])
      ensures result.States() == CopyAll(States())
    {
      ghost var ss := States();
      result := ZeroSwarm(particle.Length, |particle[0].position|, |particle[0].fitness|);
      result.CopyWhole(this, ss);
    }

    /** The copying loop of copy: every slot takes a fresh copy of src's particle in the same slot. */
    method CopyWhole(src: Swarm, ghost ss: seq<State>)
      requires Valid() && src.Full() && src.particle != particle && ss == src.States() && |ss| == particle.Length
      requires forall i :: 0 <= i < |ss| ==> Copyable(ss[i])
      modifies particle
      ensures Valid() && forall k :: 0 <= k < particle.Length ==> fresh(particle[k])
      ensures States() == CopyAll(ss)
    {
      CopyIn(0, src, ss);
      forall k | 0 <= k < |ss|
        ensures particle[k].Snapshot() == CopyAll(ss)[k]
      {
        assert particle[k].Snapshot() == CopyState(ss[k - 0]);
      }
      StatesAre(this, CopyAll(ss));
    }

    /**
     * The two copying loops of add: the slots take fresh copies of basis's
     * particles (values bs), then of target's (values ts).
     */
    method Concatenate(basis: Swarm, target: Swarm, ghost bs: seq<State>, ghost ts: seq<State>)
      requires Valid() && particle.Length == |bs| + |ts|
      requires basis.Full() && target.Full() && basis.particle != particle && target.particle != particle
      requires bs == basis.States() && ts == target.States()
      requires forall i :: 0 <= i < |bs| ==> Copyable(bs[i])
      requires forall i :: 0 <= i < |ts| ==> Copyable(ts[i])
      modifies particle
      ensures Valid()
      ensures forall k :: 0 <= k < particle.Length ==> fresh(particle[k])
      ensures forall k :: 0 <= k < |bs| + |ts| ==> particle[k].Snapshot() == CopyState((bs + ts)[k])
    {
      CopyIn(0, basis, bs);
      label Basis:
      CopyIn(basis.particle.Length, target, ts);
      forall k | 0 <= k < |bs| + |ts|
        ensures particle[k].Snapshot() == CopyState((bs + ts)[k])
      {
        if k < |bs| {
          var p := particle[k];
          assert p == old@Basis(particle[k]);
          assert p.Snapshot() == old@Basis(p.Snapshot());
        } else {
          assert (bs + ts)[k] == ts[k - |bs|];
        }
      }
    }
  }

  /**
   * Swarm.add(basis, target): a new swarm of copies of basis's particles
   * (whose values are bs) followed by copies of target's (values ts). It
   * reads target.particle[0], so target is not empty.
   */
  method Add(basis: Swarm, target: Swarm, ghost bs: seq<State>, ghost ts: seq<State>) returns (result: Swarm)
    requires basis.Full() && target.Full() && target.particle.Length > 0
    requires bs == basis.States() && ts == target.States()
    requires forall i :: 0 <= i < |bs| ==> Copyable(bs[i])
    requires forall i :: 0 <= i < |ts| ==> Copyable(ts[i])
    ensures fresh(result) && fresh(result.particle) && result.Valid()
    ensures forall i :: 0 <= i < result.particle.Length ==> fresh(result.particle[i])
    ensures result.particle.Length == |bs| + |ts|
    ensures forall k :: 0 <= k < |bs| + |ts| ==> result.particle[k].Snapshot() == CopyState((bs + ts)[k])
  {
    result := ZeroSwarm(basis.particle.Length + target.particle.Length,
                        |target.particle[0].position|, |target.particle[0].fitness|);
    result.Concatenate(basis, target, bs, ts);
  }

  /** A full swarm whose particles hold rs slot by slot has rs as its values. */
  lemma StatesAre(s: Swarm, rs: seq<State>)
    requires s.Full() && s.particle.Length == |rs|
    requires forall k :: 0 <= k < |rs| ==> s.particle[k].Snapshot() == rs[k]
    ensures s.States() == rs
  {
  }

  /** new Swarm(n) followed by initialize(v, m): n fresh zero particles. */
  method ZeroSwarm(n: nat, v: nat, m: nat) returns (s: Swarm)
    ensures fresh(s) && fresh(s.particle) && s.particle.Length == n && s.Valid()
    ensures forall k :: 0 <= k < n ==> s.particle[k].Snapshot() == ZeroState(v, m)
  {
    s := new Swarm(n);
    s.Allocate(v, m);
  }

  /**
   * Swarm.picup(swarm, index): slot i holds a copy of swarm.particle[index[i]]
   * when that index is in range, and otherwise the zero particle the
   * allocation left there.
   */
  method Picup(swarm: Swarm, index: seq<int>) returns (result: Swarm)
    requires swarm.Full() && swarm.particle.Length > 0
    requires forall i :: 0 <= i < swarm.particle.Length ==> Copyable(swarm.particle[i].Snapshot())
    ensures fresh(result) && fresh(result.particle) && result.Valid()
    ensures forall i :: 0 <= i < result.particle.Length ==> fresh(result.particle[i])
    ensures result.particle.Length == |index|
    ensures forall i :: 0 <= i < |index| ==>
      result.particle[i].Snapshot() ==
        if 0 <= index[i] < swarm.particle.Length then CopyState(swarm.particle[index[i]].Snapshot())
        else ZeroState(|swarm.particle[0].position|, |swarm.particle[0].fitness|)
  {
    var n := swarm.particle.Length;
    var zero := ZeroState(|swarm.particle[0].position|, |swarm.particle[0].fitness|);
    result := new Swarm(|index|);
    result.Allocate(|swarm.particle[0].position|, |swarm.particle[0].fitness|);
    for i := 0 to |index|
      invariant PicupUpTo(result, swarm, index, zero, i)
      invariant forall k :: 0 <= k < result.particle.Length ==> fresh(result.particle[k])
    {
      PicupOne(result, swarm, index, i, zero);
    }
  }

  /**
   * The state of picup's outer loop after i passes: slots before i hold a
   * copy of the particle their index names, or stay zero when it names none;
   * the slots from i on are still zero.
   */
  ghost predicate PicupUpTo(result: Swarm, swarm: Swarm, index: seq<int>, zero: State, i: nat)
    reads result, result.particle, result.particle[..], swarm, swarm.particle, swarm.particle[..]
  {
    && result.Valid() && swarm.Full() && result.particle != swarm.particle
    && result.particle.Length == |index| && i <= |index|
    && (forall j :: 0 <= j < swarm.particle.Length ==> Copyable(swarm.particle[j].Snapshot()))
    && (forall k :: i <= k < |index| ==> result.particle[k].Snapshot() == zero)
    && (forall k :: 0 <= k < i ==>
          result.particle[k].Snapshot() ==
            if 0 <= index[k] < swarm.particle.Length then CopyState(swarm.particle[index[k]].Snapshot()) else zero)
  }

  /** Pass i of picup's outer loop: the inner search over the swarm's slots for index[i]. */
  method PicupOne(result: Swarm, swarm: Swarm, index: seq<int>, i: nat, ghost zero: State)
    requires PicupUpTo(result, swarm, index, zero, i) && i < |index|
    modifies result.particle
    ensures PicupUpTo(result, swarm, index, zero, i + 1)
    ensures forall k :: 0 <= k < result.particle.Length && k != i ==> result.particle[k] == old(result.particle[k])
    ensures result.particle[i] == old(result.particle[i]) || fresh(result.particle[i])
  {
    var n := swarm.particle.Length;
    var j := 0;
    while j < n
      invariant 0 <= j <= n
      invariant !(0 <= index[i] < j)
      invariant result.particle[..] == old(result.particle[..])
    {
      if j == index[i] {
        result.PutCopy(i, swarm.particle[j]);
        break;
      }
      j := j + 1;
    }
  }

  /**
   * Swarm.add on swarms whose particles all have v variables and m
   * objectives: the new swarm holds exactly the values of basis's particles,
   * then of target's, in fresh particles.
   */
  method Join(basis: Swarm, target: Swarm, v: nat, m: nat, ghost bs: seq<State>, ghost ts: seq<State>)
    returns (result: Swarm)
    requires basis.Shaped(v, m) && target.Shaped(v, m) && target.particle.Length > 0
    requires bs == basis.States() && ts == target.States()
    ensures fresh(result) && fresh(result.particle) && result.Valid()
    ensures forall i :: 0 <= i < result.particle.Length ==> fresh(result.particle[i])
    ensures result.particle.Length == |bs| + |ts|
    ensures forall k :: 0 <= k < |bs| + |ts| ==> result.particle[k].Snapshot() == (bs + ts)[k]
    ensures AllShaped(bs + ts, v, m) && result.Shaped(v, m) && result.States() == bs + ts
  {
    assert AllShaped(bs, v, m) && AllShaped(ts, v, m);
    AddConcatenates(bs, ts, v, m);
    CopyAllShaped(bs + ts, v, m);
    result := Add(basis, target, bs, ts);
    forall k | 0 <= k < |bs| + |ts|
      ensures result.particle[k].Snapshot() == (bs + ts)[k]
    {
      assert CopyAll(bs + ts)[k] == CopyState((bs + ts)[k]);
    }
  }

  /** Under uniform shapes add is plain concatenation of the particles' values. */
  lemma AddConcatenates(basis: seq<State>, target: seq<State>, v: nat, m: nat)
    requires AllShaped(basis, v, m) && AllShaped(target, v, m)
    ensures (forall i :: 0 <= i < |basis| ==> Copyable(basis[i]))
    ensures (forall i :: 0 <= i < |target| ==> Copyable(target[i]))
    ensures CopyAll(basis) + CopyAll(target) == basis + target
  {
    CopyAllShaped(basis, v, m);
    CopyAllShaped(target, v, m);
  }
}
