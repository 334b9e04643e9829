/**
 * JGGUNDX.java: the generation model JGG (just generation gap) around the
 * UNDX crossover. Modelled here: the parameters main derives from the number
 * of variables, the replacement slots it draws, the write-back of the
 * replacement individuals into the population, and select, which keeps
 * eliteNumber elites and fills the other slots by roulette on the positions
 * after the elites.
 */
module Jgg {
  import opened Commons
  import opened Individuals
  import opened Populations
  import opened Selection
  import opened Bits

  // ---------------------------------------------------------------------------
  // The parameters of main
  // ---------------------------------------------------------------------------

  /** The int a Java int expression yields for the exact value x: x modulo 2^32, read as signed. */
  function Wrap(x: int): (r: Int32)
    ensures IntMin <= x <= IntMax ==> r == x
  {
    Signed(x % Word)
  }

  /** Integer division truncating toward zero, as Java's int / does before wrapping. */
  function TruncDiv(a: int, b: int): int
    requires b != 0
  {
    if (a < 0) == (b < 0) then Magnitude(a) / Magnitude(b) else -(Magnitude(a) / Magnitude(b))
  }

  function Magnitude(a: int): nat {
    if a < 0 then -a else a
  }

  /** A multiple of a positive n divided by n. */
  lemma DivExact(q: nat, n: int)
    requires 0 < n
    ensures (q * n) / n == q
  {
    var a := q * n;
    var d, m := a / n, a % n;
    assert a == d * n + m && 0 <= m < n;
    var k := q - d;
    assert k * n == m by { assert k * n == q * n - d * n; }
    if k >= 1 {
      MulAtLeast(k, n);
    } else if k <= -1 {
      MulAtMost(k, n);
    }
  }

  lemma MulAtMost(k: int, n: int)
    requires k <= -1 && n > 0
    ensures k * n <= -n
  {
    assert k * n == (k + 1) * n - n;
    assert (k + 1) * n <= 0;
  }

  lemma MulAtLeast(k: int, n: int)
    requires k >= 1 && n > 0
    ensures k * n >= n
  {
    assert k * n == (k - 1) * n + n;
    assert (k - 1) * n >= 0;
  }

  /** The sizes main works with. */
  datatype JggParameters = JggParameters(populations: Int32, replace: Int32, children: Int32, crossoverRate: real)

  /**
   * main's derivation from numberOfVariables n: 50n individuals, n replaced
   * per generation, 10n children, and the crossover rate 10n / n computed in
   * int arithmetic; None where that division throws (n == 0).
   */
  function Parameters(n: Int32): (r: Option<JggParameters>)
    ensures r.None? <==> n == 0
    ensures r.Some? ==> r.value.replace == n
  {
    if n == 0 then None
    else
      var children := Wrap(n * 10);
      Some(JggParameters(Wrap(n * 50), n, children, Wrap(TruncDiv(children, n)) as real))
  }

  /** For any n with 50n in int range, the sizes are 50n, n, 10n and the rate is exactly 10. */
  lemma ParametersInRange(n: Int32)
    requires 1 <= n <= IntMax / 50
    ensures Parameters(n) == Some(JggParameters(50 * n, n, 10 * n, 10.0))
  {
    DivExact(10, n);
    assert TruncDiv(10 * n, n) == 10;
  }

  /** Past IntMax / 50 variables the population size wraps around, here to a negative number. */
  lemma ParametersWrap()
    ensures Parameters(50000000).Some? && Parameters(50000000).value.populations < 0
  {
    assert Wrap(50000000 * 50) == 2500000000 - Word;
  }

  // ---------------------------------------------------------------------------
  // The replacement slots and their write-back
  // ---------------------------------------------------------------------------

  /** Cast.doubleToInt(vector.multiply(numberOfPopulations)) of the random vector. */
  function ReplacementIndices(draws: seq<real>, populations: Int32): (r: seq<int>)
    ensures |r| == |draws|
  {
    seq(|draws|, i requires 0 <= i < |draws| => Scaled(draws[i], populations) as int)
  }

  /** (int) (d * populations) for one draw d. */
  function Scaled(d: real, populations: Int32): Int32 {
    DoubleToInt(d * populations as real)
  }

  /** Draws in [0, 1) pick slots of the population: every index lies in [0, populations). */
  lemma ReplacementInRange(draws: seq<real>, populations: Int32)
    requires UnitDraws(draws) && populations >= 1
    ensures forall i :: 0 <= i < |draws| ==> 0 <= ReplacementIndices(draws, populations)[i] < populations
  {
    var r := ReplacementIndices(draws, populations);
    forall i | 0 <= i < |draws|
      ensures 0 <= r[i] < populations
    {
      ScaledBelow(draws[i], populations);
    }
  }

  lemma ScaledBelow(d: real, p: Int32)
    requires 0.0 <= d < 1.0 && p >= 1
    ensures 0 <= Scaled(d, p) < p
  {
    CastBelow(d, p, d * p as real);
  }

  /** The product x of a draw in [0, 1) and p becomes an int in [0, p) under the Java cast. */
  lemma CastBelow(d: real, p: int, x: real)
    requires 0.0 <= d < 1.0 && 1 <= p <= IntMax && x == d * p as real
    ensures 0 <= DoubleToInt(x) < p
  {
    ScaleBelow(d, p as real, x);
    assert x < IntMax as real;
    var t := Trunc(x);
    assert DoubleToInt(x) == t;
    assert t as real <= x;
  }

  lemma ScaleBelow(d: real, p: real, x: real)
    requires 0.0 <= d < 1.0 && p >= 1.0 && x == d * p
    ensures 0.0 <= x < p
  {
    assert p - d * p == (1.0 - d) * p;
    assert (1.0 - d) * p > 0.0;
  }

  /**
   * The population's values after population.individual[index[i]] =
   * parents.individual[i].copy() for i = 0 .. n-1: later writes overwrite
   * earlier ones.
   */
  function Replaced(gs: seq<Genome>, index: seq<int>, qs: seq<Genome>, n: nat): (r: seq<Genome>)
    requires n <= |index| && n <= |qs|
    requires forall i :: 0 <= i < n ==> 0 <= index[i] < |gs|
    ensures |r| == |gs|
  {
    if n == 0 then gs else Replaced(gs, index, qs, n - 1)[index[n - 1] := CopyGenome(qs[n - 1])]
  }

  /** A slot no write names keeps its individual. */
  lemma {:induction false} ReplacedUntouched(gs: seq<Genome>, index: seq<int>, qs: seq<Genome>, n: nat, k: int)
    requires n <= |index| && n <= |qs|
    requires forall i :: 0 <= i < n ==> 0 <= index[i] < |gs|
    requires 0 <= k < |gs| && forall i :: 0 <= i < n ==> index[i] != k
    ensures Replaced(gs, index, qs, n)[k] == gs[k]
  {
    if n > 0 {
      ReplacedUntouched(gs, index, qs, n - 1, k);
    }
  }

  /** A slot named by write i and by no later write holds a copy of the i-th replacement. */
  lemma {:induction false} ReplacedLastWins(gs: seq<Genome>, index: seq<int>, qs: seq<Genome>, n: nat, i: nat)
    requires n <= |index| && n <= |qs|
    requires forall l :: 0 <= l < n ==> 0 <= index[l] < |gs|
    requires i < n && forall l :: i < l < n ==> index[l] != index[i]
    ensures Replaced(gs, index, qs, n)[index[i]] == CopyGenome(qs[i])
  {
    if i < n - 1 {
      ReplacedLastWins(gs, index, qs, n - 1, i);
    }
  }

  /**
   * The write-back loop of main: slot index[i] of the population takes a
   * fresh copy of replacement i, for every i, in order.
   */
  method Replace(population: Population, parents: Population, index: seq<int>, ghost gs: seq<Genome>,
                 ghost qs: seq<Genome>)
    requires population.Valid() && parents.Full() && population.individual != parents.individual
    requires gs == population.Genomes() && qs == parents.Genomes() && |index| <= |qs|
    requires forall i :: 0 <= i < |index| ==> 0 <= index[i] < |gs|
    modifies population.individual
    ensures population.Valid() && population.Genomes() == Replaced(gs, index, qs, |index|)
  {
    for i := 0 to |index|
      invariant population.Valid() && population.Genomes() == Replaced(gs, index, qs, i)
      invariant parents.Genomes() == qs
    {
      ReplaceOne(population, parents, index, gs, qs, i);
    }
  }

  /** One turn of the write-back: slot index[i] takes a copy of parent i, every other slot is kept. */
  method ReplaceOne(population: Population, parents: Population, index: seq<int>, ghost gs: seq<Genome>,
                    ghost qs: seq<Genome>, i: nat)
    requires population.Valid() && parents.Full() && population.individual != parents.individual
    requires qs == parents.Genomes() && i < |index| <= |qs|
    requires forall k :: 0 <= k < |index| ==> 0 <= index[k] < |gs|
    requires population.Genomes() == Replaced(gs, index, qs, i)
    modifies population.individual
    ensures population.Valid() && parents.Genomes() == qs
    ensures population.Genomes() == Replaced(gs, index, qs, i + 1)
  {
    ghost var before := population.Genomes();
    population.PutCopy(index[i], parents.individual[i]);
    ghost var after := population.Genomes();
    forall k | 0 <= k < |after|
      ensures after[k] == before[index[i] := CopyGenome(qs[i])][k]
    {
    }
  }

  // ---------------------------------------------------------------------------
  // select
  // ---------------------------------------------------------------------------

  /**
   * The roulette of select on a fitness column f: the positions from
   * eliteNumber on, all free, with the column's sum less its first
   * eliteNumber entries.
   */
  function JggWheel(f: seq<real>, eliteNumber: nat, draws: seq<real>): (r: Spun)
    requires eliteNumber <= |f|
    ensures |r.picks| == |draws|
    ensures forall i :: 0 <= i < |draws| && r.picks[i].Some? ==> eliteNumber <= r.picks[i].value < |f|
  {
    Roulette(f, AllFree(|f|), Sum(f) - Sum(f[..eliteNumber]), draws, eliteNumber)
  }

  lemma JggWheelUnfold(f: seq<real>, eliteNumber: nat, draws: seq<real>)
    requires eliteNumber <= |f|
    ensures JggWheel(f, eliteNumber, draws) == Roulette(f, AllFree(|f|), Sum(f) - Sum(f[..eliteNumber]), draws, eliteNumber)
  {
  }

  /** The roulette of select on parent + children. */
  function JggSpun(ps: seq<Genome>, cs: seq<Genome>, eliteNumber: nat, draws: seq<real>): (r: Spun)
    requires eliteNumber <= |ps|
    ensures |r.picks| == |draws|
    ensures forall i :: 0 <= i < |draws| && r.picks[i].Some? ==> eliteNumber <= r.picks[i].value < |ps| + |cs|
  {
    JggWheel(FirstObjectives(CopyAll(ps + cs)), eliteNumber, draws)
  }

  /** The position of parent + children each roulette slot of select copies, or None where its spin missed. */
  function JggSources(ps: seq<Genome>, cs: seq<Genome>, eliteNumber: nat, draws: seq<real>): (r: seq<Option<nat>>)
    requires eliteNumber <= |ps|
    ensures |r| == |draws|
    ensures forall i :: 0 <= i < |r| && r[i].Some? ==> r[i].value < |ps| + |cs|
  {
    Sources(Ranking(CopyAll(ps + cs)), JggSpun(ps, cs, eliteNumber, draws).picks)
  }

  /** select's result on values: the elites, then one roulette slot per draw. */
  function JggSelection(ps: seq<Genome>, cs: seq<Genome>, eliteNumber: nat, draws: seq<real>): (r: seq<Genome>)
    requires 1 <= |ps| && eliteNumber <= |ps|
  {
    var pool := CopyAll(ps + cs);
    Elites(pool, eliteNumber) + Filled(pool, Placeholder(ps[0]), JggSources(ps, cs, eliteNumber, draws))
  }

  /**
   * The sum the roulette of select starts from, the column's sum less its
   * first eliteNumber entries, is exactly the total width of the wheel, the
   * positions from eliteNumber on.
   */
  lemma JggWheelSum(f: seq<real>, eliteNumber: nat)
    requires eliteNumber <= |f|
    ensures Sum(f) - Sum(f[..eliteNumber]) == FreeSum(f, AllFree(|f|), eliteNumber, |f|)
  {
    FreeSumAllFree(f, 0, |f|);
    FreeSumAllFree(f, 0, eliteNumber);
    FreeSumSplit(f, AllFree(|f|), 0, eliteNumber, |f|);
    assert f[0..|f|] == f && f[0..eliteNumber] == f[..eliteNumber];
  }

  /**
   * select: as many slots as parents; slot i < eliteNumber copies the
   * individual ranked i-th, and every other slot copies an individual of
   * parent + children ranked at eliteNumber or later, or is the placeholder
   * where its spin missed.
   */
  lemma JggSelectionMeaning(ps: seq<Genome>, cs: seq<Genome>, eliteNumber: nat, draws: seq<real>)
    requires 1 <= |ps| && eliteNumber <= |ps| && |draws| == |ps| - eliteNumber
    ensures var r, index, spun := JggSelection(ps, cs, eliteNumber, draws), Ranking(CopyAll(ps + cs)),
                                  JggSpun(ps, cs, eliteNumber, draws);
      && |r| == |ps|
      && (forall i :: 0 <= i < eliteNumber ==> r[i] == CopyGenome((ps + cs)[index[i]]))
      && (forall i :: eliteNumber <= i < |ps| && spun.picks[i - eliteNumber].Some? ==>
            eliteNumber <= spun.picks[i - eliteNumber].value &&
            r[i] == CopyGenome((ps + cs)[index[spun.picks[i - eliteNumber].value]]))
      && (forall i :: eliteNumber <= i < |ps| && spun.picks[i - eliteNumber].None? ==> r[i] == Placeholder(ps[0]))
  {
    var pool := CopyAll(ps + cs);
    var index, spun := Ranking(pool), JggSpun(ps, cs, eliteNumber, draws);
    assert JggSelection(ps, cs, eliteNumber, draws)
        == Copies(pool, index, eliteNumber) + Filled(pool, Placeholder(ps[0]), Sources(index, spun.picks));
    SlotsMeaning(ps + cs, index, spun.picks, eliteNumber, Placeholder(ps[0]));
  }

  /**
   * Slot by slot, the elites followed by the roulette slots: a copy of the
   * ranked individual, of the picked one, or the placeholder.
   */
  lemma SlotsMeaning(gs: seq<Genome>, index: seq<int>, picks: seq<Option<nat>>, eliteNumber: nat, placeholder: Genome)
    requires IsPermutation(index, |gs|) && eliteNumber <= |gs|
    requires forall i :: 0 <= i < |picks| && picks[i].Some? ==> picks[i].value < |gs|
    ensures var pool := CopyAll(gs);
      var r := Copies(pool, index, eliteNumber) + Filled(pool, placeholder, Sources(index, picks));
      && |r| == eliteNumber + |picks|
      && (forall i :: 0 <= i < eliteNumber ==> r[i] == CopyGenome(gs[index[i]]))
      && (forall i :: eliteNumber <= i < |r| && picks[i - eliteNumber].Some? ==>
            r[i] == CopyGenome(gs[index[picks[i - eliteNumber].value]]))
      && (forall i :: eliteNumber <= i < |r| && picks[i - eliteNumber].None? ==> r[i] == placeholder)
  {
    var pool := CopyAll(gs);
    var elites, rest := Copies(pool, index, eliteNumber), Filled(pool, placeholder, Sources(index, picks));
    var r := elites + rest;
    forall i | 0 <= i < eliteNumber
      ensures r[i] == CopyGenome(gs[index[i]])
    {
      CopyGenomeExact(gs[index[i]]);
    }
    forall i | eliteNumber <= i < |r| && picks[i - eliteNumber].Some?
      ensures r[i] == CopyGenome(gs[index[picks[i - eliteNumber].value]])
    {
      assert r[i] == rest[i - eliteNumber];
      CopyGenomeExact(gs[index[picks[i - eliteNumber].value]]);
    }
    forall i | eliteNumber <= i < |r| && picks[i - eliteNumber].None?
      ensures r[i] == placeholder
    {
      assert r[i] == rest[i - eliteNumber];
    }
  }

  /** Every position of parent + children select copies, elites and roulette slots together. */
  function JggChosen(ps: seq<Genome>, cs: seq<Genome>, eliteNumber: nat, draws: seq<real>): (r: seq<Option<nat>>)
    requires eliteNumber <= |ps|
    ensures |r| == eliteNumber + |draws|
  {
    var index := Ranking(CopyAll(ps + cs));
    seq(eliteNumber, i requires 0 <= i < eliteNumber => Some(index[i] as nat)) + JggSources(ps, cs, eliteNumber, draws)
  }

  /** No individual of parent + children lands in two slots of select. */
  lemma JggChosenDistinct(ps: seq<Genome>, cs: seq<Genome>, eliteNumber: nat, draws: seq<real>)
    requires eliteNumber <= |ps|
    ensures var chosen := JggChosen(ps, cs, eliteNumber, draws);
      forall i, k :: 0 <= i < k < |chosen| && chosen[i].Some? ==> chosen[i] != chosen[k]
  {
    var pool := CopyAll(ps + cs);
    var index := Ranking(pool);
    JggWheelDistinct(FirstObjectives(pool), eliteNumber, draws);
    var picks := JggSpun(ps, cs, eliteNumber, draws).picks;
    var sources := JggSources(ps, cs, eliteNumber, draws);
    var chosen := JggChosen(ps, cs, eliteNumber, draws);
    assert DistinctPicks(picks);
    forall i, k | 0 <= i < k < |chosen| && chosen[i].Some?
      ensures chosen[i] != chosen[k]
    {
      var p := if i < eliteNumber then i else picks[i - eliteNumber].value;
      assert chosen[i] == Some(index[p] as nat);
      if k < eliteNumber {
        assert chosen[k] == Some(index[k] as nat);
        assert index[p] != index[k];
      } else if picks[k - eliteNumber].Some? {
        var q := picks[k - eliteNumber].value;
        assert chosen[k] == sources[k - eliteNumber] == Some(index[q] as nat);
        assert p != q;
        if p < q {
          assert index[p] != index[q];
        } else {
          assert index[q] != index[p];
        }
      }
    }
  }

  /** No position is picked twice by the wheel of select. */
  lemma JggWheelDistinct(f: seq<real>, eliteNumber: nat, draws: seq<real>)
    requires eliteNumber <= |f|
    ensures DistinctPicks(JggWheel(f, eliteNumber, draws).picks)
  {
    RouletteDistinct(f, AllFree(|f|), Sum(f) - Sum(f[..eliteNumber]), draws, eliteNumber);
  }

  /**
   * With positive first objectives and draws in [0, 1), every roulette spin
   * of select hits: there are |cs| + |ps| - eliteNumber positions on the
   * wheel and only |ps| - eliteNumber spins.
   */
  lemma JggSelectionFills(ps: seq<Genome>, cs: seq<Genome>, eliteNumber: nat, draws: seq<real>)
    requires eliteNumber <= |ps| && |draws| == |ps| - eliteNumber
    requires Positive(FirstObjectives(ps + cs)) && UnitDraws(draws)
    ensures None !in JggSources(ps, cs, eliteNumber, draws)
  {
    FirstObjectivesOfCopies(ps + cs);
    JggWheelFills(FirstObjectives(CopyAll(ps + cs)), eliteNumber, draws);
    var picks := JggSpun(ps, cs, eliteNumber, draws).picks;
    var sources := JggSources(ps, cs, eliteNumber, draws);
    assert forall i :: 0 <= i < |sources| ==> sources[i] == SourceOf(Ranking(CopyAll(ps + cs)), picks[i]);
  }

  /** The wheel of select on a positive column hits on every draw in [0, 1) while free positions remain. */
  lemma JggWheelFills(f: seq<real>, eliteNumber: nat, draws: seq<real>)
    requires eliteNumber <= |f| && |draws| <= |f| - eliteNumber && Positive(f) && UnitDraws(draws)
    ensures None !in JggWheel(f, eliteNumber, draws).picks
  {
    JggWheelSum(f, eliteNumber);
    CountAllFree(|f|, eliteNumber);
    RouletteFillsAll(f, AllFree(|f|), Sum(f) - Sum(f[..eliteNumber]), draws, eliteNumber);
  }

  /**
   * The elite loop of select: slot i of next takes a fresh copy of
   * individual index[i] of the pool, and the i-th entry of the (unsorted)
   * column leaves the sum, for i below count.
   */
  method CopyElites(next: Population, count: nat, pool: Population, f: seq<real>, index: seq<int>, sum: real,
                    ghost gs: seq<Genome>) returns (rest: real)
    requires next.Valid() && pool.Full() && gs == pool.Genomes() && next.individual != pool.individual
    requires count <= next.individual.Length && count <= |f| && IsPermutation(index, |gs|) && |f| == |gs|
    modifies next.individual
    ensures next.Valid() && rest == sum - Sum(f[..count])
    ensures forall k :: 0 <= k < count ==> next.individual[k].Snapshot() == CopyGenome(gs[index[k]])
    ensures forall k :: count <= k < next.individual.Length ==> next.individual[k] == old(next.individual[k])
  {
    rest := sum;
    for i := 0 to count
      invariant next.Valid() && rest == sum - Sum(f[..i])
      invariant forall k :: 0 <= k < i ==> next.individual[k].Snapshot() == CopyGenome(gs[index[k]])
      invariant forall k :: i <= k < next.individual.Length ==> next.individual[k] == old(next.individual[k])
    {
      next.PutCopy(i, pool.individual[index[i]]);
      rest := rest - f[i];
      assert f[..i + 1][..i] == f[..i];
    }
  }

  /**
   * The new generation of select before its roulette: placeholders
   * everywhere, then the elites in the first eliteNumber slots, and the sum
   * the roulette starts from.
   */
  method NewWithElites(first: Individual, size: nat, population: Population, f: seq<real>, index: seq<int>,
                       eliteNumber: nat, ghost gs: seq<Genome>) returns (next: Population, sum: real)
    requires population.Full() && gs == population.Genomes() && |f| == |gs| && IsPermutation(index, |f|)
    requires eliteNumber <= size <= |f|
    ensures fresh(next) && fresh(next.individual) && next.individual.Length == size
    ensures sum == Sum(f) - Sum(f[..eliteNumber])
    ensures SpinReady(next, population, f, index, eliteNumber, gs, Placeholder(first.Snapshot()),
                      Copies(gs, index, eliteNumber))
  {
    next := NewGeneration(size, first);
    sum := CopyElites(next, eliteNumber, population, f, index, Sum(f), gs);
    ghost var elites, rs := Copies(gs, index, eliteNumber), next.Genomes()[..eliteNumber];
    forall k | 0 <= k < eliteNumber
      ensures rs[k] == elites[k]
    {
    }
  }

  /**
   * The second half of select: the new generation of placeholders, the
   * elites, the flags and one roulette spin per remaining slot.
   */
  method EliteAndRoulette(first: Individual, size: nat, population: Population, f: seq<real>, index: seq<int>,
                          eliteNumber: nat, draws: seq<real>, ghost gs: seq<Genome>, ghost placeholder: Genome,
                          ghost spun: Spun) returns (next: Population)
    requires population.Full() && gs == population.Genomes() && |f| == |gs| && IsPermutation(index, |f|)
    requires eliteNumber <= size <= |f| && |draws| == size - eliteNumber
    requires placeholder == Placeholder(first.Snapshot())
    requires spun == Roulette(f, AllFree(|f|), Sum(f) - Sum(f[..eliteNumber]), draws, eliteNumber)
    ensures fresh(next) && next.Valid()
    ensures next.Genomes() == Copies(gs, index, eliteNumber) + Filled(gs, placeholder, Sources(index, spun.picks))
  {
    var sum;
    next, sum := NewWithElites(first, size, population, f, index, eliteNumber, gs);
    RouletteFrom(next, population, f, index, sum, draws, eliteNumber, gs, placeholder, Copies(gs, index, eliteNumber));
    assert Roulette(f, AllFree(|f|), sum, draws, eliteNumber) == spun;
  }

  /**
   * select(parent, children, eliteNumber) with the roulette draws of the
   * slots after the elites.
   */
  method JggSelect(parent: Population, children: Population, eliteNumber: int, draws: seq<real>,
                   ghost ps: seq<Genome>, ghost cs: seq<Genome>) returns (next: Population)
    requires parent.Full() && children.Full() && ps == parent.Genomes() && cs == children.Genomes()
    requires |ps| >= 1 && |ps[0].fitness| >= 1 && PoolReadable(ps, cs)
    requires 0 <= eliteNumber <= |ps| && |draws| == |ps| - eliteNumber
    ensures fresh(next) && next.Valid()
    ensures next.Genomes() == JggSelection(ps, cs, eliteNumber, draws)
  {
    var first := parent.individual[0];
    assert first.Snapshot() == ps[0];
    var population, f, index := Pool(parent, children, ps, cs);
    JggWheelUnfold(f, eliteNumber, draws);
    next := EliteAndRoulette(first, parent.individual.Length, population, f, index, eliteNumber, draws,
                             CopyAll(ps + cs), Placeholder(ps[0]), JggWheel(f, eliteNumber, draws));
    assert Elites(CopyAll(ps + cs), eliteNumber) == Copies(CopyAll(ps + cs), index, eliteNumber);
  }
}
