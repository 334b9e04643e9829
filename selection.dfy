/**
 * The selection half of SimpleGeneticAlgorithm.java (selectElite and
 * selectRoulette) and the roulette wheel JGGUNDX.select turns as well.
 *
 * The wheel: position j of the fitness column holds a slot as wide as
 * fitness[j]; a spin walks the positions from a start position on, skipping
 * the ones already taken, subtracting each missed slot's width from the
 * roulette value, and takes the first slot the value falls into. Every
 * random draw is a parameter.
 */
module Selection {
  import opened Commons
  import opened Individuals
  import opened Populations

  // ---------------------------------------------------------------------------
  // The wheel on values
  // ---------------------------------------------------------------------------

  /** The total width of the free slots among positions j .. k-1. */
  function FreeSum(f: seq<real>, through: seq<bool>, j: nat, k: nat): real
    requires |through| == |f| && k <= |f|
    decreases k - j
  {
    if j >= k then 0.0 else (if through[j] then 0.0 else f[j]) + FreeSum(f, through, j + 1, k)
  }

  predicate NonNegative(f: seq<real>) {
    forall j :: 0 <= j < |f| ==> f[j] >= 0.0
  }

  /** No slot taken yet: the boolean array as Java allocates it. */
  function AllFree(n: nat): (r: seq<bool>)
    ensures |r| == n && forall j :: 0 <= j < n ==> !r[j]
  {
    seq(n, _ => false)
  }

  /**
   * One spin from position j with the given roulette value: the first free
   * position whose slot the value falls into, or None when it runs off the
   * end of the wheel.
   */
  function Spin(f: seq<real>, through: seq<bool>, roulette: real, j: nat): (r: Option<nat>)
    requires |through| == |f|
    ensures r.Some? ==> j <= r.value < |f| && !through[r.value]
    decreases |f| - j
  {
    if j >= |f| then None
    else if !through[j] then
      if roulette < f[j] then Some(j) else Spin(f, through, roulette - f[j], j + 1)
    else Spin(f, through, roulette, j + 1)
  }

  lemma {:induction false} FreeSumSplit(f: seq<real>, through: seq<bool>, j: nat, p: nat, k: nat)
    requires |through| == |f| && j <= p <= k <= |f|
    ensures FreeSum(f, through, j, k) == FreeSum(f, through, j, p) + FreeSum(f, through, p, k)
    decreases p - j
  {
    if j < p {
      FreeSumSplit(f, through, j + 1, p, k);
    }
  }

  lemma {:induction false} FreeSumNonNegative(f: seq<real>, through: seq<bool>, j: nat, k: nat)
    requires |through| == |f| && k <= |f| && NonNegative(f)
    ensures FreeSum(f, through, j, k) >= 0.0
    decreases k - j
  {
    if j < k {
      FreeSumNonNegative(f, through, j + 1, k);
    }
  }

  /** Taking the free position p removes exactly its width from every range that holds it. */
  lemma {:induction false} FreeSumTake(f: seq<real>, through: seq<bool>, j: nat, k: nat, p: nat)
    requires |through| == |f| && j <= p < k <= |f| && !through[p]
    ensures FreeSum(f, through[p := true], j, k) == FreeSum(f, through, j, k) - f[p]
    decreases k - j
  {
    if j < k && j != p {
      FreeSumTake(f, through, j + 1, k, p);
    } else if j == p {
      FreeSumUnchanged(f, through, through[p := true], j + 1, k);
    }
  }

  lemma {:induction false} FreeSumUnchanged(f: seq<real>, t: seq<bool>, u: seq<bool>, j: nat, k: nat)
    requires |t| == |u| == |f| && k <= |f|
    requires forall l :: j <= l < k ==> t[l] == u[l]
    ensures FreeSum(f, t, j, k) == FreeSum(f, u, j, k)
    decreases k - j
  {
    if j < k {
      FreeSumUnchanged(f, t, u, j + 1, k);
    }
  }

  /** With nothing taken, the free total of j .. k-1 is the plain sum of f[j..k]. */
  lemma {:induction false} FreeSumAllFree(f: seq<real>, j: nat, k: nat)
    requires j <= k <= |f|
    ensures FreeSum(f, AllFree(|f|), j, k) == Sum(f[j..k])
    decreases k - j
  {
    if j < k {
      FreeSumAllFree(f, j, k - 1);
      FreeSumSplit(f, AllFree(|f|), j, k - 1, k);
      assert f[j..k][..k - j - 1] == f[j..k - 1];
    }
  }

  /**
   * A spin with a non-negative roulette value stops at the free position p
   * whose window [FreeSum(j, p), FreeSum(j, p) + f[p]) holds the value; when
   * it runs off the end, the value was at least the whole free total.
   */
  lemma {:induction false} SpinWindow(f: seq<real>, through: seq<bool>, roulette: real, j: nat)
    requires |through| == |f| && j <= |f| && roulette >= 0.0
    ensures match Spin(f, through, roulette, j)
      case Some(p) => FreeSum(f, through, j, p) <= roulette < FreeSum(f, through, j, p) + f[p]
      case None => FreeSum(f, through, j, |f|) <= roulette
    decreases |f| - j
  {
    if j < |f| {
      if !through[j] {
        if roulette >= f[j] {
          SpinWindow(f, through, roulette - f[j], j + 1);
          match Spin(f, through, roulette - f[j], j + 1)
          case Some(p) => FreeSumSplit(f, through, j, j + 1, p);
          case None =>
        }
      } else {
        SpinWindow(f, through, roulette, j + 1);
        match Spin(f, through, roulette, j + 1)
        case Some(p) => FreeSumSplit(f, through, j, j + 1, p);
        case None =>
      }
    }
  }

  /**
   * With non-negative widths the window decides the spin: it stops at p
   * exactly when p is free and its window holds the roulette value.
   */
  lemma {:induction false} SpinExactly(f: seq<real>, through: seq<bool>, roulette: real, j: nat, p: nat)
    requires |through| == |f| && j <= |f| && roulette >= 0.0 && NonNegative(f)
    ensures Spin(f, through, roulette, j) == Some(p) <==>
      j <= p < |f| && !through[p] && FreeSum(f, through, j, p) <= roulette < FreeSum(f, through, j, p) + f[p]
    decreases |f| - j
  {
    SpinWindow(f, through, roulette, j);
    if j < p < |f| {
      var w := if through[j] then 0.0 else f[j];
      FreeSumSplit(f, through, j, j + 1, p);
      FreeSumNonNegative(f, through, j + 1, p);
      if !through[j] && roulette < f[j] {
        assert Spin(f, through, roulette, j) == Some(j);
      } else {
        SpinExactly(f, through, roulette - w, j + 1, p);
      }
    }
  }

  /** A spin misses every slot exactly when the roulette value reaches the free total. */
  lemma SpinMisses(f: seq<real>, through: seq<bool>, roulette: real, j: nat)
    requires |through| == |f| && j <= |f| && roulette >= 0.0 && NonNegative(f)
    ensures Spin(f, through, roulette, j).None? <==> roulette >= FreeSum(f, through, j, |f|)
  {
    SpinWindow(f, through, roulette, j);
    match Spin(f, through, roulette, j)
    case Some(p) =>
      FreeSumSplit(f, through, j, p, |f|);
      FreeSumSplit(f, through, p, p + 1, |f|);
      FreeSumNonNegative(f, through, p + 1, |f|);
    case None =>
  }

  /** What the selection loop leaves: the pick of every spin, the taken positions and the remaining sum. */
  datatype Spun = Spun(picks: seq<Option<nat>>, through: seq<bool>, sum: real)

  /** The point a draw in [0, 1) marks on a wheel of total width sum. */
  function RouletteValue(draw: real, sum: real): real {
    draw * sum
  }

  /**
   * The selection loop on values: spin i uses roulette value draws[i] * sum;
   * a hit takes its position and subtracts its width from sum.
   */
  function Roulette(f: seq<real>, through: seq<bool>, sum: real, draws: seq<real>, start: nat): (r: Spun)
    requires |through| == |f|
    ensures |r.picks| == |draws| && |r.through| == |f|
    ensures forall i :: 0 <= i < |draws| && r.picks[i].Some? ==> start <= r.picks[i].value < |f|
    decreases |draws|
  {
    if draws == [] then Spun([], through, sum)
    else
      var pick := Spin(f, through, RouletteValue(draws[0], sum), start);
      var rest := Roulette(f, Taken(through, pick), Remaining(f, sum, pick), draws[1..], start);
      Spun([pick] + rest.picks, rest.through, rest.sum)
  }

  /** The taken positions after a spin: the pick, if any, is taken. */
  function Taken(through: seq<bool>, pick: Option<nat>): (r: seq<bool>)
    requires pick.Some? ==> pick.value < |through|
    ensures |r| == |through|
    ensures forall k :: 0 <= k < |r| ==> (r[k] <==> through[k] || pick == Some(k))
  {
    if pick.Some? then through[pick.value := true] else through
  }

  /** The sum after a spin: the pick's width, if any, is subtracted. */
  function Remaining(f: seq<real>, sum: real, pick: Option<nat>): real
    requires pick.Some? ==> pick.value < |f|
  {
    if pick.Some? then sum - f[pick.value] else sum
  }

  lemma RouletteStep(f: seq<real>, through: seq<bool>, sum: real, draws: seq<real>, start: nat)
    requires |through| == |f| && draws != []
    ensures var pick := Spin(f, through, RouletteValue(draws[0], sum), start);
      var rest := Roulette(f, Taken(through, pick), Remaining(f, sum, pick), draws[1..], start);
      Roulette(f, through, sum, draws, start) == Spun([pick] + rest.picks, rest.through, rest.sum)
  {
  }

  /** Some(p) is among the picks. */
  predicate Picked(picks: seq<Option<nat>>, p: nat) {
    exists i :: 0 <= i < |picks| && picks[i] == Some(p)
  }

  lemma PickedCons(x: Option<nat>, picks: seq<Option<nat>>, p: nat)
    ensures Picked([x] + picks, p) <==> x == Some(p) || Picked(picks, p)
  {
    var s := [x] + picks;
    if Picked(s, p) && x != Some(p) {
      var i :| 0 <= i < |s| && s[i] == Some(p);
      assert picks[i - 1] == Some(p);
    }
    if Picked(picks, p) {
      var i :| 0 <= i < |picks| && picks[i] == Some(p);
      assert s[i + 1] == Some(p);
    }
    if x == Some(p) {
      assert s[0] == Some(p);
    }
  }

  /** Every pick lies at or after the start and was free before the loop. */
  lemma {:induction false} RoulettePicksFree(f: seq<real>, through: seq<bool>, sum: real, draws: seq<real>, start: nat)
    requires |through| == |f|
    ensures var r := Roulette(f, through, sum, draws, start);
      forall i :: 0 <= i < |r.picks| && r.picks[i].Some? ==> start <= r.picks[i].value < |f| && !through[r.picks[i].value]
    decreases |draws|
  {
    if draws != [] {
      var pick := Spin(f, through, RouletteValue(draws[0], sum), start);
      var t, s := Taken(through, pick), Remaining(f, sum, pick);
      RoulettePicksFree(f, t, s, draws[1..], start);
      RouletteStep(f, through, sum, draws, start);
      var r, rest := Roulette(f, through, sum, draws, start), Roulette(f, t, s, draws[1..], start);
      assert r.picks == [pick] + rest.picks;
      forall i | 0 < i < |r.picks| && r.picks[i].Some?
        ensures start <= r.picks[i].value < |f| && !through[r.picks[i].value]
      {
        assert r.picks[i] == rest.picks[i - 1];
      }
    }
  }

  /** No position is picked twice. */
  predicate DistinctPicks(picks: seq<Option<nat>>) {
    forall i, k :: 0 <= i < k < |picks| && picks[i].Some? ==> picks[i] != picks[k]
  }

  lemma {:induction false} RouletteDistinct(f: seq<real>, through: seq<bool>, sum: real, draws: seq<real>, start: nat)
    requires |through| == |f|
    ensures DistinctPicks(Roulette(f, through, sum, draws, start).picks)
    decreases |draws|
  {
    if draws != [] {
      var pick := Spin(f, through, RouletteValue(draws[0], sum), start);
      var t, s := Taken(through, pick), Remaining(f, sum, pick);
      RouletteDistinct(f, t, s, draws[1..], start);
      RoulettePicksFree(f, t, s, draws[1..], start);
      RouletteStep(f, through, sum, draws, start);
      var r, rest := Roulette(f, through, sum, draws, start), Roulette(f, t, s, draws[1..], start);
      assert r.picks == [pick] + rest.picks;
      forall i, k | 0 <= i < k < |r.picks| && r.picks[i].Some?
        ensures r.picks[i] != r.picks[k]
      {
        assert r.picks[k] == rest.picks[k - 1];
        if i > 0 {
          assert r.picks[i] == rest.picks[i - 1];
        } else {
          assert t[pick.value];
          if rest.picks[k - 1].Some? {
            assert !t[rest.picks[k - 1].value];
          }
        }
      }
    }
  }

  /** A position is taken after the loop exactly when it was taken before or picked. */
  lemma {:induction false} RouletteThrough(f: seq<real>, through: seq<bool>, sum: real, draws: seq<real>, start: nat)
    requires |through| == |f|
    ensures var r := Roulette(f, through, sum, draws, start);
      forall p :: 0 <= p < |f| ==> (r.through[p] <==> through[p] || Picked(r.picks, p))
    decreases |draws|
  {
    if draws != [] {
      var pick := Spin(f, through, RouletteValue(draws[0], sum), start);
      var t, s := Taken(through, pick), Remaining(f, sum, pick);
      RouletteThrough(f, t, s, draws[1..], start);
      RouletteStep(f, through, sum, draws, start);
      var r, rest := Roulette(f, through, sum, draws, start), Roulette(f, t, s, draws[1..], start);
      assert r.picks == [pick] + rest.picks && r.through == rest.through;
      forall p | 0 <= p < |f|
        ensures r.through[p] <==> through[p] || Picked(r.picks, p)
      {
        PickedCons(pick, rest.picks, p);
      }
    }
  }

  /**
   * When sum starts as the free total from the start position on, it stays
   * that total after every spin.
   */
  lemma {:induction false} RouletteSum(f: seq<real>, through: seq<bool>, sum: real, draws: seq<real>, start: nat)
    requires |through| == |f| && start <= |f| && sum == FreeSum(f, through, start, |f|)
    ensures var r := Roulette(f, through, sum, draws, start); r.sum == FreeSum(f, r.through, start, |f|)
    decreases |draws|
  {
    if draws != [] {
      var pick := Spin(f, through, RouletteValue(draws[0], sum), start);
      if pick.Some? {
        FreeSumTake(f, through, start, |f|, pick.value);
      }
      var t, s := Taken(through, pick), Remaining(f, sum, pick);
      RouletteSum(f, t, s, draws[1..], start);
      RouletteStep(f, through, sum, draws, start);
      var r, rest := Roulette(f, through, sum, draws, start), Roulette(f, t, s, draws[1..], start);
      assert r.through == rest.through && r.sum == rest.sum;
    }
  }

  /**
   * With non-negative widths, a draw in [0, 1) and sum equal to a positive
   * free total, the spin always hits a slot.
   */
  lemma TurnHits(f: seq<real>, through: seq<bool>, sum: real, draw: real, start: nat)
    requires |through| == |f| && start <= |f| && NonNegative(f)
    requires sum == FreeSum(f, through, start, |f|) && sum > 0.0 && 0.0 <= draw < 1.0
    ensures Spin(f, through, RouletteValue(draw, sum), start).Some?
  {
    RouletteValueBelow(draw, sum);
    SpinMisses(f, through, RouletteValue(draw, sum), start);
  }

  /** A draw in [0, 1) scaled by a positive sum lands in [0, sum). */
  lemma RouletteValueBelow(draw: real, sum: real)
    requires sum > 0.0 && 0.0 <= draw < 1.0
    ensures 0.0 <= RouletteValue(draw, sum) < sum
  {
    assert sum - draw * sum == (1.0 - draw) * sum;
    assert (1.0 - draw) * sum > 0.0;
  }

  /** An empty wheel (no width left from the start on) stays empty whatever is spun. */
  lemma {:induction false} RouletteKeepsEmpty(f: seq<real>, through: seq<bool>, sum: real, draws: seq<real>, start: nat)
    requires |through| == |f| && start <= |f| && NonNegative(f) && FreeSum(f, through, start, |f|) == 0.0
    ensures FreeSum(f, Roulette(f, through, sum, draws, start).through, start, |f|) == 0.0
    decreases |draws|
  {
    if draws != [] {
      var pick := Spin(f, through, RouletteValue(draws[0], sum), start);
      var t, s := Taken(through, pick), Remaining(f, sum, pick);
      if pick.Some? {
        FreeSumTake(f, through, start, |f|, pick.value);
        FreeSumNonNegative(f, t, start, |f|);
      }
      RouletteKeepsEmpty(f, t, s, draws[1..], start);
      RouletteStep(f, through, sum, draws, start);
    }
  }

  /**
   * With non-negative widths, draws in [0, 1) and sum starting as the free
   * total, a spin misses only when no width is left on the wheel: if any
   * slot stays unfilled, the free total at the end is 0.
   */
  lemma {:induction false} RouletteMissesOnlyWhenEmpty(f: seq<real>, through: seq<bool>, sum: real, draws: seq<real>,
                                                      start: nat)
    requires |through| == |f| && start <= |f| && NonNegative(f) && sum == FreeSum(f, through, start, |f|)
    requires UnitDraws(draws)
    ensures var r := Roulette(f, through, sum, draws, start);
      None in r.picks ==> FreeSum(f, r.through, start, |f|) == 0.0
    decreases |draws|
  {
    if draws != [] {
      var pick := Spin(f, through, RouletteValue(draws[0], sum), start);
      var t, s := Taken(through, pick), Remaining(f, sum, pick);
      RouletteStep(f, through, sum, draws, start);
      var rest := Roulette(f, t, s, draws[1..], start);
      if pick.None? {
        assert t == through && s == sum;
        MissMeansEmpty(f, through, sum, draws, start);
        RouletteKeepsEmpty(f, t, s, draws[1..], start);
      } else {
        assert None in rest.picks ==> FreeSum(f, rest.through, start, |f|) == 0.0 by {
          FreeSumTake(f, through, start, |f|, pick.value);
          RouletteMissesOnlyWhenEmpty(f, t, s, draws[1..], start);
        }
        assert None in rest.picks <==> None in [pick] + rest.picks;
      }
    }
  }

  /** Every draw lies in [0, 1), as Math.random() promises. */
  predicate UnitDraws(draws: seq<real>) {
    forall i :: 0 <= i < |draws| ==> 0.0 <= draws[i] < 1.0
  }

  /** A first spin that misses, with a draw in [0, 1), finds the wheel empty. */
  lemma MissMeansEmpty(f: seq<real>, through: seq<bool>, sum: real, draws: seq<real>, start: nat)
    requires |through| == |f| && start <= |f| && NonNegative(f) && sum == FreeSum(f, through, start, |f|)
    requires draws != [] && UnitDraws(draws) && Spin(f, through, RouletteValue(draws[0], sum), start).None?
    ensures FreeSum(f, through, start, |f|) == 0.0
  {
    FreeSumNonNegative(f, through, start, |f|);
    if sum > 0.0 {
      TurnHits(f, through, sum, draws[0], start);
    }
  }

  /** With positive widths, an empty wheel has every position from the start on taken. */
  lemma {:induction false} EmptyWheelAllTaken(f: seq<real>, through: seq<bool>, j: nat, k: nat)
    requires |through| == |f| && k <= |f| && NonNegative(f) && FreeSum(f, through, j, k) == 0.0
    requires forall l :: j <= l < k ==> f[l] > 0.0
    ensures forall l :: j <= l < k ==> through[l]
    decreases k - j
  {
    if j < k {
      FreeSumNonNegative(f, through, j + 1, k);
      EmptyWheelAllTaken(f, through, j + 1, k);
    }
  }

  /** The number of free positions among j .. k-1. */
  function CountFree(through: seq<bool>, j: nat, k: nat): nat
    requires k <= |through|
    decreases k - j
  {
    if j >= k then 0 else (if through[j] then 0 else 1) + CountFree(through, j + 1, k)
  }

  /** Every slot of the wheel has a positive width. */
  predicate Positive(f: seq<real>) {
    forall j :: 0 <= j < |f| ==> f[j] > 0.0
  }

  /** Taking the free position p leaves one free position fewer in every range that holds it. */
  lemma {:induction false} CountFreeTake(through: seq<bool>, j: nat, k: nat, p: nat)
    requires j <= p < k <= |through| && !through[p]
    ensures CountFree(through[p := true], j, k) == CountFree(through, j, k) - 1
    decreases k - j
  {
    if j != p {
      CountFreeTake(through, j + 1, k, p);
    } else {
      CountFreeUnchanged(through, through[p := true], j + 1, k);
    }
  }

  lemma {:induction false} CountFreeUnchanged(t: seq<bool>, u: seq<bool>, j: nat, k: nat)
    requires |t| == |u| && k <= |t|
    requires forall l :: j <= l < k ==> t[l] == u[l]
    ensures CountFree(t, j, k) == CountFree(u, j, k)
    decreases k - j
  {
    if j < k {
      CountFreeUnchanged(t, u, j + 1, k);
    }
  }

  /** With nothing taken, every position from j on is free. */
  lemma {:induction false} CountAllFree(n: nat, j: nat)
    requires j <= n
    ensures CountFree(AllFree(n), j, n) == n - j
    decreases n - j
  {
    if j < n {
      CountAllFree(n, j + 1);
    }
  }

  /** With positive widths, a wheel with a free position has a positive free total. */
  lemma {:induction false} FreeSumPositive(f: seq<real>, through: seq<bool>, j: nat, k: nat)
    requires |through| == |f| && k <= |f| && Positive(f) && CountFree(through, j, k) > 0
    ensures FreeSum(f, through, j, k) > 0.0
    decreases k - j
  {
    FreeSumNonNegative(f, through, j + 1, k);
    if through[j] || CountFree(through, j + 1, k) > 0 {
      FreeSumPositive(f, through, j + 1, k);
    }
  }

  /**
   * With positive widths, draws in [0, 1) and sum starting as the free total,
   * every spin hits as long as there are no more spins than free positions.
   */
  lemma {:induction false} RouletteFillsAll(f: seq<real>, through: seq<bool>, sum: real, draws: seq<real>, start: nat)
    requires |through| == |f| && start <= |f| && Positive(f) && sum == FreeSum(f, through, start, |f|)
    requires UnitDraws(draws) && |draws| <= CountFree(through, start, |f|)
    ensures None !in Roulette(f, through, sum, draws, start).picks
    decreases |draws|
  {
    if draws != [] {
      assert NonNegative(f);
      FreeSumPositive(f, through, start, |f|);
      TurnHits(f, through, sum, draws[0], start);
      var pick := Spin(f, through, RouletteValue(draws[0], sum), start);
      var p := pick.value;
      FreeSumTake(f, through, start, |f|, p);
      CountFreeTake(through, start, |f|, p);
      var t, s := Taken(through, pick), Remaining(f, sum, pick);
      assert UnitDraws(draws[1..]) by {
        forall i | 0 <= i < |draws[1..]| ensures 0.0 <= draws[1..][i] < 1.0 {
          assert draws[1..][i] == draws[i + 1];
        }
      }
      RouletteFillsAll(f, t, s, draws[1..], start);
      RouletteStep(f, through, sum, draws, start);
    }
  }

  /** The selection loop one spin longer: the last spin runs on the state the others leave. */
  lemma {:induction false} RouletteSnoc(f: seq<real>, through: seq<bool>, sum: real, draws: seq<real>, x: real,
                                        start: nat)
    requires |through| == |f|
    ensures var r := Roulette(f, through, sum, draws, start);
      var pick := Spin(f, r.through, RouletteValue(x, r.sum), start);
      Roulette(f, through, sum, draws + [x], start) ==
        Spun(r.picks + [pick], Taken(r.through, pick), Remaining(f, r.sum, pick))
    decreases |draws|
  {
    RouletteStep(f, through, sum, draws + [x], start);
    if draws == [] {
      assert [x][1..] == [];
    } else {
      var pick := Spin(f, through, RouletteValue(draws[0], sum), start);
      var t, s := Taken(through, pick), Remaining(f, sum, pick);
      assert (draws + [x])[1..] == draws[1..] + [x];
      RouletteSnoc(f, t, s, draws[1..], x, start);
      RouletteStep(f, through, sum, draws, start);
    }
  }

  // ---------------------------------------------------------------------------
  // The fitness column, the ranking and the placeholder slots
  // ---------------------------------------------------------------------------

  /** Column 0 of getFitness() for one individual: its first objective, or the padding 0. */
  function FirstObjective(g: Genome): real {
    if |g.fitness| > 0 then g.fitness[0] else 0.0
  }

  function FirstObjectives(gs: seq<Genome>): (r: seq<real>)
    ensures |r| == |gs| && forall i :: 0 <= i < |gs| ==> r[i] == FirstObjective(gs[i])
  {
    seq(|gs|, i requires 0 <= i < |gs| => FirstObjective(gs[i]))
  }

  /** The fitness column sorted ascending, as positions (Vector.sort()). */
  function Ranking(gs: seq<Genome>): (r: seq<int>)
    ensures IsPermutation(r, |gs|)
  {
    SortIndices(FirstObjectives(gs), false)
  }

  /** getClass().getName(): the qualified name of the individual's class. */
  function ClassName(c: Coding): string {
    if c.BinaryCoding? then "jp.ohtayo.mathopt.core.BinaryIndividual" else "jp.ohtayo.mathopt.core.RealCodedIndividual"
  }

  /**
   * The kind of the slots a new generation is allocated with: binary only
   * when the class name of the first individual is "BinaryIndividual". The
   * name is always qualified (and Java's == on strings compares references
   * besides), so the slots are always real-coded.
   */
  function PlaceholderCoding(first: Genome): (r: Coding)
    ensures r == RealCoding
  {
    if ClassName(first.coding) == "BinaryIndividual" then first.coding else RealCoding
  }

  /** What an unfilled slot of a new generation holds: initialize(numberOfVariables, 1). */
  function Placeholder(first: Genome): Genome {
    ZeroGenome(PlaceholderCoding(first), |first.variable|, 1)
  }

  /**
   * new Population(size) followed by initialize(numberOfVariables, 1): size
   * fresh zero individuals as wide as first, each with one objective.
   */
  method NewGeneration(size: nat, first: Individual) returns (next: Population)
    ensures fresh(next) && fresh(next.individual) && next.Valid() && next.individual.Length == size
    ensures forall k :: 0 <= k < size ==> fresh(next.individual[k])
    ensures forall k :: 0 <= k < size ==> next.individual[k].Snapshot() == Placeholder(first.Snapshot())
  {
    next := new Population(size);
    next.Allocate(PlaceholderCoding(first.Snapshot()), |first.variable|, 1);
  }

  /** new Matrix(population.getFitness()).getColumn(0). */
  method FitnessColumn(population: Population, ghost gs: seq<Genome>) returns (f: seq<real>)
    requires population.Full() && gs == population.Genomes()
    requires population.Readable(Fitness) && |population.individual[0].fitness| >= 1
    ensures f == FirstObjectives(gs) && population.Genomes() == gs
  {
    var matrix := population.GetRows(Fitness);
    f := [];
    for i := 0 to |matrix|
      invariant |f| == i && forall k :: 0 <= k < i ==> f[k] == FirstObjective(population.individual[k].Snapshot())
    {
      ghost var row := population.individual[i].fitness;
      if |row| > 0 {
        assert matrix[i][..|row|][0] == row[0];
      }
      f := f + [matrix[i][0]];
    }
  }

  // ---------------------------------------------------------------------------
  // selectElite
  // ---------------------------------------------------------------------------

  /** The positions of the eliteNumber best (smallest) first objectives, best first. */
  function EliteIndices(gs: seq<Genome>, eliteNumber: nat): (r: seq<int>)
    requires eliteNumber <= |gs|
  {
    Ranking(gs)[..eliteNumber]
  }

  /** Copies of the individuals at the first n positions of index, in that order. */
  function Copies(gs: seq<Genome>, index: seq<int>, n: nat): (r: seq<Genome>)
    requires n <= |index| && forall i :: 0 <= i < n ==> 0 <= index[i] < |gs|
    ensures |r| == n && forall i :: 0 <= i < n ==> r[i] == CopyGenome(gs[index[i]])
  {
    seq(n, i requires 0 <= i < n => CopyGenome(gs[index[i]]))
  }

  /** selectElite's result: a copy of each elite, best first. */
  function Elites(gs: seq<Genome>, eliteNumber: nat): (r: seq<Genome>)
    requires eliteNumber <= |gs|
  {
    Copies(gs, Ranking(gs), eliteNumber)
  }

  /**
   * The elites: eliteNumber copies of distinct individuals, in ascending
   * order of first objective, and no individual left out has a smaller
   * first objective than any elite.
   */
  lemma EliteBest(gs: seq<Genome>, eliteNumber: nat)
    requires eliteNumber <= |gs|
    ensures var r, index := Elites(gs, eliteNumber), EliteIndices(gs, eliteNumber);
      && |r| == |index| == eliteNumber
      && (forall i :: 0 <= i < eliteNumber ==> 0 <= index[i] < |gs| && r[i] == CopyGenome(gs[index[i]]))
      && (forall i, j :: 0 <= i < j < eliteNumber ==> index[i] != index[j])
      && (forall i, j :: 0 <= i < j < eliteNumber ==> FirstObjective(r[i]) <= FirstObjective(r[j]))
      && (forall i, k :: 0 <= i < eliteNumber && 0 <= k < |gs| && k !in index ==>
            FirstObjective(r[i]) <= FirstObjective(gs[k]))
  {
    var r, index, all := Elites(gs, eliteNumber), EliteIndices(gs, eliteNumber), Ranking(gs);
    SortIndicesCovers(FirstObjectives(gs), false);
    var f := FirstObjectives(gs);
    assert forall t :: 0 <= t < eliteNumber ==> index[t] == all[t];
    forall i, k | 0 <= i < eliteNumber && 0 <= k < |gs| && k !in index
      ensures FirstObjective(r[i]) <= FirstObjective(gs[k])
    {
      assert k in all;
      var j :| 0 <= j < |all| && all[j] == k;
      assert InOrder(f[all[i]], f[all[j]], false);
    }
  }

  /**
   * selectElite(population, eliteNumber): a new population of eliteNumber
   * slots, slot i a fresh copy of the individual ranked i-th by first
   * objective.
   */
  method SelectElite(population: Population, eliteNumber: int, ghost gs: seq<Genome>) returns (next: Population)
    requires population.Full() && gs == population.Genomes() && population.Readable(Fitness)
    requires |gs[0].fitness| >= 1 && 0 <= eliteNumber <= |gs|
    ensures fresh(next) && fresh(next.individual) && next.Valid()
    ensures next.Genomes() == Elites(gs, eliteNumber)
  {
    var f := FitnessColumn(population, gs);
    var index := SortIndices(f, false);
    assert index == Ranking(gs);
    next := NewGeneration(eliteNumber, population.individual[0]);
    CopyRanked(next, eliteNumber, population, index, gs);
    ghost var elites, rs := Copies(gs, index, eliteNumber), next.Genomes();
    forall k | 0 <= k < eliteNumber
      ensures rs[k] == elites[k]
    {
    }
  }

  /** The elite loop: slot i of next takes a fresh copy of individual index[i] of the pool, for i below count. */
  method CopyRanked(next: Population, count: nat, pool: Population, index: seq<int>, ghost gs: seq<Genome>)
    requires next.Valid() && pool.Full() && gs == pool.Genomes() && next.individual != pool.individual
    requires count <= next.individual.Length && count <= |index|
    requires forall i :: 0 <= i < count ==> 0 <= index[i] < |gs|
    modifies next.individual
    ensures next.Valid()
    ensures forall k :: 0 <= k < count ==> next.individual[k].Snapshot() == CopyGenome(gs[index[k]])
    ensures forall k :: count <= k < next.individual.Length ==> next.individual[k] == old(next.individual[k])
  {
    for i := 0 to count
      invariant next.Valid()
      invariant forall k :: 0 <= k < i ==> next.individual[k].Snapshot() == CopyGenome(gs[index[k]])
      invariant forall k :: i <= k < next.individual.Length ==> next.individual[k] == old(next.individual[k])
    {
      next.PutCopy(i, pool.individual[index[i]]);
    }
  }

  // ---------------------------------------------------------------------------
  // The roulette loop
  // ---------------------------------------------------------------------------

  /** The pool position a slot copies: the ranking entry at the position its spin picked, if any. */
  function SourceOf(index: seq<int>, pick: Option<nat>): Option<nat>
    requires forall j :: 0 <= j < |index| ==> index[j] >= 0
    requires pick.Some? ==> pick.value < |index|
  {
    if pick.Some? then Some(index[pick.value] as nat) else None
  }

  function Sources(index: seq<int>, picks: seq<Option<nat>>): (r: seq<Option<nat>>)
    requires forall j :: 0 <= j < |index| ==> index[j] >= 0
    requires forall i :: 0 <= i < |picks| && picks[i].Some? ==> picks[i].value < |index|
    ensures |r| == |picks| && forall i :: 0 <= i < |picks| ==> r[i] == SourceOf(index, picks[i])
  {
    seq(|picks|, i requires 0 <= i < |picks| => SourceOf(index, picks[i]))
  }

  /** What a slot holds: a copy of its source, or the placeholder where the spin missed. */
  function SlotOf(pool: seq<Genome>, placeholder: Genome, source: Option<nat>): Genome
    requires source.Some? ==> source.value < |pool|
  {
    if source.Some? then CopyGenome(pool[source.value]) else placeholder
  }

  function Filled(pool: seq<Genome>, placeholder: Genome, sources: seq<Option<nat>>): (r: seq<Genome>)
    requires forall i :: 0 <= i < |sources| && sources[i].Some? ==> sources[i].value < |pool|
    ensures |r| == |sources| && forall i :: 0 <= i < |sources| ==> r[i] == SlotOf(pool, placeholder, sources[i])
  {
    seq(|sources|, i requires 0 <= i < |sources| => SlotOf(pool, placeholder, sources[i]))
  }

  /**
   * The inner loop of the roulette: walk the positions from start on,
   * skipping taken ones and subtracting each missed width, until the value
   * falls into a slot.
   */
  method SpinWheel(f: seq<real>, through: array<bool>, roulette: real, start: nat) returns (pick: Option<nat>)
    requires through.Length == |f| && start <= |f|
    ensures pick == Spin(f, through[..], roulette, start)
  {
    var value := roulette;
    pick := None;
    for j := start to |f|
      invariant pick == None
      invariant Spin(f, through[..], roulette, start) == Spin(f, through[..], value, j)
    {
      if !through[j] {
        if value < f[j] {
          pick := Some(j);
          break;
        }
        value := value - f[j];
      }
    }
  }

  /**
   * One slot of the roulette loop: draw the roulette value, spin, and on a
   * hit at position j copy the individual the ranking lists at j, take j and
   * subtract its width from sum.
   */
  method RouletteAt(next: Population, i: nat, pool: Population, f: seq<real>, index: seq<int>, through: array<bool>,
                    sum: real, draw: real, start: nat, ghost gs: seq<Genome>) returns (rest: real, ghost pick: Option<nat>)
    requires next.Valid() && pool.Full() && gs == pool.Genomes() && next.individual != pool.individual
    requires i < next.individual.Length && |f| == |gs| && through.Length == |f| && start <= |f|
    requires IsPermutation(index, |f|)
    modifies next.individual, through
    ensures pick == Spin(f, old(through[..]), RouletteValue(draw, sum), start)
    ensures through[..] == Taken(old(through[..]), pick) && rest == Remaining(f, sum, pick)
    ensures next.Valid()
    ensures forall k :: 0 <= k < next.individual.Length && k != i ==> next.individual[k] == old(next.individual[k])
    ensures pick.Some? ==> next.individual[i].Snapshot() == CopyGenome(gs[index[pick.value]])
    ensures pick.None? ==> next.individual[i] == old(next.individual[i])
  {
    var spin := SpinWheel(f, through, RouletteValue(draw, sum), start);
    pick := spin;
    rest := sum;
    if spin.Some? {
      var j := spin.value;
      next.PutCopy(i, pool.individual[index[j]]);
      rest := sum - f[j];
      through[j] := true;
    }
  }

  /**
   * The roulette loop: slots start .. next.length-1 take one spin each, slot
   * i with draw draws[i - start], on a wheel of the positions from start on.
   */
  method FillByRoulette(next: Population, pool: Population, f: seq<real>, index: seq<int>, through: array<bool>,
                        sum: real, draws: seq<real>, start: nat, ghost gs: seq<Genome>, ghost placeholder: Genome,
                        ghost spun: Spun)
    requires next.Valid() && pool.Full() && gs == pool.Genomes() && next.individual != pool.individual
    requires |f| == |gs| && through.Length == |f| && start <= |f| && IsPermutation(index, |f|)
    requires start + |draws| == next.individual.Length
    requires forall k :: start <= k < next.individual.Length ==> next.individual[k].Snapshot() == placeholder
    requires spun == Roulette(f, through[..], sum, draws, start)
    modifies next.individual, through
    ensures next.Valid() && through[..] == spun.through
    ensures forall k :: 0 <= k < start ==> next.individual[k] == old(next.individual[k])
    ensures forall k :: start <= k < next.individual.Length ==>
      next.individual[k].Snapshot() == SlotOf(gs, placeholder, SourceOf(index, spun.picks[k - start]))
  {
    ghost var through0, original := through[..], next.individual[..];
    ghost var done := Roulette(f, through0, sum, [], start);
    var rest := sum;
    for i := start to next.individual.Length
      invariant FillInvariant(next, i, gs, f, index, through, rest, draws, start, placeholder, through0, sum, original, done)
      invariant forall k :: i <= k < next.individual.Length ==> next.individual[k].Snapshot() == placeholder
    {
      rest, done := FillStep(next, i, pool, f, index, through, rest, draws, start, gs, placeholder, through0, sum,
                             original, done);
    }
    assert draws[..next.individual.Length - start] == draws;
  }

  /** What the roulette loop keeps: slots before i hold the picks of the first i - start spins. */
  ghost predicate FillInvariant(next: Population, i: nat, gs: seq<Genome>, f: seq<real>, index: seq<int>,
                                through: array<bool>, rest: real, draws: seq<real>, start: nat, placeholder: Genome,
                                through0: seq<bool>, sum: real, original: seq<Individual>, done: Spun)
    reads next, next.individual, next.individual[..], through
  {
    && next.Valid() && |f| == |through0| == |gs| && start <= |f| && IsPermutation(index, |f|)
    && |original| == next.individual.Length
    && start <= i <= next.individual.Length && start + |draws| == next.individual.Length
    && (forall k :: 0 <= k < start ==> next.individual[k] == original[k])
    && (forall k :: i <= k < next.individual.Length ==> next.individual[k] == original[k])
    && done == Roulette(f, through0, sum, draws[..i - start], start)
    && through[..] == done.through && rest == done.sum
    && (forall k :: start <= k < i ==>
         next.individual[k].Snapshot() == SlotOf(gs, placeholder, SourceOf(index, done.picks[k - start])))
  }

  /** One turn of the roulette loop: slot i takes the spin for draws[i - start]. */
  method FillStep(next: Population, i: nat, pool: Population, f: seq<real>, index: seq<int>, through: array<bool>,
                  rest: real, draws: seq<real>, start: nat, ghost gs: seq<Genome>, ghost placeholder: Genome,
                  ghost through0: seq<bool>, ghost sum: real, ghost original: seq<Individual>, ghost done: Spun)
    returns (rest': real, ghost done': Spun)
    requires pool.Full() && gs == pool.Genomes() && next.individual != pool.individual
    requires |f| == |gs| && through.Length == |f| && start <= |f| && IsPermutation(index, |f|)
    requires FillInvariant(next, i, gs, f, index, through, rest, draws, start, placeholder, through0, sum, original, done)
    requires i < next.individual.Length
    requires forall k :: i <= k < next.individual.Length ==> next.individual[k].Snapshot() == placeholder
    modifies next.individual, through
    ensures FillInvariant(next, i + 1, gs, f, index, through, rest', draws, start, placeholder, through0, sum, original, done')
  {
    ghost var before := draws[..i - start];
    ghost var pick;
    rest', pick := RouletteAt(next, i, pool, f, index, through, rest, draws[i - start], start, gs);
    assert draws[..i + 1 - start] == before + [draws[i - start]];
    RouletteSnoc(f, through0, sum, before, draws[i - start], start);
    done' := Roulette(f, through0, sum, draws[..i + 1 - start], start);
  }

  // ---------------------------------------------------------------------------
  // selectRoulette
  // ---------------------------------------------------------------------------

  /** Copies keep the fitness, so the pool's fitness column is the originals'. */
  lemma FirstObjectivesOfCopies(gs: seq<Genome>)
    ensures FirstObjectives(CopyAll(gs)) == FirstObjectives(gs)
  {
    assert forall i :: 0 <= i < |gs| ==> CopyAll(gs)[i].fitness == gs[i].fitness;
  }

  /**
   * The position in parent + children that each slot of selectRoulette
   * copies, or None where its spin missed: the wheel runs over the whole
   * fitness column from position 0 with the plain sum of the column.
   */
  function RouletteSources(ps: seq<Genome>, cs: seq<Genome>, draws: seq<real>): (r: seq<Option<nat>>)
    ensures |r| == |draws|
    ensures forall i :: 0 <= i < |r| && r[i].Some? ==> r[i].value < |ps| + |cs|
  {
    var pool := CopyAll(ps + cs);
    var f := FirstObjectives(pool);
    Sources(Ranking(pool), Roulette(f, AllFree(|f|), Sum(f), draws, 0).picks)
  }

  /** selectRoulette's result on values: one slot per draw. */
  function RouletteSelection(ps: seq<Genome>, cs: seq<Genome>, draws: seq<real>): (r: seq<Genome>)
    requires |ps| >= 1
  {
    Filled(CopyAll(ps + cs), Placeholder(ps[0]), RouletteSources(ps, cs, draws))
  }

  /**
   * selectRoulette: one slot per draw, each a copy of an individual of
   * parent + children or, where the spin missed, the placeholder.
   */
  lemma RouletteSelectionMeaning(ps: seq<Genome>, cs: seq<Genome>, draws: seq<real>)
    requires |ps| >= 1
    ensures var r, src := RouletteSelection(ps, cs, draws), RouletteSources(ps, cs, draws);
      && |r| == |draws|
      && (forall i :: 0 <= i < |r| && src[i].Some? ==> r[i] == CopyGenome((ps + cs)[src[i].value]))
      && (forall i :: 0 <= i < |r| && src[i].None? ==> r[i] == Placeholder(ps[0]))
  {
    var r, src := RouletteSelection(ps, cs, draws), RouletteSources(ps, cs, draws);
    forall i | 0 <= i < |r| && src[i].Some?
      ensures r[i] == CopyGenome((ps + cs)[src[i].value])
    {
      CopyGenomeExact((ps + cs)[src[i].value]);
    }
  }

  /** No individual of parent + children is copied into two slots of selectRoulette. */
  lemma RouletteSourcesDistinct(ps: seq<Genome>, cs: seq<Genome>, draws: seq<real>)
    ensures var src := RouletteSources(ps, cs, draws);
      forall i, k :: 0 <= i < k < |src| && src[i].Some? ==> src[i] != src[k]
  {
    var pool := CopyAll(ps + cs);
    var f := FirstObjectives(pool);
    var index := Ranking(pool);
    var picks := Roulette(f, AllFree(|f|), Sum(f), draws, 0).picks;
    var src := RouletteSources(ps, cs, draws);
    RouletteDistinct(f, AllFree(|f|), Sum(f), draws, 0);
    forall i, k | 0 <= i < k < |src| && src[i].Some?
      ensures src[i] != src[k]
    {
      assert src[i] == SourceOf(index, picks[i]) && src[k] == SourceOf(index, picks[k]);
      if picks[k].Some? {
        var p, q := picks[i].value, picks[k].value;
        assert picks[i] != picks[k];
        if p < q {
          assert index[p] != index[q];
        } else {
          assert index[q] != index[p];
        }
      }
    }
  }

  /**
   * With positive first objectives, draws in [0, 1) and no more slots than
   * individuals, every spin of selectRoulette hits: no placeholder is left.
   */
  lemma RouletteSelectionFills(ps: seq<Genome>, cs: seq<Genome>, draws: seq<real>)
    requires Positive(FirstObjectives(ps + cs)) && UnitDraws(draws) && |draws| <= |ps| + |cs|
    ensures None !in RouletteSources(ps, cs, draws)
  {
    var pool := CopyAll(ps + cs);
    var f := FirstObjectives(pool);
    FirstObjectivesOfCopies(ps + cs);
    FreeSumAllFree(f, 0, |f|);
    assert f[0..|f|] == f;
    CountAllFree(|f|, 0);
    RouletteFillsAll(f, AllFree(|f|), Sum(f), draws, 0);
    var picks := Roulette(f, AllFree(|f|), Sum(f), draws, 0).picks;
    var src := RouletteSources(ps, cs, draws);
    assert forall i :: 0 <= i < |src| ==> src[i] == SourceOf(Ranking(pool), picks[i]);
  }

  /** Readable(Fitness) of parent.add(children), stated on values: no row wider than the first parent's. */
  predicate PoolReadable(ps: seq<Genome>, cs: seq<Genome>)
    requires |ps| >= 1
  {
    && (forall i :: 0 <= i < |ps| ==> |ps[i].fitness| <= |ps[0].fitness|)
    && (forall i :: 0 <= i < |cs| ==> |cs[i].fitness| <= |ps[0].fitness|)
  }

  /** parent.add(children) followed by the fitness column and its ranking. */
  method Pool(parent: Population, children: Population, ghost ps: seq<Genome>, ghost cs: seq<Genome>)
    returns (population: Population, f: seq<real>, index: seq<int>)
    requires parent.Full() && children.Full() && ps == parent.Genomes() && cs == children.Genomes()
    requires |ps| >= 1 && |ps[0].fitness| >= 1 && PoolReadable(ps, cs)
    ensures fresh(population) && fresh(population.individual) && population.Valid()
    ensures population.Genomes() == CopyAll(ps + cs)
    ensures f == FirstObjectives(CopyAll(ps + cs)) && index == Ranking(CopyAll(ps + cs))
  {
    population := parent.Add(children);
    ReadableCopies(population, ps, cs);
    f := FitnessColumn(population, CopyAll(ps + cs));
    index := SortIndices(f, false);
  }

  /** Readable(Fitness) of parent.add(children) follows from the rows of parent and children. */
  lemma ReadableCopies(population: Population, ps: seq<Genome>, cs: seq<Genome>)
    requires population.Full() && population.Genomes() == CopyAll(ps + cs)
    requires |ps| >= 1 && |ps[0].fitness| >= 1 && PoolReadable(ps, cs)
    ensures population.Readable(Fitness) && |population.individual[0].fitness| >= 1
  {
    var pool := population.Genomes();
    assert forall i :: 0 <= i < |pool| ==> pool[i].fitness == (ps + cs)[i].fitness;
  }

  /** (int)(parent.individual.length * rate): the number of slots selectRoulette fills. */
  function NextSize(length: nat, rate: real): Int32 {
    DoubleToInt(length as real * rate)
  }

  /**
   * selectRoulette(parent, children, rate): (int)(parent.length * rate)
   * slots, each spun once on the wheel of parent + children's first
   * objectives, with the draw of that slot.
   */
  method SelectRoulette(parent: Population, children: Population, rate: real, draws: seq<real>,
                        ghost ps: seq<Genome>, ghost cs: seq<Genome>) returns (next: Population)
    requires parent.Full() && children.Full() && ps == parent.Genomes() && cs == children.Genomes()
    requires |ps| >= 1 && |ps[0].fitness| >= 1 && PoolReadable(ps, cs)
    requires 0 <= NextSize(|ps|, rate) == |draws|
    ensures fresh(next) && next.Valid()
    ensures next.Genomes() == RouletteSelection(ps, cs, draws)
  {
    var nextSize := NextSize(parent.individual.Length, rate);
    var first := parent.individual[0];
    assert first.Snapshot() == ps[0];
    var population, f, index := Pool(parent, children, ps, cs);
    next := SpinAll(first, population, f, index, draws, CopyAll(ps + cs));
    assert |draws| == nextSize;
  }

  /** Slot by slot agreement from start on is agreement with the filled sequence. */
  lemma SlotsFilled(next: Population, start: nat, gs: seq<Genome>, placeholder: Genome, index: seq<int>,
                    picks: seq<Option<nat>>)
    requires next.Full() && start + |picks| == next.individual.Length
    requires forall j :: 0 <= j < |index| ==> 0 <= index[j] < |gs|
    requires forall i :: 0 <= i < |picks| && picks[i].Some? ==> picks[i].value < |index|
    requires forall k :: start <= k < next.individual.Length ==>
      next.individual[k].Snapshot() == SlotOf(gs, placeholder, SourceOf(index, picks[k - start]))
    ensures next.Genomes()[start..] == Filled(gs, placeholder, Sources(index, picks))
  {
    var sources := Sources(index, picks);
    var r, rs := Filled(gs, placeholder, sources), next.Genomes()[start..];
    forall k | 0 <= k < |picks|
      ensures rs[k] == r[k]
    {
      assert sources[k] == SourceOf(index, picks[k]);
      assert rs[k] == next.individual[start + k].Snapshot();
    }
  }

  /**
   * What a roulette fill needs: a pool read as gs, a separate new generation
   * whose slots before start hold prefix and from start on the placeholder.
   */
  ghost predicate SpinReady(next: Population, pool: Population, f: seq<real>, index: seq<int>, start: nat,
                            gs: seq<Genome>, placeholder: Genome, prefix: seq<Genome>)
    reads next, next.individual, next.individual[..], pool, pool.individual, pool.individual[..]
  {
    && next.Valid() && pool.Full() && gs == pool.Genomes() && next.individual != pool.individual
    && |f| == |gs| && start <= |f| && start <= next.individual.Length && IsPermutation(index, |f|)
    && (forall k :: start <= k < next.individual.Length ==> next.individual[k].Snapshot() == placeholder)
    && next.Genomes()[..start] == prefix
  }

  /**
   * A roulette phase on a generation whose slots from start on hold
   * placeholders: a fresh set of flags, the sum given, and one spin per slot
   * from start on; the slots before start keep their individuals.
   */
  method RouletteFrom(next: Population, pool: Population, f: seq<real>, index: seq<int>, sum: real,
                      draws: seq<real>, start: nat, ghost gs: seq<Genome>, ghost placeholder: Genome,
                      ghost prefix: seq<Genome>)
    requires SpinReady(next, pool, f, index, start, gs, placeholder, prefix) && start + |draws| == next.individual.Length
    modifies next.individual
    ensures next.Valid()
    ensures forall k :: 0 <= k < start ==> next.individual[k] == old(next.individual[k])
    ensures next.Genomes() ==
      prefix + Filled(gs, placeholder, Sources(index, Roulette(f, AllFree(|f|), sum, draws, start).picks))
  {
    FillFrom(next, pool, f, index, sum, draws, start, gs, placeholder);
    PrefixAndRest(next.Genomes(), start);
  }

  lemma PrefixAndRest(s: seq<Genome>, start: nat)
    requires start <= |s|
    ensures s == s[..start] + s[start..]
  {
  }

  /** The slots from start on after the spins: each holds what its spin picked, or the placeholder. */
  method FillFrom(next: Population, pool: Population, f: seq<real>, index: seq<int>, sum: real,
                  draws: seq<real>, start: nat, ghost gs: seq<Genome>, ghost placeholder: Genome)
    requires next.Valid() && pool.Full() && gs == pool.Genomes() && next.individual != pool.individual
    requires |f| == |gs| && start <= |f| && IsPermutation(index, |f|) && start + |draws| == next.individual.Length
    requires forall k :: start <= k < next.individual.Length ==> next.individual[k].Snapshot() == placeholder
    modifies next.individual
    ensures next.Valid()
    ensures forall k :: 0 <= k < start ==> next.individual[k] == old(next.individual[k])
    ensures next.Genomes()[..start] == old(next.Genomes()[..start])
    ensures next.Genomes()[start..] ==
      Filled(gs, placeholder, Sources(index, Roulette(f, AllFree(|f|), sum, draws, start).picks))
  {
    ghost var before := next.Genomes()[..start];
    var through := new bool[|f|](_ => false);
    assert through[..] == AllFree(|f|);
    ghost var spun := Roulette(f, through[..], sum, draws, start);
    FillByRoulette(next, pool, f, index, through, sum, draws, start, gs, placeholder, spun);
    assert next.individual.Length == start + |spun.picks|;
    SlotsFilled(next, start, gs, placeholder, index, spun.picks);
    ghost var rs := next.Genomes();
    forall k | 0 <= k < start
      ensures rs[..start][k] == before[k]
    {
    }
  }

  /**
   * The second half of selectRoulette: the sum of the column, the new
   * generation of placeholders, the flags, and one spin per draw.
   */
  method SpinAll(first: Individual, population: Population, f: seq<real>, index: seq<int>, draws: seq<real>,
                 ghost gs: seq<Genome>) returns (next: Population)
    requires population.Full() && gs == population.Genomes() && |f| == |gs| && IsPermutation(index, |f|)
    ensures fresh(next) && next.Valid()
    ensures next.Genomes() ==
      Filled(gs, Placeholder(first.Snapshot()), Sources(index, Roulette(f, AllFree(|f|), Sum(f), draws, 0).picks))
  {
    var sum := Sum(f);
    next := NewGeneration(|draws|, first);
    RouletteFrom(next, population, f, index, sum, draws, 0, gs, Placeholder(first.Snapshot()), []);
  }
}
