/**
 * The archive update shared by the select methods of MOPSO.java,
 * MOPSOMultiThreadConstrain.java and OMOPSOMultiThreadConstraint.java: once
 * the combined swarm (the new particles followed by the old global best) is
 * ranked, the members ranked better than the border rank are kept in order,
 * and the remaining places go to border-rank members in descending order of
 * crowding distance.
 */
module Archive {
  import opened Commons
  import opened Rank
  import opened Particles
  import opened Swarms

  // ---------------------------------------------------------------------------
  // The selection as values
  // ---------------------------------------------------------------------------

  /** The positions below n whose rank is better (smaller) than border, ascending. */
  function IndicesBelow(rank: seq<int>, border: int, n: nat): (s: seq<int>)
    requires n <= |rank|
    ensures |s| == CountAtMost(rank, border - 1, n)
    ensures forall k :: 0 <= k < |s| ==> 0 <= s[k] < n && rank[s[k]] < border
    ensures forall a, b :: 0 <= a < b < |s| ==> s[a] < s[b]
  {
    if n == 0 then []
    else IndicesBelow(rank, border, n - 1) + (if rank[n - 1] < border then [n - 1] else [])
  }

  /** Every position below n ranked better than border is listed. */
  lemma {:induction false} IndicesBelowComplete(rank: seq<int>, border: int, n: nat)
    requires n <= |rank|
    ensures forall i :: 0 <= i < n && rank[i] < border ==> i in IndicesBelow(rank, border, n)
  {
    if n > 0 {
      IndicesBelowComplete(rank, border, n - 1);
    }
  }

  /** What select may be asked to do: more members than places, ranks from 1. */
  predicate Selectable(rank: seq<int>, globalSize: int) {
    && |rank| > globalSize >= 0
    && (forall i :: 0 <= i < |rank| ==> rank[i] >= 1)
  }

  /** The number of members ranked better than the border rank. */
  function UpperSize(rank: seq<int>, globalSize: int): nat
    requires |rank| > 0
  {
    CountAtMost(rank, BorderRank(rank, globalSize) - 1, |rank|)
  }

  /** The number of members on the border rank. */
  function BorderSize(rank: seq<int>, globalSize: int): nat
    requires |rank| > 0
  {
    CountEqual(rank, BorderRank(rank, globalSize), |rank|)
  }

  /**
   * The members select keeps, slot by slot: every member ranked better than
   * the border rank, in order, then the border-rank members at the positions
   * order lists first, until globalSize places are filled.
   */
  function Chosen(rank: seq<int>, globalSize: int, order: seq<int>): seq<int>
    requires Selectable(rank, globalSize)
    requires IsPermutation(order, BorderSize(rank, globalSize))
  {
    BorderRankSplit(rank, globalSize);
    var b := BorderRank(rank, globalSize);
    Fill(IndicesBelow(rank, b, |rank|), IndicesOf(rank, b, |rank|), order, globalSize)
  }

  /** All of upper, then the members of onBorder that order lists first, up to globalSize entries. */
  function Fill<T>(upper: seq<T>, onBorder: seq<T>, order: seq<int>, globalSize: int): (r: seq<T>)
    requires |upper| <= globalSize <= |upper| + |order|
    requires forall i :: 0 <= i < globalSize - |upper| ==> 0 <= order[i] < |onBorder|
    ensures |r| == globalSize
  {
    upper + seq(globalSize - |upper|, i requires 0 <= i < globalSize - |upper| => onBorder[order[i]])
  }

  /** Slot by slot: the upper members first, then the border members order picks. */
  lemma ChosenAt(rank: seq<int>, globalSize: int, order: seq<int>)
    requires Selectable(rank, globalSize)
    requires IsPermutation(order, BorderSize(rank, globalSize))
    ensures UpperSize(rank, globalSize) <= globalSize < UpperSize(rank, globalSize) + BorderSize(rank, globalSize)
    ensures |Chosen(rank, globalSize, order)| == globalSize
    ensures forall k :: 0 <= k < UpperSize(rank, globalSize) ==>
      Chosen(rank, globalSize, order)[k] == IndicesBelow(rank, BorderRank(rank, globalSize), |rank|)[k]
    ensures forall k :: UpperSize(rank, globalSize) <= k < globalSize ==>
      Chosen(rank, globalSize, order)[k] ==
        IndicesOf(rank, BorderRank(rank, globalSize), |rank|)[order[k - UpperSize(rank, globalSize)]]
  {
    BorderRankSplit(rank, globalSize);
  }

  /**
   * select fills exactly globalSize places with distinct members; every
   * member ranked better than the border rank is kept, and no member ranked
   * worse than it is.
   */
  lemma ChosenAdmits(rank: seq<int>, globalSize: int, order: seq<int>)
    requires Selectable(rank, globalSize)
    requires IsPermutation(order, BorderSize(rank, globalSize))
    ensures var c := Chosen(rank, globalSize, order);
      && |c| == globalSize
      && (forall k :: 0 <= k < |c| ==> 0 <= c[k] < |rank| && rank[c[k]] <= BorderRank(rank, globalSize))
      && Distinct(c)
      && (forall i :: 0 <= i < |rank| && rank[i] < BorderRank(rank, globalSize) ==> i in c)
  {
    ChosenAt(rank, globalSize, order);
    var b := BorderRank(rank, globalSize);
    var up := IndicesBelow(rank, b, |rank|);
    var onBorder := IndicesOf(rank, b, |rank|);
    var c := Chosen(rank, globalSize, order);
    var u := |up|;
    forall k | 0 <= k < |c| ensures 0 <= c[k] < |rank| && rank[c[k]] <= b {
      if k >= u {
        assert 0 <= order[k - u] < |onBorder|;
      }
    }
    forall k, l | 0 <= k < l < |c| ensures c[k] != c[l] {
      if l < u {
      } else if k < u {
        assert 0 <= order[l - u] < |onBorder|;
        assert rank[c[k]] < b && rank[c[l]] == b;
      } else {
        var x, y := order[k - u], order[l - u];
        assert x != y && 0 <= x < |onBorder| && 0 <= y < |onBorder|;
        if x < y {
          assert onBorder[x] < onBorder[y];
        } else {
          assert onBorder[y] < onBorder[x];
        }
      }
    }
    IndicesBelowComplete(rank, b, |rank|);
    forall i | 0 <= i < |rank| && rank[i] < b ensures i in c {
      var k :| 0 <= k < u && up[k] == i;
      assert c[k] == i;
    }
  }

  /**
   * When at most globalSize members are non-dominated (rank 1), select keeps
   * every one of them.
   */
  lemma NondominatedKept(rank: seq<int>, globalSize: int, order: seq<int>)
    requires Selectable(rank, globalSize)
    requires IsPermutation(order, BorderSize(rank, globalSize))
    requires CountEqual(rank, 1, |rank|) <= globalSize
    ensures forall i :: 0 <= i < |rank| && rank[i] == 1 ==> i in Chosen(rank, globalSize, order)
  {
    var b := BorderRank(rank, globalSize);
    BorderRankSplit(rank, globalSize);
    if b == 1 {
      CountAtMostStep(rank, 1, |rank|);
      CountAtMostNone(rank, 0, |rank|);
      assert false;
    }
    ChosenAdmits(rank, globalSize, order);
  }

  /** The members of last = add(upper, border): the upper members, then the border-rank ones. */
  function Last(rank: seq<int>, globalSize: int): (s: seq<int>)
    requires |rank| > 0
    ensures |s| == UpperSize(rank, globalSize) + BorderSize(rank, globalSize)
    ensures forall k :: 0 <= k < |s| ==> 0 <= s[k] < |rank|
  {
    var b := BorderRank(rank, globalSize);
    IndicesBelow(rank, b, |rank|) + IndicesOf(rank, b, |rank|)
  }

  /** The crowding distance calculateDistance gives row i. */
  function Crowd(f: seq<Fitness>, i: int): real
    requires |f| > 0 && SameArity(f) && 0 <= i < |f|
  {
    if IsEdge(f, i) then MaxValue else NearestTwo(f, i)
  }

  /** The crowding distances of all rows. */
  function Crowds(f: seq<Fitness>): (d: seq<real>)
    requires |f| > 0 && SameArity(f)
    ensures |d| == |f|
  {
    seq(|f|, i requires 0 <= i < |f| => Crowd(f, i))
  }

  /** The crowding distances of rows from .. from+n-1. */
  function Crowding(f: seq<Fitness>, from: nat, n: nat): (d: seq<real>)
    requires |f| > 0 && SameArity(f) && from + n <= |f|
    ensures |d| == n
  {
    Crowds(f)[from .. from + n]
  }

  /** A slice of what calculateDistance returns holds the crowding distances of its rows. */
  lemma CrowdingSlice(f: seq<Fitness>, distance: seq<real>, from: nat, n: nat)
    requires |f| > 0 && SameArity(f) && from + n <= |f| == |distance|
    requires forall i :: 0 <= i < |f| ==> distance[i] == if IsEdge(f, i) then MaxValue else NearestTwo(f, i)
    ensures distance[from .. from + n] == Crowding(f, from, n)
  {
    forall i | 0 <= i < |f| ensures distance[i] == Crowds(f)[i] {
      assert Crowds(f)[i] == Crowd(f, i);
    }
    assert distance == Crowds(f);
  }

  // ---------------------------------------------------------------------------
  // The steps of select after ranking
  // ---------------------------------------------------------------------------

  /** The counting loop: how many members lie above the border rank and how many on it. */
  method CountRanks(rank: seq<int>, border: int) returns (upperSize: int, borderSize: int)
    ensures upperSize == CountAtMost(rank, border - 1, |rank|)
    ensures borderSize == CountEqual(rank, border, |rank|)
  {
    upperSize, borderSize := 0, 0;
    for i := 0 to |rank|
      invariant upperSize == CountAtMost(rank, border - 1, i)
      invariant borderSize == CountEqual(rank, border, i)
    {
      if rank[i] < border {
        upperSize := upperSize + 1;
      } else if rank[i] == border {
        borderSize := borderSize + 1;
      }
    }
  }

  /**
   * The swarms upper and border: fresh swarms of the counted sizes, zero
   * initialised, then filled with copies of the combined members ranked
   * better than the border rank and on it, each group in combined order.
   */
  method SplitByRank(combined: Swarm, rank: seq<int>, border: int, upperSize: int, borderSize: int, v: nat, m: nat,
                     ghost members: seq<State>)
    returns (upper: Swarm, onBorder: Swarm)
    requires combined.Shaped(v, m) && |rank| == combined.particle.Length && members == combined.States()
    requires upperSize == CountAtMost(rank, border - 1, |rank|)
    requires borderSize == CountEqual(rank, border, |rank|)
    ensures fresh(upper) && fresh(upper.particle) && upper.particle.Length == upperSize
    ensures fresh(onBorder) && fresh(onBorder.particle) && onBorder.particle.Length == borderSize
    ensures upper.Shaped(v, m) && onBorder.Shaped(v, m)
    ensures Holds(upper, members, IndicesBelow(rank, border, |rank|))
    ensures Holds(onBorder, members, IndicesOf(rank, border, |rank|))
  {
    onBorder := ZeroSwarm(borderSize, v, m);
    upper := ZeroSwarm(upperSize, v, m);
    var countBorder, countUpper := 0, 0;
    assert forall j :: 0 <= j < |members| ==> StateShaped(members[j], v, m);
    for i := 0 to |rank|
      invariant upper.particle != onBorder.particle
      invariant countUpper == CountAtMost(rank, border - 1, i)
      invariant countBorder == CountEqual(rank, border, i)
      invariant Holds(upper, members, IndicesBelow(rank, border, i))
      invariant Holds(onBorder, members, IndicesOf(rank, border, i))
    {
      countUpper, countBorder := Place(upper, onBorder, combined.particle[i], rank, border, i, countUpper, countBorder,
                                       v, m, members);
    }
    HoldsShaped(upper, members, IndicesBelow(rank, border, |rank|), v, m);
    HoldsShaped(onBorder, members, IndicesOf(rank, border, |rank|), v, m);
  }

  /** A group whose every slot holds a uniformly shaped member is uniformly shaped. */
  lemma HoldsShaped(group: Swarm, members: seq<State>, placed: seq<int>, v: nat, m: nat)
    requires Holds(group, members, placed) && |placed| == group.particle.Length
    requires forall j :: 0 <= j < |members| ==> StateShaped(members[j], v, m)
    ensures group.Shaped(v, m)
  {
  }

  /**
   * The body of the splitting loop for member i: a copy joins upper when
   * its rank is better than the border rank, border when it equals it, and
   * neither otherwise.
   */
  method Place(upper: Swarm, onBorder: Swarm, p: Particle, rank: seq<int>, border: int, i: int,
               countUpper: int, countBorder: int, v: nat, m: nat, ghost members: seq<State>)
    returns (nextUpper: int, nextBorder: int)
    requires 0 <= i < |rank| && upper.particle != onBorder.particle
    requires upper.particle.Length == CountAtMost(rank, border - 1, |rank|)
    requires onBorder.particle.Length == CountEqual(rank, border, |rank|)
    requires countUpper == CountAtMost(rank, border - 1, i) && countBorder == CountEqual(rank, border, i)
    requires i < |members| && p.Snapshot() == members[i] && StateShaped(members[i], v, m)
    requires Holds(upper, members, IndicesBelow(rank, border, i))
    requires Holds(onBorder, members, IndicesOf(rank, border, i))
    modifies upper.particle, onBorder.particle
    ensures nextUpper == CountAtMost(rank, border - 1, i + 1) && nextBorder == CountEqual(rank, border, i + 1)
    ensures Holds(upper, members, IndicesBelow(rank, border, i + 1))
    ensures Holds(onBorder, members, IndicesOf(rank, border, i + 1))
  {
    CountAtMostPrefix(rank, border - 1, i + 1, |rank|);
    CountEqualMonotone(rank, border, i + 1, |rank|);
    SplitStep(rank, border, i);
    ghost var below, at := IndicesBelow(rank, border, i), IndicesOf(rank, border, i);
    nextUpper, nextBorder := countUpper, countBorder;
    if rank[i] < border {
      Append(upper, countUpper, p, v, m, members, below, i);
      nextUpper := countUpper + 1;
    } else if rank[i] == border {
      Append(onBorder, countBorder, p, v, m, members, at, i);
      nextBorder := countBorder + 1;
    }
  }

  /** The first |placed| slots of group hold the members placed lists, in order. */
  predicate Holds(group: Swarm, members: seq<State>, placed: seq<int>)
    reads group.particle, group.particle[..]
  {
    && |placed| <= group.particle.Length
    && forall k :: 0 <= k < |placed| ==>
      && group.particle[k] != null && 0 <= placed[k] < |members|
      && group.particle[k].Snapshot() == members[placed[k]]
  }

  /** What position i adds to the counts and index lists of the splitting loop. */
  lemma SplitStep(rank: seq<int>, border: int, i: int)
    requires 0 <= i < |rank|
    ensures CountAtMost(rank, border - 1, i + 1) == CountAtMost(rank, border - 1, i) + (if rank[i] < border then 1 else 0)
    ensures CountEqual(rank, border, i + 1) == CountEqual(rank, border, i) + (if rank[i] == border then 1 else 0)
    ensures IndicesBelow(rank, border, i + 1) ==
      if rank[i] < border then IndicesBelow(rank, border, i) + [i] else IndicesBelow(rank, border, i)
    ensures IndicesOf(rank, border, i + 1) ==
      if rank[i] == border then IndicesOf(rank, border, i) + [i] else IndicesOf(rank, border, i)
  {
    assert IndicesBelow(rank, border, i) + [] == IndicesBelow(rank, border, i);
    assert IndicesOf(rank, border, i) + [] == IndicesOf(rank, border, i);
  }

  /**
   * One step of the splitting loop: slot count of group takes a copy of p,
   * member i of the combined swarm, after the members already placed.
   */
  method Append(group: Swarm, count: int, p: Particle, v: nat, m: nat,
                ghost members: seq<State>, ghost placed: seq<int>, ghost i: int)
    requires 0 <= count < group.particle.Length && count == |placed|
    requires 0 <= i < |members| && p.Snapshot() == members[i] && StateShaped(members[i], v, m)
    requires Holds(group, members, placed)
    modifies group.particle
    ensures Holds(group, members, placed + [i])
  {
    CopyStateMeaning(p.Snapshot());
    group.PutCopy(count, p);
  }

  /**
   * lastFitness: the fitness rows of add(upper, border), normalised. Under
   * uniform shapes the copies add makes hold the originals' values.
   */
  method LastFitness(upper: Swarm, onBorder: Swarm, v: nat, m: nat, maxValue: seq<real>, minValue: seq<real>,
                     ghost states: seq<State>)
    returns (lastFitness: seq<Fitness>)
    requires upper.Shaped(v, m) && onBorder.Shaped(v, m) && onBorder.particle.Length > 0
    requires states == upper.States() + onBorder.States()
    ensures |lastFitness| == upper.particle.Length + onBorder.particle.Length
    ensures forall k :: 0 <= k < |lastFitness| ==> |lastFitness[k]| == m
    ensures lastFitness == FitnessRows(states, maxValue, minValue)
  {
    var last := Join(upper, onBorder, v, m, upper.States(), onBorder.States());
    var rows := last.GetRows(Fitness);
    forall k | 0 <= k < |rows|
      ensures rows[k] == states[k].fitness
    {
      assert |rows[k]| == m;
    }
    assert rows == Fitnesses(states);
    lastFitness := Normalize(rows, maxValue, minValue);
  }

  /**
   * The crowding step: the normalised fitness of upper followed by border
   * gets its crowding distances; the border part is sorted in descending
   * order of distance.
   */
  method BorderOrder(upper: Swarm, onBorder: Swarm, v: nat, m: nat, maxValue: seq<real>, minValue: seq<real>,
                     ghost states: seq<State>)
    returns (index: seq<int>, lastFitness: seq<Fitness>, borderDistance: seq<real>)
    requires upper.Shaped(v, m) && onBorder.Shaped(v, m) && onBorder.particle.Length > 0
    requires states == upper.States() + onBorder.States()
    ensures |lastFitness| == upper.particle.Length + onBorder.particle.Length && SameArity(lastFitness)
    ensures lastFitness == FitnessRows(states, maxValue, minValue)
    ensures borderDistance == Crowding(lastFitness, upper.particle.Length, onBorder.particle.Length)
    ensures IsPermutation(index, onBorder.particle.Length)
    ensures forall i, j :: 0 <= i < j < |index| ==> borderDistance[index[i]] >= borderDistance[index[j]]
  {
    var u := upper.particle.Length;
    lastFitness := LastFitness(upper, onBorder, v, m, maxValue, minValue, states);
    var lastDistance := CalculateDistance(lastFitness);
    borderDistance := lastDistance[u .. u + onBorder.particle.Length];
    CrowdingSlice(lastFitness, lastDistance, u, onBorder.particle.Length);
    index := SortIndices(borderDistance, true);
  }

  /**
   * The two storing loops: globalBest's first places take copies of upper in
   * order, the next ones copies of the border members index lists first.
   * us and bs are the states of upper's and border's particles.
   */
  method StoreArchive(globalBest: Swarm, upper: Swarm, onBorder: Swarm, index: seq<int>, globalSize: int, v: nat, m: nat,
                      ghost us: seq<State>, ghost bs: seq<State>)
    requires globalBest.Valid() && upper.Shaped(v, m) && onBorder.Shaped(v, m)
    requires us == upper.States() && bs == onBorder.States()
    requires globalBest.particle != upper.particle && globalBest.particle != onBorder.particle
    requires upper.particle.Length <= globalSize <= globalBest.particle.Length
    requires globalSize - upper.particle.Length <= |index|
    requires forall i :: 0 <= i < globalSize - upper.particle.Length ==> 0 <= index[i] < onBorder.particle.Length
    modifies globalBest.particle
    ensures globalBest.Valid()
    ensures forall k :: globalSize <= k < globalBest.particle.Length ==> globalBest.particle[k] == old(globalBest.particle[k])
    ensures forall k :: 0 <= k < |us| ==> fresh(globalBest.particle[k]) && globalBest.particle[k].Snapshot() == us[k]
    ensures forall k :: |us| <= k < globalSize ==>
      fresh(globalBest.particle[k]) && globalBest.particle[k].Snapshot() == bs[index[k - |us|]]
  {
    var u := upper.particle.Length;
    CopyUpper(globalBest, upper, v, m, us);
    label Upper:
    CopyPicked(globalBest, u, onBorder, index, globalSize - u, v, m, bs);
    forall k | 0 <= k < u
      ensures fresh(globalBest.particle[k]) && globalBest.particle[k].Snapshot() == us[k]
    {
      var p := globalBest.particle[k];
      assert p == old@Upper(globalBest.particle[k]);
      assert p.Snapshot() == old@Upper(p.Snapshot());
    }
  }

  /** The first storing loop: globalBest's first places take copies of upper's particles in order. */
  method CopyUpper(globalBest: Swarm, upper: Swarm, v: nat, m: nat, ghost us: seq<State>)
    requires globalBest.Valid() && upper.Shaped(v, m) && globalBest.particle != upper.particle
    requires upper.particle.Length <= globalBest.particle.Length && us == upper.States()
    modifies globalBest.particle
    ensures globalBest.Valid()
    ensures forall k :: |us| <= k < globalBest.particle.Length ==> globalBest.particle[k] == old(globalBest.particle[k])
    ensures forall k :: 0 <= k < |us| ==> fresh(globalBest.particle[k]) && globalBest.particle[k].Snapshot() == us[k]
  {
    forall k | 0 <= k < |us| ensures Copyable(upper.particle[k].Snapshot()) {
      CopyStateMeaning(us[k]);
    }
    globalBest.CopyIn(0, upper, us);
    forall k | 0 <= k < |us| ensures globalBest.particle[k].Snapshot() == us[k] {
      CopyStateMeaning(us[k]);
    }
  }

  /** The second storing loop: places offset .. offset+count-1 take copies of src's members at index[0 .. count-1]. */
  method CopyPicked(dst: Swarm, offset: nat, src: Swarm, index: seq<int>, count: nat, v: nat, m: nat, ghost states: seq<State>)
    requires dst.Valid() && src.Shaped(v, m) && dst.particle != src.particle && states == src.States()
    requires offset + count <= dst.particle.Length && count <= |index|
    requires forall i :: 0 <= i < count ==> 0 <= index[i] < src.particle.Length
    modifies dst.particle
    ensures dst.Valid()
    ensures forall k :: 0 <= k < dst.particle.Length && !(offset <= k < offset + count) ==>
      dst.particle[k] == old(dst.particle[k])
    ensures forall k :: offset <= k < offset + count ==>
      fresh(dst.particle[k]) && dst.particle[k].Snapshot() == states[index[k - offset]]
  {
    for i := 0 to count
      invariant dst.Valid()
      invariant forall k :: 0 <= k < dst.particle.Length && !(offset <= k < offset + i) ==>
        dst.particle[k] == old(dst.particle[k])
      invariant forall k :: offset <= k < offset + i ==>
        fresh(dst.particle[k]) && dst.particle[k].Snapshot() == states[index[k - offset]]
    {
      var p := src.particle[index[i]];
      CopyStateMeaning(states[index[i]]);
      dst.PutCopy(offset + i, p);
    }
  }

  /**
   * The normalised fitness rows select computes crowding distances from:
   * those of last = add(upper, border).
   */
  function LastFitnessOf(members: seq<State>, rank: seq<int>, globalSize: int, maxValue: seq<real>, minValue: seq<real>)
    : (f: seq<Fitness>)
    requires |rank| > 0 && |members| == |rank|
    ensures |f| == UpperSize(rank, globalSize) + BorderSize(rank, globalSize)
  {
    FitnessRows(Picked(members, Last(rank, globalSize)), maxValue, minValue)
  }

  /** The members placed lists, in order. */
  function Picked(members: seq<State>, placed: seq<int>): (r: seq<State>)
    requires forall k :: 0 <= k < |placed| ==> 0 <= placed[k] < |members|
    ensures |r| == |placed| && forall k :: 0 <= k < |placed| ==> r[k] == members[placed[k]]
  {
    seq(|placed|, k requires 0 <= k < |placed| => members[placed[k]])
  }

  /** The normalised fitness rows of some particle states. */
  function FitnessRows(states: seq<State>, maxValue: seq<real>, minValue: seq<real>): (f: seq<Fitness>)
    ensures |f| == |states|
  {
    Normalize(Fitnesses(states), maxValue, minValue)
  }

  /** The fitness rows of some particle states. */
  function Fitnesses(states: seq<State>): (f: seq<Fitness>)
    ensures |f| == |states|
  {
    seq(|states|, k requires 0 <= k < |states| => states[k].fitness)
  }

  /** The constraint-violation rows of some particle states. */
  function Constraints(states: seq<State>): (c: seq<seq<real>>)
    ensures |c| == |states|
  {
    seq(|states|, k requires 0 <= k < |states| => states[k].constraintViolation)
  }

  /** Every state carries exactly count constraint violations. */
  predicate ConstraintCount(states: seq<State>, count: nat) {
    forall k :: 0 <= k < |states| ==> |states[k].constraintViolation| == count
  }

  /**
   * getFitness on a swarm whose particles all have m objectives: no row is
   * padded, so the matrix is the particles' fitness arrays.
   */
  method FitnessMatrix(s: Swarm, v: nat, m: nat, ghost states: seq<State>) returns (rows: seq<Fitness>)
    requires s.Shaped(v, m) && s.particle.Length > 0 && states == s.States()
    ensures rows == Fitnesses(states) && SameArity(rows)
    ensures forall k :: 0 <= k < |rows| ==> |rows[k]| == m
  {
    rows := s.GetRows(Fitness);
    forall k | 0 <= k < |rows|
      ensures rows[k] == states[k].fitness
    {
      assert |rows[k]| == m;
    }
  }

  /** getConstraint on a swarm whose particles all carry count constraint violations. */
  method ConstraintMatrix(s: Swarm, count: nat, ghost states: seq<State>) returns (rows: seq<seq<real>>)
    requires s.Full() && s.particle.Length > 0 && states == s.States() && ConstraintCount(states, count)
    ensures rows == Constraints(states) && SameArity(rows)
  {
    rows := s.GetRows(Constraint);
    forall k | 0 <= k < |rows|
      ensures rows[k] == states[k].constraintViolation
    {
      assert |rows[k]| == count;
    }
  }

  /** A group filled slot for slot holds exactly the states placed picks. */
  lemma HoldsStates(group: Swarm, members: seq<State>, placed: seq<int>)
    requires Holds(group, members, placed) && |placed| == group.particle.Length
    ensures group.Full() && group.States() == Picked(members, placed)
  {
  }

  lemma PickedConcat(members: seq<State>, a: seq<int>, b: seq<int>)
    requires forall k :: 0 <= k < |a| ==> 0 <= a[k] < |members|
    requires forall k :: 0 <= k < |b| ==> 0 <= b[k] < |members|
    ensures Picked(members, a + b) == Picked(members, a) + Picked(members, b)
  {
  }

  /**
   * After the storing loops, globalBest's first places hold the upper
   * members and then the border members index picks.
   */
  lemma StoredHolds(globalBest: Swarm, globalSize: int, members: seq<State>, below: seq<int>, at: seq<int>,
                    index: seq<int>, us: seq<State>, bs: seq<State>)
    requires (forall k :: 0 <= k < |below| ==> 0 <= below[k] < |members|) && us == Picked(members, below)
    requires (forall k :: 0 <= k < |at| ==> 0 <= at[k] < |members|) && bs == Picked(members, at)
    requires |below| <= globalSize <= globalBest.particle.Length && globalSize <= |below| + |index|
    requires forall i :: 0 <= i < globalSize - |below| ==> 0 <= index[i] < |at|
    requires forall k :: 0 <= k < |us| ==> globalBest.particle[k] != null && globalBest.particle[k].Snapshot() == us[k]
    requires forall k :: |us| <= k < globalSize ==>
      globalBest.particle[k] != null && globalBest.particle[k].Snapshot() == bs[index[k - |us|]]
    ensures Holds(globalBest, members, Fill(below, at, index, globalSize))
  {
    var f := Fill(below, at, index, globalSize);
    forall k | 0 <= k < globalSize
      ensures 0 <= f[k] < |members| && globalBest.particle[k].Snapshot() == members[f[k]]
    {
      if k >= |below| {
        assert f[k] == at[index[k - |below|]];
      }
    }
  }

  /**
   * The first part of select after ranking: the border rank, the two counts
   * and the swarms upper and border holding copies of the members ranked
   * better than the border rank and of those on it.
   */
  method Partition(combined: Swarm, rank: seq<int>, globalSize: int, v: nat, m: nat, ghost members: seq<State>)
    returns (upper: Swarm, onBorder: Swarm)
    requires combined.Shaped(v, m) && |rank| == combined.particle.Length && members == combined.States()
    requires Selectable(rank, globalSize)
    ensures fresh(upper.particle) && fresh(onBorder.particle)
    ensures upper.particle.Length == UpperSize(rank, globalSize) <= globalSize
    ensures onBorder.particle.Length == BorderSize(rank, globalSize) > globalSize - UpperSize(rank, globalSize)
    ensures upper.Shaped(v, m) && onBorder.Shaped(v, m)
    ensures Holds(upper, members, IndicesBelow(rank, BorderRank(rank, globalSize), |rank|))
    ensures Holds(onBorder, members, IndicesOf(rank, BorderRank(rank, globalSize), |rank|))
    ensures upper.States() + onBorder.States() == Picked(members, Last(rank, globalSize))
  {
    var border, upperSize, borderSize := Sizes(rank, globalSize);
    upper, onBorder := SplitByRank(combined, rank, border, upperSize, borderSize, v, m, members);
    HoldsLast(upper, onBorder, members, rank, globalSize);
  }

  /** The border rank and how many members lie below it and on it. */
  method Sizes(rank: seq<int>, globalSize: int) returns (border: int, upperSize: int, borderSize: int)
    requires Selectable(rank, globalSize)
    ensures border == BorderRank(rank, globalSize)
    ensures upperSize == CountAtMost(rank, border - 1, |rank|) == UpperSize(rank, globalSize) <= globalSize
    ensures borderSize == CountEqual(rank, border, |rank|) == BorderSize(rank, globalSize)
    ensures borderSize > globalSize - upperSize
  {
    border := CalculateBorderRank(rank, globalSize);
    BorderRankSplit(rank, globalSize);
    upperSize, borderSize := CountRanks(rank, border);
    // the "upper rank count is abnormal" log line of select cannot be reached
    assert upperSize <= globalSize;
  }

  /** Two groups holding the members below the border rank and at it hold Last, in that order. */
  lemma HoldsLast(upper: Swarm, onBorder: Swarm, members: seq<State>, rank: seq<int>, globalSize: int)
    requires |rank| > 0
    requires Holds(upper, members, IndicesBelow(rank, BorderRank(rank, globalSize), |rank|))
    requires Holds(onBorder, members, IndicesOf(rank, BorderRank(rank, globalSize), |rank|))
    requires upper.particle.Length == UpperSize(rank, globalSize) && onBorder.particle.Length == BorderSize(rank, globalSize)
    ensures upper.Full() && onBorder.Full()
    ensures upper.States() + onBorder.States() == Picked(members, Last(rank, globalSize))
  {
    var border := BorderRank(rank, globalSize);
    var below, at := IndicesBelow(rank, border, |rank|), IndicesOf(rank, border, |rank|);
    HoldsStates(upper, members, below);
    HoldsStates(onBorder, members, at);
    PickedConcat(members, below, at);
  }

  /**
   * Everything select does before it writes globalBest: the partition, then
   * the crowding distances of the border-rank members and their order.
   */
  method Prepare(combined: Swarm, rank: seq<int>, globalSize: int, v: nat, m: nat,
                 maxValue: seq<real>, minValue: seq<real>, ghost members: seq<State>)
    returns (upper: Swarm, onBorder: Swarm, index: seq<int>, lastFitness: seq<Fitness>, borderDistance: seq<real>)
    requires combined.Shaped(v, m) && |rank| == combined.particle.Length && members == combined.States()
    requires Selectable(rank, globalSize)
    ensures fresh(upper.particle) && fresh(onBorder.particle)
    ensures upper.particle.Length == UpperSize(rank, globalSize) <= globalSize
    ensures onBorder.particle.Length == BorderSize(rank, globalSize) > globalSize - UpperSize(rank, globalSize)
    ensures upper.Shaped(v, m) && onBorder.Shaped(v, m)
    ensures Holds(upper, members, IndicesBelow(rank, BorderRank(rank, globalSize), |rank|))
    ensures Holds(onBorder, members, IndicesOf(rank, BorderRank(rank, globalSize), |rank|))
    ensures lastFitness == LastFitnessOf(members, rank, globalSize, maxValue, minValue) && SameArity(lastFitness)
    ensures borderDistance == Crowding(lastFitness, UpperSize(rank, globalSize), BorderSize(rank, globalSize))
    ensures IsPermutation(index, BorderSize(rank, globalSize))
    ensures forall i, j :: 0 <= i < j < |index| ==> borderDistance[index[i]] >= borderDistance[index[j]]
  {
    assert forall j :: 0 <= j < |members| ==> StateShaped(members[j], v, m);
    upper, onBorder := Partition(combined, rank, globalSize, v, m, members);
    ghost var border := BorderRank(rank, globalSize);
    ghost var below, at := IndicesBelow(rank, border, |rank|), IndicesOf(rank, border, |rank|);
    index, lastFitness, borderDistance :=
      BorderOrder(upper, onBorder, v, m, maxValue, minValue, Picked(members, Last(rank, globalSize)));
    HoldsShaped(upper, members, below, v, m);
    HoldsShaped(onBorder, members, at, v, m);
  }

  /**
   * select from the border-rank computation on: the places of globalBest
   * below globalSize are refilled with copies of the chosen members of
   * combined; globalBest's other places keep their particles.
   */
  method Truncate(combined: Swarm, rank: seq<int>, globalBest: Swarm, globalSize: int, v: nat, m: nat,
                  maxValue: seq<real>, minValue: seq<real>, ghost members: seq<State>)
    returns (ghost order: seq<int>, ghost crowding: seq<real>)
    requires combined.Shaped(v, m) && |rank| == combined.particle.Length && members == combined.States()
    requires Selectable(rank, globalSize)
    requires globalBest.Valid() && globalSize <= globalBest.particle.Length
    requires globalBest.particle != combined.particle
    modifies globalBest.particle
    ensures globalBest.Valid()
    ensures IsPermutation(order, BorderSize(rank, globalSize))
    ensures BorderSize(rank, globalSize) > 0 && SameArity(LastFitnessOf(members, rank, globalSize, maxValue, minValue))
    ensures crowding == Crowding(LastFitnessOf(members, rank, globalSize, maxValue, minValue),
                                 UpperSize(rank, globalSize), BorderSize(rank, globalSize))
    ensures forall i, j :: 0 <= i < j < |order| ==> crowding[order[i]] >= crowding[order[j]]
    ensures forall k :: globalSize <= k < globalBest.particle.Length ==> globalBest.particle[k] == old(globalBest.particle[k])
    ensures forall k :: 0 <= k < globalSize ==> fresh(globalBest.particle[k])
    ensures Holds(globalBest, members, Chosen(rank, globalSize, order))
  {
    var upper, onBorder, index, lastFitness, borderDistance :=
      Prepare(combined, rank, globalSize, v, m, maxValue, minValue, members);
    ghost var border := BorderRank(rank, globalSize);
    ghost var below, at := IndicesBelow(rank, border, |rank|), IndicesOf(rank, border, |rank|);
    HoldsStates(upper, members, below);
    HoldsStates(onBorder, members, at);
    ghost var us, bs := upper.States(), onBorder.States();
    StoreArchive(globalBest, upper, onBorder, index, globalSize, v, m, us, bs);
    StoredHolds(globalBest, globalSize, members, below, at, index, us, bs);
    order, crowding := index, borderDistance;
  }
}
