/**
 * Rank.java: dominance tests between objective vectors (all objectives are
 * minimised), Fleming ranking, rank-index extraction, the border rank used by
 * archive selection, and the Manhattan crowding distance.
 */
module Rank {
  import opened Commons

  /** One solution's objective values; smaller is better on every objective. */
  type Fitness = seq<real>

  // ===========================================================================
  // Plain and epsilon rules (Rank.java 143-177)
  // ===========================================================================

  /** The scan of dominated(basis, target) from objective i onwards. */
  function DominatedFrom(basis: Fitness, target: Fitness, i: nat): (r: bool)
    requires |target| <= |basis| && i <= |target|
    ensures r <==> forall k :: i <= k < |target| ==> basis[k] <= target[k]
    decreases |target| - i
  {
    if i == |target| then true
    else if target[i] < basis[i] then false
    else DominatedFrom(basis, target, i + 1)
  }

  /** dominated(basis, target): basis dominates target unless target is smaller somewhere. */
  function Dominated(basis: Fitness, target: Fitness): (r: bool)
    requires |target| <= |basis|
    ensures r <==> forall k :: 0 <= k < |target| ==> basis[k] <= target[k]
  {
    DominatedFrom(basis, target, 0)
  }

  function DominatedEpsilonFrom(basis: Fitness, target: Fitness, epsilon: real, i: nat): (r: bool)
    requires |target| <= |basis| && i <= |target|
    ensures r <==> forall k :: i <= k < |target| ==> basis[k] * (1.0 - epsilon) <= target[k]
    decreases |target| - i
  {
    if i == |target| then true
    else if target[i] < basis[i] * (1.0 - epsilon) then false
    else DominatedEpsilonFrom(basis, target, epsilon, i + 1)
  }

  /** dominatedEpsilon: basis, shrunk by the factor (1 - epsilon), is nowhere above target. */
  function DominatedEpsilon(basis: Fitness, target: Fitness, epsilon: real): (r: bool)
    requires |target| <= |basis|
    ensures r <==> forall k :: 0 <= k < |target| ==> basis[k] * (1.0 - epsilon) <= target[k]
  {
    DominatedEpsilonFrom(basis, target, epsilon, 0)
  }

  // ===========================================================================
  // Alpha rule (Rank.java 188-254)
  // ===========================================================================

  /** basis - target, objective by objective. */
  function Diff(basis: Fitness, target: Fitness): (d: seq<real>)
    requires |basis| == |target|
    ensures |d| == |basis|
    ensures forall k :: 0 <= k < |d| ==> d[k] == basis[k] - target[k]
  {
    seq(|basis|, k requires 0 <= k < |basis| => basis[k] - target[k])
  }

  /** Number of objectives from i on where the target wins (difference > 0). */
  function CountWins(d: seq<real>, i: nat): (c: nat)
    requires i <= |d|
    ensures c <= |d| - i
    decreases |d| - i
  {
    if i == |d| then 0
    else (if d[i] > 0.0 then 1 else 0) + CountWins(d, i + 1)
  }

  /** The target wins nowhere exactly when the count is 0, and everywhere exactly when it is full. */
  lemma {:induction false} CountWinsExtremes(d: seq<real>, i: nat)
    requires i <= |d|
    ensures CountWins(d, i) == 0 <==> forall k :: i <= k < |d| ==> d[k] <= 0.0
    ensures CountWins(d, i) == |d| - i <==> forall k :: i <= k < |d| ==> d[k] > 0.0
    decreases |d| - i
  {
    if i < |d| {
      CountWinsExtremes(d, i + 1);
    }
  }

  /** Sum of the squared differences, from i on, over the objectives the target does not win. */
  function LoseSquares(d: seq<real>, i: nat): (t: real)
    requires i <= |d|
    ensures t >= 0.0
    decreases |d| - i
  {
    if i == |d| then 0.0
    else (if d[i] <= 0.0 then d[i] * d[i] else 0.0) + LoseSquares(d, i + 1)
  }

  /**
   * The test |sqrt(t) * alpha| < |x| with both sides squared, which for t >= 0
   * is the same comparison (see SquaredComparison).
   */
  predicate Outweighs(t: real, alpha: real, x: real) {
    alpha * alpha * t < x * x
  }

  lemma SquaredComparison(s: real, t: real, alpha: real, x: real)
    requires s >= 0.0 && s * s == t
    ensures Abs(s * alpha) < Abs(x) <==> Outweighs(t, alpha, x)
  {
    var p := s * alpha;
    assert Abs(p) * Abs(p) == p * p;
    assert p * p == s * (alpha * p);
    assert alpha * p == s * (alpha * alpha);
    assert Abs(x) * Abs(x) == x * x;
    SquareMonotone(Abs(p), Abs(x));
  }

  /** On non-negative reals, squaring preserves and reflects the order. */
  lemma SquareMonotone(a: real, b: real)
    requires 0.0 <= a && 0.0 <= b
    ensures a < b <==> a * a < b * b
  {
    if a < b {
      SquareStrict(a, b);
    } else {
      SquareWeak(b, a);
    }
  }

  lemma SquareStrict(a: real, b: real)
    requires 0.0 <= a < b
    ensures a * a < b * b
  {
    assert b - a > 0.0;
    assert b + a > 0.0;
    ProductSign(b - a, b + a);
    assert (b - a) * (b + a) > 0.0;
    assert b * b - a * a == (b - a) * (b + a);
  }

  lemma SquareWeak(a: real, b: real)
    requires 0.0 <= a <= b
    ensures a * a <= b * b
  {
    ProductSign(b - a, b + a);
    assert (b - a) * (b + a) >= 0.0;
    assert b * b - a * a == (b - a) * (b + a);
  }

  lemma ProductSign(u: real, v: real)
    requires u >= 0.0 && v >= 0.0
    ensures u * v >= 0.0
    ensures u > 0.0 && v > 0.0 ==> u * v > 0.0
  {
  }

  function NoWinOutweighs(d: seq<real>, alpha: real, t: real, w: nat): (r: bool)
    requires w <= |d|
    ensures r <==> forall k :: w <= k < |d| && d[k] > 0.0 ==> !Outweighs(t, alpha, d[k])
    decreases |d| - w
  {
    if w == |d| then true
    else if d[w] > 0.0 && Outweighs(t, alpha, d[w]) then false
    else NoWinOutweighs(d, alpha, t, w + 1)
  }

  /**
   * dominatedAlpha with the losing objectives taken to be those the target does
   * not win. basis dominates target unless the target wins everywhere, or wins
   * some objective by more than alpha times the Euclidean size of its losses.
   */
  function DominatedAlpha(basis: Fitness, target: Fitness, alpha: real): bool
    requires |basis| == |target|
  {
    var d := Diff(basis, target);
    var c := CountWins(d, 0);
    if c == |d| then false
    else if c == 0 then true
    else NoWinOutweighs(d, alpha, LoseSquares(d, 0), 0)
  }

  /**
   * What dominatedAlpha decides: the target does not win every objective, and
   * no objective it wins outweighs alpha times the size of its losses.
   */
  lemma DominatedAlphaMeaning(basis: Fitness, target: Fitness, alpha: real)
    requires |basis| == |target|
    ensures DominatedAlpha(basis, target, alpha) <==>
      (exists k :: 0 <= k < |basis| && basis[k] <= target[k]) &&
      (forall k :: 0 <= k < |basis| && basis[k] > target[k] ==>
         !Outweighs(LoseSquares(Diff(basis, target), 0), alpha, basis[k] - target[k]))
  {
    CountWinsExtremes(Diff(basis, target), 0);
  }

  // --- dominatedAlpha as written ----------------------------------------------

  /** Indices from i on where the target wins, ascending (winIndex, Rank.java 215-224). */
  function WinIndices(d: seq<real>, i: nat): (w: seq<int>)
    requires i <= |d|
    ensures |w| == CountWins(d, i)
    ensures forall k :: 0 <= k < |w| ==> i <= w[k] < |d| && d[w[k]] > 0.0
    ensures forall k :: i <= k < |d| && d[k] > 0.0 ==> k in w
    decreases |d| - i
  {
    if i == |d| then []
    else (if d[i] > 0.0 then [i] else []) + WinIndices(d, i + 1)
  }

  /** The indices i .. m-1 other than win, in order. */
  function Others(win: int, i: nat, m: nat): (s: seq<int>)
    requires i <= m
    ensures |s| == (if i <= win < m then m - i - 1 else m - i)
    ensures forall k :: 0 <= k < |s| ==> i <= s[k] < m && s[k] != win
    decreases m - i
  {
    if i == m then []
    else (if i != win then [i] else []) + Others(win, i + 1, m)
  }

  /**
   * The loseIndex fill (Rank.java 230-239): the indices i .. m-1 other than win
   * are written after acc into an int array of capacity cap. None is the
   * ArrayIndexOutOfBoundsException of a write past the end; slots never written
   * keep Java's default 0.
   */
  function FillLose(m: nat, win: int, cap: nat, i: nat, acc: seq<int>): (r: Option<seq<int>>)
    requires i <= m && |acc| <= cap
    decreases m - i
  {
    if i == m then Some(acc + seq(cap - |acc|, _ => 0))
    else if i != win then
      if |acc| == cap then None else FillLose(m, win, cap, i + 1, acc + [i])
    else FillLose(m, win, cap, i + 1, acc)
  }

  /** temp at Rank.java 242-246: the sum of squared differences at the listed indices. */
  function SquaresAt(d: seq<real>, idx: seq<int>): real
    requires forall k :: 0 <= k < |idx| ==> 0 <= idx[k] < |d|
  {
    if idx == [] then 0.0 else d[idx[0]] * d[idx[0]] + SquaresAt(d, idx[1..])
  }

  /** The loop over the winning objectives (Rank.java 227-252). */
  function AlphaLoopAsWritten(d: seq<real>, alpha: real, wins: seq<int>, w: nat): (r: Option<bool>)
    requires |d| > 0 && |wins| <= |d| && w <= |wins|
    requires forall k :: 0 <= k < |wins| ==> 0 <= wins[k] < |d|
    decreases |wins| - w
  {
    if w == |wins| then Some(true)
    else
      match FillLose(|d|, wins[w], |d| - |wins|, 0, [])
      case None => None
      case Some(lose) =>
        FillLoseInRange(|d|, wins[w], |d| - |wins|, 0, []);
        if Outweighs(SquaresAt(d, lose), alpha, d[wins[w]]) then Some(false)
        else AlphaLoopAsWritten(d, alpha, wins, w + 1)
  }

  /**
   * dominatedAlpha exactly as written; None is the array overflow of the
   * loseIndex fill.
   */
  function DominatedAlphaAsWritten(basis: Fitness, target: Fitness, alpha: real): (r: Option<bool>)
    requires |basis| == |target|
  {
    var d := Diff(basis, target);
    var c := CountWins(d, 0);
    if c == |d| then Some(false)
    else if c == 0 then Some(true)
    else AlphaLoopAsWritten(d, alpha, WinIndices(d, 0), 0)
  }

  lemma FillLoseInRange(m: nat, win: int, cap: nat, i: nat, acc: seq<int>)
    requires i <= m && |acc| <= cap
    requires 0 <= win < m
    requires forall k :: 0 <= k < |acc| ==> 0 <= acc[k] < m
    ensures FillLose(m, win, cap, i, acc).Some? ==>
      forall k :: 0 <= k < |FillLose(m, win, cap, i, acc).value| ==> 0 <= FillLose(m, win, cap, i, acc).value[k] < m
    decreases m - i
  {
    if i < m {
      if i != win && |acc| < cap {
        FillLoseInRange(m, win, cap, i + 1, acc + [i]);
      } else if i == win {
        FillLoseInRange(m, win, cap, i + 1, acc);
      }
    }
  }

  /** With room for every index, the fill lists exactly the other indices. */
  lemma {:induction false} FillLoseFits(m: nat, win: int, cap: nat, i: nat, acc: seq<int>)
    requires i <= m && |acc| + |Others(win, i, m)| == cap
    ensures FillLose(m, win, cap, i, acc) == Some(acc + Others(win, i, m))
    decreases m - i
  {
    if i < m {
      if i != win {
        assert acc + Others(win, i, m) == (acc + [i]) + Others(win, i + 1, m);
        FillLoseFits(m, win, cap, i + 1, acc + [i]);
      } else {
        assert Others(win, i, m) == Others(win, i + 1, m);
        FillLoseFits(m, win, cap, i + 1, acc);
      }
    } else {
      assert acc + seq(cap - |acc|, _ => 0) == acc;
    }
  }

  /** Without room for every index, the fill writes past the end. */
  lemma {:induction false} FillLoseOverflows(m: nat, win: int, cap: nat, i: nat, acc: seq<int>)
    requires i <= m && |acc| <= cap && |acc| + |Others(win, i, m)| > cap
    ensures FillLose(m, win, cap, i, acc).None?
    decreases m - i
  {
    if i < m {
      if i != win {
        if |acc| < cap {
          FillLoseOverflows(m, win, cap, i + 1, acc + [i]);
        }
      } else {
        FillLoseOverflows(m, win, cap, i + 1, acc);
      }
    }
  }

  /** When w is the only winning objective, the squares at the other indices are the losing squares. */
  lemma {:induction false} SquaresAtOthers(d: seq<real>, w: int, i: nat)
    requires i <= |d| && 0 <= w < |d| && d[w] > 0.0
    requires forall k :: 0 <= k < |d| && k != w ==> d[k] <= 0.0
    ensures SquaresAt(d, Others(w, i, |d|)) == LoseSquares(d, i)
    decreases |d| - i
  {
    if i < |d| {
      SquaresAtOthers(d, w, i + 1);
      if i != w {
        assert Others(w, i, |d|) == [i] + Others(w, i + 1, |d|);
        assert ([i] + Others(w, i + 1, |d|))[1..] == Others(w, i + 1, |d|);
      } else {
        assert Others(w, i, |d|) == Others(w, i + 1, |d|);
      }
    }
  }

  /**
   * The overflow: with two or more winning objectives but not all, the first
   * loseIndex array has room for m - count entries and receives m - 1.
   */
  lemma AlphaAsWrittenOverflows(basis: Fitness, target: Fitness, alpha: real)
    requires |basis| == |target|
    requires 2 <= CountWins(Diff(basis, target), 0) < |basis|
    ensures DominatedAlphaAsWritten(basis, target, alpha).None?
  {
    var d := Diff(basis, target);
    var wins := WinIndices(d, 0);
    FillLoseOverflows(|d|, wins[0], |d| - |wins|, 0, []);
  }

  /** Otherwise the code as written and the corrected rule agree. */
  lemma AlphaAsWrittenAgrees(basis: Fitness, target: Fitness, alpha: real)
    requires |basis| == |target|
    requires CountWins(Diff(basis, target), 0) <= 1 || CountWins(Diff(basis, target), 0) == |basis|
    ensures DominatedAlphaAsWritten(basis, target, alpha) == Some(DominatedAlpha(basis, target, alpha))
  {
    var d := Diff(basis, target);
    var c := CountWins(d, 0);
    if c == 1 && c < |d| {
      AlphaSingleWin(d, alpha);
    }
  }

  /** One winning objective: the loop runs once, over every other objective. */
  lemma AlphaSingleWin(d: seq<real>, alpha: real)
    requires CountWins(d, 0) == 1 < |d|
    ensures AlphaLoopAsWritten(d, alpha, WinIndices(d, 0), 0) == Some(NoWinOutweighs(d, alpha, LoseSquares(d, 0), 0))
  {
    var wins := WinIndices(d, 0);
    var w := wins[0];
    OnlyWinner(d);
    SingleWinFill(d, w);
    assert AlphaLoopAsWritten(d, alpha, wins, 1) == Some(true);
    assert NoWinOutweighs(d, alpha, LoseSquares(d, 0), 0) <==> !Outweighs(LoseSquares(d, 0), alpha, d[w]);
  }

  lemma OnlyWinner(d: seq<real>)
    requires CountWins(d, 0) == 1
    ensures forall k :: 0 <= k < |d| && k != WinIndices(d, 0)[0] ==> d[k] <= 0.0
  {
    var wins := WinIndices(d, 0);
    assert wins == [wins[0]];
  }

  /** With w the only winning objective, the fill lists the others and their squares are the losing squares. */
  lemma SingleWinFill(d: seq<real>, w: int)
    requires 0 <= w < |d| && d[w] > 0.0
    requires forall k :: 0 <= k < |d| && k != w ==> d[k] <= 0.0
    ensures FillLose(|d|, w, |d| - 1, 0, []) == Some(Others(w, 0, |d|))
    ensures SquaresAt(d, Others(w, 0, |d|)) == LoseSquares(d, 0)
  {
    FillLoseFits(|d|, w, |d| - 1, 0, []);
    assert [] + Others(w, 0, |d|) == Others(w, 0, |d|);
    SquaresAtOthers(d, w, 0);
  }

  /** A concrete input that makes dominatedAlpha throw: two of three objectives won. */
  lemma AlphaOverflowExample()
    ensures DominatedAlphaAsWritten([1.0, 1.0, 0.0], [0.0, 0.0, 1.0], 0.5).None?
    ensures !DominatedAlpha([1.0, 1.0, 0.0], [0.0, 0.0, 1.0], 0.5)
  {
    var d := Diff([1.0, 1.0, 0.0], [0.0, 0.0, 1.0]);
    assert d == [1.0, 1.0, -1.0];
    assert CountWins(d, 2) == 0;
    assert CountWins(d, 0) == 2;
    AlphaAsWrittenOverflows([1.0, 1.0, 0.0], [0.0, 0.0, 1.0], 0.5);
    assert LoseSquares(d, 0) == 1.0;
    assert Outweighs(LoseSquares(d, 0), 0.5, 1.0);
  }

  // ===========================================================================
  // The dispatching overload and the constraint-aware overloads (Rank.java 28-133)
  // ===========================================================================

  /** The shapes dominated(basis, target, epsilon, alpha) can compare without an index error. */
  predicate Comparable(basis: Fitness, target: Fitness, alpha: real) {
    |target| <= |basis| && (alpha > 0.0 ==> |basis| == |target|)
  }

  /** dominated(basis, target, epsilon, alpha): alpha > 0 picks the alpha rule, else epsilon > 0 the epsilon rule, else the plain rule. */
  function DominatedRelaxed(basis: Fitness, target: Fitness, epsilon: real, alpha: real): bool
    requires Comparable(basis, target, alpha)
  {
    if alpha > 0.0 then DominatedAlpha(basis, target, alpha)
    else if epsilon > 0.0 then DominatedEpsilon(basis, target, epsilon)
    else Dominated(basis, target)
  }

  /**
   * The comparisons on which dominatedAlpha throws: alpha is positive and the
   * target wins two or more objectives but not all of them.
   */
  predicate AlphaOverflows(basis: Fitness, target: Fitness, alpha: real) {
    alpha > 0.0 && |basis| == |target| && 2 <= CountWins(Diff(basis, target), 0) < |basis|
  }

  /** dominated(basis, target, epsilon, alpha) as written: None where dominatedAlpha throws. */
  function DominatedRelaxedAsWritten(basis: Fitness, target: Fitness, epsilon: real, alpha: real): Option<bool>
    requires Comparable(basis, target, alpha)
  {
    if alpha > 0.0 then DominatedAlphaAsWritten(basis, target, alpha)
    else Some(DominatedRelaxed(basis, target, epsilon, alpha))
  }

  /**
   * The dispatching test as written returns exactly when the comparison does
   * not overflow, and then it returns the value of the corrected rule.
   */
  lemma RelaxedAsWrittenReturns(basis: Fitness, target: Fitness, epsilon: real, alpha: real)
    requires Comparable(basis, target, alpha)
    ensures DominatedRelaxedAsWritten(basis, target, epsilon, alpha).None? <==> AlphaOverflows(basis, target, alpha)
    ensures !AlphaOverflows(basis, target, alpha) ==>
      DominatedRelaxedAsWritten(basis, target, epsilon, alpha) == Some(DominatedRelaxed(basis, target, epsilon, alpha))
  {
    if alpha > 0.0 {
      if AlphaOverflows(basis, target, alpha) {
        AlphaAsWrittenOverflows(basis, target, alpha);
      } else {
        AlphaAsWrittenAgrees(basis, target, alpha);
      }
    }
  }

  /** What the dispatching test decides, case by case. */
  lemma DominatedRelaxedMeaning(basis: Fitness, target: Fitness, epsilon: real, alpha: real)
    requires Comparable(basis, target, alpha)
    ensures alpha > 0.0 ==> (DominatedRelaxed(basis, target, epsilon, alpha) <==>
      (exists k :: 0 <= k < |basis| && basis[k] <= target[k]) &&
      (forall k :: 0 <= k < |basis| && basis[k] > target[k] ==>
         !Outweighs(LoseSquares(Diff(basis, target), 0), alpha, basis[k] - target[k])))
    ensures alpha <= 0.0 && epsilon > 0.0 ==> (DominatedRelaxed(basis, target, epsilon, alpha) <==>
      forall k :: 0 <= k < |target| ==> basis[k] * (1.0 - epsilon) <= target[k])
    ensures alpha <= 0.0 && epsilon <= 0.0 ==> (DominatedRelaxed(basis, target, epsilon, alpha) <==>
      forall k :: 0 <= k < |target| ==> basis[k] <= target[k])
  {
    if alpha > 0.0 {
      DominatedAlphaMeaning(basis, target, alpha);
    }
  }

  /**
   * A vector against itself: the plain rule always holds, the alpha rule holds
   * when there is at least one objective, and the epsilon rule holds exactly
   * when no objective is negative.
   */
  lemma SelfDominance(a: Fitness, epsilon: real, alpha: real)
    ensures Dominated(a, a)
    ensures |a| > 0 ==> DominatedAlpha(a, a, alpha)
    ensures epsilon > 0.0 ==> (DominatedEpsilon(a, a, epsilon) <==> forall k :: 0 <= k < |a| ==> a[k] >= 0.0)
  {
    if |a| > 0 {
      assert a[0] <= a[0];
    }
    if epsilon > 0.0 {
      forall k | 0 <= k < |a| ensures a[k] * (1.0 - epsilon) <= a[k] <==> a[k] >= 0.0 {
        assert a[k] * (1.0 - epsilon) == a[k] - a[k] * epsilon;
        if a[k] < 0.0 { assert a[k] * epsilon < 0.0; }
        else { assert a[k] * epsilon >= 0.0; }
      }
    }
  }

  /** The plain rule is transitive. */
  lemma DominatedTransitive(a: Fitness, b: Fitness, c: Fitness)
    requires |a| == |b| == |c|
    requires Dominated(a, b) && Dominated(b, c)
    ensures Dominated(a, c)
  {
    forall k | 0 <= k < |c| ensures a[k] <= c[k] {
      assert a[k] <= b[k];
    }
  }

  /**
   * dominated(basis, target, constraintBasis, constraintTarget, epsilon, alpha)
   * with one constraint value per solution; None stands for NaN. A positive
   * value is a violation.
   */
  function DominatedScalarConstraint(basis: Fitness, target: Fitness, cb: Option<real>, ct: Option<real>,
                                     epsilon: real, alpha: real): (r: bool)
    requires Comparable(basis, target, alpha)
    ensures cb.Some? && ct.Some? && cb.value > 0.0 && ct.value > 0.0 ==> (r <==> cb.value <= ct.value)
    ensures cb.Some? && ct.Some? && cb.value <= 0.0 && ct.value > 0.0 ==> r
    ensures cb.Some? && ct.Some? && cb.value > 0.0 && ct.value <= 0.0 ==> !r
    ensures (cb.None? || ct.None? || (cb.value <= 0.0 && ct.value <= 0.0)) ==>
      r == DominatedRelaxed(basis, target, epsilon, alpha)
  {
    if cb.Some? && ct.Some? && cb.value > 0.0 && ct.value > 0.0 then ct.value >= cb.value
    else if cb.Some? && ct.Some? && cb.value > 0.0 then false
    else if cb.Some? && ct.Some? && ct.value > 0.0 then true
    else DominatedRelaxed(basis, target, epsilon, alpha)
  }

  /** Of two infeasible solutions, one always dominates the other. */
  lemma InfeasiblePairOrdered(a: Fitness, b: Fitness, ca: real, cb: real, epsilon: real, alpha: real)
    requires |a| == |b| && ca > 0.0 && cb > 0.0
    ensures DominatedScalarConstraint(a, b, Some(ca), Some(cb), epsilon, alpha) ||
            DominatedScalarConstraint(b, a, Some(cb), Some(ca), epsilon, alpha)
  {
  }

  /** Entries from i on, among the first n, that are nonzero. */
  function CountNonzero(c: seq<real>, n: nat, i: nat): (r: nat)
    requires i <= n <= |c|
    ensures r <= n - i
    ensures r == 0 <==> forall k :: i <= k < n ==> c[k] == 0.0
    decreases n - i
  {
    if i == n then 0
    else (if c[i] != 0.0 then 1 else 0) + CountNonzero(c, n, i + 1)
  }

  /**
   * The constraint pairs on which the array overload as written falls through
   * to the objectives: no constraints, one constraint satisfied by both, or
   * two or more with as many nonzero entries on either side.
   */
  predicate FallsThrough(cb: seq<real>, ct: seq<real>) {
    |cb| <= |ct| &&
    (|cb| == 0 ||
     (|cb| == 1 && cb[0] <= 0.0 && ct[0] <= 0.0) ||
     (|cb| >= 2 && CountNonzero(cb, |cb|, 0) == CountNonzero(ct, |cb|, 0)))
  }

  /**
   * The array-constraint overload exactly as written: with two or more
   * constraints it counts the nonzero entries, that is the violated
   * constraints, and lets the solution with MORE violations dominate.
   */
  function DominatedConstrainedAsWritten(basis: Fitness, target: Fitness, cb: seq<real>, ct: seq<real>,
                                         epsilon: real, alpha: real): (r: bool)
    requires Comparable(basis, target, alpha) && |cb| <= |ct|
    ensures |cb| >= 2 && CountNonzero(cb, |cb|, 0) < CountNonzero(ct, |cb|, 0) ==> !r
    ensures |cb| >= 2 && CountNonzero(cb, |cb|, 0) > CountNonzero(ct, |cb|, 0) ==> r
    ensures |cb| == 1 ==>
      r == DominatedScalarConstraint(basis, target, Some(cb[0]), Some(ct[0]), epsilon, alpha)
    ensures FallsThrough(cb, ct) ==> r == DominatedRelaxed(basis, target, epsilon, alpha)
  {
    var n := |cb|;
    if n == 1 && cb[0] > 0.0 && ct[0] > 0.0 then ct[0] >= cb[0]
    else if n == 1 && cb[0] > 0.0 then false
    else if n == 1 && ct[0] > 0.0 then true
    else if n >= 2 && CountNonzero(cb, n, 0) < CountNonzero(ct, n, 0) then false
    else if n >= 2 && CountNonzero(cb, n, 0) > CountNonzero(ct, n, 0) then true
    else DominatedRelaxed(basis, target, epsilon, alpha)
  }

  /** A basis violating one of two constraints dominates a target violating none. */
  lemma ConstrainedAsWrittenInverted()
    ensures DominatedConstrainedAsWritten([0.0], [0.0], [1.0, 0.0], [0.0, 0.0], 0.0, 0.0)
    ensures !DominatedConstrainedAsWritten([0.0], [0.0], [1.0], [0.0], 0.0, 0.0)
  {
    assert CountNonzero([1.0, 0.0], 2, 1) == 0;
    assert CountNonzero([0.0, 0.0], 2, 0) == 0;
  }

  /** Entries from i on, among the first n, that are zero: the satisfied constraints. */
  function CountSatisfied(c: seq<real>, n: nat, i: nat): (r: nat)
    requires i <= n <= |c|
    ensures r + CountNonzero(c, n, i) == n - i
    decreases n - i
  {
    if i == n then 0
    else (if c[i] == 0.0 then 1 else 0) + CountSatisfied(c, n, i + 1)
  }

  /**
   * dominated(basis, target, constraintBasis, constraintTarget, epsilon, alpha),
   * with the count of satisfied constraints that the code's comments describe:
   * with one constraint the scalar rule applies, with two or more the solution
   * satisfying more constraints dominates, and ties fall through to the
   * objectives.
   */
  function DominatedConstrained(basis: Fitness, target: Fitness, cb: seq<real>, ct: seq<real>,
                                epsilon: real, alpha: real): (r: bool)
    requires Comparable(basis, target, alpha) && |cb| <= |ct|
    ensures |cb| == 1 ==>
      r == DominatedScalarConstraint(basis, target, Some(cb[0]), Some(ct[0]), epsilon, alpha)
    ensures |cb| >= 2 ==>
      (CountNonzero(cb, |cb|, 0) < CountNonzero(ct, |cb|, 0) ==> r) &&
      (CountNonzero(cb, |cb|, 0) > CountNonzero(ct, |cb|, 0) ==> !r)
    ensures (|cb| == 0 || (|cb| >= 2 && CountNonzero(cb, |cb|, 0) == CountNonzero(ct, |cb|, 0))) ==>
      r == DominatedRelaxed(basis, target, epsilon, alpha)
  {
    var n := |cb|;
    if n == 1 && cb[0] > 0.0 && ct[0] > 0.0 then ct[0] >= cb[0]
    else if n == 1 && cb[0] > 0.0 then false
    else if n == 1 && ct[0] > 0.0 then true
    else if n >= 2 && CountSatisfied(cb, n, 0) < CountSatisfied(ct, n, 0) then false
    else if n >= 2 && CountSatisfied(cb, n, 0) > CountSatisfied(ct, n, 0) then true
    else DominatedRelaxed(basis, target, epsilon, alpha)
  }

  /** With the corrected count, a basis violating nothing dominates a target violating something. */
  lemma FeasibleDominatesInfeasible(basis: Fitness, target: Fitness, cb: seq<real>, ct: seq<real>,
                                    epsilon: real, alpha: real)
    requires |basis| == |target| && 2 <= |cb| <= |ct|
    requires forall k :: 0 <= k < |cb| ==> cb[k] == 0.0
    requires exists k :: 0 <= k < |cb| && ct[k] != 0.0
    ensures DominatedConstrained(basis, target, cb, ct, epsilon, alpha)
    ensures !DominatedConstrained(target, basis, ct[..|cb|], cb, epsilon, alpha)
  {
    var n := |cb|;
    assert CountNonzero(cb, n, 0) == 0;
    var ct' := ct[..n];
    assert forall k :: 0 <= k < n ==> ct'[k] == ct[k];
    CountNonzeroPrefix(ct, ct', n, 0);
  }

  lemma {:induction false} CountNonzeroPrefix(c: seq<real>, c': seq<real>, n: nat, i: nat)
    requires i <= n <= |c| && n <= |c'|
    requires forall k :: 0 <= k < n ==> c[k] == c'[k]
    ensures CountNonzero(c, n, i) == CountNonzero(c', n, i)
    decreases n - i
  {
    if i < n {
      CountNonzeroPrefix(c, c', n, i + 1);
    }
  }

  // ===========================================================================
  // Fleming ranking (Rank.java 264-320)
  // ===========================================================================

  /** Every solution has the same number of objectives. */
  predicate SameArity(f: seq<Fitness>) {
    forall i :: 0 <= i < |f| ==> |f[i]| == |f[0]|
  }

  /** Number of solutions k < n, other than i, that dominate solution i. */
  function Dominators(f: seq<Fitness>, epsilon: real, alpha: real, i: int, n: nat): (r: nat)
    requires SameArity(f) && 0 <= i < |f| && n <= |f|
    ensures r <= (if i < n then n - 1 else n)
  {
    if n == 0 then 0
    else
      Dominators(f, epsilon, alpha, i, n - 1) +
      (if n - 1 != i && DominatedRelaxed(f[n - 1], f[i], epsilon, alpha) then 1 else 0)
  }

  /** No dominators counted exactly when no other solution dominates i. */
  lemma {:induction false} DominatorsZero(f: seq<Fitness>, epsilon: real, alpha: real, i: int, n: nat)
    requires SameArity(f) && 0 <= i < |f| && n <= |f|
    ensures Dominators(f, epsilon, alpha, i, n) == 0 <==>
      forall k {:trigger DominatedRelaxed(f[k], f[i], epsilon, alpha)} ::
        0 <= k < n && k != i ==> !DominatedRelaxed(f[k], f[i], epsilon, alpha)
  {
    if n > 0 {
      DominatorsZero(f, epsilon, alpha, i, n - 1);
      if n - 1 != i && DominatedRelaxed(f[n - 1], f[i], epsilon, alpha) {
        assert Dominators(f, epsilon, alpha, i, n) != 0;
      }
    }
  }

  /**
   * Which count of constraints the array overload ranks by: the code's, where
   * the solution violating more constraints dominates, or the corrected one,
   * where the solution satisfying more constraints dominates.
   */
  datatype Tally = AsWritten | Corrected

  function DominatedUnder(tally: Tally, basis: Fitness, target: Fitness, cb: seq<real>, ct: seq<real>,
                          epsilon: real, alpha: real): bool
    requires Comparable(basis, target, alpha) && |cb| <= |ct|
  {
    match tally
    case AsWritten => DominatedConstrainedAsWritten(basis, target, cb, ct, epsilon, alpha)
    case Corrected => DominatedConstrained(basis, target, cb, ct, epsilon, alpha)
  }

  /** The same count under the constraint-aware rule, with the given tally. */
  function ConstrainedDominators(tally: Tally, f: seq<Fitness>, c: seq<seq<real>>, epsilon: real, alpha: real,
                                 i: int, n: nat): (r: nat)
    requires SameArity(f) && |c| == |f| && SameArity(c) && 0 <= i < |f| && n <= |f|
    ensures r <= (if i < n then n - 1 else n)
  {
    if n == 0 then 0
    else
      ConstrainedDominators(tally, f, c, epsilon, alpha, i, n - 1) +
      (if n - 1 != i && DominatedUnder(tally, f[n - 1], f[i], c[n - 1], c[i], epsilon, alpha) then 1 else 0)
  }

  lemma {:induction false} ConstrainedDominatorsZero(tally: Tally, f: seq<Fitness>, c: seq<seq<real>>,
                                                     epsilon: real, alpha: real, i: int, n: nat)
    requires SameArity(f) && |c| == |f| && SameArity(c) && 0 <= i < |f| && n <= |f|
    ensures ConstrainedDominators(tally, f, c, epsilon, alpha, i, n) == 0 <==>
      forall k {:trigger DominatedUnder(tally, f[k], f[i], c[k], c[i], epsilon, alpha)} ::
        0 <= k < n && k != i ==> !DominatedUnder(tally, f[k], f[i], c[k], c[i], epsilon, alpha)
  {
    if n > 0 {
      ConstrainedDominatorsZero(tally, f, c, epsilon, alpha, i, n - 1);
      var d := n - 1 != i && DominatedUnder(tally, f[n - 1], f[i], c[n - 1], c[i], epsilon, alpha);
      assert ConstrainedDominators(tally, f, c, epsilon, alpha, i, n) ==
        ConstrainedDominators(tally, f, c, epsilon, alpha, i, n - 1) + (if d then 1 else 0);
      if d {
        assert ConstrainedDominators(tally, f, c, epsilon, alpha, i, n) != 0;
      }
    }
  }

  /** No pair that ranking compares makes dominatedAlpha throw. */
  predicate NoAlphaOverflow(f: seq<Fitness>, alpha: real) {
    forall i, j :: 0 <= i < |f| && 0 <= j < |f| && i != j ==> !AlphaOverflows(f[j], f[i], alpha)
  }

  /**
   * The same for the constraint-aware ranking as written, which reaches
   * dominatedAlpha only on the pairs whose constraints fall through.
   */
  predicate NoConstrainedAlphaOverflow(f: seq<Fitness>, c: seq<seq<real>>, alpha: real)
    requires |c| == |f|
  {
    forall i, j :: 0 <= i < |f| && 0 <= j < |f| && i != j && FallsThrough(c[j], c[i]) ==>
      !AlphaOverflows(f[j], f[i], alpha)
  }

  /**
   * ranking returns exactly when no pair overflows, and then every comparison
   * it makes has the value of the corrected rule.
   */
  lemma NoAlphaOverflowExact(f: seq<Fitness>, epsilon: real, alpha: real)
    requires SameArity(f)
    ensures NoAlphaOverflow(f, alpha) <==>
      forall i, j :: 0 <= i < |f| && 0 <= j < |f| && i != j ==>
        DominatedRelaxedAsWritten(f[j], f[i], epsilon, alpha).Some?
    ensures NoAlphaOverflow(f, alpha) ==>
      forall i, j :: 0 <= i < |f| && 0 <= j < |f| && i != j ==>
        DominatedRelaxedAsWritten(f[j], f[i], epsilon, alpha) == Some(DominatedRelaxed(f[j], f[i], epsilon, alpha))
  {
    forall i, j | 0 <= i < |f| && 0 <= j < |f| && i != j
      ensures DominatedRelaxedAsWritten(f[j], f[i], epsilon, alpha).None? <==> AlphaOverflows(f[j], f[i], alpha)
      ensures !AlphaOverflows(f[j], f[i], alpha) ==>
        DominatedRelaxedAsWritten(f[j], f[i], epsilon, alpha) == Some(DominatedRelaxed(f[j], f[i], epsilon, alpha))
    {
      RelaxedAsWrittenReturns(f[j], f[i], epsilon, alpha);
    }
  }

  /**
   * Under the plain rule a dominated solution never ranks better than its
   * dominator: every dominator of j also dominates i, and j itself does.
   */
  lemma PlainRankMonotone(f: seq<Fitness>, i: int, j: int)
    requires SameArity(f) && 0 <= i < |f| && 0 <= j < |f| && i != j
    requires Dominated(f[j], f[i])
    ensures Dominators(f, 0.0, 0.0, j, |f|) <= Dominators(f, 0.0, 0.0, i, |f|)
  {
    DominatorsMonotone(f, i, j, |f|);
  }

  lemma {:induction false} DominatorsMonotone(f: seq<Fitness>, i: int, j: int, n: nat)
    requires SameArity(f) && 0 <= i < |f| && 0 <= j < |f| && i != j && n <= |f|
    requires Dominated(f[j], f[i])
    ensures Dominators(f, 0.0, 0.0, j, n) + (if j < n then 1 else 0)
      <= Dominators(f, 0.0, 0.0, i, n) + (if i < n && Dominated(f[i], f[j]) then 1 else 0)
  {
    if n > 0 {
      DominatorsMonotone(f, i, j, n - 1);
      var k := n - 1;
      if k != i && k != j && Dominated(f[k], f[j]) {
        DominatedTransitive(f[k], f[j], f[i]);
      }
    }
  }

  /** The inner loop of ranking: how many other solutions dominate solution i. */
  method CountDominators(fitness: seq<Fitness>, epsilon: real, alpha: real, i: int) returns (count: int)
    requires SameArity(fitness) && 0 <= i < |fitness|
    ensures count == Dominators(fitness, epsilon, alpha, i, |fitness|)
  {
    count := 0;
    for j := 0 to |fitness|
      invariant count == Dominators(fitness, epsilon, alpha, i, j)
    {
      if i != j {
        if DominatedRelaxed(fitness[j], fitness[i], epsilon, alpha) {
          count := count + 1;
        }
      }
    }
  }

  /** The inner loop of the constraint-aware ranking, with the count as written. */
  method CountConstrainedDominators(fitness: seq<Fitness>, constraint: seq<seq<real>>, epsilon: real, alpha: real, i: int)
    returns (count: int)
    requires SameArity(fitness) && |constraint| == |fitness| && SameArity(constraint) && 0 <= i < |fitness|
    ensures count == ConstrainedDominators(AsWritten, fitness, constraint, epsilon, alpha, i, |fitness|)
  {
    count := 0;
    for j := 0 to |fitness|
      invariant count == ConstrainedDominators(AsWritten, fitness, constraint, epsilon, alpha, i, j)
    {
      if i != j {
        if DominatedConstrainedAsWritten(fitness[j], fitness[i], constraint[j], constraint[i], epsilon, alpha) {
          count := count + 1;
        }
      }
    }
  }

  /**
   * ranking(fitness, epsilon, alpha): rank = 1 + number of dominators, for
   * fitness on which no comparison throws (see NoAlphaOverflowExact).
   */
  method Ranking(fitness: seq<Fitness>, epsilon: real, alpha: real) returns (rank: seq<int>)
    requires SameArity(fitness) && NoAlphaOverflow(fitness, alpha)
    ensures |rank| == |fitness|
    ensures forall i :: 0 <= i < |rank| ==> rank[i] == 1 + Dominators(fitness, epsilon, alpha, i, |fitness|)
    ensures forall i :: 0 <= i < |rank| ==> 1 <= rank[i] <= |rank|
  {
    var n := |fitness|;
    var number := new int[n](_ => 0);
    for i := 0 to n
      invariant forall k :: 0 <= k < i ==> number[k] == Dominators(fitness, epsilon, alpha, k, n)
    {
      number[i] := CountDominators(fitness, epsilon, alpha, i);
    }
    for i := 0 to n
      invariant forall k :: 0 <= k < i ==> number[k] == 1 + Dominators(fitness, epsilon, alpha, k, n)
      invariant forall k :: i <= k < n ==> number[k] == Dominators(fitness, epsilon, alpha, k, n)
    {
      number[i] := number[i] + 1;
    }
    rank := number[..];
  }

  /**
   * ranking(fitness, constraint, epsilon, alpha): the same count under the
   * constraint-aware rule as written, for inputs on which no comparison throws.
   */
  method RankingConstrained(fitness: seq<Fitness>, constraint: seq<seq<real>>, epsilon: real, alpha: real)
    returns (rank: seq<int>)
    requires SameArity(fitness) && |constraint| == |fitness| && SameArity(constraint)
    requires NoConstrainedAlphaOverflow(fitness, constraint, alpha)
    ensures |rank| == |fitness|
    ensures forall i :: 0 <= i < |rank| ==>
      rank[i] == 1 + ConstrainedDominators(AsWritten, fitness, constraint, epsilon, alpha, i, |fitness|)
    ensures forall i :: 0 <= i < |rank| ==> 1 <= rank[i] <= |rank|
  {
    var n := |fitness|;
    var number := new int[n](_ => 0);
    for i := 0 to n
      invariant forall k :: 0 <= k < i ==> number[k] == ConstrainedDominators(AsWritten, fitness, constraint, epsilon, alpha, k, n)
    {
      number[i] := CountConstrainedDominators(fitness, constraint, epsilon, alpha, i);
    }
    for i := 0 to n
      invariant forall k :: 0 <= k < i ==> number[k] == 1 + ConstrainedDominators(AsWritten, fitness, constraint, epsilon, alpha, k, n)
      invariant forall k :: i <= k < n ==> number[k] == ConstrainedDominators(AsWritten, fitness, constraint, epsilon, alpha, k, n)
    {
      number[i] := number[i] + 1;
    }
    rank := number[..];
  }

  /** The ranks ranking assigns, as one sequence. */
  function Ranks(f: seq<Fitness>, epsilon: real, alpha: real): (r: seq<int>)
    requires SameArity(f)
    ensures |r| == |f| && forall i :: 0 <= i < |f| ==> 1 <= r[i] <= |f|
  {
    seq(|f|, i requires 0 <= i < |f| => 1 + Dominators(f, epsilon, alpha, i, |f|))
  }

  /** The ranks the constraint-aware ranking assigns with the given tally, as one sequence. */
  function ConstrainedRanks(tally: Tally, f: seq<Fitness>, c: seq<seq<real>>, epsilon: real, alpha: real): (r: seq<int>)
    requires SameArity(f) && |c| == |f| && SameArity(c)
    ensures |r| == |f| && forall i :: 0 <= i < |f| ==> 1 <= r[i] <= |f|
  {
    seq(|f|, i requires 0 <= i < |f| => 1 + ConstrainedDominators(tally, f, c, epsilon, alpha, i, |f|))
  }

  /**
   * Two solutions with equal objectives, the first violating neither of two
   * constraints and the second violating both: the code ranks the violating
   * one first, the corrected count ranks the feasible one first.
   */
  lemma ConstrainedRanksInverted()
    ensures ConstrainedRanks(AsWritten, [[1.0, 1.0], [1.0, 1.0]], [[0.0, 0.0], [1.0, 1.0]], 0.0, 0.0) == [2, 1]
    ensures ConstrainedRanks(Corrected, [[1.0, 1.0], [1.0, 1.0]], [[0.0, 0.0], [1.0, 1.0]], 0.0, 0.0) == [1, 2]
  {
    var f: seq<Fitness> := [[1.0, 1.0], [1.0, 1.0]];
    var c: seq<seq<real>> := [[0.0, 0.0], [1.0, 1.0]];
    assert CountNonzero(c[0], 2, 0) == 0;
    assert CountNonzero(c[1], 2, 1) == 1;
    assert CountNonzero(c[1], 2, 0) == 2;
    assert DominatedConstrainedAsWritten(f[1], f[0], c[1], c[0], 0.0, 0.0);
    assert !DominatedConstrainedAsWritten(f[0], f[1], c[0], c[1], 0.0, 0.0);
    assert !DominatedConstrained(f[1], f[0], c[1], c[0], 0.0, 0.0);
    assert DominatedConstrained(f[0], f[1], c[0], c[1], 0.0, 0.0);
  }

  // ===========================================================================
  // rankIndex (Rank.java 328-350)
  // ===========================================================================

  /** Number of positions below n holding the value x. */
  function CountEqual(rank: seq<int>, x: int, n: nat): (c: nat)
    requires n <= |rank|
    ensures c <= n
  {
    if n == 0 then 0 else CountEqual(rank, x, n - 1) + (if rank[n - 1] == x then 1 else 0)
  }

  /** The positions below n holding x, ascending. */
  function IndicesOf(rank: seq<int>, x: int, n: nat): (s: seq<int>)
    requires n <= |rank|
    ensures |s| == CountEqual(rank, x, n)
    ensures forall k :: 0 <= k < |s| ==> 0 <= s[k] < n && rank[s[k]] == x
    ensures forall a, b :: 0 <= a < b < |s| ==> s[a] < s[b]
  {
    if n == 0 then []
    else IndicesOf(rank, x, n - 1) + (if rank[n - 1] == x then [n - 1] else [])
  }

  /** Every position below n holding x is listed. */
  lemma {:induction false} IndicesOfComplete(rank: seq<int>, x: int, n: nat)
    requires n <= |rank|
    ensures forall i :: 0 <= i < n && rank[i] == x ==> i in IndicesOf(rank, x, n)
  {
    if n > 0 {
      IndicesOfComplete(rank, x, n - 1);
    }
  }

  /** rankIndex(rank, number): the indices whose rank is number, ascending. */
  method RankIndex(rank: seq<int>, number: int) returns (index: seq<int>)
    ensures index == IndicesOf(rank, number, |rank|)
    ensures |index| == CountEqual(rank, number, |rank|)
    ensures forall k :: 0 <= k < |index| ==> 0 <= index[k] < |rank| && rank[index[k]] == number
    ensures forall i :: 0 <= i < |rank| && rank[i] == number ==> i in index
    ensures forall a, b :: 0 <= a < b < |index| ==> index[a] < index[b]
  {
    var count := 0;
    for i := 0 to |rank|
      invariant count == CountEqual(rank, number, i)
    {
      if rank[i] == number {
        count := count + 1;
      }
    }
    var idx := new int[count](_ => 0);
    count := 0;
    for i := 0 to |rank|
      invariant count == CountEqual(rank, number, i) <= idx.Length
      invariant idx[..count] == IndicesOf(rank, number, i)
    {
      CountEqualMonotone(rank, number, i + 1, |rank|);
      if rank[i] == number {
        idx[count] := i;
        count := count + 1;
      }
    }
    index := idx[..];
    IndicesOfComplete(rank, number, |rank|);
  }

  lemma {:induction false} CountEqualMonotone(rank: seq<int>, x: int, n: nat, n': nat)
    requires n <= n' <= |rank|
    ensures CountEqual(rank, x, n) <= CountEqual(rank, x, n')
    decreases n' - n
  {
    if n < n' {
      CountEqualMonotone(rank, x, n, n' - 1);
    }
  }

  // ===========================================================================
  // calculateBorderRank (Rank.java 358-384)
  // ===========================================================================

  /** Number of positions below n whose rank is at most r. */
  function CountAtMost(rank: seq<int>, r: int, n: nat): (c: nat)
    requires n <= |rank|
    ensures c <= n
  {
    if n == 0 then 0 else CountAtMost(rank, r, n - 1) + (if rank[n - 1] <= r then 1 else 0)
  }

  lemma {:induction false} CountAtMostStep(rank: seq<int>, r: int, n: nat)
    requires n <= |rank|
    ensures CountAtMost(rank, r, n) == CountAtMost(rank, r - 1, n) + CountEqual(rank, r, n)
  {
    if n > 0 {
      CountAtMostStep(rank, r, n - 1);
    }
  }

  lemma {:induction false} CountAtMostAll(rank: seq<int>, r: int, n: nat)
    requires n <= |rank|
    requires forall i :: 0 <= i < n ==> rank[i] <= r
    ensures CountAtMost(rank, r, n) == n
  {
    if n > 0 {
      CountAtMostAll(rank, r, n - 1);
    }
  }

  lemma {:induction false} CountAtMostNone(rank: seq<int>, r: int, n: nat)
    requires n <= |rank|
    requires forall i :: 0 <= i < n ==> rank[i] > r
    ensures CountAtMost(rank, r, n) == 0
  {
    if n > 0 {
      CountAtMostNone(rank, r, n - 1);
    }
  }

  lemma {:induction false} CountAtMostMonotone(rank: seq<int>, r: int, r': int, n: nat)
    requires n <= |rank| && r <= r'
    ensures CountAtMost(rank, r, n) <= CountAtMost(rank, r', n)
  {
    if n > 0 {
      CountAtMostMonotone(rank, r, r', n - 1);
    }
  }

  lemma {:induction false} CountAtMostPrefix(rank: seq<int>, r: int, n: nat, n': nat)
    requires n <= n' <= |rank|
    ensures CountAtMost(rank, r, n) <= CountAtMost(rank, r, n')
    decreases n' - n
  {
    if n < n' {
      CountAtMostPrefix(rank, r, n, n' - 1);
    }
  }

  /**
   * The first rank from r up to the largest one whose members, together with
   * all better-ranked ones, number more than globalSize; 0 when there is none.
   */
  function FirstExceeding(rank: seq<int>, globalSize: int, r: int): int
    requires |rank| > 0
    decreases MaxInt(rank) + 1 - r
  {
    if r > MaxInt(rank) then 0
    else if CountAtMost(rank, r, |rank|) > globalSize then r
    else FirstExceeding(rank, globalSize, r + 1)
  }

  /** The border rank, scanned from rank 0 as calculateBorderRank does. */
  function BorderRank(rank: seq<int>, globalSize: int): int
    requires |rank| > 0
  {
    FirstExceeding(rank, globalSize, 0)
  }

  lemma {:induction false} FirstExceedingFound(rank: seq<int>, globalSize: int, r: int)
    requires |rank| > 0 && |rank| > globalSize && 0 <= r
    requires forall i :: 0 <= i < |rank| ==> rank[i] >= 0
    requires forall q :: 0 <= q < r ==> CountAtMost(rank, q, |rank|) <= globalSize
    ensures r <= FirstExceeding(rank, globalSize, r) <= MaxInt(rank)
    ensures CountAtMost(rank, FirstExceeding(rank, globalSize, r), |rank|) > globalSize
    ensures forall q :: 0 <= q < FirstExceeding(rank, globalSize, r) ==> CountAtMost(rank, q, |rank|) <= globalSize
    decreases MaxInt(rank) + 1 - r
  {
    var top := MaxInt(rank);
    if r > top {
      CountAtMostAll(rank, top, |rank|);
      assert false;
    } else if CountAtMost(rank, r, |rank|) <= globalSize {
      FirstExceedingFound(rank, globalSize, r + 1);
    }
  }

  /**
   * With ranks starting at 1 and more members than globalSize, the border rank
   * b is at least 1, the members ranked better than b fit in globalSize, and
   * adding those ranked exactly b overflows it: select always has room for all
   * the better-ranked members and needs only part of the border rank.
   */
  lemma BorderRankSplit(rank: seq<int>, globalSize: int)
    requires |rank| > globalSize >= 0
    requires forall i :: 0 <= i < |rank| ==> rank[i] >= 1
    ensures BorderRank(rank, globalSize) >= 1
    ensures CountAtMost(rank, BorderRank(rank, globalSize) - 1, |rank|) <= globalSize
    ensures globalSize < CountAtMost(rank, BorderRank(rank, globalSize) - 1, |rank|)
                         + CountEqual(rank, BorderRank(rank, globalSize), |rank|)
  {
    var b := BorderRank(rank, globalSize);
    FirstExceedingFound(rank, globalSize, 0);
    assert CountAtMost(rank, b, |rank|) > globalSize;
    BorderRankPositive(rank, globalSize, b);
    assert CountAtMost(rank, b - 1, |rank|) <= globalSize;
    CountAtMostStep(rank, b, |rank|);
  }

  /**
   * calculateBorderRank(rank, globalSize): the smallest rank r whose members
   * together with all better-ranked ones number more than globalSize; 0 when
   * the whole set fits.
   */
  method CalculateBorderRank(rank: seq<int>, globalSize: int) returns (border: int)
    requires |rank| > 0 && forall i :: 0 <= i < |rank| ==> rank[i] >= 0
    ensures 0 <= border <= MaxInt(rank)
    ensures |rank| > globalSize ==>
      CountAtMost(rank, border, |rank|) > globalSize &&
      forall r :: 0 <= r < border ==> CountAtMost(rank, r, |rank|) <= globalSize
    ensures |rank| <= globalSize ==> border == 0
    ensures border == BorderRank(rank, globalSize)
  {
    var n := |rank|;
    var top := MaxInt(rank);
    var count := new int[top + 1](_ => 0);
    for i := 0 to n
      invariant forall r :: 0 <= r <= top ==> count[r] == CountEqual(rank, r, i)
    {
      count[rank[i]] := count[rank[i]] + 1;
    }
    border := 0;
    var buffer := 0;
    var i := 0;
    CountAtMostNone(rank, -1, n);
    while i < count.Length
      invariant 0 <= i <= count.Length
      invariant forall r :: 0 <= r <= top ==> count[r] == CountEqual(rank, r, n)
      invariant buffer == CountAtMost(rank, i - 1, n)
      invariant forall r :: 0 <= r < i ==> CountAtMost(rank, r, n) <= globalSize
      invariant border == 0
      invariant FirstExceeding(rank, globalSize, i) == BorderRank(rank, globalSize)
    {
      CountAtMostStep(rank, i, n);
      buffer := buffer + count[i];
      if buffer > globalSize {
        border := i;
        return;
      }
      i := i + 1;
    }
    CountAtMostAll(rank, top, n);
    assert CountAtMost(rank, top, n) <= globalSize;
  }

  /** With ranks starting at 1 and more members than globalSize, the border rank is at least 1. */
  lemma BorderRankPositive(rank: seq<int>, globalSize: int, border: int)
    requires |rank| > globalSize >= 0
    requires forall i :: 0 <= i < |rank| ==> rank[i] >= 1
    requires CountAtMost(rank, border, |rank|) > globalSize
    ensures border >= 1
  {
    if border < 1 {
      CountAtMostNone(rank, border, |rank|);
    }
  }

  // ===========================================================================
  // calculateDistance and minIndex (Rank.java 393-471)
  // ===========================================================================

  /** The first index of the smallest value (minIndex keeps the earliest on ties). */
  function ArgMinPrefix(v: seq<real>, n: nat): (r: nat)
    requires 0 < n <= |v|
    ensures r < n
    ensures forall i :: 0 <= i < n ==> v[r] <= v[i]
    ensures forall i :: 0 <= i < r ==> v[i] > v[r]
  {
    if n == 1 then 0
    else
      var k := ArgMinPrefix(v, n - 1);
      if v[k] > v[n - 1] then n - 1 else k
  }

  function ArgMin(v: seq<real>): (r: nat)
    requires |v| > 0
    ensures r < |v|
    ensures forall i :: 0 <= i < |v| ==> v[r] <= v[i]
    ensures forall i :: 0 <= i < r ==> v[i] > v[r]
  {
    ArgMinPrefix(v, |v|)
  }

  /** minIndex(value) */
  method MinIndex(value: seq<real>) returns (index: int)
    requires |value| > 0
    ensures index == ArgMin(value)
  {
    var min := value[0];
    index := 0;
    for i := 0 to |value|
      invariant 0 <= index < |value| && min == value[index]
      invariant i > 0 ==> index == ArgMinPrefix(value, i)
      invariant i == 0 ==> index == 0
    {
      if min > value[i] {
        min := value[i];
        index := i;
      }
    }
  }

  /** Σ |a[k] - b[k]|, the Manhattan distance. */
  function Manhattan(a: Fitness, b: Fitness): (r: real)
    requires |a| == |b|
    ensures r >= 0.0
  {
    if a == [] then 0.0 else Abs(a[0] - b[0]) + Manhattan(a[1..], b[1..])
  }

  function Column(f: seq<Fitness>, o: int): (col: seq<real>)
    requires |f| > 0 && SameArity(f) && 0 <= o < |f[0]|
    ensures |col| == |f| && forall i :: 0 <= i < |f| ==> col[i] == f[i][o]
  {
    seq(|f|, i requires 0 <= i < |f| => f[i][o])
  }

  /** Matrix.max("column"): the largest value of each objective. */
  function ColumnMax(f: seq<Fitness>): (mx: seq<real>)
    requires |f| > 0 && SameArity(f)
    ensures |mx| == |f[0]|
  {
    seq(|f[0]|, o requires 0 <= o < |f[0]| => MaxOf(Column(f, o)))
  }

  /** Matrix.min("column"): the smallest value of each objective. */
  function ColumnMin(f: seq<Fitness>): (mn: seq<real>)
    requires |f| > 0 && SameArity(f)
    ensures |mn| == |f[0]|
  {
    seq(|f[0]|, o requires 0 <= o < |f[0]| => MinOf(Column(f, o)))
  }

  /** First index at or after k where col holds x; |col| when there is none. */
  function FirstAt(col: seq<real>, x: real, k: nat): (r: nat)
    requires k <= |col|
    ensures k <= r <= |col|
    ensures r < |col| ==> col[r] == x
    ensures forall q :: k <= q < r ==> col[q] != x
    decreases |col| - k
  {
    if k == |col| then k else if col[k] == x then k else FirstAt(col, x, k + 1)
  }

  /**
   * First index at or after k where col holds the minimum mn and the maximum
   * branch of the edge scan did not take it (it is not the maximum, or the
   * maximum was marked earlier, at maxMark).
   */
  function FirstMinMark(col: seq<real>, mx: real, mn: real, maxMark: nat, k: nat): (r: nat)
    requires k <= |col|
    ensures k <= r <= |col|
    ensures r < |col| ==> col[r] == mn && (col[r] != mx || maxMark < r)
    ensures forall q :: k <= q < r ==> !(col[q] == mn && (col[q] != mx || maxMark < q))
    decreases |col| - k
  {
    if k == |col| then k
    else if col[k] == mn && (col[k] != mx || maxMark < k) then k
    else FirstMinMark(col, mx, mn, maxMark, k + 1)
  }

  /** The row whose objective o is marked as the maximum edge: the first row attaining the maximum. */
  function MaxMark(f: seq<Fitness>, o: int): nat
    requires |f| > 0 && SameArity(f) && 0 <= o < |f[0]|
  {
    FirstAt(Column(f, o), ColumnMax(f)[o], 0)
  }

  /** The row whose objective o is marked as the minimum edge. */
  function MinMark(f: seq<Fitness>, o: int): nat
    requires |f| > 0 && SameArity(f) && 0 <= o < |f[0]|
  {
    FirstMinMark(Column(f, o), ColumnMax(f)[o], ColumnMin(f)[o], MaxMark(f, o), 0)
  }

  predicate MarkedBy(f: seq<Fitness>, i: int, o: int)
    requires |f| > 0 && SameArity(f) && 0 <= o < |f[0]|
  {
    MaxMark(f, o) == i || MinMark(f, o) == i
  }

  /** Row i is a boundary solution: it holds the maximum or minimum mark of some objective. */
  predicate IsEdge(f: seq<Fitness>, i: int)
    requires |f| > 0 && SameArity(f)
  {
    exists o :: 0 <= o < |f[0]| && MarkedBy(f, i, o)
  }

  /** The maximum marks of all objectives. */
  function MaxMarks(f: seq<Fitness>): (marks: seq<int>)
    requires |f| > 0 && SameArity(f)
    ensures |marks| == |f[0]|
    ensures forall o :: 0 <= o < |f[0]| ==> marks[o] == MaxMark(f, o)
  {
    seq(|f[0]|, o requires 0 <= o < |f[0]| => MaxMark(f, o))
  }

  /** The minimum marks of all objectives. */
  function MinMarks(f: seq<Fitness>): (marks: seq<int>)
    requires |f| > 0 && SameArity(f)
    ensures |marks| == |f[0]|
    ensures forall o :: 0 <= o < |f[0]| ==> marks[o] == MinMark(f, o)
  {
    seq(|f[0]|, o requires 0 <= o < |f[0]| => MinMark(f, o))
  }

  /**
   * How row i meets the marks of objective o, given which marks earlier rows
   * took: it takes the maximum mark when it holds the maximum and no earlier row
   * did, and otherwise the minimum mark under the same condition.
   */
  lemma MarkStep(f: seq<Fitness>, i: int, o: int)
    requires |f| > 0 && SameArity(f) && 0 <= i < |f| && 0 <= o < |f[0]|
    ensures MaxMark(f, o) == i <==> f[i][o] == ColumnMax(f)[o] && !(MaxMark(f, o) < i)
    ensures MinMark(f, o) == i <==>
      !(f[i][o] == ColumnMax(f)[o] && !(MaxMark(f, o) < i)) &&
      f[i][o] == ColumnMin(f)[o] && !(MinMark(f, o) < i)
  {
    var col := Column(f, o);
    assert col[i] == f[i][o];
  }

  /** MarkStep for every objective of row i, over the mark lists. */
  lemma RowMarkSteps(f: seq<Fitness>, i: int)
    requires |f| > 0 && SameArity(f) && 0 <= i < |f|
    ensures forall o :: 0 <= o < |f[0]| ==>
      (MaxMarks(f)[o] == i <==> f[i][o] == ColumnMax(f)[o] && !(MaxMarks(f)[o] < i))
    ensures forall o :: 0 <= o < |f[0]| ==>
      (MinMarks(f)[o] == i <==>
        !(f[i][o] == ColumnMax(f)[o] && !(MaxMarks(f)[o] < i)) &&
        f[i][o] == ColumnMin(f)[o] && !(MinMarks(f)[o] < i))
  {
    forall o | 0 <= o < |f[0]|
      ensures MaxMarks(f)[o] == i <==> f[i][o] == ColumnMax(f)[o] && !(MaxMarks(f)[o] < i)
      ensures MinMarks(f)[o] == i <==>
        !(f[i][o] == ColumnMax(f)[o] && !(MaxMarks(f)[o] < i)) &&
        f[i][o] == ColumnMin(f)[o] && !(MinMarks(f)[o] < i)
    {
      MarkStep(f, i, o);
    }
  }

  /** Row i holds some entry of the mark lists. */
  predicate HoldsMark(maxMark: seq<int>, minMark: seq<int>, i: int)
    requires |maxMark| == |minMark|
  {
    exists o :: 0 <= o < |maxMark| && (maxMark[o] == i || minMark[o] == i)
  }

  /** A boundary solution is one that holds some entry of the mark lists. */
  lemma EdgeByMarks(f: seq<Fitness>, i: int)
    requires |f| > 0 && SameArity(f)
    ensures IsEdge(f, i) <==> HoldsMark(MaxMarks(f), MinMarks(f), i)
  {
    if IsEdge(f, i) {
      var o :| 0 <= o < |f[0]| && MarkedBy(f, i, o);
      assert MaxMarks(f)[o] == i || MinMarks(f)[o] == i;
    }
    if HoldsMark(MaxMarks(f), MinMarks(f), i) {
      var o :| 0 <= o < |f[0]| && (MaxMarks(f)[o] == i || MinMarks(f)[o] == i);
      assert MarkedBy(f, i, o);
    }
  }

  /** Distances from row i to every row, with MAX_VALUE in row i's own place (temp, Rank.java 430-442). */
  function Gaps(f: seq<Fitness>, i: int): (g: seq<real>)
    requires SameArity(f) && 0 <= i < |f|
    ensures |g| == |f|
  {
    seq(|f|, j requires 0 <= j < |f| => if j != i then Manhattan(f[i], f[j]) else MaxValue)
  }

  /** The crowding distance of an inner solution: its nearest gap plus the next one. */
  function NearestTwo(f: seq<Fitness>, i: int): real
    requires SameArity(f) && 0 <= i < |f|
  {
    var g := Gaps(f, i);
    var k := ArgMin(g);
    g[k] + MinOf(g[k := MaxValue])
  }

  /**
   * The crowding distance is the least sum of two entries at distinct places
   * of the gap list: it is at most any such sum and, with two or more rows,
   * equal to one.
   */
  lemma NearestTwoIsLeastPair(f: seq<Fitness>, i: int)
    requires SameArity(f) && 0 <= i < |f|
    ensures forall a, b :: 0 <= a < |f| && 0 <= b < |f| && a != b ==>
      NearestTwo(f, i) <= Gaps(f, i)[a] + Gaps(f, i)[b]
    ensures |f| >= 2 && (forall j :: 0 <= j < |f| ==> Gaps(f, i)[j] <= MaxValue) ==>
      (exists a, b :: 0 <= a < |f| && 0 <= b < |f| && a != b &&
        NearestTwo(f, i) == Gaps(f, i)[a] + Gaps(f, i)[b])
  {
    var g := Gaps(f, i);
    var k := ArgMin(g);
    var g' := g[k := MaxValue];
    forall a, b | 0 <= a < |f| && 0 <= b < |f| && a != b
      ensures NearestTwo(f, i) <= g[a] + g[b]
    {
      if b != k {
        assert g'[b] == g[b];
        assert MinOf(g') <= g[b];
      } else {
        assert g'[a] == g[a];
        assert MinOf(g') <= g[a];
      }
    }
    if |f| >= 2 && (forall j :: 0 <= j < |f| ==> g[j] <= MaxValue) {
      var second :| 0 <= second < |g'| && g'[second] == MinOf(g');
      if second != k {
        assert NearestTwo(f, i) == g[k] + g[second];
      } else {
        var other := if k == 0 then 1 else 0;
        assert g'[k] == MaxValue;
        assert MinOf(g') <= g'[other] == g[other];
        assert g[other] <= MaxValue;
        assert NearestTwo(f, i) == g[k] + g[other];
      }
    }
  }

  // --- The edge scan, one row at a time ------------------------------------------

  /**
   * The objective loop of calculateDistance for row (Rank.java 410-424): it
   * reports whether the row takes a maximum or minimum mark, and records the
   * marks it takes in finMax and finMin. The row is row i of the fitness
   * matrix; maxMark and minMark are the mark lists, and the requires state what
   * the row's values say about them (RowMarkSteps).
   */
  method ScanEdges(row: Fitness, i: int, maxF: seq<real>, minF: seq<real>, ghost maxMark: seq<int>, ghost minMark: seq<int>,
                   finMax: array<bool>, finMin: array<bool>)
    returns (isEdge: bool)
    requires |maxF| == |row| && |minF| == |row| && |maxMark| == |row| && |minMark| == |row|
    requires finMax.Length == |row| && finMin.Length == |row| && finMax != finMin
    requires forall o :: 0 <= o < |row| ==> (finMax[o] <==> maxMark[o] < i)
    requires forall o :: 0 <= o < |row| ==> (finMin[o] <==> minMark[o] < i)
    requires forall o :: 0 <= o < |row| ==> (maxMark[o] == i <==> row[o] == maxF[o] && !(maxMark[o] < i))
    requires forall o :: 0 <= o < |row| ==>
      (minMark[o] == i <==> !(row[o] == maxF[o] && !(maxMark[o] < i)) && row[o] == minF[o] && !(minMark[o] < i))
    modifies finMax, finMin
    ensures forall o :: 0 <= o < |row| ==> (finMax[o] <==> maxMark[o] <= i)
    ensures forall o :: 0 <= o < |row| ==> (finMin[o] <==> minMark[o] <= i)
    ensures isEdge <==> HoldsMark(maxMark, minMark, i)
  {
    var m := |row|;
    isEdge := false;
    for o := 0 to m
      invariant forall p :: 0 <= p < o ==> (finMax[p] <==> maxMark[p] <= i)
      invariant forall p :: 0 <= p < o ==> (finMin[p] <==> minMark[p] <= i)
      invariant forall p :: o <= p < m ==> (finMax[p] <==> maxMark[p] < i)
      invariant forall p :: o <= p < m ==> (finMin[p] <==> minMark[p] < i)
      invariant isEdge <==> exists p :: 0 <= p < o && (maxMark[p] == i || minMark[p] == i)
    {
      if row[o] == maxF[o] && !finMax[o] {
        isEdge := true;
        finMax[o] := true;
      } else if row[o] == minF[o] && !finMin[o] {
        isEdge := true;
        finMin[o] := true;
      }
    }
  }

  /**
   * The inner-solution branch of calculateDistance (Rank.java 430-447), using
   * the shared temp array.
   */
  method InnerDistance(f: seq<Fitness>, i: int, temp: array<real>) returns (d: real)
    requires SameArity(f) && 0 <= i < |f| && temp.Length == |f|
    modifies temp
    ensures d == NearestTwo(f, i)
  {
    var n := |f|;
    for j := 0 to n
      invariant forall q :: 0 <= q < j ==> temp[q] == Gaps(f, i)[q]
    {
      if i != j {
        temp[j] := Manhattan(f[i], f[j]);
      } else {
        temp[j] := MaxValue;
      }
    }
    assert temp[..] == Gaps(f, i);
    var index := MinIndex(temp[..]);
    d := temp[index];
    temp[index] := MaxValue;
    d := d + MinOf(temp[..]);
  }

  /**
   * calculateDistance(fitness): MAX_VALUE for boundary solutions, otherwise the
   * sum of the two smallest Manhattan distances to the other solutions.
   */
  method CalculateDistance(fitness: seq<Fitness>) returns (distance: seq<real>)
    requires |fitness| > 0 && SameArity(fitness)
    ensures |distance| == |fitness|
    ensures forall i :: 0 <= i < |fitness| ==>
      distance[i] == if IsEdge(fitness, i) then MaxValue else NearestTwo(fitness, i)
  {
    var n := |fitness|;
    var dist := new real[n](_ => 0.0);
    var temp := new real[n](_ => 0.0);
    var maxFitness := ColumnMax(fitness);
    var minFitness := ColumnMin(fitness);
    var m := |fitness[0]|;
    ghost var maxMark := MaxMarks(fitness);
    ghost var minMark := MinMarks(fitness);
    var finMaxEdge := new bool[m](_ => false);
    var finMinEdge := new bool[m](_ => false);
    for i := 0 to n
      invariant forall o :: 0 <= o < m ==> (finMaxEdge[o] <==> maxMark[o] < i)
      invariant forall o :: 0 <= o < m ==> (finMinEdge[o] <==> minMark[o] < i)
      invariant forall k :: 0 <= k < i ==>
        dist[k] == if HoldsMark(maxMark, minMark, k) then MaxValue else NearestTwo(fitness, k)
    {
      RowMarkSteps(fitness, i);
      var isEdge := ScanEdges(fitness[i], i, maxFitness, minFitness, maxMark, minMark, finMaxEdge, finMinEdge);
      if isEdge {
        dist[i] := MaxValue;
      } else {
        var d := InnerDistance(fitness, i, temp);
        dist[i] := d;
      }
    }
    distance := dist[..];
    forall i | 0 <= i < n
      ensures distance[i] == if IsEdge(fitness, i) then MaxValue else NearestTwo(fitness, i)
    {
      EdgeByMarks(fitness, i);
    }
  }

  // --- At most two boundary solutions per objective -------------------------------

  /** The entries 0 .. o-1 of both mark lists. */
  function Marks(maxMark: seq<int>, minMark: seq<int>, o: nat): (s: seq<int>)
    requires o <= |maxMark| && o <= |minMark|
    ensures |s| == 2 * o
    ensures forall p :: 0 <= p < o ==> maxMark[p] in s && minMark[p] in s
    decreases o
  {
    if o == 0 then []
    else
      var s := Marks(maxMark, minMark, o - 1) + [maxMark[o - 1], minMark[o - 1]];
      assert forall x :: x in Marks(maxMark, minMark, o - 1) ==> x in s;
      s
  }

  lemma {:induction false} DistinctValuesBound(s: seq<int>)
    ensures |set x | x in s| <= |s|
  {
    if s != [] {
      DistinctValuesBound(s[1..]);
      var rest := set x | x in s[1..];
      assert (set x | x in s) == rest + {s[0]};
    }
  }

  /** calculateDistance marks at most two boundary solutions per objective. */
  lemma EdgeCountBound(f: seq<Fitness>)
    requires |f| > 0 && SameArity(f)
    ensures |set i | 0 <= i < |f| && IsEdge(f, i)| <= 2 * |f[0]|
  {
    var marks := Marks(MaxMarks(f), MinMarks(f), |f[0]|);
    var edges := set i | 0 <= i < |f| && IsEdge(f, i);
    forall i | i in edges ensures i in marks {
      EdgeByMarks(f, i);
    }
    DistinctValuesBound(marks);
    SubsetSize(edges, set x | x in marks);
  }

  lemma SubsetSize(a: set<int>, b: set<int>)
    requires a <= b
    ensures |a| <= |b|
  {
    assert b == a + (b - a);
  }
}
