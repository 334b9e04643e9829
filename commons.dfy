/**
 * The helpers the optimisers take from their commons library (Numeric.limit,
 * Cast.doubleToInt, Vector.min/max/sort/shuffle, Math.round, System.arraycopy).
 * The library's own code is not part of this model: each helper below is given
 * the behaviour its callers rely on, and the contract says what that is.
 */
module Commons {

  datatype Option<+T> = None | Some(value: T)

  /** Double.MAX_VALUE, that is (2 - 2^-52) * 2^1023, written out exactly. */
  const MaxValue: real := 179769313486231570814527423731704356798070567525844996598917476803157260780028538760589558632766878171540458953514382464234321326889464182768467546703537516986049910576551282076245490090389328944075868508455133942304583236903222948165808559332123348274797826204144723168738177180919299881250404026184124858368.0

  const IntMin: int := -2147483648
  const IntMax: int := 2147483647

  /** A Java `int`. */
  type Int32 = x: int | IntMin <= x <= IntMax

  /** Numeric.limit(x, max, min): x clamped into [min, max]. */
  function Limit(x: real, max: real, min: real): (r: real)
    ensures min <= max ==> min <= r <= max
    ensures min <= x <= max ==> r == x
    ensures x > max ==> r == max
    ensures x <= max && x < min ==> r == min
  {
    if x > max then max else if x < min then min else x
  }

  /** Truncation toward zero, as a Java (int) cast does before saturation. */
  function Trunc(x: real): (r: int)
    ensures 0.0 <= x ==> 0 <= r && r as real <= x < r as real + 1.0
    ensures x < 0.0 ==> r <= 0 && r as real - 1.0 < x <= r as real
  {
    if x >= 0.0 then x.Floor else -((-x).Floor)
  }

  /** Cast.doubleToInt on one element: the Java (int) cast, which truncates and saturates. */
  function DoubleToInt(x: real): (r: Int32)
    ensures IntMin as real < x < IntMax as real ==> r == Trunc(x)
    ensures x >= IntMax as real ==> r == IntMax
    ensures x <= IntMin as real ==> r == IntMin
  {
    if x >= IntMax as real then IntMax
    else if x <= IntMin as real then IntMin
    else
      var t := Trunc(x);
      assert IntMin < t <= IntMax;
      t
  }

  /** Math.round(double): the nearest integer, halves rounded up. */
  function Round(x: real): (r: int)
    ensures r as real - 0.5 <= x < r as real + 0.5
  {
    (x + 0.5).Floor
  }

  function Pow2(k: nat): (r: nat)
    ensures r >= 1
  {
    if k == 0 then 1 else 2 * Pow2(k - 1)
  }

  /** A new Java array of doubles: n zeros. */
  function Zeros(n: nat): (r: seq<real>)
    ensures |r| == n && forall i :: 0 <= i < n ==> r[i] == 0.0
  {
    seq(n, _ => 0.0)
  }

  /**
   * System.arraycopy(src, 0, dst, 0, len) on arrays seen as values: the first len
   * slots of dst take src's first len values and the rest of dst is kept.
   */
  function ArrayCopy<T>(src: seq<T>, dst: seq<T>, len: nat): (r: seq<T>)
    requires len <= |src| && len <= |dst|
    ensures |r| == |dst|
    ensures forall i :: 0 <= i < len ==> r[i] == src[i]
    ensures forall i :: len <= i < |dst| ==> r[i] == dst[i]
  {
    src[..len] + dst[len..]
  }

  lemma ArrayCopyWhole<T>(src: seq<T>, dst: seq<T>)
    requires |src| == |dst|
    ensures ArrayCopy(src, dst, |src|) == src
  {
  }

  /** new Vector(0, 1, n - 1): the indices 0 .. n-1 in order. */
  function Range(n: nat): (r: seq<int>)
    ensures |r| == n && forall i :: 0 <= i < n ==> r[i] == i
  {
    seq(n, i => i)
  }

  /** p lists every index 0 .. n-1 exactly once. */
  predicate IsPermutation(p: seq<int>, n: int) {
    && |p| == n
    && (forall i :: 0 <= i < |p| ==> 0 <= p[i] < n)
    && Distinct(p)
  }

  function Sum(s: seq<real>): real {
    if s == [] then 0.0 else Sum(s[..|s| - 1]) + s[|s| - 1]
  }

  function Abs(x: real): real {
    if x < 0.0 then -x else x
  }

  /** Vector.min(): the smallest element. */
  function MinOf(s: seq<real>): (r: real)
    requires |s| > 0
    ensures r in s
    ensures forall i :: 0 <= i < |s| ==> r <= s[i]
  {
    if |s| == 1 then s[0]
    else
      var m := MinOf(s[1..]);
      assert forall i :: 1 <= i < |s| ==> s[i] == s[1..][i - 1];
      if s[0] <= m then s[0] else m
  }

  /** Vector.max(): the largest element. */
  function MaxOf(s: seq<real>): (r: real)
    requires |s| > 0
    ensures r in s
    ensures forall i :: 0 <= i < |s| ==> s[i] <= r
  {
    if |s| == 1 then s[0]
    else
      var m := MaxOf(s[1..]);
      assert forall i :: 1 <= i < |s| ==> s[i] == s[1..][i - 1];
      if s[0] >= m then s[0] else m
  }

  /** Cast.intToDouble: each int as a double. */
  function IntToDouble(s: seq<int>): (r: seq<real>)
    ensures |r| == |s| && forall i :: 0 <= i < |s| ==> r[i] == s[i] as real
  {
    if s == [] then [] else [s[0] as real] + IntToDouble(s[1..])
  }

  /** (int) new Vector(Cast.intToDouble(s)).min(): the smallest element, back as an int. */
  function MinInt(s: seq<int>): (r: int)
    requires |s| > 0
    ensures r in s
    ensures forall i :: 0 <= i < |s| ==> r <= s[i]
  {
    var x := MinOf(IntToDouble(s));
    assert exists i :: 0 <= i < |s| && x == s[i] as real;
    x.Floor
  }

  /**
   * The largest element of an int array. It is written out over ints, and
   * MaxIntCast shows it is (int) new Vector(Cast.intToDouble(s)).max().
   */
  function MaxInt(s: seq<int>): (r: int)
    requires |s| > 0
    ensures r in s
    ensures forall i :: 0 <= i < |s| ==> s[i] <= r
  {
    if |s| == 1 then s[0]
    else
      var m := MaxInt(s[1..]);
      assert forall i :: 1 <= i < |s| ==> s[i] == s[1..][i - 1];
      if s[0] >= m then s[0] else m
  }

  /** MaxInt is Vector.max() over the array cast to doubles. */
  lemma MaxIntCast(s: seq<int>)
    requires |s| > 0
    ensures MaxInt(s) as real == MaxOf(IntToDouble(s))
  {
    var d := IntToDouble(s);
    var i :| 0 <= i < |s| && s[i] == MaxInt(s);
    var j :| 0 <= j < |d| && d[j] == MaxOf(d);
    assert d[i] <= MaxOf(d) && s[j] <= MaxInt(s);
  }

  /**
   * Matrix.normalize(max, min) on one row: the entry in column j becomes
   * (x - min[j]) / (max[j] - min[j]). Where a bound is missing or the two
   * bounds coincide the entry is left as it is.
   */
  function NormalizeRow(row: seq<real>, max: seq<real>, min: seq<real>): (r: seq<real>)
    ensures |r| == |row|
  {
    seq(|row|, j requires 0 <= j < |row| =>
      if j < |max| && j < |min| && max[j] != min[j] then (row[j] - min[j]) / (max[j] - min[j]) else row[j])
  }

  /** Matrix.normalize(max, min): every row scaled column by column. */
  function Normalize(m: seq<seq<real>>, max: seq<real>, min: seq<real>): (r: seq<seq<real>>)
    ensures |r| == |m|
    ensures forall i :: 0 <= i < |m| ==> r[i] == NormalizeRow(m[i], max, min)
  {
    seq(|m|, i requires 0 <= i < |m| => NormalizeRow(m[i], max, min))
  }

  /** A value between its column's bounds lands in [0, 1]; the bounds themselves go to 0 and 1. */
  lemma NormalizeInUnit(row: seq<real>, max: seq<real>, min: seq<real>, j: int)
    requires 0 <= j < |row| && j < |max| && j < |min| && min[j] < max[j]
    ensures min[j] <= row[j] <= max[j] ==> 0.0 <= NormalizeRow(row, max, min)[j] <= 1.0
    ensures row[j] == min[j] ==> NormalizeRow(row, max, min)[j] == 0.0
    ensures row[j] == max[j] ==> NormalizeRow(row, max, min)[j] == 1.0
  {
    var x := row[j] - min[j];
    var w := max[j] - min[j];
    if 0.0 <= x <= w {
      assert x / w <= 1.0 by {
        assert x / w * w == x;
      }
    }
  }

  // ---------------------------------------------------------------------------
  // Vector.sort() and Vector.sort("descend"): the index permutation that orders
  // the vector. The library's algorithm is not shown; the model uses a stable
  // insertion sort of the indices, which is one permutation with that property.
  // ---------------------------------------------------------------------------

  predicate InOrder(a: real, b: real, descending: bool) {
    if descending then a >= b else a <= b
  }

  /** The indices in s are in range for v and list v's values in the requested order. */
  predicate SortedBy(v: seq<real>, s: seq<int>, descending: bool) {
    && (forall i :: 0 <= i < |s| ==> 0 <= s[i] < |v|)
    && (forall i, j :: 0 <= i < j < |s| ==> InOrder(v[s[i]], v[s[j]], descending))
  }

  predicate Distinct(s: seq<int>) {
    forall i, j :: 0 <= i < j < |s| ==> s[i] != s[j]
  }

  function InsertIndex(v: seq<real>, k: int, s: seq<int>, descending: bool): (r: seq<int>)
    requires 0 <= k < |v| && SortedBy(v, s, descending)
    ensures |r| == |s| + 1
    ensures forall x :: x in r <==> x in s || x == k
    ensures SortedBy(v, r, descending)
    ensures Distinct(s) && k !in s ==> Distinct(r)
  {
    if s == [] then [k]
    else if (if descending then v[k] > v[s[0]] else v[k] < v[s[0]]) then
      assert forall j :: 0 <= j < |s| ==> InOrder(v[k], v[s[j]], descending) by {
        forall j | 0 <= j < |s| ensures InOrder(v[k], v[s[j]], descending) {
          if j > 0 { assert InOrder(v[s[0]], v[s[j]], descending); }
        }
      }
      ConsSorted(v, k, s, descending);
      ConsDistinct(k, s);
      [k] + s
    else
      var rest := InsertIndex(v, k, s[1..], descending);
      HeadBeforeInserted(v, k, s, rest, descending);
      ConsSorted(v, s[0], rest, descending);
      TailDistinct(s);
      ConsDistinct(s[0], rest);
      [s[0]] + rest
  }

  lemma ConsSorted(v: seq<real>, x: int, s: seq<int>, descending: bool)
    requires 0 <= x < |v| && SortedBy(v, s, descending)
    requires forall j :: 0 <= j < |s| ==> InOrder(v[x], v[s[j]], descending)
    ensures SortedBy(v, [x] + s, descending)
  {
    var r := [x] + s;
    forall i, j | 0 <= i < j < |r| ensures InOrder(v[r[i]], v[r[j]], descending) {
      if i > 0 { assert r[i] == s[i - 1] && r[j] == s[j - 1]; }
      else { assert r[j] == s[j - 1]; }
    }
  }

  lemma ConsDistinct(x: int, s: seq<int>)
    ensures Distinct(s) && x !in s ==> Distinct([x] + s)
  {
    var r := [x] + s;
    if Distinct(s) && x !in s {
      forall i, j | 0 <= i < j < |r| ensures r[i] != r[j] {
        if i > 0 { assert r[i] == s[i - 1] && r[j] == s[j - 1]; }
        else { assert r[j] == s[j - 1]; }
      }
    }
  }

  lemma TailDistinct(s: seq<int>)
    requires |s| > 0
    ensures Distinct(s) ==> Distinct(s[1..]) && s[0] !in s[1..]
  {
  }

  /** When k goes after s[0], s[0] still comes before everything in the rest. */
  lemma HeadBeforeInserted(v: seq<real>, k: int, s: seq<int>, rest: seq<int>, descending: bool)
    requires 0 <= k < |v| && |s| > 0 && SortedBy(v, s, descending)
    requires !(if descending then v[k] > v[s[0]] else v[k] < v[s[0]])
    requires forall x :: x in rest <==> x in s[1..] || x == k
    requires forall j :: 0 <= j < |rest| ==> 0 <= rest[j] < |v|
    ensures forall j :: 0 <= j < |rest| ==> InOrder(v[s[0]], v[rest[j]], descending)
  {
    forall j | 0 <= j < |rest| ensures InOrder(v[s[0]], v[rest[j]], descending) {
      assert rest[j] in rest;
      if rest[j] != k {
        var t :| 0 <= t < |s[1..]| && s[1..][t] == rest[j];
        assert InOrder(v[s[0]], v[s[t + 1]], descending);
      }
    }
  }

  function SortPrefix(v: seq<real>, n: nat, descending: bool): (r: seq<int>)
    requires n <= |v|
    ensures |r| == n && SortedBy(v, r, descending)
    ensures forall x :: x in r <==> 0 <= x < n
    ensures Distinct(r)
  {
    if n == 0 then []
    else
      var s := SortPrefix(v, n - 1, descending);
      InsertIndex(v, n - 1, s, descending)
  }

  /** Vector.sort() (ascending) or Vector.sort("descend"): an ordering index permutation. */
  function SortIndices(v: seq<real>, descending: bool): (r: seq<int>)
    ensures IsPermutation(r, |v|)
    ensures forall i, j :: 0 <= i < j < |r| ==> InOrder(v[r[i]], v[r[j]], descending)
  {
    SortPrefix(v, |v|, descending)
  }

  /** Every position of v appears in the index permutation, and nothing else. */
  lemma SortIndicesCovers(v: seq<real>, descending: bool)
    ensures forall x :: x in SortIndices(v, descending) <==> 0 <= x < |v|
  {
    assert SortIndices(v, descending) == SortPrefix(v, |v|, descending);
  }
}
