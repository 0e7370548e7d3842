/**
 * The NumPy reductions the statistics use, on exact reals: `np.sum`, `.mean()`,
 * `np.max`, `np.min`, `np.median`, the flattening of a slice before a
 * reduction, and `.astype(int)` on a scalar.
 */
module Reductions {

  function Sum(s: seq<real>): real {
    if |s| == 0 then 0.0 else Sum(s[..|s| - 1]) + s[|s| - 1]
  }

  lemma {:induction false} SumConcat(a: seq<real>, b: seq<real>)
    ensures Sum(a + b) == Sum(a) + Sum(b)
  {
    if |b| == 0 {
      assert a + b == a;
    } else {
      assert (a + b)[..|a + b| - 1] == a + b[..|b| - 1];
      SumConcat(a, b[..|b| - 1]);
    }
  }

  lemma SumOfThree(a: real, b: real, c: real)
    ensures Sum([a, b, c]) == a + b + c
  {
    assert [a][..0] == [];
    assert Sum([a]) == a;
    assert [a, b][..1] == [a];
    assert Sum([a, b]) == a + b;
    assert [a, b, c][..2] == [a, b];
  }

  /** A sum of n values that all lie in [lo, hi] lies in [n * lo, n * hi]. */
  lemma {:induction false} SumBounds(s: seq<real>, lo: real, hi: real)
    requires forall i :: 0 <= i < |s| ==> lo <= s[i] <= hi
    ensures |s| as real * lo <= Sum(s) <= |s| as real * hi
  {
    if |s| > 0 {
      SumBounds(s[..|s| - 1], lo, hi);
    }
  }

  /** The largest element (`np.max`). */
  function Max(s: seq<real>): (m: real)
    requires |s| > 0
    ensures m in s
    ensures forall i :: 0 <= i < |s| ==> s[i] <= m
  {
    if |s| == 1 then s[0]
    else
      var m' := Max(s[..|s| - 1]);
      if s[|s| - 1] > m' then s[|s| - 1] else m'
  }

  /** The smallest element (`np.min`). */
  function Min(s: seq<real>): (m: real)
    requires |s| > 0
    ensures m in s
    ensures forall i :: 0 <= i < |s| ==> m <= s[i]
  {
    if |s| == 1 then s[0]
    else
      var m' := Min(s[..|s| - 1]);
      if s[|s| - 1] < m' then s[|s| - 1] else m'
  }

  /** The arithmetic mean (`.mean()`), which lies between the extremes. */
  function Mean(s: seq<real>): (m: real)
    requires |s| > 0
    ensures Min(s) <= m <= Max(s)
  {
    SumBounds(s, Min(s), Max(s));
    var n := |s| as real;
    DivideBounds(Sum(s), n, Min(s), Max(s));
    Sum(s) / n
  }

  lemma DivideBounds(x: real, n: real, lo: real, hi: real)
    requires n > 0.0 && n * lo <= x <= n * hi
    ensures lo <= x / n <= hi
  {
    assert x / n * n == x;
  }

  /** The row-major concatenation of a slice's rows (what a reduction over it sees). */
  function Flatten(rows: seq<seq<real>>): seq<real> {
    if |rows| == 0 then [] else Flatten(rows[..|rows| - 1]) + rows[|rows| - 1]
  }

  lemma {:induction false} FlattenHas(rows: seq<seq<real>>, i: nat, j: nat)
    requires i < |rows| && j < |rows[i]|
    ensures rows[i][j] in Flatten(rows)
  {
    if i < |rows| - 1 {
      FlattenHas(rows[..|rows| - 1], i, j);
    }
  }

  lemma {:induction false} FlattenFrom(rows: seq<seq<real>>, v: real)
    requires v in Flatten(rows)
    ensures exists i, j :: 0 <= i < |rows| && 0 <= j < |rows[i]| && rows[i][j] == v
  {
    var init := rows[..|rows| - 1];
    if v in Flatten(init) {
      FlattenFrom(init, v);
      var i, j :| 0 <= i < |init| && 0 <= j < |init[i]| && init[i][j] == v;
      assert rows[i][j] == v;
    } else {
      var j :| 0 <= j < |rows[|rows| - 1]| && rows[|rows| - 1][j] == v;
    }
  }

  function RowSums(rows: seq<seq<real>>): (r: seq<real>)
    ensures |r| == |rows| && forall i :: 0 <= i < |rows| ==> r[i] == Sum(rows[i])
  {
    seq(|rows|, i requires 0 <= i < |rows| => Sum(rows[i]))
  }

  /** Summing a flattened slice is summing its row sums. */
  lemma {:induction false} SumFlatten(rows: seq<seq<real>>)
    ensures Sum(Flatten(rows)) == Sum(RowSums(rows))
  {
    if |rows| > 0 {
      var init := rows[..|rows| - 1];
      SumFlatten(init);
      SumConcat(Flatten(init), rows[|rows| - 1]);
      assert RowSums(rows)[..|rows| - 1] == RowSums(init);
    }
  }

  lemma {:induction false} FlattenLength(rows: seq<seq<real>>, k: nat)
    requires forall i :: 0 <= i < |rows| ==> |rows[i]| == k
    ensures |Flatten(rows)| == |rows| * k
  {
    if |rows| > 0 {
      FlattenLength(rows[..|rows| - 1], k);
    }
  }

  predicate Sorted(s: seq<real>) {
    forall i, j :: 0 <= i < j < |s| ==> s[i] <= s[j]
  }

  function Insert(x: real, s: seq<real>): (r: seq<real>)
    ensures |r| == |s| + 1
  {
    if |s| == 0 then [x]
    else if x <= s[0] then [x] + s
    else [s[0]] + Insert(x, s[1..])
  }

  lemma {:induction false} InsertSorted(x: real, s: seq<real>)
    requires Sorted(s)
    ensures Sorted(Insert(x, s))
    ensures Insert(x, s)[0] == (if |s| == 0 || x <= s[0] then x else s[0])
  {
    if |s| > 0 {
      if x <= s[0] {
        SortedCons(x, s);
      } else {
        SortedTail(s);
        InsertSorted(x, s[1..]);
        SortedCons(s[0], Insert(x, s[1..]));
      }
    }
  }

  lemma {:induction false} InsertPermutes(x: real, s: seq<real>)
    ensures multiset(Insert(x, s)) == multiset(s) + multiset{x}
  {
    if |s| > 0 && x > s[0] {
      InsertPermutes(x, s[1..]);
      assert s == [s[0]] + s[1..];
    }
  }

  lemma SortedCons(x: real, s: seq<real>)
    requires Sorted(s) && (|s| == 0 || x <= s[0])
    ensures Sorted([x] + s)
  {
  }

  lemma SortedTail(s: seq<real>)
    requires Sorted(s) && |s| > 0
    ensures Sorted(s[1..]) && (|s| == 1 || s[0] <= s[1])
  {
  }

  /** The values in ascending order: the order `np.median` reads them in. */
  function Sort(s: seq<real>): (r: seq<real>)
    ensures Sorted(r) && multiset(r) == multiset(s)
  {
    if |s| == 0 then []
    else
      var t := Sort(s[..|s| - 1]);
      InsertSorted(s[|s| - 1], t);
      InsertPermutes(s[|s| - 1], t);
      assert s == s[..|s| - 1] + [s[|s| - 1]];
      Insert(s[|s| - 1], t)
  }

  /** `np.median`: the middle value, or the average of the two middle values. */
  function Median(s: seq<real>): (m: real)
    requires |s| > 0
    ensures Min(s) <= m <= Max(s)
  {
    var t := Sort(s);
    var n := |s|;
    assert |t| == |multiset(t)| == n;
    assert t[n / 2] in multiset(s) && t[n / 2] in s;
    if n % 2 == 1 then t[n / 2]
    else
      assert t[n / 2 - 1] in multiset(s) && t[n / 2 - 1] in s;
      (t[n / 2 - 1] + t[n / 2]) / 2.0
  }

  /** The values of s above a bound, in order (a boolean-mask selection `s[s > bound]`). */
  function Above(s: seq<real>, bound: real): (r: seq<real>)
    ensures forall x :: x in r <==> x in s && x > bound
  {
    if |s| == 0 then []
    else
      var init := s[..|s| - 1];
      assert s == init + [s[|s| - 1]];
      Above(init, bound) + (if s[|s| - 1] > bound then [s[|s| - 1]] else [])
  }

  /**
   * The selection keeps every value above the bound as often as it occurs,
   * which is what the median of the selection reads.
   */
  lemma {:induction false} AboveKeepsMultiplicity(s: seq<real>, bound: real)
    ensures forall v :: multiset(Above(s, bound))[v] == (if v > bound then multiset(s)[v] else 0)
  {
    if |s| > 0 {
      var init, last := s[..|s| - 1], s[|s| - 1];
      assert s == init + [last];
      AboveKeepsMultiplicity(init, bound);
      assert Above(s, bound) == Above(init, bound) + (if last > bound then [last] else []);
    }
  }

  /** `.astype(int)` on a scalar: truncation toward zero. */
  function Trunc(x: real): (r: int)
    ensures 0.0 <= x ==> 0 <= r && r as real <= x < r as real + 1.0
    ensures x < 0.0 ==> r <= 0 && r as real - 1.0 < x <= r as real
  {
    if x >= 0.0 then x.Floor else -((-x).Floor)
  }

  lemma TruncMonotone(x: real, y: real)
    requires x <= y
    ensures Trunc(x) <= Trunc(y)
  {
  }

  function IntSum(s: seq<int>): int {
    if |s| == 0 then 0 else IntSum(s[..|s| - 1]) + s[|s| - 1]
  }

  /** `.astype(int)` applied to each value. */
  function TruncAll(xs: seq<real>): (r: seq<int>)
    ensures |r| == |xs| && forall i :: 0 <= i < |xs| ==> r[i] == Trunc(xs[i])
  {
    seq(|xs|, i requires 0 <= i < |xs| => Trunc(xs[i]))
  }

  /**
   * Truncating nonnegative values one by one before adding them loses less
   * than one per value: the integer sum lies in
   * (Sum - n, Sum] for n > 0 values.
   */
  lemma {:induction false} TruncSumBounds(xs: seq<real>)
    requires forall i :: 0 <= i < |xs| ==> 0.0 <= xs[i]
    ensures IntSum(TruncAll(xs)) as real <= Sum(xs)
    ensures |xs| > 0 ==> Sum(xs) < IntSum(TruncAll(xs)) as real + |xs| as real
  {
    if |xs| > 0 {
      var init := xs[..|xs| - 1];
      TruncSumBounds(init);
      assert TruncAll(xs)[..|xs| - 1] == TruncAll(init);
    }
  }
}
