/** Sorting the table by `total_schools`, largest first.

    pandas' default sort is not stable, so the source promises nothing about
    the order of rows with equal totals. The model sorts with a concrete
    insertion sort, but everything stated about the result holds of every
    "descending arrangement" of the rows: a permutation that is non-increasing
    in `total_schools`. `DescendingArrangementsAgreeOnTotals` shows that all
    such arrangements carry the same totals position by position, so tie order
    can only change which region names appear, never which numbers do. */
module Ordering {
  import opened Frames

  predicate NonIncreasing(s: seq<Row>)
  {
    forall i, j :: 0 <= i < j < |s| ==> s[i].totalSchools >= s[j].totalSchools
  }

  /** `p` is one admissible outcome of `sort_values("total_schools", ascending=False)`. */
  predicate IsDescendingArrangement(p: seq<Row>, rows: seq<Row>)
  {
    |p| == |rows| && multiset(p) == multiset(rows) && NonIncreasing(p)
  }

  function InsertDescending(x: Row, s: seq<Row>): (r: seq<Row>)
    requires NonIncreasing(s)
    ensures |r| == |s| + 1
    ensures multiset(r) == multiset(s) + multiset{x}
    ensures NonIncreasing(r)
  {
    if |s| == 0 then [x]
    else if x.totalSchools >= s[0].totalSchools then
      assert s == [s[0]] + s[1..];
      [x] + s
    else
      var rest := InsertDescending(x, s[1..]);
      assert s == [s[0]] + s[1..];
      BoundedByHead(s, x, rest);
      ConsNonIncreasing(s[0], rest);
      [s[0]] + rest
  }

  /** A head at least as large as every element keeps a non-increasing
      sequence non-increasing. */
  lemma ConsNonIncreasing(h: Row, rest: seq<Row>)
    requires NonIncreasing(rest)
    requires forall j :: 0 <= j < |rest| ==> rest[j].totalSchools <= h.totalSchools
    ensures NonIncreasing([h] + rest)
  {
    var s := [h] + rest;
    forall i, j | 0 <= i < j < |s|
      ensures s[i].totalSchools >= s[j].totalSchools
    {
      assert s[j] == rest[j - 1];
      if i > 0 {
        assert s[i] == rest[i - 1];
      }
    }
  }

  /** Every element of the re-inserted tail is at most the head. */
  lemma BoundedByHead(s: seq<Row>, x: Row, rest: seq<Row>)
    requires |s| > 0 && NonIncreasing(s)
    requires x.totalSchools < s[0].totalSchools
    requires multiset(rest) == multiset(s[1..]) + multiset{x}
    ensures forall j :: 0 <= j < |rest| ==> rest[j].totalSchools <= s[0].totalSchools
  {
    forall j | 0 <= j < |rest|
      ensures rest[j].totalSchools <= s[0].totalSchools
    {
      assert rest[j] in multiset(rest);
      if rest[j] != x {
        assert rest[j] in multiset(s[1..]);
        var k :| 0 <= k < |s[1..]| && s[1..][k] == rest[j];
        assert s[k + 1] == rest[j];
      }
    }
  }

  /** The model's choice of descending arrangement (an insertion sort). */
  function SortDescending(rows: seq<Row>): (r: seq<Row>)
    ensures IsDescendingArrangement(r, rows)
  {
    if |rows| == 0 then []
    else
      assert rows == [rows[0]] + rows[1..];
      InsertDescending(rows[0], SortDescending(rows[1..]))
  }

  /** The `total_schools` column of a sequence of rows. */
  function Totals(s: seq<Row>): (t: seq<int>)
    ensures |t| == |s|
    ensures forall i :: 0 <= i < |s| ==> t[i] == s[i].totalSchools
  {
    seq(|s|, i requires 0 <= i < |s| => s[i].totalSchools)
  }

  predicate NonIncreasingInts(t: seq<int>)
  {
    forall i, j :: 0 <= i < j < |t| ==> t[i] >= t[j]
  }

  /** Rows that are permutations of each other have totals that are too. */
  lemma {:induction false} TotalsPreservePermutation(a: seq<Row>, b: seq<Row>)
    requires multiset(a) == multiset(b)
    ensures multiset(Totals(a)) == multiset(Totals(b))
  {
    if |a| == 0 {
      assert |b| == |multiset(b)| == 0;
      assert Totals(a) == Totals(b) == [];
    } else {
      var x := a[0];
      assert x in multiset(b);
      var k :| 0 <= k < |b| && b[k] == x;
      var tail := a[1..];
      var rest := b[..k] + b[k + 1..];
      PermutationWithoutHead(a, b, k);
      TotalsPreservePermutation(tail, rest);
      assert Totals(a) == [x.totalSchools] + Totals(tail);
      assert Totals(rest) == Totals(b)[..k] + Totals(b)[k + 1..];
      MultisetRemoveAt(Totals(b), k);
      MultisetTail(Totals(a));
    }
  }

  /** The head of a non-increasing sequence bounds every element of it. */
  lemma HeadIsMaximum(a: seq<int>, y: int)
    requires |a| > 0 && NonIncreasingInts(a)
    requires y in multiset(a)
    ensures y <= a[0]
  {
    var k :| 0 <= k < |a| && a[k] == y;
  }

  lemma MultisetTail<T>(a: seq<T>)
    requires |a| > 0
    ensures multiset(a[1..]) == multiset(a) - multiset{a[0]}
  {
    assert a == [a[0]] + a[1..];
  }

  lemma TailNonIncreasing(a: seq<int>)
    requires |a| > 0 && NonIncreasingInts(a)
    ensures NonIncreasingInts(a[1..])
  {
    forall i, j | 0 <= i < j < |a| - 1
      ensures a[1..][i] >= a[1..][j]
    {
      assert a[1..][i] == a[i + 1] && a[1..][j] == a[j + 1];
    }
  }

  /** Non-increasing sequences with the same elements start alike and
      continue with tails that again have the same elements. */
  lemma SameHeadSameTail(a: seq<int>, b: seq<int>)
    requires |a| > 0 && |b| > 0
    requires NonIncreasingInts(a) && NonIncreasingInts(b)
    requires multiset(a) == multiset(b)
    ensures a[0] == b[0]
    ensures multiset(a[1..]) == multiset(b[1..])
  {
    HeadIsMaximum(b, a[0]);
    HeadIsMaximum(a, b[0]);
    MultisetTail(a);
    MultisetTail(b);
  }

  /** Two non-increasing integer sequences with the same elements are equal. */
  lemma {:induction false} NonIncreasingIntsUnique(a: seq<int>, b: seq<int>)
    requires NonIncreasingInts(a) && NonIncreasingInts(b)
    requires multiset(a) == multiset(b)
    ensures a == b
  {
    assert |a| == |multiset(a)| == |multiset(b)| == |b|;
    if |a| > 0 {
      SameHeadSameTail(a, b);
      TailNonIncreasing(a);
      TailNonIncreasing(b);
      NonIncreasingIntsUnique(a[1..], b[1..]);
      assert a == [a[0]] + a[1..];
      assert b == [b[0]] + b[1..];
    }
  }

  /** Whatever order the sort leaves ties in, position `i` of the result
      always carries the same `total_schools`. */
  lemma DescendingArrangementsAgreeOnTotals(p: seq<Row>, q: seq<Row>, rows: seq<Row>)
    requires IsDescendingArrangement(p, rows) && IsDescendingArrangement(q, rows)
    ensures Totals(p) == Totals(q)
  {
    TotalsPreservePermutation(p, q);
    NonIncreasingIntsUnique(Totals(p), Totals(q));
  }

  /** Every row lies between the first and the last of a descending
      arrangement. */
  lemma ArrangementBrackets(q: seq<Row>, rows: seq<Row>, i: nat)
    requires IsDescendingArrangement(q, rows)
    requires i < |rows|
    ensures q[|q| - 1].totalSchools <= rows[i].totalSchools <= q[0].totalSchools
  {
    assert rows[i] in multiset(q);
    var m :| 0 <= m < |q| && q[m] == rows[i];
  }

  lemma TotalsOfSlice(q: seq<Row>, lo: nat, hi: nat)
    requires lo <= hi <= |q|
    ensures Totals(q[lo..hi]) == Totals(q)[lo..hi]
  {
  }
}
