/** The aggregated education-access table: one row per region with its school
    counts, plus the column names the table was read with. */
module Frames {

  /** One line of the aggregated table. The counts are plain integers: the
      loader does not check their sign. */
  datatype Row = Row(region: string, year: int, totalSchools: int, publicSchools: int, privateSchools: int)

  /** A table as pandas reads it: the header's column names and the rows. A
      column absent from `columns` is not readable, whatever the rows hold. */
  datatype Frame = Frame(columns: seq<string>, rows: seq<Row>)

  const RegionColumn := "region"
  const YearColumn := "year"
  const TotalColumn := "total_schools"
  const PublicColumn := "public_schools"
  const PrivateColumn := "private_schools"

  /** The five columns the aggregated file must provide. */
  const RequiredColumns: set<string> := {RegionColumn, YearColumn, TotalColumn, PublicColumn, PrivateColumn}

  /** The column order of the aggregated file. */
  const AggregateColumns: seq<string> := [RegionColumn, YearColumn, TotalColumn, PublicColumn, PrivateColumn]

  function ColumnSet(columns: seq<string>): set<string>
  {
    set c | c in columns
  }

  /** A file written with the aggregate column order has every required column. */
  lemma AggregateColumnsComplete()
    ensures RequiredColumns <= ColumnSet(AggregateColumns)
  {
    forall c | c in RequiredColumns
      ensures c in AggregateColumns
    {
    }
  }

  /** The three summed columns. */
  datatype Count = TotalSchools | PublicSchools | PrivateSchools

  function Field(r: Row, c: Count): int
  {
    match c
    case TotalSchools => r.totalSchools
    case PublicSchools => r.publicSchools
    case PrivateSchools => r.privateSchools
  }

  /** `df[column].sum()`. Over counts that are never negative, the sum is
      not negative and no single row exceeds it. */
  function ColumnSum(rows: seq<Row>, c: Count): (r: int)
    ensures (forall i :: 0 <= i < |rows| ==> Field(rows[i], c) >= 0) ==>
              r >= 0 && forall i :: 0 <= i < |rows| ==> Field(rows[i], c) <= r
  {
    if |rows| == 0 then 0
    else
      assert forall i :: 0 < i < |rows| ==> rows[i] == rows[1..][i - 1];
      Field(rows[0], c) + ColumnSum(rows[1..], c)
  }

  lemma {:induction false} ColumnSumAppend(a: seq<Row>, b: seq<Row>, c: Count)
    ensures ColumnSum(a + b, c) == ColumnSum(a, c) + ColumnSum(b, c)
  {
    if |a| > 0 {
      assert (a + b)[1..] == a[1..] + b;
      ColumnSumAppend(a[1..], b, c);
    } else {
      assert a + b == b;
    }
  }

  /** Removing the element at `k` removes one copy of it from the multiset. */
  lemma MultisetRemoveAt<T>(b: seq<T>, k: nat)
    requires k < |b|
    ensures multiset(b[..k] + b[k + 1..]) == multiset(b) - multiset{b[k]}
  {
    assert b == b[..k] + [b[k]] + b[k + 1..];
  }

  /** If `b` is a permutation of `a`, then taking the head off `a` and one
      copy of that head off `b` leaves permutations of each other. */
  lemma PermutationWithoutHead<T>(a: seq<T>, b: seq<T>, k: nat)
    requires multiset(a) == multiset(b)
    requires |a| > 0 && k < |b| && b[k] == a[0]
    ensures multiset(a[1..]) == multiset(b[..k] + b[k + 1..])
  {
    MultisetRemoveAt(b, k);
    assert a == [a[0]] + a[1..];
    assert multiset(a) == multiset{a[0]} + multiset(a[1..]);
  }

  /** Removing the row at `k` takes its field out of the column sum. */
  lemma ColumnSumRemoveAt(b: seq<Row>, k: nat, c: Count)
    requires k < |b|
    ensures ColumnSum(b, c) == Field(b[k], c) + ColumnSum(b[..k] + b[k + 1..], c)
  {
    assert b == b[..k] + ([b[k]] + b[k + 1..]);
    ColumnSumAppend(b[..k], [b[k]] + b[k + 1..], c);
    assert ([b[k]] + b[k + 1..])[1..] == b[k + 1..];
    ColumnSumAppend(b[..k], b[k + 1..], c);
  }

  /** A column sum does not depend on the order of the rows. */
  lemma {:induction false} ColumnSumPermutation(a: seq<Row>, b: seq<Row>, c: Count)
    requires multiset(a) == multiset(b)
    ensures ColumnSum(a, c) == ColumnSum(b, c)
  {
    if |a| == 0 {
      assert |b| == |multiset(b)| == 0;
    } else {
      var x := a[0];
      assert x in multiset(b);
      var k :| 0 <= k < |b| && b[k] == x;
      var tail := a[1..];
      var rest := b[..k] + b[k + 1..];
      PermutationWithoutHead(a, b, k);
      ColumnSumPermutation(tail, rest, c);
      ColumnSumRemoveAt(b, k, c);
      assert ColumnSum(a, c) == Field(x, c) + ColumnSum(tail, c);
    }
  }

  /** Columns that agree on every row have equal sums. */
  lemma {:induction false} ColumnSumAgree(rows: seq<Row>, c: Count, d: Count)
    requires forall i :: 0 <= i < |rows| ==> Field(rows[i], c) == Field(rows[i], d)
    ensures ColumnSum(rows, c) == ColumnSum(rows, d)
  {
    if |rows| > 0 {
      assert forall i :: 0 <= i < |rows| - 1 ==> rows[1..][i] == rows[i + 1];
      ColumnSumAgree(rows[1..], c, d);
    }
  }

  /** A column that is zero on every row sums to zero. */
  lemma {:induction false} ColumnSumOfZeros(rows: seq<Row>, c: Count)
    requires forall i :: 0 <= i < |rows| ==> Field(rows[i], c) == 0
    ensures ColumnSum(rows, c) == 0
  {
    if |rows| > 0 {
      assert forall i :: 0 <= i < |rows| - 1 ==> rows[1..][i] == rows[i + 1];
      ColumnSumOfZeros(rows[1..], c);
    }
  }

  /** The distinct region values of the rows. */
  function Regions(rows: seq<Row>): (r: set<string>)
    ensures forall x :: x in r <==> exists i :: 0 <= i < |rows| && rows[i].region == x
  {
    if |rows| == 0 then {}
    else
      var rest := Regions(rows[1..]);
      assert forall i :: 0 < i < |rows| ==> rows[i] == rows[1..][i - 1];
      {rows[0].region} + rest
  }

  /** `df["region"].nunique()`: never more than the number of rows, exactly
      as many precisely when no region repeats, and at least one for a
      non-empty table. */
  function DistinctRegionCount(rows: seq<Row>): (n: nat)
    ensures n <= |rows|
    ensures n == |rows| <==> RegionsPairwiseDistinct(rows)
    ensures |rows| > 0 ==> n > 0
  {
    RegionSetBound(rows);
    assert |rows| > 0 ==> rows[0].region in Regions(rows);
    |Regions(rows)|
  }

  predicate RegionsPairwiseDistinct(rows: seq<Row>)
  {
    forall i, j :: 0 <= i < j < |rows| ==> rows[i].region != rows[j].region
  }

  /** Regions are pairwise distinct exactly when the first region does not
      recur and the remaining ones are pairwise distinct. */
  lemma PairwiseDistinctCons(rows: seq<Row>)
    requires |rows| > 0
    ensures RegionsPairwiseDistinct(rows) <==>
              rows[0].region !in Regions(rows[1..]) && RegionsPairwiseDistinct(rows[1..])
  {
    var rest := rows[1..];
    if rows[0].region in Regions(rest) {
      var j :| 0 <= j < |rest| && rest[j].region == rows[0].region;
      assert rows[j + 1].region == rows[0].region;
    } else if !RegionsPairwiseDistinct(rest) {
      var i, j :| 0 <= i < j < |rest| && rest[i].region == rest[j].region;
      assert rows[i + 1].region == rows[j + 1].region;
    } else {
      forall i, j | 0 <= i < j < |rows|
        ensures rows[i].region != rows[j].region
      {
        assert rest[j - 1] == rows[j];
        if i > 0 {
          assert rest[i - 1] == rows[i];
        }
      }
    }
  }

  /** There are never more distinct regions than rows, and exactly as many
      precisely when no region repeats. */
  lemma {:induction false} RegionSetBound(rows: seq<Row>)
    ensures |Regions(rows)| <= |rows|
    ensures |Regions(rows)| == |rows| <==> RegionsPairwiseDistinct(rows)
  {
    if |rows| > 0 {
      var rest := rows[1..];
      RegionSetBound(rest);
      PairwiseDistinctCons(rows);
      assert Regions(rows) == {rows[0].region} + Regions(rest);
      if rows[0].region !in Regions(rest) {
        assert |Regions(rows)| == 1 + |Regions(rest)|;
      }
    }
  }
}
