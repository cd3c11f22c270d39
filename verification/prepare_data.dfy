/** The preparation step: turning the raw list of primary schools (one line
    per school) into the aggregated education-access table (one line per
    region). */
module PrepareData {
  import opened Wrappers
  import opened Frames
  import opened Collation

  const RawPath := "data/primary_schools_2023.csv"
  const OutPath := "data/education_access_2023.csv"

  /** The raw file's region and school-name columns, before renaming. */
  const RawRegionColumn := "REGION"
  const RawNameColumn := "NOM_ETABL"

  /** Every aggregated row is stamped with this year. */
  const AggregateYear := 2023

  /** One school of the raw list. An empty cell reads as a missing value,
      modelled as `None`. */
  datatype RawRow = RawRow(region: Option<string>, schoolName: Option<string>)

  datatype RawFrame = RawFrame(columns: seq<string>, rows: seq<RawRow>)

  /** `RawFileNotFound` is the `FileNotFoundError`; `MissingRawColumns` is the
      `ValueError`, which reports the columns the file did have. */
  datatype EtlError = RawFileNotFound(path: string) | MissingRawColumns(got: seq<string>)

  /** The non-missing region values of the raw rows: the groups `groupby`
      forms (it drops rows whose key is missing). */
  function PresentRegions(rows: seq<RawRow>): (r: set<string>)
    ensures forall k :: k in r <==> exists i :: 0 <= i < |rows| && rows[i].region == Some(k)
  {
    if |rows| == 0 then {}
    else
      var rest := PresentRegions(rows[1..]);
      assert forall i :: 0 < i < |rows| ==> rows[i] == rows[1..][i - 1];
      (if rows[0].region.Some? then {rows[0].region.value} else {}) + rest
  }

  /** A row counts for its region when its school name is present:
      `("school_name", "count")` skips missing values. */
  predicate CountsFor(row: RawRow, k: string)
  {
    row.region == Some(k) && row.schoolName.Some?
  }

  predicate Counted(row: RawRow)
  {
    row.region.Some? && row.schoolName.Some?
  }

  /** The number of rows of region `k` with a school name: at most the
      number of rows, and positive exactly when some such row exists. */
  function CountIn(rows: seq<RawRow>, k: string): (n: nat)
    ensures n <= |rows|
    ensures n > 0 <==> exists i :: 0 <= i < |rows| && CountsFor(rows[i], k)
  {
    if |rows| == 0 then 0
    else
      assert forall i :: 0 < i < |rows| ==> rows[i] == rows[1..][i - 1];
      (if CountsFor(rows[0], k) then 1 else 0) + CountIn(rows[1..], k)
  }

  /** The number of rows that have both a region and a school name. */
  function CountedRows(rows: seq<RawRow>): nat
  {
    if |rows| == 0 then 0
    else (if Counted(rows[0]) then 1 else 0) + CountedRows(rows[1..])
  }

  /** The group keys in the order `groupby` emits them: each present region
      once, ascending. */
  function GroupKeys(rows: seq<RawRow>): (ks: seq<string>)
    ensures StrictlyAscending(ks)
    ensures forall k :: k in ks <==> k in PresentRegions(rows)
  {
    if |rows| == 0 then []
    else
      var rest := GroupKeys(rows[1..]);
      assert PresentRegions(rows) ==
        (if rows[0].region.Some? then {rows[0].region.value} else {}) + PresentRegions(rows[1..]);
      if rows[0].region.Some? then InsertKey(rows[0].region.value, rest) else rest
  }

  /** The aggregated line for region `k`: stamped 2023, every listed school
      public and none private. Its count is bounded by the raw list and is
      zero only when no school of `k` has a name. */
  function AggregateRow(rows: seq<RawRow>, k: string): (r: Row)
    ensures r.region == k && r.year == AggregateYear
    ensures r.publicSchools == r.totalSchools && r.privateSchools == 0
    ensures 0 <= r.totalSchools <= |rows|
    ensures r.totalSchools > 0 <==> exists i :: 0 <= i < |rows| && CountsFor(rows[i], k)
  {
    Row(k, AggregateYear, CountIn(rows, k), CountIn(rows, k), 0)
  }

  /** One aggregated line per key, in key order. */
  function AggregateRows(rows: seq<RawRow>, ks: seq<string>): (agg: seq<Row>)
    ensures |agg| == |ks|
    ensures forall i :: 0 <= i < |ks| ==> agg[i] == AggregateRow(rows, ks[i])
  {
    if |ks| == 0 then []
    else [AggregateRow(rows, ks[0])] + AggregateRows(rows, ks[1..])
  }

  /** The whole preparation step. The existence of the raw file is a
      parameter; writing the output file is left out. */
  function BuildEducationAccess2023(rawFileExists: bool, raw: RawFrame): (r: Result<Frame, EtlError>)
    ensures r.Success? <==> rawFileExists && RawRegionColumn in raw.columns && RawNameColumn in raw.columns
    ensures !rawFileExists ==> r == Failure(RawFileNotFound(RawPath))
    ensures rawFileExists && r.Failure? ==> r == Failure(MissingRawColumns(raw.columns))
    ensures r.Success? ==> r.value.columns == AggregateColumns
    ensures r.Success? ==> StrictlyAscendingRegions(r.value.rows)
    ensures r.Success? ==> forall i :: 0 <= i < |r.value.rows| ==>
              var row := r.value.rows[i];
              row.region in PresentRegions(raw.rows) && row.year == AggregateYear &&
              row.totalSchools == CountIn(raw.rows, row.region) &&
              row.publicSchools == row.totalSchools && row.privateSchools == 0
    ensures r.Success? ==> forall k :: k in PresentRegions(raw.rows) ==> k in Regions(r.value.rows)
  {
    if !rawFileExists then Failure(RawFileNotFound(RawPath))
    else if RawRegionColumn !in raw.columns || RawNameColumn !in raw.columns then
      Failure(MissingRawColumns(raw.columns))
    else
      var ks := GroupKeys(raw.rows);
      var agg := AggregateRows(raw.rows, ks);
      forall k | k in PresentRegions(raw.rows)
        ensures k in Regions(agg)
      {
        var i :| 0 <= i < |ks| && ks[i] == k;
        assert agg[i].region == k;
      }
      Success(Frame(AggregateColumns, agg))
  }

  predicate StrictlyAscendingRegions(rows: seq<Row>)
  {
    forall i, j :: 0 <= i < j < |rows| ==> Less(rows[i].region, rows[j].region)
  }

  /** No region appears on two lines of the aggregated table. */
  lemma PreparedRegionsDistinct(rawFileExists: bool, raw: RawFrame)
    requires BuildEducationAccess2023(rawFileExists, raw).Success?
    ensures RegionsPairwiseDistinct(BuildEducationAccess2023(rawFileExists, raw).value.rows)
  {
    var agg := BuildEducationAccess2023(rawFileExists, raw).value.rows;
    forall i, j | 0 <= i < j < |agg|
      ensures agg[i].region != agg[j].region
    {
      LessIrreflexive(agg[i].region);
    }
  }

  /** The aggregated table names exactly the regions present in the raw
      list: none left out, none invented. */
  lemma PreparedRegionsExact(rawFileExists: bool, raw: RawFrame)
    requires BuildEducationAccess2023(rawFileExists, raw).Success?
    ensures Regions(BuildEducationAccess2023(rawFileExists, raw).value.rows) == PresentRegions(raw.rows)
  {
    var agg := BuildEducationAccess2023(rawFileExists, raw).value.rows;
    forall k | k in Regions(agg)
      ensures k in PresentRegions(raw.rows)
    {
      var i :| 0 <= i < |agg| && agg[i].region == k;
    }
  }

  /** The aggregated table has one line per region present in the raw list. */
  lemma OneRowPerRegion(rawFileExists: bool, raw: RawFrame)
    requires BuildEducationAccess2023(rawFileExists, raw).Success?
    ensures |BuildEducationAccess2023(rawFileExists, raw).value.rows| == |PresentRegions(raw.rows)|
  {
    var agg := BuildEducationAccess2023(rawFileExists, raw).value.rows;
    PreparedRegionsDistinct(rawFileExists, raw);
    PreparedRegionsExact(rawFileExists, raw);
    assert DistinctRegionCount(agg) == |Regions(agg)|;
  }

  /** Adding up `CountIn` over distinct keys counts each raw row once if its
      region is among the keys. */
  lemma {:induction false} SumOverKeysStep(x: RawRow, rest: seq<RawRow>, ks: seq<string>)
    requires forall i, j :: 0 <= i < j < |ks| ==> ks[i] != ks[j]
    ensures ColumnSum(AggregateRows([x] + rest, ks), TotalSchools) ==
            (if Counted(x) && x.region.value in ks then 1 else 0) +
            ColumnSum(AggregateRows(rest, ks), TotalSchools)
  {
    if |ks| > 0 {
      var rows := [x] + rest;
      SumOverKeysStep(x, rest, ks[1..]);
      CountInCons(x, rest, ks[0]);
      KeyInTail(x, ks);
      SumOverKeysCons(rows, ks);
      SumOverKeysCons(rest, ks);
    }
  }

  lemma CountInCons(x: RawRow, rest: seq<RawRow>, k: string)
    ensures CountIn([x] + rest, k) == (if CountsFor(x, k) then 1 else 0) + CountIn(rest, k)
  {
    assert ([x] + rest)[1..] == rest;
  }

  /** The first key's count plus the sum over the remaining keys. */
  lemma SumOverKeysCons(rows: seq<RawRow>, ks: seq<string>)
    requires |ks| > 0
    ensures ColumnSum(AggregateRows(rows, ks), TotalSchools) ==
            CountIn(rows, ks[0]) + ColumnSum(AggregateRows(rows, ks[1..]), TotalSchools)
  {
    assert AggregateRows(rows, ks)[1..] == AggregateRows(rows, ks[1..]);
  }

  /** With distinct keys, a region is among them when it is the first key
      or, exclusively, among the rest. */
  lemma KeyInTail(x: RawRow, ks: seq<string>)
    requires |ks| > 0
    requires forall i, j :: 0 <= i < j < |ks| ==> ks[i] != ks[j]
    ensures forall i, j :: 0 <= i < j < |ks[1..]| ==> ks[1..][i] != ks[1..][j]
    ensures (if Counted(x) && x.region.value in ks then 1 else 0) ==
            (if CountsFor(x, ks[0]) then 1 else 0) +
            (if Counted(x) && x.region.value in ks[1..] then 1 else 0)
  {
    assert ks == [ks[0]] + ks[1..];
  }

  /** With every present region among the (distinct) keys, the per-key
      counts add up to the number of rows having a region and a name. */
  lemma {:induction false} SumOverKeys(rows: seq<RawRow>, ks: seq<string>)
    requires forall i, j :: 0 <= i < j < |ks| ==> ks[i] != ks[j]
    requires forall k :: k in PresentRegions(rows) ==> k in ks
    ensures ColumnSum(AggregateRows(rows, ks), TotalSchools) == CountedRows(rows)
  {
    if |rows| == 0 {
      ZeroCounts(ks);
    } else {
      var x := rows[0];
      var rest := rows[1..];
      assert rows == [x] + rest;
      SumOverKeysStep(x, rest, ks);
      SumOverKeys(rest, ks);
    }
  }

  /** Over no raw rows every per-key count is zero. */
  lemma {:induction false} ZeroCounts(ks: seq<string>)
    ensures ColumnSum(AggregateRows([], ks), TotalSchools) == 0
  {
    if |ks| > 0 {
      ZeroCounts(ks[1..]);
      assert AggregateRows([], ks)[1..] == AggregateRows([], ks[1..]);
    }
  }

  /** No school is lost or counted twice: the aggregated totals add up to
      the number of raw rows that have both a region and a school name. */
  lemma TotalsAddUp(rawFileExists: bool, raw: RawFrame)
    requires BuildEducationAccess2023(rawFileExists, raw).Success?
    ensures ColumnSum(BuildEducationAccess2023(rawFileExists, raw).value.rows, TotalSchools) ==
            CountedRows(raw.rows)
  {
    var ks := GroupKeys(raw.rows);
    forall i, j | 0 <= i < j < |ks|
      ensures ks[i] != ks[j]
    {
      AscendingIsDistinct(ks, i, j);
    }
    SumOverKeys(raw.rows, ks);
  }
}
