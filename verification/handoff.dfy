/** How the two scripts meet: the preparation step writes the file the
    narrator reads, so what the narrator reports can be stated in terms of
    the raw list of schools. */
module Handoff {
  import opened Wrappers
  import opened Frames
  import opened PrepareData
  import opened Pipeline

  /** The prepared table is written where the loader looks and passes the
      loader's column check unchanged. */
  lemma PreparedTableLoads(rawFileExists: bool, raw: RawFrame)
    requires BuildEducationAccess2023(rawFileExists, raw).Success?
    ensures OutPath == DataPath
    ensures var out := BuildEducationAccess2023(rawFileExists, raw).value;
      LoadEducationData(true, out) == Success(out)
  {
    AggregateColumnsComplete();
  }

  /** Every row is of the given year, all public and none private: the
      shape of a prepared table. */
  predicate AllPublic(rows: seq<Row>, year: int)
  {
    forall i :: 0 <= i < |rows| ==>
      rows[i].year == year && rows[i].publicSchools == rows[i].totalSchools && rows[i].privateSchools == 0
  }

  /** The digest of a non-empty, all-public table of one year. */
  lemma DigestOfAllPublic(frame: Frame, year: int)
    requires RequiredColumns <= ColumnSet(frame.columns)
    requires |frame.rows| > 0 && AllPublic(frame.rows, year)
    ensures Summarise(frame).Success?
    ensures var d := Summarise(frame).value;
      && d.year == year
      && d.totalSchools == ColumnSum(frame.rows, TotalSchools)
      && d.totalPublic == d.totalSchools
      && d.totalPrivate == 0
      && d.regionCount == DistinctRegionCount(frame.rows)
  {
    LoadedTableSummarises(frame);
    assert YearColumn in ColumnSet(frame.columns);
    ColumnSumAgree(frame.rows, PublicSchools, TotalSchools);
    ColumnSumOfZeros(frame.rows, PrivateSchools);
  }

  /** What the narrator reports about a prepared table: year 2023, every
      counted school public, none private, one region per raw region. */
  lemma PreparedTableDigest(rawFileExists: bool, raw: RawFrame)
    requires BuildEducationAccess2023(rawFileExists, raw).Success?
    requires PresentRegions(raw.rows) != {}
    ensures var out := BuildEducationAccess2023(rawFileExists, raw).value;
      Summarise(out).Success? &&
      var d := Summarise(out).value;
      && d.year == AggregateYear
      && d.totalSchools == CountedRows(raw.rows)
      && d.totalPublic == d.totalSchools
      && d.totalPrivate == 0
      && d.regionCount == |PresentRegions(raw.rows)|
  {
    var out := BuildEducationAccess2023(rawFileExists, raw).value;
    OneRowPerRegion(rawFileExists, raw);
    PreparedRegionsExact(rawFileExists, raw);
    TotalsAddUp(rawFileExists, raw);
    AggregateColumnsComplete();
    assert AllPublic(out.rows, AggregateYear);
    DigestOfAllPublic(out, AggregateYear);
  }

  /** A raw list in which no school has a region yields an empty table, on
      which the narrator fails at the first row. */
  lemma PreparedTableWithoutRegions(rawFileExists: bool, raw: RawFrame, persona: string)
    requires BuildEducationAccess2023(rawFileExists, raw).Success?
    requires PresentRegions(raw.rows) == {}
    ensures var out := BuildEducationAccess2023(rawFileExists, raw).value;
      |out.rows| == 0 && GenerateScriptStub(persona, true, out) == Failure(NoFirstRow)
  {
    var out := BuildEducationAccess2023(rawFileExists, raw).value;
    OneRowPerRegion(rawFileExists, raw);
    AggregateColumnsComplete();
    LoadedTableSummarises(out);
  }
}
