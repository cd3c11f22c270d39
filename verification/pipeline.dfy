/** pipeline.py: loading the aggregated table, condensing it into a digest,
    rendering the digest as a paragraph, and wrapping that paragraph into the
    narration script. The file system is a parameter (`dataFileExists` and the
    table already parsed); everything else is pure. */
module Pipeline {
  import opened Wrappers
  import opened Text
  import opened Frames
  import opened Ordering

  const DataPath := "data/education_access_2023.csv"

  /** The exceptions that escape pipeline.py. */
  datatype PipelineError =
    | DataFileNotFound(path: string)      // FileNotFoundError from the loader
    | MissingColumns(missing: set<string>) // ValueError from the loader's column check
    | NoFirstRow                          // IndexError from `iloc[0]` on an empty table
    | ColumnNotFound(column: string)      // KeyError from `df[column]`

  // ---------------------------------------------------------------- loading

  /** `load_education_data`: the table is accepted when the file exists and
      every required column is present; extra columns are allowed. */
  function LoadEducationData(dataFileExists: bool, frame: Frame): (r: Result<Frame, PipelineError>)
    ensures r.Success? <==> dataFileExists && RequiredColumns <= ColumnSet(frame.columns)
    ensures r.Success? ==> r.value == frame
    ensures !dataFileExists ==> r == Failure(DataFileNotFound(DataPath))
    ensures dataFileExists && r.Failure? ==>
              && r.error.MissingColumns?
              && r.error.missing != {}
              && forall c :: c in r.error.missing <==> c in RequiredColumns && c !in frame.columns
  {
    if !dataFileExists then Failure(DataFileNotFound(DataPath))
    else
      var missing := RequiredColumns - ColumnSet(frame.columns);
      if missing != {} then Failure(MissingColumns(missing))
      else
        assert forall c :: c in RequiredColumns ==> c !in missing;
        Success(frame)
  }

  /** Adding columns to a table never makes the loader reject it, and never
      adds to the reported missing set. */
  lemma ExtraColumnsTolerated(dataFileExists: bool, columns: seq<string>, extra: seq<string>, rows: seq<Row>)
    ensures LoadEducationData(dataFileExists, Frame(columns, rows)).Success? ==>
              LoadEducationData(dataFileExists, Frame(columns + extra, rows)) == Success(Frame(columns + extra, rows))
    ensures RequiredColumns - ColumnSet(columns + extra) <= RequiredColumns - ColumnSet(columns)
  {
    assert ColumnSet(columns) <= ColumnSet(columns + extra);
  }

  // ----------------------------------------------------------------- digest

  /** One `[region, total_schools]` pair of the top/bottom lists. */
  datatype RegionTotal = RegionTotal(region: string, schools: int)

  /** The values `summarise_for_llm` computes before it writes any text. */
  datatype Digest = Digest(
    year: int,
    totalSchools: int,
    totalPublic: int,
    totalPrivate: int,
    regionCount: nat,
    topRegions: seq<RegionTotal>,
    bottomRegions: seq<RegionTotal>)

  /** The year reported when the table has no `year` column. */
  const FallbackYear := 2023

  /** How many regions `head` and `tail` keep. */
  const ListedRegions := 3

  /** The columns `summarise_for_llm` reads, in the order it reads them. */
  const SummarisedColumns: seq<string> := [TotalColumn, PublicColumn, PrivateColumn, RegionColumn]

  function Min(a: int, b: int): int
  {
    if a <= b then a else b
  }

  /** `[["region", "total_schools"]].values.tolist()`. */
  function RegionTotals(s: seq<Row>): (r: seq<RegionTotal>)
    ensures |r| == |s|
    ensures forall i :: 0 <= i < |s| ==> r[i] == RegionTotal(s[i].region, s[i].totalSchools)
  {
    seq(|s|, i requires 0 <= i < |s| => RegionTotal(s[i].region, s[i].totalSchools))
  }

  function Schools(es: seq<RegionTotal>): (t: seq<int>)
    ensures |t| == |es|
    ensures forall i :: 0 <= i < |es| ==> t[i] == es[i].schools
  {
    seq(|es|, i requires 0 <= i < |es| => es[i].schools)
  }

  /** The two `[region, total_schools]` lists of `summarise_for_llm`. */
  datatype Ranking = Ranking(top: seq<RegionTotal>, bottom: seq<RegionTotal>)

  /** `df.sort_values("total_schools", ascending=False)` followed by `head(3)`
      and `tail(3)`: a prefix and a suffix of one descending arrangement. */
  function RankRegions(rows: seq<Row>): (r: Ranking)
    ensures |r.top| == Min(ListedRegions, |rows|) && |r.bottom| == Min(ListedRegions, |rows|)
    ensures exists p :: IsDescendingArrangement(p, rows)
              && r.top == RegionTotals(p[..Min(ListedRegions, |rows|)])
              && r.bottom == RegionTotals(p[|rows| - Min(ListedRegions, |rows|)..])
  {
    var sorted := SortDescending(rows);
    var k := Min(ListedRegions, |rows|);
    Ranking(RegionTotals(sorted[..k]), RegionTotals(sorted[|rows| - k..]))
  }

  lemma SchoolsOfRegionTotals(s: seq<Row>)
    ensures Schools(RegionTotals(s)) == Totals(s)
  {
  }

  /** The numbers in the two lists are the first and last `total_schools` of
      EVERY descending arrangement of the rows: tie order can change which
      regions are named, never which counts appear. */
  lemma RankingIndependentOfTies(rows: seq<Row>, p: seq<Row>)
    requires IsDescendingArrangement(p, rows)
    ensures Schools(RankRegions(rows).top) == Totals(p)[..Min(ListedRegions, |rows|)]
    ensures Schools(RankRegions(rows).bottom) == Totals(p)[|rows| - Min(ListedRegions, |rows|)..]
  {
    var r := RankRegions(rows);
    var n := |rows|;
    var k := Min(ListedRegions, n);
    var q: seq<Row> :| IsDescendingArrangement(q, rows)
             && r.top == RegionTotals(q[..k])
             && r.bottom == RegionTotals(q[n - k..]);
    DescendingArrangementsAgreeOnTotals(p, q, rows);
    SchoolsOfRegionTotals(q[..k]);
    SchoolsOfRegionTotals(q[n - k..]);
    TotalsOfSlice(q, 0, k);
    TotalsOfSlice(q, n - k, n);
    assert q[..k] == q[0..k] && q[n - k..] == q[n - k..n];
    assert Totals(q)[..k] == Totals(q)[0..k] && Totals(q)[n - k..] == Totals(q)[n - k..n];
  }

  /** Both lists are non-increasing; the first count of the top list is the
      largest of the table and the last count of the bottom list the
      smallest. */
  lemma RankingBracketsTable(rows: seq<Row>)
    ensures var r := RankRegions(rows);
            && NonIncreasingInts(Schools(r.top))
            && NonIncreasingInts(Schools(r.bottom))
            && (|rows| > 0 ==> forall i :: 0 <= i < |rows| ==>
                  r.bottom[|r.bottom| - 1].schools <= rows[i].totalSchools <= r.top[0].schools)
  {
    var r := RankRegions(rows);
    var n := |rows|;
    var k := Min(ListedRegions, n);
    var q: seq<Row> :| IsDescendingArrangement(q, rows)
             && r.top == RegionTotals(q[..k])
             && r.bottom == RegionTotals(q[n - k..]);
    SliceRankedNonIncreasing(q, 0, k);
    SliceRankedNonIncreasing(q, n - k, n);
    assert q[..k] == q[0..k] && q[n - k..] == q[n - k..n];
    if n > 0 {
      assert r.top[0].schools == q[0].totalSchools;
      assert r.bottom[k - 1].schools == q[n - 1].totalSchools;
      ArrangementBracketsAll(q, rows);
    }
  }

  /** A slice of a non-increasing arrangement lists non-increasing counts. */
  lemma SliceRankedNonIncreasing(q: seq<Row>, lo: nat, hi: nat)
    requires NonIncreasing(q) && lo <= hi <= |q|
    ensures NonIncreasingInts(Schools(RegionTotals(q[lo..hi])))
  {
    var t := Schools(RegionTotals(q[lo..hi]));
    forall i, j | 0 <= i < j < |t|
      ensures t[i] >= t[j]
    {
      assert t[i] == q[lo + i].totalSchools && t[j] == q[lo + j].totalSchools;
    }
  }

  /** Every row lies between the last and the first total of a descending
      arrangement. */
  lemma ArrangementBracketsAll(p: seq<Row>, rows: seq<Row>)
    requires IsDescendingArrangement(p, rows) && |rows| > 0
    ensures |p| == |rows|
    ensures forall i :: 0 <= i < |rows| ==>
              p[|p| - 1].totalSchools <= rows[i].totalSchools <= p[0].totalSchools
  {
    forall i | 0 <= i < |rows|
      ensures p[|p| - 1].totalSchools <= rows[i].totalSchools <= p[0].totalSchools
    {
      ArrangementBrackets(p, rows, i);
    }
  }

  /** With fewer than six rows the lists share rows: the first entry of the
      bottom list also stands in the top list. Nothing is deduplicated. */
  lemma RankingListsOverlap(rows: seq<Row>)
    requires 0 < |rows| < 2 * ListedRegions
    ensures var r := RankRegions(rows);
            var k := Min(ListedRegions, |rows|);
            |rows| - k < k && r.bottom[0] == r.top[|rows| - k]
  {
    var r := RankRegions(rows);
    var k := Min(ListedRegions, |rows|);
    var q: seq<Row> :| IsDescendingArrangement(q, rows)
             && r.top == RegionTotals(q[..k])
             && r.bottom == RegionTotals(q[|rows| - k..]);
    assert r.bottom[0] == RegionTotal(q[|rows| - k].region, q[|rows| - k].totalSchools);
  }

  /** The computational part of `summarise_for_llm`. An empty table with a
      `year` column fails on `iloc[0]` before any column is summed; a table
      without one reports the fallback year and may be empty. */
  function Summarise(frame: Frame): (r: Result<Digest, PipelineError>)
    ensures r.Success? <==>
              && (YearColumn in frame.columns ==> |frame.rows| > 0)
              && forall c :: c in SummarisedColumns ==> c in frame.columns
    ensures r == Failure(NoFirstRow) <==> YearColumn in frame.columns && |frame.rows| == 0
    ensures r.Failure? && r != Failure(NoFirstRow) ==>
              exists i :: 0 <= i < |SummarisedColumns|
                && r.error == ColumnNotFound(SummarisedColumns[i])
                && SummarisedColumns[i] !in frame.columns
                && forall j :: 0 <= j < i ==> SummarisedColumns[j] in frame.columns
    ensures r.Success? ==>
              var d := r.value;
              var rows := frame.rows;
              && d.year == (if YearColumn in frame.columns then rows[0].year else FallbackYear)
              && d.totalSchools == ColumnSum(rows, TotalSchools)
              && d.totalPublic == ColumnSum(rows, PublicSchools)
              && d.totalPrivate == ColumnSum(rows, PrivateSchools)
              && d.regionCount == DistinctRegionCount(rows)
              && Ranking(d.topRegions, d.bottomRegions) == RankRegions(rows)
  {
    var cols := frame.columns;
    var rows := frame.rows;
    if YearColumn in cols && |rows| == 0 then Failure(NoFirstRow)
    else if TotalColumn !in cols then
      assert SummarisedColumns[0] == TotalColumn;
      Failure(ColumnNotFound(TotalColumn))
    else if PublicColumn !in cols then
      assert SummarisedColumns[1] == PublicColumn;
      Failure(ColumnNotFound(PublicColumn))
    else if PrivateColumn !in cols then
      assert SummarisedColumns[2] == PrivateColumn;
      Failure(ColumnNotFound(PrivateColumn))
    else if RegionColumn !in cols then
      assert SummarisedColumns[3] == RegionColumn;
      Failure(ColumnNotFound(RegionColumn))
    else
      var ranking := RankRegions(rows);
      Success(Digest(
        if YearColumn in cols then rows[0].year else FallbackYear,
        ColumnSum(rows, TotalSchools),
        ColumnSum(rows, PublicSchools),
        ColumnSum(rows, PrivateSchools),
        DistinctRegionCount(rows),
        ranking.top,
        ranking.bottom))
  }

  /** The digest's totals are the same whichever order the rows come in. */
  lemma DigestTotalsIgnoreRowOrder(frame: Frame, other: seq<Row>)
    requires Summarise(frame).Success?
    requires multiset(other) == multiset(frame.rows)
    ensures Summarise(frame).value.totalSchools == ColumnSum(other, TotalSchools)
    ensures Summarise(frame).value.totalPublic == ColumnSum(other, PublicSchools)
    ensures Summarise(frame).value.totalPrivate == ColumnSum(other, PrivateSchools)
  {
    ColumnSumPermutation(frame.rows, other, TotalSchools);
    ColumnSumPermutation(frame.rows, other, PublicSchools);
    ColumnSumPermutation(frame.rows, other, PrivateSchools);
  }

  // ------------------------------------------------------------- rendering

  const SchoolsTail := " schools)"

  /** `f"{r} ({int(n)} schools)"`: the entry starts with the region's name,
      and the count follows it, after " (", in decimal. */
  function EntryText(e: RegionTotal): (r: string)
    ensures |e.region| + 2 + |IntToDecimal(e.schools)| <= |r|
    ensures r[..|e.region|] == e.region
    ensures r[|e.region|..|e.region| + 2] == " ("
    ensures r[|e.region| + 2..|e.region| + 2 + |IntToDecimal(e.schools)|] == IntToDecimal(e.schools)
    ensures |r| == |e.region| + 2 + |IntToDecimal(e.schools)| + |SchoolsTail|
    ensures r[|r| - |SchoolsTail|..] == SchoolsTail
  {
    ConcatParts(e.region + " (", IntToDecimal(e.schools), SchoolsTail);
    ConcatParts(e.region, " (", IntToDecimal(e.schools) + SchoolsTail);
    e.region + " (" + IntToDecimal(e.schools) + SchoolsTail
  }

  function EntryTexts(es: seq<RegionTotal>): (ts: seq<string>)
    ensures |ts| == |es|
    ensures forall i :: 0 <= i < |es| ==> ts[i] == EntryText(es[i])
  {
    seq(|es|, i requires 0 <= i < |es| => EntryText(es[i]))
  }

  /** The entries joined with `"; "`. */
  function EntryList(es: seq<RegionTotal>): string
  {
    Join("; ", EntryTexts(es))
  }

  /** Each entry of the list is written out, unaltered, at its place in the
      joined text. */
  lemma EntryListPlacesEntries(es: seq<RegionTotal>, i: nat)
    requires i < |es|
    ensures var o := JoinOffset("; ", EntryTexts(es), i);
            && o + |EntryText(es[i])| <= |EntryList(es)|
            && EntryList(es)[o..o + |EntryText(es[i])|] == EntryText(es[i])
  {
    var ts := EntryTexts(es);
    var t := EntryText(es[i]);
    JoinPlacesEachPart("; ", ts, i);
    assert ts[i] == t;
    assert EntryList(es) == Join("; ", ts);
  }

  /** "; " stands between consecutive entries. */
  lemma EntryListSeparatesEntries(es: seq<RegionTotal>, i: nat)
    requires i + 1 < |es|
    ensures var o := JoinOffset("; ", EntryTexts(es), i) + |EntryText(es[i])|;
            && o + 2 <= |EntryList(es)|
            && EntryList(es)[o..o + 2] == "; "
  {
    var ts := EntryTexts(es);
    var t := EntryText(es[i]);
    JoinSeparatesParts("; ", ts, i);
    assert ts[i] == t;
    assert EntryList(es) == Join("; ", ts);
  }

  /** The sentences `summarise_for_llm` can write. */
  datatype Sentence =
    | Opening(year: int)
    | SchoolCount(schools: int, regions: int)
    | Ownership(publicSchools: int, privateSchools: int)
    | Highest(entries: seq<RegionTotal>)
    | Fewest(entries: seq<RegionTotal>)
    | Closing

  const OpeningLead := "Education access in Morocco in "
  const ClosingSentence := "This data highlights regional inequalities in access to education infrastructure across Morocco."

  /** Every sentence is non-empty and ends with a full stop. */
  function Render(s: Sentence): (r: string)
    ensures |r| > 0 && r[|r| - 1] == '.'
  {
    match s
    case Opening(year) => OpeningLead + IntToDecimal(year) + "."
    case SchoolCount(schools, regions) =>
      CountLead + IntToDecimal(schools) + CountMiddle + IntToDecimal(regions) + " regions."
    case Ownership(pub, priv) =>
      OwnershipLead + IntToDecimal(pub) + OwnershipMiddle + IntToDecimal(priv) + " are private (in this dataset)."
    case Highest(es) => "Regions with the highest number of schools: " + EntryList(es) + "."
    case Fewest(es) => "Regions with the fewest schools: " + EntryList(es) + "."
    case Closing => ClosingSentence
  }

  /** The `lines` list of `summarise_for_llm`, before rendering. */
  function SummarySentences(d: Digest): seq<Sentence>
  {
    [Opening(d.year), SchoolCount(d.totalSchools, d.regionCount), Ownership(d.totalPublic, d.totalPrivate)]
    + (if |d.topRegions| > 0 then [Highest(d.topRegions)] else [])
    + (if |d.bottomRegions| > 0 then [Fewest(d.bottomRegions)] else [])
    + [Closing]
  }

  function SummaryLines(d: Digest): (lines: seq<string>)
    ensures |lines| == |SummarySentences(d)|
    ensures forall i :: 0 <= i < |lines| ==> lines[i] == Render(SummarySentences(d)[i])
  {
    var ss := SummarySentences(d);
    seq(|ss|, i requires 0 <= i < |ss| => Render(ss[i]))
  }

  /** `" ".join(lines)`: the paragraph opens with the sentence naming the
      year and ends with the fixed closing sentence. */
  function SummaryText(d: Digest): (r: string)
    ensures Render(Opening(d.year)) <= r
    ensures |ClosingSentence| <= |r| && r[|r| - |ClosingSentence|..] == ClosingSentence
  {
    var lines := SummaryLines(d);
    SummarySentencesShape(d);
    JoinFramedByEnds(" ", lines);
    Join(" ", lines)
  }

  /** The paragraph has its three opening sentences and the closing one in
      fixed positions, and carries a "highest" (resp. "fewest") sentence
      exactly when the top (resp. bottom) list is non-empty; that sentence
      lists exactly the digest's entries. */
  lemma SummarySentencesShape(d: Digest)
    ensures var ss := SummarySentences(d);
            && |ss| == 4 + (if |d.topRegions| > 0 then 1 else 0) + (if |d.bottomRegions| > 0 then 1 else 0)
            && ss[0] == Opening(d.year)
            && ss[1] == SchoolCount(d.totalSchools, d.regionCount)
            && ss[2] == Ownership(d.totalPublic, d.totalPrivate)
            && ss[|ss| - 1] == Closing
            && (|d.topRegions| > 0 ==> ss[3] == Highest(d.topRegions))
            && (|d.bottomRegions| > 0 ==> ss[|ss| - 2] == Fewest(d.bottomRegions))
            && ((exists i :: 0 <= i < |ss| && ss[i].Highest?) <==> |d.topRegions| > 0)
            && ((exists i :: 0 <= i < |ss| && ss[i].Fewest?) <==> |d.bottomRegions| > 0)
            && (forall i :: 0 <= i < |ss| && ss[i].Highest? ==> ss[i].entries == d.topRegions)
            && (forall i :: 0 <= i < |ss| && ss[i].Fewest? ==> ss[i].entries == d.bottomRegions)
  {
    var ss := SummarySentences(d);
    if |d.topRegions| > 0 {
      assert ss[3].Highest?;
    }
    if |d.bottomRegions| > 0 {
      assert ss[|ss| - 2].Fewest?;
    }
  }

  /** The digits that follow the opening words read back as the digest's
      year. */
  lemma SummaryYearReadsBack(d: Digest)
    ensures var y := IntToDecimal(d.year);
            && |OpeningLead| + |y| <= |SummaryText(d)|
            && SummaryText(d)[|OpeningLead|..|OpeningLead| + |y|] == y
            && ParseInt(SummaryText(d)[|OpeningLead|..|OpeningLead| + |y|]) == d.year
  {
    var text := SummaryText(d);
    var opening := Render(Opening(d.year));
    var y := IntToDecimal(d.year);
    assert text[..|opening|] == opening;
    ConcatParts(OpeningLead, y, ".");
    assert text[|OpeningLead|..|OpeningLead| + |y|] == opening[|OpeningLead|..|OpeningLead| + |y|];
    DecimalRoundTrip(d.year);
  }

  const CountLead := "There are "
  const CountMiddle := " schools across "

  /** The count sentence carries the number of schools right after its first
      words and the number of regions after " schools across ", and each
      reads back as the digest's value. */
  lemma SchoolCountReadsBack(schools: int, regions: int)
    ensures var r := Render(SchoolCount(schools, regions));
            var s := IntToDecimal(schools);
            var n := IntToDecimal(regions);
            var o := |CountLead| + |s| + |CountMiddle|;
            && o + |n| <= |r|
            && r[|CountLead|..|CountLead| + |s|] == s
            && r[|CountLead| + |s|..o] == CountMiddle
            && r[o..o + |n|] == n
            && ParseInt(r[|CountLead|..|CountLead| + |s|]) == schools
            && ParseInt(r[o..o + |n|]) == regions
  {
    var s := IntToDecimal(schools);
    var n := IntToDecimal(regions);
    var r := Render(SchoolCount(schools, regions));
    assert r == CountLead + s + CountMiddle + n + " regions.";
    DecimalRoundTrip(schools);
    DecimalRoundTrip(regions);
  }

  const OwnershipLead := "Of these, "
  const OwnershipMiddle := " are public and "

  /** The ownership sentence carries the public count right after its first
      words and the private count after " are public and ", and each reads
      back as the digest's value. */
  lemma OwnershipReadsBack(pub: int, priv: int)
    ensures var r := Render(Ownership(pub, priv));
            var p := IntToDecimal(pub);
            var q := IntToDecimal(priv);
            var o := |OwnershipLead| + |p| + |OwnershipMiddle|;
            && o + |q| <= |r|
            && r[|OwnershipLead|..|OwnershipLead| + |p|] == p
            && r[|OwnershipLead| + |p|..o] == OwnershipMiddle
            && r[o..o + |q|] == q
            && ParseInt(r[|OwnershipLead|..|OwnershipLead| + |p|]) == pub
            && ParseInt(r[o..o + |q|]) == priv
  {
    var p := IntToDecimal(pub);
    var q := IntToDecimal(priv);
    var r := Render(Ownership(pub, priv));
    assert r == OwnershipLead + p + OwnershipMiddle + q + " are private (in this dataset).";
    DecimalRoundTrip(pub);
    DecimalRoundTrip(priv);
  }

  /** `summarise_for_llm`: the digest rendered as one paragraph. */
  function SummariseForLlm(frame: Frame): (r: Result<string, PipelineError>)
    ensures r.Success? <==> Summarise(frame).Success?
    ensures r.Failure? ==> r.error == Summarise(frame).error
    ensures r.Success? ==> r.value == SummaryText(Summarise(frame).value)
  {
    var digest := Summarise(frame);
    if digest.Failure? then Failure(digest.error)
    else Success(SummaryText(digest.value))
  }

  // ---------------------------------------------------------------- script

  const InvestorIntro := "This story is tailored for investors interested in regional opportunities in Morocco. "
  const CitizenIntro := "This story is tailored for citizens and students who want to understand education access in Morocco. "
  const OverviewLead := "Based on official school data, here is a simple overview: "
  const ScriptClosing := "In the full version of this system, this narration would be turned into audio and a short explainer video."

  /** `persona.lower() == "investor"`. */
  predicate IsInvestor(persona: string)
  {
    Lower(persona) == "investor"
  }

  /** A persona selects the investor framing exactly when it spells
      "investor" with each letter in either case. */
  lemma InvestorSpelling(persona: string)
    ensures IsInvestor(persona) <==>
              |persona| == 8 && forall i :: 0 <= i < 8 ==> persona[i] == "investor"[i] || persona[i] == "INVESTOR"[i]
  {
    LowerMatchesWord(persona, "investor");
    forall i | 0 <= i < 8
      ensures UpperChar("investor"[i]) == "INVESTOR"[i]
    {
    }
  }

  /** The two audiences the script can be framed for. */
  datatype Audience = Citizen | Investor

  /** The branch on `persona.lower()`: anything but "investor" (in any letter
      case) gets the citizen framing. */
  function AudienceOf(persona: string): (a: Audience)
    ensures a == Investor <==> IsInvestor(persona)
  {
    if IsInvestor(persona) then Investor else Citizen
  }

  function Intro(a: Audience): string
  {
    match a
    case Investor => InvestorIntro
    case Citizen => CitizenIntro
  }

  /** The script text: framing, lead-in, the paragraph, one space, and the
      fixed closing sentence. */
  function ScriptFromSummary(a: Audience, summary: string): (r: string)
    ensures |r| == |Intro(a)| + |OverviewLead| + |summary| + 1 + |ScriptClosing|
    ensures r[..|Intro(a)|] == Intro(a)
    ensures var o := |Intro(a)| + |OverviewLead|;
            r[o..o + |summary|] == summary
    ensures r[|r| - |ScriptClosing|..] == ScriptClosing
  {
    FramedText(Intro(a), OverviewLead, summary, ScriptClosing)
  }

  /** The lead-in follows the framing, and one space separates the paragraph
      from the closing sentence. */
  lemma ScriptCarriesLeadIn(a: Audience, summary: string)
    ensures var r := ScriptFromSummary(a, summary);
            var o := |Intro(a)| + |OverviewLead|;
            && r[|Intro(a)|..o] == OverviewLead
            && r[o + |summary|] == ' '
  {
  }

  /** A table the loader accepted can be summarised exactly when it has a
      row: every column the digest reads is a required one. */
  lemma LoadedTableSummarises(frame: Frame)
    requires RequiredColumns <= ColumnSet(frame.columns)
    ensures Summarise(frame).Success? <==> |frame.rows| > 0
    ensures |frame.rows| == 0 ==> Summarise(frame) == Failure(NoFirstRow)
  {
    assert YearColumn in ColumnSet(frame.columns);
    forall c | c in SummarisedColumns
      ensures c in frame.columns
    {
      assert c in RequiredColumns;
    }
  }

  /** `generate_script_stub`: load, summarise, wrap. It fails exactly when
      the data file is absent, a required column is missing, or the table is
      empty, and reports the first of these. */
  function GenerateScriptStub(persona: string, dataFileExists: bool, frame: Frame): (r: Result<string, PipelineError>)
    ensures r.Success? <==> dataFileExists && RequiredColumns <= ColumnSet(frame.columns) && |frame.rows| > 0
    ensures r.Failure? ==>
              if !dataFileExists then r.error == DataFileNotFound(DataPath)
              else if !(RequiredColumns <= ColumnSet(frame.columns))
              then r.error == MissingColumns(RequiredColumns - ColumnSet(frame.columns))
              else r.error == NoFirstRow
    ensures r.Success? ==>
              && SummariseForLlm(frame).Success?
              && r.value == ScriptFromSummary(AudienceOf(persona), SummariseForLlm(frame).value)
  {
    var loaded := LoadEducationData(dataFileExists, frame);
    if loaded.Failure? then Failure(loaded.error)
    else
      LoadedTableSummarises(frame);
      var summary := SummariseForLlm(frame);
      if summary.Failure? then Failure(summary.error)
      else Success(ScriptFromSummary(AudienceOf(persona), summary.value))
  }

  /** A produced script starts with the persona's framing and carries the
      paragraph unaltered right after the lead-in. */
  lemma ScriptStubCarriesSummary(persona: string, dataFileExists: bool, frame: Frame)
    requires GenerateScriptStub(persona, dataFileExists, frame).Success?
    ensures var r := GenerateScriptStub(persona, dataFileExists, frame).value;
            var summary := SummariseForLlm(frame).value;
            var intro := Intro(AudienceOf(persona));
            var o := |intro| + |OverviewLead|;
            && o + |summary| <= |r|
            && r[..|intro|] == intro
            && r[o..o + |summary|] == summary
  {
    var summary := SummariseForLlm(frame).value;
    var a := AudienceOf(persona);
    assert GenerateScriptStub(persona, dataFileExists, frame).value == ScriptFromSummary(a, summary);
  }

  /** What `generate_video_story` returns: no video yet, and the script. */
  datatype VideoStory = VideoStory(videoPath: Option<string>, script: string)

  const DefaultPersona := "Citizen"
  const DefaultTopic := "Education Access 2023"

  /** Called without arguments, the pipeline narrates for citizens. */
  lemma DefaultPersonaIsCitizen()
    ensures AudienceOf(DefaultPersona) == Citizen
  {
    assert |Lower(DefaultPersona)| == 7;
  }

  /** `generate_video_story`: the video path is always absent. */
  function GenerateVideoStory(persona: string, topic: string, dataFileExists: bool, frame: Frame)
    : (r: Result<VideoStory, PipelineError>)
    ensures r.Success? <==> GenerateScriptStub(persona, dataFileExists, frame).Success?
    ensures r.Success? ==> r.value.videoPath.None?
    ensures r.Success? ==> r.value.script == GenerateScriptStub(persona, dataFileExists, frame).value
    ensures r.Failure? ==> r.error == GenerateScriptStub(persona, dataFileExists, frame).error
  {
    var script :- GenerateScriptStub(persona, dataFileExists, frame);
    Success(VideoStory(None, script))
  }

  /** The topic argument has no effect on the result: any topic gives what
      the default topic gives. */
  lemma VideoStoryIgnoresTopic(persona: string, topic: string, dataFileExists: bool, frame: Frame)
    ensures GenerateVideoStory(persona, topic, dataFileExists, frame)
         == GenerateVideoStory(persona, DefaultTopic, dataFileExists, frame)
  {
  }
}
