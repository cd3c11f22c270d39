# Morocco data stories: the data core in Dafny

This project is a functional model of the two data scripts of *morocco-data-stories*, with proofs about them.

- `prepare_data.py` turns the raw 2023 list of primary schools (one line per school) into the aggregated education-access table. That table has one line per region with `region, year, total_schools, public_schools, private_schools`.
- `pipeline.py` loads that table and condenses it into a digest: the year, three column sums, the number of regions, and the three largest and three smallest regions. It renders the digest as one paragraph and wraps the paragraph into a narration script for a persona, either "investor" or a citizen. `generate_video_story` returns that script with no video.

Modules, one per file:

| module | file | contents |
|---|---|---|
| `Wrappers` | wrappers.dfy | `Option` and `Result` |
| `Text` | text.dfy | `sep.join`, decimal rendering of integers with its parser, ASCII lowering |
| `Collation` | collation.dfy | Python's `<` on strings (the order `groupby` emits keys in) and ordered key insertion |
| `Frames` | frames.dfy | the aggregated table (`Row`, `Frame`), column sums, distinct regions |
| `Ordering` | ordering.dfy | descending arrangements by `total_schools`, with a sort that produces one |
| `Pipeline` | pipeline.dfy | `pipeline.py` |
| `PrepareData` | prepare_data.dfy | `prepare_data.py` |
| `Handoff` | handoff.dfy | what `pipeline.py` reports about a table `prepare_data.py` wrote |

The file system is a parameter:

- whether the CSV file exists is a boolean argument;
- the parsed CSV is an argument (`Frame`, `RawFrame`).

Each raised exception is a `Failure` with its own constructor:

- `DataFileNotFound` and `RawFileNotFound` are the `FileNotFoundError`s.
- `MissingColumns` and `MissingRawColumns` are the `ValueError`s.
- `NoFirstRow` is the `IndexError` of `iloc[0]` on an empty table.
- `ColumnNotFound` is the `KeyError` of `df[column]`.

The sort in `summarise_for_llm` is pandas' default `sort_values`, which is not stable. The model therefore states nothing about tie order. A *descending arrangement* is any permutation of the rows that is non-increasing in `total_schools`. The top and bottom lists are a prefix and a suffix of some descending arrangement. `RankingIndependentOfTies` shows that the school counts in both lists are the same for every descending arrangement, so ties can change only which region names appear.

Three consequences of the code that the model keeps:

- `tail(3)` keeps the descending order of the sort, so the fewest-schools sentence names its largest region first.
- An empty table with no `year` column is still summarised, provided the `total_schools`, `public_schools`, `private_schools` and `region` columns are present (otherwise `df[column]` raises `KeyError`). It reports the fallback year 2023 and has no highest or fewest sentence.
- With a `year` column, an empty table fails on `iloc[0]` before any other column is read.

## Model

| member | source | states |
|---|---|---|
| `Pipeline.LoadEducationData` | pipeline.py:9-23 | The table is accepted exactly when the file exists and all five required columns are present. An accepted table comes back unchanged. A missing file is reported with the data path. Otherwise the error lists exactly the required columns that are absent, and that set is non-empty. |
| `Pipeline.ExtraColumnsTolerated` | pipeline.py:13-22 | Adding columns never turns acceptance into rejection and never enlarges the missing set. |
| `Pipeline.Summarise` | pipeline.py:31-42 | The digest exists exactly when every column it reads is present and, if there is a `year` column, the table has a row. An empty table with a `year` column fails on the first row, and that is the only way it fails on the first row. Any other failure names the first absent column in reading order. The digest's fields are: the first row's year (2023 without the column), the three column sums, the number of distinct regions, and the ranking. |
| `Pipeline.DigestTotalsIgnoreRowOrder` | pipeline.py:33-35 | The three totals are the same for any reordering of the rows. |
| `Frames.ColumnSumPermutation` | pipeline.py:33-35 | A column sum depends only on the multiset of rows. |
| `Frames.ColumnSum` | pipeline.py:33-35 | `df[column].sum()`. When no row's count is negative, the sum is not negative and no single row's count exceeds it. |
| `Frames.DistinctRegionCount` | pipeline.py:37 | `nunique()` on the region column is at most the row count. It equals the row count exactly when no region repeats, and it is at least one for a non-empty table. |
| `Ordering.SortDescending` | pipeline.py:40 | The result is a permutation of the rows, of the same length, and non-increasing in `total_schools`. |
| `Ordering.DescendingArrangementsAgreeOnTotals` | pipeline.py:40 | Any two descending arrangements of the same rows carry the same `total_schools` at every position. |
| `Ordering.NonIncreasingIntsUnique` | pipeline.py:40 | Two non-increasing integer sequences with the same elements are equal. |
| `Pipeline.RankRegions` | pipeline.py:40-42 | Both lists have length min(3, n). They are a prefix and a suffix of one descending arrangement of the rows, each entry pairing a region with its `total_schools`. |
| `Pipeline.RankingIndependentOfTies` | pipeline.py:40-42 | For every descending arrangement `p`, the top counts are the first min(3, n) totals of `p` and the bottom counts are its last min(3, n). |
| `Pipeline.RankingBracketsTable` | pipeline.py:40-42 | Both lists are non-increasing. Every row's total lies between the last bottom count and the first top count. |
| `Pipeline.RankingListsOverlap` | pipeline.py:41-42 | With 1 to 5 rows the lists share entries: the first bottom entry is also in the top list, since nothing is deduplicated. |
| `Pipeline.SummarySentencesShape` | pipeline.py:44-61 | The paragraph always has the opening, count, ownership and closing sentences in fixed positions. The highest sentence appears exactly when the top list is non-empty, the fewest sentence exactly when the bottom list is, and each lists exactly its digest entries. When present, the highest sentence is the fourth and the fewest sentence is the one before the closing, so highest always comes before fewest. |
| `Pipeline.EntryText` | pipeline.py:52-56 | Each entry is the region's name, " (", the decimal form of its school count and " schools)", in that order, and its length is the sum of these pieces. So the count's digits are delimited on both sides. |
| `Pipeline.EntryListPlacesEntries` | pipeline.py:52-56 | Every entry of a top or bottom list appears, unaltered, at its offset in the `"; "`-joined text. |
| `Pipeline.EntryListSeparatesEntries` | pipeline.py:52-56 | Exactly "; " stands between consecutive entries. |
| `Pipeline.Render` | pipeline.py:45-60 | Every sentence the summary can write is non-empty and ends with a full stop. |
| `Pipeline.SchoolCountReadsBack` | pipeline.py:46 | The count sentence carries the decimal number of schools right after "There are ", then " schools across ", then the decimal number of regions. Each number parses back to the digest's value. |
| `Pipeline.OwnershipReadsBack` | pipeline.py:47-49 | The ownership sentence carries the decimal public count right after "Of these, ", then " are public and ", then the decimal private count. Each number parses back to the digest's value. |
| `Pipeline.SummaryText` | pipeline.py:44-63 | The space-joined paragraph starts with the sentence naming the digest's year and ends with the fixed closing sentence. |
| `Pipeline.SummaryYearReadsBack` | pipeline.py:31-45 | The characters after "Education access in Morocco in " are the decimal form of the digest's year and parse back to it. |
| `Pipeline.SummariseForLlm` | pipeline.py:26-63 | The paragraph is produced exactly when the digest is, with the same error otherwise. It is the digest's sentences joined by single spaces (`SummaryText`), so the shape, join and year properties above apply to it. |
| `Text.JoinPlacesEachPart` | pipeline.py:63 | Every sentence appears unaltered at its offset in the joined text. |
| `Text.JoinSeparatesParts` | pipeline.py:63 | Exactly the separator, a single space here, stands between consecutive sentences. |
| `Text.JoinLength` | pipeline.py:63 | The joined text ends where its last part ends, so parts and separators account for every character. |
| `Text.DecimalRoundTrip` | pipeline.py:45-48 | The rendering of an integer inside the f-strings is a well-formed decimal numeral that parses back to the same integer. |
| `Text.LowerMatchesWord` | pipeline.py:74 | A string lowers to a lower-case word exactly when it has the word's length and each character is that letter in either case. |
| `Pipeline.AudienceOf` | pipeline.py:74-77 | The investor framing is chosen exactly when the lowered persona equals "investor". Every other persona gets the citizen framing. |
| `Pipeline.InvestorSpelling` | pipeline.py:74-77 | The lowered persona equals "investor" exactly for the 8-letter spellings of "investor" in any mix of cases. |
| `Pipeline.DefaultPersonaIsCitizen` | pipeline.py:66 | The default persona "Citizen" gets the citizen framing. |
| `Pipeline.ScriptFromSummary` | pipeline.py:79-84 | The script is the intro, the lead-in, the paragraph, one space and the closing sentence. Its length is the sum of these. The intro is its prefix, the paragraph sits right after the lead-in, and the closing sentence is its suffix. |
| `Pipeline.ScriptCarriesLeadIn` | pipeline.py:79-84 | The lead-in stands right after the intro, and a single space stands between the paragraph and the closing sentence. |
| `Pipeline.LoadedTableSummarises` | pipeline.py:71-72 | A table the loader accepts can be summarised exactly when it has a row. An empty accepted table fails on the first row. |
| `Pipeline.GenerateScriptStub` | pipeline.py:66-86 | The script is produced exactly when the file exists, the required columns are present and the table is non-empty. Failures come in that order of precedence. On success the script is the persona's intro, the lead-in, the paragraph, one space and the closing sentence (`ScriptFromSummary`). So it starts with the intro and contains the paragraph right after the lead-in. |
| `Pipeline.ScriptStubCarriesSummary` | pipeline.py:79-84 | A produced script starts with the persona's intro and carries the summary paragraph unaltered right after the lead-in. |
| `Pipeline.GenerateVideoStory` | pipeline.py:89-106 | The story succeeds exactly when the script does. It has no video path, carries that script, and otherwise has the script's error. |
| `Pipeline.VideoStoryIgnoresTopic` | pipeline.py:89-106 | Any topic gives the same result as the default topic "Education Access 2023". |
| `Collation.LessTransitive` | prepare_data.py:28 | Python's string order, used for the group keys, is transitive. |
| `Collation.LessTotal` | prepare_data.py:28 | Any two distinct strings are ordered one way or the other. |
| `Collation.InsertKey` | prepare_data.py:28 | Inserting a key into strictly ascending keys keeps them strictly ascending. The result holds exactly the old keys and the new one. |
| `PrepareData.CountIn` | prepare_data.py:28 | A region's count of named schools is at most the number of raw rows. It is positive exactly when some raw row of that region has a school name. |
| `PrepareData.AggregateRow` | prepare_data.py:28-33 | A region's output line has that region and year 2023, public equal to total, and private 0. Its total is at most the number of raw rows, and is positive exactly when some row of the region has a school name. |
| `PrepareData.GroupKeys` | prepare_data.py:28 | The group keys are strictly ascending. They are exactly the non-missing region values. |
| `PrepareData.BuildEducationAccess2023` | prepare_data.py:8-36 | The build succeeds exactly when the raw file exists and has both `REGION` and `NOM_ETABL`. A missing file is reported with the raw path, and missing columns with the columns found. The output has the five columns in order, one line per present region in ascending order, and no other region. Each line's total is the number of that region's rows with a school name. Each line has year 2023, public equal to total, and private 0. |
| `PrepareData.PreparedRegionsDistinct` | prepare_data.py:28 | No region appears on two output lines. |
| `PrepareData.PreparedRegionsExact` | prepare_data.py:28 | The output lines name exactly the raw rows' non-missing regions: none left out, none invented. |
| `PrepareData.OneRowPerRegion` | prepare_data.py:28 | There are exactly as many output lines as distinct non-missing raw regions. |
| `PrepareData.TotalsAddUp` | prepare_data.py:28 | The output's `total_schools` sum to the number of raw rows that have both a region and a school name: no school is lost or counted twice. |
| `Handoff.PreparedTableLoads` | prepare_data.py:36 | The prepared file is written to the path the loader reads, and the loader accepts it unchanged. |
| `Handoff.DigestOfAllPublic` | pipeline.py:31-37 | For a non-empty loaded table whose rows are all of one year, all public and none private, the digest reports that year, public equal to total, and zero private. |
| `Handoff.PreparedTableDigest` | prepare_data.py:31-33 | The digest of a prepared table with at least one region has: year 2023; total equal to the number of raw rows with region and name; public equal to total; private 0; and region count equal to the number of raw regions. |
| `Handoff.PreparedTableWithoutRegions` | prepare_data.py:28 | If no raw row has a region, the prepared table is empty and the script fails on the first row. |

## Left out

- File-system access: `os.path.exists`, `read_csv`, `to_csv` and `os.makedirs` are not modelled. Whether a file exists is a boolean argument, and a file's contents are an already-parsed table.
- `print` calls and the `__main__` blocks: output only.
- Exception messages: errors carry their data (path, missing set, column list) instead of the formatted message text.
- pandas dtypes: counts are mathematical integers. Missing or non-integral values in the numeric columns of the aggregated table, `NaN` skipping in `sum`, and the float-to-int conversion in `int(...)` are not modelled. The `year` cell is assumed to be an integer.
- Non-string region values: regions are strings. Mixed-type `groupby` keys are not modelled.
- Handoff: the lemmas pass the table `prepare_data.py` builds straight to the loader. They assume that writing it with `to_csv(index=False)` and reading it back with `read_csv` gives the same table, which holds for string regions and integer counts. CSV quoting and type inference on the round trip are not modelled.
- Raw columns besides `REGION` and `NOM_ETABL` do not affect the result and are not modelled. The case where the raw file already has a `region` or `school_name` column, so that the rename yields duplicate column names, is not modelled.
- Ordering.SortDescending: the model's sort is one particular descending arrangement (an insertion sort). pandas' tie order is deliberately unspecified. Every property about the ranking is stated for all descending arrangements, or only in terms of school counts.
- Text.Lower: lowers ASCII letters only. Python's `str.lower` also maps other characters. Of those, only KELVIN SIGN lowers to a single ASCII letter ("k"), which is not in "investor". The one character that lowers to two, "İ", yields a combining dot, which is not in "investor" either. So `IsInvestor` decides the same as Python's comparison.
- The narration, speech and video services named in the docstrings of `generate_script_stub` and `generate_video_story` are not called by the code, so there is nothing to model.
