# DatenTool dashboard: a Dafny model of its table reshaping

`feibra_DD.py` is a Streamlit dashboard over an uploaded Excel sheet of
delivery controls. Each row records a branch (FILIALE), a type (TYPE), an
area (GEBIET), an outcome (KONTROLLE, "OK" or "NICHT_OK"), free-text tags
(ZUSATZINFO), a distributor (NAME/VT/ABNEHMER) and a timestamp (ERFASST).
Between the upload and the charts the program reshapes this table:

- it derives a postcode PLZ from GEBIET, fills missing distributor names, and
  derives the calendar date ERFASST_DATUM;
- it splits ZUSATZINFO into whitespace-separated tags, stacks them with
  `melt`, counts them, and merges them back onto the table by index label;
- it filters the table through a chain of multiselect filters, in a different
  order in each of its three views ("Zusatzinfo gesamt",
  "Verteilerperformance", "Kontrollen pro Verteiler");
- it groups by distributor: non-null outcomes, distinct dates, and their
  ratio; pivots by (distributor, outcome) and by (date, outcome) with zero
  fill; merges the pivot with the statistics and sorts it by NICHT_OK;
- it shows two "controls per day" averages with different denominators.

The project models all of this. A table is a sequence of rows, and each row
carries its pandas index label and a record whose cells are `Option`s (None
is a null cell).

Modules, one file each:

- `wrappers.dfy` (`Wrappers`): `Option` and `Result`.
- `ordering.dfy` (`Ordering`): string and integer orders, sorted distinct
  keys (groupby/unstack), and the descending sort by count.
- `records.dfy` (`Records`): rows and tables, and the three derived columns.
- `tokens.dfy` (`Tokens`): Python's `str.split()` and the substring test `in`.
- `melt.dfy` (`Melt`): split/melt/dropna labels and the merge on the index.
- `counts.dfy` (`Counts`): `value_counts()`.
- `filters.dfy` (`Filters`): the conjunctive multiselect filters and the
  three filter chains, as methods that rebind the filtered table step by step.
- `stats.dfy` (`Stats`): tag and outcome counts, the per-distributor
  statistics, the pivots, the chart merge and sort, and the two daily averages.
- `dashboard.dfy` (`Dashboard`): loading, the `DataFrame` class whose methods
  write derived columns in place, and what each view computes.

The code is followed where it departs from a plain reading of its intent:

- The merge of the tags with the table matches melt positions against the
  table's own index labels. So with the default index only the first tag of
  each cell reaches the table, and after filtering tags can land on unrelated
  rows. The model keeps this label join (`Melt.JoinByIndex`) and proves both
  consequences.
- In "Kontrollen pro Verteiler" the names are not default-filled on the
  table: that happens only in the "Verteilerperformance" branch, on a cached
  copy. So rows without a name drop out of the grouping.
- The ZUSATZINFO filter is a substring test on the cell's text, and a null
  cell is tested as the text "nan".

## Model

| member | source | states |
|---|---|---|
| Dashboard.EndsWith | feibra_DD.py:13 | `file.name.endswith('.xlsx')`: the name's last characters equal the suffix, compared case-sensitively (Dashboard.UpperCaseSuffixRefused pins the case) |
| Dashboard.LoadData | feibra_DD.py:11-25 | the sheet is loaded iff the name ends in ".xlsx" (case-sensitive), the sheet reads and has ERFASST; a wrong suffix is NotExcel, and an ".xlsx" file that does not load is ReadFailed (a missing ERFASST column raises inside the try and is reported the same way); the loaded table has the sheet's records in order and the default index 0..N-1 |
| Dashboard.UpperCaseSuffixRefused | feibra_DD.py:13-17 | "Daten.XLSX" is refused as not an Excel file, while "Daten.xlsx" loads |
| Dashboard.DataFrame.constructor | feibra_DD.py:133 | the frame holds the loaded table |
| Dashboard.DataFrame.AddPlzColumn | feibra_DD.py:34 | the table is replaced by the one with PLZ derived from GEBIET in every row |
| Dashboard.DataFrame.FillDistributorNames | feibra_DD.py:211 | the table is replaced by the one with every empty or missing name filled |
| Dashboard.DataFrame.AddDateColumn | feibra_DD.py:307 | the table is replaced by the one with ERFASST_DATUM the day of ERFASST in every row |
| Dashboard.DataFrame.PreprocessOverview | feibra_DD.py:29-44 | TYPE counts of the table before the PLZ step, the PLZ column written, the tags merged back on the index, the KONTROLLE counts; with the default index the merge is exactly each row's first tag paired with its own row |
| Dashboard.DataFrame.PreprocessPerformance | feibra_DD.py:208-227 | as the module-level copy but after the name fill; afterwards no row has an empty or missing distributor name |
| Dashboard.OverviewView | feibra_DD.py:162-187 | the view stops with NoColumnsLeft (the KeyError on ZUSATZINFO at :183) exactly when a tag is selected and the FILIALE, TYPE, PLZ and KONTROLLE filters left no row, because the tag filter's empty mask then selects columns rather than rows; otherwise the row count, tag counts and merged tag table are those of the table filtered by FILIALE, TYPE, PLZ, KONTROLLE, ZUSATZINFO |
| Dashboard.PerformanceView | feibra_DD.py:230-300 | the view preprocesses the table again and filters it by TYPE, PLZ, KONTROLLE, FILIALE, VERTEILER; it stops with NoDays (the ZeroDivisionError) exactly when the whole table has no timestamp, before any tag is counted; otherwise the figures are the filtered row count, the average over the whole table's dates, and the tag counts and merged tag table of the filtered rows |
| Dashboard.Detail | feibra_DD.py:365-385 | a detail exists iff a distributor was chosen; its total, OK and NICHT_OK figures are the chosen distributor's filtered row count and outcome multiplicities, and its daily chart is the (date, outcome) pivot of that distributor's filtered rows |
| Dashboard.DetailDaily | feibra_DD.py:384-385 | the detail's dates ascend without repetition, and the cell of a date and an outcome is the number of the chosen distributor's filtered rows on that date with that outcome |
| Dashboard.DistributorView | feibra_DD.py:302-385 | PLZ and ERFASST_DATUM are written into the table; the view fails exactly when the filtered rows have no date (NoDays, the ZeroDivisionError at the metric, tested first) or the chart has no NICHT_OK column (NoNichtOkColumn, the KeyError of the sort); otherwise statistics over the whole table, figures over the rows filtered by FILIALE, VERTEILER, TYPE, and the chosen distributor's detail |
| Records.Labelled | feibra_DD.py:14 | a freshly read sheet keeps its records in order under labels 0..N-1 |
| Records.Plz | feibra_DD.py:34 | PLZ is null iff GEBIET is; otherwise a prefix of GEBIET of length min(4, \|GEBIET\|), and GEBIET itself when it has at most 4 characters |
| Records.PlzIsPrefixOfGebiet | feibra_DD.py:34 | in every row of the table PLZ is a prefix of GEBIET of length min(4, \|GEBIET\|) and GEBIET is unchanged |
| Records.WithPlz | feibra_DD.py:217 | the same rows, labels and cells, with only PLZ replaced |
| Records.WithFilledNames | feibra_DD.py:211 | the same rows and labels, with only the distributor name replaced by its filled value |
| Records.WithDates | feibra_DD.py:306-307 | the same rows and labels, with only ERFASST_DATUM replaced by the day of ERFASST |
| Records.FillName | feibra_DD.py:211 | the filled name: "Verteiler unbekannt" for a null or empty name, the name itself otherwise (properties in Records.FillKeepsGivenNames) |
| Records.DayOf | feibra_DD.py:307 | `.dt.date`: the calendar day of a timestamp, null for a null one |
| Records.FilledNamesNeverEmpty | feibra_DD.py:211 | after the fill no distributor name is null or empty |
| Records.FillKeepsGivenNames | feibra_DD.py:211 | a non-empty name is kept unchanged; an empty or null one becomes "Verteiler unbekannt" |
| Tokens.JoinSpaced | feibra_DD.py:37 | `' '.join(tokens)`: the tokens separated by single spaces |
| Tokens.Normalised | feibra_DD.py:37 | the cell with each whitespace run reduced to one space and both ends stripped, by a left-to-right scan independent of the split |
| Tokens.SplitJoinsToNormalised | feibra_DD.py:37 | the split cuts exactly at the whitespace runs: its tokens joined by single spaces give the normalised cell, so no token is cut inside a run of non-whitespace characters |
| Tokens.SplitJoinRoundTrip | feibra_DD.py:37 | splitting the single-space join of any list of tokens gives back that list, so the split keeps each maximal non-whitespace run whole |
| Tokens.SplitOfNormalised | feibra_DD.py:37 | splitting the normalised cell gives the same tokens as splitting the cell |
| Tokens.TokenLengthOfToken | feibra_DD.py:37 | a token followed by whitespace or by the end is read whole |
| Tokens.CollapseToken | feibra_DD.py:37 | scanning a whitespace-free run copies it, preceded by one space when it ends a gap |
| Tokens.RunThenRest | feibra_DD.py:37 | a whitespace-free run followed by whitespace or the end scans to the join with that run as the first token |
| Tokens.CollapseIsJoin | feibra_DD.py:37 | the scan from the start, or from a gap, gives the single-space join of the tokens still to come |
| Tokens.TwoTagsExample | feibra_DD.py:37 | "ABC \t DEF" splits into the two tags "ABC" and "DEF" |
| Tokens.TokenLength | feibra_DD.py:37 | the leading run of non-whitespace characters ends at whitespace or at the end |
| Tokens.SplitYieldsTokens | feibra_DD.py:37 | every piece of the whitespace split is non-empty and contains no whitespace |
| Tokens.SplitKeepsEveryCharacter | feibra_DD.py:37 | the pieces concatenated are exactly the non-whitespace characters of the cell, in order (no character lost, none duplicated) |
| Tokens.SplitEmptyIffBlank | feibra_DD.py:183-184 | a cell gives no tokens iff it is empty or all whitespace |
| Tokens.SqueezedAppend | feibra_DD.py:37 | dropping whitespace distributes over concatenation |
| Tokens.TokensAreSubstrings | feibra_DD.py:172-174 | every token of a cell is a substring of the cell |
| Tokens.SplitCell | feibra_DD.py:37 | `Series.str.split()` on one cell: the cell's tokens, and nothing for a null cell |
| Tokens.Split | feibra_DD.py:37 | Python's `str.split()` with no argument: the maximal runs of non-whitespace characters, in order (its properties are the Tokens lemmas) |
| Tokens.IsSubstring | feibra_DD.py:174 | Python's `needle in text` on strings, searched offset by offset |
| Tokens.OccursAt | feibra_DD.py:174 | the text holds the needle starting at a given offset |
| Tokens.SubstringFound | feibra_DD.py:174 | a needle passing the substring test occurs at some offset of the text |
| Tokens.SubstringIff | feibra_DD.py:174 | the substring test holds iff the needle occurs at some offset (both directions) |
| Tokens.SubstringAt | feibra_DD.py:174 | a needle occurring at some offset of the text passes the substring test |
| Melt.MeltCells | feibra_DD.py:37-38 | `split(expand=True).melt().dropna()`: the non-null tokens, split column by split column, each under label j*N+i (properties in Melt.MeltLayout) |
| Melt.MeltTable | feibra_DD.py:37-38 | the melted tags of a table's ZUSATZINFO column |
| Melt.JoinByIndex | feibra_DD.py:39 | the merge with `left_index=True, right_index=True`: each melted tag paired with every row whose index label equals the tag's label, in tag order (properties in Melt.JoinSound, Melt.JoinComplete) |
| Melt.Cells | feibra_DD.py:37 | one split per row, in row order; a null cell splits to nothing |
| Melt.Width | feibra_DD.py:37 | the number of split columns is the longest split: no cell is longer and, unless all are empty, one has exactly that length |
| Melt.MeltLayout | feibra_DD.py:37-38 | melted labels are strictly increasing; every melted tag is the token at some row position i and split column j, under label j*N+i; every token at (i, j) appears under label j*N+i |
| Melt.MeltedTokenOrigin | feibra_DD.py:37-38 | a melted tag's label l is j*N+i for the row position i = l % N and split column j = l / N that hold its value |
| Melt.MeltColumnsComplete | feibra_DD.py:37-38 | the token at column j of row position i is melted under label j*N+i |
| Melt.ColumnsIncreasing | feibra_DD.py:37-38 | melt labels strictly increase column by column |
| Melt.MeltKeepsEveryToken | feibra_DD.py:183-184 | melt and dropna keep every token of every cell with its multiplicity, and nothing else |
| Melt.JoinSound | feibra_DD.py:39 | every merged pair is a row of the table and a melted tag with that row's label |
| Melt.JoinComplete | feibra_DD.py:200 | every melted tag is paired with every row carrying its label |
| Melt.JoinPairsByIndex | feibra_DD.py:222 | a merged pair joins the token at column label / N of position label % N with a row labelled label, not necessarily that token's own row |
| Melt.JoinFindsIndex | feibra_DD.py:299 | the token at column j of position i is paired with the row labelled j*N+i when one exists |
| Melt.MeltTableOrigin | feibra_DD.py:37-38 | a melted tag of the table decodes to the row position and split column of its value |
| Melt.MeltTableHas | feibra_DD.py:37-38 | every token of the table is melted under label j*N+i |
| Melt.RangeIndexKeepsFirstTokens | feibra_DD.py:37-39 | on a table labelled 0..N-1 the merge is exactly the first token of each non-blank cell paired with its own row; all later tokens are dropped |
| Melt.FirstColumnJoin | feibra_DD.py:39 | on a table labelled 0..N-1 the first split column joins each row with its own first token |
| Melt.JoinPastEnd | feibra_DD.py:39 | labels at or past N find no row of a table labelled 0..N-1 |
| Melt.JoinAppend | feibra_DD.py:39 | the merge of concatenated tags is the concatenation of the merges |
| Melt.RowsWithIndexMembers | feibra_DD.py:39 | the rows matched for a label are exactly the table's rows with that label |
| Counts.Tally | feibra_DD.py:185 | the distinct values with their numbers of occurrences, in first-occurrence order (properties in Counts.TallyExact, Counts.TallyShape) |
| Counts.ValueCounts | feibra_DD.py:185-187 | `value_counts()`: the tally sorted by count descending (properties in Counts.ValueCountsExact, Counts.ValueCountsShape) |
| Counts.Present | feibra_DD.py:42 | the non-null entries of a column, in order, as `value_counts` and `count` skip nulls |
| Counts.TallyCountOf | feibra_DD.py:185 | the tally lists for each value its number of occurrences (0 when absent) |
| Counts.TallyShape | feibra_DD.py:185 | the tally lists each value once, with a positive count, and the counts add up to the input length |
| Counts.TallyExact | feibra_DD.py:185 | every tallied count is its value's multiplicity, and every value of the input is tallied |
| Counts.ValueCountsExact | feibra_DD.py:185-187 | every listed count is its value's number of occurrences and positive; every occurring value is listed |
| Counts.ValueCountsShape | feibra_DD.py:185-187 | each value is listed once, the counts add up to the input length, and counts are non-increasing |
| Counts.CountOfValueCounts | feibra_DD.py:379-381 | the count looked up with default 0 is the number of occurrences |
| Counts.PresentCounts | feibra_DD.py:42 | the non-null entries keep each value's multiplicity and number all entries minus the nulls |
| Counts.BumpCountOf | feibra_DD.py:185 | counting one more x raises x's count by one and no other |
| Counts.BumpDistinct | feibra_DD.py:185 | counting one more value keeps every value listed once |
| Counts.BumpTotal | feibra_DD.py:185 | counting one more value raises the total by one |
| Counts.TotalPermutation | feibra_DD.py:187 | reordering the counts keeps their sum |
| Counts.DistinctPermutation | feibra_DD.py:187 | reordering distinct counts keeps them distinct |
| Counts.CountOfListed | feibra_DD.py:379-381 | a listed count is what the lookup returns |
| Counts.CountOfFound | feibra_DD.py:379-381 | a positive lookup comes from a listed count |
| Ordering.SortByKeyDesc | feibra_DD.py:187 | the sort by count descending is a permutation with non-increasing counts |
| Ordering.InsertByKey | feibra_DD.py:187 | inserting into a descending list keeps it descending and adds exactly one element |
| Ordering.SortedDistinct | feibra_DD.py:310 | group keys come out strictly ascending, and a key is present iff it occurs |
| Ordering.InsertDistinct | feibra_DD.py:347-348 | inserting a key into strictly ascending distinct keys keeps them so and adds exactly that key |
| Ordering.StrLess | feibra_DD.py:310 | Python's string `<`: code point by code point, a proper prefix first, as `sorted` and the groupby key sort use it (properties in Ordering.StrLessIsStrictTotalOrder) |
| Ordering.StrLessIsStrictTotalOrder | feibra_DD.py:310 | string comparison is a strict total order |
| Ordering.StrLessTransitive | feibra_DD.py:310 | string comparison is transitive |
| Ordering.StrLessConnected | feibra_DD.py:310 | two different strings are ordered one way or the other |
| Filters.PyStr | feibra_DD.py:174 | a cell as `str()` sees it: its text, or "nan" for a null cell |
| Filters.Holds | feibra_DD.py:164-174 | a membership filter passes a non-null cell among the selected values; the ZUSATZINFO filter passes a row when some selected tag is a substring of the cell's text |
| Filters.Keep | feibra_DD.py:165 | boolean-mask indexing: the rows passing one filter, in order, labels kept |
| Filters.Select | feibra_DD.py:163-174 | the filters applied one after the other (properties in Filters.SelectKeepsPassingRows, Filters.SelectIsMatching) |
| Filters.MentionsAnyIff | feibra_DD.py:172-174 | a row passes the ZUSATZINFO filter iff some selected tag occurs at some offset of the cell's text |
| Filters.NonSubstringDropsRow | feibra_DD.py:174 | a cell "ABC" fails the selection "AC" although both letters occur in it |
| Filters.FilterOverview | feibra_DD.py:163-174 | the guarded chain FILIALE, TYPE, PLZ, KONTROLLE, ZUSATZINFO gives the table filtered by exactly the filters with a selection, in that order |
| Filters.FilterPerformance | feibra_DD.py:249-259 | the same for the chain TYPE, PLZ, KONTROLLE, FILIALE, VERTEILER |
| Filters.FilterDistributor | feibra_DD.py:319-336 | the same for the chain FILIALE, VERTEILER, TYPE |
| Filters.Narrow | feibra_DD.py:164-165 | one widget filters by its mask iff its selection is non-empty and otherwise leaves the table alone; on the result of the filters before it, the outcome is that chain extended by this filter |
| Filters.ChainStep | feibra_DD.py:164-165 | one guarded step extends the filters applied so far by one exactly when its selection is non-empty |
| Filters.SelectIsMatching | feibra_DD.py:163-174 | filtering step by step equals the one-pass order-preserving subsequence of rows passing every filter |
| Filters.SelectKeepsPassingRows | feibra_DD.py:163-174 | a row is kept iff it is in the table and passes every filter with a selection; filtering never adds rows |
| Filters.MatchingMembers | feibra_DD.py:163-174 | a row is in the one-pass result iff it is in the table and passes every filter |
| Filters.MatchingOrderFree | feibra_DD.py:249-259 | the order of the filters does not change the result |
| Filters.NothingSelectedKeepsAll | feibra_DD.py:163 | with every selection empty the table is unchanged |
| Filters.UnguardedEmptyIsInDropsAll | feibra_DD.py:164 | without the guard an empty membership selection would drop every row |
| Filters.KeepShrinks | feibra_DD.py:165 | one mask keeps exactly the passing rows and never adds rows |
| Filters.OneMoreSelectionNeverAddsRows | feibra_DD.py:163-171 | adding a selection never increases the row count and keeps only rows kept before |
| Filters.OverviewAndPerformanceAgree | feibra_DD.py:249-257 | with no ZUSATZINFO or VERTEILER selection, the two views' different filter orders give the same rows |
| Filters.ActiveMembers | feibra_DD.py:164 | the applied filters are exactly those with a non-empty selection |
| Filters.SelectedTokenKeepsRow | feibra_DD.py:172-174 | selecting one of a cell's own tokens keeps its row |
| Filters.SubstringIsNotTokenEquality | feibra_DD.py:174 | a cell "ABC" passes the selection "AB" although "AB" is not one of its tokens |
| Filters.NullCellIsTestedAsNan | feibra_DD.py:174 | a null cell passes the selection "an", being tested as the text "nan" |
| Stats.TagCounts | feibra_DD.py:185-187 | `value_counts()` of the melted tags of the filtered rows (properties in Stats.TagCountsExact) |
| Stats.OutcomeCounts | feibra_DD.py:42 | `df['KONTROLLE'].value_counts()`, also at feibra_DD.py:225 (properties in Stats.ColumnCountOf) |
| Stats.TypeCounts | feibra_DD.py:31 | `df['TYPE'].value_counts()`, also at feibra_DD.py:214 (properties in Stats.ColumnCountOf) |
| Stats.TagCountsExact | feibra_DD.py:183-187 | each tag of the filtered rows is listed once with its total number of occurrences across all cells, counts non-increasing, summing to the token total |
| Stats.ColumnCountOf | feibra_DD.py:42 | an outcome's count is the number of rows holding it; the counts sum to the number of non-null cells |
| Stats.OutcomeTally | feibra_DD.py:379-381 | the OK or NICHT_OK tally of a distributor is the number of its rows with that outcome, 0 when none |
| Stats.RowsOf | feibra_DD.py:372 | the rows whose distributor name equals the chosen one (properties in Stats.RowsOfMembers) |
| Stats.RowsOfMembers | feibra_DD.py:372 | the detail rows are exactly the rows whose name equals the chosen one |
| Stats.Divide | feibra_DD.py:314 | the per-distributor average is controls over days; with no days it is infinite, or NaN when there are no controls either |
| Stats.GroupNames | feibra_DD.py:310 | group keys are strictly ascending, and a name is a key iff some row carries it; null names form no group |
| Stats.StatOf | feibra_DD.py:310-314 | one distributor's row of the statistics: distinct dates, non-null outcomes and their ratio (properties in Stats.StatCounts) |
| Stats.DistributorStats | feibra_DD.py:310-316 | `groupby(name).agg(nunique, count)`: one statistics row per group key (properties in Stats.StatsGroupEveryName) |
| Stats.NUnique | feibra_DD.py:311 | `nunique()`: the number of distinct non-null values (properties in Stats.NUniquePositive) |
| Stats.StatsGroupEveryName | feibra_DD.py:310-313 | one statistics row per distinct non-null name, in ascending order |
| Stats.StatCounts | feibra_DD.py:310-314 | a distributor's controls are its rows with a non-null outcome, its days the distinct non-null dates among its rows, its average controls over days |
| Stats.PivotOf | feibra_DD.py:347-348 | `groupby([key, KONTROLLE]).size().unstack(fill_value=0)`: sorted keys, sorted outcome columns and zero-filled counts (properties in Stats.PivotLayout, Stats.PivotCells) |
| Stats.NamePivot | feibra_DD.py:347-348 | the pivot by distributor name and outcome |
| Stats.DailyPivot | feibra_DD.py:384-385 | the pivot by ERFASST_DATUM and outcome of one distributor's rows |
| Stats.PivotLayout | feibra_DD.py:347-348 | pivot keys and outcome columns are sorted and distinct, every row has one cell per column, a key or outcome appears iff some row with both fields non-null has it |
| Stats.PivotCells | feibra_DD.py:347-348 | each cell is the number of rows with that key and outcome, and 0 exactly when that combination never occurs |
| Stats.PairCountIsMultiplicity | feibra_DD.py:347 | a group size is the multiplicity of its (key, outcome) pair |
| Stats.CompleteMembers | feibra_DD.py:347 | a two-key grouping keeps exactly the rows where both keys are non-null |
| Stats.BarTotalIsControlCount | feibra_DD.py:347-348 | the cells of a distributor's bar add up to its count of non-null outcomes |
| Stats.RowTotalIsKeyCount | feibra_DD.py:347-348 | a pivot row's total over all outcome columns is the number of rows with that key and an outcome |
| Stats.ControlsAreKeyCount | feibra_DD.py:312 | a distributor's control count is its number of rows with an outcome |
| Stats.FilteringNeverRaisesKeyCount | feibra_DD.py:347 | filtering never raises a key's row count |
| Stats.MergeStats | feibra_DD.py:349-350 | the inner merge on the name: each pivot row paired with its distributor's statistics, dropped when there are none (properties in Stats.MergeKeepsEveryBar) |
| Stats.DistributorChart | feibra_DD.py:346-351 | the pivot by name, merged with the statistics and sorted by NICHT_OK (properties in Stats.DistributorChartBars) |
| Stats.StatFor | feibra_DD.py:349-350 | the lookup half of the merge: the first statistics row with the bar's name, none when absent (properties in Stats.StatForGroup, Stats.StatForFindsName) |
| Stats.StatForGroup | feibra_DD.py:349-350 | the merge finds, for a name that occurs, exactly that name's statistics |
| Stats.MergeKeepsEveryBar | feibra_DD.py:349-350 | when every bar has statistics the merge keeps every bar, in order, with its average |
| Stats.StatForFindsName | feibra_DD.py:349-350 | a listed name's statistics are found |
| Stats.IndexIn | feibra_DD.py:351 | the column lookup finds the position of a present column and reports an absent one |
| Stats.SortByNichtOk | feibra_DD.py:351 | the sort fails (KeyError) iff there is no NICHT_OK column; otherwise it is a permutation of the bars with NICHT_OK non-increasing |
| Stats.DistributorChartBars | feibra_DD.py:346-351 | for any filtered copy every bar survives the merge with its distributor's average over the whole table, and the chart fails iff no remaining named row has outcome NICHT_OK |
| Stats.MetricAverage | feibra_DD.py:344 | the metric `rows / days` (here and at feibra_DD.py:267) raises ZeroDivisionError on zero days and is otherwise rows over days |
| Stats.PerformanceDailyAverage | feibra_DD.py:266-267 | the average succeeds iff some row of the whole table has a timestamp, and is then the filtered row count over the number of distinct timestamp days of the whole table |
| Stats.DistributorDailyAverage | feibra_DD.py:343-344 | the average succeeds iff some filtered row has a date, and is then the filtered row count over the number of distinct dates among the filtered rows |
| Stats.DatedRows | feibra_DD.py:267 | nunique of the dates is the number of distinct days among the rows' timestamps, positive iff some row has a timestamp |
| Stats.DatumRows | feibra_DD.py:344 | nunique of ERFASST_DATUM is the number of distinct dates among the rows, positive iff some row has a date |
| Stats.FilteredDaysAtMostAllDays | feibra_DD.py:266-267 | filtered rows never span more distinct dates than the whole table, so when the second average exists the first exists and is never larger |
| Stats.DenominatorsDiffer | feibra_DD.py:343-344 | two rows on two days filtered to one give 1/2 in one view and 1/1 in the other |
| Stats.PresentMembers | feibra_DD.py:311 | a value is among the non-null entries iff some cell holds it |
| Stats.NUniquePositive | feibra_DD.py:311 | nunique is positive iff some cell is non-null |

## Left out

- The Streamlit page: configuration, CSS, sidebar menu, widgets and the
  display of metrics and tables. The widgets' selections are parameters of
  the views and filter methods.
- The charts. Every chart call uses `px`, which the file never imports, so
  each view would stop at its first chart with a NameError. The view methods
  model only the figures each view computes and leave this failure out.
- Reading the Excel file and parsing timestamps. `Dashboard.Upload` carries
  the already-read records, whether reading failed, and whether an ERFASST
  column exists. ERFASST is an already-parsed optional timestamp, and an
  unparseable one is null.
- Caching of the loaded table. The "Kontrollen pro Verteiler" view therefore
  starts from the preprocessed table, without the name fill of the other view.
- Float division, formatting and rounding of the averages, and the
  VERTEILER_WERT label built from the rounded average. Averages are kept as
  integer pairs (`Stats.Average`).
- The pandas-version-specific behaviour of replacing '' by None: the model
  uses the evident intent, where empty becomes the default name.
- Cells that are not strings (numbers in FILIALE or GEBIET, for example), and
  the upload widget's own file-type filter.
- Counts.ValueCounts: ties between equal counts are kept in first-occurrence
  order. pandas sorts with an unstable sort, so its tie order is unspecified;
  the contracts state only the non-increasing order.
- Stats.SortByNichtOk: the same for equal NICHT_OK counts.
- A sheet without a TYPE, GEBIET, ZUSATZINFO or KONTROLLE column: the
  preprocessing reads these outside the try (feibra_DD.py:31, :34, :37, :42)
  and stops with a KeyError. A sheet without FILIALE stops the same way at the
  option lists (feibra_DD.py:152, :237, :322), and one without NAME/VT/ABNEHMER
  at the name fill (feibra_DD.py:211) and at the groupby (feibra_DD.py:310).
  The model's records always have these fields.
- A GEBIET or ZUSATZINFO column with no text at all: pandas reads it as
  floats, and `.str` stops with an AttributeError (feibra_DD.py:34, :37). The
  model's cells are text or null.
- A null among the FILIALE, GEBIET (PLZ) or TYPE options: `sorted` of the
  unique values compares None with strings and stops with a TypeError
  (feibra_DD.py:152, :156, :237, :241, :322, :333). The model takes the
  selections as parameters and leaves the option lists out.
- Stats.GroupNames: strings are ordered by code point, as Python compares
  them. Locale-aware ordering is not modelled.
