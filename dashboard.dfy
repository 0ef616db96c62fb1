/**
 * The dashboard's DataFrame and the steps that change it in place: loading the
 * upload, the two copies of the preprocessing, and the column assignments of
 * the "Kontrollen pro Verteiler" view; then what each of the three views
 * computes from it.
 */
module Dashboard {
  import opened Wrappers
  import opened Ordering
  import opened Records
  import opened Melt
  import opened Counts
  import opened Filters
  import opened Stats

  // ---- loading ----

  /**
   * An uploaded file: its name and what reading it as an Excel sheet gives
   * (None when pandas cannot read it); `hasErfasst` says whether the sheet has
   * an ERFASST column. The timestamps are already parsed.
   */
  datatype Upload = Upload(name: string, sheet: Option<seq<Record>>, hasErfasst: bool)

  datatype LoadError = NotExcel | ReadFailed

  /** The file-name suffix test of the loader; case-sensitive. */
  predicate EndsWith(s: string, suffix: string) {
    |suffix| <= |s| && s[|s| - |suffix|..] == suffix
  }

  /**
   * `load_data`: only a name ending in ".xlsx" is read; a sheet that cannot be
   * read, or that has no ERFASST column, is an error; the result carries the
   * default index 0..N-1.
   */
  function LoadData(upload: Upload): (r: Result<Table, LoadError>)
    ensures r.Success? <==> EndsWith(upload.name, ".xlsx") && upload.sheet.Some? && upload.hasErfasst
    ensures !EndsWith(upload.name, ".xlsx") ==> r == Failure(NotExcel)
    ensures EndsWith(upload.name, ".xlsx") && !r.Success? ==> r == Failure(ReadFailed)
    ensures r.Success? ==> RangeIndexed(r.value) && |r.value| == |upload.sheet.value|
    ensures r.Success? ==> forall k :: 0 <= k < |r.value| ==> r.value[k].rec == upload.sheet.value[k]
  {
    if !EndsWith(upload.name, ".xlsx") then Failure(NotExcel)
    else if upload.sheet.None? || !upload.hasErfasst then Failure(ReadFailed)
    else Success(Labelled(upload.sheet.value))
  }

  /** The suffix test is case-sensitive: "Daten.XLSX" is refused. */
  lemma UpperCaseSuffixRefused(sheet: seq<Record>)
    ensures LoadData(Upload("Daten.XLSX", Some(sheet), true)) == Failure(NotExcel)
    ensures LoadData(Upload("Daten.xlsx", Some(sheet), true)).Success?
  {
    assert "Daten.XLSX"[5..] == ".XLSX";
    assert "Daten.xlsx"[5..] == ".xlsx";
  }

  // ---- the DataFrame ----

  class DataFrame {
    var rows: Table

    constructor(t: Table)
      ensures rows == t
    {
      rows := t;
    }

    /** The PLZ column: the first four characters of GEBIET, written over the table. */
    method AddPlzColumn()
      modifies this
      ensures rows == WithPlz(old(rows))
    {
      rows := WithPlz(rows);
    }

    /** Empty or missing distributor names become "Verteiler unbekannt", in place. */
    method FillDistributorNames()
      modifies this
      ensures rows == WithFilledNames(old(rows))
    {
      rows := WithFilledNames(rows);
    }

    /** The ERFASST_DATUM column: the calendar day of ERFASST, written over the table. */
    method AddDateColumn()
      modifies this
      ensures rows == WithDates(old(rows))
    {
      rows := WithDates(rows);
    }

    /**
     * `preprocess_data_zusatzinfos` as defined at module level: the TYPE counts,
     * the PLZ column, the split tags merged back on the index, and the
     * KONTROLLE counts. With the default index only each cell's first tag is
     * paired, and with its own row.
     */
    method PreprocessOverview() returns (typeCounts: seq<Count<string>>, split: seq<Joined>,
                                         kontrolleCounts: seq<Count<string>>)
      modifies this
      ensures rows == WithPlz(old(rows))
      ensures typeCounts == TypeCounts(old(rows))
      ensures split == JoinByIndex(MeltTable(rows), rows)
      ensures kontrolleCounts == OutcomeCounts(rows)
      ensures RangeIndexed(old(rows)) ==> split == FirstTokens(rows)
    {
      typeCounts := TypeCounts(rows);
      AddPlzColumn();
      split := JoinByIndex(MeltTable(rows), rows);
      kontrolleCounts := OutcomeCounts(rows);
      if RangeIndexed(old(rows)) {
        assert RangeIndexed(rows);
        RangeIndexKeepsFirstTokens(rows);
      }
    }

    /**
     * The copy of `preprocess_data_zusatzinfos` inside the "Verteilerperformance"
     * view: the distributor names are default-filled first.
     */
    method PreprocessPerformance() returns (typeCounts: seq<Count<string>>, split: seq<Joined>,
                                            kontrolleCounts: seq<Count<string>>)
      modifies this
      ensures rows == WithPlz(WithFilledNames(old(rows)))
      ensures typeCounts == TypeCounts(WithFilledNames(old(rows)))
      ensures split == JoinByIndex(MeltTable(rows), rows)
      ensures kontrolleCounts == OutcomeCounts(rows)
      ensures forall row :: row in rows ==> row.rec.verteiler.Some? && row.rec.verteiler.value != ""
    {
      FillDistributorNames();
      typeCounts := TypeCounts(rows);
      AddPlzColumn();
      split := JoinByIndex(MeltTable(rows), rows);
      kontrolleCounts := OutcomeCounts(rows);
      FilledNamesNeverEmpty(old(rows));
      forall row | row in rows ensures row.rec.verteiler.Some? && row.rec.verteiler.value != "" {
        var k :| 0 <= k < |rows| && rows[k] == row;
        assert row.rec.verteiler == WithFilledNames(old(rows))[k].rec.verteiler;
        assert WithFilledNames(old(rows))[k] in WithFilledNames(old(rows));
      }
    }
  }

  // ---- the three views ----

  /**
   * Why a view stops: `NoColumnsLeft` is the KeyError on ZUSATZINFO when the
   * tag filter ran on no rows (the empty, non-boolean mask selects no column);
   * `NoDays` is the ZeroDivisionError of the daily-average metric when no row
   * has a date; `NoNichtOkColumn` is the KeyError of the chart sort when the
   * pivot has no NICHT_OK column.
   */
  datatype ViewError = NoColumnsLeft | NoDays | NoNichtOkColumn

  /** What the "Zusatzinfo gesamt" view shows. */
  datatype OverviewFigures = OverviewFigures(total: nat, tagCounts: seq<Count<string>>, tagRows: seq<Joined>)

  /**
   * The "Zusatzinfo gesamt" view, after the module-level preprocessing. When
   * tags are selected but the FILIALE, TYPE, PLZ and KONTROLLE filters left no
   * row, the tag filter's mask is empty and not boolean, so it selects the
   * columns instead of the rows, and reading ZUSATZINFO afterwards stops the
   * view before any tag is counted.
   */
  method OverviewView(df: DataFrame, filialen: seq<string>, types: seq<string>, plz: seq<string>,
                      kontrolle: seq<string>, zusatzinfo: seq<string>) returns (figures: Result<OverviewFigures, ViewError>)
    ensures var before := Select(df.rows, Active([IsIn(Filiale, filialen), IsIn(Type, types), IsIn(Plz, plz),
                                                  IsIn(Kontrolle, kontrolle)]));
      var filtered := Select(df.rows, Active([IsIn(Filiale, filialen), IsIn(Type, types), IsIn(Plz, plz),
                                              IsIn(Kontrolle, kontrolle), MentionsAny(zusatzinfo)]));
      && (figures.Failure? <==> before == [] && zusatzinfo != [])
      && (figures.Failure? ==> figures.error == NoColumnsLeft)
      && (figures.Success? ==> figures.value == OverviewFigures(|filtered|, TagCounts(filtered),
                                                                JoinByIndex(MeltTable(filtered), filtered)))
  {
    ghost var applied := [IsIn(Filiale, filialen), IsIn(Type, types), IsIn(Plz, plz), IsIn(Kontrolle, kontrolle)];
    var before := FilterOverview(df.rows, filialen, types, plz, kontrolle, []);
    ActiveSnoc(applied, MentionsAny([]));
    assert applied + [MentionsAny([])] == [IsIn(Filiale, filialen), IsIn(Type, types), IsIn(Plz, plz),
                                           IsIn(Kontrolle, kontrolle), MentionsAny([])];
    assert Active(applied) + [] == Active(applied);
    if zusatzinfo != [] && before == [] {
      return Failure(NoColumnsLeft);
    }
    var filtered := Narrow(before, MentionsAny(zusatzinfo), df.rows, applied);
    assert applied + [MentionsAny(zusatzinfo)] == [IsIn(Filiale, filialen), IsIn(Type, types), IsIn(Plz, plz),
                                                   IsIn(Kontrolle, kontrolle), MentionsAny(zusatzinfo)];
    figures := Success(OverviewFigures(|filtered|, TagCounts(filtered), JoinByIndex(MeltTable(filtered), filtered)));
  }

  /** What the "Verteilerperformance" view shows. */
  datatype PerformanceFigures = PerformanceFigures(total: nat, average: Average,
                                                   tagCounts: seq<Count<string>>, tagRows: seq<Joined>)

  /**
   * The "Verteilerperformance" view: it preprocesses again, then filters; the
   * daily-average metric stops the view with a ZeroDivisionError when the
   * table has no date, before the tags are counted.
   */
  method PerformanceView(df: DataFrame, types: seq<string>, plz: seq<string>, kontrolle: seq<string>,
                         filialen: seq<string>, verteiler: seq<string>) returns (figures: Result<PerformanceFigures, ViewError>)
    modifies df
    ensures df.rows == WithPlz(WithFilledNames(old(df.rows)))
    ensures var filtered := Select(df.rows, Active([IsIn(Type, types), IsIn(Plz, plz), IsIn(Kontrolle, kontrolle),
                                                    IsIn(Filiale, filialen), IsIn(Verteiler, verteiler)]));
      var average := PerformanceDailyAverage(filtered, df.rows);
      && (figures.Failure? <==> average.Failure?)
      && (figures.Failure? ==> figures.error == NoDays)
      && (figures.Success? ==> figures.value == PerformanceFigures(|filtered|, average.value,
                                                  TagCounts(filtered), JoinByIndex(MeltTable(filtered), filtered)))
  {
    var typeCounts, split, kontrolleCounts := df.PreprocessPerformance();
    var filtered := FilterPerformance(df.rows, types, plz, kontrolle, filialen, verteiler);
    var average := PerformanceDailyAverage(filtered, df.rows);
    if average.Failure? {
      return Failure(NoDays);
    }
    figures := Success(PerformanceFigures(|filtered|, average.value,
                                          TagCounts(filtered), JoinByIndex(MeltTable(filtered), filtered)));
  }

  /** The detail of one distributor in the "Kontrollen pro Verteiler" view. */
  datatype DetailFigures = DetailFigures(total: nat, ok: nat, nichtOk: nat, daily: Pivot<int>)

  /** What the "Kontrollen pro Verteiler" view shows. */
  datatype DistributorFigures = DistributorFigures(
    stats: seq<DistributorStat>, total: nat, average: Average,
    chart: seq<ChartRow>, detail: Option<DetailFigures>)

  /** The detail view of a chosen distributor (an empty choice shows none). */
  function Detail(filtered: Table, name: string): (d: Option<DetailFigures>)
    ensures d.Some? <==> name != ""
    ensures d.Some? ==> d.value.ok == multiset(OutcomeColumn(RowsOf(filtered, name)))[Some("OK")]
    ensures d.Some? ==> d.value.nichtOk == multiset(OutcomeColumn(RowsOf(filtered, name)))[Some("NICHT_OK")]
    ensures d.Some? ==> d.value.total == |RowsOf(filtered, name)|
    ensures d.Some? ==> d.value.daily == DailyPivot(filtered, name)
  {
    if name == "" then None
    else Some(DetailFigures(|RowsOf(filtered, name)|, OutcomeTally(filtered, name, "OK"),
                            OutcomeTally(filtered, name, "NICHT_OK"), DailyPivot(filtered, name)))
  }

  /**
   * The daily chart of the detail: its dates ascend without repetition, and the
   * cell of a date and an outcome counts the chosen distributor's filtered rows
   * on that date with that outcome.
   */
  lemma DetailDaily(filtered: Table, name: string, i: nat, j: nat)
    requires name != ""
    requires i < |Detail(filtered, name).value.daily.rows| && j < |Detail(filtered, name).value.daily.columns|
    ensures var p := Detail(filtered, name).value.daily;
      && StrictlySorted(IntLess, RowKeys(p.rows))
      && j < |p.rows[i].cells|
      && p.rows[i].cells[j] == multiset(PairColumn(RowsOf(filtered, name), DateKey))[(Some(p.rows[i].key), Some(p.columns[j]))]
  {
    assert StrictTotalOrder(IntLess);
    PivotLayout(RowsOf(filtered, name), DateKey, IntLess, 0, "");
    PivotCells(RowsOf(filtered, name), DateKey, IntLess, i, j);
  }

  /**
   * The "Kontrollen pro Verteiler" view: PLZ and ERFASST_DATUM are written into
   * the table and the statistics are taken over the whole table; the view
   * stops with a ZeroDivisionError when no filtered row has a date, and
   * otherwise with a KeyError when the chart has no NICHT_OK column.
   */
  method DistributorView(df: DataFrame, filialen: seq<string>, verteiler: seq<string>, types: seq<string>,
                         detailName: string) returns (figures: Result<DistributorFigures, ViewError>)
    modifies df
    ensures df.rows == WithDates(WithPlz(old(df.rows)))
    ensures var filtered := Select(df.rows, Active([IsIn(Filiale, filialen), IsIn(Verteiler, verteiler), IsIn(Type, types)]));
      var average, chart := DistributorDailyAverage(filtered), DistributorChart(df.rows, filtered);
      && (figures.Failure? <==> average.Failure? || chart.None?)
      && (average.Failure? ==> figures == Failure(NoDays))
      && (average.Success? && chart.None? ==> figures == Failure(NoNichtOkColumn))
      && (figures.Success? ==> figures.value == DistributorFigures(
            DistributorStats(df.rows), |filtered|, average.value, chart.value, Detail(filtered, detailName)))
  {
    df.AddPlzColumn();
    df.AddDateColumn();
    var stats := DistributorStats(df.rows);
    var filtered := FilterDistributor(df.rows, filialen, verteiler, types);
    var average := DistributorDailyAverage(filtered);
    if average.Failure? {
      return Failure(NoDays);
    }
    var chart := DistributorChart(df.rows, filtered);
    if chart.None? {
      return Failure(NoNichtOkColumn);
    }
    figures := Success(DistributorFigures(stats, |filtered|, average.value, chart.value, Detail(filtered, detailName)));
  }
}
