/**
 * The figures the views compute from a (filtered) table: tag frequencies, the
 * per-distributor statistics, the outcome pivots behind the stacked bar charts,
 * the OK / NICHT_OK tallies and the daily averages.
 */
module Stats {
  import opened Wrappers
  import opened Ordering
  import opened Records
  import opened Melt
  import opened Counts
  import opened Filters

  // ---- columns ----

  function NameColumn(t: Table): seq<Option<string>> {
    seq(|t|, i requires 0 <= i < |t| => t[i].rec.verteiler)
  }

  function OutcomeColumn(t: Table): seq<Option<string>> {
    seq(|t|, i requires 0 <= i < |t| => t[i].rec.kontrolle)
  }

  function TypeColumn(t: Table): seq<Option<string>> {
    seq(|t|, i requires 0 <= i < |t| => t[i].rec.typ)
  }

  /** ERFASST_DATUM */
  function DatumColumn(t: Table): seq<Option<int>> {
    seq(|t|, i requires 0 <= i < |t| => t[i].rec.datum)
  }

  /** The calendar day of each row's ERFASST timestamp. */
  function ErfasstDateColumn(t: Table): seq<Option<int>> {
    seq(|t|, i requires 0 <= i < |t| => DayOf(t[i].rec.erfasst))
  }

  /** `nunique()`: the number of distinct non-null values. */
  function NUnique<T(==)>(column: seq<Option<T>>): nat {
    |set x | x in Present(column)|
  }

  lemma {:induction false} PresentMembers<T>(column: seq<Option<T>>, x: T)
    ensures x in Present(column) <==> Some(x) in column
  {
    if column != [] {
      PresentMembers(column[1..], x);
      assert column == [column[0]] + column[1..];
    }
  }

  // ---- tag and outcome frequencies ----

  /** The split tags of the table counted with value_counts() and sorted by count. */
  function TagCounts(t: Table): seq<Count<string>> {
    ValueCounts(Melt.Values(MeltTable(t)))
  }

  /**
   * Every tag of every cell is counted with its total number of occurrences
   * over all rows, each tag once, largest count first, and the counts add up
   * to the number of tokens.
   */
  lemma TagCountsExact(t: Table)
    ensures forall c :: c in TagCounts(t) ==> c.n == multiset(Flatten(Cells(t)))[c.value] > 0
    ensures forall v :: v in Flatten(Cells(t)) ==> Count(v, multiset(Flatten(Cells(t)))[v]) in TagCounts(t)
    ensures Distinct(TagCounts(t)) && NonIncreasing(ByCount, TagCounts(t))
    ensures Total(TagCounts(t)) == |Flatten(Cells(t))|
  {
    var xs, tokens := Melt.Values(MeltTable(t)), Flatten(Cells(t));
    MeltKeepsEveryToken(Cells(t));
    ValueCountsExact(xs);
    ValueCountsShape(xs);
    forall v | v in tokens ensures Count(v, multiset(tokens)[v]) in TagCounts(t) {
      assert v in multiset(xs);
    }
  }

  /** How often each KONTROLLE outcome occurs. */
  function OutcomeCounts(t: Table): seq<Count<string>> {
    ValueCounts(Present(OutcomeColumn(t)))
  }

  /** How often each TYPE occurs. */
  function TypeCounts(t: Table): seq<Count<string>> {
    ValueCounts(Present(TypeColumn(t)))
  }

  /**
   * `value_counts().get(v, 0)` of a column counts the rows holding exactly v;
   * null cells are never counted.
   */
  lemma ColumnCountOf(column: seq<Option<string>>, v: string)
    ensures CountOf(ValueCounts(Present(column)), v) == multiset(column)[Some(v)]
    ensures Total(ValueCounts(Present(column))) == |column| - multiset(column)[None]
  {
    CountOfValueCounts(Present(column), v);
    PresentCounts(column, v);
    ValueCountsShape(Present(column));
  }

  /** The rows of one distributor: those whose NAME/VT/ABNEHMER equals the name. */
  function RowsOf(t: Table, name: string): Table {
    Keep(t, IsIn(Verteiler, [name]))
  }

  lemma RowsOfMembers(t: Table, name: string, row: Row)
    ensures row in RowsOf(t, name) <==> row in t && row.rec.verteiler == Some(name)
    ensures |RowsOf(t, name)| <= |t|
  {
    KeepShrinks(t, IsIn(Verteiler, [name]), row);
  }

  /**
   * The "Anzahl OK" and "Anzahl NICHT_OK" metrics of the detail view: the
   * number of the distributor's rows with that outcome, 0 when there is none.
   */
  function OutcomeTally(t: Table, name: string, outcome: string): (n: nat)
    ensures n == multiset(OutcomeColumn(RowsOf(t, name)))[Some(outcome)]
  {
    ColumnCountOf(OutcomeColumn(RowsOf(t, name)), outcome);
    CountOf(ValueCounts(Present(OutcomeColumn(RowsOf(t, name)))), outcome)
  }

  // ---- per-distributor statistics ----

  /** The Series division KONTROLLE / ERFASST_DATUM in floating point. */
  datatype Average = Ratio(num: nat, den: nat) | Infinite | NotANumber

  function Divide(num: nat, den: nat): (a: Average)
    ensures den > 0 ==> a == Ratio(num, den)
    ensures den == 0 && num > 0 ==> a == Infinite
    ensures den == 0 && num == 0 ==> a == NotANumber
  {
    if den > 0 then Ratio(num, den) else if num > 0 then Infinite else NotANumber
  }

  /** One row of verteiler_stats. */
  datatype DistributorStat = DistributorStat(name: string, days: nat, controls: nat, average: Average)

  /** The groupby keys: the distinct non-null distributor names in ascending order. */
  function GroupNames(t: Table): (names: seq<string>)
    ensures StrictlySorted(StrLess, names)
    ensures forall name :: name in names <==> Some(name) in NameColumn(t)
  {
    StrLessIsStrictTotalOrder();
    var names := SortedDistinct(StrLess, Present(NameColumn(t)));
    assert forall name :: name in names <==> Some(name) in NameColumn(t) by {
      forall name ensures name in names <==> Some(name) in NameColumn(t) {
        PresentMembers(NameColumn(t), name);
      }
    }
    names
  }

  function StatOf(t: Table, name: string): DistributorStat {
    var group := RowsOf(t, name);
    var days, controls := NUnique(DatumColumn(group)), |Present(OutcomeColumn(group))|;
    DistributorStat(name, days, controls, Divide(controls, days))
  }

  /**
   * Grouping by distributor name: distinct dates and non-null controls per
   * distributor, with the average column.
   */
  function DistributorStats(t: Table): seq<DistributorStat> {
    var names := GroupNames(t);
    seq(|names|, k requires 0 <= k < |names| => StatOf(t, names[k]))
  }

  function StatNames(stats: seq<DistributorStat>): seq<string> {
    seq(|stats|, k requires 0 <= k < |stats| => stats[k].name)
  }

  /**
   * There is one statistics row per distinct non-null distributor name, in
   * ascending name order; rows without a name belong to no group.
   */
  lemma StatsGroupEveryName(t: Table)
    ensures StrictlySorted(StrLess, StatNames(DistributorStats(t)))
    ensures forall name :: name in StatNames(DistributorStats(t)) <==> Some(name) in NameColumn(t)
  {
    var names := GroupNames(t);
    assert StatNames(DistributorStats(t)) == names;
  }

  /**
   * For each distributor: `controls` is the number of its rows with a non-null
   * KONTROLLE, `days` the number of distinct non-null dates among its rows,
   * and the average is controls / days (infinite or NaN when no row has a date).
   */
  lemma StatCounts(t: Table, k: nat)
    requires k < |DistributorStats(t)|
    ensures var s := DistributorStats(t)[k];
      var group := RowsOf(t, s.name);
      && s.controls == |group| - multiset(OutcomeColumn(group))[None]
      && s.days == |set o | o in DatumColumn(group) && o.Some? :: o.value|
      && s.average == Divide(s.controls, s.days)
      && (forall row :: row in group <==> row in t && row.rec.verteiler == Some(s.name))
  {
    var s := DistributorStats(t)[k];
    var group := RowsOf(t, s.name);
    PresentCounts(OutcomeColumn(group), "");
    assert (set d | d in Present(DatumColumn(group))) == (set o | o in DatumColumn(group) && o.Some? :: o.value) by {
      forall d ensures d in Present(DatumColumn(group)) ==> Some(d) in DatumColumn(group) {
        PresentMembers(DatumColumn(group), d);
      }
      forall o | o in DatumColumn(group) && o.Some? ensures o.value in Present(DatumColumn(group)) {
        PresentMembers(DatumColumn(group), o.value);
      }
    }
    forall row ensures row in group <==> row in t && row.rec.verteiler == Some(s.name) {
      RowsOfMembers(t, s.name, row);
    }
  }

  // ---- outcome pivots: groupby([key, 'KONTROLLE']).size().unstack(fill_value=0) ----

  function NameKey(r: Record): Option<string> {
    r.verteiler
  }

  function DateKey(r: Record): Option<int> {
    r.datum
  }

  /** A groupby on two columns drops every row where either is null. */
  function Complete<K>(t: Table, keyOf: Record -> Option<K>): Table {
    if t == [] then []
    else if keyOf(t[0].rec).Some? && t[0].rec.kontrolle.Some? then [t[0]] + Complete(t[1..], keyOf)
    else Complete(t[1..], keyOf)
  }

  function KeyColumn<K>(t: Table, keyOf: Record -> Option<K>): seq<Option<K>> {
    seq(|t|, i requires 0 <= i < |t| => keyOf(t[i].rec))
  }

  /** The (key, KONTROLLE) pair of every row. */
  function PairColumn<K>(t: Table, keyOf: Record -> Option<K>): seq<(Option<K>, Option<string>)> {
    seq(|t|, i requires 0 <= i < |t| => (keyOf(t[i].rec), t[i].rec.kontrolle))
  }

  predicate IsPair<K(==)>(r: Record, keyOf: Record -> Option<K>, key: K, outcome: string) {
    keyOf(r) == Some(key) && r.kontrolle == Some(outcome)
  }

  /** `size()` of one (key, outcome) group. */
  function PairCount<K(==)>(t: Table, keyOf: Record -> Option<K>, key: K, outcome: string): nat {
    if t == [] then 0
    else (if IsPair(t[0].rec, keyOf, key, outcome) then 1 else 0) + PairCount(t[1..], keyOf, key, outcome)
  }

  /** The number of rows with the given key and some outcome. */
  function KeyCount<K(==)>(t: Table, keyOf: Record -> Option<K>, key: K): nat {
    if t == [] then 0
    else (if keyOf(t[0].rec) == Some(key) && t[0].rec.kontrolle.Some? then 1 else 0) + KeyCount(t[1..], keyOf, key)
  }

  datatype PivotRow<K> = PivotRow(key: K, cells: seq<nat>)

  /** The unstacked table: one column per outcome, one row per key. */
  datatype Pivot<K> = Pivot(columns: seq<string>, rows: seq<PivotRow<K>>)

  function PivotOf<K(==,!new)>(t: Table, keyOf: Record -> Option<K>, lt: (K, K) -> bool): Pivot<K>
    requires StrictTotalOrder(lt)
  {
    StrLessIsStrictTotalOrder();
    var c := Complete(t, keyOf);
    var keys := SortedDistinct(lt, Present(KeyColumn(c, keyOf)));
    var columns := SortedDistinct(StrLess, Present(OutcomeColumn(c)));
    Pivot(columns, seq(|keys|, i requires 0 <= i < |keys| =>
      PivotRow(keys[i], seq(|columns|, j requires 0 <= j < |columns| => PairCount(t, keyOf, keys[i], columns[j])))))
  }

  function RowKeys<K>(rows: seq<PivotRow<K>>): seq<K> {
    seq(|rows|, i requires 0 <= i < |rows| => rows[i].key)
  }

  /** The chart of the "Kontrollen pro Verteiler" view, before the merge. */
  function NamePivot(t: Table): Pivot<string> {
    StrLessIsStrictTotalOrder();
    PivotOf(t, NameKey, StrLess)
  }

  /** The daily chart of one distributor. */
  function DailyPivot(t: Table, name: string): Pivot<int> {
    assert StrictTotalOrder(IntLess);
    PivotOf(RowsOf(t, name), DateKey, IntLess)
  }

  lemma {:induction false} CompleteMembers<K>(t: Table, keyOf: Record -> Option<K>, row: Row)
    ensures row in Complete(t, keyOf) <==> row in t && keyOf(row.rec).Some? && row.rec.kontrolle.Some?
  {
    if t != [] {
      CompleteMembers(t[1..], keyOf, row);
      assert t == [t[0]] + t[1..];
    }
  }

  lemma KeyColumnMembers<K>(t: Table, keyOf: Record -> Option<K>, key: K)
    ensures Some(key) in KeyColumn(t, keyOf) <==> exists row :: row in t && keyOf(row.rec) == Some(key)
  {
    if Some(key) in KeyColumn(t, keyOf) {
      var i :| 0 <= i < |t| && KeyColumn(t, keyOf)[i] == Some(key);
      assert t[i] in t;
    }
    if exists row :: row in t && keyOf(row.rec) == Some(key) {
      var row :| row in t && keyOf(row.rec) == Some(key);
      var i :| 0 <= i < |t| && t[i] == row;
      assert KeyColumn(t, keyOf)[i] == Some(key);
    }
  }

  lemma OutcomeColumnMembers(t: Table, outcome: string)
    ensures Some(outcome) in OutcomeColumn(t) <==> exists row :: row in t && row.rec.kontrolle == Some(outcome)
  {
    if Some(outcome) in OutcomeColumn(t) {
      var i :| 0 <= i < |t| && OutcomeColumn(t)[i] == Some(outcome);
      assert t[i] in t;
    }
    if exists row :: row in t && row.rec.kontrolle == Some(outcome) {
      var row :| row in t && row.rec.kontrolle == Some(outcome);
      var i :| 0 <= i < |t| && t[i] == row;
      assert OutcomeColumn(t)[i] == Some(outcome);
    }
  }

  /**
   * The pivot has a row for exactly the keys that occur together with some
   * outcome, and a column for exactly the outcomes that occur together with
   * some key; both in ascending order, every row as wide as the column list.
   */
  lemma PivotLayout<K(!new)>(t: Table, keyOf: Record -> Option<K>, lt: (K, K) -> bool, key: K, outcome: string)
    requires StrictTotalOrder(lt)
    ensures var p := PivotOf(t, keyOf, lt);
      && StrictlySorted(lt, RowKeys(p.rows))
      && StrictlySorted(StrLess, p.columns)
      && (forall i :: 0 <= i < |p.rows| ==> |p.rows[i].cells| == |p.columns|)
      && (key in RowKeys(p.rows) <==>
            exists row :: row in t && keyOf(row.rec) == Some(key) && row.rec.kontrolle.Some?)
      && (outcome in p.columns <==>
            exists row :: row in t && keyOf(row.rec).Some? && row.rec.kontrolle == Some(outcome))
  {
    StrLessIsStrictTotalOrder();
    var p, c := PivotOf(t, keyOf, lt), Complete(t, keyOf);
    assert RowKeys(p.rows) == SortedDistinct(lt, Present(KeyColumn(c, keyOf)));
    PresentMembers(KeyColumn(c, keyOf), key);
    KeyColumnMembers(c, keyOf, key);
    PresentMembers(OutcomeColumn(c), outcome);
    OutcomeColumnMembers(c, outcome);
    forall row ensures row in c <==> row in t && keyOf(row.rec).Some? && row.rec.kontrolle.Some? {
      CompleteMembers(t, keyOf, row);
    }
  }

  /** A pair count is the number of rows carrying exactly that (key, outcome) pair. */
  lemma {:induction false} PairCountIsMultiplicity<K>(t: Table, keyOf: Record -> Option<K>, key: K, outcome: string)
    ensures PairCount(t, keyOf, key, outcome) == multiset(PairColumn(t, keyOf))[(Some(key), Some(outcome))]
  {
    if t != [] {
      PairCountIsMultiplicity(t[1..], keyOf, key, outcome);
      assert PairColumn(t, keyOf) == [(keyOf(t[0].rec), t[0].rec.kontrolle)] + PairColumn(t[1..], keyOf);
    }
  }

  /**
   * Every pivot cell is the number of rows with its key and its outcome; a
   * combination that never occurs is filled with 0, and only such a one.
   */
  lemma PivotCells<K(!new)>(t: Table, keyOf: Record -> Option<K>, lt: (K, K) -> bool, i: nat, j: nat)
    requires StrictTotalOrder(lt)
    requires i < |PivotOf(t, keyOf, lt).rows| && j < |PivotOf(t, keyOf, lt).columns|
    ensures var p := PivotOf(t, keyOf, lt);
      var pair := (Some(p.rows[i].key), Some(p.columns[j]));
      && j < |p.rows[i].cells|
      && p.rows[i].cells[j] == multiset(PairColumn(t, keyOf))[pair]
      && (p.rows[i].cells[j] == 0 <==> pair !in PairColumn(t, keyOf))
  {
    var p := PivotOf(t, keyOf, lt);
    PairCountIsMultiplicity(t, keyOf, p.rows[i].key, p.columns[j]);
  }

  // ---- a bar's height is the distributor's control count ----

  function Sum(xs: seq<nat>): nat {
    if xs == [] then 0 else xs[0] + Sum(xs[1..])
  }

  /** The row total over the listed outcome columns. */
  function RowTotal<K(==)>(t: Table, keyOf: Record -> Option<K>, key: K, columns: seq<string>): nat {
    if columns == [] then 0
    else PairCount(t, keyOf, key, columns[0]) + RowTotal(t, keyOf, key, columns[1..])
  }

  /** How many of the listed outcome columns one record falls into. */
  function Hits<K(==)>(r: Record, keyOf: Record -> Option<K>, key: K, columns: seq<string>): nat {
    if columns == [] then 0
    else (if IsPair(r, keyOf, key, columns[0]) then 1 else 0) + Hits(r, keyOf, key, columns[1..])
  }

  lemma {:induction false} SumOfCells<K>(t: Table, keyOf: Record -> Option<K>, key: K, columns: seq<string>)
    ensures Sum(seq(|columns|, j requires 0 <= j < |columns| => PairCount(t, keyOf, key, columns[j])))
         == RowTotal(t, keyOf, key, columns)
  {
    if columns != [] {
      var cells := seq(|columns|, j requires 0 <= j < |columns| => PairCount(t, keyOf, key, columns[j]));
      SumOfCells(t, keyOf, key, columns[1..]);
      assert cells[1..] == seq(|columns[1..]|, j requires 0 <= j < |columns[1..]| => PairCount(t, keyOf, key, columns[1..][j]));
    }
  }

  lemma {:induction false} RowTotalStep<K>(t: Table, keyOf: Record -> Option<K>, key: K, columns: seq<string>)
    requires t != []
    ensures RowTotal(t, keyOf, key, columns) == Hits(t[0].rec, keyOf, key, columns) + RowTotal(t[1..], keyOf, key, columns)
  {
    if columns != [] {
      RowTotalStep(t, keyOf, key, columns[1..]);
    }
  }

  lemma {:induction false} HitsNone<K>(r: Record, keyOf: Record -> Option<K>, key: K, columns: seq<string>)
    requires r.kontrolle.None? || r.kontrolle.value !in columns
    ensures Hits(r, keyOf, key, columns) == 0
  {
    if columns != [] {
      HitsNone(r, keyOf, key, columns[1..]);
    }
  }

  /** With distinct columns covering the record's outcome, a record falls into at most one column. */
  lemma {:induction false} HitsOnce<K>(r: Record, keyOf: Record -> Option<K>, key: K, columns: seq<string>)
    requires StrictlySorted(StrLess, columns)
    requires keyOf(r) == Some(key) && r.kontrolle.Some? ==> r.kontrolle.value in columns
    ensures Hits(r, keyOf, key, columns) == if keyOf(r) == Some(key) && r.kontrolle.Some? then 1 else 0
  {
    if columns != [] {
      var rest := columns[1..];
      assert StrictlySorted(StrLess, rest) by {
        forall i, j | 0 <= i < j < |rest| ensures StrLess(rest[i], rest[j]) {
          assert rest[i] == columns[i + 1] && rest[j] == columns[j + 1];
        }
      }
      if IsPair(r, keyOf, key, columns[0]) {
        assert r.kontrolle.value !in rest by {
          forall j | 0 <= j < |rest| ensures rest[j] != columns[0] {
            assert StrLess(columns[0], columns[j + 1]);
            StrLessIrreflexive(columns[0]);
          }
        }
        HitsNone(r, keyOf, key, rest);
      } else {
        HitsOnce(r, keyOf, key, rest);
      }
    }
  }

  /**
   * Summed over distinct columns that cover every outcome of the key's rows, the
   * pair counts give the number of rows with that key and an outcome.
   */
  lemma {:induction false} RowTotalIsKeyCount<K>(t: Table, keyOf: Record -> Option<K>, key: K, columns: seq<string>)
    requires StrictlySorted(StrLess, columns)
    requires forall row :: row in t && keyOf(row.rec) == Some(key) && row.rec.kontrolle.Some? ==>
      row.rec.kontrolle.value in columns
    ensures RowTotal(t, keyOf, key, columns) == KeyCount(t, keyOf, key)
  {
    if t != [] {
      RowTotalStep(t, keyOf, key, columns);
      HitsOnce(t[0].rec, keyOf, key, columns);
      assert forall row :: row in t[1..] ==> row in t;
      RowTotalIsKeyCount(t[1..], keyOf, key, columns);
    } else {
      RowTotalOfNothing(keyOf, key, columns);
    }
  }

  lemma {:induction false} RowTotalOfNothing<K>(keyOf: Record -> Option<K>, key: K, columns: seq<string>)
    ensures RowTotal([], keyOf, key, columns) == 0
  {
    if columns != [] {
      RowTotalOfNothing(keyOf, key, columns[1..]);
    }
  }

  /** A distributor's control count is the number of its rows with an outcome. */
  lemma {:induction false} ControlsAreKeyCount(t: Table, name: string)
    ensures StatOf(t, name).controls == KeyCount(t, NameKey, name)
  {
    if t != [] {
      ControlsAreKeyCount(t[1..], name);
      var c := IsIn(Verteiler, [name]);
      assert Holds(c, t[0].rec) <==> t[0].rec.verteiler == Some(name);
      if Holds(c, t[0].rec) {
        assert OutcomeColumn(RowsOf(t, name)) == [t[0].rec.kontrolle] + OutcomeColumn(RowsOf(t[1..], name));
      }
    }
  }

  /**
   * Each stacked bar of the distributor chart, summed over its outcomes, is the
   * distributor's KONTROLLE count from verteiler_stats, when both come from the
   * same table.
   */
  lemma BarTotalIsControlCount(t: Table, i: nat)
    requires i < |NamePivot(t).rows|
    ensures Sum(NamePivot(t).rows[i].cells) == StatOf(t, NamePivot(t).rows[i].key).controls
  {
    StrLessIsStrictTotalOrder();
    var p := NamePivot(t);
    var key := p.rows[i].key;
    PivotLayout(t, NameKey, StrLess, key, "");
    forall row | row in t && NameKey(row.rec) == Some(key) && row.rec.kontrolle.Some?
      ensures row.rec.kontrolle.value in p.columns
    {
      PivotLayout(t, NameKey, StrLess, key, row.rec.kontrolle.value);
    }
    SumOfCells(t, NameKey, key, p.columns);
    RowTotalIsKeyCount(t, NameKey, key, p.columns);
    ControlsAreKeyCount(t, key);
  }

  /** Filtering never raises a distributor's count of rows with an outcome. */
  lemma {:induction false} FilteringNeverRaisesKeyCount<K>(t: Table, cs: seq<Criterion>, keyOf: Record -> Option<K>, key: K)
    ensures KeyCount(Matching(t, cs), keyOf, key) <= KeyCount(t, keyOf, key)
  {
    if t != [] {
      FilteringNeverRaisesKeyCount(t[1..], cs, keyOf, key);
    }
  }

  // ---- the chart of the "Kontrollen pro Verteiler" view ----

  /** A bar of the chart: the pivot row and the distributor's VERTEILER_WERT average. */
  datatype ChartRow = ChartRow(name: string, cells: seq<nat>, average: Average)

  /** The statistics row of a distributor, if there is one. */
  function StatFor(stats: seq<DistributorStat>, name: string): Option<DistributorStat> {
    if stats == [] then None
    else if stats[0].name == name then Some(stats[0])
    else StatFor(stats[1..], name)
  }

  /** The chart rows joined with the statistics on the distributor name: an inner join in pivot order. */
  function MergeStats(rows: seq<PivotRow<string>>, stats: seq<DistributorStat>): seq<ChartRow> {
    if rows == [] then []
    else
      var rest := MergeStats(rows[1..], stats);
      match StatFor(stats, rows[0].key)
      case None => rest
      case Some(s) => [ChartRow(rows[0].key, rows[0].cells, s.average)] + rest
  }

  lemma {:induction false} StatForFindsName(stats: seq<DistributorStat>, name: string)
    requires name in StatNames(stats)
    ensures StatFor(stats, name).Some?
    ensures StatFor(stats, name).value in stats && StatFor(stats, name).value.name == name
  {
    if stats[0].name != name {
      assert name in StatNames(stats[1..]) by {
        var k :| 0 <= k < |stats| && StatNames(stats)[k] == name;
        assert StatNames(stats[1..])[k - 1] == name;
      }
      StatForFindsName(stats[1..], name);
    }
  }

  /** Looking a grouped name up in verteiler_stats finds that name's statistics. */
  lemma StatForGroup(t: Table, name: string)
    requires Some(name) in NameColumn(t)
    ensures StatFor(DistributorStats(t), name) == Some(StatOf(t, name))
  {
    var stats := DistributorStats(t);
    StatsGroupEveryName(t);
    StatForFindsName(stats, name);
    var s := StatFor(stats, name).value;
    var k :| 0 <= k < |stats| && stats[k] == s;
    assert s == StatOf(t, GroupNames(t)[k]);
  }

  /** When every bar's name has statistics, the merge keeps every bar, in order. */
  lemma {:induction false} MergeKeepsEveryBar(rows: seq<PivotRow<string>>, stats: seq<DistributorStat>)
    requires forall i :: 0 <= i < |rows| ==> StatFor(stats, rows[i].key).Some?
    ensures |MergeStats(rows, stats)| == |rows|
    ensures forall i :: 0 <= i < |rows| ==>
      MergeStats(rows, stats)[i] == ChartRow(rows[i].key, rows[i].cells, StatFor(stats, rows[i].key).value.average)
  {
    if rows != [] {
      assert forall i :: 0 <= i < |rows[1..]| ==> rows[1..][i] == rows[i + 1];
      MergeKeepsEveryBar(rows[1..], stats);
    }
  }

  /** The NICHT_OK count of a bar; 0 if the column is missing. */
  function NichtOk(c: ChartRow, columns: seq<string>): nat {
    NichtOkAt(c, IndexIn(columns, "NICHT_OK"))
  }

  function NichtOkAt(c: ChartRow, j: nat): nat {
    if j < |c.cells| then c.cells[j] else 0
  }

  /** The position of x in s, or |s| when x is not there. */
  function IndexIn(s: seq<string>, x: string): (j: nat)
    ensures j <= |s|
    ensures j < |s| <==> x in s
    ensures j < |s| ==> s[j] == x
  {
    if s == [] then 0
    else if s[0] == x then 0
    else 1 + IndexIn(s[1..], x)
  }

  /**
   * Sorting the chart descending by its NICHT_OK column: largest count first, a
   * permutation of the bars; a KeyError (None) when there is no NICHT_OK column.
   */
  function SortByNichtOk(chart: seq<ChartRow>, columns: seq<string>): (r: Option<seq<ChartRow>>)
    ensures r.Some? <==> "NICHT_OK" in columns
    ensures r.Some? ==> multiset(r.value) == multiset(chart)
    ensures r.Some? ==> forall i, j :: 0 <= i < j < |r.value| ==>
      NichtOk(r.value[i], columns) >= NichtOk(r.value[j], columns)
  {
    if "NICHT_OK" in columns then
      var j := IndexIn(columns, "NICHT_OK");
      Some(SortByKeyDesc((c: ChartRow) => NichtOkAt(c, j), chart))
    else None
  }

  /** The sorted, merged chart data of the "Kontrollen pro Verteiler" view. */
  function DistributorChart(df: Table, filtered: Table): Option<seq<ChartRow>> {
    var p := NamePivot(filtered);
    SortByNichtOk(MergeStats(p.rows, DistributorStats(df)), p.columns)
  }

  /**
   * For a filtered copy of the table: every bar survives the merge carrying its
   * distributor's average from the unfiltered table, and sorting fails exactly
   * when no remaining row with a distributor name has the outcome NICHT_OK.
   */
  lemma DistributorChartBars(df: Table, cs: seq<Criterion>)
    ensures var filtered := Select(df, Active(cs));
      var p := NamePivot(filtered);
      && |MergeStats(p.rows, DistributorStats(df))| == |p.rows|
      && (forall i :: 0 <= i < |p.rows| ==>
            MergeStats(p.rows, DistributorStats(df))[i] == ChartRow(p.rows[i].key, p.rows[i].cells, StatOf(df, p.rows[i].key).average))
      && (DistributorChart(df, filtered).None? <==>
            !exists row :: row in filtered && row.rec.verteiler.Some? && row.rec.kontrolle == Some("NICHT_OK"))
  {
    StrLessIsStrictTotalOrder();
    var filtered := Select(df, Active(cs));
    var p := NamePivot(filtered);
    var stats := DistributorStats(df);
    forall i | 0 <= i < |p.rows| ensures StatFor(stats, p.rows[i].key) == Some(StatOf(df, p.rows[i].key)) {
      var key := p.rows[i].key;
      PivotLayout(filtered, NameKey, StrLess, key, "NICHT_OK");
      assert key in RowKeys(p.rows) by {
        assert RowKeys(p.rows)[i] == key;
      }
      var row :| row in filtered && NameKey(row.rec) == Some(key) && row.rec.kontrolle.Some?;
      SelectKeepsPassingRows(df, cs, row);
      var k :| 0 <= k < |df| && df[k] == row;
      assert NameColumn(df)[k] == Some(key);
      StatForGroup(df, key);
    }
    MergeKeepsEveryBar(p.rows, stats);
    PivotLayout(filtered, NameKey, StrLess, "", "NICHT_OK");
  }

  // ---- daily averages ----

  datatype MetricError = ZeroDivisionError

  /** Python's `int / int` of the metric: a ZeroDivisionError when there are no days. */
  function MetricAverage(rows: nat, days: nat): Result<Average, MetricError> {
    if days == 0 then Failure(ZeroDivisionError) else Success(Ratio(rows, days))
  }

  /** "Verteilerperformance": filtered rows over the distinct dates of the whole table. */
  function PerformanceDailyAverage(filtered: Table, df: Table): (r: Result<Average, MetricError>)
    ensures r.Success? <==> exists row :: row in df && row.rec.erfasst.Some?
    ensures r.Success? ==>
      r.value == Ratio(|filtered|, |set row | row in df && row.rec.erfasst.Some? :: row.rec.erfasst.value.day|)
  {
    DatedRows(df);
    MetricAverage(|filtered|, NUnique(ErfasstDateColumn(df)))
  }

  /** "Kontrollen pro Verteiler": filtered rows over the distinct dates of the filtered rows. */
  function DistributorDailyAverage(filtered: Table): (r: Result<Average, MetricError>)
    ensures r.Success? <==> exists row :: row in filtered && row.rec.datum.Some?
    ensures r.Success? ==>
      r.value == Ratio(|filtered|, |set row | row in filtered && row.rec.datum.Some? :: row.rec.datum.value|)
  {
    DatumRows(filtered);
    MetricAverage(|filtered|, NUnique(DatumColumn(filtered)))
  }

  lemma NUniquePositive<T>(column: seq<Option<T>>)
    ensures NUnique(column) > 0 <==> Present(column) != []
  {
    var present := set x | x in Present(column);
    if Present(column) == [] {
      assert present == {};
    } else {
      assert Present(column)[0] in present;
    }
  }

  /**
   * nunique() of the ERFASST dates counts the distinct days of the rows that
   * have a timestamp, and is positive exactly when some row has one.
   */
  lemma DatedRows(t: Table)
    ensures NUnique(ErfasstDateColumn(t)) == |set row | row in t && row.rec.erfasst.Some? :: row.rec.erfasst.value.day|
    ensures NUnique(ErfasstDateColumn(t)) > 0 <==> exists row :: row in t && row.rec.erfasst.Some?
  {
    var col := ErfasstDateColumn(t);
    var days := set row | row in t && row.rec.erfasst.Some? :: row.rec.erfasst.value.day;
    forall x | x in Present(col) ensures x in days {
      PresentMembers(col, x);
      var k :| 0 <= k < |col| && col[k] == Some(x);
      assert t[k] in t;
    }
    forall x | x in days ensures x in Present(col) {
      var row :| row in t && row.rec.erfasst.Some? && row.rec.erfasst.value.day == x;
      var k :| 0 <= k < |t| && t[k] == row;
      assert col[k] == Some(x);
      PresentMembers(col, x);
    }
    assert (set x | x in Present(col)) == days;
    if exists row :: row in t && row.rec.erfasst.Some? {
      var row :| row in t && row.rec.erfasst.Some?;
      assert row.rec.erfasst.value.day in days;
    }
  }

  /**
   * nunique() of ERFASST_DATUM counts the distinct dates of the rows that have
   * one, and is positive exactly when some row has one.
   */
  lemma DatumRows(t: Table)
    ensures NUnique(DatumColumn(t)) == |set row | row in t && row.rec.datum.Some? :: row.rec.datum.value|
    ensures NUnique(DatumColumn(t)) > 0 <==> exists row :: row in t && row.rec.datum.Some?
  {
    var col := DatumColumn(t);
    var days := set row | row in t && row.rec.datum.Some? :: row.rec.datum.value;
    forall x | x in Present(col) ensures x in days {
      PresentMembers(col, x);
      var k :| 0 <= k < |col| && col[k] == Some(x);
      assert t[k] in t;
    }
    forall x | x in days ensures x in Present(col) {
      var row :| row in t && row.rec.datum.Some? && row.rec.datum.value == x;
      var k :| 0 <= k < |t| && t[k] == row;
      assert col[k] == Some(x);
      PresentMembers(col, x);
    }
    assert (set x | x in Present(col)) == days;
    if exists row :: row in t && row.rec.datum.Some? {
      var row :| row in t && row.rec.datum.Some?;
      assert row.rec.datum.value in days;
    }
  }

  lemma {:induction false} SubsetNoLarger<T>(a: set<T>, b: set<T>)
    requires a <= b
    ensures |a| <= |b|
    decreases a
  {
    if a != {} {
      var x :| x in a;
      SubsetNoLarger(a - {x}, b - {x});
    }
  }

  /**
   * The two views divide the same row count by different day counts: the
   * filtered rows never span more distinct dates than the whole table, so the
   * "Kontrollen pro Verteiler" average is never below the "Verteilerperformance"
   * one for the same rows.
   */
  lemma FilteredDaysAtMostAllDays(t: Table, cs: seq<Criterion>)
    requires forall row :: row in t ==> row.rec.datum == DayOf(row.rec.erfasst)
    ensures NUnique(DatumColumn(Select(t, Active(cs)))) <= NUnique(ErfasstDateColumn(t))
    ensures var filtered := Select(t, Active(cs));
      var a, b := DistributorDailyAverage(filtered), PerformanceDailyAverage(filtered, t);
      a.Success? ==> b.Success? && a.value.num * b.value.den >= b.value.num * a.value.den
  {
    var filtered := Select(t, Active(cs));
    var fc, tc := DatumColumn(filtered), ErfasstDateColumn(t);
    forall x | x in Present(fc) ensures x in Present(tc) {
      PresentMembers(fc, x);
      var k :| 0 <= k < |filtered| && fc[k] == Some(x);
      SelectKeepsPassingRows(t, cs, filtered[k]);
      var m :| 0 <= m < |t| && t[m] == filtered[k];
      assert tc[m] == Some(x);
      PresentMembers(tc, x);
    }
    SubsetNoLarger(set x | x in Present(fc), set x | x in Present(tc));
    var d1, d2 := NUnique(fc), NUnique(tc);
    if d1 > 0 {
      assert |filtered| * d2 >= |filtered| * d1 by {
        MulMonotone(|filtered|, d1, d2);
      }
    }
  }

  /**
   * The two averages differ on the same filtered rows: two rows of branches A
   * and B on days 1 and 2, filtered to branch A, give 1/2 in
   * "Verteilerperformance" and 1/1 in "Kontrollen pro Verteiler".
   */
  lemma DenominatorsDiffer()
    ensures var a := Record(Some("A"), None, None, None, None, None, Some(Timestamp(1, 0)), None, Some(1));
      var b := Record(Some("B"), None, None, None, None, None, Some(Timestamp(2, 0)), None, Some(2));
      var t := [Row(0, a), Row(1, b)];
      var filtered := Select(t, Active([IsIn(Filiale, ["A"])]));
      && filtered == [Row(0, a)]
      && PerformanceDailyAverage(filtered, t) == Success(Ratio(1, 2))
      && DistributorDailyAverage(filtered) == Success(Ratio(1, 1))
  {
    var a := Record(Some("A"), None, None, None, None, None, Some(Timestamp(1, 0)), None, Some(1));
    var b := Record(Some("B"), None, None, None, None, None, Some(Timestamp(2, 0)), None, Some(2));
    var t := [Row(0, a), Row(1, b)];
    var cs := [IsIn(Filiale, ["A"])];
    assert Active(cs) == cs;
    assert "B" != "A" by { assert "B"[0] != "A"[0]; }
    assert !Holds(cs[0], b);
    assert t[1..] == [Row(1, b)] && [Row(1, b)][1..] == [];
    assert Keep([Row(1, b)], cs[0]) == Keep([], cs[0]) == [];
    assert Holds(cs[0], a);
    assert Keep(t, cs[0]) == [Row(0, a)] + Keep([Row(1, b)], cs[0]);
    assert Select(t, cs) == [Row(0, a)];
    var col := ErfasstDateColumn(t);
    assert col == [Some(1), Some(2)];
    assert col[1..] == [Some(2)] && col[1..][1..] == [];
    assert Present([Some(2)]) == [2] + Present([]);
    assert Present(col) == [1] + Present([Some(2)]);
    assert Present(col) == [1, 2];
    assert (set x | x in [1, 2]) == {1, 2};
    assert NUnique(col) == |{1, 2}| == 2;
    assert DatumColumn([Row(0, a)]) == [Some(1)];
    assert Present(DatumColumn([Row(0, a)])) == [1];
    assert (set x | x in [1]) == {1};
  }
}
