/**
 * The uploaded control records. A pandas DataFrame is a sequence of rows, each
 * carrying its index label; a null cell is None. PLZ and ERFASST_DATUM are the
 * derived columns; they are None until the dashboard writes them.
 */
module Records {
  import opened Wrappers

  /** A parsed ERFASST value: the calendar day (as a day number) and the second within it. */
  datatype Timestamp = Timestamp(day: int, second: nat)

  datatype Record = Record(
    filiale: Option<string>,     // FILIALE
    typ: Option<string>,         // TYPE
    gebiet: Option<string>,      // GEBIET
    kontrolle: Option<string>,   // KONTROLLE
    zusatzinfo: Option<string>,  // ZUSATZINFO
    verteiler: Option<string>,   // NAME/VT/ABNEHMER
    erfasst: Option<Timestamp>,  // ERFASST
    plz: Option<string>,         // PLZ, derived from GEBIET
    datum: Option<int>)          // ERFASST_DATUM, derived from ERFASST

  /** A row and its index label. */
  datatype Row = Row(index: int, rec: Record)

  type Table = seq<Row>

  /** The default index of a freshly read sheet: labels 0, 1, ..., N-1. */
  predicate RangeIndexed(t: Table) {
    forall k :: 0 <= k < |t| ==> t[k].index == k
  }

  function Labelled(recs: seq<Record>): (t: Table)
    ensures |t| == |recs| && RangeIndexed(t)
    ensures forall k :: 0 <= k < |t| ==> t[k].rec == recs[k]
  {
    seq(|recs|, k requires 0 <= k < |recs| => Row(k, recs[k]))
  }

  function Min(a: int, b: int): int {
    if a <= b then a else b
  }

  /** GEBIET cut to its first four characters; a null GEBIET gives a null PLZ. */
  function Plz(gebiet: Option<string>): (p: Option<string>)
    ensures p.Some? <==> gebiet.Some?
    ensures gebiet.Some? ==> |p.value| == Min(4, |gebiet.value|) && p.value <= gebiet.value
    ensures gebiet.Some? && |gebiet.value| <= 4 ==> p == gebiet
  {
    match gebiet
    case None => None
    case Some(g) =>
      assert |g| <= 4 ==> g[..Min(4, |g|)] == g;
      Some(g[..Min(4, |g|)])
  }

  const UnknownDistributor: string := "Verteiler unbekannt"

  /** The default-fill of one distributor cell: an empty or missing name becomes the placeholder. */
  function FillName(name: Option<string>): string {
    if name.None? || name.value == "" then UnknownDistributor else name.value
  }

  /** The date part of ERFASST (`.dt.date`); a null timestamp gives a null date. */
  function DayOf(ts: Option<Timestamp>): Option<int> {
    match ts
    case None => None
    case Some(t) => Some(t.day)
  }

  /** The PLZ column: the first four characters of each GEBIET. */
  function WithPlz(t: Table): (r: Table)
    ensures |r| == |t|
    ensures forall k :: 0 <= k < |r| ==>
      r[k] == t[k].(rec := t[k].rec.(plz := Plz(t[k].rec.gebiet)))
  {
    seq(|t|, k requires 0 <= k < |t| => t[k].(rec := t[k].rec.(plz := Plz(t[k].rec.gebiet))))
  }

  /** The distributor column with empty and missing names filled. */
  function WithFilledNames(t: Table): (r: Table)
    ensures |r| == |t|
    ensures forall k :: 0 <= k < |r| ==>
      r[k] == t[k].(rec := t[k].rec.(verteiler := Some(FillName(t[k].rec.verteiler))))
  {
    seq(|t|, k requires 0 <= k < |t| => t[k].(rec := t[k].rec.(verteiler := Some(FillName(t[k].rec.verteiler)))))
  }

  /** The ERFASST_DATUM column: the calendar day of each ERFASST. */
  function WithDates(t: Table): (r: Table)
    ensures |r| == |t|
    ensures forall k :: 0 <= k < |r| ==>
      r[k] == t[k].(rec := t[k].rec.(datum := DayOf(t[k].rec.erfasst)))
  {
    seq(|t|, k requires 0 <= k < |t| => t[k].(rec := t[k].rec.(datum := DayOf(t[k].rec.erfasst))))
  }

  /** After the default-fill every distributor name is present and non-empty. */
  lemma FilledNamesNeverEmpty(t: Table)
    ensures forall row :: row in WithFilledNames(t) ==>
      row.rec.verteiler.Some? && row.rec.verteiler.value != ""
  {
  }

  /** The default-fill changes exactly the null and empty names, and only them. */
  lemma FillKeepsGivenNames(t: Table, k: nat)
    requires k < |t|
    ensures var before := t[k].rec.verteiler;
      var after := WithFilledNames(t)[k].rec.verteiler;
      && (before.Some? && before.value != "" ==> after == before)
      && (before.None? || before.value == "" ==> after == Some(UnknownDistributor))
  {
  }

  /** Every PLZ is a prefix of its GEBIET of length min(4, |GEBIET|); nothing else changes. */
  lemma PlzIsPrefixOfGebiet(t: Table, k: nat)
    requires k < |t|
    ensures var r := WithPlz(t)[k].rec;
      && r.gebiet == t[k].rec.gebiet
      && (r.plz.Some? <==> r.gebiet.Some?)
      && (r.gebiet.Some? ==> r.plz.value <= r.gebiet.value && |r.plz.value| == Min(4, |r.gebiet.value|))
  {
  }
}
