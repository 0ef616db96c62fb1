/**
 * The conjunctive multiselect filters of the three views. Each widget yields a
 * selection; a filter is applied only when its selection is non-empty
 * (`if selected_x:`), and applying it keeps, in order and with their labels,
 * the rows it accepts (boolean-mask indexing).
 */
module Filters {
  import opened Wrappers
  import opened Records
  import opened Tokens

  /** The columns filtered with `isin`. */
  datatype Field = Filiale | Type | Plz | Kontrolle | Verteiler

  function FieldOf(f: Field, r: Record): Option<string> {
    match f
    case Filiale => r.filiale
    case Type => r.typ
    case Plz => r.plz
    case Kontrolle => r.kontrolle
    case Verteiler => r.verteiler
  }

  /**
   * One filter: membership of a column's value in the selection (`isin`), or
   * the ZUSATZINFO test that some selected tag occurs in the cell's text.
   */
  datatype Criterion = IsIn(field: Field, selected: seq<string>) | MentionsAny(tags: seq<string>)

  /** `str(x)` of a ZUSATZINFO cell: a null cell prints as "nan". */
  function PyStr(cell: Option<string>): string {
    match cell
    case None => "nan"
    case Some(s) => s
  }

  /** Whether one row passes one filter; `isin` never accepts a null cell. */
  predicate Holds(c: Criterion, r: Record) {
    match c
    case IsIn(f, selected) => FieldOf(f, r).Some? && FieldOf(f, r).value in selected
    case MentionsAny(tags) => exists k :: 0 <= k < |tags| && IsSubstring(tags[k], PyStr(r.zusatzinfo))
  }

  /** `t[mask]` for the mask of one filter. */
  function Keep(t: Table, c: Criterion): Table {
    if t == [] then []
    else if Holds(c, t[0].rec) then [t[0]] + Keep(t[1..], c)
    else Keep(t[1..], c)
  }

  /** The filters applied one after the other, in the given order. */
  function Select(t: Table, cs: seq<Criterion>): Table
    decreases cs
  {
    if cs == [] then t else Select(Keep(t, cs[0]), cs[1..])
  }

  function Selection(c: Criterion): seq<string> {
    match c
    case IsIn(_, selected) => selected
    case MentionsAny(tags) => tags
  }

  /** The filters whose widget has something selected; the others are skipped. */
  function Active(cs: seq<Criterion>): seq<Criterion> {
    if cs == [] then []
    else if Selection(cs[0]) != [] then [cs[0]] + Active(cs[1..])
    else Active(cs[1..])
  }

  predicate MatchesAll(cs: seq<Criterion>, r: Record) {
    forall k :: 0 <= k < |cs| ==> Holds(cs[k], r)
  }

  /** Reference definition: one pass keeping, in order, the rows that pass every filter. */
  function Matching(t: Table, cs: seq<Criterion>): Table {
    if t == [] then []
    else if MatchesAll(cs, t[0].rec) then [t[0]] + Matching(t[1..], cs)
    else Matching(t[1..], cs)
  }

  // ---- the filter chains of the three views ----

  /** The "Zusatzinfo gesamt" chain: FILIALE, TYPE, PLZ, KONTROLLE, then ZUSATZINFO. */
  method FilterOverview(df: Table, filialen: seq<string>, types: seq<string>, plz: seq<string>,
                        kontrolle: seq<string>, zusatzinfo: seq<string>) returns (filtered: Table)
    ensures filtered == Select(df, Active([IsIn(Filiale, filialen), IsIn(Type, types), IsIn(Plz, plz),
                                            IsIn(Kontrolle, kontrolle), MentionsAny(zusatzinfo)]))
  {
    ghost var applied: seq<Criterion> := [];
    filtered := df;
    filtered := Narrow(filtered, IsIn(Filiale, filialen), df, applied);
    applied := applied + [IsIn(Filiale, filialen)];
    filtered := Narrow(filtered, IsIn(Type, types), df, applied);
    applied := applied + [IsIn(Type, types)];
    filtered := Narrow(filtered, IsIn(Plz, plz), df, applied);
    applied := applied + [IsIn(Plz, plz)];
    filtered := Narrow(filtered, IsIn(Kontrolle, kontrolle), df, applied);
    applied := applied + [IsIn(Kontrolle, kontrolle)];
    filtered := Narrow(filtered, MentionsAny(zusatzinfo), df, applied);
    applied := applied + [MentionsAny(zusatzinfo)];
    assert applied == [IsIn(Filiale, filialen), IsIn(Type, types), IsIn(Plz, plz), IsIn(Kontrolle, kontrolle), MentionsAny(zusatzinfo)];
  }

  /** The "Verteilerperformance" chain: TYPE, PLZ, KONTROLLE, FILIALE, then VERTEILER. */
  method FilterPerformance(df: Table, types: seq<string>, plz: seq<string>, kontrolle: seq<string>,
                           filialen: seq<string>, verteiler: seq<string>) returns (filtered: Table)
    ensures filtered == Select(df, Active([IsIn(Type, types), IsIn(Plz, plz), IsIn(Kontrolle, kontrolle),
                                            IsIn(Filiale, filialen), IsIn(Verteiler, verteiler)]))
  {
    ghost var applied: seq<Criterion> := [];
    filtered := df;
    filtered := Narrow(filtered, IsIn(Type, types), df, applied);
    applied := applied + [IsIn(Type, types)];
    filtered := Narrow(filtered, IsIn(Plz, plz), df, applied);
    applied := applied + [IsIn(Plz, plz)];
    filtered := Narrow(filtered, IsIn(Kontrolle, kontrolle), df, applied);
    applied := applied + [IsIn(Kontrolle, kontrolle)];
    filtered := Narrow(filtered, IsIn(Filiale, filialen), df, applied);
    applied := applied + [IsIn(Filiale, filialen)];
    filtered := Narrow(filtered, IsIn(Verteiler, verteiler), df, applied);
    applied := applied + [IsIn(Verteiler, verteiler)];
    assert applied == [IsIn(Type, types), IsIn(Plz, plz), IsIn(Kontrolle, kontrolle), IsIn(Filiale, filialen), IsIn(Verteiler, verteiler)];
  }

  /** The "Kontrollen pro Verteiler" chain: FILIALE, VERTEILER, then TYPE. */
  method FilterDistributor(df: Table, filialen: seq<string>, verteiler: seq<string>, types: seq<string>)
    returns (filtered: Table)
    ensures filtered == Select(df, Active([IsIn(Filiale, filialen), IsIn(Verteiler, verteiler), IsIn(Type, types)]))
  {
    ghost var applied: seq<Criterion> := [];
    filtered := df;
    filtered := Narrow(filtered, IsIn(Filiale, filialen), df, applied);
    applied := applied + [IsIn(Filiale, filialen)];
    filtered := Narrow(filtered, IsIn(Verteiler, verteiler), df, applied);
    applied := applied + [IsIn(Verteiler, verteiler)];
    filtered := Narrow(filtered, IsIn(Type, types), df, applied);
    applied := applied + [IsIn(Type, types)];
    assert applied == [IsIn(Filiale, filialen), IsIn(Verteiler, verteiler), IsIn(Type, types)];
  }

  /**
   * One filter widget: `if selected: filtered = filtered[mask]`. A widget with
   * nothing selected leaves the table as it is. Applied to the result of the
   * filters before it, it extends that chain by one.
   */
  method Narrow(t: Table, c: Criterion, ghost df: Table, ghost applied: seq<Criterion>) returns (r: Table)
    requires t == Select(df, Active(applied))
    ensures Selection(c) != [] ==> r == Keep(t, c)
    ensures Selection(c) == [] ==> r == t
    ensures r == Select(df, Active(applied + [c]))
  {
    r := t;
    if Selection(c) != [] {
      r := Keep(t, c);
    }
    ChainStep(df, applied, c, t, r);
  }

  /**
   * One guarded step extends the chain of the filters applied so far by the
   * next one exactly when it has a selection.
   */
  lemma ChainStep(df: Table, applied: seq<Criterion>, c: Criterion, before: Table, after: Table)
    requires before == Select(df, Active(applied))
    requires after == (if Selection(c) != [] then Keep(before, c) else before)
    ensures after == Select(df, Active(applied + [c]))
  {
    ActiveSnoc(applied, c);
    if Selection(c) != [] {
      SelectSnoc(df, Active(applied), c);
    } else {
      assert Active(applied) + [] == Active(applied);
    }
  }

  lemma {:induction false} ActiveSnoc(cs: seq<Criterion>, c: Criterion)
    ensures Active(cs + [c]) == Active(cs) + (if Selection(c) != [] then [c] else [])
  {
    if cs == [] {
      assert cs + [c] == [c];
    } else {
      assert (cs + [c])[1..] == cs[1..] + [c];
      ActiveSnoc(cs[1..], c);
    }
  }

  lemma {:induction false} SelectSnoc(t: Table, cs: seq<Criterion>, c: Criterion)
    ensures Select(t, cs + [c]) == Keep(Select(t, cs), c)
    decreases |cs|
  {
    if cs == [] {
      assert cs + [c] == [c];
    } else {
      assert (cs + [c])[1..] == cs[1..] + [c];
      SelectSnoc(Keep(t, cs[0]), cs[1..], c);
    }
  }

  // ---- what the filters keep ----

  lemma {:induction false} MatchingKeep(t: Table, c: Criterion, cs: seq<Criterion>)
    ensures Matching(Keep(t, c), cs) == Matching(t, [c] + cs)
  {
    if t != [] {
      MatchingKeep(t[1..], c, cs);
      var d, r := [c] + cs, t[0].rec;
      assert MatchesAll(d, r) <==> Holds(c, r) && MatchesAll(cs, r) by {
        assert d[0] == c;
        assert forall k :: 0 <= k < |cs| ==> d[k + 1] == cs[k];
        if Holds(c, r) && MatchesAll(cs, r) {
          forall k | 0 <= k < |d| ensures Holds(d[k], r) {
            if k > 0 {
              assert d[k] == cs[k - 1];
            }
          }
        }
      }
    }
  }

  /**
   * Applying the filters one after the other is the same as one pass keeping, in
   * order, exactly the rows that pass every filter.
   */
  lemma {:induction false} SelectIsMatching(t: Table, cs: seq<Criterion>)
    ensures Select(t, cs) == Matching(t, cs)
    decreases cs
  {
    if cs == [] {
      MatchingNothing(t);
    } else {
      SelectIsMatching(Keep(t, cs[0]), cs[1..]);
      MatchingKeep(t, cs[0], cs[1..]);
      assert [cs[0]] + cs[1..] == cs;
    }
  }

  lemma {:induction false} MatchingNothing(t: Table)
    ensures Matching(t, []) == t
  {
    if t != [] {
      MatchingNothing(t[1..]);
    }
  }

  /** A row survives exactly when it is a row of the table that passes every filter. */
  lemma {:induction false} MatchingMembers(t: Table, cs: seq<Criterion>, row: Row)
    ensures row in Matching(t, cs) <==> row in t && MatchesAll(cs, row.rec)
    ensures |Matching(t, cs)| <= |t|
  {
    if t != [] {
      MatchingMembers(t[1..], cs, row);
      assert t == [t[0]] + t[1..];
    }
  }

  /** Only the set of filters matters, not the order in which the chain applies them. */
  lemma {:induction false} MatchingOrderFree(t: Table, cs: seq<Criterion>, ds: seq<Criterion>)
    requires forall c :: c in cs <==> c in ds
    ensures Matching(t, cs) == Matching(t, ds)
  {
    if t != [] {
      MatchingOrderFree(t[1..], cs, ds);
      assert MatchesAll(cs, t[0].rec) <==> MatchesAll(ds, t[0].rec) by {
        if MatchesAll(cs, t[0].rec) {
          forall k | 0 <= k < |ds| ensures Holds(ds[k], t[0].rec) {
            assert ds[k] in cs;
          }
        }
        if MatchesAll(ds, t[0].rec) {
          forall k | 0 <= k < |cs| ensures Holds(cs[k], t[0].rec) {
            assert cs[k] in ds;
          }
        }
      }
    }
  }

  /**
   * The filtered table is the order-preserving subsequence of rows that pass
   * every filter with a selection; it never has more rows than the table.
   */
  lemma SelectKeepsPassingRows(t: Table, cs: seq<Criterion>, row: Row)
    ensures row in Select(t, Active(cs)) <==> row in t && MatchesAll(Active(cs), row.rec)
    ensures |Select(t, Active(cs))| <= |t|
    ensures Select(t, Active(cs)) == Matching(t, Active(cs))
  {
    SelectIsMatching(t, Active(cs));
    MatchingMembers(t, Active(cs), row);
  }

  /** Filters with an empty selection are skipped: with nothing selected the table is unchanged. */
  lemma {:induction false} NothingSelectedKeepsAll(t: Table, cs: seq<Criterion>)
    requires forall k :: 0 <= k < |cs| ==> Selection(cs[k]) == []
    ensures Select(t, Active(cs)) == t
  {
    if cs != [] {
      NothingSelectedKeepsAll(t, cs[1..]);
    }
  }

  /** Without the `if selected:` guard an empty `isin` selection would drop every row. */
  lemma {:induction false} UnguardedEmptyIsInDropsAll(t: Table, f: Field)
    ensures Keep(t, IsIn(f, [])) == []
  {
    if t != [] {
      UnguardedEmptyIsInDropsAll(t[1..], f);
    }
  }

  lemma {:induction false} KeepShrinks(t: Table, c: Criterion, row: Row)
    ensures row in Keep(t, c) <==> row in t && Holds(c, row.rec)
    ensures |Keep(t, c)| <= |t|
  {
    if t != [] {
      KeepShrinks(t[1..], c, row);
      assert t == [t[0]] + t[1..];
    }
  }

  /**
   * Selecting something in one more widget never adds rows: the result is a
   * sub-collection of what the other filters keep.
   */
  lemma OneMoreSelectionNeverAddsRows(t: Table, cs: seq<Criterion>, c: Criterion, row: Row)
    ensures |Select(t, Active(cs + [c]))| <= |Select(t, Active(cs))|
    ensures row in Select(t, Active(cs + [c])) ==> row in Select(t, Active(cs))
  {
    ActiveSnoc(cs, c);
    if Selection(c) != [] {
      SelectSnoc(t, Active(cs), c);
      KeepShrinks(Select(t, Active(cs)), c, row);
    } else {
      assert Active(cs) + [] == Active(cs);
    }
  }

  /**
   * The overview and performance views apply the same FILIALE, TYPE, PLZ and
   * KONTROLLE filters in different orders; with equal selections (and no tag or
   * distributor selection) they keep the same rows.
   */
  lemma OverviewAndPerformanceAgree(df: Table, filialen: seq<string>, types: seq<string>,
                                    plz: seq<string>, kontrolle: seq<string>)
    ensures Select(df, Active([IsIn(Filiale, filialen), IsIn(Type, types), IsIn(Plz, plz),
                               IsIn(Kontrolle, kontrolle), MentionsAny([])]))
         == Select(df, Active([IsIn(Type, types), IsIn(Plz, plz), IsIn(Kontrolle, kontrolle),
                               IsIn(Filiale, filialen), IsIn(Verteiler, [])]))
  {
    var cs := [IsIn(Filiale, filialen), IsIn(Type, types), IsIn(Plz, plz),
               IsIn(Kontrolle, kontrolle), MentionsAny([])];
    var ds := [IsIn(Type, types), IsIn(Plz, plz), IsIn(Kontrolle, kontrolle),
               IsIn(Filiale, filialen), IsIn(Verteiler, [])];
    ActiveMembers(cs);
    ActiveMembers(ds);
    SelectIsMatching(df, Active(cs));
    SelectIsMatching(df, Active(ds));
    MatchingOrderFree(df, Active(cs), Active(ds));
  }

  lemma {:induction false} ActiveMembers(cs: seq<Criterion>)
    ensures forall c :: c in Active(cs) <==> c in cs && Selection(c) != []
  {
    if cs != [] {
      ActiveMembers(cs[1..]);
      assert cs == [cs[0]] + cs[1..];
    }
  }

  /**
   * The ZUSATZINFO filter keeps a row exactly when one of the selected tags
   * occurs somewhere in the text of its cell ("nan" for a null cell).
   */
  lemma MentionsAnyIff(tags: seq<string>, r: Record)
    ensures Holds(MentionsAny(tags), r) <==>
      exists k: nat, p: nat :: k < |tags| && OccursAt(tags[k], PyStr(r.zusatzinfo), p)
  {
    var text := PyStr(r.zusatzinfo);
    forall k | 0 <= k < |tags|
      ensures IsSubstring(tags[k], text) <==> exists p: nat :: OccursAt(tags[k], text, p)
    {
      SubstringIff(tags[k], text);
    }
  }

  /** A cell "ABC" is dropped by the selection "AC": it is not a substring of "ABC". */
  lemma NonSubstringDropsRow(r: Record)
    requires r.zusatzinfo == Some("ABC")
    ensures !Holds(MentionsAny(["AC"]), r)
  {
    forall p: nat ensures !OccursAt("AC", "ABC", p) {
      if p == 0 {
        assert "ABC"[0..2][1] == 'B';
      } else if p == 1 {
        assert "ABC"[1..3][0] == 'B';
      }
    }
    SubstringIff("AC", "ABC");
    assert ["AC"][0] == "AC";
  }

  /**
   * The ZUSATZINFO filter tests substrings of `str(x)`: a row one of whose
   * tokens is selected is always kept.
   */
  lemma SelectedTokenKeepsRow(r: Record, tags: seq<string>, k: nat, j: nat)
    requires r.zusatzinfo.Some? && k < |tags| && j < |Split(r.zusatzinfo.value)|
    requires tags[k] == Split(r.zusatzinfo.value)[j]
    ensures Holds(MentionsAny(tags), r)
  {
    TokensAreSubstrings(r.zusatzinfo.value, j);
    assert IsSubstring(tags[k], PyStr(r.zusatzinfo));
  }

  /** ... but it is not token equality: selecting "AB" keeps a row whose only tag is "ABC". */
  lemma SubstringIsNotTokenEquality(r: Record)
    requires r.zusatzinfo == Some("ABC")
    ensures Holds(MentionsAny(["AB"]), r) && "AB" !in Split(r.zusatzinfo.value)
  {
    SubstringAt("AB", "ABC", 0);
    assert IsSubstring(["AB"][0], PyStr(r.zusatzinfo));
    assert Split("ABC") == ["ABC"] by {
      assert TokenLength("ABC") == 3;
      assert "ABC"[..3] == "ABC" && "ABC"[3..] == [];
    }
  }

  /** A null ZUSATZINFO is tested as the text "nan", so selecting "an" keeps it. */
  lemma NullCellIsTestedAsNan(r: Record)
    requires r.zusatzinfo.None?
    ensures Holds(MentionsAny(["an"]), r)
  {
    SubstringAt("an", "nan", 1);
    assert IsSubstring(["an"][0], PyStr(r.zusatzinfo));
  }
}
