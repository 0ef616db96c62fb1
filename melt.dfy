/**
 * Splitting the ZUSATZINFO column into one column per token, stacking those
 * columns (`melt`), dropping the padding, and merging the result back onto a
 * table by index label.
 *
 * `split(expand=True)` gives one column per token position, as many as the
 * longest split; `melt()` stacks those columns one after another under a new
 * index 0, 1, 2, ..., so the token in column j of row position i (of N rows)
 * gets index j*N + i; `dropna()` drops the padding. The merge then pairs each
 * token with the rows whose index label equals that number, which is the
 * owning row only when j == 0 and the table is indexed 0..N-1.
 */
module Melt {
  import opened Records
  import opened Tokens

  /** One row of the melted split: its new index and the token. */
  datatype Tag = Tag(index: int, value: string)

  /** One row of the merge: the token and the table row it was joined to. */
  datatype Joined = Joined(value: string, row: Row)

  /** The split of every ZUSATZINFO cell, by row position. */
  function Cells(t: Table): (c: seq<seq<string>>)
    ensures |c| == |t|
    ensures forall i :: 0 <= i < |t| ==> c[i] == SplitCell(t[i].rec.zusatzinfo)
  {
    seq(|t|, i requires 0 <= i < |t| => SplitCell(t[i].rec.zusatzinfo))
  }

  /** The number of columns of `split(expand=True)`: the longest split. */
  function Width(cells: seq<seq<string>>): (w: nat)
    ensures forall i :: 0 <= i < |cells| ==> |cells[i]| <= w
    ensures w == 0 || exists i :: 0 <= i < |cells| && |cells[i]| == w
  {
    if cells == [] then 0
    else
      var w := Width(cells[1..]);
      assert forall i :: 1 <= i < |cells| ==> cells[i] == cells[1..][i - 1];
      if |cells[0]| >= w then |cells[0]| else w
  }

  function Values(tags: seq<Tag>): (r: seq<string>)
    ensures |r| == |tags|
  {
    if tags == [] then [] else [tags[0].value] + Values(tags[1..])
  }

  ghost predicate Increasing(tags: seq<Tag>) {
    forall a, b :: 0 <= a < b < |tags| ==> tags[a].index < tags[b].index
  }

  lemma {:induction false} Decode(j: nat, i: nat, n: nat)
    requires i < n
    ensures (j * n + i) / n == j && (j * n + i) % n == i
  {
    var a := j * n + i;
    var q, r := a / n, a % n;
    assert n * q + r == n * j + i;
    if q > j {
      assert n * q >= n * (j + 1) by { MulMonotone(n, j + 1, q); }
      assert false;
    } else if q < j {
      assert n * j >= n * (q + 1) by { MulMonotone(n, q + 1, j); }
      assert false;
    }
  }

  lemma MulMonotone(n: nat, a: int, b: int)
    requires a <= b
    ensures n * a <= n * b
  {
    assert n * b - n * a == n * (b - a);
  }

  /**
   * Rows i.. of split column j, null padding dropped; start is the new index
   * of row position 0 of this column (j*N).
   */
  function MeltColumn(cells: seq<seq<string>>, j: nat, start: int, i: nat): seq<Tag>
    decreases |cells| - i
  {
    if i >= |cells| then []
    else (if j < |cells[i]| then [Tag(start + i, cells[i][j])] else []) + MeltColumn(cells, j, start, i + 1)
  }

  /** Split columns j..k-1, stacked one after another; column j starts at index start. */
  function MeltColumns(cells: seq<seq<string>>, j: nat, k: nat, start: int): seq<Tag>
    decreases k - j
  {
    if j >= k then []
    else MeltColumn(cells, j, start, 0) + MeltColumns(cells, j + 1, k, start + |cells|)
  }

  /** A melted column holds, under index start + p, the token of row position p. */
  lemma {:induction false} ColumnOrigin(cells: seq<seq<string>>, j: nat, start: int, i: nat)
    ensures forall x :: x in MeltColumn(cells, j, start, i) ==>
      var p := x.index - start;
      i <= p < |cells| && j < |cells[p]| && x.value == cells[p][j]
    decreases |cells| - i
  {
    if i < |cells| {
      ColumnOrigin(cells, j, start, i + 1);
    }
  }

  lemma {:induction false} ColumnIncreasing(cells: seq<seq<string>>, j: nat, start: int, i: nat)
    ensures Increasing(MeltColumn(cells, j, start, i))
    decreases |cells| - i
  {
    if i < |cells| {
      ColumnIncreasing(cells, j, start, i + 1);
      ColumnOrigin(cells, j, start, i + 1);
    }
  }

  lemma {:induction false} ColumnsIncreasing(cells: seq<seq<string>>, j: nat, k: nat, start: int)
    ensures Increasing(MeltColumns(cells, j, k, start))
    ensures forall x :: x in MeltColumns(cells, j, k, start) ==> start <= x.index
    decreases k - j
  {
    if j < k {
      ColumnsIncreasing(cells, j + 1, k, start + |cells|);
      ColumnIncreasing(cells, j, start, 0);
      ColumnOrigin(cells, j, start, 0);
      var col, rest := MeltColumn(cells, j, start, 0), MeltColumns(cells, j + 1, k, start + |cells|);
      var r := col + rest;
      forall a, b | 0 <= a < b < |r| ensures r[a].index < r[b].index {
        if b < |col| {
        } else if a >= |col| {
          assert r[a] == rest[a - |col|] && r[b] == rest[b - |col|];
        } else {
          assert r[a] in col && r[b] in rest;
        }
      }
    }
  }

  /** `str.split(expand=True).melt().dropna()` of a column of split cells. */
  function MeltCells(cells: seq<seq<string>>): seq<Tag> {
    MeltColumns(cells, 0, Width(cells), 0)
  }

  function MeltTable(t: Table): seq<Tag> {
    MeltCells(Cells(t))
  }

  /** Every melted token is the token in split column index / N of row position index % N. */
  lemma {:induction false} MeltedTokenOrigin(cells: seq<seq<string>>, j: nat, k: nat, start: int, x: Tag)
    returns (i: nat, c: nat)
    requires start == j * |cells|
    requires x in MeltColumns(cells, j, k, start)
    ensures |cells| > 0 && x.index >= 0
    ensures i == x.index % |cells| && c == x.index / |cells| && x.index == c * |cells| + i
    ensures i < |cells| && c < |cells[i]| && x.value == cells[i][c]
    decreases k - j
  {
    var n := |cells|;
    if x in MeltColumn(cells, j, start, 0) {
      ColumnOrigin(cells, j, start, 0);
      Decode(j, x.index - start, n);
      i, c := x.index - start, j;
    } else {
      assert start + n == (j + 1) * n;
      i, c := MeltedTokenOrigin(cells, j + 1, k, start + n, x);
    }
  }

  /** Every token of every cell is melted, under index j*N + i. */
  lemma {:induction false} MeltColumnComplete(cells: seq<seq<string>>, j: nat, start: int, i0: nat, i: nat)
    requires i0 <= i < |cells| && j < |cells[i]|
    ensures Tag(start + i, cells[i][j]) in MeltColumn(cells, j, start, i0)
    decreases i - i0
  {
    if i0 < i {
      MeltColumnComplete(cells, j, start, i0 + 1, i);
    }
  }

  lemma {:induction false} MeltColumnsComplete(cells: seq<seq<string>>, j0: nat, k: nat, start: int, i: nat, j: nat)
    requires start == j0 * |cells|
    requires i < |cells| && j0 <= j < k && j < |cells[i]|
    ensures Tag(j * |cells| + i, cells[i][j]) in MeltColumns(cells, j0, k, start)
    decreases j - j0
  {
    var n := |cells|;
    var tag := Tag(j * n + i, cells[i][j]);
    assert MeltColumns(cells, j0, k, start) == MeltColumn(cells, j0, start, 0) + MeltColumns(cells, j0 + 1, k, start + n);
    if j0 < j {
      assert j0 * n + n == (j0 + 1) * n;
      MeltColumnsComplete(cells, j0 + 1, k, start + n, i, j);
      assert tag in MeltColumns(cells, j0 + 1, k, start + n);
    } else {
      MeltColumnComplete(cells, j, start, 0, i);
      assert tag in MeltColumn(cells, j0, start, 0);
    }
  }

  /**
   * The melted split holds exactly the tokens of the cells: the token in
   * column j of row position i, under index j*N + i, and nothing else; the
   * indices ascend (column by column, row by row within a column).
   */
  lemma MeltLayout(cells: seq<seq<string>>)
    ensures Increasing(MeltCells(cells))
    ensures forall x :: x in MeltCells(cells) ==>
      exists i, j :: 0 <= i < |cells| && 0 <= j < |cells[i]| && x.index == j * |cells| + i && x.value == cells[i][j]
    ensures forall i, j :: 0 <= i < |cells| && 0 <= j < |cells[i]| ==>
      Tag(j * |cells| + i, cells[i][j]) in MeltCells(cells)
  {
    ColumnsIncreasing(cells, 0, Width(cells), 0);
    forall x | x in MeltCells(cells)
      ensures exists i, j :: 0 <= i < |cells| && 0 <= j < |cells[i]| && x.index == j * |cells| + i && x.value == cells[i][j]
    {
      var i, c := MeltedTokenOrigin(cells, 0, Width(cells), 0, x);
      assert x.index == c * |cells| + i && x.value == cells[i][c];
    }
    forall i, j | 0 <= i < |cells| && 0 <= j < |cells[i]|
      ensures Tag(j * |cells| + i, cells[i][j]) in MeltCells(cells)
    {
      MeltColumnsComplete(cells, 0, Width(cells), 0, i, j);
    }
  }

  // ---- The melted split holds each cell's tokens with their multiplicities ----

  function Flatten(cells: seq<seq<string>>): seq<string> {
    if cells == [] then [] else cells[0] + Flatten(cells[1..])
  }

  ghost function Entry(cells: seq<seq<string>>, i: nat, j: nat): multiset<string> {
    if i < |cells| && j < |cells[i]| then multiset{cells[i][j]} else multiset{}
  }

  ghost function ColumnBag(cells: seq<seq<string>>, j: nat, i: nat): multiset<string>
    decreases |cells| - i
  {
    if i >= |cells| then multiset{} else Entry(cells, i, j) + ColumnBag(cells, j, i + 1)
  }

  ghost function RowBag(cells: seq<seq<string>>, i: nat, j: nat, k: nat): multiset<string>
    decreases k - j
  {
    if j >= k then multiset{} else Entry(cells, i, j) + RowBag(cells, i, j + 1, k)
  }

  /** Columns j..k-1, rows i.., summed column by column. */
  ghost function GridByColumns(cells: seq<seq<string>>, j: nat, k: nat, i: nat): multiset<string>
    decreases k - j
  {
    if j >= k then multiset{} else ColumnBag(cells, j, i) + GridByColumns(cells, j + 1, k, i)
  }

  /** The same grid summed row by row. */
  ghost function GridByRows(cells: seq<seq<string>>, i: nat, j: nat, k: nat): multiset<string>
    decreases |cells| - i
  {
    if i >= |cells| then multiset{} else RowBag(cells, i, j, k) + GridByRows(cells, i + 1, j, k)
  }

  /** The tag values of a melted sequence, as a bag. */
  ghost function Bag(tags: seq<Tag>): multiset<string> {
    if tags == [] then multiset{} else multiset{tags[0].value} + Bag(tags[1..])
  }

  lemma {:induction false} BagAppend(a: seq<Tag>, b: seq<Tag>)
    ensures Bag(a + b) == Bag(a) + Bag(b)
  {
    if a == [] {
      assert a + b == b;
    } else {
      assert (a + b)[1..] == a[1..] + b;
      BagAppend(a[1..], b);
    }
  }

  lemma {:induction false} BagIsValues(tags: seq<Tag>)
    ensures Bag(tags) == multiset(Values(tags))
  {
    if tags != [] {
      BagIsValues(tags[1..]);
      assert Values(tags) == [tags[0].value] + Values(tags[1..]);
    }
  }

  lemma {:induction false} ColumnBagIsMelted(cells: seq<seq<string>>, j: nat, start: int, i: nat)
    ensures Bag(MeltColumn(cells, j, start, i)) == ColumnBag(cells, j, i)
    decreases |cells| - i
  {
    if i < |cells| {
      ColumnBagIsMelted(cells, j, start, i + 1);
      var head := if j < |cells[i]| then [Tag(start + i, cells[i][j])] else [];
      var rest := MeltColumn(cells, j, start, i + 1);
      assert MeltColumn(cells, j, start, i) == head + rest;
      BagAppend(head, rest);
      assert Bag(head) == Entry(cells, i, j) by {
        if j < |cells[i]| {
          assert head[1..] == [];
        }
      }
    }
  }

  lemma {:induction false} GridIsMelted(cells: seq<seq<string>>, j: nat, k: nat, start: int)
    ensures Bag(MeltColumns(cells, j, k, start)) == GridByColumns(cells, j, k, 0)
    decreases k - j
  {
    if j < k {
      var col, rest := MeltColumn(cells, j, start, 0), MeltColumns(cells, j + 1, k, start + |cells|);
      assert MeltColumns(cells, j, k, start) == col + rest;
      BagAppend(col, rest);
      ColumnBagIsMelted(cells, j, start, 0);
      GridIsMelted(cells, j + 1, k, start + |cells|);
    }
  }

  lemma {:induction false} PeelRow(cells: seq<seq<string>>, j: nat, k: nat, i: nat)
    requires i < |cells|
    ensures GridByColumns(cells, j, k, i) == RowBag(cells, i, j, k) + GridByColumns(cells, j, k, i + 1)
    decreases k - j
  {
    if j < k {
      PeelRow(cells, j + 1, k, i);
    }
  }

  lemma {:induction false} Interchange(cells: seq<seq<string>>, j: nat, k: nat, i: nat)
    ensures GridByColumns(cells, j, k, i) == GridByRows(cells, i, j, k)
    decreases |cells| - i
  {
    if i < |cells| {
      PeelRow(cells, j, k, i);
      Interchange(cells, j, k, i + 1);
    } else {
      EmptyGrid(cells, j, k, i);
    }
  }

  lemma {:induction false} EmptyGrid(cells: seq<seq<string>>, j: nat, k: nat, i: nat)
    requires i >= |cells|
    ensures GridByColumns(cells, j, k, i) == multiset{}
    decreases k - j
  {
    if j < k {
      EmptyGrid(cells, j + 1, k, i);
    }
  }

  lemma {:induction false} RowBagPastEnd(cells: seq<seq<string>>, i: nat, j: nat, k: nat)
    requires i < |cells| && j >= |cells[i]|
    ensures RowBag(cells, i, j, k) == multiset{}
    decreases k - j
  {
    if j < k {
      RowBagPastEnd(cells, i, j + 1, k);
    }
  }

  lemma {:induction false} RowBagIsCell(cells: seq<seq<string>>, i: nat, j: nat, k: nat)
    requires i < |cells| && j <= |cells[i]| <= k
    ensures RowBag(cells, i, j, k) == multiset(cells[i][j..])
    decreases |cells[i]| - j
  {
    if j == |cells[i]| {
      RowBagPastEnd(cells, i, j, k);
    } else {
      RowBagIsCell(cells, i, j + 1, k);
      assert cells[i][j..] == [cells[i][j]] + cells[i][j + 1..];
    }
  }

  lemma {:induction false} GridByRowsIsFlatten(cells: seq<seq<string>>, i: nat, k: nat)
    requires i <= |cells|
    requires forall r :: 0 <= r < |cells| ==> |cells[r]| <= k
    ensures GridByRows(cells, i, 0, k) == multiset(Flatten(cells[i..]))
    decreases |cells| - i
  {
    if i < |cells| {
      GridByRowsIsFlatten(cells, i + 1, k);
      RowBagIsCell(cells, i, 0, k);
      assert cells[i..][1..] == cells[i + 1..];
      assert cells[i][0..] == cells[i];
    }
  }

  /**
   * Each cell contributes exactly its tokens: the melted values are the tokens
   * of all cells with their multiplicities, so there are as many as the cells
   * hold together.
   */
  lemma MeltKeepsEveryToken(cells: seq<seq<string>>)
    ensures multiset(Values(MeltCells(cells))) == multiset(Flatten(cells))
    ensures |MeltCells(cells)| == |Flatten(cells)|
  {
    var k := Width(cells);
    GridIsMelted(cells, 0, k, 0);
    BagIsValues(MeltCells(cells));
    Interchange(cells, 0, k, 0);
    GridByRowsIsFlatten(cells, 0, k);
    assert cells[0..] == cells;
    assert |multiset(Values(MeltCells(cells)))| == |multiset(Flatten(cells))|;
  }

  // ---- The merge on the index ----

  /** The rows whose index label is l, in table order. */
  function RowsWithIndex(t: Table, l: int): Table {
    if t == [] then []
    else (if t[0].index == l then [t[0]] else []) + RowsWithIndex(t[1..], l)
  }

  /** Every tag value paired with each of the given rows. */
  function Pair(v: string, rows: Table): seq<Joined> {
    if rows == [] then [] else [Joined(v, rows[0])] + Pair(v, rows[1..])
  }

  /**
   * The merge of the tags with a table on both indexes: an inner join on index
   * label equality, in the order of the tags.
   */
  function JoinByIndex(tags: seq<Tag>, t: Table): seq<Joined> {
    if tags == [] then []
    else Pair(tags[0].value, RowsWithIndex(t, tags[0].index)) + JoinByIndex(tags[1..], t)
  }

  lemma {:induction false} RowsWithIndexMembers(t: Table, l: int)
    ensures forall row :: row in RowsWithIndex(t, l) <==> row in t && row.index == l
  {
    if t != [] {
      RowsWithIndexMembers(t[1..], l);
      assert t == [t[0]] + t[1..];
    }
  }

  lemma {:induction false} PairMembers(v: string, rows: Table)
    ensures forall x :: x in Pair(v, rows) <==> x.value == v && x.row in rows
  {
    if rows != [] {
      PairMembers(v, rows[1..]);
      assert rows == [rows[0]] + rows[1..];
    }
  }

  /** Each row of the merge is a table row together with a tag carrying that row's label. */
  lemma {:induction false} JoinSound(tags: seq<Tag>, t: Table)
    ensures forall x :: x in JoinByIndex(tags, t) ==> x.row in t && Tag(x.row.index, x.value) in tags
  {
    if tags != [] {
      JoinSound(tags[1..], t);
      PairMembers(tags[0].value, RowsWithIndex(t, tags[0].index));
      RowsWithIndexMembers(t, tags[0].index);
      assert tags == [tags[0]] + tags[1..];
    }
  }

  /** Each tag is paired with every row carrying its label. */
  lemma {:induction false} JoinComplete(tags: seq<Tag>, t: Table, tag: Tag, row: Row)
    requires tag in tags && row in t && row.index == tag.index
    ensures Joined(tag.value, row) in JoinByIndex(tags, t)
  {
    if tags[0] == tag {
      PairMembers(tag.value, RowsWithIndex(t, tag.index));
      RowsWithIndexMembers(t, tag.index);
    } else {
      JoinComplete(tags[1..], t, tag, row);
    }
  }

  lemma {:induction false} JoinAppend(a: seq<Tag>, b: seq<Tag>, t: Table)
    ensures JoinByIndex(a + b, t) == JoinByIndex(a, t) + JoinByIndex(b, t)
  {
    if a == [] {
      assert a + b == b;
    } else {
      assert (a + b)[1..] == a[1..] + b;
      JoinAppend(a[1..], b, t);
    }
  }

  /**
   * After the merge, a token is paired with a row whose label is j*N + i when
   * it came from split column j of row position i; it is the token of that
   * position, not necessarily one of the paired row's own tokens.
   */
  lemma JoinPairsByIndex(t: Table, x: Joined) returns (i: nat, j: nat)
    requires x in JoinByIndex(MeltTable(t), t)
    ensures x.row in t && x.row.index >= 0
    ensures i == x.row.index % |t| && j == x.row.index / |t|
    ensures i < |t| && j < |Cells(t)[i]| && x.value == Cells(t)[i][j]
  {
    JoinSound(MeltTable(t), t);
    i, j := MeltTableOrigin(t, x.row.index, x.value);
  }

  lemma MeltTableOrigin(t: Table, l: int, v: string) returns (i: nat, j: nat)
    requires Tag(l, v) in MeltTable(t)
    ensures l >= 0 && |t| > 0
    ensures i == l % |t| && j == l / |t|
    ensures i < |t| && j < |Cells(t)[i]| && v == Cells(t)[i][j]
  {
    var cells := Cells(t);
    i, j := MeltedTokenOrigin(cells, 0, Width(cells), 0, Tag(l, v));
  }

  /** Every token of row position i, column j, is paired with every row labelled j*N + i. */
  lemma JoinFindsIndex(t: Table, i: nat, j: nat, row: Row)
    requires i < |t| && j < |Cells(t)[i]|
    requires row in t && row.index == j * |t| + i
    ensures Joined(Cells(t)[i][j], row) in JoinByIndex(MeltTable(t), t)
  {
    MeltTableHas(t, i, j);
    JoinComplete(MeltTable(t), t, Tag(j * |t| + i, Cells(t)[i][j]), row);
  }

  lemma MeltTableHas(t: Table, i: nat, j: nat)
    requires i < |t| && j < |Cells(t)[i]|
    ensures Tag(j * |t| + i, Cells(t)[i][j]) in MeltTable(t)
  {
    MeltCellsHas(Cells(t), i, j);
  }

  lemma MeltCellsHas(cells: seq<seq<string>>, i: nat, j: nat)
    requires i < |cells| && j < |cells[i]|
    ensures Tag(j * |cells| + i, cells[i][j]) in MeltCells(cells)
  {
    MeltColumnsComplete(cells, 0, Width(cells), 0, i, j);
  }

  /** The first token of each row that has one, paired with that row. */
  function FirstTokens(t: Table): seq<Joined> {
    if t == [] then []
    else
      var c := SplitCell(t[0].rec.zusatzinfo);
      (if c == [] then [] else [Joined(c[0], t[0])]) + FirstTokens(t[1..])
  }

  lemma {:induction false} RowsWithIndexFrom(t: Table, base: int, l: int)
    requires forall k :: 0 <= k < |t| ==> t[k].index == base + k
    ensures RowsWithIndex(t, l) == if base <= l < base + |t| then [t[l - base]] else []
  {
    if t != [] {
      RowsWithIndexFrom(t[1..], base + 1, l);
    }
  }

  /** On a table labelled 0..N-1 the first tag of row position i is paired with that row alone. */
  lemma OwnFirstToken(t: Table, i: nat)
    requires RangeIndexed(t) && i < |t|
    ensures var c := Cells(t)[i];
      JoinByIndex(if 0 < |c| then [Tag(i, c[0])] else [], t) == if c == [] then [] else [Joined(c[0], t[i])]
  {
    var c := Cells(t)[i];
    if c != [] {
      RowsWithIndexFrom(t, 0, i);
      assert RowsWithIndex(t, i) == [t[i]];
      assert Pair(c[0], [t[i]]) == [Joined(c[0], t[i])] + Pair(c[0], []);
      assert JoinByIndex([Tag(i, c[0])], t) == Pair(c[0], [t[i]]) + JoinByIndex([], t);
    }
  }

  /** FirstTokens peels off one row. */
  lemma FirstTokensStep(t: Table, i: nat)
    requires i < |t|
    ensures var c := Cells(t)[i];
      FirstTokens(t[i..]) == (if c == [] then [] else [Joined(c[0], t[i])]) + FirstTokens(t[i + 1..])
  {
    assert t[i..][0] == t[i] && t[i..][1..] == t[i + 1..];
    assert Cells(t)[i] == SplitCell(t[i].rec.zusatzinfo);
  }

  lemma {:induction false} FirstColumnJoin(t: Table, i: nat)
    requires RangeIndexed(t) && i <= |t|
    ensures JoinByIndex(MeltColumn(Cells(t), 0, 0, i), t) == FirstTokens(t[i..])
    decreases |t| - i
  {
    if i < |t| {
      var cells := Cells(t);
      var c := cells[i];
      var head := if 0 < |c| then [Tag(i, c[0])] else [];
      var rest := MeltColumn(cells, 0, 0, i + 1);
      assert MeltColumn(cells, 0, 0, i) == head + rest;
      JoinAppend(head, rest, t);
      FirstColumnJoin(t, i + 1);
      OwnFirstToken(t, i);
      FirstTokensStep(t, i);
    }
  }

  lemma {:induction false} BlankColumn(cells: seq<seq<string>>, j: nat, start: int, i: nat)
    requires forall p :: i <= p < |cells| ==> |cells[p]| <= j
    ensures MeltColumn(cells, j, start, i) == []
    decreases |cells| - i
  {
    if i < |cells| {
      BlankColumn(cells, j, start, i + 1);
    }
  }

  lemma {:induction false} JoinPastEnd(tags: seq<Tag>, t: Table)
    requires RangeIndexed(t)
    requires forall k :: 0 <= k < |tags| ==> tags[k].index >= |t|
    ensures JoinByIndex(tags, t) == []
  {
    if tags != [] {
      RowsWithIndexFrom(t, 0, tags[0].index);
      JoinPastEnd(tags[1..], t);
    }
  }

  /** On a table indexed 0..N-1 no tag of split columns 1.. finds a row. */
  lemma LaterColumnsDropped(t: Table, k: nat)
    requires RangeIndexed(t)
    ensures JoinByIndex(MeltColumns(Cells(t), 1, k, |t|), t) == []
  {
    var later := MeltColumns(Cells(t), 1, k, |t|);
    ColumnsIncreasing(Cells(t), 1, k, |t|);
    assert forall q :: 0 <= q < |later| ==> later[q] in later;
    JoinPastEnd(later, t);
  }

  /**
   * On a table indexed 0..N-1 the merge keeps only the first token of each
   * row, paired with its own row; every later token is dropped.
   */
  lemma RangeIndexKeepsFirstTokens(t: Table)
    requires RangeIndexed(t)
    ensures JoinByIndex(MeltTable(t), t) == FirstTokens(t)
  {
    var cells := Cells(t);
    var k := Width(cells);
    var first := MeltColumn(cells, 0, 0, 0);
    FirstColumnJoin(t, 0);
    assert t[0..] == t;
    if k == 0 {
      BlankColumn(cells, 0, 0, 0);
      assert MeltTable(t) == [] == first;
    } else {
      var later := MeltColumns(cells, 1, k, |t|);
      assert MeltTable(t) == first + later;
      JoinAppend(first, later, t);
      LaterColumnsDropped(t, k);
      assert first + [] == first;
    }
  }
}
