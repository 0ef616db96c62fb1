/**
 * Python's `str.split()` with no separator: the cell is cut at every run of
 * whitespace, leading and trailing whitespace is ignored and no token is empty.
 */
module Tokens {
  import opened Wrappers

  /** Python's `str.isspace` for one character. */
  predicate IsSpace(c: char) {
    || ('\t' <= c <= '\r')
    || ('\U{1C}' <= c <= ' ')
    || c == '\U{85}' || c == '\U{A0}' || c == '\U{1680}'
    || ('\U{2000}' <= c <= '\U{200A}')
    || c == '\U{2028}' || c == '\U{2029}' || c == '\U{202F}' || c == '\U{205F}' || c == '\U{3000}'
  }

  predicate NoSpace(s: string) {
    forall k :: 0 <= k < |s| ==> !IsSpace(s[k])
  }

  /** A token as `str.split()` produces it: non-empty and free of whitespace. */
  predicate IsToken(s: string) {
    s != [] && NoSpace(s)
  }

  /** Length of the leading run of non-whitespace characters. */
  function TokenLength(s: string): (n: nat)
    ensures n <= |s|
    ensures NoSpace(s[..n])
    ensures n == |s| || IsSpace(s[n])
  {
    if s == [] || IsSpace(s[0]) then 0
    else
      var n := 1 + TokenLength(s[1..]);
      assert s[..n] == [s[0]] + s[1..][..n - 1];
      n
  }

  function Split(s: string): seq<string>
    decreases |s|
  {
    if s == [] then []
    else if IsSpace(s[0]) then Split(s[1..])
    else
      var n := TokenLength(s);
      [s[..n]] + Split(s[n..])
  }

  /** `Series.str.split()` on one cell: a null cell gives no tokens. */
  function SplitCell(cell: Option<string>): seq<string> {
    match cell
    case None => []
    case Some(s) => Split(s)
  }

  /** The characters of s that are not whitespace, in order. */
  function Squeezed(s: string): string {
    if s == [] then []
    else if IsSpace(s[0]) then Squeezed(s[1..])
    else [s[0]] + Squeezed(s[1..])
  }

  function Concat(ts: seq<string>): string {
    if ts == [] then [] else ts[0] + Concat(ts[1..])
  }

  /** `' '.join(ts)`: the tokens separated by single spaces. */
  function JoinSpaced(ts: seq<string>): string {
    if ts == [] then []
    else if |ts| == 1 then ts[0]
    else ts[0] + " " + JoinSpaced(ts[1..])
  }

  /** Where a left-to-right scan of a cell stands: before the first token, inside a token, or in a gap after one. */
  datatype ScanState = BeforeText | InToken | InGap

  /** The scan behind `Normalised`: a gap is written as one space, and only when a token follows it. */
  function Collapse(s: string, state: ScanState): string {
    if s == [] then []
    else if IsSpace(s[0]) then Collapse(s[1..], if state == BeforeText then BeforeText else InGap)
    else (if state == InGap then " " else "") + [s[0]] + Collapse(s[1..], InToken)
  }

  /** The cell with every whitespace run reduced to one space and both ends stripped. */
  function Normalised(s: string): string {
    Collapse(s, BeforeText)
  }

  predicate AllSpace(s: string) {
    forall k :: 0 <= k < |s| ==> IsSpace(s[k])
  }

  lemma {:induction false} SqueezedAppend(a: string, b: string)
    ensures Squeezed(a + b) == Squeezed(a) + Squeezed(b)
  {
    if a == [] {
      assert a + b == b;
    } else {
      assert (a + b)[1..] == a[1..] + b;
      SqueezedAppend(a[1..], b);
    }
  }

  lemma {:induction false} SqueezedNoSpace(s: string)
    requires NoSpace(s)
    ensures Squeezed(s) == s
  {
    if s != [] {
      SqueezedNoSpace(s[1..]);
    }
  }

  /** Every token is non-empty and free of whitespace. */
  lemma {:induction false} SplitYieldsTokens(s: string)
    ensures forall k :: 0 <= k < |Split(s)| ==> IsToken(Split(s)[k])
    decreases |s|
  {
    if s != [] {
      if IsSpace(s[0]) {
        SplitYieldsTokens(s[1..]);
      } else {
        var n := TokenLength(s);
        SplitYieldsTokens(s[n..]);
        assert Split(s) == [s[..n]] + Split(s[n..]);
      }
    }
  }

  /** The tokens, glued together, are exactly the non-whitespace characters of the cell. */
  lemma {:induction false} SplitKeepsEveryCharacter(s: string)
    ensures Concat(Split(s)) == Squeezed(s)
    decreases |s|
  {
    if s == [] {
    } else if IsSpace(s[0]) {
      SplitKeepsEveryCharacter(s[1..]);
    } else {
      var n := TokenLength(s);
      assert s == s[..n] + s[n..];
      SqueezedAppend(s[..n], s[n..]);
      SqueezedNoSpace(s[..n]);
      SplitKeepsEveryCharacter(s[n..]);
      assert Split(s)[1..] == Split(s[n..]);
    }
  }

  /** A cell yields no tokens exactly when it is empty or whitespace only. */
  lemma {:induction false} SplitEmptyIffBlank(s: string)
    ensures Split(s) == [] <==> AllSpace(s)
    decreases |s|
  {
    if s != [] {
      if IsSpace(s[0]) {
        SplitEmptyIffBlank(s[1..]);
        assert AllSpace(s) <==> AllSpace(s[1..]) by {
          if AllSpace(s[1..]) {
            forall k | 0 <= k < |s| ensures IsSpace(s[k]) {
              if k > 0 { assert s[k] == s[1..][k - 1]; }
            }
          }
        }
      } else {
        assert !AllSpace(s);
      }
    }
  }

  /** A token followed by whitespace or by the end is read whole. */
  lemma {:induction false} TokenLengthOfToken(t: string, rest: string)
    requires NoSpace(t)
    requires rest == [] || IsSpace(rest[0])
    ensures TokenLength(t + rest) == |t|
    decreases |t|
  {
    if t != [] {
      assert (t + rest)[1..] == t[1..] + rest;
      TokenLengthOfToken(t[1..], rest);
    } else {
      assert t + rest == rest;
    }
  }

  /** Splitting the single-space join of tokens gives those tokens back. */
  lemma {:induction false} SplitJoinRoundTrip(ts: seq<string>)
    requires forall k :: 0 <= k < |ts| ==> IsToken(ts[k])
    ensures Split(JoinSpaced(ts)) == ts
  {
    if ts == [] {
    } else if |ts| == 1 {
      var t := ts[0];
      TokenLengthOfToken(t, []);
      assert t + [] == t;
      assert t[..|t|] == t && t[|t|..] == [];
    } else {
      var t := ts[0];
      var rest := " " + JoinSpaced(ts[1..]);
      var s := t + rest;
      assert JoinSpaced(ts) == s;
      TokenLengthOfToken(t, rest);
      assert s[..|t|] == t && s[|t|..] == rest;
      assert rest[1..] == JoinSpaced(ts[1..]);
      SplitJoinRoundTrip(ts[1..]);
      assert ts == [t] + ts[1..];
    }
  }

  /** Scanning a whitespace-free run copies it, opening with a space when the run ends a gap. */
  lemma {:induction false} CollapseToken(t: string, rest: string, state: ScanState)
    requires t != [] && NoSpace(t)
    ensures Collapse(t + rest, state) == (if state == InGap then " " else "") + t + Collapse(rest, InToken)
    decreases |t|
  {
    assert (t + rest)[1..] == t[1..] + rest;
    if |t| > 1 {
      CollapseToken(t[1..], rest, InToken);
      assert t == [t[0]] + t[1..];
    } else {
      assert t[1..] + rest == rest;
    }
  }

  /** What the scan should give in a state for the tokens still to come: their join, preceded by a space after a gap. */
  function Expected(ts: seq<string>, state: ScanState): string {
    if ts == [] then []
    else if state == InGap then " " + JoinSpaced(ts)
    else JoinSpaced(ts)
  }

  /** A run followed by whitespace or the end: scanning it and what follows gives the join with the run in front. */
  lemma RunThenRest(t: string, rest: string, state: ScanState)
    requires t != [] && NoSpace(t) && state != InToken
    requires Collapse(rest, InToken) == Expected(Split(rest), InGap)
    ensures Collapse(t + rest, state) == Expected([t] + Split(rest), state)
  {
    CollapseToken(t, rest, state);
    assert ([t] + Split(rest))[1..] == Split(rest);
  }

  /** The scan after a token or a gap, and from the start, is the join of the tokens still to come. */
  lemma {:induction false} CollapseIsJoin(s: string, state: ScanState)
    requires state != InToken
    ensures Collapse(s, state) == Expected(Split(s), state)
    decreases |s|
  {
    if s == [] {
    } else if IsSpace(s[0]) {
      CollapseIsJoin(s[1..], state);
    } else {
      var n := TokenLength(s);
      var t, rest := s[..n], s[n..];
      assert s == t + rest;
      if rest != [] {
        CollapseIsJoin(rest[1..], InGap);
        assert Split(rest) == Split(rest[1..]);
      }
      RunThenRest(t, rest, state);
      assert Split(s) == [t] + Split(rest);
    }
  }

  /**
   * The tokens are exactly the maximal whitespace-free runs: joined with single
   * spaces they give the cell with every whitespace run reduced to one space
   * and both ends stripped.
   */
  lemma SplitJoinsToNormalised(s: string)
    ensures JoinSpaced(Split(s)) == Normalised(s)
  {
    CollapseIsJoin(s, BeforeText);
  }

  /** Splitting the normalised cell gives the same tokens as splitting the cell. */
  lemma SplitOfNormalised(s: string)
    ensures Split(Normalised(s)) == Split(s)
  {
    SplitJoinsToNormalised(s);
    SplitYieldsTokens(s);
    SplitJoinRoundTrip(Split(s));
  }

  /** Two tags separated by a run of blanks and a tab are read as two tags, not as letters. */
  lemma TwoTagsExample()
    ensures Split("ABC \t DEF") == ["ABC", "DEF"]
  {
    var s, tail := "ABC \t DEF", "DEF";
    TokenLengthOfToken("ABC", s[3..]);
    TokenLengthOfToken(tail, []);
    assert s == "ABC" + s[3..];
    assert Split(s) == ["ABC"] + Split(s[3..]);
    assert IsSpace(s[3]) && s[3..][1..] == s[4..];
    assert IsSpace(s[4]) && s[4..][1..] == s[5..];
    assert IsSpace(s[5]) && s[5..][1..] == tail;
    assert tail + [] == tail && tail[..3] == tail && tail[3..] == [];
  }

  /** Python's `needle in hay` for strings: needle occurs somewhere in hay. */
  predicate IsSubstring(needle: string, hay: string) {
    if needle <= hay then true
    else if hay == [] then false
    else IsSubstring(needle, hay[1..])
  }

  /** needle sits in hay at offset k. */
  predicate OccursAt(needle: string, hay: string, k: nat) {
    k + |needle| <= |hay| && hay[k..k + |needle|] == needle
  }

  /** A needle found at offset k is a substring. */
  lemma {:induction false} SubstringAt(needle: string, hay: string, k: nat)
    requires OccursAt(needle, hay, k)
    ensures IsSubstring(needle, hay)
  {
    if k > 0 && !(needle <= hay) {
      assert hay[1..][k - 1..k - 1 + |needle|] == needle;
      SubstringAt(needle, hay[1..], k - 1);
    }
  }

  /** Conversely, a substring is found at some offset. */
  lemma {:induction false} SubstringFound(needle: string, hay: string) returns (k: nat)
    requires IsSubstring(needle, hay)
    ensures OccursAt(needle, hay, k)
  {
    if needle <= hay {
      k := 0;
    } else {
      var j := SubstringFound(needle, hay[1..]);
      assert hay[1..][j..j + |needle|] == hay[j + 1..j + 1 + |needle|];
      k := j + 1;
    }
  }

  /** `needle in hay` holds exactly when needle occurs at some offset of hay. */
  lemma SubstringIff(needle: string, hay: string)
    ensures IsSubstring(needle, hay) <==> exists k: nat :: OccursAt(needle, hay, k)
  {
    if IsSubstring(needle, hay) {
      var k := SubstringFound(needle, hay);
    }
    if exists k: nat :: OccursAt(needle, hay, k) {
      var k: nat :| OccursAt(needle, hay, k);
      SubstringAt(needle, hay, k);
    }
  }

  lemma {:induction false} SubstringOfSuffix(needle: string, hay: string, k: nat)
    requires k <= |hay| && IsSubstring(needle, hay[k..])
    ensures IsSubstring(needle, hay)
  {
    if k > 0 && !(needle <= hay) {
      assert hay[1..][k - 1..] == hay[k..];
      SubstringOfSuffix(needle, hay[1..], k - 1);
    }
  }

  /** Every token of a cell occurs in the cell's text, so a token test implies a substring test. */
  lemma {:induction false} TokensAreSubstrings(s: string, k: nat)
    requires k < |Split(s)|
    ensures IsSubstring(Split(s)[k], s)
    decreases |s|
  {
    if IsSpace(s[0]) {
      TokensAreSubstrings(s[1..], k);
      SubstringOfSuffix(Split(s)[k], s, 1);
    } else {
      var n := TokenLength(s);
      assert Split(s) == [s[..n]] + Split(s[n..]);
      if k == 0 {
        assert s[..n] <= s;
      } else {
        TokensAreSubstrings(s[n..], k - 1);
        SubstringOfSuffix(Split(s)[k], s, n);
      }
    }
  }
}
