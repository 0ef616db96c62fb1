/**
 * `Series.value_counts()`: how often each value occurs, nulls dropped, the most
 * frequent value first. The tally counts values one at a time in order of first
 * occurrence, as a hash-table count does; the result is then sorted by count.
 */
module Counts {
  import opened Wrappers
  import opened Ordering

  /** One row of a value_counts() result: a value and how often it occurs. */
  datatype Count<T> = Count(value: T, n: nat)

  function Keys<T>(cs: seq<Count<T>>): (ks: seq<T>)
    ensures |ks| == |cs|
    ensures forall i :: 0 <= i < |cs| ==> ks[i] == cs[i].value
  {
    seq(|cs|, i requires 0 <= i < |cs| => cs[i].value)
  }

  /** No value is listed twice. */
  ghost predicate Distinct<T>(cs: seq<Count<T>>) {
    forall i, j :: 0 <= i < j < |cs| ==> cs[i].value != cs[j].value
  }

  /** Every listed value occurs at least once. */
  ghost predicate Positive<T>(cs: seq<Count<T>>) {
    forall c :: c in cs ==> c.n > 0
  }

  /** The sum of the counts. */
  function Total<T>(cs: seq<Count<T>>): nat {
    if cs == [] then 0 else cs[0].n + Total(cs[1..])
  }

  /** `counts.get(v, 0)`: the count listed for v, or 0 when v is not listed. */
  function CountOf<T(==)>(cs: seq<Count<T>>, v: T): nat {
    if cs == [] then 0
    else if cs[0].value == v then cs[0].n
    else CountOf(cs[1..], v)
  }

  /** Counts one more occurrence of x. */
  function Bump<T(==)>(x: T, cs: seq<Count<T>>): seq<Count<T>> {
    if cs == [] then [Count(x, 1)]
    else if cs[0].value == x then [Count(x, cs[0].n + 1)] + cs[1..]
    else [cs[0]] + Bump(x, cs[1..])
  }

  /** The unsorted tally of xs, values in order of first occurrence. */
  function Tally<T(==)>(xs: seq<T>): seq<Count<T>> {
    if xs == [] then [] else Bump(xs[|xs| - 1], Tally(xs[..|xs| - 1]))
  }

  function ByCount<T>(c: Count<T>): nat {
    c.n
  }

  /** `value_counts()` of a column without nulls: the tally, largest count first. */
  function ValueCounts<T(==)>(xs: seq<T>): seq<Count<T>> {
    SortByKeyDesc(ByCount, Tally(xs))
  }

  /** The non-null entries of a column, in order: what value_counts() counts. */
  function Present<T>(column: seq<Option<T>>): seq<T> {
    if column == [] then []
    else if column[0].Some? then [column[0].value] + Present(column[1..])
    else Present(column[1..])
  }

  // ---- the tally ----

  lemma {:induction false} BumpCountOf<T>(x: T, cs: seq<Count<T>>, v: T)
    ensures CountOf(Bump(x, cs), v) == CountOf(cs, v) + (if v == x then 1 else 0)
  {
    if cs != [] && cs[0].value != x {
      BumpCountOf(x, cs[1..], v);
      assert Bump(x, cs)[1..] == Bump(x, cs[1..]);
    }
  }

  lemma KeysCons<T>(c: Count<T>, cs: seq<Count<T>>)
    ensures Keys([c] + cs) == [c.value] + Keys(cs)
  {
    var l, r := Keys([c] + cs), [c.value] + Keys(cs);
    forall i | 0 <= i < |l| ensures l[i] == r[i] {
      if i > 0 {
        assert ([c] + cs)[i] == cs[i - 1];
      }
    }
  }

  /** The values listed by a non-empty count list: its head's and its tail's. */
  lemma KeysOfNonEmpty<T>(cs: seq<Count<T>>, v: T)
    requires cs != []
    ensures v in Keys(cs) <==> v == cs[0].value || v in Keys(cs[1..])
  {
    assert cs == [cs[0]] + cs[1..];
    KeysCons(cs[0], cs[1..]);
  }

  lemma {:induction false} BumpKeys<T>(x: T, cs: seq<Count<T>>, v: T)
    ensures v in Keys(Bump(x, cs)) <==> v == x || v in Keys(cs)
  {
    var r := Bump(x, cs);
    assert r != [];
    KeysOfNonEmpty(r, v);
    if cs == [] {
      assert r[1..] == [];
    } else {
      KeysOfNonEmpty(cs, v);
      if cs[0].value == x {
        assert r[0].value == x && r[1..] == cs[1..];
      } else {
        BumpKeys(x, cs[1..], v);
        assert r[0] == cs[0] && r[1..] == Bump(x, cs[1..]);
      }
    }
  }

  lemma {:induction false} BumpDistinct<T>(x: T, cs: seq<Count<T>>)
    requires Distinct(cs)
    ensures Distinct(Bump(x, cs))
  {
    if cs != [] {
      var r := Bump(x, cs);
      if cs[0].value == x {
        assert forall i :: 0 <= i < |r| ==> r[i].value == cs[i].value;
      } else {
        var rest := Bump(x, cs[1..]);
        BumpDistinct(x, cs[1..]);
        BumpKeys(x, cs[1..], cs[0].value);
        assert cs[0].value !in Keys(cs[1..]) by {
          forall i | 0 <= i < |cs[1..]| ensures Keys(cs[1..])[i] != cs[0].value {
            assert cs[1..][i] == cs[i + 1];
          }
        }
        forall j | 0 < j < |r| ensures r[0].value != r[j].value {
          assert r[j] == rest[j - 1];
          assert Keys(rest)[j - 1] == r[j].value;
        }
      }
    }
  }

  lemma {:induction false} BumpPositive<T>(x: T, cs: seq<Count<T>>)
    requires Positive(cs)
    ensures Positive(Bump(x, cs))
  {
    if cs != [] && cs[0].value != x {
      BumpPositive(x, cs[1..]);
      assert forall c :: c in cs[1..] ==> c in cs;
    }
  }

  lemma {:induction false} BumpTotal<T>(x: T, cs: seq<Count<T>>)
    ensures Total(Bump(x, cs)) == Total(cs) + 1
  {
    if cs != [] {
      if cs[0].value == x {
        assert Bump(x, cs)[1..] == cs[1..];
      } else {
        BumpTotal(x, cs[1..]);
        assert Bump(x, cs)[1..] == Bump(x, cs[1..]);
      }
    }
  }

  /** The tally counts every occurrence: the count of v is its multiplicity in xs. */
  lemma {:induction false} TallyCountOf<T>(xs: seq<T>, v: T)
    ensures CountOf(Tally(xs), v) == multiset(xs)[v]
  {
    if xs != [] {
      var p, x := xs[..|xs| - 1], xs[|xs| - 1];
      assert xs == p + [x];
      TallyCountOf(p, v);
      BumpCountOf(x, Tally(p), v);
    }
  }

  /** The tally lists each value once, with a positive count, and counts |xs| occurrences in all. */
  lemma {:induction false} TallyShape<T>(xs: seq<T>)
    ensures Distinct(Tally(xs)) && Positive(Tally(xs))
    ensures Total(Tally(xs)) == |xs|
  {
    if xs != [] {
      var p, x := xs[..|xs| - 1], xs[|xs| - 1];
      TallyShape(p);
      BumpDistinct(x, Tally(p));
      BumpPositive(x, Tally(p));
      BumpTotal(x, Tally(p));
    }
  }

  lemma {:induction false} CountOfListed<T>(cs: seq<Count<T>>, c: Count<T>)
    requires Distinct(cs) && c in cs
    ensures CountOf(cs, c.value) == c.n
  {
    if cs[0] != c {
      assert cs[0].value != c.value by {
        var j :| 0 <= j < |cs| && cs[j] == c;
        assert j > 0;
      }
      assert forall i, j :: 0 <= i < j < |cs[1..]| ==> cs[1..][i] == cs[i + 1] && cs[1..][j] == cs[j + 1];
      CountOfListed(cs[1..], c);
    }
  }

  lemma {:induction false} CountOfFound<T>(cs: seq<Count<T>>, v: T)
    requires CountOf(cs, v) > 0
    ensures Count(v, CountOf(cs, v)) in cs
  {
    if cs[0].value != v {
      CountOfFound(cs[1..], v);
    }
  }

  /**
   * Every listed count is the multiplicity of its value, and every value of xs
   * is listed: the tally is exact, before any sorting.
   */
  lemma TallyExact<T>(xs: seq<T>)
    ensures forall c :: c in Tally(xs) ==> c.n == multiset(xs)[c.value] > 0
    ensures forall v :: v in xs ==> Count(v, multiset(xs)[v]) in Tally(xs)
  {
    TallyShape(xs);
    forall c | c in Tally(xs) ensures c.n == multiset(xs)[c.value] > 0 {
      CountOfListed(Tally(xs), c);
      TallyCountOf(xs, c.value);
    }
    forall v | v in xs ensures Count(v, multiset(xs)[v]) in Tally(xs) {
      TallyCountOf(xs, v);
      CountOfFound(Tally(xs), v);
    }
  }

  // ---- sorting keeps the tally exact ----

  lemma {:induction false} TotalAppend<T>(a: seq<Count<T>>, b: seq<Count<T>>)
    ensures Total(a + b) == Total(a) + Total(b)
  {
    if a == [] {
      assert a + b == b;
    } else {
      assert (a + b)[1..] == a[1..] + b;
      TotalAppend(a[1..], b);
    }
  }

  lemma {:induction false} TotalRemove<T>(b: seq<Count<T>>, k: nat)
    requires k < |b|
    ensures Total(b) == b[k].n + Total(b[..k] + b[k + 1..])
  {
    var pre, post := b[..k], b[k + 1..];
    var tail := [b[k]] + post;
    assert b == pre + tail;
    assert tail[1..] == post;
    assert Total(tail) == b[k].n + Total(post);
    TotalAppend(pre, tail);
    TotalAppend(pre, post);
  }

  lemma {:induction false} RemoveFromBoth<T>(a: seq<T>, b: seq<T>, k: nat)
    requires multiset(a) == multiset(b) && a != [] && k < |b| && b[k] == a[0]
    ensures multiset(a[1..]) == multiset(b[..k] + b[k + 1..])
  {
    var rest := b[..k] + b[k + 1..];
    assert b == b[..k] + [b[k]] + b[k + 1..];
    assert a == [a[0]] + a[1..];
    calc {
      multiset(a[1..]);
      multiset(a) - multiset{a[0]};
      multiset(b) - multiset{b[k]};
      { assert multiset(b) == multiset(b[..k]) + multiset{b[k]} + multiset(b[k + 1..]); }
      multiset(b[..k]) + multiset(b[k + 1..]);
      multiset(rest);
    }
  }

  /** The sum of the counts does not depend on their order. */
  lemma {:induction false} TotalPermutation<T>(a: seq<Count<T>>, b: seq<Count<T>>)
    requires multiset(a) == multiset(b)
    ensures Total(a) == Total(b)
    decreases |a|
  {
    if a == [] {
      assert |b| == |multiset(b)| == 0;
    } else {
      assert a[0] in multiset(b);
      var k :| 0 <= k < |b| && b[k] == a[0];
      RemoveFromBoth(a, b, k);
      TotalPermutation(a[1..], b[..k] + b[k + 1..]);
      TotalRemove(b, k);
    }
  }

  /** The tail of a distinct list is distinct and does not list its head's value. */
  lemma DistinctTail<T>(s: seq<Count<T>>)
    requires Distinct(s) && s != []
    ensures Distinct(s[1..])
    ensures forall c :: c in s[1..] ==> c.value != s[0].value
  {
    var t := s[1..];
    forall i, j | 0 <= i < j < |t| ensures t[i].value != t[j].value {
      assert t[i] == s[i + 1] && t[j] == s[j + 1];
    }
    forall c | c in t ensures c.value != s[0].value {
      var j :| 0 <= j < |t| && t[j] == c;
      assert t[j] == s[j + 1];
    }
  }

  lemma {:induction false} DistinctOnce<T>(s: seq<Count<T>>, c: Count<T>)
    requires Distinct(s)
    ensures multiset(s)[c] <= 1
  {
    if s != [] {
      var t := s[1..];
      DistinctTail(s);
      DistinctOnce(t, c);
      assert s == [s[0]] + t;
      assert multiset(s) == multiset{s[0]} + multiset(t);
      if s[0] == c {
        assert c !in t;
      }
    }
  }

  lemma RepeatedTwice<T>(s: seq<Count<T>>, i: nat, j: nat)
    requires i < j < |s| && s[i] == s[j]
    ensures multiset(s)[s[i]] >= 2
  {
    assert s == s[..i] + [s[i]] + s[i + 1..j] + [s[j]] + s[j + 1..];
  }

  /**
   * A permutation of a distinct list whose counts are determined by their
   * values is distinct as well.
   */
  lemma DistinctPermutation<T>(s: seq<Count<T>>, r: seq<Count<T>>, count: T -> nat)
    requires Distinct(s) && multiset(r) == multiset(s)
    requires forall c :: c in r ==> c.n == count(c.value)
    ensures Distinct(r)
  {
    forall i, j | 0 <= i < j < |r| ensures r[i].value != r[j].value {
      if r[i].value == r[j].value {
        assert r[i] == r[j];
        RepeatedTwice(r, i, j);
        DistinctOnce(s, r[i]);
        assert false;
      }
    }
  }

  lemma SameMember<T>(s: seq<T>, r: seq<T>, c: T)
    requires multiset(r) == multiset(s)
    ensures c in r <==> c in s
  {
    assert c in r <==> c in multiset(r);
    assert c in s <==> c in multiset(s);
  }

  /**
   * value_counts() lists every value of xs, each with its number of
   * occurrences, and nothing else.
   */
  lemma ValueCountsExact<T>(xs: seq<T>)
    ensures forall c :: c in ValueCounts(xs) ==> c.n == multiset(xs)[c.value] > 0
    ensures forall v :: v in xs ==> Count(v, multiset(xs)[v]) in ValueCounts(xs)
  {
    var s, r := Tally(xs), ValueCounts(xs);
    TallyExact(xs);
    forall c | c in r ensures c.n == multiset(xs)[c.value] > 0 {
      SameMember(s, r, c);
    }
    forall v | v in xs ensures Count(v, multiset(xs)[v]) in r {
      SameMember(s, r, Count(v, multiset(xs)[v]));
    }
  }

  /**
   * value_counts() lists each value once, largest count first, and the counts
   * add up to |xs|.
   */
  lemma ValueCountsShape<T>(xs: seq<T>)
    ensures Distinct(ValueCounts(xs))
    ensures Total(ValueCounts(xs)) == |xs|
    ensures NonIncreasing(ByCount, ValueCounts(xs))
  {
    var s, r := Tally(xs), ValueCounts(xs);
    TallyShape(xs);
    ValueCountsExact(xs);
    DistinctPermutation(s, r, v => multiset(xs)[v]);
    TotalPermutation(s, r);
  }

  /** `value_counts().get(v, 0)` is the number of occurrences of v, 0 for an absent value. */
  lemma CountOfValueCounts<T>(xs: seq<T>, v: T)
    ensures CountOf(ValueCounts(xs), v) == multiset(xs)[v]
  {
    var r := ValueCounts(xs);
    ValueCountsExact(xs);
    if v in xs {
      CountOfListedAny(r, Count(v, multiset(xs)[v]));
    } else if CountOf(r, v) > 0 {
      CountOfFound(r, v);
    }
  }

  /** When v is listed, the lookup returns one of v's entries. */
  lemma {:induction false} CountOfListedAny<T>(cs: seq<Count<T>>, c: Count<T>)
    requires c in cs
    ensures Count(c.value, CountOf(cs, c.value)) in cs
  {
    if cs[0].value != c.value {
      CountOfListedAny(cs[1..], c);
    }
  }

  /** value_counts() drops nulls: a value counts the cells holding exactly that value. */
  lemma {:induction false} PresentCounts<T>(column: seq<Option<T>>, v: T)
    ensures multiset(Present(column))[v] == multiset(column)[Some(v)]
    ensures |Present(column)| == |column| - multiset(column)[None]
  {
    if column != [] {
      assert column == [column[0]] + column[1..];
      PresentCounts(column[1..], v);
    }
  }
}
