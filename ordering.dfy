/**
 * Orderings and the two sorts the dashboard relies on: the sorted, duplicate-free
 * key list that pandas' groupby and unstack produce, and the descending sort of
 * sort_values(..., ascending=False).
 */
module Ordering {

  ghost predicate StrictTotalOrder<T(!new)>(lt: (T, T) -> bool) {
    && (forall x :: !lt(x, x))
    && (forall x, y, z :: lt(x, y) && lt(y, z) ==> lt(x, z))
    && (forall x, y :: x != y ==> lt(x, y) || lt(y, x))
  }

  ghost predicate StrictlySorted<T>(lt: (T, T) -> bool, s: seq<T>) {
    forall i, j :: 0 <= i < j < |s| ==> lt(s[i], s[j])
  }

  /** Python's string comparison: lexicographic by code point, a proper prefix first. */
  predicate StrLess(a: string, b: string) {
    if a == [] then b != []
    else if b == [] then false
    else if a[0] != b[0] then a[0] < b[0]
    else StrLess(a[1..], b[1..])
  }

  predicate IntLess(a: int, b: int) {
    a < b
  }

  lemma {:induction false} StrLessIrreflexive(a: string)
    ensures !StrLess(a, a)
  {
    if a != [] {
      StrLessIrreflexive(a[1..]);
    }
  }

  lemma {:induction false} StrLessTransitive(a: string, b: string, c: string)
    requires StrLess(a, b) && StrLess(b, c)
    ensures StrLess(a, c)
  {
    if a != [] && b != [] && c != [] && a[0] == b[0] && b[0] == c[0] {
      StrLessTransitive(a[1..], b[1..], c[1..]);
    }
  }

  lemma {:induction false} StrLessConnected(a: string, b: string)
    requires a != b
    ensures StrLess(a, b) || StrLess(b, a)
  {
    if a != [] && b != [] && a[0] == b[0] {
      assert a == [a[0]] + a[1..] && b == [b[0]] + b[1..];
      StrLessConnected(a[1..], b[1..]);
    }
  }

  /** Python's string order is a strict total order, so sorting strings is well defined. */
  lemma StrLessIsStrictTotalOrder()
    ensures StrictTotalOrder(StrLess)
  {
    forall a ensures !StrLess(a, a) {
      StrLessIrreflexive(a);
    }
    forall a, b, c | StrLess(a, b) && StrLess(b, c) ensures StrLess(a, c) {
      StrLessTransitive(a, b, c);
    }
    forall a, b | a != b ensures StrLess(a, b) || StrLess(b, a) {
      StrLessConnected(a, b);
    }
  }

  /** Inserts x into a strictly sorted list unless it is already there. */
  function InsertDistinct<T(==,!new)>(lt: (T, T) -> bool, x: T, s: seq<T>): (r: seq<T>)
    requires StrictTotalOrder(lt) && StrictlySorted(lt, s)
    ensures StrictlySorted(lt, r)
    ensures forall y :: y in r <==> y == x || y in s
  {
    if s == [] then [x]
    else if x == s[0] then s
    else if lt(x, s[0]) then
      assert forall j :: 0 < j < |s| ==> lt(s[0], s[j]);
      [x] + s
    else
      var rest := InsertDistinct(lt, x, s[1..]);
      assert forall y :: y in rest ==> lt(s[0], y) by {
        forall y | y in rest ensures lt(s[0], y) {
          if y != x {
            var j :| 0 <= j < |s[1..]| && s[1..][j] == y;
            assert s[j + 1] == y;
          }
        }
      }
      [s[0]] + rest
  }

  /**
   * The distinct elements of xs in ascending order: the group keys of a pandas
   * groupby (sort=True) and the columns of an unstack.
   */
  function SortedDistinct<T(==,!new)>(lt: (T, T) -> bool, xs: seq<T>): (r: seq<T>)
    requires StrictTotalOrder(lt)
    ensures StrictlySorted(lt, r)
    ensures forall y :: y in r <==> y in xs
  {
    if xs == [] then []
    else InsertDistinct(lt, xs[0], SortedDistinct(lt, xs[1..]))
  }

  ghost predicate NonIncreasing<T>(key: T -> nat, s: seq<T>) {
    forall i, j :: 0 <= i < j < |s| ==> key(s[i]) >= key(s[j])
  }

  /** Every later element of a descending list is at most its head. */
  lemma HeadBoundsTail<T>(key: T -> nat, s: seq<T>)
    requires NonIncreasing(key, s) && s != []
    ensures forall y :: y in s[1..] ==> key(s[0]) >= key(y)
  {
    forall y | y in s[1..] ensures key(s[0]) >= key(y) {
      var j :| 0 <= j < |s[1..]| && s[1..][j] == y;
      assert s[j + 1] == y;
    }
  }

  /** The head of a descending list bounds the tail after x is inserted into it. */
  lemma HeadBoundsInsert<T>(key: T -> nat, s: seq<T>, x: T, rest: seq<T>)
    requires NonIncreasing(key, s) && s != [] && key(x) < key(s[0])
    requires multiset(rest) == multiset(s[1..]) + multiset{x}
    ensures forall y :: y in rest ==> key(s[0]) >= key(y)
  {
    HeadBoundsTail(key, s);
    forall y | y in rest ensures key(s[0]) >= key(y) {
      assert y in multiset(rest);
      if y != x {
        assert y in multiset(s[1..]);
      }
    }
  }

  /** An element whose key is at least the head's is at least every key of a descending list. */
  lemma FrontBoundsAll<T>(key: T -> nat, x: T, s: seq<T>)
    requires NonIncreasing(key, s)
    requires s == [] || key(x) >= key(s[0])
    ensures forall y :: y in s ==> key(x) >= key(y)
  {
    if s != [] {
      HeadBoundsTail(key, s);
      assert s == [s[0]] + s[1..];
    }
  }

  /** An element at least every key of a descending list may go in front of it. */
  lemma ConsNonIncreasing<T>(key: T -> nat, h: T, rest: seq<T>)
    requires NonIncreasing(key, rest)
    requires forall y :: y in rest ==> key(h) >= key(y)
    ensures NonIncreasing(key, [h] + rest)
  {
    var r := [h] + rest;
    forall i, j | 0 <= i < j < |r| ensures key(r[i]) >= key(r[j]) {
      assert r[j] == rest[j - 1];
      if i > 0 {
        assert r[i] == rest[i - 1];
      } else {
        assert rest[j - 1] in rest;
      }
    }
  }

  function InsertByKey<T>(key: T -> nat, x: T, s: seq<T>): (r: seq<T>)
    requires NonIncreasing(key, s)
    ensures NonIncreasing(key, r)
    ensures multiset(r) == multiset(s) + multiset{x}
  {
    if s == [] || key(x) >= key(s[0]) then
      FrontBoundsAll(key, x, s);
      ConsNonIncreasing(key, x, s);
      [x] + s
    else
      var rest := InsertByKey(key, x, s[1..]);
      assert s == [s[0]] + s[1..];
      HeadBoundsInsert(key, s, x, rest);
      ConsNonIncreasing(key, s[0], rest);
      [s[0]] + rest
  }

  /**
   * A stable sort by a key, largest key first: sort_values(key, ascending=False).
   * The result is a permutation of the input.
   */
  function SortByKeyDesc<T>(key: T -> nat, s: seq<T>): (r: seq<T>)
    ensures NonIncreasing(key, r)
    ensures multiset(r) == multiset(s)
  {
    if s == [] then []
    else
      assert s == [s[0]] + s[1..];
      InsertByKey(key, s[0], SortByKeyDesc(key, s[1..]))
  }
}
