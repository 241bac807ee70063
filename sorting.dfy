/** Filtering and ordering of query results. The hosted database filters rows
    with `eq`/`in` and orders them with `order(column, { ascending })`; the
    model computes the same result with a filter and an insertion sort over the
    column's text, compared character by character. */
module Sorting {

  /** Lexicographic order on strings: `a` sorts no later than `b`. For the
      ISO-8601 timestamps and dates the tables hold this is chronological order. */
  predicate LexLe(a: string, b: string)
    decreases |a|
  {
    a == [] || (b != [] && (a[0] < b[0] || (a[0] == b[0] && LexLe(a[1..], b[1..]))))
  }

  lemma {:induction false} LexLeTotal(a: string, b: string)
    ensures LexLe(a, b) || LexLe(b, a)
    decreases |a|
  {
    if a != [] && b != [] && a[0] == b[0] {
      LexLeTotal(a[1..], b[1..]);
    }
  }

  lemma {:induction false} LexLeTransitive(a: string, b: string, c: string)
    requires LexLe(a, b) && LexLe(b, c)
    ensures LexLe(a, c)
    decreases |a|
  {
    if a != [] && a[0] == b[0] && b[0] == c[0] {
      LexLeTransitive(a[1..], b[1..], c[1..]);
    }
  }

  /** `a` may come before `b` in a result ordered ascending or descending. */
  predicate Precedes(a: string, b: string, descending: bool) {
    if descending then LexLe(b, a) else LexLe(a, b)
  }

  ghost predicate SortedBy<T>(s: seq<T>, key: T -> string, descending: bool) {
    forall i, j :: 0 <= i < j < |s| ==> Precedes(key(s[i]), key(s[j]), descending)
  }

  /** Inserts `x` into an ordered sequence before the first element it precedes. */
  function Insert<T>(x: T, s: seq<T>, key: T -> string, descending: bool): (r: seq<T>)
    requires SortedBy(s, key, descending)
    ensures SortedBy(r, key, descending)
    ensures multiset(r) == multiset(s) + multiset{x}
  {
    if s == [] then [x]
    else if Precedes(key(x), key(s[0]), descending) then
      var r := [x] + s;
      forall i, j | 0 <= i < j < |r| ensures Precedes(key(r[i]), key(r[j]), descending) {
        if i == 0 && j > 1 {
          assert r[j] == s[j - 1];
          if descending {
            LexLeTransitive(key(s[j - 1]), key(s[0]), key(x));
          } else {
            LexLeTransitive(key(x), key(s[0]), key(s[j - 1]));
          }
        }
      }
      r
    else
      assert s == [s[0]] + s[1..];
      var rest := Insert(x, s[1..], key, descending);
      assert Precedes(key(s[0]), key(x), descending) by {
        LexLeTotal(key(x), key(s[0]));
      }
      assert forall k :: 0 <= k < |rest| ==> Precedes(key(s[0]), key(rest[k]), descending) by {
        forall k | 0 <= k < |rest| ensures Precedes(key(s[0]), key(rest[k]), descending) {
          assert rest[k] in multiset(rest);
          assert rest[k] == x || rest[k] in s[1..];
        }
      }
      [s[0]] + rest
  }

  /** The rows of `s` in the order the database returns them for
      `order(key, { ascending: !descending })`. */
  function SortBy<T>(s: seq<T>, key: T -> string, descending: bool): (r: seq<T>)
    ensures SortedBy(r, key, descending)
    ensures multiset(r) == multiset(s)
  {
    if s == [] then []
    else
      assert s == [s[0]] + s[1..];
      Insert(s[0], SortBy(s[1..], key, descending), key, descending)
  }

  /** The elements of `s` that satisfy `p`, in their order in `s`. */
  function Filter<T(!new)>(s: seq<T>, p: T -> bool): (r: seq<T>)
    ensures forall x :: multiset(r)[x] == if p(x) then multiset(s)[x] else 0
    ensures forall i :: 0 <= i < |r| ==> p(r[i]) && r[i] in s
    ensures IsSubsequence(r, s)
  {
    if s == [] then []
    else
      assert s == [s[0]] + s[1..];
      var rest := Filter(s[1..], p);
      if p(s[0]) then
        assert ([s[0]] + rest)[1..] == rest;
        [s[0]] + rest
      else
        rest
  }

  /** `r` is `s` with some elements left out and the others kept in order. */
  ghost predicate IsSubsequence<T>(r: seq<T>, s: seq<T>)
    decreases |s|
  {
    r == [] || (s != [] && ((r[0] == s[0] && IsSubsequence(r[1..], s[1..])) || IsSubsequence(r, s[1..])))
  }

  /** Membership in a filtered sequence, as a consequence of the multiplicities. */
  lemma FilterMembership<T(!new)>(s: seq<T>, p: T -> bool, x: T)
    ensures x in Filter(s, p) <==> x in s && p(x)
  {
    assert x in Filter(s, p) <==> multiset(Filter(s, p))[x] > 0;
  }

  /** No two elements of `s` agree on `f`: what a unique column guarantees. */
  ghost predicate DistinctBy<T, K>(s: seq<T>, f: T -> K) {
    forall i, j :: 0 <= i < j < |s| ==> f(s[i]) != f(s[j])
  }

  /** Every element of a subsequence is an element of the sequence. */
  lemma {:induction false} SubsequenceIn<T>(r: seq<T>, s: seq<T>)
    requires IsSubsequence(r, s)
    ensures forall j :: 0 <= j < |r| ==> r[j] in s
    decreases |s|
  {
    if r != [] {
      if r[0] == s[0] && IsSubsequence(r[1..], s[1..]) {
        SubsequenceIn(r[1..], s[1..]);
        assert forall j :: 0 < j < |r| ==> r[j] == r[1..][j - 1];
      } else {
        SubsequenceIn(r, s[1..]);
      }
    }
  }

  /** Leaving elements out keeps a column unique. */
  lemma {:induction false} SubsequenceDistinct<T, K>(r: seq<T>, s: seq<T>, f: T -> K)
    requires IsSubsequence(r, s) && DistinctBy(s, f)
    ensures DistinctBy(r, f)
    decreases |s|
  {
    if r != [] {
      if r[0] == s[0] && IsSubsequence(r[1..], s[1..]) {
        SubsequenceDistinct(r[1..], s[1..], f);
        SubsequenceIn(r[1..], s[1..]);
        forall j | 0 < j < |r| ensures f(r[0]) != f(r[j]) {
          assert r[j] == r[1..][j - 1];
          var k :| 0 <= k < |s[1..]| && s[1..][k] == r[j];
          assert s[k + 1] == r[j];
        }
      } else {
        SubsequenceDistinct(r, s[1..], f);
      }
    }
  }
}
