/** Sequence helpers shared by the analyzers: duplicate-freedom and pandas' unique(). */
module Seqs {

  function Min(a: int, b: int): int
  {
    if a < b then a else b
  }

  /** No element occurs twice in s. */
  predicate NoDups<T(==)>(s: seq<T>)
  {
    forall i, j :: 0 <= i < j < |s| ==> s[i] != s[j]
  }

  /** The position of the first occurrence of x in s. */
  function FirstIndex<T(==)>(s: seq<T>, x: T): (i: nat)
    requires x in s
    ensures i < |s| && s[i] == x && x !in s[..i]
  {
    var n := |s| - 1;
    assert s == s[..n] + [s[n]];
    if x in s[..n] then
      var k := FirstIndex(s[..n], x);
      assert s[..n][..k] == s[..k];
      k
    else
      n
  }

  /**
   * The distinct elements of s in order of first appearance, as a pandas
   * Series' unique() returns them.
   */
  function Distinct<T(==,!new)>(s: seq<T>): (r: seq<T>)
    ensures NoDups(r)
    ensures forall x :: x in r <==> x in s
    ensures forall i, j :: 0 <= i < j < |r| ==> FirstIndex(s, r[i]) < FirstIndex(s, r[j])
  {
    if s == [] then []
    else
      var n := |s| - 1;
      var p := Distinct(s[..n]);
      assert s == s[..n] + [s[n]];
      assert forall y :: y in s[..n] ==> FirstIndex(s, y) == FirstIndex(s[..n], y);
      if s[n] in p then p else p + [s[n]]
  }

  /** In a duplicate-free sequence every value occurs once or not at all. */
  lemma {:induction false} NoDupsCount<T>(s: seq<T>, x: T)
    requires NoDups(s)
    ensures multiset(s)[x] == if x in s then 1 else 0
  {
    if s != [] {
      var n := |s| - 1;
      assert s == s[..n] + [s[n]];
      NoDupsCount(s[..n], x);
      if x == s[n] {
        assert x !in s[..n];
      }
    }
  }

  /** A duplicate-free sequence has as many elements as the set of its elements. */
  lemma {:induction false} NoDupsCard<T>(s: seq<T>)
    requires NoDups(s)
    ensures |set x | x in s| == |s|
  {
    if s != [] {
      var n := |s| - 1;
      NoDupsCard(s[..n]);
      assert s == s[..n] + [s[n]];
      assert s[n] !in s[..n];
      assert (set x | x in s) == (set x | x in s[..n]) + {s[n]};
    }
  }

  /** Two duplicate-free sequences with no common element concatenate to a duplicate-free one. */
  lemma NoDupsConcat<T>(a: seq<T>, b: seq<T>)
    requires NoDups(a) && NoDups(b)
    requires forall x :: x in a ==> x !in b
    ensures NoDups(a + b)
  {
    forall i, j | 0 <= i < j < |a + b| ensures (a + b)[i] != (a + b)[j] {
      if i < |a| && j >= |a| {
        assert (a + b)[i] in a;
        assert (a + b)[j] == b[j - |a|];
      }
    }
  }

  /** An intersection is no larger than either side. */
  lemma IntersectionCard<T>(a: set<T>, b: set<T>)
    ensures |a * b| <= |a|
  {
    var rest := a - b;
    assert a == (a * b) + rest;
    assert (a * b) * rest == {};
  }
}
