/**
 * Ranked results as the analyzers hand them back: a pandas Series of counts
 * or totals, indexed by an id and sorted largest first.
 */
module Ranking {
  import opened Seqs

  /** One row of a ranked Series: an index label and its value. */
  datatype Entry = Entry(key: string, count: nat)

  /** The index labels of a ranked Series, in order. */
  function Keys(s: seq<Entry>): seq<string>
  {
    seq(|s|, i requires 0 <= i < |s| => s[i].key)
  }

  /** Every label occurs once. */
  predicate UniqueKeys(s: seq<Entry>)
  {
    forall i, j :: 0 <= i < j < |s| ==> s[i].key != s[j].key
  }

  /** Values never grow along the sequence. */
  predicate NonIncreasing(s: seq<Entry>)
  {
    forall i, j :: 0 <= i < j < |s| ==> s[i].count >= s[j].count
  }

  /** Inserts e in front of the first entry whose value is not larger than its own. */
  function Insert(e: Entry, s: seq<Entry>): (r: seq<Entry>)
    ensures |r| == |s| + 1
    ensures multiset(r) == multiset(s) + multiset{e}
    ensures forall x :: x in r <==> x == e || x in s
  {
    if s == [] || e.count >= s[0].count then [e] + s
    else
      assert s == [s[0]] + s[1..];
      [s[0]] + Insert(e, s[1..])
  }

  lemma {:induction false} InsertNonIncreasing(e: Entry, s: seq<Entry>)
    requires NonIncreasing(s)
    ensures NonIncreasing(Insert(e, s))
  {
    if s != [] && e.count < s[0].count {
      assert s == [s[0]] + s[1..];
      InsertNonIncreasing(e, s[1..]);
      var rest := Insert(e, s[1..]);
      assert forall x :: x in rest ==> x.count <= s[0].count;
      assert Insert(e, s) == [s[0]] + rest;
    }
  }

  lemma {:induction false} InsertUniqueKeys(e: Entry, s: seq<Entry>)
    requires UniqueKeys(s)
    requires forall x :: x in s ==> x.key != e.key
    ensures UniqueKeys(Insert(e, s))
  {
    if s != [] && e.count < s[0].count {
      assert s == [s[0]] + s[1..];
      InsertUniqueKeys(e, s[1..]);
      var rest := Insert(e, s[1..]);
      assert forall x :: x in rest ==> x.key != s[0].key;
      assert Insert(e, s) == [s[0]] + rest;
    }
  }

  /**
   * Sorts by value, largest first. The sort is stable: of two entries with
   * equal values the earlier one stays in front.
   */
  function SortDesc(s: seq<Entry>): (r: seq<Entry>)
    ensures |r| == |s|
    ensures multiset(r) == multiset(s)
    ensures forall x :: x in r <==> x in s
    ensures NonIncreasing(r)
    ensures UniqueKeys(s) ==> UniqueKeys(r)
  {
    if s == [] then []
    else
      var rest := SortDesc(s[1..]);
      assert s == [s[0]] + s[1..];
      InsertNonIncreasing(s[0], rest);
      if UniqueKeys(s) then
        HeadKeyFresh(s);
        InsertUniqueKeys(s[0], rest);
        Insert(s[0], rest)
      else
        Insert(s[0], rest)
  }

  lemma HeadKeyFresh(s: seq<Entry>)
    requires s != [] && UniqueKeys(s)
    ensures forall x :: x in s[1..] ==> x.key != s[0].key
  {
    forall x | x in s[1..] ensures x.key != s[0].key {
      var m :| 0 <= m < |s[1..]| && s[1..][m] == x;
      assert s[1 + m] == x;
    }
  }

  /** The first n entries, or all of them when there are fewer (Series.head(n), s[:n]). */
  function Head(s: seq<Entry>, n: nat): (r: seq<Entry>)
    ensures |r| == Min(n, |s|)
    ensures forall i :: 0 <= i < |r| ==> r[i] == s[i]
    ensures NonIncreasing(s) ==> NonIncreasing(r)
    ensures NonIncreasing(s) ==> forall i, j :: 0 <= i < |r| <= j < |s| ==> r[i].count >= s[j].count
    ensures UniqueKeys(s) ==> UniqueKeys(r)
  {
    if |s| <= n then s else s[..n]
  }

  /** An entry whose label the head leaves out is not larger than any entry the head keeps. */
  lemma HeadLeavesOutSmaller(s: seq<Entry>, n: nat, e: Entry)
    requires NonIncreasing(s) && e in s && e.key !in Keys(Head(s, n))
    ensures forall i :: 0 <= i < |Head(s, n)| ==> Head(s, n)[i].count >= e.count
  {
    var r := Head(s, n);
    var j :| 0 <= j < |s| && s[j] == e;
    assert forall m :: 0 <= m < |r| ==> r[m].key != e.key by {
      forall m | 0 <= m < |r| ensures r[m].key != e.key {
        assert Keys(r)[m] == r[m].key;
      }
    }
  }

  /** One entry per distinct value of xs, with the number of times it occurs, in order of first appearance. */
  function Tally(xs: seq<string>): seq<Entry>
  {
    var keys := Distinct(xs);
    seq(|keys|, i requires 0 <= i < |keys| => Entry(keys[i], multiset(xs)[keys[i]]))
  }

  lemma TallyFacts(xs: seq<string>)
    ensures UniqueKeys(Tally(xs))
    ensures forall e :: e in Tally(xs) ==> e.key in xs && e.count == multiset(xs)[e.key]
    ensures forall x :: x in xs ==> Entry(x, multiset(xs)[x]) in Tally(xs)
  {
    var keys := Distinct(xs);
    var t := Tally(xs);
    forall x | x in xs ensures Entry(x, multiset(xs)[x]) in t {
      var k :| 0 <= k < |keys| && keys[k] == x;
      assert t[k] == Entry(x, multiset(xs)[x]);
    }
  }

  /**
   * pandas' value_counts: each distinct value of xs with its number of
   * occurrences, most frequent first; ties keep the order of first appearance.
   */
  function ValueCounts(xs: seq<string>): (r: seq<Entry>)
    ensures UniqueKeys(r) && NonIncreasing(r)
    ensures forall i :: 0 <= i < |r| ==> r[i].key in xs && r[i].count == multiset(xs)[r[i].key]
    ensures forall x :: x in Keys(r) <==> x in xs
  {
    TallyFacts(xs);
    var r := SortDesc(Tally(xs));
    SortedTallyKeys(xs, r);
    r
  }

  lemma SortedTallyKeys(xs: seq<string>, r: seq<Entry>)
    requires r == SortDesc(Tally(xs))
    ensures forall x :: x in Keys(r) <==> x in xs
  {
    forall x ensures x in Keys(r) <==> x in xs {
      SortedTallyKey(xs, r, x);
    }
  }

  lemma SortedTallyKey(xs: seq<string>, r: seq<Entry>, x: string)
    requires r == SortDesc(Tally(xs))
    ensures x in Keys(r) <==> x in xs
  {
    TallyFacts(xs);
    if x in xs {
      KeyOfMember(r, Entry(x, multiset(xs)[x]));
    }
    if x in Keys(r) {
      var m :| 0 <= m < |r| && Keys(r)[m] == x;
      assert r[m] in Tally(xs);
    }
  }

  /** The label of an entry of s is among the labels of s. */
  lemma KeyOfMember(s: seq<Entry>, e: Entry)
    requires e in s
    ensures e.key in Keys(s)
  {
    var m :| 0 <= m < |s| && s[m] == e;
    assert Keys(s)[m] == e.key;
  }
}
