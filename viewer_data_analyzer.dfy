/**
 * Top readers: the visitors with the largest total read time over their
 * `pagereadtime` events, largest first, at most ten of them.
 */
module ViewerDataAnalyzer {
  import opened Seqs
  import opened Events
  import opened Ranking

  /** The event_type of the events that carry a read time. */
  const PageReadTime: string := "pagereadtime"

  /** How many readers calculate_reading_times keeps. */
  const TopReaders: nat := 10

  // ---------------------------------------------------------------------
  // Reference definitions
  // ---------------------------------------------------------------------

  /** The visitors with at least one pagereadtime event. */
  ghost function ReadTimeVisitors(events: seq<Event>): set<string>
  {
    set i | 0 <= i < |events| && events[i].eventType == PageReadTime :: events[i].visitor
  }

  /** The total event_readtime over the pagereadtime events of visitor. */
  function TotalReadTime(events: seq<Event>, visitor: string): nat
  {
    if events == [] then 0
    else
      var e := events[|events| - 1];
      TotalReadTime(events[..|events| - 1], visitor)
      + (if e.eventType == PageReadTime && e.visitor == visitor then e.readTime else 0)
  }

  // ---------------------------------------------------------------------
  // The pipeline: filter, group and sum, sort, head
  // ---------------------------------------------------------------------

  /** df[df['event_type'] == 'pagereadtime']: the pagereadtime rows, in table order. */
  function PageReads(events: seq<Event>): (r: seq<Event>)
    ensures forall e :: e in r <==> e in events && e.eventType == PageReadTime
  {
    if events == [] then []
    else
      var n := |events| - 1;
      assert events == events[..n] + [events[n]];
      PageReads(events[..n]) + (if events[n].eventType == PageReadTime then [events[n]] else [])
  }

  /** The filter keeps every pagereadtime row as often as it occurs, repeated rows included, and no other row. */
  lemma {:induction false} PageReadsCounts(events: seq<Event>)
    ensures forall e :: multiset(PageReads(events))[e] ==
                       if e.eventType == PageReadTime then multiset(events)[e] else 0
  {
    if events != [] {
      var n := |events| - 1;
      assert events == events[..n] + [events[n]];
      assert multiset(events) == multiset(events[..n]) + multiset{events[n]};
      PageReadsCounts(events[..n]);
    }
  }

  /** The visitor_uuid column of rows. */
  function VisitorColumn(rows: seq<Event>): seq<string>
  {
    seq(|rows|, i requires 0 <= i < |rows| => rows[i].visitor)
  }

  /** The sum of event_readtime over the rows of visitor. */
  function GroupTotal(rows: seq<Event>, visitor: string): nat
  {
    if rows == [] then 0
    else
      var e := rows[|rows| - 1];
      GroupTotal(rows[..|rows| - 1], visitor) + (if e.visitor == visitor then e.readTime else 0)
  }

  /** groupby('visitor_uuid')['event_readtime'].sum(): one entry per visitor of rows with the sum of its read times. */
  function GroupSum(rows: seq<Event>): (r: seq<Entry>)
    ensures UniqueKeys(r)
    ensures forall i :: 0 <= i < |r| ==> r[i].count == GroupTotal(rows, r[i].key)
    ensures forall v :: v in Keys(r) <==> v in VisitorColumn(rows)
  {
    var keys := Distinct(VisitorColumn(rows));
    var r := seq(|keys|, i requires 0 <= i < |keys| => Entry(keys[i], GroupTotal(rows, keys[i])));
    assert Keys(r) == keys;
    r
  }

  /** Summing the filtered rows of a visitor gives the visitor's total read time. */
  lemma {:induction false} GroupTotalOfPageReads(events: seq<Event>, visitor: string)
    ensures GroupTotal(PageReads(events), visitor) == TotalReadTime(events, visitor)
  {
    if events != [] {
      var n := |events| - 1;
      GroupTotalOfPageReads(events[..n], visitor);
      GroupTotalSnoc(PageReads(events[..n]), if events[n].eventType == PageReadTime then [events[n]] else [], visitor);
    }
  }

  lemma GroupTotalSnoc(rows: seq<Event>, tail: seq<Event>, visitor: string)
    requires |tail| <= 1
    ensures GroupTotal(rows + tail, visitor) ==
      GroupTotal(rows, visitor) + (if tail != [] && tail[0].visitor == visitor then tail[0].readTime else 0)
  {
    if tail != [] {
      assert (rows + tail)[..|rows + tail| - 1] == rows;
    } else {
      assert rows + tail == rows;
    }
  }

  /** The visitors of the filtered rows are the visitors with a pagereadtime event. */
  lemma PageReadVisitors(events: seq<Event>)
    ensures forall v :: v in VisitorColumn(PageReads(events)) <==> v in ReadTimeVisitors(events)
  {
    var rows := PageReads(events);
    forall v ensures v in VisitorColumn(rows) <==> v in ReadTimeVisitors(events) {
      if v in VisitorColumn(rows) {
        var k :| 0 <= k < |rows| && VisitorColumn(rows)[k] == v;
        assert rows[k] in rows;
        var i :| 0 <= i < |events| && events[i] == rows[k];
        assert events[i].eventType == PageReadTime && events[i].visitor == v;
      }
      if v in ReadTimeVisitors(events) {
        var i :| 0 <= i < |events| && events[i].eventType == PageReadTime && events[i].visitor == v;
        assert events[i] in rows;
        var k :| 0 <= k < |rows| && rows[k] == events[i];
        assert VisitorColumn(rows)[k] == v;
      }
    }
  }

  /** A visitor without pagereadtime events has read for no time at all. */
  lemma {:induction false} NoReadTimeEventsNoTime(events: seq<Event>, visitor: string)
    requires visitor !in ReadTimeVisitors(events)
    ensures TotalReadTime(events, visitor) == 0
  {
    if events != [] {
      var n := |events| - 1;
      assert ReadTimeVisitors(events[..n]) <= ReadTimeVisitors(events) by {
        forall v | v in ReadTimeVisitors(events[..n]) ensures v in ReadTimeVisitors(events) {
          var i :| 0 <= i < n && events[..n][i].eventType == PageReadTime && events[..n][i].visitor == v;
          assert events[i] == events[..n][i];
        }
      }
      NoReadTimeEventsNoTime(events[..n], visitor);
    }
  }

  /**
   * calculate_reading_times: the ten visitors with the largest total read
   * time, largest first, each with that total. Fewer than ten when fewer
   * visitors have a pagereadtime event, and none when no one has.
   */
  function CalculateReadingTimes(events: seq<Event>): (r: seq<Entry>)
    ensures |r| == Min(TopReaders, |ReadTimeVisitors(events)|)
    ensures UniqueKeys(r) && NonIncreasing(r)
    ensures forall i :: 0 <= i < |r| ==>
      r[i].key in ReadTimeVisitors(events) && r[i].count == TotalReadTime(events, r[i].key)
    ensures forall i, w :: 0 <= i < |r| && w !in Keys(r) ==> r[i].count >= TotalReadTime(events, w)
  {
    var rows := PageReads(events);
    var top := Head(SortDesc(GroupSum(rows)), TopReaders);
    ReadingTimesFacts(events, rows, GroupSum(rows), SortDesc(GroupSum(rows)), top);
    top
  }

  lemma ReadingTimesFacts(events: seq<Event>, rows: seq<Event>, grouped: seq<Entry>, sorted: seq<Entry>, r: seq<Entry>)
    requires rows == PageReads(events) && grouped == GroupSum(rows) && sorted == SortDesc(grouped)
    requires r == Head(sorted, TopReaders)
    ensures |r| == Min(TopReaders, |ReadTimeVisitors(events)|)
    ensures forall i :: 0 <= i < |r| ==>
      r[i].key in ReadTimeVisitors(events) && r[i].count == TotalReadTime(events, r[i].key)
    ensures forall i, w :: 0 <= i < |r| && w !in Keys(r) ==> r[i].count >= TotalReadTime(events, w)
  {
    GroupedVisitorCount(events, rows, grouped);
    forall i | 0 <= i < |r|
      ensures r[i].key in ReadTimeVisitors(events) && r[i].count == TotalReadTime(events, r[i].key)
    {
      assert r[i] == sorted[i] && sorted[i] in grouped;
      GroupedEntry(events, rows, grouped, r[i]);
    }
    forall i, w | 0 <= i < |r| && w !in Keys(r) ensures r[i].count >= TotalReadTime(events, w) {
      LeftOutReader(events, rows, grouped, sorted, r, i, w);
    }
  }

  /** There is one group per visitor with a pagereadtime event. */
  lemma GroupedVisitorCount(events: seq<Event>, rows: seq<Event>, grouped: seq<Entry>)
    requires rows == PageReads(events) && grouped == GroupSum(rows)
    ensures |grouped| == |ReadTimeVisitors(events)|
  {
    PageReadVisitors(events);
    var keys := Distinct(VisitorColumn(rows));
    assert Keys(grouped) == keys;
    NoDupsCard(keys);
    assert (set x | x in keys) == ReadTimeVisitors(events);
  }

  /** Every group is a visitor with a pagereadtime event, with that visitor's total read time. */
  lemma GroupedEntry(events: seq<Event>, rows: seq<Event>, grouped: seq<Entry>, e: Entry)
    requires rows == PageReads(events) && grouped == GroupSum(rows)
    requires e in grouped
    ensures e.key in ReadTimeVisitors(events) && e.count == TotalReadTime(events, e.key)
  {
    PageReadVisitors(events);
    var k :| 0 <= k < |grouped| && grouped[k] == e;
    assert Keys(grouped)[k] == e.key;
    GroupTotalOfPageReads(events, e.key);
  }

  /** A visitor outside the result has no more read time than any visitor in it. */
  lemma LeftOutReader(events: seq<Event>, rows: seq<Event>, grouped: seq<Entry>, sorted: seq<Entry>, r: seq<Entry>, i: nat, w: string)
    requires rows == PageReads(events) && grouped == GroupSum(rows) && sorted == SortDesc(grouped)
    requires r == Head(sorted, TopReaders)
    requires i < |r| && w !in Keys(r)
    ensures r[i].count >= TotalReadTime(events, w)
  {
    if w in ReadTimeVisitors(events) {
      PageReadVisitors(events);
      var k :| 0 <= k < |grouped| && Keys(grouped)[k] == w;
      var e := grouped[k];
      GroupedEntry(events, rows, grouped, e);
      HeadLeavesOutSmaller(sorted, TopReaders, e);
    } else {
      NoReadTimeEventsNoTime(events, w);
    }
  }

  /** Filtering commutes with concatenation. */
  lemma {:induction false} PageReadsAppend(a: seq<Event>, b: seq<Event>)
    ensures PageReads(a + b) == PageReads(a) + PageReads(b)
  {
    if b != [] {
      var n := |b| - 1;
      assert (a + b)[..|a + b| - 1] == a + b[..n];
      PageReadsAppend(a, b[..n]);
    } else {
      assert a + b == a;
    }
  }

  /** An event of any other type, wherever it stands, changes nothing in the result. */
  lemma OtherEventsIgnored(before: seq<Event>, e: Event, after: seq<Event>)
    requires e.eventType != PageReadTime
    ensures CalculateReadingTimes(before + [e] + after) == CalculateReadingTimes(before + after)
  {
    PageReadsSkip(before, e, after);
  }

  lemma PageReadsSkip(before: seq<Event>, e: Event, after: seq<Event>)
    requires e.eventType != PageReadTime
    ensures PageReads(before + [e] + after) == PageReads(before + after)
  {
    PageReadsAppend(before, [e]);
    assert [e][..0] == [];
    assert PageReads([e]) == [];
    assert PageReads(before + [e]) == PageReads(before);
    PageReadsAppend(before + [e], after);
    PageReadsAppend(before, after);
  }
}
