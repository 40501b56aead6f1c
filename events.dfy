/** The event log: one row per visitor-document interaction. */
module Events {

  /**
   * One row of the event table. `visitor` is the visitor_uuid column, `doc`
   * the subject_doc_id column, `eventType` the event_type column and
   * `readTime` the event_readtime column (milliseconds).
   */
  datatype Event = Event(visitor: string, doc: string, eventType: string, readTime: nat)

  /** The reader set of a document: every visitor with at least one event on it. */
  ghost function ReaderSet(events: seq<Event>, doc: string): set<string>
  {
    set i | 0 <= i < |events| && events[i].doc == doc :: events[i].visitor
  }

  /** The document set of a visitor: every document the visitor has an event on. */
  ghost function DocSet(events: seq<Event>, visitor: string): set<string>
  {
    set i | 0 <= i < |events| && events[i].visitor == visitor :: events[i].doc
  }

  /** Reading is one relation seen from both sides. */
  lemma ReadSymmetric(events: seq<Event>, visitor: string, doc: string)
    ensures visitor in ReaderSet(events, doc) <==> doc in DocSet(events, visitor)
  {
    if visitor in ReaderSet(events, doc) {
      var i :| 0 <= i < |events| && events[i].doc == doc && events[i].visitor == visitor;
      assert doc == events[i].doc;
    }
    if doc in DocSet(events, visitor) {
      var i :| 0 <= i < |events| && events[i].visitor == visitor && events[i].doc == doc;
      assert visitor == events[i].visitor;
    }
  }

  /** Appending an event adds at most its own visitor to a reader set. */
  lemma ReaderSetSnoc(events: seq<Event>, doc: string)
    requires events != []
    ensures var n := |events| - 1;
      ReaderSet(events, doc) == ReaderSet(events[..n], doc) + (if events[n].doc == doc then {events[n].visitor} else {})
  {
    var n := |events| - 1;
    forall v | v in ReaderSet(events, doc)
      ensures v in ReaderSet(events[..n], doc) || (events[n].doc == doc && v == events[n].visitor)
    {
      var i :| 0 <= i < |events| && events[i].doc == doc && events[i].visitor == v;
      if i < n {
        assert events[..n][i] == events[i];
      }
    }
    forall v | v in ReaderSet(events[..n], doc) ensures v in ReaderSet(events, doc) {
      var i :| 0 <= i < n && events[..n][i].doc == doc && events[..n][i].visitor == v;
      assert events[i] == events[..n][i];
    }
  }

  /** Appending an event adds at most its own document to a document set. */
  lemma DocSetSnoc(events: seq<Event>, visitor: string)
    requires events != []
    ensures var n := |events| - 1;
      DocSet(events, visitor) == DocSet(events[..n], visitor) + (if events[n].visitor == visitor then {events[n].doc} else {})
  {
    var n := |events| - 1;
    forall d | d in DocSet(events, visitor)
      ensures d in DocSet(events[..n], visitor) || (events[n].visitor == visitor && d == events[n].doc)
    {
      var i :| 0 <= i < |events| && events[i].visitor == visitor && events[i].doc == d;
      if i < n {
        assert events[..n][i] == events[i];
      }
    }
    forall d | d in DocSet(events[..n], visitor) ensures d in DocSet(events, visitor) {
      var i :| 0 <= i < n && events[..n][i].visitor == visitor && events[..n][i].doc == d;
      assert events[i] == events[..n][i];
    }
  }
}
