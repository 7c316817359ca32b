/**
 The listing behind the cache: when every response is a listing of the stored events, what a client
 holds for a covered window is what the rules and edits show in it.
 */
module CalendarEndToEnd {
  import opened Wrappers
  import opened Intervals
  import opened Recurrence
  import opened RecurrenceBound
  import opened Expansion
  import opened Listing
  import Cache = OccurrenceCache

  /** An occurrence some stored row produces, in whatever window. */
  ghost predicate ProducedBy(row: Row, o: Occurrence) {
    && ValidRow(row)
    && (IsOriginal(row.event, o.originalStart) || IsKey(row.edits, o.originalStart))
    && Build(row.event, Lookup(row.edits, o.originalStart), o.originalStart) == Some(o)
  }

  ghost function Server(db: seq<Row>): iset<Occurrence> {
    iset o | Produced(db, o)
  }

  ghost predicate Produced(db: seq<Row>, o: Occurrence) {
    exists row :: row in db && ProducedBy(row, o)
  }

  /** Edited occurrences end after they start, as unedited ones do. */
  predicate EditsLast(row: Row) {
    forall ov :: ov in row.edits && !ov.cancelled ==> EditStart(ov) < EditEnd(ov, Duration(row.event))
  }

  ghost predicate Kept(db: seq<Row>) {
    && (forall row :: row in db ==> WellKept(row) && EditsLast(row))
    && forall a, b :: a in db && b in db && a.event.id == b.event.id ==> a == b
  }

  lemma ProducedLasts(row: Row, o: Occurrence)
    requires ProducedBy(row, o) && EditsLast(row)
    ensures o.start < o.end && o.eventId == row.event.id
  {
    LookupFinds(row.edits, o.originalStart);
    var ov := Lookup(row.edits, o.originalStart);
    if ov.Some? && !ov.value.cancelled {
      BuiltSlot(row.event, ov.value);
    }
  }

  lemma ServerIsValid(db: seq<Row>)
    requires Kept(db)
    ensures Cache.ValidServer(Server(db))
  {
    forall o | o in Server(db) ensures o.start < o.end {
      var row :| row in db && ProducedBy(row, o);
      ProducedLasts(row, o);
    }
    forall o, o' | o in Server(db) && o' in Server(db) && Cache.KeyOf(o) == Cache.KeyOf(o') ensures o == o' {
      var row :| row in db && ProducedBy(row, o);
      var row' :| row' in db && ProducedBy(row', o');
      ProducedLasts(row, o);
      ProducedLasts(row', o');
      assert row == row';
    }
  }

  /** What a row produces and meets the window is what its stored fields call for there. */
  lemma ProducedIsShown(row: Row, w: Window, o: Occurrence)
    ensures ProducedBy(row, o) && Meets(o, w) <==> ShownByRow(row, w, o)
  {
    hide ShownAs;
    if ValidRow(row) {
      ShownIff(row.event, row.edits, w, o);
    }
  }

  lemma ProducedAreShown(db: seq<Row>, w: Window, o: Occurrence)
    ensures o in Server(db) && Meets(o, w) <==> exists row :: row in db && ShownByRow(row, w, o)
  {
    hide ProducedBy, ShownByRow, Meets;
    forall row ensures ProducedBy(row, o) && Meets(o, w) <==> ShownByRow(row, w, o) {
      ProducedIsShown(row, w, o);
    }
  }

  /** A listing answers its window as the cache expects of its server. */
  lemma ListingAnswers(db: seq<Row>, w: Window, fetched: seq<Occurrence>)
    requires Kept(db) && ListableWindow(w)
    requires ValidRows(Loaded(db, w)) && forall o :: o in fetched <==> o in AllListed(Loaded(db, w), w)
    ensures Cache.Answers(Server(db), Interval(w.start, w.end), fetched)
  {
    forall o ensures o in fetched <==> o in Server(db) && Cache.Meets(o, Interval(w.start, w.end)) {
      ListingIsExact(db, w, o);
      ProducedAreShown(db, w, o);
    }
  }

  /** A run of the cache whose server is the stored events, edited only between invalidations. */
  ghost predicate RunOver(states: seq<Cache.Store>, dbs: seq<seq<Row>>, events: seq<Cache.Event>) {
    && |states| == |dbs| == |events| + 1
    && states[0] == Cache.EMPTY
    && (forall k :: 0 <= k < |dbs| ==> Kept(dbs[k]))
    && forall k :: 0 <= k < |events| ==> StepOver(states[k], dbs[k], events[k], states[k + 1], dbs[k + 1])
  }

  ghost predicate StepOver(s: Cache.Store, db: seq<Row>, e: Cache.Event, s': Cache.Store, db': seq<Row>) {
    && Cache.Step(s, e, s')
    && (e.Completed? ==> IsListing(db, e.interval, e.fetched))
    && (db' != db ==> e.Invalidated? && s.inFlight == {})
  }

  ghost predicate IsListing(db: seq<Row>, interval: Interval, fetched: seq<Occurrence>) {
    var w := Window(interval.start, interval.end);
    && ListableWindow(w) && ValidRows(Loaded(db, w))
    && forall o :: o in fetched <==> o in AllListed(Loaded(db, w), w)
  }

  lemma RunOverIsRun(states: seq<Cache.Store>, dbs: seq<seq<Row>>, events: seq<Cache.Event>)
    requires RunOver(states, dbs, events)
    ensures Cache.Run(states, seq(|dbs|, k requires 0 <= k < |dbs| => Server(dbs[k])), events)
  {
    var servers := seq(|dbs|, k requires 0 <= k < |dbs| => Server(dbs[k]));
    hide Cache.Step, Server, ListableWindow;
    ServerIsValid(dbs[0]);
    forall k | 0 <= k < |events|
      ensures Cache.WorldStep(states[k], servers[k], events[k], states[k + 1], servers[k + 1])
    {
      assert StepOver(states[k], dbs[k], events[k], states[k + 1], dbs[k + 1]);
      ServerIsValid(dbs[k + 1]);
      if events[k].Completed? {
        var v := events[k].interval;
        ListingAnswers(dbs[k], Window(v.start, v.end), events[k].fetched);
      }
    }
  }

  /**
   From rules to cache: over a window the cache has covered, it holds exactly the occurrences that
   some stored event, with its edits, shows in that window.
   */
  lemma CacheShowsTheCalendar(
    states: seq<Cache.Store>, dbs: seq<seq<Row>>, events: seq<Cache.Event>, k: nat, w: Window, o: Occurrence)
    requires RunOver(states, dbs, events) && k < |states|
    requires w.start < w.end && Cache.FullyCovered(states[k].covered, Interval(w.start, w.end))
    requires o.start < o.end
    ensures o in states[k].byKey.Values && Meets(o, w) <==> exists row :: row in dbs[k] && ShownByRow(row, w, o)
  {
    RunOverIsRun(states, dbs, events);
    var servers := seq(|dbs|, i requires 0 <= i < |dbs| => Server(dbs[i]));
    Cache.CacheAgreesWithServer(states, servers, events, k, Interval(w.start, w.end), o);
    ProducedAreShown(dbs[k], w, o);
  }

  /**
   From rules to screen: a load whose gaps have all arrived, with nothing invalidated and nothing
   trimmed since it began, publishes for its window exactly what the stored events show in it.
   */
  lemma PublishedIsTheCalendar(
    states: seq<Cache.Store>, dbs: seq<seq<Row>>, events: seq<Cache.Event>, begin: nat, end: nat,
    w: Window, gaps: seq<Interval>, arrivals: seq<nat>, o: Occurrence)
    requires RunOver(states, dbs, events) && begin <= end < |events| && events[end].Published?
    requires Cache.StaysUnderCap(states, events, begin, end) && Cache.NotInvalidated(events, begin, end)
    requires AreGaps(states[begin].covered, Interval(w.start, w.end), gaps) && |arrivals| == |gaps|
    requires forall g :: 0 <= g < |gaps| ==>
               begin <= arrivals[g] < end && events[arrivals[g]].Completed? && events[arrivals[g]].interval == gaps[g]
    requires w.start < w.end && o.start < o.end
    ensures o in states[end + 1].occurrences && Meets(o, w) <==> exists row :: row in dbs[end] && ShownByRow(row, w, o)
  {
    RunOverIsRun(states, dbs, events);
    var servers := seq(|dbs|, i requires 0 <= i < |dbs| => Server(dbs[i]));
    Cache.LoadPublishesTheAnswer(states, servers, events, begin, end, Interval(w.start, w.end), gaps, arrivals, o);
    ProducedAreShown(dbs[end], w, o);
  }
}
