/**
 Expanding an event over a window: its starts, merged with the edits made to single occurrences,
 kept when they meet the window. The specification never mentions how starts were found.
 */
module Expansion {
  import opened Wrappers
  import opened Recurrence
  import opened RecurrenceDates
  import opened RecurrenceSkip

  datatype Details = Details(
    title: string, description: Option<string>, location: Option<string>, timezone: string, allDay: bool)

  /** A stored event. `base`, `timeOfDay` and `toUtc` read `startsAt` on the event's own clock. */
  datatype Event = Event(
    id: int, createdBy: int, details: Details,
    startsAt: int, endsAt: int, recurrence: Option<Rule>,
    base: int, timeOfDay: int, toUtc: int -> int)

  /** An edit to the occurrence that originally started at `occurrenceStart`; absent fields are inherited. */
  datatype Override = Override(
    occurrenceStart: int, cancelled: bool, startsAt: Option<int>, endsAt: Option<int>,
    title: Option<string>, description: Option<string>, location: Option<string>,
    timezone: Option<string>, allDay: Option<bool>)

  datatype Occurrence = Occurrence(
    eventId: int, start: int, end: int, originalStart: int, details: Details,
    createdBy: int, recurring: bool, isException: bool)

  function Duration(e: Event): int {
    e.endsAt - e.startsAt
  }

  function SeriesOf(e: Event): Series
    requires e.recurrence.Some?
  {
    Series(e.startsAt, Duration(e), e.recurrence.value, e.base, e.timeOfDay, e.toUtc)
  }

  ghost predicate ValidEvent(e: Event) {
    e.startsAt < e.endsAt && (e.recurrence.Some? ==> Valid(SeriesOf(e)))
  }

  /** The overrides of one event have distinct keys; the table is unique on them. */
  predicate DistinctKeys(ovs: seq<Override>) {
    forall i, j :: 0 <= i < j < |ovs| ==> ovs[i].occurrenceStart != ovs[j].occurrenceStart
  }

  function Lookup(ovs: seq<Override>, t: int): Option<Override> {
    if ovs == [] then None
    else if ovs[0].occurrenceStart == t then Some(ovs[0])
    else Lookup(ovs[1..], t)
  }

  function Or<T>(edited: Option<T>, inherited: T): T {
    if edited.Some? then edited.value else inherited
  }

  function EditStart(ov: Override): int {
    Or(ov.startsAt, ov.occurrenceStart)
  }

  function EditEnd(ov: Override, duration: int): int {
    Or(ov.endsAt, EditStart(ov) + duration)
  }

  /** `_build_occurrence`: the occurrence that originally started at `t`, unless it was cancelled. */
  function Build(e: Event, ov: Option<Override>, t: int): Option<Occurrence> {
    match ov
    case None =>
      Some(Occurrence(e.id, t, t + Duration(e), t, e.details, e.createdBy, e.recurrence.Some?, false))
    case Some(o) =>
      if o.cancelled then None
      else
        var start := Or(o.startsAt, t);
        var d := e.details;
        Some(Occurrence(
               e.id, start, Or(o.endsAt, start + Duration(e)), t,
               Details(Or(o.title, d.title),
                       if o.description.Some? then o.description else d.description,
                       if o.location.Some? then o.location else d.location,
                       Or(o.timezone, d.timezone),
                       Or(o.allDay, d.allDay)),
               e.createdBy, e.recurrence.Some?, true))
  }

  predicate Meets(o: Occurrence, w: Window) {
    Overlaps(o.start, o.end, w)
  }

  // ---------- Specification ----------

  /** The original starts of an event, whatever the window. */
  ghost predicate IsOriginal(e: Event, t: int)
    requires ValidEvent(e)
  {
    if e.recurrence.None? then t == e.startsAt else IsStart(SeriesOf(e), t)
  }

  predicate IsKey(ovs: seq<Override>, t: int) {
    exists i :: 0 <= i < |ovs| && ovs[i].occurrenceStart == t
  }

  /** What a window shows of an event: the occurrences, edited or not, that meet it. */
  ghost predicate Shows(e: Event, ovs: seq<Override>, w: Window, o: Occurrence)
    requires ValidEvent(e)
  {
    && (IsOriginal(e, o.originalStart) || IsKey(ovs, o.originalStart))
    && Build(e, Lookup(ovs, o.originalStart), o.originalStart) == Some(o)
    && Meets(o, w)
  }

  // ---------- The expansion ----------

  function WalkedStarts(e: Event, w: Window): seq<int>
    requires ValidEvent(e) && ValidWindow(w)
  {
    if e.recurrence.None? then [e.startsAt] else Starts(SeriesOf(e), w)
  }

  /** Overrides whose original start the walk did not produce, in their own order. */
  function Unwalked(ovs: seq<Override>, walked: seq<int>): seq<int> {
    if ovs == [] then []
    else (if ovs[0].occurrenceStart in walked then [] else [ovs[0].occurrenceStart]) + Unwalked(ovs[1..], walked)
  }

  function Collect(e: Event, ovs: seq<Override>, w: Window, ts: seq<int>): seq<Occurrence> {
    if ts == [] then []
    else
      var o := Build(e, Lookup(ovs, ts[0]), ts[0]);
      (if o.Some? && Meets(o.value, w) then [o.value] else []) + Collect(e, ovs, w, ts[1..])
  }

  /** `expand_event_occurrences` when nothing refuses. */
  function Expand(e: Event, ovs: seq<Override>, w: Window): seq<Occurrence>
    requires ValidEvent(e) && ValidWindow(w)
  {
    var walked := WalkedStarts(e, w);
    Collect(e, ovs, w, walked + Unwalked(ovs, walked))
  }

  lemma {:induction false} LookupFinds(ovs: seq<Override>, t: int)
    ensures Lookup(ovs, t).Some? <==> IsKey(ovs, t)
    ensures Lookup(ovs, t).Some? ==> Lookup(ovs, t).value in ovs && Lookup(ovs, t).value.occurrenceStart == t
  {
    if ovs != [] {
      LookupFinds(ovs[1..], t);
      if ovs[0].occurrenceStart != t && IsKey(ovs, t) {
        var i :| 0 <= i < |ovs| && ovs[i].occurrenceStart == t;
        assert ovs[1..][i - 1].occurrenceStart == t;
      }
    }
  }

  lemma {:induction false} UnwalkedAre(ovs: seq<Override>, walked: seq<int>, t: int)
    ensures t in Unwalked(ovs, walked) <==> IsKey(ovs, t) && t !in walked
  {
    if ovs != [] {
      UnwalkedAre(ovs[1..], walked, t);
      var rest := ovs[1..];
      assert IsKey(ovs, t) <==> ovs[0].occurrenceStart == t || IsKey(rest, t) by {
        if i :| 0 <= i < |rest| && rest[i].occurrenceStart == t {
          assert ovs[i + 1].occurrenceStart == t;
        }
        if i :| 0 < i < |ovs| && ovs[i].occurrenceStart == t {
          assert rest[i - 1].occurrenceStart == t;
        }
      }
    }
  }

  lemma {:induction false} CollectHas(e: Event, ovs: seq<Override>, w: Window, ts: seq<int>, o: Occurrence)
    ensures o in Collect(e, ovs, w, ts) <==>
            o.originalStart in ts && Build(e, Lookup(ovs, o.originalStart), o.originalStart) == Some(o) && Meets(o, w)
  {
    if ts != [] {
      CollectHas(e, ovs, w, ts[1..], o);
      assert ts == [ts[0]] + ts[1..];
    }
  }

  /** Membership in an expansion, with the start sources named. */
  lemma ExpandHas(e: Event, ovs: seq<Override>, w: Window, o: Occurrence)
    requires ValidEvent(e) && ValidWindow(w)
    ensures o in Expand(e, ovs, w) <==>
            && (o.originalStart in WalkedStarts(e, w) || IsKey(ovs, o.originalStart))
            && Build(e, Lookup(ovs, o.originalStart), o.originalStart) == Some(o)
            && Meets(o, w)
  {
    var walked := WalkedStarts(e, w);
    CollectHas(e, ovs, w, walked + Unwalked(ovs, walked), o);
    UnwalkedAre(ovs, walked, o.originalStart);
  }

  // ---------- Walked starts are original starts ----------

  /** Every original start whose unedited occurrence meets the window is walked. */
  lemma OriginalsAreWalked(e: Event, w: Window, t: int)
    requires ValidEvent(e) && ValidWindow(w) && (e.recurrence.Some? ==> ListsExactly(SeriesOf(e)))
    requires IsOriginal(e, t) && Overlaps(t, t + Duration(e), w)
    ensures t in WalkedStarts(e, w)
  {
    if e.recurrence.Some? {
      var s := SeriesOf(e);
      var n: nat :| Emitted(s, n) && At(s, n) == t;
      ReferenceHas(s, w, 0, n);
      MeetingHas(s, w, Starts(s, w), t);
    }
  }

  lemma WalkedAreOriginals(e: Event, w: Window, t: int)
    requires ValidEvent(e) && ValidWindow(w) && t in WalkedStarts(e, w)
    ensures IsOriginal(e, t)
  {
    if e.recurrence.Some? {
      WalkYieldsStarts(SeriesOf(e), w, SkipIndex(SeriesOf(e), w), 0, t);
    }
  }

  /** The expansion of an event is exactly what the window shows of it, edits included. */
  lemma ExpandIsExact(e: Event, ovs: seq<Override>, w: Window, o: Occurrence)
    requires ValidEvent(e) && ValidWindow(w) && (e.recurrence.Some? ==> ListsExactly(SeriesOf(e)))
    ensures o in Expand(e, ovs, w) <==> Shows(e, ovs, w, o)
  {
    var t := o.originalStart;
    ExpandHas(e, ovs, w, o);
    LookupFinds(ovs, t);
    if t in WalkedStarts(e, w) {
      WalkedAreOriginals(e, w, t);
    } else if Shows(e, ovs, w, o) && !IsKey(ovs, t) {
      OriginalsAreWalked(e, w, t);
    }
  }

  // ---------- From the stored fields ----------

  /** The event as it is stored, on a start nobody edited. */
  predicate AsStored(e: Event, o: Occurrence) {
    && o.eventId == e.id && o.createdBy == e.createdBy && o.details == e.details
    && o.start == o.originalStart && o.end == o.originalStart + (e.endsAt - e.startsAt)
    && (o.recurring <==> e.recurrence.Some?) && !o.isException
  }

  /** The occurrence an edit leaves: each of its own fields where it has one, the event's where it has none. */
  predicate AsEdited(e: Event, ov: Override, o: Occurrence) {
    && !ov.cancelled && o.originalStart == ov.occurrenceStart
    && o.eventId == e.id && o.createdBy == e.createdBy
    && o.start == (if ov.startsAt.Some? then ov.startsAt.value else ov.occurrenceStart)
    && o.end == (if ov.endsAt.Some? then ov.endsAt.value else o.start + (e.endsAt - e.startsAt))
    && o.details.title == (if ov.title.Some? then ov.title.value else e.details.title)
    && o.details.description == (if ov.description.Some? then ov.description else e.details.description)
    && o.details.location == (if ov.location.Some? then ov.location else e.details.location)
    && o.details.timezone == (if ov.timezone.Some? then ov.timezone.value else e.details.timezone)
    && o.details.allDay == (if ov.allDay.Some? then ov.allDay.value else e.details.allDay)
    && (o.recurring <==> e.recurrence.Some?) && o.isException
  }

  /** A start of the event, edited or not: its one start, or that of a date its rule emits. */
  ghost predicate StartsAt(e: Event, t: int) {
    match e.recurrence
    case None => t == e.startsAt
    case Some(rule) =>
      var s := Series(e.startsAt, e.endsAt - e.startsAt, rule, e.base, e.timeOfDay, e.toUtc);
      exists d :: Emits(s, d) && e.toUtc(d) == t
  }

  /** What a window shows of a stored event and its edits, field by field. */
  ghost predicate ShownAs(e: Event, ovs: seq<Override>, w: Window, o: Occurrence) {
    && o.start < w.end && o.end > w.start
    && ((exists ov :: ov in ovs && AsEdited(e, ov, o))
        || (StartsAt(e, o.originalStart) && AsStored(e, o) && forall ov :: ov in ovs ==> ov.occurrenceStart != o.originalStart))
  }

  lemma StartsAtIff(e: Event, t: int)
    requires ValidEvent(e)
    ensures IsOriginal(e, t) <==> StartsAt(e, t)
  {
    hide Emits, IsStart;
    if e.recurrence.Some? {
      IsStartIff(SeriesOf(e), t);
    }
  }

  lemma BuiltIff(e: Event, ov: Override, o: Occurrence)
    ensures Build(e, Some(ov), ov.occurrenceStart) == Some(o) <==> AsEdited(e, ov, o)
    ensures Build(e, None, o.originalStart) == Some(o) <==> AsStored(e, o)
  {
  }

  lemma KeyedEdit(ovs: seq<Override>, ov: Override)
    requires DistinctKeys(ovs) && ov in ovs
    ensures Lookup(ovs, ov.occurrenceStart) == Some(ov)
  {
    LookupFinds(ovs, ov.occurrenceStart);
    var i :| 0 <= i < |ovs| && ovs[i] == ov;
    var found := Lookup(ovs, ov.occurrenceStart).value;
    var j :| 0 <= j < |ovs| && ovs[j] == found;
  }

  /** The occurrences a window shows are those the stored fields call for. */
  lemma ShownIff(e: Event, ovs: seq<Override>, w: Window, o: Occurrence)
    requires ValidEvent(e) && DistinctKeys(ovs)
    ensures Shows(e, ovs, w, o) <==> ShownAs(e, ovs, w, o)
  {
    hide Build, AsEdited, AsStored, StartsAt, IsOriginal, Lookup;
    var t := o.originalStart;
    StartsAtIff(e, t);
    LookupFinds(ovs, t);
    match Lookup(ovs, t)
    case Some(found) =>
      BuiltIff(e, found, o);
      forall ov | ov in ovs && AsEdited(e, ov, o) ensures ov == found {
        EditedStart(e, ov, o);
        KeyedEdit(ovs, ov);
      }
    case None =>
      forall ov | ov in ovs ensures ov.occurrenceStart != t && !AsEdited(e, ov, o) {
        EditedStart(e, ov, o);
        if ov.occurrenceStart == t {
          KeyedEdit(ovs, ov);
        }
      }
      UneditedIff(e, o);
  }

  lemma UneditedIff(e: Event, o: Occurrence)
    ensures Build(e, None, o.originalStart) == Some(o) <==> AsStored(e, o)
  {
  }

  lemma EditedStart(e: Event, ov: Override, o: Occurrence)
    ensures AsEdited(e, ov, o) ==> ov.occurrenceStart == o.originalStart
  {
  }

  /** The expansion, read off the stored event and its edits alone. */
  lemma ExpandIsWhatIsStored(e: Event, ovs: seq<Override>, w: Window, o: Occurrence)
    requires ValidEvent(e) && ValidWindow(w) && DistinctKeys(ovs)
    requires e.recurrence.Some? ==> ListsExactly(SeriesOf(e))
    ensures o in Expand(e, ovs, w) <==> ShownAs(e, ovs, w, o)
  {
    ExpandIsExact(e, ovs, w, o);
    ShownIff(e, ovs, w, o);
  }

  /** Whatever the walk finds: a cancelled start is not expanded, and what is edited is as its edit has it. */
  lemma EditsAreHonoured(e: Event, ovs: seq<Override>, w: Window, ov: Override, o: Occurrence)
    requires ValidEvent(e) && ValidWindow(w) && DistinctKeys(ovs)
    requires o in Expand(e, ovs, w)
    ensures ov in ovs && ov.occurrenceStart == o.originalStart ==> AsEdited(e, ov, o)
    ensures o.isException <==> exists edit :: edit in ovs && edit.occurrenceStart == o.originalStart
  {
    hide Build, AsEdited, Expand;
    var t := o.originalStart;
    ExpandHas(e, ovs, w, o);
    LookupFinds(ovs, t);
    match Lookup(ovs, t)
    case Some(found) =>
      BuiltIff(e, found, o);
      EditedIsException(e, found, o);
      if ov in ovs && ov.occurrenceStart == t {
        KeyedEdit(ovs, ov);
      }
    case None =>
      UneditedIff(e, o);
      forall edit | edit in ovs ensures edit.occurrenceStart != t {
        if edit.occurrenceStart == t {
          KeyedEdit(ovs, edit);
        }
      }
  }

  lemma EditedIsException(e: Event, ov: Override, o: Occurrence)
    ensures AsEdited(e, ov, o) ==> o.isException
  {
  }

  /** Narrowing the window only filters: nothing appears or disappears with the window asked for. */
  lemma WindowRestriction(e: Event, ovs: seq<Override>, w: Window, wide: Window, o: Occurrence)
    requires ValidEvent(e) && ValidWindow(w) && ValidWindow(wide) && wide.start <= w.start && w.end <= wide.end
    requires e.recurrence.Some? ==> ListsExactly(SeriesOf(e))
    ensures o in Expand(e, ovs, w) <==> o in Expand(e, ovs, wide) && Meets(o, w)
  {
    ExpandIsExact(e, ovs, w, o);
    ExpandIsExact(e, ovs, wide, o);
  }

  // ---------- What the listing loads ----------

  /** `edit_in_window`: the original slot or the edited slot meets the window. */
  predicate EditInWindow(e: Event, ov: Override, w: Window) {
    || Overlaps(ov.occurrenceStart, ov.occurrenceStart + Duration(e), w)
    || Overlaps(EditStart(ov), EditEnd(ov, Duration(e)), w)
  }

  function LoadedEdits(e: Event, ovs: seq<Override>, w: Window): seq<Override> {
    if ovs == [] then []
    else (if EditInWindow(e, ovs[0], w) then [ovs[0]] else []) + LoadedEdits(e, ovs[1..], w)
  }

  /** `recurring_in_window`. */
  predicate RecurringInWindow(e: Event, w: Window) {
    && e.recurrence.Some?
    && e.startsAt < w.end
    && (e.recurrence.value.until.Some? ==> e.recurrence.value.until.value + Duration(e) > w.start)
  }

  predicate LoadsEvent(e: Event, ovs: seq<Override>, w: Window) {
    RecurringInWindow(e, w) || Overlaps(e.startsAt, e.endsAt, w) || LoadedEdits(e, ovs, w) != []
  }

  lemma {:induction false} LoadedEditsAre(e: Event, ovs: seq<Override>, w: Window, ov: Override)
    ensures ov in LoadedEdits(e, ovs, w) <==> ov in ovs && EditInWindow(e, ov, w)
  {
    if ovs != [] {
      LoadedEditsAre(e, ovs[1..], w, ov);
      assert ovs == [ovs[0]] + ovs[1..];
    }
  }

  lemma {:induction false} LoadedLookup(e: Event, ovs: seq<Override>, w: Window, t: int)
    requires DistinctKeys(ovs)
    ensures Lookup(LoadedEdits(e, ovs, w), t) ==
            if Lookup(ovs, t).Some? && EditInWindow(e, Lookup(ovs, t).value, w) then Lookup(ovs, t) else None
  {
    if ovs != [] {
      var rest, kept := ovs[1..], LoadedEdits(e, ovs[1..], w);
      LoadedLookup(e, rest, w, t);
      LookupFinds(rest, t);
      assert ([ovs[0]] + kept)[1..] == kept && [] + kept == kept;
    }
  }

  lemma BuiltSlot(e: Event, ov: Override)
    requires !ov.cancelled
    ensures var b := Build(e, Some(ov), ov.occurrenceStart);
            b.Some? && b.value.start == EditStart(ov) && b.value.end == EditEnd(ov, Duration(e))
  {
  }

  /** Leaving out the edits that miss the window changes nothing in it. */
  lemma LoadingFewerEdits(e: Event, ovs: seq<Override>, w: Window, o: Occurrence)
    requires ValidEvent(e) && ValidWindow(w) && DistinctKeys(ovs)
    ensures o in Expand(e, LoadedEdits(e, ovs, w), w) <==> o in Expand(e, ovs, w)
  {
    var t, kept := o.originalStart, LoadedEdits(e, ovs, w);
    ExpandHas(e, ovs, w, o);
    ExpandHas(e, kept, w, o);
    LoadedLookup(e, ovs, w, t);
    LookupFinds(ovs, t);
    LookupFinds(kept, t);
    var ov := Lookup(ovs, t);
    if ov.Some? && !EditInWindow(e, ov.value, w) && !ov.value.cancelled {
      BuiltSlot(e, ov.value);
    }
  }

  lemma WalkedStartsAreBounded(e: Event, w: Window, t: int)
    requires ValidEvent(e) && ValidWindow(w) && e.recurrence.Some? && t in WalkedStarts(e, w)
    ensures t >= e.startsAt
    ensures e.recurrence.value.until.Some? ==> t <= e.recurrence.value.until.value
  {
    WalkedAreOriginals(e, w, t);
  }

  /** An event the query does not load has nothing in the window. */
  lemma UnloadedShowsNothing(e: Event, ovs: seq<Override>, w: Window, o: Occurrence)
    requires ValidEvent(e) && ValidWindow(w) && DistinctKeys(ovs) && !LoadsEvent(e, ovs, w)
    ensures o !in Expand(e, ovs, w)
  {
    LoadingFewerEdits(e, ovs, w, o);
    ExpandHas(e, [], w, o);
    if e.recurrence.Some? && o.originalStart in WalkedStarts(e, w) {
      WalkedStartsAreBounded(e, w, o.originalStart);
    }
  }
}
