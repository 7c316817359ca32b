/**
 The client's scoped query cache: one entry per scope in recency order, single flight per entry, and
 eviction of the coldest entries nothing pins. Data carries the time of the request that returned it,
 and keeps that time through whatever is later written over it.
 */
module QueryCache {
  import opened Wrappers

  /**
   What an entry shows, when the request that returned it was made, and how often it was edited since.
   No request returned a fill.
   */
  datatype Datum = Datum(body: string, source: Option<int>, edits: nat)

  /** A request awaiting its response, or one whose response was handled and whose `finally` was not. */
  datatype Flight = NoFlight | Pending(requestedAt: int) | Settled(requestedAt: int)

  /** One entry. `createdAt` and `invalidatedAt` are history: when it was made and last invalidated. */
  datatype Held = Held(
    data: Option<Datum>, loading: bool, error: bool,
    flight: Flight, stale: bool, createdAt: int, invalidatedAt: Option<int>)

  function Fresh(now: int): Held {
    Held(None, false, false, NoFlight, false, now, None)
  }

  /**
   Where the data of a written state comes from: the data there, edited; nothing; data captured
   earlier, put back whole or in part; or data made up where there was none.
   */
  datatype Content = Edited(edit: string -> string) | Cleared | Restored(previous: Datum) | Filled(body: string)

  /** A state written by `updateWhere`. */
  datatype Patch = Patch(content: Content, loading: bool, error: bool)

  /** The data after a write. Editing absent data leaves it absent. */
  function Written(d: Option<Datum>, c: Content): Option<Datum> {
    match c
    case Edited(edit) => if d.Some? then Some(Datum(edit(d.value.body), d.value.source, d.value.edits + 1)) else None
    case Cleared => None
    case Restored(previous) => Some(previous)
    case Filled(body) => Some(Datum(body, None, 0))
  }

  datatype Event =
    | Fetch(background: Option<bool>)
    | Resolve(body: string)
    | Reject
    | Finish
    | Invalidate
    | Write(patch: Patch)
    | Seed(body: string, obtainedAt: int)

  /** What is put back was requested before now. */
  predicate Captured(p: Patch, now: int) {
    p.content.Restored? && p.content.previous.source.Some? ==> p.content.previous.source.value < now
  }

  predicate Enabled(h: Held, e: Event, now: int) {
    match e
    case Fetch(_) => true
    case Resolve(_) => h.flight.Pending?
    case Reject => h.flight.Pending?
    case Finish => h.flight.Settled?
    case Invalidate => true
    case Write(p) => Captured(p, now)
    case Seed(_, obtainedAt) => obtainedAt < now
  }

  /** `fetch` on an entry: joins a request in flight, else starts one and clears `stale`. */
  function Fetched(h: Held, background: Option<bool>, now: int): Held {
    if !h.flight.NoFlight? then h
    else
      var hasData := h.data.Some?;
      var quiet := if background.Some? then background.value else hasData;
      var shown := if !quiet || !hasData then h.(loading := true, error := false)
                   else if h.error then h.(loading := false, error := false)
                   else h;
      shown.(stale := false, flight := Pending(now))
  }

  function Patched(h: Held, p: Patch): Held {
    h.(data := Written(h.data, p.content), loading := p.loading, error := p.error)
  }

  function Next(h: Held, e: Event, now: int): Held
    requires Enabled(h, e, now)
  {
    match e
    case Fetch(background) => Fetched(h, background, now)
    case Resolve(body) =>
      h.(data := Some(Datum(body, Some(h.flight.requestedAt), 0)), loading := false, error := false,
         flight := Settled(h.flight.requestedAt))
    case Reject => h.(loading := false, error := true, flight := Settled(h.flight.requestedAt))
    case Finish => h.(flight := NoFlight)
    case Invalidate => h.(stale := true, invalidatedAt := Some(now))
    case Write(p) => Patched(h, p)
    case Seed(body, obtainedAt) =>
      h.(data := Some(Datum(body, Some(obtainedAt), 0)), loading := false, error := false, stale := false)
  }

  // ---------- Freshness ----------

  predicate After(time: int, invalidatedAt: Option<int>) {
    invalidatedAt.Some? ==> time > invalidatedAt.value
  }

  /** Some request returned it, and was made after the last invalidation. */
  predicate IsFresh(d: Datum, invalidatedAt: Option<int>) {
    d.source.Some? && After(d.source.value, invalidatedAt)
  }

  /** Nothing marks the data as out of date: not stale, no response awaited, no error. */
  predicate ShownAsCurrent(h: Held) {
    h.data.Some? && !h.stale && !h.flight.Pending? && !h.error
  }

  predicate Current(h: Held) {
    ShownAsCurrent(h) ==> IsFresh(h.data.value, h.invalidatedAt)
  }

  /** A response awaited by an entry that is not marked stale will be shown as current. */
  predicate AwaitsFresh(h: Held) {
    !h.stale && h.flight.Pending? ==> After(h.flight.requestedAt, h.invalidatedAt)
  }

  /** Nothing outdated is shown as current, or is about to be. */
  predicate OnlyFresh(h: Held) {
    Current(h) && AwaitsFresh(h)
  }

  /** Requests and data lie in the past. */
  predicate Timed(h: Held, now: int) {
    && h.createdAt <= now && (h.invalidatedAt.Some? ==> h.invalidatedAt.value < now)
    && (h.data.Some? && h.data.value.source.Some? ==> h.data.value.source.value < now)
    && (!h.flight.NoFlight? ==> h.createdAt <= h.flight.requestedAt < now)
  }

  /**
   The check a writer can make first. A write cannot be taken for current data when the entry is
   stale, awaits a response or keeps an error; otherwise what it puts in must be fresh.
   */
  predicate Harmless(h: Held, p: Patch) {
    || h.stale || h.flight.Pending? || p.error
    || match p.content
       case Edited(_) => h.data.None? || !h.error || IsFresh(h.data.value, h.invalidatedAt)
       case Cleared => true
       case Restored(previous) => IsFresh(previous, h.invalidatedAt)
       case Filled(_) => false
  }

  /** A seed clears `stale`, so what it puts in, or the response then awaited in its place, must be fresh. */
  predicate HarmlessSeed(h: Held, obtainedAt: int) {
    After(if h.flight.Pending? then h.flight.requestedAt else obtainedAt, h.invalidatedAt)
  }

  predicate HarmlessEvent(h: Held, e: Event) {
    match e
    case Write(p) => Harmless(h, p)
    case Seed(_, obtainedAt) => HarmlessSeed(h, obtainedAt)
    case _ => true
  }

  lemma EventKeepsTimed(h: Held, e: Event, now: int)
    requires Timed(h, now) && Enabled(h, e, now)
    ensures Timed(Next(h, e, now), now + 1)
  {
  }

  /** On an entry that shows nothing outdated, an event does harm exactly when the check fails. */
  lemma EventKeepsFreshIff(h: Held, e: Event, now: int)
    requires Timed(h, now) && OnlyFresh(h) && Enabled(h, e, now)
    ensures OnlyFresh(Next(h, e, now)) <==> HarmlessEvent(h, e)
  {
  }

  /** An entry's life: the events that reach it and when each does. */
  ghost predicate Life(states: seq<Held>, events: seq<Event>, times: seq<int>) {
    && |states| == |events| + 1 == |times| + 1
    && (forall k :: 0 <= k < |times| - 1 ==> times[k] < times[k + 1])
    && (|times| > 0 ==> states[0].createdAt < times[0])
    && states[0] == Fresh(states[0].createdAt)
    && forall k :: 0 <= k < |events| ==>
         Enabled(states[k], events[k], times[k]) && states[k + 1] == Next(states[k], events[k], times[k])
  }

  lemma LaterIsTimed(h: Held, now: int, later: int)
    requires Timed(h, now) && now <= later
    ensures Timed(h, later)
  {
  }

  /** When the k-th state of a life begins. */
  function Since(states: seq<Held>, times: seq<int>, k: nat): int
    requires k < |states| == |times| + 1
  {
    if k == 0 then states[0].createdAt else times[k - 1] + 1
  }

  lemma {:induction false} LifeIsTimed(states: seq<Held>, events: seq<Event>, times: seq<int>, k: nat)
    requires Life(states, events, times) && k < |states|
    ensures Timed(states[k], Since(states, times, k))
    ensures k < |times| ==> Timed(states[k], times[k])
    ensures states[k].createdAt == states[0].createdAt
  {
    if k > 0 {
      LifeIsTimed(states, events, times, k - 1);
      hide Timed;
      EventKeepsTimed(states[k - 1], events[k - 1], times[k - 1]);
    }
    if k < |times| {
      LaterIsTimed(states[k], Since(states, times, k), times[k]);
    }
  }

  lemma {:induction false} FreshWhileHarmless(states: seq<Held>, events: seq<Event>, times: seq<int>, k: nat)
    requires Life(states, events, times) && k < |states|
    requires forall j :: 0 <= j < k ==> HarmlessEvent(states[j], events[j])
    ensures OnlyFresh(states[k])
  {
    if k > 0 {
      FreshWhileHarmless(states, events, times, k - 1);
      LifeIsTimed(states, events, times, k - 1);
      hide Timed, HarmlessEvent, OnlyFresh;
      EventKeepsFreshIff(states[k - 1], events[k - 1], times[k - 1]);
    }
  }

  /**
   Under every interleaving of fetches, responses, failures, invalidations, writes and seeds: all data
   ever shown as current, or awaited to be, was requested after the last invalidation, exactly when
   every write and seed passed its check.
   */
  lemma ShownDataIsCurrent(states: seq<Held>, events: seq<Event>, times: seq<int>)
    requires Life(states, events, times)
    ensures (forall k :: 0 <= k < |states| ==> OnlyFresh(states[k]))
            <==> (forall k :: 0 <= k < |events| ==> HarmlessEvent(states[k], events[k]))
  {
    hide Timed, HarmlessEvent, OnlyFresh;
    if forall k :: 0 <= k < |events| ==> HarmlessEvent(states[k], events[k]) {
      forall k | 0 <= k < |states| ensures OnlyFresh(states[k]) {
        FreshWhileHarmless(states, events, times, k);
      }
    }
    if forall k :: 0 <= k < |states| ==> OnlyFresh(states[k]) {
      forall k | 0 <= k < |events| ensures HarmlessEvent(states[k], events[k]) {
        LifeIsTimed(states, events, times, k);
        EventKeepsFreshIff(states[k], events[k], times[k]);
        assert OnlyFresh(states[k + 1]);
      }
    }
  }

  // ---------- Older data ----------

  /** Its data was not requested before a moment. */
  predicate Owns(h: Held, since: int) {
    h.data.Some? && h.data.value.source.Some? ==> h.data.value.source.value >= since
  }

  predicate BringsNothingOlder(e: Event, since: int) {
    match e
    case Write(p) =>
      p.content.Restored? && p.content.previous.source.Some? ==> p.content.previous.source.value >= since
    case Seed(_, obtainedAt) => obtainedAt >= since
    case _ => true
  }

  lemma EventOwnsIff(h: Held, e: Event, now: int, since: int)
    requires Timed(h, now) && Owns(h, since) && since <= h.createdAt && Enabled(h, e, now)
    ensures Owns(Next(h, e, now), since) <==> BringsNothingOlder(e, since)
  {
  }

  lemma {:induction false} OwnsWhileNothingOlder(
    states: seq<Held>, events: seq<Event>, times: seq<int>, since: int, k: nat)
    requires Life(states, events, times) && k < |states| && since <= states[0].createdAt
    requires forall j :: 0 <= j < k ==> BringsNothingOlder(events[j], since)
    ensures Owns(states[k], since)
  {
    if k > 0 {
      OwnsWhileNothingOlder(states, events, times, since, k - 1);
      LifeIsTimed(states, events, times, k - 1);
      hide Timed, Owns, BringsNothingOlder;
      EventOwnsIff(states[k - 1], events[k - 1], times[k - 1], since);
    }
  }

  /**
   An entry made after a reset, or after any other moment, never holds data requested before it,
   exactly when no write puts such data back and no seed was obtained before it.
   */
  lemma NothingOlderReaches(states: seq<Held>, events: seq<Event>, times: seq<int>, since: int)
    requires Life(states, events, times) && since <= states[0].createdAt
    ensures (forall k :: 0 <= k < |states| ==> Owns(states[k], since))
            <==> (forall k :: 0 <= k < |events| ==> BringsNothingOlder(events[k], since))
  {
    hide Timed, Owns, BringsNothingOlder;
    if forall k :: 0 <= k < |events| ==> BringsNothingOlder(events[k], since) {
      forall k | 0 <= k < |states| ensures Owns(states[k], since) {
        OwnsWhileNothingOlder(states, events, times, since, k);
      }
    }
    if forall k :: 0 <= k < |states| ==> Owns(states[k], since) {
      forall k | 0 <= k < |events| ensures BringsNothingOlder(events[k], since) {
        LifeIsTimed(states, events, times, k);
        EventOwnsIff(states[k], events[k], times[k], since);
        assert Owns(states[k + 1], since);
      }
    }
  }

  /** The time of the last invalidation among the first `k` events. */
  function LastInvalidation(events: seq<Event>, times: seq<int>, k: nat): Option<int>
    requires k <= |events| == |times|
  {
    if k == 0 then None
    else if events[k - 1].Invalidate? then Some(times[k - 1])
    else LastInvalidation(events, times, k - 1)
  }

  lemma {:induction false} InvalidationsAreRemembered(states: seq<Held>, events: seq<Event>, times: seq<int>, k: nat)
    requires Life(states, events, times) && k < |states|
    ensures states[k].invalidatedAt == LastInvalidation(events, times, k)
  {
    if k > 0 {
      InvalidationsAreRemembered(states, events, times, k - 1);
    }
  }

  // ---------- What an entry shows, from its history ----------

  /** A flag that some events raise and some lower is up exactly when it was raised and not lowered since. */
  lemma {:induction false} LastWordDecides(flags: seq<bool>, raised: seq<bool>, lowered: seq<bool>, k: nat)
    requires |raised| == |lowered| && |flags| == |raised| + 1 && k < |flags| && !flags[0]
    requires forall j :: 0 <= j < |raised| ==> (flags[j + 1] <==> raised[j] || (flags[j] && !lowered[j]))
    ensures flags[k] <==> RaisedSince(raised, lowered, k)
  {
    if k > 0 {
      LastWordDecides(flags, raised, lowered, k - 1);
      if flags[k - 1] && !lowered[k - 1] {
        var j :| 0 <= j < k - 1 && raised[j] && forall i :: j < i < k - 1 ==> !lowered[i];
        assert forall i :: j < i < k ==> !lowered[i];
      }
    }
  }

  predicate RaisedSince(raised: seq<bool>, lowered: seq<bool>, k: nat)
    requires k <= |raised| == |lowered|
  {
    exists j :: 0 <= j < k && raised[j] && forall i :: j < i < k ==> !lowered[i]
  }

  function Which(states: seq<Held>, events: seq<Event>, p: (Held, Event) -> bool): (flags: seq<bool>)
    requires |states| == |events| + 1
    ensures |flags| == |events| && forall j :: 0 <= j < |events| ==> (flags[j] <==> p(states[j], events[j]))
  {
    seq(|events|, j requires 0 <= j < |events| => p(states[j], events[j]))
  }

  /** A fetch that makes a request, rather than joining the one in flight. */
  predicate Starts(h: Held, e: Event) {
    e.Fetch? && h.flight.NoFlight?
  }

  /** Such a fetch asked to show that it is loading, or with nothing else to show. */
  predicate StartsLoudly(h: Held, e: Event) {
    Starts(h, e) && (e.background == Some(false) || h.data.None?)
  }

  predicate Answers(e: Event) {
    e.Resolve? || e.Reject?
  }

  predicate Overwrites(e: Event) {
    e.Seed? || e.Write?
  }

  /** Loading: since a loud request, or a write saying so, nothing answered, was seeded or written, or cleared an error. */
  lemma LoadingIsRead(states: seq<Held>, events: seq<Event>, times: seq<int>, k: nat)
    requires Life(states, events, times) && k < |states|
    ensures states[k].loading <==>
            exists j :: 0 <= j < k
              && (StartsLoudly(states[j], events[j]) || (events[j].Write? && events[j].patch.loading))
              && forall i :: j < i < k ==>
                   !Answers(events[i]) && !Overwrites(events[i]) && !(Starts(states[i], events[i]) && states[i].error)
  {
    var raises := (h: Held, e: Event) => StartsLoudly(h, e) || (e.Write? && e.patch.loading);
    var lowers := (h: Held, e: Event) => Answers(e) || Overwrites(e) || (Starts(h, e) && h.error);
    var raised, lowered := Which(states, events, raises), Which(states, events, lowers);
    var flags := seq(|states|, j requires 0 <= j < |states| => states[j].loading);
    forall j | 0 <= j < |events| ensures flags[j + 1] <==> raised[j] || (flags[j] && !lowered[j]) {
      assert states[j + 1] == Next(states[j], events[j], times[j]);
    }
    hide Next;
    LastWordDecides(flags, raised, lowered, k);
  }

  /** An error: since a failure, or a write saying so, nothing answered, was seeded or written, or was requested. */
  lemma ErrorIsRead(states: seq<Held>, events: seq<Event>, times: seq<int>, k: nat)
    requires Life(states, events, times) && k < |states|
    ensures states[k].error <==>
            exists j :: 0 <= j < k
              && (events[j].Reject? || (events[j].Write? && events[j].patch.error))
              && forall i :: j < i < k ==>
                   !Answers(events[i]) && !Overwrites(events[i]) && !Starts(states[i], events[i])
  {
    var raises := (h: Held, e: Event) => e.Reject? || (e.Write? && e.patch.error);
    var lowers := (h: Held, e: Event) => Answers(e) || Overwrites(e) || Starts(h, e);
    var raised, lowered := Which(states, events, raises), Which(states, events, lowers);
    var flags := seq(|states|, j requires 0 <= j < |states| => states[j].error);
    forall j | 0 <= j < |events| ensures flags[j + 1] <==> raised[j] || (flags[j] && !lowered[j]) {
      assert states[j + 1] == Next(states[j], events[j], times[j]);
    }
    hide Next;
    LastWordDecides(flags, raised, lowered, k);
  }

  /** Stale: since an invalidation nothing was requested or seeded. */
  lemma StaleIsRead(states: seq<Held>, events: seq<Event>, times: seq<int>, k: nat)
    requires Life(states, events, times) && k < |states|
    ensures states[k].stale <==>
            exists j :: 0 <= j < k && events[j].Invalidate?
              && forall i :: j < i < k ==> !events[i].Seed? && !Starts(states[i], events[i])
  {
    var raises := (h: Held, e: Event) => e.Invalidate?;
    var lowers := (h: Held, e: Event) => e.Seed? || Starts(h, e);
    var raised, lowered := Which(states, events, raises), Which(states, events, lowers);
    var flags := seq(|states|, j requires 0 <= j < |states| => states[j].stale);
    forall j | 0 <= j < |events| ensures flags[j + 1] <==> raised[j] || (flags[j] && !lowered[j]) {
      assert states[j + 1] == Next(states[j], events[j], times[j]);
    }
    hide Next;
    LastWordDecides(flags, raised, lowered, k);
  }

  /** A request made at `t` is awaited: a fetch started then, and nothing has answered it. */
  lemma {:induction false} PendingIsRead(states: seq<Held>, events: seq<Event>, times: seq<int>, k: nat, t: int)
    requires Life(states, events, times) && k < |states|
    ensures states[k].flight == Pending(t) <==>
            exists j :: 0 <= j < k && Starts(states[j], events[j]) && times[j] == t
              && forall i :: j < i < k ==> !Answers(events[i])
    ensures states[k].flight.Settled? <==>
            exists j :: 0 <= j < k && Answers(events[j]) && forall i :: j < i < k ==> !events[i].Finish?
  {
    if k > 0 {
      PendingIsRead(states, events, times, k - 1, t);
    }
  }

  /** What a response, a seed or a write put in is shown, with where it came from, until something else is. */
  lemma {:induction false} LastDataIsShown(states: seq<Held>, events: seq<Event>, times: seq<int>, j: nat, k: nat)
    requires Life(states, events, times) && j < k < |states|
    requires forall i :: j < i < k ==> !events[i].Resolve? && !Overwrites(events[i])
    ensures match events[j]
            case Resolve(body) =>
              states[j].flight.Pending? && states[k].data == Some(Datum(body, Some(states[j].flight.requestedAt), 0))
            case Seed(body, obtainedAt) => states[k].data == Some(Datum(body, Some(obtainedAt), 0))
            case Write(p) =>
              (match p.content
               case Cleared => states[k].data.None?
               case Restored(previous) => states[k].data == Some(previous)
               case Filled(body) => states[k].data == Some(Datum(body, None, 0))
               case Edited(edit) =>
                 && (states[j].data.None? <==> states[k].data.None?)
                 && (states[k].data.Some? ==> states[k].data.value.body == edit(states[j].data.value.body)))
            case _ => states[k].data == states[j].data
    decreases k
  {
    if j + 1 < k {
      LastDataIsShown(states, events, times, j, k - 1);
    }
  }

  // ---------- Rolling back ----------

  lemma {:induction false} InvalidatedSince(
    states: seq<Held>, events: seq<Event>, times: seq<int>, i: nat, k: nat)
    requires Life(states, events, times) && i <= k < |states|
    ensures (forall j :: i <= j < k ==> !events[j].Invalidate?) ==> states[k].invalidatedAt == states[i].invalidatedAt
    ensures (exists j :: i <= j < k && events[j].Invalidate?) ==>
              states[k].invalidatedAt.Some? && states[k].invalidatedAt.value >= Since(states, times, i)
    decreases k
  {
    if i < k {
      InvalidatedSince(states, events, times, i, k - 1);
      if events[k - 1].Invalidate? {
        TimesAscend(states, events, times, i, k - 1);
      }
    }
  }

  lemma {:induction false} TimesAscend(states: seq<Held>, events: seq<Event>, times: seq<int>, i: nat, k: nat)
    requires Life(states, events, times) && i <= k < |times|
    ensures Since(states, times, i) <= times[k]
    decreases k
  {
    if i < k {
      TimesAscend(states, events, times, i, k - 1);
    }
  }

  /**
   The guard of a rollback. Data captured while shown as current may be put back later exactly when
   nothing was invalidated since, or the entry is stale, awaits a response or keeps an error.
   */
  lemma RollbackIsHarmlessIff(
    states: seq<Held>, events: seq<Event>, times: seq<int>, i: nat, k: nat, p: Patch)
    requires Life(states, events, times) && i <= k < |states|
    requires ShownAsCurrent(states[i]) && Current(states[i])
    requires p.content.Restored? && p.content.previous.source == states[i].data.value.source
    ensures Harmless(states[k], p) <==>
            || states[k].stale || states[k].flight.Pending? || p.error
            || forall j :: i <= j < k ==> !events[j].Invalidate?
  {
    InvalidatedSince(states, events, times, i, k);
    LifeIsTimed(states, events, times, i);
  }

  /**
   A reorder of lists that fails after an event has invalidated them and they were refetched: the
   rollback shows, as current, data requested before the invalidation.
   */
  lemma RollbackCanShowOlderData() returns (states: seq<Held>, events: seq<Event>, times: seq<int>)
    ensures Life(states, events, times) && |events| == 8
    ensures events[..7] == [Fetch(None), Resolve("before"), Finish, Invalidate, Fetch(None), Resolve("after"), Finish]
    ensures ShownAsCurrent(states[3]) && Current(states[3])
    ensures events[7] == Write(Patch(Restored(states[3].data.value), false, false))
    ensures ShownAsCurrent(states[8]) && states[8].data == Some(Datum("before", Some(1), 0)) && !Current(states[8])
    ensures states[8].invalidatedAt == Some(4)
  {
    var rollback := Write(Patch(Restored(Datum("before", Some(1), 0)), false, false));
    events := [Fetch(None), Resolve("before"), Finish, Invalidate, Fetch(None), Resolve("after"), Finish, rollback];
    times := [1, 2, 3, 4, 5, 6, 7, 8];
    var s0 := Fresh(0);
    var s1 := Held(None, true, false, Pending(1), false, 0, None);
    var s2 := Held(Some(Datum("before", Some(1), 0)), false, false, Settled(1), false, 0, None);
    var s3 := s2.(flight := NoFlight);
    var s4 := s3.(stale := true, invalidatedAt := Some(4));
    var s5 := s4.(stale := false, flight := Pending(5));
    var s6 := s5.(data := Some(Datum("after", Some(5), 0)), flight := Settled(5));
    var s7 := s6.(flight := NoFlight);
    var s8 := s7.(data := Some(Datum("before", Some(1), 0)));
    states := [s0, s1, s2, s3, s4, s5, s6, s7, s8];
  }

  predicate Edits(e: Event) {
    e.Write? && e.patch.content.Edited?
  }

  predicate Replaces(e: Event) {
    e.Resolve? || e.Seed? || (e.Write? && !e.patch.content.Edited?)
  }

  function EditsBetween(events: seq<Event>, i: nat, k: nat): nat
    requires i <= k <= |events|
  {
    if i == k then 0 else EditsBetween(events, i, k - 1) + if Edits(events[k - 1]) then 1 else 0
  }

  lemma {:induction false} EditsAreCounted(states: seq<Held>, events: seq<Event>, times: seq<int>, i: nat, k: nat)
    requires Life(states, events, times) && i <= k < |states| && states[i].data.Some?
    requires forall j :: i <= j < k ==> !Replaces(events[j])
    ensures states[k].data.Some? && states[k].data.value.source == states[i].data.value.source
    ensures states[k].data.value.edits == states[i].data.value.edits + EditsBetween(events, i, k)
    decreases k
  {
    if i < k {
      EditsAreCounted(states, events, times, i, k - 1);
    }
  }

  lemma {:induction false} NoEditsIff(events: seq<Event>, i: nat, k: nat)
    requires i <= k <= |events|
    ensures EditsBetween(events, i, k) == 0 <==> forall j :: i <= j < k ==> !Edits(events[j])
  {
    if i < k {
      NoEditsIff(events, i, k - 1);
    }
  }

  lemma {:induction false} EditsFrom(events: seq<Event>, i: nat, k: nat)
    requires i < k <= |events|
    ensures EditsBetween(events, i, k) == EditsBetween(events, i + 1, k) + if Edits(events[i]) then 1 else 0
  {
    if i < k - 1 {
      EditsFrom(events, i, k - 1);
    }
  }

  /**
   The second guard of a rollback. Data captured just before an edit, and put back while still the same
   response is shown, undoes that edit alone exactly when nothing else was edited since.
   */
  lemma RollbackUndoesOnlyItsOwnIff(states: seq<Held>, events: seq<Event>, times: seq<int>, i: nat, k: nat)
    requires Life(states, events, times) && i < k < |events| && states[i].data.Some? && Edits(events[i])
    requires forall j :: i <= j < k ==> !Replaces(events[j])
    requires events[k].Write? && events[k].patch.content == Restored(states[i].data.value)
    ensures states[k].data.Some? && states[k + 1].data == states[i].data
    ensures states[k].data.value.edits == states[k + 1].data.value.edits + 1
            <==> forall j :: i < j < k ==> !Edits(events[j])
  {
    EditsAreCounted(states, events, times, i, k);
    EditsFrom(events, i, k);
    NoEditsIff(events, i + 1, k);
  }

  /** An item checked by another user while a reorder is out: the reorder fails, and its rollback unchecks it. */
  lemma RollbackCanUndoAnEvent(reorder: string -> string, check: string -> string)
    returns (states: seq<Held>, events: seq<Event>, times: seq<int>)
    ensures Life(states, events, times) && |events| == 6
    ensures events[..3] == [Fetch(None), Resolve("before"), Finish]
    ensures events[3] == Write(Patch(Edited(reorder), false, false)) && events[4] == Write(Patch(Edited(check), false, false))
    ensures states[3].data.Some? && events[5] == Write(Patch(Restored(states[3].data.value), false, false))
    ensures forall k :: 0 <= k < |states| ==> OnlyFresh(states[k])
    ensures states[5].data == Some(Datum(check(reorder("before")), Some(1), 2))
    ensures ShownAsCurrent(states[6]) && states[6].data == Some(Datum("before", Some(1), 0))
  {
    var rollback := Write(Patch(Restored(Datum("before", Some(1), 0)), false, false));
    events := [Fetch(None), Resolve("before"), Finish,
               Write(Patch(Edited(reorder), false, false)), Write(Patch(Edited(check), false, false)), rollback];
    times := [1, 2, 3, 4, 5, 6];
    var s0 := Fresh(0);
    var s1 := Held(None, true, false, Pending(1), false, 0, None);
    var s2 := Held(Some(Datum("before", Some(1), 0)), false, false, Settled(1), false, 0, None);
    var s3 := s2.(flight := NoFlight);
    var s4 := s3.(data := Some(Datum(reorder("before"), Some(1), 1)));
    var s5 := s4.(data := Some(Datum(check(reorder("before")), Some(1), 2)));
    states := [s0, s1, s2, s3, s4, s5, s3];
  }

  /** The same rollback finishing after a reset fills the new entry with data from before it. */
  lemma RollbackCanOutliveReset() returns (states: seq<Held>, events: seq<Event>, times: seq<int>)
    ensures Life(states, events, times) && states[0].createdAt == 10
    ensures events == [Write(Patch(Restored(Datum("before", Some(1), 0)), false, false))]
    ensures ShownAsCurrent(states[1]) && !Owns(states[1], 10)
  {
    events := [Write(Patch(Restored(Datum("before", Some(1), 0)), false, false))];
    times := [11];
    states := [Fresh(10), Fresh(10).(data := Some(Datum("before", Some(1), 0)))];
  }

  /** A list added to summaries that were never fetched: they are shown as current, all one of them. */
  lemma FillCanShowUnrequestedData() returns (states: seq<Held>, events: seq<Event>, times: seq<int>)
    ensures Life(states, events, times)
    ensures events == [Write(Patch(Filled("created"), false, false))]
    ensures ShownAsCurrent(states[1]) && !Current(states[1])
  {
    events := [Write(Patch(Filled("created"), false, false))];
    times := [1];
    states := [Fresh(0), Fresh(0).(data := Some(Datum("created", None, 0)))];
  }

  /** A fill is harmless exactly when the entry is stale, awaits a response or keeps an error. */
  lemma FillIsHarmlessIff(h: Held, body: string, loading: bool, error: bool, now: int)
    requires Timed(h, now) && Current(h)
    ensures Current(Patched(h, Patch(Filled(body), loading, error))) <==> h.stale || h.flight.Pending? || error
  {
  }

  /** Edits and removals that clear no error. */
  predicate Ordinary(h: Held, e: Event) {
    e.Write? ==> (e.patch.content.Edited? || e.patch.content.Cleared?) && (h.error ==> e.patch.error)
  }

  /** A life with only such writes needs no check: it shows nothing outdated, and nothing older than itself. */
  lemma OrdinaryLivesAreCurrent(states: seq<Held>, events: seq<Event>, times: seq<int>, k: nat)
    requires Life(states, events, times) && k < |states|
    requires forall j :: 0 <= j < k ==> Ordinary(states[j], events[j]) && !events[j].Seed?
    ensures OnlyFresh(states[k]) && Owns(states[k], states[0].createdAt)
  {
    FreshWhileHarmless(states, events, times, k);
    OwnsWhileNothingOlder(states, events, times, states[0].createdAt, k);
  }

  // ---------- Recency ----------

  /** The entries without one of them; each is in the map once. */
  function Minus<E(==)>(es: seq<E>, e: E): seq<E> {
    if es == [] then [] else if es[0] == e then es[1..] else [es[0]] + Minus(es[1..], e)
  }

  /** An entry in use becomes the warmest, and the others keep their order. */
  function Warmed<E(==)>(es: seq<E>, e: E): seq<E> {
    if e in es then Minus(es, e) + [e] else es
  }

  /** Warmed one after another: those of the first `n` visited that are among `chosen`. */
  function AllWarmed<E(==)>(es: seq<E>, visited: seq<E>, n: nat, chosen: set<E>): seq<E>
    requires n <= |visited|
  {
    if n == 0 then es
    else
      var before := AllWarmed(es, visited, n - 1, chosen);
      if visited[n - 1] in chosen then Warmed(before, visited[n - 1]) else before
  }

  lemma NoneWarmed<E>(es: seq<E>, visited: seq<E>, chosen: set<E>)
    ensures AllWarmed(es, visited, 0, chosen) == es
  {
  }

  lemma WarmNext<E>(es: seq<E>, visited: seq<E>, n: nat, chosen: set<E>)
    requires n < |visited|
    ensures var before := AllWarmed(es, visited, n, chosen);
            AllWarmed(es, visited, n + 1, chosen) ==
            if visited[n] in chosen then Warmed(before, visited[n]) else before
  {
  }

  lemma {:induction false} MinusAt<E>(es: seq<E>, e: E, i: nat)
    requires i < |es| && es[i] == e && e !in es[..i]
    ensures Minus(es, e) == es[..i] + es[i + 1..]
  {
    if i > 0 {
      assert es[0] == es[..i][0];
      assert es[1..][..i - 1] == es[..i][1..];
      MinusAt(es[1..], e, i - 1);
    }
  }

  // ---------- Eviction ----------

  /** Drops up to `excess` of the coldest entries outside `pinned`. */
  function EvictFrom<E(==)>(es: seq<E>, pinned: set<E>, excess: int): seq<E> {
    if es == [] || excess <= 0 then es
    else if es[0] in pinned then [es[0]] + EvictFrom(es[1..], pinned, excess)
    else EvictFrom(es[1..], pinned, excess - 1)
  }

  function Evicted<E(==)>(es: seq<E>, pinned: set<E>, cap: int): seq<E> {
    EvictFrom(es, pinned, |es| - cap)
  }

  function CountPinned<E(==)>(es: seq<E>, pinned: set<E>): nat {
    if es == [] then 0 else (if es[0] in pinned then 1 else 0) + CountPinned(es[1..], pinned)
  }

  function Keep<E(==)>(es: seq<E>, pinned: set<E>): seq<E> {
    if es == [] then [] else (if es[0] in pinned then [es[0]] else []) + Keep(es[1..], pinned)
  }

  lemma Regroup<E>(a: seq<E>, b: seq<E>, c: seq<E>)
    ensures a + (b + c) == (a + b) + c
  {
  }

  /** Eviction takes a cold prefix's unpinned entries and nothing else, no more of them than the excess. */
  lemma {:induction false} EvictionTakesTheColdest<E>(es: seq<E>, pinned: set<E>, excess: nat) returns (i: nat)
    ensures i <= |es|
    ensures EvictFrom(es, pinned, excess) == Keep(es[..i], pinned) + es[i..]
    ensures i - CountPinned(es[..i], pinned) == |es| - |EvictFrom(es, pinned, excess)| <= excess
    ensures i < |es| ==> i - CountPinned(es[..i], pinned) == excess
  {
    if es == [] || excess == 0 {
      i := 0;
      assert es[..0] == [] && es[0..] == es;
      assert Keep<E>([], pinned) + es == es;
    } else {
      var less := if es[0] in pinned then excess else excess - 1;
      var j := EvictionTakesTheColdest(es[1..], pinned, less);
      i := j + 1;
      assert es[..i][1..] == es[1..][..j] && es[i..] == es[1..][j..];
      var first := if es[0] in pinned then [es[0]] else [];
      assert Keep(es[..i], pinned) == first + Keep(es[1..][..j], pinned);
      Regroup(first, Keep(es[1..][..j], pinned), es[i..]);
    }
  }

  lemma {:induction false} KeepIsPinned<E>(es: seq<E>, pinned: set<E>)
    ensures |Keep(es, pinned)| == CountPinned(es, pinned) <= |es|
    ensures forall e :: e in Keep(es, pinned) ==> e in es && e in pinned
    ensures forall e :: e in es && e in pinned ==> e in Keep(es, pinned)
  {
    if es != [] {
      KeepIsPinned(es[1..], pinned);
      assert es == [es[0]] + es[1..];
    }
  }

  /** Pinned entries always stay; the cache ends at its cap, or holds nothing but pinned entries. */
  lemma EvictionMeetsTheCap<E>(es: seq<E>, pinned: set<E>, cap: nat)
    ensures var r := Evicted(es, pinned, cap);
            (forall e :: e in r ==> e in es)
    ensures var r := Evicted(es, pinned, cap);
            (forall e :: e in es && e in pinned ==> e in r)
    ensures var r := Evicted(es, pinned, cap);
            (|r| == cap || (|es| <= cap && r == es) || (|r| > cap && forall e :: e in r ==> e in pinned))
  {
    if |es| > cap {
      var i := EvictionTakesTheColdest(es, pinned, |es| - cap);
      KeepIsPinned(es[..i], pinned);
      var r, cold, warm := Evicted(es, pinned, cap), es[..i], es[i..];
      assert es == cold + warm && r == Keep(cold, pinned) + warm;
      assert forall e :: e in es <==> e in cold || e in warm;
      forall e | e in r ensures e in es {
        assert e in Keep(cold, pinned) || e in warm;
      }
      forall e | e in es && e in pinned ensures e in r {
        assert e in Keep(cold, pinned) || e in warm;
      }
      if i == |es| {
        assert cold == es && warm == [] && r == Keep(es, pinned);
      }
    }
  }

  /** An entry is dropped only after every unpinned one colder than it. */
  lemma EvictionIsColdestFirst<E>(es: seq<E>, pinned: set<E>, cap: nat, i: nat, j: nat)
    requires forall a, b :: 0 <= a < b < |es| ==> es[a] != es[b]
    requires i < j < |es| && es[i] !in pinned && es[j] !in Evicted(es, pinned, cap)
    ensures es[i] !in Evicted(es, pinned, cap)
  {
    assert es[j] in es;
    if |es| > cap {
      var n := EvictionTakesTheColdest(es, pinned, |es| - cap);
      var cold, warm := es[..n], es[n..];
      KeepIsPinned(cold, pinned);
      assert forall k :: n <= k < |es| ==> warm[k - n] == es[k] && es[k] in warm;
      assert i < n;
      assert forall k :: 0 <= k < |warm| ==> warm[k] == es[n + k];
    }
  }

  lemma {:induction false} NewestGoesLast<E>(others: seq<E>, e: E, pinned: set<E>, excess: nat)
    requires e !in pinned && e !in others
    ensures e in EvictFrom(others + [e], pinned, excess) <==> |others| - CountPinned(others, pinned) >= excess
  {
    KeepIsPinned(others, pinned);
    if others == [] {
      assert others + [e] == [e];
      assert [e][1..] == [];
    } else {
      var all := others + [e];
      assert all[1..] == others[1..] + [e];
      if excess > 0 {
        NewestGoesLast(others[1..], e, pinned, if others[0] in pinned then excess else excess - 1);
      }
    }
  }

  /** A new entry survives its own insertion exactly when fewer than `cap` of the others are pinned. */
  lemma NewEntrySurvivesIff<E>(others: seq<E>, e: E, pinned: set<E>, cap: nat)
    requires e !in pinned && e !in others
    ensures e in Evicted(others + [e], pinned, cap) <==> CountPinned(others, pinned) < cap
  {
    KeepIsPinned(others, pinned);
    if |others| + 1 > cap {
      NewestGoesLast(others, e, pinned, |others| + 1 - cap);
    } else {
      assert (others + [e])[|others|] == e;
    }
  }

  /** So does an entry just used: touching it makes it the last unpinned one to go. */
  lemma TouchedEntrySurvivesIff<E>(es: seq<E>, e: E, pinned: set<E>, cap: nat)
    requires e in es && e !in pinned && forall i, j :: 0 <= i < j < |es| ==> es[i] != es[j]
    ensures e in Evicted(Warmed(es, e), pinned, cap) <==> CountPinned(Minus(es, e), pinned) < cap
  {
    var i :| 0 <= i < |es| && es[i] == e;
    MinusAt(es, e, i);
    NewEntrySurvivesIff(Minus(es, e), e, pinned, cap);
  }

  /** A cache full of watched entries evicts the newcomer at once. */
  lemma NewEntryCanBeEvicted()
    ensures "new" !in Evicted(["a", "b"] + ["new"], {"a", "b"}, 2)
  {
    assert ["a", "b"][1..] == ["b"] && ["b"][1..] == [];
    NewEntrySurvivesIff(["a", "b"], "new", {"a", "b"}, 2);
  }
}
