/**
 `createScopedQuery` as objects: entries in an insertion-ordered map, changed in place by fetches,
 responses, invalidations and patches. Every method says which `QueryCache` event each entry met.
 */
module ScopedQuery {
  import opened Wrappers
  import opened QueryCache

  class Entry {
    const key: string
    const createdAt: int
    var data: Option<Datum>
    var loading: bool
    var error: bool
    var flight: Flight
    var stale: bool
    var invalidatedAt: Option<int>
    var listeners: nat

    constructor (key: string, now: int)
      ensures this.key == key && HeldOf() == Fresh(now) && listeners == 0
    {
      this.key, createdAt := key, now;
      data, loading, error, flight, stale, invalidatedAt := None, false, false, NoFlight, false, None;
      listeners := 0;
    }

    function HeldOf(): Held
      reads this
    {
      Held(data, loading, error, flight, stale, createdAt, invalidatedAt)
    }

    predicate IsPinned()
      reads this
    {
      listeners > 0 || !flight.NoFlight?
    }

    method SetState(data: Option<Datum>, loading: bool, error: bool)
      modifies this`data, this`loading, this`error
      ensures this.data == data && this.loading == loading && this.error == error
    {
      this.data, this.loading, this.error := data, loading, error;
    }

    method Apply(p: Patch)
      modifies this`data, this`loading, this`error
      ensures HeldOf() == Patched(old(HeldOf()), p)
    {
      SetState(Written(data, p.content), p.loading, p.error);
    }

    /** The body of `fetch` once its entry is found and touched. */
    method Request(background: Option<bool>, now: int)
      modifies this
      ensures HeldOf() == Fetched(old(HeldOf()), background, now)
      ensures listeners == old(listeners)
    {
      if !flight.NoFlight? {
        return;
      }
      var hasData := data.Some?;
      var quiet := if background.Some? then background.value else hasData;
      if !quiet || !hasData {
        SetState(data, true, false);
      } else if error {
        SetState(data, false, false);
      }
      stale := false;
      flight := Pending(now);
    }

    /** The response handler: it writes to this very entry, in the map or not. */
    method Resolved(body: string)
      requires flight.Pending?
      modifies this
      ensures HeldOf() == Next(old(HeldOf()), Resolve(body), 0)
      ensures listeners == old(listeners)
    {
      SetState(Some(Datum(body, Some(flight.requestedAt), 0)), false, false);
      flight := Settled(flight.requestedAt);
    }

    method Rejected()
      requires flight.Pending?
      modifies this
      ensures HeldOf() == Next(old(HeldOf()), Reject, 0)
      ensures listeners == old(listeners)
    {
      SetState(data, false, true);
      flight := Settled(flight.requestedAt);
    }

    method Finished()
      requires flight.Settled?
      modifies this
      ensures HeldOf() == Next(old(HeldOf()), Finish, 0)
      ensures listeners == old(listeners)
    {
      flight := NoFlight;
    }
  }

  /** Marked stale at `now`; when it is to be refetched, the request is made a moment later. */
  function AfterInvalidation(h: Held, fetches: bool, quiet: bool, now: int): Held {
    var stale := QueryCache.Next(h, Invalidate, now);
    if fetches then Fetched(stale, Some(quiet), now + 2) else stale
  }

  function Quiet(background: Option<bool>, h: Held): bool {
    if background.Some? then background.value else h.data.Some?
  }

  /** Invalidated no earlier than `since`, and refetched if it was to be. */
  predicate Invalidated(was: Held, h: Held, fetches: bool, background: Option<bool>, since: int) {
    && h.invalidatedAt.Some? && since <= h.invalidatedAt.value
    && h == AfterInvalidation(was, fetches, Quiet(background, was), h.invalidatedAt.value)
  }

  /**
   Field by field: marked stale no earlier than `since`, and that is all; or, when it is to be refetched
   and no request is out, awaiting a new one, made since, that shows as loading unless told not to.
   */
  predicate StaleOrRefetched(was: Held, h: Held, fetches: bool, background: Option<bool>, since: int) {
    && h.data == was.data && h.createdAt == was.createdAt
    && h.invalidatedAt.Some? && h.invalidatedAt.value >= since
    && if fetches && was.flight.NoFlight?
       then
         && h.flight.Pending? && h.flight.requestedAt > h.invalidatedAt.value && !h.stale && !h.error
         && (h.loading <==> background == Some(false) || was.data.None? || (was.loading && !was.error))
       else h.flight == was.flight && h.stale && h.loading == was.loading && h.error == was.error
  }

  lemma InvalidatedIs(was: Held, h: Held, fetches: bool, background: Option<bool>, since: int)
    requires Invalidated(was, h, fetches, background, since)
    ensures StaleOrRefetched(was, h, fetches, background, since)
  {
  }

  /** Made since a moment and, when its writes are trusted, showing nothing outdated and nothing older. */
  ghost predicate Sound(h: Held, now: int, since: int, trusted: bool) {
    && Timed(h, now) && h.createdAt >= since
    && (trusted ==> OnlyFresh(h) && Owns(h, since))
  }

  /** A write's check: nothing invalidated or reset since what it puts in was requested. */
  predicate Checked(h: Held, p: Patch, since: int) {
    Harmless(h, p) && BringsNothingOlder(Write(p), since)
  }

  predicate Known(es: seq<Entry>, key: string) {
    exists i :: 0 <= i < |es| && es[i].key == key
  }

  class Query {
    const cap: nat
    var entries: seq<Entry>
    var clock: int
    ghost var resetAt: int
    ghost var trusted: bool // every write since the last reset passed its check

    constructor (cap: nat)
      ensures Valid() && entries == [] && this.cap == cap && trusted
    {
      this.cap := cap;
      entries, clock, resetAt, trusted := [], 0, 0, true;
    }

    /** Distinct keys; every entry made since the last reset and, while writes are trusted, showing nothing older. */
    ghost predicate Valid()
      reads this, entries
    {
      && resetAt <= clock
      && (forall i, j :: 0 <= i < j < |entries| ==> entries[i].key != entries[j].key)
      && (forall e :: e in entries ==> Sound(e.HeldOf(), clock, resetAt, trusted))
    }

    function PinnedOnes(): set<Entry>
      reads this, entries
    {
      set e | e in entries && e.IsPinned()
    }

    /** While writes are trusted, what readers see of any entry is current and from after the last reset. */
    lemma ShownIsCurrent(e: Entry)
      requires Valid() && trusted && e in entries
      ensures OnlyFresh(e.HeldOf()) && Owns(e.HeldOf(), resetAt)
    {
    }

    method Find(key: string) returns (found: Option<Entry>)
      requires Valid()
      ensures found.Some? ==> found.value in entries && found.value.key == key
      ensures found.None? <==> !Known(entries, key)
    {
      for i := 0 to |entries|
        invariant forall k :: 0 <= k < i ==> entries[k].key != key
      {
        if entries[i].key == key {
          return Some(entries[i]);
        }
      }
      return None;
    }

    /** `touch`: moves an entry that is in the map to the warm end. */
    method Touch(entry: Entry)
      requires Valid()
      modifies this`entries
      ensures Valid()
      ensures forall e :: e in entries <==> e in old(entries)
      ensures entries == Warmed(old(entries), entry)
    {
      hide Sound;
      for i := 0 to |entries|
        invariant entries == old(entries)
        invariant entry !in entries[..i]
      {
        if entries[i] == entry {
          MovedLast(entries, entry, i);
          entries := entries[..i] + entries[i + 1..] + [entry];
          return;
        }
        assert entries[..i + 1] == entries[..i] + [entries[i]];
      }
      assert entries[..|entries|] == entries;
    }

    lemma MovedLast(es: seq<Entry>, e: Entry, i: nat)
      requires i < |es| && es[i] == e && e !in es[..i]
      requires forall a, b :: 0 <= a < b < |es| ==> es[a].key != es[b].key
      ensures var after := es[..i] + es[i + 1..] + [e];
              && after == Warmed(es, e)
              && (forall x :: x in after <==> x in es)
              && forall a, b :: 0 <= a < b < |after| ==> after[a].key != after[b].key
    {
      MinusAt(es, e, i);
      var after := es[..i] + es[i + 1..] + [e];
      assert es == es[..i] + [e] + es[i + 1..];
      assert forall a :: 0 <= a < |after| ==>
               after[a] == es[if a < i then a else if a < |es| - 1 then a + 1 else i];
    }

    /** `evictColdEntries`. */
    method EvictColdEntries()
      requires Valid()
      modifies this`entries
      ensures Valid()
      ensures entries == Evicted(old(entries), old(PinnedOnes()), cap)
      ensures forall e :: e in entries ==> e in old(entries)
      ensures forall e :: e in old(entries) && (e.listeners > 0 || !e.flight.NoFlight?) ==> e in entries
      ensures |entries| <= cap || forall e :: e in entries ==> e.listeners > 0 || !e.flight.NoFlight?
      ensures |entries| == |old(entries)| || |entries| >= cap
      ensures forall i, j ::
                (0 <= i < j < |old(entries)| && old(entries)[j] !in entries
                 && old(entries)[i].listeners == 0 && old(entries)[i].flight.NoFlight?) ==> old(entries)[i] !in entries
    {
      hide Sound, Evicted, Entry.HeldOf;
      EvictedAre(entries, PinnedOnes());
      DropColdest();
    }

    /** The loop itself. */
    method DropColdest()
      requires Valid()
      modifies this`entries
      ensures Valid()
      ensures entries == Evicted(old(entries), old(PinnedOnes()), cap)
    {
      hide Sound, EvictFrom;
      ghost var pinned := PinnedOnes();
      var i := 0;
      assert entries[..0] + EvictFrom(entries[0..], pinned, |entries| - cap) == EvictFrom(entries, pinned, |entries| - cap) by {
        assert entries[0..] == entries;
      }
      while i < |entries| && |entries| > cap
        invariant 0 <= i <= |entries|
        invariant Valid() && forall e :: e in entries ==> (e in pinned <==> e.IsPinned())
        invariant entries[..i] + EvictFrom(entries[i..], pinned, |entries| - cap) == Evicted(old(entries), pinned, cap)
        decreases |entries| - i
      {
        EvictStep(entries, pinned, i, |entries| - cap);
        if entries[i].IsPinned() {
          i := i + 1;
        } else {
          entries := entries[..i] + entries[i + 1..];
        }
      }
      EvictDone(entries, pinned, i, |entries| - cap);
    }

    /** Pinned entries stay; others go, coldest first, until the cap is met or only pinned ones are left. */
    lemma EvictedAre(es: seq<Entry>, pinned: set<Entry>)
      requires forall a, b :: 0 <= a < b < |es| ==> es[a].key != es[b].key
      ensures var r := Evicted(es, pinned, cap);
              && (forall e :: e in r ==> e in es)
              && (forall e :: e in es && e in pinned ==> e in r)
              && (|r| <= cap || forall e :: e in r ==> e in pinned)
              && (|r| == |es| || |r| >= cap)
              && forall i, j :: 0 <= i < j < |es| && es[j] !in r && es[i] !in pinned ==> es[i] !in r
    {
      EvictionMeetsTheCap(es, pinned, cap);
      forall i, j | 0 <= i < j < |es| && es[j] !in Evicted(es, pinned, cap) && es[i] !in pinned
        ensures es[i] !in Evicted(es, pinned, cap)
      {
        EvictionIsColdestFirst(es, pinned, cap, i, j);
      }
    }

    lemma EvictStep(es: seq<Entry>, pinned: set<Entry>, i: nat, excess: int)
      requires i < |es| && excess > 0
      ensures es[i] in pinned ==>
                es[..i] + EvictFrom(es[i..], pinned, excess) == es[..i + 1] + EvictFrom(es[i + 1..], pinned, excess)
      ensures es[i] !in pinned ==>
                var rest := es[..i] + es[i + 1..];
                es[..i] + EvictFrom(es[i..], pinned, excess) == rest[..i] + EvictFrom(rest[i..], pinned, excess - 1)
    {
      assert es[i..][0] == es[i] && es[i..][1..] == es[i + 1..];
      var rest := es[..i] + es[i + 1..];
      assert rest[..i] == es[..i] && rest[i..] == es[i + 1..];
      assert es[..i + 1] == es[..i] + [es[i]];
    }

    lemma EvictDone(es: seq<Entry>, pinned: set<Entry>, i: nat, excess: int)
      requires i <= |es| && (i == |es| || excess <= 0)
      ensures es[..i] + EvictFrom(es[i..], pinned, excess) == es
    {
    }

    /** `ensureEntry`: the entry of a key, made and admitted when there is none. */
    method EnsureEntry(key: string) returns (entry: Entry)
      requires Valid()
      modifies this`entries, this`clock
      ensures Valid() && entry.key == key && clock == old(clock) + 1 && Sound(entry.HeldOf(), clock, resetAt, trusted)
      ensures Known(old(entries), key) ==> entry in old(entries) && entries == old(entries)
      ensures !Known(old(entries), key) ==>
                && fresh(entry) && entry.HeldOf() == Fresh(old(clock)) && entry.listeners == 0
                && entries == Evicted(old(entries) + [entry], old(PinnedOnes()), cap)
                && (entry in entries <==> CountPinned(old(entries), old(PinnedOnes())) < cap)
      ensures forall e :: e in old(entries) && (old(e.listeners) > 0 || !old(e.flight).NoFlight?) ==> e in entries
    {
      hide Sound, EvictFrom, CountPinned;
      ghost var pinned := PinnedOnes();
      var existing := Find(key);
      if existing.Some? {
        entry := existing.value;
        StaySound(clock + 1);
        clock := clock + 1;
        return;
      }
      entry := new Entry(key, clock);
      FreshIsSound(clock, resetAt, trusted);
      StaySound(clock + 1);
      NewEntrySurvivesIff(entries, entry, pinned, cap);
      clock := clock + 1;
      entries := entries + [entry];
      assert Valid();
      assert PinnedOnes() == pinned;
      EvictColdEntries();
    }

    lemma StaySound(later: int)
      requires Valid() && clock <= later
      ensures forall e :: e in entries ==> Sound(e.HeldOf(), later, resetAt, trusted)
    {
      forall e | e in entries ensures Sound(e.HeldOf(), later, resetAt, trusted) {
        LaterIsSound(e.HeldOf(), clock, later, resetAt, trusted);
      }
    }

    /** `fetch`: the entry, whether or not it was admitted, joins or starts a request. */
    method Fetch(key: string, background: Option<bool>) returns (entry: Entry)
      requires Valid()
      modifies this`entries, this`clock, set e | e in entries
      ensures Valid() && entry.key == key && clock == old(clock) + 2
      ensures Known(old(entries), key) ==>
                && entry in old(entries) && entry.HeldOf() == Fetched(old(entry.HeldOf()), background, old(clock) + 1)
                && entry.listeners == old(entry.listeners)
                && (forall e :: e in entries <==> e in old(entries))
                && entries == Warmed(old(entries), entry)
      ensures !Known(old(entries), key) ==>
                && fresh(entry) && entry.HeldOf() == Fetched(Fresh(old(clock)), background, old(clock) + 1)
                && entries == Warmed(Evicted(old(entries) + [entry], old(PinnedOnes()), cap), entry)
      ensures forall e :: e in old(entries) && (old(e.listeners) > 0 || !old(e.flight).NoFlight?) ==> e in entries
      ensures forall e :: e in old(entries) && e != entry ==>
                e.HeldOf() == old(e.HeldOf()) && e.listeners == old(e.listeners)
    {
      hide Sound, Warmed, Evicted, CountPinned, Fetched, Fresh, PinnedOnes, Known, Entry.HeldOf;
      entry := EnsureEntry(key);
      Touch(entry);
      FetchKeepsSound(entry.HeldOf(), background, clock, resetAt, trusted);
      StaySound(clock + 1);
      entry.Request(background, clock);
      clock := clock + 1;
    }

    /**
     A response arriving, or failing to, for a request made through this cache: it changes the entry
     it was made for and, whether or not that entry is still in the map, leaves the cache sound.
     */
    method Respond(entry: Entry, body: Option<string>)
      requires Valid() && entry.flight.Pending?
      modifies entry
      ensures Valid() && entries == old(entries)
      ensures entry.HeldOf() ==
              QueryCache.Next(old(entry.HeldOf()), if body.Some? then Resolve(body.value) else Reject, 0)
    {
      hide Sound;
      if entry in entries {
        ResponseKeepsSound(entry.HeldOf(), body, clock, resetAt, trusted);
      }
      if body.Some? {
        entry.Resolved(body.value);
      } else {
        entry.Rejected();
      }
    }

    method Finally(entry: Entry)
      requires Valid() && entry.flight.Settled?
      modifies entry
      ensures Valid() && entries == old(entries)
      ensures entry.HeldOf() == QueryCache.Next(old(entry.HeldOf()), Finish, 0)
    {
      entry.Finished();
    }

    /**
     `seed`: data in hand that no fetch of the entry returned, obtained at a known time. It is trusted
     exactly when nothing was reset since then, nor invalidated since then or, while a response is
     awaited, since its request.
     */
    method Seed(key: string, body: string, obtainedAt: int) returns (entry: Entry)
      requires Valid() && obtainedAt < clock
      modifies this`entries, this`clock, this`trusted, set e | e in entries
      ensures Valid() && entry.key == key && clock == old(clock) + 1
      ensures Known(old(entries), key) ==>
                && entry in old(entries) && entries == old(entries)
                && entry.HeldOf() == QueryCache.Next(old(entry.HeldOf()), QueryCache.Event.Seed(body, obtainedAt), old(clock))
                && (trusted <==> old(trusted) && HarmlessSeed(old(entry.HeldOf()), obtainedAt) && obtainedAt >= resetAt)
      ensures !Known(old(entries), key) ==>
                && fresh(entry) && entries == Evicted(old(entries) + [entry], old(PinnedOnes()), cap)
                && entry.HeldOf() == QueryCache.Next(Fresh(old(clock)), QueryCache.Event.Seed(body, obtainedAt), old(clock))
                && (trusted <==> old(trusted) && obtainedAt >= resetAt)
      ensures forall e :: e in old(entries) && (old(e.listeners) > 0 || !old(e.flight).NoFlight?) ==> e in entries
      ensures forall e :: e in old(entries) && e != entry ==>
                e.HeldOf() == old(e.HeldOf()) && e.listeners == old(e.listeners)
    {
      hide Sound, EvictFrom, CountPinned;
      entry := EnsureEntry(key);
      ghost var was := trusted;
      trusted := trusted && HarmlessSeed(entry.HeldOf(), obtainedAt) && obtainedAt >= resetAt;
      forall e | e in entries ensures Sound(e.HeldOf(), clock, resetAt, trusted) {
        DistrustKeepsSound(e.HeldOf(), clock, resetAt, was, trusted);
      }
      DistrustKeepsSound(entry.HeldOf(), clock, resetAt, was, trusted);
      SeedKeepsSound(entry.HeldOf(), body, obtainedAt, clock, resetAt, trusted);
      entry.stale := false;
      entry.SetState(Some(Datum(body, Some(obtainedAt), 0)), false, false);
    }

    /** `reset`: requests still out write to entries no longer in the map. */
    method Reset()
      requires Valid()
      modifies this`entries, this`clock, this`resetAt, this`trusted
      ensures Valid() && entries == [] && resetAt == clock > old(clock) && trusted
    {
      entries := [];
      trusted := true;
      clock := clock + 1;
      resetAt := clock;
    }

    /** `invalidateWhere`: marks matches stale and refetches those watched (or all, when asked to). */
    method InvalidateWhere(matches: string -> bool, background: Option<bool>, activeOnly: bool)
      requires Valid()
      modifies this`entries, this`clock, set e | e in entries
      ensures Valid()
      ensures forall e :: e in entries <==> e in old(entries)
      ensures entries == AllWarmed(old(entries), old(entries), |old(entries)|,
                                   old(set e | e in entries && matches(e.key) && (!activeOnly || e.listeners > 0)))
      ensures forall e :: e in old(entries) ==> e.listeners == old(e.listeners)
      ensures forall e :: e in old(entries) && matches(e.key) ==>
                StaleOrRefetched(old(e.HeldOf()), e.HeldOf(), !activeOnly || e.listeners > 0, background, old(clock))
      ensures forall e :: e in old(entries) && !matches(e.key) ==> e.HeldOf() == old(e.HeldOf())
    {
      hide StaleOrRefetched, Invalidated, Sound, Warmed, AllWarmed, Entry.HeldOf;
      var snapshot := entries;
      ghost var chosen, visited := Refetched(matches, activeOnly), {};
      ghost var all := set e | e in entries;
      NoneWarmed(snapshot, snapshot, chosen);
      for i := 0 to |snapshot|
        invariant Valid() && clock >= old(clock)
        invariant all == set e | e in entries
        invariant entries == AllWarmed(snapshot, snapshot, i, chosen)
        invariant forall k :: 0 <= k < |snapshot| ==> (snapshot[k] in visited <==> k < i)
        invariant forall e :: e in all ==> e.listeners == old(e.listeners)
        invariant forall e :: e in all && e in visited && matches(e.key) ==>
                    StaleOrRefetched(old(e.HeldOf()), e.HeldOf(), !activeOnly || e.listeners > 0, background, old(clock))
        invariant forall e :: e in all && (e !in visited || !matches(e.key)) ==> e.HeldOf() == old(e.HeldOf())
      {
        var entry := snapshot[i];
        WarmNext(snapshot, snapshot, i, chosen);
        assert entry in all && entry !in visited;
        assert forall e :: e in entries ==> e in all;
        visited := visited + {entry};
        if matches(entry.key) {
          var fetches := !activeOnly || entry.listeners > 0;
          assert entry in chosen <==> fetches;
          InvalidateOne(entry, fetches, background, old(clock));
        }
      }
      assert forall e :: e in entries <==> e in all;
    }

    /** The matches an invalidation refetches. */
    function Refetched(matches: string -> bool, activeOnly: bool): set<Entry>
      reads this, entries
    {
      set e | e in entries && matches(e.key) && (!activeOnly || e.listeners > 0)
    }

    method InvalidateOne(entry: Entry, fetches: bool, background: Option<bool>, ghost since: int)
      requires Valid() && entry in entries && since <= clock
      modifies this`entries, this`clock, set e | e in entries
      ensures Valid() && clock > old(clock)
      ensures forall e :: e in entries <==> e in old(entries)
      ensures entries == if fetches then Warmed(old(entries), entry) else old(entries)
      ensures forall e :: e in old(entries) ==> e.listeners == old(e.listeners)
      ensures forall e :: e in old(entries) && e != entry ==> e.HeldOf() == old(e.HeldOf())
      ensures StaleOrRefetched(old(entry.HeldOf()), entry.HeldOf(), fetches, background, since)
    {
      hide Sound, Fetched, StaleOrRefetched;
      var quiet := Quiet(background, entry.HeldOf());
      InvalidateKeepsSound(entry.HeldOf(), clock, resetAt, trusted);
      StaySound(clock + 1);
      entry.stale := true;
      entry.invalidatedAt := Some(clock);
      clock := clock + 1;
      if fetches {
        assert Known(entries, entry.key);
        var e := Fetch(entry.key, Some(quiet));
        assert e == entry;
        FetchKeepsInvalidatedAt(QueryCache.Next(old(entry.HeldOf()), Invalidate, old(clock)), Some(quiet), old(clock) + 2);
      }
      InvalidatedIs(old(entry.HeldOf()), entry.HeldOf(), fetches, background, since);
    }

    /** Whatever the updater puts back was requested before now. */
    ghost predicate AllCaptured(matches: string -> bool, updater: Held -> Patch)
      reads this, entries
    {
      forall e :: e in entries && matches(e.key) ==> Captured(updater(e.HeldOf()), clock)
    }

    ghost predicate AllChecked(matches: string -> bool, updater: Held -> Patch)
      reads this, entries
    {
      forall e :: e in entries && matches(e.key) ==> Checked(e.HeldOf(), updater(e.HeldOf()), resetAt)
    }

    ghost predicate AllFresh()
      reads this, entries
    {
      forall e :: e in entries ==> OnlyFresh(e.HeldOf()) && Owns(e.HeldOf(), resetAt)
    }

    /**
     `updateWhere`, for any updater: edits, removals, fills and rollbacks. The entries go on showing
     nothing outdated, and nothing from before the last reset, exactly when every write passes its check.
     */
    method UpdateWhere(matches: string -> bool, updater: Held -> Patch)
      requires Valid() && AllCaptured(matches, updater)
      modifies this`trusted, entries
      ensures Valid() && entries == old(entries)
      ensures forall e :: e in entries ==>
                && e.listeners == old(e.listeners)
                && e.HeldOf() == if matches(e.key) then Patched(old(e.HeldOf()), updater(old(e.HeldOf())))
                                 else old(e.HeldOf())
      ensures trusted <==> old(trusted) && old(AllChecked(matches, updater))
      ensures old(trusted) ==> (AllFresh() <==> old(AllChecked(matches, updater)))
    {
      hide Sound, Patched, Captured, Checked;
      ghost var was, good := trusted, AllChecked(matches, updater);
      trusted := was && good;
      forall e | e in entries ensures Sound(e.HeldOf(), clock, resetAt, trusted) {
        DistrustKeepsSound(e.HeldOf(), clock, resetAt, was, trusted);
      }
      PatchAll(matches, updater);
      if was {
        forall e | e in entries
          ensures OnlyFresh(e.HeldOf()) && Owns(e.HeldOf(), resetAt) <==>
                  (matches(e.key) ==> Checked(old(e.HeldOf()), updater(old(e.HeldOf())), resetAt))
        {
          SoundIsFresh(old(e.HeldOf()), clock, resetAt);
          if matches(e.key) {
            WriteIsTrustedIff(old(e.HeldOf()), updater(old(e.HeldOf())), clock, resetAt);
          }
        }
      }
    }

    method PatchAll(matches: string -> bool, updater: Held -> Patch)
      requires Valid() && AllCaptured(matches, updater) && (trusted ==> AllChecked(matches, updater))
      modifies entries
      ensures Valid()
      ensures forall e :: e in entries ==>
                && e.listeners == old(e.listeners)
                && e.HeldOf() == if matches(e.key) then Patched(old(e.HeldOf()), updater(old(e.HeldOf())))
                                 else old(e.HeldOf())
    {
      hide Sound, Patched, Captured, Checked;
      ghost var visited: set<Entry> := {};
      for i := 0 to |entries|
        invariant Valid()
        invariant forall e :: e in entries ==> e.listeners == old(e.listeners)
        invariant forall k :: 0 <= k < |entries| ==> (entries[k] in visited <==> k < i)
        invariant forall e :: e in entries ==>
                    e.HeldOf() == if e in visited && matches(e.key)
                                  then Patched(old(e.HeldOf()), updater(old(e.HeldOf())))
                                  else old(e.HeldOf())
      {
        var entry := entries[i];
        visited := visited + {entry};
        if matches(entry.key) {
          var p := updater(entry.HeldOf());
          WriteKeepsSound(entry.HeldOf(), p, clock, resetAt, trusted);
          entry.Apply(p);
        }
      }
    }
  }

  lemma LaterIsSound(h: Held, now: int, later: int, since: int, trusted: bool)
    requires Sound(h, now, since, trusted) && now <= later
    ensures Sound(h, later, since, trusted)
  {
  }

  lemma ResponseKeepsSound(h: Held, body: Option<string>, now: int, since: int, trusted: bool)
    requires Sound(h, now, since, trusted) && h.flight.Pending?
    ensures Sound(QueryCache.Next(h, if body.Some? then Resolve(body.value) else Reject, 0), now, since, trusted)
  {
  }

  lemma SeedKeepsSound(h: Held, body: string, obtainedAt: int, now: int, since: int, trusted: bool)
    requires Sound(h, now, since, trusted) && obtainedAt < now
    requires trusted ==> HarmlessSeed(h, obtainedAt) && obtainedAt >= since
    ensures Sound(QueryCache.Next(h, Seed(body, obtainedAt), now), now, since, trusted)
  {
  }

  lemma FreshIsSound(now: int, since: int, trusted: bool)
    requires since <= now
    ensures Sound(Fresh(now), now + 1, since, trusted)
  {
  }

  lemma FetchKeepsSound(h: Held, background: Option<bool>, now: int, since: int, trusted: bool)
    requires Sound(h, now, since, trusted)
    ensures Sound(Fetched(h, background, now), now + 1, since, trusted)
  {
  }

  lemma FetchKeepsInvalidatedAt(h: Held, background: Option<bool>, now: int)
    ensures Fetched(h, background, now).invalidatedAt == h.invalidatedAt
  {
  }

  lemma InvalidateKeepsSound(h: Held, now: int, since: int, trusted: bool)
    requires Sound(h, now, since, trusted)
    ensures Sound(QueryCache.Next(h, Invalidate, now), now + 1, since, trusted)
  {
  }

  lemma WriteKeepsSound(h: Held, p: Patch, now: int, since: int, trusted: bool)
    requires Sound(h, now, since, trusted) && Captured(p, now)
    requires trusted ==> Checked(h, p, since)
    ensures Sound(Patched(h, p), now, since, trusted)
  {
    if trusted {
      EventKeepsFreshIff(h, Write(p), now);
      EventOwnsIff(h, Write(p), now, since);
    }
  }

  /** On a sound entry a write is current and owned exactly when it passes its check. */
  lemma WriteIsTrustedIff(h: Held, p: Patch, now: int, since: int)
    requires Sound(h, now, since, true) && Captured(p, now)
    ensures OnlyFresh(Patched(h, p)) && Owns(Patched(h, p), since) <==> Checked(h, p, since)
  {
    EventKeepsFreshIff(h, Write(p), now);
    EventOwnsIff(h, Write(p), now, since);
  }

  lemma SoundIsFresh(h: Held, now: int, since: int)
    requires Sound(h, now, since, true)
    ensures OnlyFresh(h) && Owns(h, since)
  {
  }

  lemma DistrustKeepsSound(h: Held, now: int, since: int, trusted: bool, still: bool)
    requires Sound(h, now, since, trusted) && (still ==> trusted)
    ensures Sound(h, now, since, still)
  {
  }
}
