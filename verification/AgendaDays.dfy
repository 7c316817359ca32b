/**
 A day of the agenda. The server accepts mutations in one order; their responses, and the answers to
 reminders requests, reach the client in whatever order they come. When does the cache still show what
 a refetch would return?
 */
module AgendaDays {
  import opened Wrappers
  import opened Agenda
  import opened AgendaDue
  import opened AgendaWords

  /** The same reminders are due exactly when the same are called for under every entry id. */
  lemma SameDueIff(w: World, w': World, d: string, today: int)
    requires WellFormed(w) && WellFormed(w')
    ensures SameDue(w, w', d, today) <==> SameWords(Refetched(w, d, today), Refetched(w', d, today))
    ensures SameDue(w, w', d, today) <==> multiset(Refetched(w, d, today)) == multiset(Refetched(w', d, today))
  {
    hide Due, WellFormed, Refetched, Shown, SameWords;
    RefetchedAreDistinct(w, d, today);
    RefetchedAreDistinct(w', d, today);
    SameWordsIff(Refetched(w, d, today), Refetched(w', d, today));
    forall r
      ensures r in Refetched(w, d, today) <==> Due(w, d, today, r)
      ensures r in Refetched(w', d, today) <==> Due(w', d, today, r)
      ensures r in Refetched(w, d, today) <==> r in multiset(Refetched(w, d, today))
      ensures r in Refetched(w', d, today) <==> r in multiset(Refetched(w', d, today))
    {
      RefetchedAre(w, d, today, r);
      RefetchedAre(w', d, today, r);
    }
    if SameDue(w, w', d, today) {
      SameMembersAreSame(Refetched(w, d, today), Refetched(w', d, today));
    }
  }

  // ---------- Days ----------

  /**
   The lists; what the client caches; the answers to reminders requests still on their way, and the
   responses to its own mutations still on theirs, in the order the mutations were accepted.
   */
  datatype Moment = Moment(
    world: World, cache: Cache, details: Details, answers: map<string, seq<Reminder>>, responses: seq<Mutation>)

  datatype Happening =
    | Changed(m: Mutation, at: nat, own: bool)           // the server accepts a mutation, the client's own or another's
    | Handled(n: nat)                                    // the client handles one of the responses, whichever comes
    | Answered(dashboard: string)                        // the server answers a request for a dashboard's reminders
    | Arrived(dashboard: string)                         // the answer reaches the cache
    | Detailed(listId: string, detail: Option<Detail>)   // a list's cached detail is loaded, reloaded or dropped

  ghost predicate Step(s: Moment, h: Happening, today: int, s': Moment) {
    match h
    case Changed(m, i, own) =>
      && Accepted(s.world, m, i)
      && s' == s.(world := Mutated(s.world, m), responses := s.responses + if own then [m] else [])
    case Handled(n) =>
      && n < |s.responses|
      && s' == s.(cache := Patched(s.cache, s.responses[n], s.details, today),
                  details := DetailsAfter(s.details, s.responses[n]),
                  responses := Others(s.responses, n))
    case Answered(d) =>
      d !in s.answers && s' == s.(answers := s.answers[d := Refetched(s.world, d, today)])
    case Arrived(d) =>
      d in s.answers && s' == s.(cache := s.cache[d := s.answers[d]], answers := s.answers - {d})
    case Detailed(listId, detail) => s' == s.(details := DetailSet(s.details, listId, detail))
  }

  function Others(responses: seq<Mutation>, n: nat): seq<Mutation>
    requires n < |responses|
  {
    responses[..n] + responses[n + 1..]
  }

  function DetailSet(details: Details, listId: string, detail: Option<Detail>): Details {
    if detail.Some? then details[listId := detail.value] else details - {listId}
  }

  /** One day, from any cache that shows no reminder twice. */
  ghost predicate Day(states: seq<Moment>, hs: seq<Happening>, today: int) {
    && |states| == |hs| + 1
    && WellFormed(states[0].world) && AllDistinct(states[0].cache) && states[0].answers == map[]
    && forall k :: 0 <= k < |hs| ==> Step(states[k], hs[k], today, states[k + 1])
  }

  /** The reminders of every cached dashboard are, as a multiset, a refetch's. */
  ghost predicate AreRefetched(s: Moment, today: int) {
    forall d :: d in s.cache ==> multiset(s.cache[d]) == multiset(Refetched(s.world, d, today))
  }

  /** The j-th happening answers the request that arrives, if any does, at the k-th. */
  ghost predicate IsAnswer(hs: seq<Happening>, j: int, k: int, d: string) {
    && 0 <= j < k <= |hs| && hs[j] == Answered(d)
    && forall i :: j < i < k ==> hs[i] != Answered(d)
  }

  lemma {:induction false} WorldsStayWellFormed(states: seq<Moment>, hs: seq<Happening>, today: int, k: nat)
    requires Day(states, hs, today) && k < |states|
    ensures WellFormed(states[k].world)
  {
    if k > 0 {
      WorldsStayWellFormed(states, hs, today, k - 1);
      assert Step(states[k - 1], hs[k - 1], today, states[k]);
      if hs[k - 1].Changed? {
        AcceptanceSays(states[k - 1].world, hs[k - 1].m, hs[k - 1].at, "", "", today);
      }
    }
  }

  /** An answer on its way is what was due when it was given. */
  lemma {:induction false} AnswersAreRemembered(
    states: seq<Moment>, hs: seq<Happening>, today: int, k: nat, d: string) returns (j: nat)
    requires Day(states, hs, today) && k < |states| && d in states[k].answers
    ensures IsAnswer(hs, j, k, d) && states[k].answers[d] == Refetched(states[j].world, d, today)
  {
    assert k > 0;
    assert Step(states[k - 1], hs[k - 1], today, states[k]);
    if hs[k - 1] == Answered(d) {
      j := k - 1;
    } else {
      j := AnswersAreRemembered(states, hs, today, k - 1, d);
    }
  }

  lemma {:induction false} CachesStayDistinct(states: seq<Moment>, hs: seq<Happening>, today: int, k: nat)
    requires Day(states, hs, today) && k < |states|
    ensures AllDistinct(states[k].cache)
  {
    hide DistinctIds, WellFormed, Patched, Refetched;
    if k > 0 {
      var s, h := states[k - 1], hs[k - 1];
      CachesStayDistinct(states, hs, today, k - 1);
      assert Step(s, h, today, states[k]);
      match h
      case Handled(n) =>
        forall d | d in states[k].cache ensures DistinctIds(states[k].cache[d]) {
          PatchedKeys(s.cache, s.responses[n], s.details, today);
          PatchSays(s.cache, s.responses[n], s.details, d, "", today);
        }
      case Arrived(d) =>
        var j := AnswersAreRemembered(states, hs, today, k - 1, d);
        WorldsStayWellFormed(states, hs, today, j);
        RefetchedAreDistinct(states[j].world, d, today);
      case _ =>
    }
  }

  lemma PatchedKeys(c: Cache, m: Mutation, details: Details, today: int)
    ensures Patched(c, m, details, today).Keys == c.Keys
  {
  }

  // ---------- The last word ----------

  /** What the accepted mutations, in the order of their acceptance, have made of one reminder. */
  ghost function ServerSays(states: seq<Moment>, hs: seq<Happening>, k: nat, d: string, e: string, today: int): Option<Reminder>
    requires |states| == |hs| + 1 && k <= |hs|
  {
    if k == 0 then Called(states[0].world, d, e, today)
    else
      var before := ServerSays(states, hs, k - 1, d, e, today);
      if hs[k - 1].Changed? then Said(before, hs[k - 1].m, DetailsOf(states[k - 1].world), d, e, today) else before
  }

  /** When the answer that is on its way at the k-th happening was given. */
  function GivenAt(hs: seq<Happening>, k: nat, d: string): (j: nat)
    requires k <= |hs|
    ensures j <= k
  {
    if k == 0 then 0 else if hs[k - 1] == Answered(d) then k - 1 else GivenAt(hs, k - 1, d)
  }

  /** What the client has written of it, in its own order: arrivals overwrite it, handled responses patch it. */
  ghost function ClientSays(states: seq<Moment>, hs: seq<Happening>, k: nat, d: string, e: string, today: int): Option<Reminder>
    requires Day(states, hs, today) && k <= |hs|
  {
    if k == 0 then
      if d in states[0].cache then Shown(states[0].cache[d], e) else None
    else
      var s, before := states[k - 1], ClientSays(states, hs, k - 1, d, e, today);
      assert Step(s, hs[k - 1], today, states[k]);
      match hs[k - 1]
      case Handled(n) => Said(before, s.responses[n], s.details, d, e, today)
      case Arrived(d') => if d' == d then ServerSays(states, hs, GivenAt(hs, k - 1, d), d, e, today) else before
      case _ => before
  }

  lemma {:induction false} ServerHasItsSay(states: seq<Moment>, hs: seq<Happening>, k: nat, d: string, e: string, today: int)
    requires Day(states, hs, today) && k <= |hs|
    ensures ServerSays(states, hs, k, d, e, today) == Called(states[k].world, d, e, today)
  {
    hide Called, Said, WellFormed;
    if k > 0 {
      ServerHasItsSay(states, hs, k - 1, d, e, today);
      WorldsStayWellFormed(states, hs, today, k - 1);
      assert Step(states[k - 1], hs[k - 1], today, states[k]);
      if hs[k - 1].Changed? {
        AcceptanceSays(states[k - 1].world, hs[k - 1].m, hs[k - 1].at, d, e, today);
      }
    }
  }

  lemma {:induction false} GivenAtIsAnswer(hs: seq<Happening>, j: int, k: nat, d: string)
    requires IsAnswer(hs, j, k, d)
    ensures GivenAt(hs, k, d) == j
  {
    if j < k - 1 {
      GivenAtIsAnswer(hs, j, k - 1, d);
    }
  }

  lemma {:induction false} ClientHasItsSay(states: seq<Moment>, hs: seq<Happening>, k: nat, d: string, e: string, today: int)
    requires Day(states, hs, today) && k <= |hs| && d in states[k].cache
    ensures ClientSays(states, hs, k, d, e, today) == Shown(states[k].cache[d], e)
  {
    hide Shown, Said, Patched, Refetched, WellFormed, ServerSays, DistinctIds;
    if k > 0 {
      var s, h := states[k - 1], hs[k - 1];
      assert Step(s, h, today, states[k]);
      if h == Arrived(d) {
        var j := AnswersAreRemembered(states, hs, today, k - 1, d);
        GivenAtIsAnswer(hs, j, k - 1, d);
        ServerHasItsSay(states, hs, j, d, e, today);
      } else {
        if h.Handled? {
          PatchedKeys(s.cache, s.responses[h.n], s.details, today);
        }
        assert d in s.cache;
        ClientHasItsSay(states, hs, k - 1, d, e, today);
        if h.Handled? {
          CachesStayDistinct(states, hs, today, k - 1);
          PatchSays(s.cache, s.responses[h.n], s.details, d, e, today);
        }
      }
    }
  }

  /**
   At any moment of any day, what is cached is what a refetch would return exactly when, for each
   reminder, the last word the client has written of it is the last word of the accepted mutations.
   */
  lemma PatchedIsRefetched(states: seq<Moment>, hs: seq<Happening>, today: int, k: nat)
    requires Day(states, hs, today) && k < |states|
    ensures AreRefetched(states[k], today) <==>
            forall d, e :: d in states[k].cache ==>
              ClientSays(states, hs, k, d, e, today) == ServerSays(states, hs, k, d, e, today)
  {
    hide Shown, Refetched, WellFormed, ServerSays, ClientSays, DistinctIds, Step;
    var s := states[k];
    CachesStayDistinct(states, hs, today, k);
    WorldsStayWellFormed(states, hs, today, k);
    forall d, e | d in s.cache
      ensures ClientSays(states, hs, k, d, e, today) == Shown(s.cache[d], e)
      ensures ServerSays(states, hs, k, d, e, today) == Shown(Refetched(s.world, d, today), e)
    {
      ClientHasItsSay(states, hs, k, d, e, today);
      ServerHasItsSay(states, hs, k, d, e, today);
    }
    forall d | d in s.cache
      ensures multiset(s.cache[d]) == multiset(Refetched(s.world, d, today)) <==>
              SameWords(s.cache[d], Refetched(s.world, d, today))
    {
      RefetchedAreDistinct(s.world, d, today);
      SameWordsIff(s.cache[d], Refetched(s.world, d, today));
    }
    if AreRefetched(s, today) {
      forall d, e | d in s.cache ensures ClientSays(states, hs, k, d, e, today) == ServerSays(states, hs, k, d, e, today) {
        assert SameWords(s.cache[d], Refetched(s.world, d, today));
      }
    } else {
      var d :| d in s.cache && !SameWords(s.cache[d], Refetched(s.world, d, today));
      var e :| Shown(s.cache[d], e) != Shown(Refetched(s.world, d, today), e);
      assert ClientSays(states, hs, k, d, e, today) != ServerSays(states, hs, k, d, e, today);
    }
  }

  /** A mutation of the reminder's item, or of its list. */
  predicate Concerns(m: Mutation, was: Option<Reminder>, e: string) {
    if ItemOf(m).Some? then EntryId(ItemOf(m).value) == e else was.Some? && was.value.listId == m.listId
  }

  /** The mutation is of this item, seen by one who knows the list to be on this dashboard. */
  predicate Decides(m: Mutation, details: Details, d: string, e: string) {
    && ItemOf(m).Some? && EntryId(ItemOf(m).value) == e
    && (m.DeleteItem? || (m.listId in details && details[m.listId].dashboard == d))
  }

  /** The last patch of an item that is handled, with no answer arriving later, has the client's last word. */
  lemma {:induction false} LastPatchDecides(
    states: seq<Moment>, hs: seq<Happening>, today: int, i: nat, k: nat, d: string, e: string)
    requires Day(states, hs, today) && i < k <= |hs| && hs[i].Handled? && hs[i].n < |states[i].responses|
    requires Decides(states[i].responses[hs[i].n], states[i].details, d, e)
    requires forall j :: i < j < k ==>
               && hs[j] != Arrived(d)
               && (hs[j].Handled? && hs[j].n < |states[j].responses| ==>
                     !Concerns(states[j].responses[hs[j].n], ClientSays(states, hs, j, d, e, today), e))
    ensures ClientSays(states, hs, k, d, e, today) == Left(states[i].responses[hs[i].n], states[i].details, today)
    decreases k
  {
    hide EntryId, ServerSays, ToReminder;
    assert Step(states[k - 1], hs[k - 1], today, states[k]);
    if i < k - 1 {
      LastPatchDecides(states, hs, today, i, k - 1, d, e);
    }
  }

  /** The last accepted mutation of an item has the server's last word. */
  lemma {:induction false} LastAcceptanceDecides(
    states: seq<Moment>, hs: seq<Happening>, today: int, i: nat, k: nat, d: string, e: string)
    requires Day(states, hs, today) && i < k <= |hs| && hs[i].Changed?
    requires Decides(hs[i].m, DetailsOf(states[i].world), d, e)
    requires forall j :: i < j < k && hs[j].Changed? ==> !Concerns(hs[j].m, ServerSays(states, hs, j, d, e, today), e)
    ensures ServerSays(states, hs, k, d, e, today) == Left(hs[i].m, DetailsOf(states[i].world), today)
    decreases k
  {
    hide EntryId, ToReminder;
    if i < k - 1 {
      LastAcceptanceDecides(states, hs, today, i, k - 1, d, e);
    }
  }

  /**
   So an item whose last accepted mutation is at `a` and whose last handled patch is at `h` is shown as
   the lists call for it exactly when the two leave the same reminder.
   */
  lemma ItemIsRightIff(
    states: seq<Moment>, hs: seq<Happening>, today: int, a: nat, h: nat, k: nat, d: string, e: string)
    requires Day(states, hs, today) && a < k <= |hs| && h < k && d in states[k].cache
    requires hs[a].Changed? && Decides(hs[a].m, DetailsOf(states[a].world), d, e)
    requires forall j :: a < j < k && hs[j].Changed? ==> !Concerns(hs[j].m, ServerSays(states, hs, j, d, e, today), e)
    requires hs[h].Handled? && hs[h].n < |states[h].responses|
    requires Decides(states[h].responses[hs[h].n], states[h].details, d, e)
    requires forall j :: h < j < k ==>
               && hs[j] != Arrived(d)
               && (hs[j].Handled? && hs[j].n < |states[j].responses| ==>
                     !Concerns(states[j].responses[hs[j].n], ClientSays(states, hs, j, d, e, today), e))
    ensures Shown(states[k].cache[d], e) == Called(states[k].world, d, e, today) <==>
            Left(states[h].responses[hs[h].n], states[h].details, today)
            == Left(hs[a].m, DetailsOf(states[a].world), today)
  {
    hide EntryId, Shown, Called, Left, Concerns, Decides, Step;
    LastPatchDecides(states, hs, today, h, k, d, e);
    LastAcceptanceDecides(states, hs, today, a, k, d, e);
    ClientHasItsSay(states, hs, k, d, e, today);
    ServerHasItsSay(states, hs, k, d, e, today);
  }

  // ---------- Coming out right ----------

  /** One reminder after all the responses still on their way, handled as the mutations were accepted. */
  function SaidAll(was: Option<Reminder>, responses: seq<Mutation>, details: Details, d: string, e: string, today: int): Option<Reminder>
    decreases responses
  {
    if responses == [] then was
    else
      var m := responses[0];
      SaidAll(Said(was, m, details, d, e, today), responses[1..], DetailsAfter(details, m), d, e, today)
  }

  function LaterDetails(details: Details, responses: seq<Mutation>): Details {
    if responses == [] then details else LaterDetails(DetailsAfter(details, responses[0]), responses[1..])
  }

  /** Handled in that order, the responses on their way will leave what a refetch would return. */
  ghost predicate Settled(s: Moment, today: int) {
    forall d, e :: d in s.cache ==> ComesOutRight(s, s.cache[d], d, e, today)
  }

  ghost predicate ComesOutRight(s: Moment, rs: seq<Reminder>, d: string, e: string, today: int) {
    SaidAll(Shown(rs, e), s.responses, s.details, d, e, today) == Called(s.world, d, e, today)
  }

  /** When nothing is on its way, that is to be right already. */
  lemma SettledIsRefetched(s: Moment, today: int)
    requires WellFormed(s.world) && AllDistinct(s.cache) && s.responses == []
    ensures Settled(s, today) <==> AreRefetched(s, today)
  {
    hide Shown, Refetched, WellFormed, DistinctIds;
    forall d | d in s.cache
      ensures multiset(s.cache[d]) == multiset(Refetched(s.world, d, today)) <==>
              forall e :: ComesOutRight(s, s.cache[d], d, e, today)
    {
      RefetchedAreDistinct(s.world, d, today);
      SameWordsIff(s.cache[d], Refetched(s.world, d, today));
      if SameWords(s.cache[d], Refetched(s.world, d, today)) {
        assert forall e :: ComesOutRight(s, s.cache[d], d, e, today);
      } else {
        var e :| Shown(s.cache[d], e) != Shown(Refetched(s.world, d, today), e);
        assert !ComesOutRight(s, s.cache[d], d, e, today);
      }
    }
  }

  /** The client's details will make of a mutation, when its turn comes, what the list's own make of it. */
  ghost predicate ReadsRight(s: Moment, m: Mutation, d: string, e: string, today: int) {
    var was := Called(s.world, d, e, today);
    Said(was, m, LaterDetails(s.details, s.responses), d, e, today) == Said(was, m, DetailsOf(s.world), d, e, today)
  }

  /** Handling the n-th response now comes to the same as waiting for those before it. */
  ghost predicate MayOvertake(s: Moment, n: nat, d: string, e: string, today: int)
    requires n < |s.responses| && d in s.cache
  {
    var was := Shown(s.cache[d], e);
    SaidAll(was, [s.responses[n]] + Others(s.responses, n), s.details, d, e, today)
    == SaidAll(was, s.responses, s.details, d, e, today)
  }

  /** A new detail makes no difference to what is on its way. */
  ghost predicate ReadsTheSame(s: Moment, details: Details, d: string, e: string, today: int)
    requires d in s.cache
  {
    var was := Shown(s.cache[d], e);
    SaidAll(was, s.responses, details, d, e, today) == SaidAll(was, s.responses, s.details, d, e, today)
  }

  ghost predicate Harmless(s: Moment, h: Happening, today: int) {
    match h
    case Changed(m, i, own) =>
      forall d, e :: d in s.cache ==>
        if own then ReadsRight(s, m, d, e, today)
        else Called(Mutated(s.world, m), d, e, today) == Called(s.world, d, e, today)
    case Handled(n) => n < |s.responses| ==> forall d, e :: d in s.cache ==> MayOvertake(s, n, d, e, today)
    case Answered(_) => true
    case Arrived(d) => d in s.answers ==> forall e :: ComesOutRight(s, s.answers[d], d, e, today)
    case Detailed(listId, detail) =>
      forall d, e :: d in s.cache ==> ReadsTheSame(s, DetailSet(s.details, listId, detail), d, e, today)
  }

  lemma {:induction false} SaidLast(
    was: Option<Reminder>, responses: seq<Mutation>, m: Mutation, details: Details, d: string, e: string, today: int)
    ensures SaidAll(was, responses + [m], details, d, e, today) ==
            Said(SaidAll(was, responses, details, d, e, today), m, LaterDetails(details, responses), d, e, today)
    decreases responses
  {
    hide Said, DetailsAfter;
    if responses == [] {
      assert [m][1..] == [];
      assert SaidAll(Said(was, m, details, d, e, today), [m][1..], DetailsAfter(details, m), d, e, today) == Said(was, m, details, d, e, today);
      assert responses + [m] == [m];
    } else {
      assert (responses + [m])[1..] == responses[1..] + [m];
      SaidLast(Said(was, responses[0], details, d, e, today), responses[1..], m, DetailsAfter(details, responses[0]), d, e, today);
    }
  }

  lemma SaidFirst(
    was: Option<Reminder>, m: Mutation, others: seq<Mutation>, details: Details, d: string, e: string, today: int)
    ensures SaidAll(was, [m] + others, details, d, e, today) ==
            SaidAll(Said(was, m, details, d, e, today), others, DetailsAfter(details, m), d, e, today)
  {
    assert ([m] + others)[1..] == others;
  }

  lemma ArrivalSettlesIff(s: Moment, d: string, today: int, s': Moment)
    requires Settled(s, today) && Step(s, Arrived(d), today, s')
    ensures Settled(s', today) <==> forall e :: ComesOutRight(s, s.answers[d], d, e, today)
  {
    hide Shown, Called, SaidAll;
    assert s'.cache == s.cache[d := s.answers[d]];
    if forall e :: ComesOutRight(s, s.answers[d], d, e, today) {
      forall d', e | d' in s'.cache ensures ComesOutRight(s', s'.cache[d'], d', e, today) {
        if d' != d {
          assert ComesOutRight(s, s.cache[d'], d', e, today);
        } else {
          assert ComesOutRight(s, s.answers[d], d, e, today);
        }
      }
    }
    if Settled(s', today) {
      forall e ensures ComesOutRight(s, s.answers[d], d, e, today) {
        assert d in s'.cache && ComesOutRight(s', s'.cache[d], d, e, today);
      }
    }
  }

  /** A happening keeps a settled cache settled exactly when it is harmless. */
  lemma StepSettlesIff(s: Moment, h: Happening, today: int, s': Moment)
    requires WellFormed(s.world) && AllDistinct(s.cache) && Settled(s, today) && Step(s, h, today, s')
    ensures Settled(s', today) <==> Harmless(s, h, today)
  {
    hide WellFormed, DistinctIds, Shown, Called, Said, SaidAll, Patched, Mutated, DetailsAfter, DetailsOf, Accepted;
    match h
    case Changed(m, i, own) =>
      forall d, e | d in s.cache
        ensures ComesOutRight(s', s'.cache[d], d, e, today) <==>
                if own then ReadsRight(s, m, d, e, today)
                else Called(Mutated(s.world, m), d, e, today) == Called(s.world, d, e, today)
      {
        assert ComesOutRight(s, s.cache[d], d, e, today);
        AcceptanceSays(s.world, m, i, d, e, today);
        SaidLast(Shown(s.cache[d], e), s.responses, m, s.details, d, e, today);
        assert s.responses + [] == s.responses;
      }
    case Handled(n) =>
      PatchedKeys(s.cache, s.responses[n], s.details, today);
      forall d, e | d in s.cache
        ensures ComesOutRight(s', s'.cache[d], d, e, today) <==> MayOvertake(s, n, d, e, today)
      {
        assert ComesOutRight(s, s.cache[d], d, e, today);
        PatchSays(s.cache, s.responses[n], s.details, d, e, today);
        SaidFirst(Shown(s.cache[d], e), s.responses[n], Others(s.responses, n), s.details, d, e, today);
      }
    case Answered(_) =>
      forall d, e | d in s.cache ensures ComesOutRight(s', s'.cache[d], d, e, today) {
        assert ComesOutRight(s, s.cache[d], d, e, today);
      }
    case Arrived(d) => ArrivalSettlesIff(s, d, today, s');
    case Detailed(listId, detail) =>
      forall d, e | d in s.cache
        ensures ComesOutRight(s', s'.cache[d], d, e, today) <==>
                ReadsTheSame(s, DetailSet(s.details, listId, detail), d, e, today)
      {
        assert ComesOutRight(s, s.cache[d], d, e, today);
      }
  }

  lemma {:induction false} SettledWhileHarmless(states: seq<Moment>, hs: seq<Happening>, today: int, k: nat)
    requires Day(states, hs, today) && k < |states| && Settled(states[0], today)
    requires forall i :: 0 <= i < k ==> Harmless(states[i], hs[i], today)
    ensures Settled(states[k], today)
  {
    if k > 0 {
      SettledWhileHarmless(states, hs, today, k - 1);
      WorldsStayWellFormed(states, hs, today, k - 1);
      CachesStayDistinct(states, hs, today, k - 1);
      hide Settled, Harmless, Step, WellFormed, AllDistinct;
      StepSettlesIff(states[k - 1], hs[k - 1], today, states[k]);
    }
  }

  /**
   Through a day that begins settled: every moment is settled, and so every moment with no response on
   its way shows what a refetch would return, exactly when everything that happens is harmless.
   */
  lemma DaySettlesIff(states: seq<Moment>, hs: seq<Happening>, today: int)
    requires Day(states, hs, today) && Settled(states[0], today)
    ensures (forall k :: 0 <= k < |states| ==> Settled(states[k], today))
            <==> (forall k :: 0 <= k < |hs| ==> Harmless(states[k], hs[k], today))
    ensures forall k :: 0 <= k < |states| && Settled(states[k], today) && states[k].responses == [] ==>
              AreRefetched(states[k], today)
  {
    hide Settled, Harmless, Step, WellFormed, AllDistinct, AreRefetched;
    forall k | 0 <= k < |states| && Settled(states[k], today) && states[k].responses == []
      ensures AreRefetched(states[k], today)
    {
      WorldsStayWellFormed(states, hs, today, k);
      CachesStayDistinct(states, hs, today, k);
      SettledIsRefetched(states[k], today);
    }
    if forall k :: 0 <= k < |hs| ==> Harmless(states[k], hs[k], today) {
      forall k | 0 <= k < |states| ensures Settled(states[k], today) {
        SettledWhileHarmless(states, hs, today, k);
      }
    }
    if forall k :: 0 <= k < |states| ==> Settled(states[k], today) {
      forall k | 0 <= k < |hs| ensures Harmless(states[k], hs[k], today) {
        WorldsStayWellFormed(states, hs, today, k);
        CachesStayDistinct(states, hs, today, k);
        assert Settled(states[k + 1], today);
        StepSettlesIff(states[k], hs[k], today, states[k + 1]);
      }
    }
  }

  // ---------- What is harmless ----------

  /** Not about one item, nor two names for a list, nor an item of a list being trashed. */
  predicate Apart(m: Mutation, m': Mutation) {
    && !SameItem(m, m') && !TwoNames(m, m')
    && !(m.DeleteList? && ItemOf(m').Some? && m.listId == m'.listId)
    && !(m'.DeleteList? && ItemOf(m).Some? && m.listId == m'.listId)
  }

  lemma ApartSaysTheSame(was: Option<Reminder>, m: Mutation, m': Mutation, details: Details, d: string, e: string, today: int)
    requires Apart(m, m')
    ensures SaidBoth(was, m, m', details, d, e, today) == SaidBoth(was, m', m, details, d, e, today)
    ensures DetailsAfter(DetailsAfter(details, m), m') == DetailsAfter(DetailsAfter(details, m'), m)
  {
    hide EntryId;
    if ItemOf(m).Some? && ItemOf(m').Some? && EntryId(ItemOf(m).value) == e && EntryId(ItemOf(m').value) == e {
      SameEntrySameItem(m, m', e);
    }
  }

  lemma {:induction false} FrontIsTheSame(
    was: Option<Reminder>, responses: seq<Mutation>, n: nat, details: Details, d: string, e: string, today: int)
    requires n < |responses| && forall i :: 0 <= i < n ==> Apart(responses[i], responses[n])
    ensures SaidAll(was, [responses[n]] + Others(responses, n), details, d, e, today)
            == SaidAll(was, responses, details, d, e, today)
    decreases n
  {
    hide Said, DetailsAfter, Apart;
    var m, others := responses[n], Others(responses, n);
    if n == 0 {
      assert [m] + others == responses;
    } else {
      var first, rest := responses[0], responses[1..];
      FrontIsTheSame(Said(was, first, details, d, e, today), rest, n - 1, DetailsAfter(details, first), d, e, today);
      assert others == [first] + Others(rest, n - 1);
      SaidFirst(was, m, others, details, d, e, today);
      SaidFirst(Said(was, m, details, d, e, today), first, Others(rest, n - 1), DetailsAfter(details, m), d, e, today);
      SaidFirst(Said(was, first, details, d, e, today), m, Others(rest, n - 1), DetailsAfter(details, first), d, e, today);
      ApartSaysTheSame(was, first, m, details, d, e, today);
    }
  }

  /** A response may be handled before those of earlier mutations that stand apart from it. */
  lemma OvertakingApartIsHarmless(s: Moment, n: nat, today: int)
    requires n < |s.responses| && forall i :: 0 <= i < n ==> Apart(s.responses[i], s.responses[n])
    ensures Harmless(s, Handled(n), today)
  {
    hide SaidAll, Apart;
    forall d, e | d in s.cache ensures MayOvertake(s, n, d, e, today) {
      FrontIsTheSame(Shown(s.cache[d], e), s.responses, n, s.details, d, e, today);
    }
  }

  /** A client that will have the list's detail as it is makes of its own mutation what the server does. */
  lemma OwnMutationIsHarmless(s: Moment, m: Mutation, i: nat, today: int)
    requires WellFormed(s.world) && Accepted(s.world, m, i)
    requires var later := LaterDetails(s.details, s.responses);
             m.AddItem? || m.UpdateItem? ==> m.listId in later && later[m.listId] == DetailOf(s.world[i])
    ensures Harmless(s, Changed(m, i, true), today)
  {
    hide WellFormed, Shown, Refetched;
    ListIdsAreDistinct(s.world);
    AcceptedNamesList(s.world, m, i);
    DetailsAre(s.world, i);
  }

  /** Another's mutation is harmless exactly when it touches no dashboard that is cached. */
  lemma OthersMutationIsHarmlessIff(s: Moment, m: Mutation, i: nat, today: int)
    requires WellFormed(s.world) && Accepted(s.world, m, i)
    ensures i < |s.world|
    ensures Harmless(s, Changed(m, i, false), today) <==> forall d :: d in s.cache ==> !Touches(s.world, m, i, d, today)
  {
    hide WellFormed, Shown, Refetched, Touches, SameDue, Mutated, Accepted;
    AcceptedNamesList(s.world, m, i);
    var w' := Mutated(s.world, m);
    AcceptanceSays(s.world, m, i, "", "", today);
    forall d
      ensures !Touches(s.world, m, i, d, today) <==> SameWords(Refetched(s.world, d, today), Refetched(w', d, today))
    {
      MutationKeepsDueIff(s.world, m, i, d, today);
      SameDueIff(s.world, w', d, today);
    }
    if d :| d in s.cache && Touches(s.world, m, i, d, today) {
      var e :| Shown(Refetched(s.world, d, today), e) != Shown(Refetched(w', d, today), e);
      assert Called(w', d, e, today) != Called(s.world, d, e, today);
    } else {
      forall d, e | d in s.cache ensures Called(w', d, e, today) == Called(s.world, d, e, today) {
        assert SameWords(Refetched(s.world, d, today), Refetched(w', d, today));
      }
    }
  }

  /** What arrives at the k-th happening was answered when the same reminders were due. */
  ghost predicate OnTime(states: seq<Moment>, hs: seq<Happening>, today: int, k: int)
    requires |states| == |hs| + 1 && 0 <= k < |hs|
  {
    hs[k].Arrived? ==>
      exists j :: IsAnswer(hs, j, k, hs[k].dashboard) && SameDue(states[j].world, states[k].world, hs[k].dashboard, today)
  }

  lemma AnswersAreUnique(hs: seq<Happening>, i: int, j: int, k: int, d: string)
    requires IsAnswer(hs, i, k, d) && IsAnswer(hs, j, k, d)
    ensures i == j
  {
  }

  /** With no response on its way, an answer may arrive exactly when it is on time. */
  lemma ArrivalIsHarmlessIff(states: seq<Moment>, hs: seq<Happening>, today: int, k: nat)
    requires Day(states, hs, today) && k < |hs| && hs[k].Arrived? && states[k].responses == []
    ensures Harmless(states[k], hs[k], today) <==> OnTime(states, hs, today, k)
  {
    hide WellFormed, Shown, Refetched, SameDue;
    var s, d := states[k], hs[k].dashboard;
    assert Step(s, hs[k], today, states[k + 1]);
    var j := AnswersAreRemembered(states, hs, today, k, d);
    WorldsStayWellFormed(states, hs, today, j);
    WorldsStayWellFormed(states, hs, today, k);
    SameDueIff(states[j].world, s.world, d, today);
    if i :| IsAnswer(hs, i, k, d) && SameDue(states[i].world, s.world, d, today) {
      AnswersAreUnique(hs, i, j, k, d);
    }
    if Harmless(s, hs[k], today) {
      forall e ensures Shown(Refetched(states[j].world, d, today), e) == Shown(Refetched(s.world, d, today), e) {
        assert ComesOutRight(s, s.answers[d], d, e, today);
      }
    }
    if SameDue(states[j].world, s.world, d, today) {
      forall e ensures ComesOutRight(s, s.answers[d], d, e, today) {
        assert SameWords(Refetched(states[j].world, d, today), Refetched(s.world, d, today));
      }
    }
  }

  lemma {:induction false} WorldStands(states: seq<Moment>, hs: seq<Happening>, today: int, j: nat, k: nat)
    requires Day(states, hs, today) && j <= k < |states| && forall i :: j <= i < k ==> !hs[i].Changed?
    ensures states[k].world == states[j].world
    decreases k
  {
    if j < k {
      WorldStands(states, hs, today, j, k - 1);
      assert Step(states[k - 1], hs[k - 1], today, states[k]);
    }
  }

  /** An answer that no mutation overtakes is on time. */
  lemma UnovertakenIsOnTime(states: seq<Moment>, hs: seq<Happening>, today: int, j: nat, k: nat)
    requires Day(states, hs, today) && j < k < |hs| && hs[k].Arrived? && IsAnswer(hs, j, k, hs[k].dashboard)
    requires forall i :: j < i < k ==> !hs[i].Changed?
    ensures OnTime(states, hs, today, k)
  {
    WorldStands(states, hs, today, j, k);
  }

  /** An answer that one mutation overtakes is on time exactly when the mutation does not touch its dashboard. */
  lemma OvertakenIsOnTimeIff(states: seq<Moment>, hs: seq<Happening>, today: int, j: nat, i: nat, k: nat)
    requires Day(states, hs, today) && j < i < k < |hs| && hs[k].Arrived? && IsAnswer(hs, j, k, hs[k].dashboard)
    requires hs[i].Changed? && forall n :: j < n < k && n != i ==> !hs[n].Changed?
    ensures hs[i].at < |states[i].world|
    ensures OnTime(states, hs, today, k)
            <==> !Touches(states[i].world, hs[i].m, hs[i].at, hs[k].dashboard, today)
  {
    hide SameDue, Touches;
    assert Step(states[i], hs[i], today, states[i + 1]);
    WorldStands(states, hs, today, j, i);
    WorldStands(states, hs, today, i + 1, k);
    WorldsStayWellFormed(states, hs, today, i);
    MutationKeepsDueIff(states[i].world, hs[i].m, hs[i].at, hs[k].dashboard, today);
  }

  /** Between an answer and its arrival the client's own mutations are accepted and nothing is handled. */
  ghost predicate OnlyOwnMutations(states: seq<Moment>, hs: seq<Happening>, d: string, today: int, j: nat, k: nat)
    requires |states| == |hs| + 1 && j <= k <= |hs|
  {
    forall i :: j <= i < k ==>
      && !hs[i].Handled? && !hs[i].Detailed?
      && (hs[i].Changed? ==> hs[i].own && forall e :: ReadsRight(states[i], hs[i].m, d, e, today))
  }

  lemma {:induction false} OwnMutationsComeOutRight(
    states: seq<Moment>, hs: seq<Happening>, d: string, e: string, today: int, j: nat, k: nat)
    requires Day(states, hs, today) && j <= k <= |hs| && states[j].responses == []
    requires OnlyOwnMutations(states, hs, d, today, j, k)
    ensures ComesOutRight(states[k], Refetched(states[j].world, d, today), d, e, today)
    decreases k
  {
    hide WellFormed, Shown, Refetched, Said, Mutated, DetailsOf, DetailsAfter, Accepted;
    if j < k {
      var s, h := states[k - 1], hs[k - 1];
      OwnMutationsComeOutRight(states, hs, d, e, today, j, k - 1);
      WorldsStayWellFormed(states, hs, today, k - 1);
      assert Step(s, h, today, states[k]);
      if h.Changed? {
        assert ReadsRight(s, h.m, d, e, today);
        AcceptanceSays(s.world, h.m, h.at, d, e, today);
        SaidLast(Shown(Refetched(states[j].world, d, today), e), s.responses, h.m, s.details, d, e, today);
      }
    }
  }

  /** An answer given with nothing on its way may arrive before the responses to the mutations that overtook it. */
  lemma ArrivalBeforeResponsesIsHarmless(states: seq<Moment>, hs: seq<Happening>, today: int, j: nat, k: nat)
    requires Day(states, hs, today) && j < k < |hs| && hs[k].Arrived? && IsAnswer(hs, j, k, hs[k].dashboard)
    requires states[j].responses == [] && OnlyOwnMutations(states, hs, hs[k].dashboard, today, j, k)
    ensures Harmless(states[k], hs[k], today)
  {
    hide SaidAll, Called, Shown, Refetched, ReadsRight;
    var d := hs[k].dashboard;
    assert Step(states[k], hs[k], today, states[k + 1]);
    var i := AnswersAreRemembered(states, hs, today, k, d);
    AnswersAreUnique(hs, i, j, k, d);
    forall e ensures ComesOutRight(states[k], states[k].answers[d], d, e, today) {
      OwnMutationsComeOutRight(states, hs, d, e, today, j, k);
    }
  }

  // ---------- Two days that go wrong ----------

  const MILK := ListItem("milk", "Milk", false, Some(7), "none")
  const SHOP := [ItemList("shop", "home", "Shop", [MILK])]
  const SHOP_DETAILS: Details := map["shop" := Detail("home", "Shop")]
  const MILK_DUE := Reminder(EntryId("milk"), "Milk", 7, "shop", "Shop", "none", false)

  lemma OneItemRefetched(l: ItemList, item: ListItem, today: int)
    requires l.items == [item]
    ensures Refetched([l], l.dashboard, today) ==
            var r := ToReminder(item, l.id, l.name, today);
            if r.Some? then [r.value] else []
  {
    assert l.items[1..] == [] && [l][1..] == [];
    assert FromItems(l.items[1..], l, today) == [] && Refetched([l][1..], l.dashboard, today) == [];
    var r := ToReminder(item, l.id, l.name, today);
    var one := if r.Some? then [r.value] else [];
    assert one + [] == one;
  }

  lemma OneEntryDropped(r: Reminder, item: ListItem, listId: string, listName: string, today: int)
    requires r.id == EntryId(item.id) && ToReminder(item, listId, listName, today).None?
    ensures ItemApplied([r], item, listId, listName, today) == []
  {
    assert [r][1..] == [];
    assert Without([r], EntryId(item.id)) == [] + Without([r][1..], EntryId(item.id));
  }

  lemma OneItemPut(l: ItemList, was: ListItem, item: ListItem)
    requires l.items == [was] && was.id == item.id
    ensures Mutated([l], UpdateItem(l.id, item)) == [l.(items := [item])]
  {
    assert PutItem(l.items, item) == [item];
  }

  lemma OneEntryReplaced(r: Reminder, item: ListItem, listId: string, listName: string, today: int)
    requires r.id == EntryId(item.id) && ToReminder(item, listId, listName, today).Some?
    ensures ItemApplied([r], item, listId, listName, today) == [ToReminder(item, listId, listName, today).value]
    ensures ItemApplied([], item, listId, listName, today) == [ToReminder(item, listId, listName, today).value]
    ensures Without([r], EntryId(item.id)) == []
  {
    assert [r][1..] == [];
    assert Without([r], EntryId(item.id)) == [] + Without([r][1..], EntryId(item.id));
  }

  lemma MilkFacts()
    ensures WellFormed(SHOP) && SHOP == [SHOP[0]] && DetailsOf(SHOP) == SHOP_DETAILS
    ensures HasList(SHOP, "shop", 0) && HasItem(SHOP, "milk", 0, 0)
    ensures ToReminder(MILK, "shop", "Shop", 7) == Some(MILK_DUE)
    ensures ToReminder(MILK.(checked := true), "shop", "Shop", 7) == None
    ensures ToReminder(MILK.(text := "Oat milk"), "shop", "Shop", 7) == Some(MILK_DUE.(title := "Oat milk"))
    ensures AllDistinct(map["home" := [MILK_DUE]])
  {
    assert SHOP[1..] == [] && DetailsOf(SHOP[1..]) == map[];
  }

  lemma ItemPatchedOnce(rs: seq<Reminder>, item: ListItem)
    ensures Patched(map["home" := rs], UpdateItem("shop", item), SHOP_DETAILS, 7) ==
            map["home" := ItemApplied(rs, item, "shop", "Shop", 7)]
  {
  }

  /** An item checked between an answer and its arrival: the reminder the patch removed comes back. */
  lemma LateAnswerCanUndoAPatch() returns (states: seq<Moment>, hs: seq<Happening>)
    ensures hs == [Answered("home"), Changed(UpdateItem("shop", MILK.(checked := true)), 0, true), Handled(0), Arrived("home")]
    ensures Day(states, hs, 7)
    ensures states[0] == Moment(SHOP, map["home" := [MILK_DUE]], SHOP_DETAILS, map[], [])
    ensures states[3].cache == map["home" := []] && states[4].responses == []
    ensures states[4].cache == map["home" := [MILK_DUE]] && !AreRefetched(states[4], 7)
  {
    hide Refetched, Mutated, Patched, WellFormed, DistinctIds, ItemApplied, ToReminder, DetailsOf;
    var done := MILK.(checked := true);
    var check := UpdateItem("shop", done);
    var checked := [SHOP[0].(items := [done])];
    var shown, gone: Cache := map["home" := [MILK_DUE]], map["home" := []];
    hs := [Answered("home"), Changed(check, 0, true), Handled(0), Arrived("home")];
    states := [
      Moment(SHOP, shown, SHOP_DETAILS, map[], []), Moment(SHOP, shown, SHOP_DETAILS, shown, []),
      Moment(checked, shown, SHOP_DETAILS, shown, [check]), Moment(checked, gone, SHOP_DETAILS, shown, []),
      Moment(checked, shown, SHOP_DETAILS, map[], [])];
    MilkFacts();
    OneItemRefetched(SHOP[0], MILK, 7);
    OneItemRefetched(checked[0], done, 7);
    OneItemPut(SHOP[0], MILK, done);
    OneEntryDropped(MILK_DUE, done, "shop", "Shop", 7);
    ItemPatchedOnce([MILK_DUE], done);
    assert Accepted(SHOP, check, 0);
    assert Others([check], 0) == [];
    assert multiset([MILK_DUE])[MILK_DUE] == 1 && "home" in states[4].cache;
  }

  /**
   An item renamed, then deleted, with the response to the deletion handled first: a reminder of the
   deleted item stays, though no reminders request is made at all.
   */
  lemma DeletedItemCanComeBack() returns (states: seq<Moment>, hs: seq<Happening>)
    ensures hs == [Changed(UpdateItem("shop", MILK.(text := "Oat milk")), 0, true),
                   Changed(DeleteItem("shop", "milk"), 0, true), Handled(1), Handled(0)]
    ensures Day(states, hs, 7)
    ensures states[0] == Moment(SHOP, map["home" := [MILK_DUE]], SHOP_DETAILS, map[], [])
    ensures states[4].responses == [] && Refetched(states[4].world, "home", 7) == []
    ensures states[4].cache == map["home" := [MILK_DUE.(title := "Oat milk")]] && !AreRefetched(states[4], 7)
  {
    hide Refetched, Mutated, Patched, WellFormed, DistinctIds, ItemApplied, ToReminder, DetailsOf, Without;
    var oat := MILK.(text := "Oat milk");
    var rename, delete := UpdateItem("shop", oat), DeleteItem("shop", "milk");
    var renamed, emptied := [SHOP[0].(items := [oat])], [SHOP[0].(items := [])];
    var back := [MILK_DUE.(title := "Oat milk")];
    var shown, gone: Cache := map["home" := [MILK_DUE]], map["home" := []];
    hs := [Changed(rename, 0, true), Changed(delete, 0, true), Handled(1), Handled(0)];
    states := [
      Moment(SHOP, shown, SHOP_DETAILS, map[], []), Moment(renamed, shown, SHOP_DETAILS, map[], [rename]),
      Moment(emptied, shown, SHOP_DETAILS, map[], [rename, delete]), Moment(emptied, gone, SHOP_DETAILS, map[], [rename]),
      Moment(emptied, map["home" := back], SHOP_DETAILS, map[], [])];
    MilkFacts();
    OneItemPut(SHOP[0], MILK, oat);
    OneItemDeleted(renamed[0], oat);
    EmptyListRefetched(emptied[0], 7);
    OneEntryReplaced(MILK_DUE, oat, "shop", "Shop", 7);
    ItemPatchedOnce([], oat);
    ItemDroppedOnce(MILK_DUE);
    assert Accepted(SHOP, rename, 0);
    assert HasItem(renamed, "milk", 0, 0) && HasList(renamed, "shop", 0) && Accepted(renamed, delete, 0);
    assert [rename] + [delete] == [rename, delete] && Others([rename, delete], 1) == [rename] && Others([rename], 0) == [];
    assert |multiset(back)| == 1 && "home" in states[4].cache;
  }

  lemma OneItemDeleted(l: ItemList, item: ListItem)
    requires l.items == [item]
    ensures Mutated([l], DeleteItem(l.id, item.id)) == [l.(items := [])]
  {
    assert l.items[1..] == [];
    assert WithoutItem(l.items, item.id) == [] + WithoutItem(l.items[1..], item.id);
  }

  lemma EmptyListRefetched(l: ItemList, today: int)
    requires l.items == []
    ensures Refetched([l], l.dashboard, today) == []
  {
    assert [l][1..] == [];
    assert Refetched([l][1..], l.dashboard, today) == [];
  }

  lemma ItemDroppedOnce(r: Reminder)
    requires Without([r], EntryId("milk")) == []
    ensures Patched(map["home" := [r]], DeleteItem("shop", "milk"), SHOP_DETAILS, 7) == map["home" := []]
  {
  }
}
