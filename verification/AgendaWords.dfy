/**
 The agenda one reminder at a time: what a dashboard shows under an entry id, what the lists call for
 under it, and what a mutation says about it. The server applies what mutations say in the order it
 accepts them, the client in the order their responses are handled.
 */
module AgendaWords {
  import opened Wrappers
  import opened Agenda

  /** The reminder shown under an entry id. */
  function Shown(rs: seq<Reminder>, e: string): Option<Reminder> {
    if rs == [] then None
    else if rs[0].id == e then Some(rs[0])
    else Shown(rs[1..], e)
  }

  /** The reminder the lists call for under an entry id. */
  function Called(w: World, d: string, e: string, today: int): Option<Reminder> {
    Shown(Refetched(w, d, today), e)
  }

  /** What a mutation makes of the reminder under an entry id, for one who has these list details. */
  function Said(was: Option<Reminder>, m: Mutation, details: Details, d: string, e: string, today: int): Option<Reminder> {
    match m
    case AddItem(listId, item) => ItemSaid(was, listId, item, details, d, e, today)
    case UpdateItem(listId, item) => ItemSaid(was, listId, item, details, d, e, today)
    case DeleteItem(_, itemId) => if EntryId(itemId) == e then None else was
    case RenameList(listId, name) =>
      if was.Some? && was.value.listId == listId then Some(was.value.(listName := name)) else was
    case DeleteList(listId) => if was.Some? && was.value.listId == listId then None else was
  }

  function ItemSaid(was: Option<Reminder>, listId: string, item: ListItem, details: Details,
                    d: string, e: string, today: int): Option<Reminder>
  {
    if EntryId(item.id) == e && listId in details && details[listId].dashboard == d
    then ToReminder(item, listId, details[listId].name, today)
    else was
  }

  // ---------- Reminders and words ----------

  lemma {:induction false} ShownIs(rs: seq<Reminder>, e: string)
    ensures Shown(rs, e).Some? ==> Shown(rs, e).value in rs && Shown(rs, e).value.id == e
    ensures Shown(rs, e).None? ==> forall r :: r in rs ==> r.id != e
    ensures DistinctIds(rs) ==> forall r :: r in rs && r.id == e ==> Shown(rs, e) == Some(r)
  {
    if rs != [] {
      ShownIs(rs[1..], e);
      assert rs == [rs[0]] + rs[1..];
      if DistinctIds(rs) {
        assert DistinctIds(rs[1..]);
        forall r | r in rs && r.id == e ensures Shown(rs, e) == Some(r) {
          var k :| 0 <= k < |rs| && rs[k] == r;
          assert k > 0 ==> rs[0].id != rs[k].id;
        }
      }
    }
  }

  lemma {:induction false} AtMostOnce(a: seq<Reminder>, r: Reminder)
    requires DistinctIds(a)
    ensures multiset(a)[r] <= 1
  {
    if a != [] {
      AtMostOnce(a[1..], r);
      assert a == [a[0]] + a[1..];
      assert r in multiset(a[1..]) <==> r in a[1..];
    }
  }

  lemma SameMembersAreSame(a: seq<Reminder>, b: seq<Reminder>)
    requires DistinctIds(a) && DistinctIds(b) && forall r :: r in a <==> r in b
    ensures multiset(a) == multiset(b)
  {
    forall r ensures multiset(a)[r] == multiset(b)[r] {
      assert r in a <==> r in multiset(a);
      assert r in b <==> r in multiset(b);
      AtMostOnce(a, r);
      AtMostOnce(b, r);
    }
  }

  ghost predicate SameWords(a: seq<Reminder>, b: seq<Reminder>) {
    forall e :: Shown(a, e) == Shown(b, e)
  }

  /** Reminders with distinct ids are the same, as a multiset, exactly when they show the same under every id. */
  lemma SameWordsIff(a: seq<Reminder>, b: seq<Reminder>)
    requires DistinctIds(a) && DistinctIds(b)
    ensures multiset(a) == multiset(b) <==> SameWords(a, b)
  {
    if multiset(a) == multiset(b) {
      forall e ensures Shown(a, e) == Shown(b, e) {
        ShownIs(a, e);
        ShownIs(b, e);
        assert forall r :: r in a <==> r in multiset(a);
        assert forall r :: r in b <==> r in multiset(b);
      }
    }
    if SameWords(a, b) {
      forall r ensures r in a <==> r in b {
        ShownIs(a, r.id);
        ShownIs(b, r.id);
      }
      SameMembersAreSame(a, b);
    }
  }

  // ---------- Both sides do what a mutation says ----------

  lemma ShownChanges(rs: seq<Reminder>, rs': seq<Reminder>, e: string, word: Option<Reminder>)
    requires DistinctIds(rs')
    requires word.Some? ==> word.value in rs' && word.value.id == e
    requires word.None? ==> forall r :: r in rs' ==> r.id != e
    ensures Shown(rs', e) == word
  {
    ShownIs(rs', e);
  }

  lemma AppliedSays(rs: seq<Reminder>, item: ListItem, listId: string, name: string, e: string, today: int)
    requires DistinctIds(rs)
    ensures var rs' := ItemApplied(rs, item, listId, name, today);
            && DistinctIds(rs')
            && Shown(rs', e) == if EntryId(item.id) == e then ToReminder(item, listId, name, today) else Shown(rs, e)
  {
    var kept, next := Without(rs, EntryId(item.id)), ToReminder(item, listId, name, today);
    var extra := if next.Some? then [next.value] else [];
    WithoutAre(rs, EntryId(item.id));
    DistinctConcat(kept, extra);
    ShownIs(rs, e);
    ShownChanges(rs, kept + extra, e, if EntryId(item.id) == e then next else Shown(rs, e));
  }

  lemma RenamedSays(rs: seq<Reminder>, listId: string, name: string, e: string)
    requires DistinctIds(rs)
    ensures DistinctIds(Renamed(rs, listId, name))
    ensures var was := Shown(rs, e);
            Shown(Renamed(rs, listId, name), e) ==
            if was.Some? && was.value.listId == listId then Some(was.value.(listName := name)) else was
  {
    var rs', was := Renamed(rs, listId, name), Shown(rs, e);
    ShownIs(rs, e);
    if was.Some? {
      var k :| 0 <= k < |rs| && rs[k] == was.value;
      assert rs'[k] in rs';
      ShownChanges(rs, rs', e, Some(rs'[k]));
    } else {
      forall r | r in rs' ensures r.id != e {
        var k :| 0 <= k < |rs'| && rs'[k] == r;
        assert rs[k] in rs;
      }
      ShownChanges(rs, rs', e, None);
    }
  }

  /** Handling a response makes of every cached reminder what the mutation says. */
  lemma PatchSays(c: Cache, m: Mutation, details: Details, d: string, e: string, today: int)
    requires d in c && DistinctIds(c[d])
    ensures d in Patched(c, m, details, today) && DistinctIds(Patched(c, m, details, today)[d])
    ensures Shown(Patched(c, m, details, today)[d], e) == Said(Shown(c[d], e), m, details, d, e, today)
  {
    hide DistinctIds, ToReminder, ItemApplied, Shown, Renamed;
    match m
    case AddItem(listId, item) => ItemPatchSays(c, listId, item, details, d, e, today);
    case UpdateItem(listId, item) => ItemPatchSays(c, listId, item, details, d, e, today);
    case DeleteItem(_, itemId) =>
      WithoutAre(c[d], EntryId(itemId));
      ShownIs(c[d], e);
      ShownChanges(c[d], Without(c[d], EntryId(itemId)), e, if EntryId(itemId) == e then None else Shown(c[d], e));
    case RenameList(listId, name) => RenamedSays(c[d], listId, name, e);
    case DeleteList(listId) =>
      var was := Shown(c[d], e);
      WithoutListEntriesAre(c[d], listId);
      ShownIs(c[d], e);
      ShownChanges(c[d], WithoutListEntries(c[d], listId), e, if was.Some? && was.value.listId == listId then None else was);
  }

  lemma ItemPatchSays(c: Cache, listId: string, item: ListItem, details: Details, d: string, e: string, today: int)
    requires d in c && DistinctIds(c[d])
    ensures var c' := ItemPatched(c, listId, item, details, today);
            d in c' && DistinctIds(c'[d]) && Shown(c'[d], e) == ItemSaid(Shown(c[d], e), listId, item, details, d, e, today)
  {
    hide DistinctIds, ToReminder, ItemApplied, Shown;
    if listId in details {
      AppliedSays(c[d], item, listId, details[listId].name, e, today);
    }
  }

  lemma {:induction false} DetailsAre(w: World, i: nat)
    requires i < |w| && forall k, k' :: 0 <= k < k' < |w| ==> w[k].id != w[k'].id
    ensures w[i].id in DetailsOf(w) && DetailsOf(w)[w[i].id] == DetailOf(w[i])
  {
    if i > 0 {
      DetailsAre(w[1..], i - 1);
      assert w[0].id != w[i].id;
    }
  }

  /** Accepting a mutation makes of every reminder called for what the mutation says. */
  lemma AcceptanceSays(w: World, m: Mutation, i: nat, d: string, e: string, today: int)
    requires WellFormed(w) && Accepted(w, m, i)
    ensures WellFormed(Mutated(w, m))
    ensures Called(Mutated(w, m), d, e, today) == Said(Called(w, d, e, today), m, DetailsOf(w), d, e, today)
  {
    hide WellFormed, Mutated, Patched, Said, Refetched, Accepted;
    var c := map[d := Refetched(w, d, today)];
    ListIdsAreDistinct(w);
    AcceptedNamesList(w, m, i);
    DetailsAre(w, i);
    RefetchIsFaithful(w, d, today);
    PatchKeepsFaithful(w, c, m, i, DetailsOf(w), today);
    RefetchedAreDistinct(w, d, today);
    PatchSays(c, m, DetailsOf(w), d, e, today);
    var after, w' := Patched(c, m, DetailsOf(w), today), Mutated(w, m);
    RefetchedAreDistinct(w', d, today);
    forall r ensures r in after[d] <==> r in Refetched(w', d, today) {
      RefetchedAre(w', d, today, r);
    }
    SameMembersAreSame(after[d], Refetched(w', d, today));
    SameWordsIff(after[d], Refetched(w', d, today));
  }

  lemma AcceptedNamesList(w: World, m: Mutation, i: int)
    requires Accepted(w, m, i)
    ensures 0 <= i < |w| && w[i].id == m.listId
  {
  }

  // ---------- Two responses, either way round ----------

  /** The item a mutation is about, if it is about one. */
  function ItemOf(m: Mutation): Option<string> {
    match m
    case AddItem(_, item) => Some(item.id)
    case UpdateItem(_, item) => Some(item.id)
    case DeleteItem(_, itemId) => Some(itemId)
    case _ => None
  }

  predicate SameItem(m: Mutation, m': Mutation) {
    ItemOf(m).Some? && ItemOf(m) == ItemOf(m')
  }

  /** What a mutation of an item leaves of its reminder. */
  function Left(m: Mutation, details: Details, today: int): Option<Reminder> {
    match m
    case AddItem(listId, item) =>
      if listId in details then ToReminder(item, listId, details[listId].name, today) else None
    case UpdateItem(listId, item) =>
      if listId in details then ToReminder(item, listId, details[listId].name, today) else None
    case _ => None
  }

  /** An item keeps its list, and so do its reminders. */
  ghost predicate KeepsItsList(c: Cache, m: Mutation) {
    ItemOf(m).Some? ==> forall d, r :: d in c && r in c[d] && r.id == EntryId(ItemOf(m).value) ==> r.listId == m.listId
  }

  predicate TwoNames(m: Mutation, m': Mutation) {
    m.RenameList? && m'.RenameList? && m.listId == m'.listId && m.name != m'.name
  }

  /** Two mutations of one item that leave it differently, or two names for a list with reminders. */
  ghost predicate Clash(c: Cache, details: Details, m: Mutation, m': Mutation, today: int) {
    || (SameItem(m, m') && m.listId in details && details[m.listId].dashboard in c
        && Left(m, details, today) != Left(m', details, today))
    || (TwoNames(m, m') && exists d, r :: d in c && r in c[d] && r.listId == m.listId)
  }

  /** The same, seen from one reminder. */
  predicate WordClash(was: Option<Reminder>, m: Mutation, m': Mutation, details: Details, d: string, e: string, today: int) {
    || (SameItem(m, m') && EntryId(ItemOf(m).value) == e && m.listId in details && details[m.listId].dashboard == d
        && Left(m, details, today) != Left(m', details, today))
    || (TwoNames(m, m') && was.Some? && was.value.listId == m.listId)
  }

  predicate WordKeepsItsList(was: Option<Reminder>, m: Mutation, e: string) {
    ItemOf(m).Some? && EntryId(ItemOf(m).value) == e && was.Some? ==> was.value.listId == m.listId
  }

  function SaidBoth(was: Option<Reminder>, m: Mutation, m': Mutation, details: Details,
                    d: string, e: string, today: int): Option<Reminder>
  {
    Said(Said(was, m, details, d, e, today), m', DetailsAfter(details, m), d, e, today)
  }

  lemma SameEntrySameItem(m: Mutation, m': Mutation, e: string)
    requires ItemOf(m).Some? && ItemOf(m').Some?
    requires EntryId(ItemOf(m).value) == e && EntryId(ItemOf(m').value) == e
    ensures SameItem(m, m')
  {
    EntryIdIsInjective(ItemOf(m).value, ItemOf(m').value);
  }

  /** Two mutations say the same in either order exactly when they do not clash over the reminder. */
  lemma SaidEitherWayIff(was: Option<Reminder>, m: Mutation, m': Mutation, details: Details, d: string, e: string, today: int)
    requires SameItem(m, m') ==> m.listId == m'.listId
    requires WordKeepsItsList(was, m, e) && WordKeepsItsList(was, m', e)
    ensures SaidBoth(was, m, m', details, d, e, today) == SaidBoth(was, m', m, details, d, e, today)
            <==> !WordClash(was, m, m', details, d, e, today)
  {
    hide EntryId;
    if ItemOf(m).Some? && ItemOf(m').Some? && EntryId(ItemOf(m).value) == e && EntryId(ItemOf(m').value) == e {
      SameEntrySameItem(m, m', e);
    }
  }

  /** The reminders after one response, then the other. */
  function InTurn(c: Cache, details: Details, m: Mutation, m': Mutation, today: int): Cache {
    Patched(Patched(c, m, details, today), m', DetailsAfter(details, m), today)
  }

  lemma SameDashboards(c: Cache, details: Details, m: Mutation, m': Mutation, today: int)
    ensures InTurn(c, details, m, m', today).Keys == c.Keys == InTurn(c, details, m', m, today).Keys
  {
  }

  ghost predicate AllDistinct(c: Cache) {
    forall d :: d in c ==> DistinctIds(c[d])
  }

  lemma InTurnSays(c: Cache, details: Details, m: Mutation, m': Mutation, d: string, e: string, today: int)
    requires d in c && DistinctIds(c[d])
    ensures DistinctIds(InTurn(c, details, m, m', today)[d])
    ensures Shown(InTurn(c, details, m, m', today)[d], e) == SaidBoth(Shown(c[d], e), m, m', details, d, e, today)
  {
    hide Patched, Said, Shown, DistinctIds;
    PatchSays(c, m, details, d, e, today);
    PatchSays(Patched(c, m, details, today), m', DetailsAfter(details, m), d, e, today);
  }

  /** The guard of a caller: the responses to two mutations may be handled either way round exactly when they do not clash. */
  lemma HandledEitherWayIff(c: Cache, details: Details, m: Mutation, m': Mutation, today: int)
    requires AllDistinct(c) && KeepsItsList(c, m) && KeepsItsList(c, m')
    requires SameItem(m, m') ==> m.listId == m'.listId
    ensures (forall d :: d in c ==>
              multiset(InTurn(c, details, m, m', today)[d]) == multiset(InTurn(c, details, m', m, today)[d]))
            <==> !Clash(c, details, m, m', today)
  {
    hide Shown, InTurn, SaidBoth, DistinctIds, EntryId, Clash, WordClash;
    SameDashboards(c, details, m, m', today);
    forall d | d in c
      ensures multiset(InTurn(c, details, m, m', today)[d]) == multiset(InTurn(c, details, m', m, today)[d])
              <==> !AnyWordClash(c, details, m, m', d, today)
    {
      EitherWayOnIff(c, details, m, m', d, today);
    }
    ClashIsWordClash(c, details, m, m', today);
  }

  ghost predicate AnyWordClash(c: Cache, details: Details, m: Mutation, m': Mutation, d: string, today: int)
    requires d in c
  {
    exists e :: WordClash(Shown(c[d], e), m, m', details, d, e, today)
  }

  lemma EitherWayOnIff(c: Cache, details: Details, m: Mutation, m': Mutation, d: string, today: int)
    requires d in c && DistinctIds(c[d]) && KeepsItsList(c, m) && KeepsItsList(c, m')
    requires SameItem(m, m') ==> m.listId == m'.listId
    ensures multiset(InTurn(c, details, m, m', today)[d]) == multiset(InTurn(c, details, m', m, today)[d])
            <==> !AnyWordClash(c, details, m, m', d, today)
  {
    hide Shown, InTurn, SaidBoth, Left, DistinctIds, EntryId, WordClash;
    SameDashboards(c, details, m, m', today);
    var one, other := InTurn(c, details, m, m', today)[d], InTurn(c, details, m', m, today)[d];
    InTurnSays(c, details, m, m', d, "", today);
    InTurnSays(c, details, m', m, d, "", today);
    SameWordsIff(one, other);
    forall e ensures Shown(one, e) == Shown(other, e) <==> !WordClash(Shown(c[d], e), m, m', details, d, e, today) {
      InTurnSays(c, details, m, m', d, e, today);
      InTurnSays(c, details, m', m, d, e, today);
      ShownIs(c[d], e);
      SaidEitherWayIff(Shown(c[d], e), m, m', details, d, e, today);
    }
    if e :| Shown(one, e) != Shown(other, e) {
      assert WordClash(Shown(c[d], e), m, m', details, d, e, today);
    }
    if e :| WordClash(Shown(c[d], e), m, m', details, d, e, today) {
      assert Shown(one, e) != Shown(other, e);
    }
  }

  lemma ClashIsWordClash(c: Cache, details: Details, m: Mutation, m': Mutation, today: int)
    requires AllDistinct(c)
    ensures Clash(c, details, m, m', today) <==>
            exists d :: d in c && AnyWordClash(c, details, m, m', d, today)
  {
    hide Left, EntryId, DistinctIds;
    if SameItem(m, m') && Clash(c, details, m, m', today) && !TwoNames(m, m') {
      var d := details[m.listId].dashboard;
      assert WordClash(Shown(c[d], EntryId(ItemOf(m).value)), m, m', details, d, EntryId(ItemOf(m).value), today);
    }
    if TwoNames(m, m') {
      if d, r :| d in c && r in c[d] && r.listId == m.listId {
        ShownIs(c[d], r.id);
        assert WordClash(Shown(c[d], r.id), m, m', details, d, r.id, today);
      }
      if d, e :| d in c && WordClash(Shown(c[d], e), m, m', details, d, e, today) {
        ShownIs(c[d], e);
        assert Shown(c[d], e).value in c[d];
      }
    }
  }
}
