/**
 The agenda's reminders, patched after each list mutation instead of refetched. Within one day the
 patched reminders are exactly those due from the new lists.
 */
module Agenda {
  import opened Wrappers

  datatype ListItem = ListItem(id: string, text: string, checked: bool, due: Option<int>, priority: string)

  datatype ItemList = ItemList(id: string, dashboard: string, name: string, items: seq<ListItem>)

  datatype Reminder = Reminder(
    id: string, title: string, due: int, listId: string, listName: string, priority: string, overdue: bool)

  /** Every list the server holds, trashed ones aside. */
  type World = seq<ItemList>

  /** The reminders cached per dashboard; a dashboard never loaded is absent. */
  type Cache = map<string, seq<Reminder>>

  function EntryId(itemId: string): string {
    "reminder:" + itemId
  }

  lemma EntryIdIsInjective(a: string, b: string)
    requires EntryId(a) == EntryId(b)
    ensures a == b
  {
    assert a == EntryId(a)[9..] && b == EntryId(b)[9..];
  }

  /** `listItemToAgendaItem`: unchecked items due by today. */
  function ToReminder(item: ListItem, listId: string, listName: string, today: int): Option<Reminder> {
    if item.checked || item.due.None? || item.due.value > today then None
    else Some(Reminder(EntryId(item.id), item.text, item.due.value, listId, listName, item.priority, item.due.value < today))
  }

  // ---------- A refetch ----------

  function FromItems(items: seq<ListItem>, l: ItemList, today: int): seq<Reminder> {
    if items == [] then []
    else
      var r := ToReminder(items[0], l.id, l.name, today);
      (if r.Some? then [r.value] else []) + FromItems(items[1..], l, today)
  }

  /** `fetchAgendaReminders`. */
  function Refetched(w: World, dashboard: string, today: int): seq<Reminder> {
    if w == [] then []
    else
      (if w[0].dashboard == dashboard then FromItems(w[0].items, w[0], today) else [])
      + Refetched(w[1..], dashboard, today)
  }

  predicate DistinctItems(items: seq<ListItem>) {
    forall j, j' :: 0 <= j < j' < |items| ==> items[j].id != items[j'].id
  }

  /** Ids are unique, and an item belongs to one list. */
  ghost predicate WellFormed(w: World) {
    && (forall i, i' :: 0 <= i < i' < |w| ==> w[i].id != w[i'].id)
    && (forall i :: 0 <= i < |w| ==> DistinctItems(w[i].items))
    && (forall i, i' :: 0 <= i < |w| && 0 <= i' < |w| && i != i' ==> Unshared(w[i].items, w[i'].items))
  }

  ghost predicate Unshared(a: seq<ListItem>, b: seq<ListItem>) {
    forall x, y :: x in a && y in b ==> x.id != y.id
  }

  ghost predicate DistinctIds(rs: seq<Reminder>) {
    forall a, b :: 0 <= a < b < |rs| ==> rs[a].id != rs[b].id
  }

  ghost predicate Source(w: World, dashboard: string, today: int, r: Reminder, i: int, j: int) {
    && 0 <= i < |w| && 0 <= j < |w[i].items|
    && w[i].dashboard == dashboard
    && ToReminder(w[i].items[j], w[i].id, w[i].name, today) == Some(r)
  }

  /** A reminder the lists call for. */
  ghost predicate Due(w: World, dashboard: string, today: int, r: Reminder) {
    exists i, j :: Source(w, dashboard, today, r, i, j)
  }

  lemma {:induction false} FromItemsAre(items: seq<ListItem>, l: ItemList, today: int, r: Reminder)
    ensures r in FromItems(items, l, today) <==>
            exists j :: 0 <= j < |items| && ToReminder(items[j], l.id, l.name, today) == Some(r)
  {
    if items != [] {
      var rest := items[1..];
      FromItemsAre(rest, l, today, r);
      if j :| 0 <= j < |rest| && ToReminder(rest[j], l.id, l.name, today) == Some(r) {
        assert items[j + 1] == rest[j];
      }
      if j :| 0 < j < |items| && ToReminder(items[j], l.id, l.name, today) == Some(r) {
        assert rest[j - 1] == items[j];
      }
    }
  }

  lemma {:induction false} RefetchedAre(w: World, dashboard: string, today: int, r: Reminder)
    ensures r in Refetched(w, dashboard, today) <==> Due(w, dashboard, today, r)
  {
    if w != [] {
      var rest := w[1..];
      RefetchedAre(rest, dashboard, today, r);
      FromItemsAre(w[0].items, w[0], today, r);
      if j :| 0 <= j < |w[0].items| && ToReminder(w[0].items[j], w[0].id, w[0].name, today) == Some(r)
              && w[0].dashboard == dashboard {
        assert Source(w, dashboard, today, r, 0, j);
      }
      if i, j :| Source(rest, dashboard, today, r, i, j) {
        assert Source(w, dashboard, today, r, i + 1, j);
      }
      if i, j :| Source(w, dashboard, today, r, i, j) && i > 0 {
        assert Source(rest, dashboard, today, r, i - 1, j);
      }
    }
  }

  /** The reminder of an item that is due, field by field. */
  predicate RemindsOf(r: Reminder, item: ListItem, listId: string, listName: string, today: int) {
    && !item.checked && item.due == Some(r.due) && r.due <= today
    && r.id == "reminder:" + item.id && r.title == item.text && r.priority == item.priority
    && r.listId == listId && r.listName == listName
    && (r.overdue <==> r.due < today)
  }

  lemma RemindsOfIff(r: Reminder, item: ListItem, listId: string, listName: string, today: int)
    ensures ToReminder(item, listId, listName, today) == Some(r) <==> RemindsOf(r, item, listId, listName, today)
  {
  }

  /** A refetch, read off the lists: a reminder for each unchecked item due by today, and no other. */
  lemma RefetchedAreDueItems(w: World, dashboard: string, today: int, r: Reminder)
    ensures r in Refetched(w, dashboard, today) <==>
            exists l, item :: l in w && l.dashboard == dashboard && item in l.items && RemindsOf(r, item, l.id, l.name, today)
  {
    hide RemindsOf, ToReminder, Refetched;
    RefetchedAre(w, dashboard, today, r);
    if i, j :| Source(w, dashboard, today, r, i, j) {
      RemindsOfIff(r, w[i].items[j], w[i].id, w[i].name, today);
      assert w[i] in w && w[i].items[j] in w[i].items;
    }
    if l, item :| l in w && l.dashboard == dashboard && item in l.items && RemindsOf(r, item, l.id, l.name, today) {
      var i :| 0 <= i < |w| && w[i] == l;
      var j :| 0 <= j < |l.items| && l.items[j] == item;
      RemindsOfIff(r, item, l.id, l.name, today);
      assert Source(w, dashboard, today, r, i, j);
    }
  }

  lemma {:induction false} FromItemsAreDistinct(items: seq<ListItem>, l: ItemList, today: int)
    requires DistinctItems(items)
    ensures DistinctIds(FromItems(items, l, today))
  {
    if items != [] {
      var rest := FromItems(items[1..], l, today);
      FromItemsAreDistinct(items[1..], l, today);
      forall b | 0 <= b < |rest| ensures rest[b].id != EntryId(items[0].id) {
        FromItemsAre(items[1..], l, today, rest[b]);
        var j :| 0 <= j < |items[1..]| && ToReminder(items[1..][j], l.id, l.name, today) == Some(rest[b]);
        if EntryId(items[j + 1].id) == EntryId(items[0].id) {
          EntryIdIsInjective(items[j + 1].id, items[0].id);
        }
      }
    }
  }

  lemma DistinctConcat(a: seq<Reminder>, b: seq<Reminder>)
    requires DistinctIds(a) && DistinctIds(b)
    requires forall r, s :: r in a && s in b ==> r.id != s.id
    ensures DistinctIds(a + b)
  {
  }

  lemma {:induction false} RefetchedAreDistinct(w: World, dashboard: string, today: int)
    requires WellFormed(w)
    ensures DistinctIds(Refetched(w, dashboard, today))
  {
    if w != [] {
      var rest := w[1..];
      assert WellFormed(rest);
      RefetchedAreDistinct(rest, dashboard, today);
      FromItemsAreDistinct(w[0].items, w[0], today);
      var a, b := FromItems(w[0].items, w[0], today), Refetched(rest, dashboard, today);
      forall r, s | r in a && s in b ensures r.id != s.id {
        FromItemsAre(w[0].items, w[0], today, r);
        RefetchedAre(rest, dashboard, today, s);
        var j :| 0 <= j < |w[0].items| && ToReminder(w[0].items[j], w[0].id, w[0].name, today) == Some(r);
        var i', j' :| Source(rest, dashboard, today, s, i', j');
        assert Unshared(w[0].items, w[i' + 1].items);
        assert w[i' + 1].items[j'].id != w[0].items[j].id;
        if r.id == s.id {
          EntryIdIsInjective(w[0].items[j].id, w[i' + 1].items[j'].id);
        }
      }
      DistinctConcat(a, b);
      DistinctConcat([], b);
    }
  }

  // ---------- The mutations, on the server ----------

  datatype Mutation =
    | AddItem(listId: string, item: ListItem)
    | UpdateItem(listId: string, item: ListItem)
    | DeleteItem(listId: string, itemId: string)
    | RenameList(listId: string, name: string)
    | DeleteList(listId: string)

  function Change(w: World, listId: string, f: ItemList -> ItemList): World {
    seq(|w|, i requires 0 <= i < |w| => if w[i].id == listId then f(w[i]) else w[i])
  }

  function PutItem(items: seq<ListItem>, item: ListItem): seq<ListItem> {
    seq(|items|, j requires 0 <= j < |items| => if items[j].id == item.id then item else items[j])
  }

  function WithoutItem(items: seq<ListItem>, itemId: string): seq<ListItem> {
    if items == [] then []
    else (if items[0].id != itemId then [items[0]] else []) + WithoutItem(items[1..], itemId)
  }

  function WithoutList(w: World, listId: string): World {
    if w == [] then []
    else (if w[0].id != listId then [w[0]] else []) + WithoutList(w[1..], listId)
  }

  function Mutated(w: World, m: Mutation): World {
    match m
    case AddItem(listId, item) => Change(w, listId, (l: ItemList) => l.(items := l.items + [item]))
    case UpdateItem(listId, item) => Change(w, listId, (l: ItemList) => l.(items := PutItem(l.items, item)))
    case DeleteItem(listId, itemId) => Change(w, listId, (l: ItemList) => l.(items := WithoutItem(l.items, itemId)))
    case RenameList(listId, name) => Change(w, listId, (l: ItemList) => l.(name := name))
    case DeleteList(listId) => WithoutList(w, listId)
  }

  predicate HasList(w: World, listId: string, i: int) {
    0 <= i < |w| && w[i].id == listId
  }

  predicate HasItem(w: World, itemId: string, i: int, j: int) {
    0 <= i < |w| && 0 <= j < |w[i].items| && w[i].items[j].id == itemId
  }

  /** A mutation the server accepts: it names a list, and an item of that list or a new one. */
  ghost predicate Accepted(w: World, m: Mutation, i: int) {
    && HasList(w, m.listId, i)
    && match m
       case AddItem(_, item) => forall i', j :: !HasItem(w, item.id, i', j)
       case UpdateItem(_, item) => exists j :: HasItem(w, item.id, i, j)
       case DeleteItem(_, itemId) => exists j :: HasItem(w, itemId, i, j)
       case RenameList(_, _) => true
       case DeleteList(_) => true
  }

  // ---------- The patches, on the client ----------

  function Without(rs: seq<Reminder>, id: string): seq<Reminder> {
    if rs == [] then [] else (if rs[0].id != id then [rs[0]] else []) + Without(rs[1..], id)
  }

  function WithoutListEntries(rs: seq<Reminder>, listId: string): seq<Reminder> {
    if rs == [] then [] else (if rs[0].listId != listId then [rs[0]] else []) + WithoutListEntries(rs[1..], listId)
  }

  function Renamed(rs: seq<Reminder>, listId: string, name: string): seq<Reminder> {
    seq(|rs|, k requires 0 <= k < |rs| => if rs[k].listId == listId then rs[k].(listName := name) else rs[k])
  }

  function ItemApplied(rs: seq<Reminder>, item: ListItem, listId: string, listName: string, today: int): seq<Reminder> {
    var next := ToReminder(item, listId, listName, today);
    Without(rs, EntryId(item.id)) + if next.Some? then [next.value] else []
  }

  function AppliedTo(c: Cache, dashboard: string, item: ListItem, listId: string, listName: string, today: int): Cache {
    map d | d in c :: if d == dashboard then ItemApplied(c[d], item, listId, listName, today) else c[d]
  }

  function ItemRemoved(c: Cache, itemId: string): Cache {
    map d | d in c :: Without(c[d], EntryId(itemId))
  }

  function ListRenamed(c: Cache, listId: string, name: string): Cache {
    map d | d in c :: Renamed(c[d], listId, name)
  }

  function ListRemoved(c: Cache, listId: string): Cache {
    map d | d in c :: WithoutListEntries(c[d], listId)
  }

  /** What the client's cached detail of a list says of it; a list never loaded, or trashed, has none. */
  datatype Detail = Detail(dashboard: string, name: string)

  type Details = map<string, Detail>

  function DetailOf(l: ItemList): Detail {
    Detail(l.dashboard, l.name)
  }

  /** The details as the lists have them. */
  function DetailsOf(w: World): Details {
    if w == [] then map[] else DetailsOf(w[1..])[w[0].id := DetailOf(w[0])]
  }

  /** The patch a response makes; adds and updates read the cached detail of their list, or do nothing without it. */
  function Patched(c: Cache, m: Mutation, details: Details, today: int): Cache {
    match m
    case AddItem(listId, item) => ItemPatched(c, listId, item, details, today)
    case UpdateItem(listId, item) => ItemPatched(c, listId, item, details, today)
    case DeleteItem(_, itemId) => ItemRemoved(c, itemId)
    case RenameList(listId, name) => ListRenamed(c, listId, name)
    case DeleteList(listId) => ListRemoved(c, listId)
  }

  function ItemPatched(c: Cache, listId: string, item: ListItem, details: Details, today: int): Cache {
    if listId in details then AppliedTo(c, details[listId].dashboard, item, listId, details[listId].name, today) else c
  }

  /** What it does to the details. */
  function DetailsAfter(details: Details, m: Mutation): Details {
    match m
    case RenameList(listId, name) =>
      if listId in details then details[listId := details[listId].(name := name)] else details
    case DeleteList(listId) => details - {listId}
    case _ => details
  }

  method DropEntry(rs: seq<Reminder>, id: string) returns (kept: seq<Reminder>)
    ensures kept == Without(rs, id)
  {
    kept := [];
    ghost var rest := Without(rs, id);
    for k := 0 to |rs|
      invariant kept + rest == Without(rs, id) && rest == Without(rs[k..], id)
    {
      assert rs[k..][0] == rs[k] && rs[k..][1..] == rs[k + 1..];
      rest := Without(rs[k + 1..], id);
      if rs[k].id != id {
        kept := kept + [rs[k]];
      }
    }
  }

  method DropListEntries(rs: seq<Reminder>, listId: string) returns (kept: seq<Reminder>)
    ensures kept == WithoutListEntries(rs, listId)
  {
    kept := [];
    ghost var rest := WithoutListEntries(rs, listId);
    for k := 0 to |rs|
      invariant kept + rest == WithoutListEntries(rs, listId) && rest == WithoutListEntries(rs[k..], listId)
    {
      assert rs[k..][0] == rs[k] && rs[k..][1..] == rs[k + 1..];
      rest := WithoutListEntries(rs[k + 1..], listId);
      if rs[k].listId != listId {
        kept := kept + [rs[k]];
      }
    }
  }

  method RenameEntries(rs: seq<Reminder>, listId: string, name: string) returns (entries: seq<Reminder>)
    ensures entries == Renamed(rs, listId, name)
  {
    entries := [];
    for k := 0 to |rs|
      invariant |entries| == k && forall j :: 0 <= j < k ==> entries[j] == Renamed(rs, listId, name)[j]
    {
      entries := entries + [if rs[k].listId == listId then rs[k].(listName := name) else rs[k]];
    }
  }

  /** The item's reminder is gone, every other is still there, and none has become two. */
  ghost predicate LostItem(before: seq<Reminder>, after: seq<Reminder>, itemId: string) {
    && (forall r :: r in after <==> r in before && r.id != EntryId(itemId))
    && (DistinctIds(before) ==> DistinctIds(after))
  }

  ghost predicate LostList(before: seq<Reminder>, after: seq<Reminder>, listId: string) {
    && (forall r :: r in after <==> r in before && r.listId != listId)
    && (DistinctIds(before) ==> DistinctIds(after))
  }

  /** The list's reminders carry the name, in their places; every other is as it was. */
  ghost predicate TookName(before: seq<Reminder>, after: seq<Reminder>, listId: string, name: string) {
    && |after| == |before|
    && (forall k :: 0 <= k < |after| ==> after[k].id == before[k].id && after[k].listId == before[k].listId)
    && (forall r :: r in after && r.listId == listId ==> r.listName == name)
    && (forall r: Reminder :: r.listId != listId ==> (r in after <==> r in before))
  }

  lemma RenamedTookName(rs: seq<Reminder>, listId: string, name: string)
    ensures TookName(rs, Renamed(rs, listId, name), listId, name)
  {
    forall r: Reminder | r in rs && r.listId != listId ensures r in Renamed(rs, listId, name) {
      var k :| 0 <= k < |rs| && rs[k] == r;
      assert Renamed(rs, listId, name)[k] == r;
    }
  }

  /** The shared reminders query, and the cached list details its patches read, changed in place. */
  class AgendaReminders {
    var data: Cache
    var details: Details

    /** One dashboard loses the item's old reminder, and has one of it as it is now when it is due. */
    method ApplyAgendaItemUpdate(dashboard: string, item: ListItem, listId: string, listName: string, today: int)
      modifies this`data
      ensures data == AppliedTo(old(data), dashboard, item, listId, listName, today)
      ensures data.Keys == old(data).Keys && forall d :: d in data && d != dashboard ==> data[d] == old(data)[d]
      ensures dashboard in data ==>
                forall r :: r in data[dashboard] <==>
                              || (r in old(data)[dashboard] && r.id != "reminder:" + item.id)
                              || RemindsOf(r, item, listId, listName, today)
    {
      hide Without, RemindsOf, ToReminder;
      if dashboard in data {
        WithoutAre(data[dashboard], EntryId(item.id));
        forall r
          ensures ToReminder(item, listId, listName, today) == Some(r) <==> RemindsOf(r, item, listId, listName, today)
        {
          RemindsOfIff(r, item, listId, listName, today);
        }
      }
      if dashboard in data {
        data := data[dashboard := ItemApplied(data[dashboard], item, listId, listName, today)];
      }
    }

    /** Every dashboard keeps its other reminders, in order, and has none of the item. */
    method RemoveAgendaItem(itemId: string)
      modifies this`data
      ensures data == ItemRemoved(old(data), itemId)
      ensures data.Keys == old(data).Keys && forall d :: d in data ==> LostItem(old(data)[d], data[d], itemId)
    {
      hide Without, DistinctIds;
      var scopes := data.Keys;
      while scopes != {}
        invariant scopes <= data.Keys == old(data).Keys
        invariant forall d :: d in data ==>
                    data[d] == if d in scopes then old(data)[d] else Without(old(data)[d], EntryId(itemId))
        decreases |scopes|
      {
        var d :| d in scopes;
        var kept := DropEntry(data[d], EntryId(itemId));
        data, scopes := data[d := kept], scopes - {d};
      }
      forall d | d in data ensures LostItem(old(data)[d], data[d], itemId) {
        WithoutAre(old(data)[d], EntryId(itemId));
      }
    }

    /** The list's reminders all carry the new name; everything else is as it was, in the same places. */
    method RenameAgendaListEntries(listId: string, listName: string)
      modifies this`data
      ensures data == ListRenamed(old(data), listId, listName)
      ensures data.Keys == old(data).Keys && forall d :: d in data ==> TookName(old(data)[d], data[d], listId, listName)
    {
      hide Renamed, TookName;
      var scopes := data.Keys;
      while scopes != {}
        invariant scopes <= data.Keys == old(data).Keys
        invariant forall d :: d in data ==>
                    data[d] == if d in scopes then old(data)[d] else Renamed(old(data)[d], listId, listName)
        decreases |scopes|
      {
        var d :| d in scopes;
        var entries := RenameEntries(data[d], listId, listName);
        data, scopes := data[d := entries], scopes - {d};
      }
      forall d | d in data ensures TookName(old(data)[d], data[d], listId, listName) {
        RenamedTookName(old(data)[d], listId, listName);
      }
    }

    /** Every dashboard keeps its other reminders, in order, and has none of the list. */
    method RemoveAgendaItemsForList(listId: string)
      modifies this`data
      ensures data == ListRemoved(old(data), listId)
      ensures data.Keys == old(data).Keys && forall d :: d in data ==> LostList(old(data)[d], data[d], listId)
    {
      hide WithoutListEntries, DistinctIds;
      var scopes := data.Keys;
      while scopes != {}
        invariant scopes <= data.Keys == old(data).Keys
        invariant forall d :: d in data ==>
                    data[d] == if d in scopes then old(data)[d] else WithoutListEntries(old(data)[d], listId)
        decreases |scopes|
      {
        var d :| d in scopes;
        var kept := DropListEntries(data[d], listId);
        data, scopes := data[d := kept], scopes - {d};
      }
      forall d | d in data ensures LostList(old(data)[d], data[d], listId) {
        WithoutListEntriesAre(old(data)[d], listId);
      }
    }

    /** What the response to a successful mutation does. */
    method OnMutation(m: Mutation, today: int)
      modifies this
      ensures data == Patched(old(data), m, old(details), today) && details == DetailsAfter(old(details), m)
      ensures data.Keys == old(data).Keys
      ensures m.DeleteItem? ==> forall d :: d in data ==> LostItem(old(data)[d], data[d], m.itemId)
      ensures m.RenameList? ==> forall d :: d in data ==> TookName(old(data)[d], data[d], m.listId, m.name)
      ensures m.DeleteList? ==> forall d :: d in data ==> LostList(old(data)[d], data[d], m.listId)
      ensures (m.AddItem? || m.UpdateItem?) && m.listId in old(details) ==>
                var detail := old(details)[m.listId];
                && (forall d :: d in data && d != detail.dashboard ==> data[d] == old(data)[d])
                && (detail.dashboard in data ==>
                      forall r :: r in data[detail.dashboard] <==>
                                    || (r in old(data)[detail.dashboard] && r.id != "reminder:" + m.item.id)
                                    || RemindsOf(r, m.item, m.listId, detail.name, today))
      ensures (m.AddItem? || m.UpdateItem?) && m.listId !in old(details) ==> data == old(data)
      ensures m.DeleteList? ==> details == old(details) - {m.listId}
      ensures m.RenameList? ==>
                && details.Keys == old(details).Keys
                && forall l :: l in details ==>
                     details[l] == if l == m.listId then Detail(old(details)[l].dashboard, m.name) else old(details)[l]
      ensures !m.RenameList? && !m.DeleteList? ==> details == old(details)
    {
      hide LostItem, LostList, TookName, RemindsOf;
      match m
      case AddItem(listId, item) => PatchFromDetail(listId, item, today);
      case UpdateItem(listId, item) => PatchFromDetail(listId, item, today);
      case DeleteItem(_, itemId) => RemoveAgendaItem(itemId);
      case RenameList(listId, name) =>
        if listId in details {
          details := details[listId := details[listId].(name := name)];
        }
        RenameAgendaListEntries(listId, name);
      case DeleteList(listId) =>
        details := details - {listId};
        RemoveAgendaItemsForList(listId);
    }

    /** `patchAgendaFromListDetail`. */
    method PatchFromDetail(listId: string, item: ListItem, today: int)
      modifies this`data
      ensures data == ItemPatched(old(data), listId, item, details, today)
      ensures listId !in details ==> data == old(data)
      ensures listId in details ==>
                && data.Keys == old(data).Keys
                && (forall d :: d in data && d != details[listId].dashboard ==> data[d] == old(data)[d])
                && (details[listId].dashboard in data ==>
                      forall r :: r in data[details[listId].dashboard] <==>
                                    || (r in old(data)[details[listId].dashboard] && r.id != "reminder:" + item.id)
                                    || RemindsOf(r, item, listId, details[listId].name, today))
    {
      hide RemindsOf;
      if listId !in details {
        return;
      }
      ApplyAgendaItemUpdate(details[listId].dashboard, item, listId, details[listId].name, today);
    }
  }

  // ---------- Patching is refetching ----------

  /** Cached reminders have distinct ids and are exactly the due ones. */
  ghost predicate Faithful(w: World, c: Cache, today: int) {
    forall d :: d in c ==> DistinctIds(c[d]) && forall r :: r in c[d] <==> Due(w, d, today, r)
  }

  lemma {:induction false} WithoutAre(rs: seq<Reminder>, id: string)
    ensures forall r :: r in Without(rs, id) <==> r in rs && r.id != id
    ensures DistinctIds(rs) ==> DistinctIds(Without(rs, id))
  {
    if rs != [] {
      WithoutAre(rs[1..], id);
      assert rs == [rs[0]] + rs[1..];
      var rest := Without(rs[1..], id);
      if DistinctIds(rs) {
        assert DistinctIds(rs[1..]);
        forall r, s | r in [rs[0]] && s in rest ensures r.id != s.id {
          var k :| 0 <= k < |rs[1..]| && rs[1..][k] == s;
          assert rs[0].id != rs[k + 1].id;
        }
        DistinctConcat([rs[0]], rest);
        DistinctConcat([], rest);
      }
    }
  }

  lemma {:induction false} WithoutListEntriesAre(rs: seq<Reminder>, listId: string)
    ensures forall r :: r in WithoutListEntries(rs, listId) <==> r in rs && r.listId != listId
    ensures DistinctIds(rs) ==> DistinctIds(WithoutListEntries(rs, listId))
  {
    if rs != [] {
      WithoutListEntriesAre(rs[1..], listId);
      assert rs == [rs[0]] + rs[1..];
      var rest := WithoutListEntries(rs[1..], listId);
      if DistinctIds(rs) {
        assert DistinctIds(rs[1..]);
        forall r, s | r in [rs[0]] && s in rest ensures r.id != s.id {
          var k :| 0 <= k < |rs[1..]| && rs[1..][k] == s;
          assert rs[0].id != rs[k + 1].id;
        }
        DistinctConcat([rs[0]], rest);
        DistinctConcat([], rest);
      }
    }
  }

  lemma {:induction false} WithoutItemAre(items: seq<ListItem>, itemId: string)
    ensures forall x :: x in WithoutItem(items, itemId) <==> x in items && x.id != itemId
  {
    if items != [] {
      WithoutItemAre(items[1..], itemId);
      assert items == [items[0]] + items[1..];
    }
  }

  lemma {:induction false} WithoutItemStaysDistinct(items: seq<ListItem>, itemId: string)
    requires DistinctItems(items)
    ensures DistinctItems(WithoutItem(items, itemId))
  {
    if items != [] {
      WithoutItemStaysDistinct(items[1..], itemId);
      WithoutItemAre(items[1..], itemId);
      var rest := WithoutItem(items[1..], itemId);
      forall k | 0 <= k < |rest| ensures rest[k].id != items[0].id {
        assert rest[k] in items[1..];
        var j :| 0 <= j < |items[1..]| && items[1..][j] == rest[k];
        assert items[j + 1].id != items[0].id;
      }
    }
  }

  lemma {:induction false} WithoutListAt(w: World, listId: string, i: nat)
    requires HasList(w, listId, i) && forall k, k' :: 0 <= k < k' < |w| ==> w[k].id != w[k'].id
    ensures WithoutList(w, listId) == w[..i] + w[i + 1..]
  {
    if i == 0 {
      NoListToDrop(w[1..], listId);
    } else {
      WithoutListAt(w[1..], listId, i - 1);
      assert w[..i] == [w[0]] + w[1..][..i - 1];
      assert w[1..][i..] == w[i + 1..];
    }
  }

  lemma {:induction false} NoListToDrop(w: World, listId: string)
    requires forall k :: 0 <= k < |w| ==> w[k].id != listId
    ensures WithoutList(w, listId) == w
  {
    if w != [] {
      NoListToDrop(w[1..], listId);
    }
  }

  lemma ChangeIs(w: World, listId: string, f: ItemList -> ItemList, i: int)
    requires WellFormed(w) && HasList(w, listId, i)
    ensures Change(w, listId, f) == w[i := f(w[i])]
  {
    forall k | 0 <= k < |w| && k != i ensures w[k].id != listId {
    }
  }

  // ---------- One list's items change ----------

  /** `items'` is `items` with the entry `id` taken out and `extra` (under that id) put in. */
  ghost predicate Swapped(items: seq<ListItem>, items': seq<ListItem>, id: string, extra: seq<ListItem>) {
    && DistinctItems(items')
    && (forall x :: x in extra ==> x.id == id)
    && (forall y :: y in items' <==> (y in items && y.id != id) || y in extra)
  }

  /** Only this list may hold the id. */
  ghost predicate OnlyIn(w: World, id: string, i: int) {
    forall k, j :: HasItem(w, id, k, j) ==> k == i
  }

  lemma SwapKeepsWellFormed(w: World, i: int, items': seq<ListItem>, id: string, extra: seq<ListItem>)
    requires WellFormed(w) && 0 <= i < |w| && OnlyIn(w, id, i)
    requires Swapped(w[i].items, items', id, extra)
    ensures WellFormed(w[i := w[i].(items := items')])
  {
    var w' := w[i := w[i].(items := items')];
    forall k | 0 <= k < |w| && k != i ensures Unshared(items', w[k].items) && Unshared(w[k].items, items') {
      forall y, x | y in items' && x in w[k].items ensures y.id != x.id {
        var j :| 0 <= j < |w[k].items| && w[k].items[j] == x;
        if y in extra {
          assert x.id == id ==> HasItem(w, id, k, j);
        } else {
          assert Unshared(w[i].items, w[k].items);
        }
      }
    }
    forall k, k' | 0 <= k < |w| && 0 <= k' < |w| && k != k' ensures Unshared(w'[k].items, w'[k'].items) {
      assert Unshared(w[k].items, w[k'].items);
    }
  }

  lemma SwapChangesDue(w: World, i: int, items': seq<ListItem>, id: string, extra: seq<ListItem>,
                       d: string, today: int, r: Reminder)
    requires WellFormed(w) && 0 <= i < |w| && OnlyIn(w, id, i)
    requires Swapped(w[i].items, items', id, extra)
    ensures Due(w[i := w[i].(items := items')], d, today, r) <==>
            || (Due(w, d, today, r) && r.id != EntryId(id))
            || (d == w[i].dashboard && exists x :: x in extra && ToReminder(x, w[i].id, w[i].name, today) == Some(r))
  {
    var l := w[i];
    var w' := w[i := l.(items := items')];
    if k, j :| Source(w', d, today, r, k, j) {
      var y := w'[k].items[j];
      assert y in w'[k].items;
      if k != i {
        assert y.id == id ==> HasItem(w, id, k, j);
        assert Source(w, d, today, r, k, j);
        if r.id == EntryId(id) {
          EntryIdIsInjective(y.id, id);
        }
      } else if y !in extra {
        var j' :| 0 <= j' < |l.items| && l.items[j'] == y;
        assert Source(w, d, today, r, i, j');
        if r.id == EntryId(id) {
          EntryIdIsInjective(y.id, id);
        }
      }
    }
    if k, j :| Source(w, d, today, r, k, j) && r.id != EntryId(id) {
      var y := w[k].items[j];
      if k == i {
        assert y in items';
        var j' :| 0 <= j' < |items'| && items'[j'] == y;
        assert Source(w', d, today, r, i, j');
      } else {
        assert Source(w', d, today, r, k, j);
      }
    }
    if x :| d == l.dashboard && x in extra && ToReminder(x, l.id, l.name, today) == Some(r) {
      assert x in items';
      var j' :| 0 <= j' < |items'| && items'[j'] == x;
      assert Source(w', d, today, r, i, j');
    }
  }

  lemma PutIsSwap(items: seq<ListItem>, x: ListItem, j: int)
    requires DistinctItems(items) && 0 <= j < |items| && items[j].id == x.id
    ensures Swapped(items, PutItem(items, x), x.id, [x])
  {
    var items' := PutItem(items, x);
    assert items'[j] == x;
    forall y ensures y in items' <==> (y in items && y.id != x.id) || y in [x] {
      if y in items' {
        var k :| 0 <= k < |items| && items'[k] == y;
      }
      if y in items && y.id != x.id {
        var k :| 0 <= k < |items| && items[k] == y;
        assert items'[k] == y;
      }
    }
  }

  lemma AppendIsSwap(items: seq<ListItem>, x: ListItem)
    requires DistinctItems(items) && forall y :: y in items ==> y.id != x.id
    ensures Swapped(items, items + [x], x.id, [x])
  {
  }

  lemma RemoveIsSwap(items: seq<ListItem>, id: string)
    requires DistinctItems(items)
    ensures Swapped(items, WithoutItem(items, id), id, [])
  {
    WithoutItemAre(items, id);
    WithoutItemStaysDistinct(items, id);
  }

  lemma OneItemHome(w: World, id: string, i: int, j: int)
    requires WellFormed(w) && HasItem(w, id, i, j)
    ensures OnlyIn(w, id, i)
  {
    forall k, j' | HasItem(w, id, k, j') ensures k == i {
    }
  }

  // ---------- Each mutation ----------

  lemma ItemAppliedIsFaithful(w: World, c: Cache, i: int, items': seq<ListItem>, x: ListItem, today: int)
    requires WellFormed(w) && Faithful(w, c, today) && 0 <= i < |w| && OnlyIn(w, x.id, i)
    requires Swapped(w[i].items, items', x.id, [x])
    ensures Faithful(w[i := w[i].(items := items')],
                     AppliedTo(c, w[i].dashboard, x, w[i].id, w[i].name, today), today)
  {
    hide Swapped, OnlyIn, ToReminder, Due, EntryId;
    var l := w[i];
    var w' := w[i := l.(items := items')];
    var next := ToReminder(x, l.id, l.name, today);
    forall d | d in c
      ensures var rs := if d == l.dashboard then ItemApplied(c[d], x, l.id, l.name, today) else c[d];
              DistinctIds(rs) && forall r :: r in rs <==> Due(w', d, today, r)
    {
      WithoutAre(c[d], EntryId(x.id));
      ReminderIsNamed(x, l.id, l.name, today);
      if d == l.dashboard {
        var kept := Without(c[d], EntryId(x.id));
        var extra := if next.Some? then [next.value] else [];
        assert forall s :: s in extra ==> s.id == EntryId(x.id);
        DistinctConcat(kept, extra);
        forall r ensures r in ItemApplied(c[d], x, l.id, l.name, today) <==> Due(w', d, today, r) {
          SwapChangesDue(w, i, items', x.id, [x], d, today, r);
          assert forall y :: y in [x] <==> y == x;
        }
      } else {
        forall r ensures r in c[d] <==> Due(w', d, today, r) {
          SwapChangesDue(w, i, items', x.id, [x], d, today, r);
          if Due(w, d, today, r) {
            ElsewhereHasNoSuchId(w, i, x.id, d, today, r);
          }
        }
      }
    }
  }

  lemma ReminderIsNamed(x: ListItem, listId: string, listName: string, today: int)
    ensures ToReminder(x, listId, listName, today).Some? ==>
              ToReminder(x, listId, listName, today).value.id == EntryId(x.id)
  {
  }

  /** No other dashboard has a reminder of an item that only this list may hold. */
  lemma ElsewhereHasNoSuchId(w: World, i: int, id: string, d: string, today: int, r: Reminder)
    requires 0 <= i < |w| && OnlyIn(w, id, i) && d != w[i].dashboard && Due(w, d, today, r)
    ensures r.id != EntryId(id)
  {
    var k, j :| Source(w, d, today, r, k, j);
    if r.id == EntryId(id) {
      EntryIdIsInjective(w[k].items[j].id, id);
      assert HasItem(w, id, k, j);
    }
  }

  lemma ItemRemovedIsFaithful(w: World, c: Cache, i: int, items': seq<ListItem>, id: string, today: int)
    requires WellFormed(w) && Faithful(w, c, today) && 0 <= i < |w| && OnlyIn(w, id, i)
    requires Swapped(w[i].items, items', id, [])
    ensures Faithful(w[i := w[i].(items := items')], ItemRemoved(c, id), today)
  {
    hide Swapped, OnlyIn, Due, EntryId;
    var w' := w[i := w[i].(items := items')];
    var c' := ItemRemoved(c, id);
    forall d | d in c'
      ensures DistinctIds(c'[d]) && forall r :: r in c'[d] <==> Due(w', d, today, r)
    {
      WithoutAre(c[d], EntryId(id));
      forall r ensures r in c'[d] <==> Due(w', d, today, r) {
        SwapChangesDue(w, i, items', id, [], d, today, r);
      }
    }
  }

  function Rename(r: Reminder, listId: string, name: string): Reminder {
    if r.listId == listId then r.(listName := name) else r
  }

  lemma RenameChangesDue(w: World, i: int, name: string, d: string, today: int, r: Reminder)
    requires WellFormed(w) && 0 <= i < |w|
    ensures Due(w[i := w[i].(name := name)], d, today, r) <==>
            exists s :: Due(w, d, today, s) && Rename(s, w[i].id, name) == r
  {
    var l := w[i];
    var w' := w[i := l.(name := name)];
    if k, j :| Source(w', d, today, r, k, j) {
      var s := ToReminder(w[k].items[j], w[k].id, w[k].name, today).value;
      assert Source(w, d, today, s, k, j);
      assert k != i ==> w[k].id != l.id;
      assert Rename(s, l.id, name) == r;
    }
    if s :| Due(w, d, today, s) && Rename(s, l.id, name) == r {
      var k, j :| Source(w, d, today, s, k, j);
      assert k != i ==> w[k].id != l.id;
      assert Source(w', d, today, r, k, j);
    }
  }

  lemma ListRenamedIsFaithful(w: World, c: Cache, i: int, name: string, today: int)
    requires WellFormed(w) && Faithful(w, c, today) && 0 <= i < |w|
    ensures Faithful(w[i := w[i].(name := name)], ListRenamed(c, w[i].id, name), today)
  {
    hide Due, WellFormed;
    var w' := w[i := w[i].(name := name)];
    forall d | d in c
      ensures DistinctIds(Renamed(c[d], w[i].id, name)) &&
              forall r :: r in Renamed(c[d], w[i].id, name) <==> Due(w', d, today, r)
    {
      var rs := Renamed(c[d], w[i].id, name);
      forall r ensures r in rs <==> Due(w', d, today, r) {
        RenameChangesDue(w, i, name, d, today, r);
        if r in rs {
          var k :| 0 <= k < |rs| && rs[k] == r;
          assert c[d][k] in c[d] && Rename(c[d][k], w[i].id, name) == r;
        }
        if s :| Due(w, d, today, s) && Rename(s, w[i].id, name) == r {
          assert s in c[d];
          var k :| 0 <= k < |c[d]| && c[d][k] == s;
          assert rs[k] == r;
        }
      }
    }
  }

  lemma DropChangesDue(w: World, i: int, d: string, today: int, r: Reminder)
    requires WellFormed(w) && 0 <= i < |w|
    ensures Due(w[..i] + w[i + 1..], d, today, r) <==> Due(w, d, today, r) && r.listId != w[i].id
  {
    var w' := w[..i] + w[i + 1..];
    if k, j :| Source(w', d, today, r, k, j) {
      var k' := if k < i then k else k + 1;
      assert w'[k] == w[k'] && Source(w, d, today, r, k', j);
    }
    if k, j :| Source(w, d, today, r, k, j) && r.listId != w[i].id {
      var k' := if k < i then k else k - 1;
      assert w'[k'] == w[k] && Source(w', d, today, r, k', j);
    }
  }

  lemma ListDroppedIsFaithful(w: World, c: Cache, i: int, today: int)
    requires WellFormed(w) && Faithful(w, c, today) && 0 <= i < |w|
    ensures WellFormed(w[..i] + w[i + 1..])
    ensures Faithful(w[..i] + w[i + 1..], ListRemoved(c, w[i].id), today)
  {
    DropKeepsWellFormed(w, i);
    hide Due, WellFormed;
    var w', c' := w[..i] + w[i + 1..], ListRemoved(c, w[i].id);
    forall d | d in c'
      ensures DistinctIds(c'[d]) && forall r :: r in c'[d] <==> Due(w', d, today, r)
    {
      WithoutListEntriesAre(c[d], w[i].id);
      forall r ensures r in c'[d] <==> Due(w', d, today, r) {
        DropChangesDue(w, i, d, today, r);
      }
    }
  }

  lemma DropKeepsWellFormed(w: World, i: int)
    requires WellFormed(w) && 0 <= i < |w|
    ensures WellFormed(w[..i] + w[i + 1..])
  {
    var w' := w[..i] + w[i + 1..];
    assert forall k :: 0 <= k < |w'| ==> w'[k] == w[if k < i then k else k + 1];
    forall k, k' | 0 <= k < |w'| && 0 <= k' < |w'| && k != k' ensures Unshared(w'[k].items, w'[k'].items) {
      assert Unshared(w[if k < i then k else k + 1].items, w[if k' < i then k' else k' + 1].items);
    }
  }

  lemma RenameKeepsWellFormed(w: World, i: int, name: string)
    requires WellFormed(w) && 0 <= i < |w|
    ensures WellFormed(w[i := w[i].(name := name)])
  {
    var w' := w[i := w[i].(name := name)];
    assert forall k :: 0 <= k < |w| ==> w'[k].id == w[k].id && w'[k].items == w[k].items;
    forall k, k' | 0 <= k < |w'| && 0 <= k' < |w'| && k != k' ensures Unshared(w'[k].items, w'[k'].items) {
      assert Unshared(w[k].items, w[k'].items);
    }
  }

  /** One accepted mutation, patched on the client, leaves the cache faithful to the new lists. */
  lemma PatchKeepsFaithful(w: World, c: Cache, m: Mutation, i: int, details: Details, today: int)
    requires WellFormed(w) && Faithful(w, c, today) && Accepted(w, m, i)
    requires m.listId in details && details[m.listId] == DetailOf(w[i])
    ensures WellFormed(Mutated(w, m)) && Faithful(Mutated(w, m), Patched(c, m, details, today), today)
  {
    hide Faithful, WellFormed, Swapped, PutItem, WithoutItem, ItemApplied, WithoutList, DistinctItems;
    var items := w[i].items;
    assert DistinctItems(items) by { ListIsDistinct(w, i); }
    match m
    case AddItem(listId, item) =>
      ChangeIs(w, listId, (l: ItemList) => l.(items := l.items + [item]), i);
      forall y | y in items ensures y.id != item.id {
        var j :| 0 <= j < |items| && items[j] == y;
        assert !HasItem(w, item.id, i, j);
      }
      AppendIsSwap(items, item);
      SwapKeepsWellFormed(w, i, items + [item], item.id, [item]);
      ItemAppliedIsFaithful(w, c, i, items + [item], item, today);
    case UpdateItem(listId, item) =>
      ChangeIs(w, listId, (l: ItemList) => l.(items := PutItem(l.items, item)), i);
      var j :| HasItem(w, item.id, i, j);
      OneItemHome(w, item.id, i, j);
      PutIsSwap(items, item, j);
      SwapKeepsWellFormed(w, i, PutItem(items, item), item.id, [item]);
      ItemAppliedIsFaithful(w, c, i, PutItem(items, item), item, today);
    case DeleteItem(listId, itemId) =>
      ChangeIs(w, listId, (l: ItemList) => l.(items := WithoutItem(l.items, itemId)), i);
      var j :| HasItem(w, itemId, i, j);
      OneItemHome(w, itemId, i, j);
      RemoveIsSwap(items, itemId);
      SwapKeepsWellFormed(w, i, WithoutItem(items, itemId), itemId, []);
      ItemRemovedIsFaithful(w, c, i, WithoutItem(items, itemId), itemId, today);
    case RenameList(listId, name) =>
      ChangeIs(w, listId, (l: ItemList) => l.(name := name), i);
      RenameKeepsWellFormed(w, i, name);
      ListRenamedIsFaithful(w, c, i, name, today);
    case DeleteList(listId) =>
      ListIdsAreDistinct(w);
      WithoutListAt(w, listId, i);
      ListDroppedIsFaithful(w, c, i, today);
  }

  lemma ListIsDistinct(w: World, i: int)
    requires WellFormed(w) && 0 <= i < |w|
    ensures DistinctItems(w[i].items)
  {
  }

  lemma ListIdsAreDistinct(w: World)
    requires WellFormed(w)
    ensures forall k, k' :: 0 <= k < k' < |w| ==> w[k].id != w[k'].id
  {
  }

  /** A refetch starts a faithful day. */
  lemma RefetchIsFaithful(w: World, d: string, today: int)
    requires WellFormed(w)
    ensures Faithful(w, map[d := Refetched(w, d, today)], today)
  {
    RefetchedAreDistinct(w, d, today);
    forall r ensures r in Refetched(w, d, today) <==> Due(w, d, today, r) {
      RefetchedAre(w, d, today, r);
    }
  }
}
