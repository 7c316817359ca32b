/** Which mutations change what is due on a dashboard. */
module AgendaDue {
  import opened Wrappers
  import opened Agenda

  /** Two moments of the lists call for the same reminders on a dashboard. */
  ghost predicate SameDue(w: World, w': World, d: string, today: int) {
    forall r :: Due(w, d, today, r) <==> Due(w', d, today, r)
  }

  ghost predicate HasReminder(l: ItemList, id: string, today: int) {
    exists j :: 0 <= j < |l.items| && l.items[j].id == id && ToReminder(l.items[j], l.id, l.name, today).Some?
  }

  ghost predicate HasReminders(l: ItemList, today: int) {
    exists j :: 0 <= j < |l.items| && ToReminder(l.items[j], l.id, l.name, today).Some?
  }

  ghost predicate HasSameReminder(l: ItemList, item: ListItem, today: int) {
    exists j ::
      && 0 <= j < |l.items| && l.items[j].id == item.id
      && ToReminder(l.items[j], l.id, l.name, today) == ToReminder(item, l.id, l.name, today)
  }

  /** A mutation of the i-th list changes what is due on a dashboard. */
  ghost predicate Touches(w: World, m: Mutation, i: int, d: string, today: int)
    requires 0 <= i < |w|
  {
    && w[i].dashboard == d
    && match m
       case AddItem(_, item) => ToReminder(item, w[i].id, w[i].name, today).Some?
       case UpdateItem(_, item) => !HasSameReminder(w[i], item, today)
       case DeleteItem(_, itemId) => HasReminder(w[i], itemId, today)
       case RenameList(_, name) => name != w[i].name && HasReminders(w[i], today)
       case DeleteList(_) => HasReminders(w[i], today)
  }

  /** The reminder, if any, that the entries with an id call for. */
  ghost predicate CallsFor(items: seq<ListItem>, l: ItemList, id: string, today: int, r: Reminder) {
    exists j :: 0 <= j < |items| && items[j].id == id && ToReminder(items[j], l.id, l.name, today) == Some(r)
  }

  lemma DueOfItem(w: World, i: int, id: string, d: string, today: int, r: Reminder)
    requires 0 <= i < |w| && OnlyIn(w, id, i) && r.id == EntryId(id)
    ensures Due(w, d, today, r) <==> d == w[i].dashboard && CallsFor(w[i].items, w[i], id, today, r)
  {
    if k, j :| Source(w, d, today, r, k, j) {
      EntryIdIsInjective(w[k].items[j].id, id);
      assert HasItem(w, id, k, j);
    }
    if d == w[i].dashboard && CallsFor(w[i].items, w[i], id, today, r) {
      var j :| 0 <= j < |w[i].items| && w[i].items[j].id == id
               && ToReminder(w[i].items[j], w[i].id, w[i].name, today) == Some(r);
      assert Source(w, d, today, r, i, j);
    }
  }

  /** Swapping an item's entry changes nothing due exactly when old and new call for the same reminder. */
  lemma SwapKeepsDueIff(w: World, i: int, items': seq<ListItem>, id: string, extra: seq<ListItem>, d: string, today: int)
    requires WellFormed(w) && 0 <= i < |w| && OnlyIn(w, id, i) && Swapped(w[i].items, items', id, extra)
    ensures SameDue(w, w[i := w[i].(items := items')], d, today)
            <==> (d == w[i].dashboard ==>
                    forall r :: CallsFor(w[i].items, w[i], id, today, r) <==> CallsFor(extra, w[i], id, today, r))
  {
    hide Due, WellFormed, OnlyIn, Swapped, CallsFor, EntryId;
    var l := w[i];
    var w' := w[i := l.(items := items')];
    forall r: Reminder
      ensures r.id != EntryId(id) ==> (Due(w, d, today, r) <==> Due(w', d, today, r))
      ensures r.id == EntryId(id) ==>
                && (Due(w, d, today, r) <==> d == l.dashboard && CallsFor(l.items, l, id, today, r))
                && (Due(w', d, today, r) <==> d == l.dashboard && CallsFor(extra, l, id, today, r))
      ensures CallsFor(l.items, l, id, today, r) || CallsFor(extra, l, id, today, r) ==> r.id == EntryId(id)
    {
      SwapChangesDue(w, i, items', id, extra, d, today, r);
      CalledIsNamed(l.items, l, id, today, r);
      CalledIsNamed(extra, l, id, today, r);
      ExtraCalls(l.items, items', l, id, extra, today, r);
      if r.id == EntryId(id) {
        DueOfItem(w, i, id, d, today, r);
      }
    }
  }

  lemma CalledIsNamed(items: seq<ListItem>, l: ItemList, id: string, today: int, r: Reminder)
    ensures CallsFor(items, l, id, today, r) ==> r.id == EntryId(id)
  {
  }

  lemma ExtraCalls(items: seq<ListItem>, items': seq<ListItem>, l: ItemList, id: string, extra: seq<ListItem>,
                   today: int, r: Reminder)
    requires Swapped(items, items', id, extra)
    ensures CallsFor(extra, l, id, today, r) <==> exists x :: x in extra && ToReminder(x, l.id, l.name, today) == Some(r)
  {
    if x :| x in extra && ToReminder(x, l.id, l.name, today) == Some(r) {
      var j :| 0 <= j < |extra| && extra[j] == x;
    }
    if CallsFor(extra, l, id, today, r) {
      var j :| 0 <= j < |extra| && extra[j].id == id && ToReminder(extra[j], l.id, l.name, today) == Some(r);
      assert extra[j] in extra;
    }
  }

  lemma DueOfList(w: World, i: int, d: string, today: int)
    requires WellFormed(w) && 0 <= i < |w|
    ensures (exists r :: Due(w, d, today, r) && r.listId == w[i].id) <==> d == w[i].dashboard && HasReminders(w[i], today)
  {
    if r :| Due(w, d, today, r) && r.listId == w[i].id {
      var k, j :| Source(w, d, today, r, k, j);
      assert k == i;
    }
    if d == w[i].dashboard && HasReminders(w[i], today) {
      var j :| 0 <= j < |w[i].items| && ToReminder(w[i].items[j], w[i].id, w[i].name, today).Some?;
      var r := ToReminder(w[i].items[j], w[i].id, w[i].name, today).value;
      assert Source(w, d, today, r, i, j);
      assert Due(w, d, today, r) && r.listId == w[i].id;
    }
  }

  lemma RenameKeepsDueIff(w: World, i: int, name: string, d: string, today: int)
    requires WellFormed(w) && 0 <= i < |w|
    ensures SameDue(w, w[i := w[i].(name := name)], d, today)
            <==> !(d == w[i].dashboard && name != w[i].name && HasReminders(w[i], today))
  {
    hide HasReminders;
    var w' := w[i := w[i].(name := name)];
    DueOfList(w, i, d, today);
    if name == w[i].name {
      assert w' == w;
    } else if r :| Due(w, d, today, r) && r.listId == w[i].id {
      RenameChangesDue(w, i, name, d, today, r);
      DueCarriesName(w, i, d, today, r);
      assert !Due(w', d, today, r);
    } else {
      forall r ensures Due(w, d, today, r) <==> Due(w', d, today, r) {
        RenameChangesDue(w, i, name, d, today, r);
        assert Due(w, d, today, r) ==> Rename(r, w[i].id, name) == r;
      }
    }
  }

  lemma DueCarriesName(w: World, i: int, d: string, today: int, r: Reminder)
    requires WellFormed(w) && 0 <= i < |w| && Due(w, d, today, r) && r.listId == w[i].id
    ensures r.listName == w[i].name
  {
    var k, j :| Source(w, d, today, r, k, j);
    assert k == i;
  }

  lemma DropKeepsDueIff(w: World, i: int, d: string, today: int)
    requires WellFormed(w) && 0 <= i < |w|
    ensures SameDue(w, w[..i] + w[i + 1..], d, today) <==> !(d == w[i].dashboard && HasReminders(w[i], today))
  {
    hide Due, HasReminders, WellFormed;
    DueOfList(w, i, d, today);
    forall r ensures Due(w[..i] + w[i + 1..], d, today, r) <==> Due(w, d, today, r) && r.listId != w[i].id {
      DropChangesDue(w, i, d, today, r);
    }
  }

  lemma AddedTouches(items: seq<ListItem>, l: ItemList, item: ListItem, today: int)
    requires forall y :: y in items ==> y.id != item.id
    ensures (forall r :: CallsFor(items, l, item.id, today, r) <==> CallsFor([item], l, item.id, today, r))
            <==> ToReminder(item, l.id, l.name, today).None?
  {
    if ToReminder(item, l.id, l.name, today).Some? {
      var r := ToReminder(item, l.id, l.name, today).value;
      assert [item][0] == item;
      assert CallsFor([item], l, item.id, today, r);
      assert !CallsFor(items, l, item.id, today, r);
    }
  }

  lemma UpdatedTouches(l: ItemList, item: ListItem, j: int, today: int)
    requires DistinctItems(l.items) && 0 <= j < |l.items| && l.items[j].id == item.id
    ensures (forall r :: CallsFor(l.items, l, item.id, today, r) <==> CallsFor([item], l, item.id, today, r))
            <==> HasSameReminder(l, item, today)
  {
    var was, now := ToReminder(l.items[j], l.id, l.name, today), ToReminder(item, l.id, l.name, today);
    forall r
      ensures CallsFor(l.items, l, item.id, today, r) <==> was == Some(r)
      ensures CallsFor([item], l, item.id, today, r) <==> now == Some(r)
    {
      assert [item][0] == item;
    }
    assert was == now ==> HasSameReminder(l, item, today);
    if was != now {
      var r := if was.Some? then was.value else now.value;
      assert !(CallsFor(l.items, l, item.id, today, r) <==> CallsFor([item], l, item.id, today, r));
    }
  }

  lemma DeletedTouches(l: ItemList, id: string, today: int)
    ensures (forall r :: CallsFor(l.items, l, id, today, r) <==> CallsFor([], l, id, today, r))
            <==> !HasReminder(l, id, today)
  {
    if HasReminder(l, id, today) {
      var j :| 0 <= j < |l.items| && l.items[j].id == id && ToReminder(l.items[j], l.id, l.name, today).Some?;
      assert CallsFor(l.items, l, id, today, ToReminder(l.items[j], l.id, l.name, today).value);
    }
  }

  /** A mutation leaves what is due on a dashboard alone exactly when it does not touch it. */
  lemma MutationKeepsDueIff(w: World, m: Mutation, i: nat, d: string, today: int)
    requires WellFormed(w) && Accepted(w, m, i)
    ensures SameDue(w, Mutated(w, m), d, today) <==> !Touches(w, m, i, d, today)
  {
    hide WellFormed, Swapped, PutItem, WithoutItem, WithoutList, DistinctItems, SameDue, CallsFor, ToReminder,
         HasReminder, HasReminders, HasSameReminder, OnlyIn;
    var items := w[i].items;
    assert DistinctItems(items) by { ListIsDistinct(w, i); }
    match m
    case AddItem(listId, item) =>
      ChangeIs(w, listId, (l: ItemList) => l.(items := l.items + [item]), i);
      forall y | y in items ensures y.id != item.id {
        var j :| 0 <= j < |items| && items[j] == y;
        assert !HasItem(w, item.id, i, j);
      }
      NewItemHasNoHome(w, item.id, i);
      AppendIsSwap(items, item);
      SwapKeepsDueIff(w, i, items + [item], item.id, [item], d, today);
      AddedTouches(items, w[i], item, today);
    case UpdateItem(listId, item) =>
      ChangeIs(w, listId, (l: ItemList) => l.(items := PutItem(l.items, item)), i);
      var j :| HasItem(w, item.id, i, j);
      OneItemHome(w, item.id, i, j);
      PutIsSwap(items, item, j);
      SwapKeepsDueIff(w, i, PutItem(items, item), item.id, [item], d, today);
      UpdatedTouches(w[i], item, j, today);
    case DeleteItem(listId, itemId) =>
      ChangeIs(w, listId, (l: ItemList) => l.(items := WithoutItem(l.items, itemId)), i);
      var j :| HasItem(w, itemId, i, j);
      OneItemHome(w, itemId, i, j);
      RemoveIsSwap(items, itemId);
      SwapKeepsDueIff(w, i, WithoutItem(items, itemId), itemId, [], d, today);
      DeletedTouches(w[i], itemId, today);
    case RenameList(listId, name) =>
      ChangeIs(w, listId, (l: ItemList) => l.(name := name), i);
      RenameKeepsDueIff(w, i, name, d, today);
    case DeleteList(listId) =>
      ListIdsAreDistinct(w);
      WithoutListAt(w, listId, i);
      DropKeepsDueIff(w, i, d, today);
  }

  lemma NewItemHasNoHome(w: World, id: string, i: int)
    requires forall i', j :: !HasItem(w, id, i', j)
    ensures OnlyIn(w, id, i)
  {
  }
}
