/**
 The stored layout of one dashboard: what the write path accepts, the four requests that change it,
 and what every serialised run of them keeps. A refused request leaves the row as it was.
 */
module DashboardLayout {
  import opened Wrappers
  import opened Numbers
  import opened Grid

  const GRID := Board(24, 24)

  datatype LayoutItem = LayoutItem(i: string, x: int, y: int, w: int, h: int)

  function BoxOf(item: LayoutItem): Box {
    Box(item.x, item.y, item.w, item.h)
  }

  function Boxes(layout: seq<LayoutItem>): (r: seq<Box>)
    ensures |r| == |layout|
  {
    seq(|layout|, k requires 0 <= k < |layout| => BoxOf(layout[k]))
  }

  /** `minimum_widget_size`. */
  function MinimumSize(widgetType: string): Size {
    if widgetType == "calendar" then Size(8, 8) else Size(4, 4)
  }

  /** `_default_widget_size`. */
  function DefaultSize(widgetType: string): Size {
    if widgetType == "calendar" then Size(12, 8) else Size(4, 6)
  }

  // ---------- The validator ----------

  predicate InBounds(item: LayoutItem) {
    item.w >= 1 && item.h >= 1 && InGrid(BoxOf(item), GRID)
  }

  predicate Compatible(a: LayoutItem, b: LayoutItem) {
    a.i != b.i && !Clash(BoxOf(a), BoxOf(b))
  }

  /** In bounds, distinct ids, no two boxes overlapping. */
  predicate WellFormed(layout: seq<LayoutItem>) {
    && (forall a :: 0 <= a < |layout| ==> InBounds(layout[a]))
    && forall a, b :: 0 <= a < b < |layout| ==> Compatible(layout[a], layout[b])
  }

  /** What a stored layout must be, cell by cell: every box on the 24 by 24 board, ids distinct, no cell taken twice. */
  ghost predicate IsPossible(layout: seq<LayoutItem>) {
    && (forall a :: 0 <= a < |layout| ==>
          && layout[a].x >= 0 && layout[a].y >= 0 && layout[a].w >= 1 && layout[a].h >= 1
          && layout[a].x + layout[a].w <= 24 && layout[a].y + layout[a].h <= 24)
    && (forall a, b :: 0 <= a < b < |layout| ==> layout[a].i != layout[b].i)
    && forall a, b, x, y :: 0 <= a < b < |layout| ==> !(Takes(layout[a], x, y) && Takes(layout[b], x, y))
  }

  predicate Takes(item: LayoutItem, x: int, y: int) {
    item.x <= x < item.x + item.w && item.y <= y < item.y + item.h
  }

  lemma WellFormedIff(layout: seq<LayoutItem>)
    ensures WellFormed(layout) <==> IsPossible(layout)
  {
    hide Clash, Takes;
    if forall a :: 0 <= a < |layout| ==> layout[a].w >= 1 && layout[a].h >= 1 {
      forall a, b | 0 <= a < b < |layout|
        ensures Clash(BoxOf(layout[a]), BoxOf(layout[b])) <==> exists x, y :: Takes(layout[a], x, y) && Takes(layout[b], x, y)
      {
        ClashIffTaken(layout[a], layout[b]);
      }
    }
  }

  lemma ClashIffTaken(a: LayoutItem, b: LayoutItem)
    requires a.w >= 1 && a.h >= 1 && b.w >= 1 && b.h >= 1
    ensures Clash(BoxOf(a), BoxOf(b)) <==> exists x, y :: Takes(a, x, y) && Takes(b, x, y)
  {
    ClashIffShareCell(BoxOf(a), BoxOf(b));
    if x, y :| HasCell(BoxOf(a), x, y) && HasCell(BoxOf(b), x, y) {
      assert Takes(a, x, y) && Takes(b, x, y);
    }
    if x, y :| Takes(a, x, y) && Takes(b, x, y) {
      assert HasCell(BoxOf(a), x, y) && HasCell(BoxOf(b), x, y);
    }
  }

  datatype LayoutError = OutOfRange(i: string) | DoesNotFit(i: string) | Duplicate(i: string) | Overlap(other: string, i: string)

  /** The first entry, in order, that is impossible after the entries before it, and what is wrong with it. */
  ghost predicate FirstFault(layout: seq<LayoutItem>, k: int, e: LayoutError) {
    && 0 <= k < |layout|
    && WellFormed(layout[..k]) && !WellFormed(layout[..k + 1])
    && e.i == layout[k].i
    && match e
       case OutOfRange(_) => !InRangeCoordinates(layout[k])
       case DoesNotFit(_) => InRangeCoordinates(layout[k]) && !InBounds(layout[k])
       case Duplicate(i) => InBounds(layout[k]) && HasItem(layout[..k], i)
       case Overlap(other, i) =>
         && InBounds(layout[k]) && !HasItem(layout[..k], i)
         && exists a :: FirstClash(layout, k, a) && layout[a].i == other
  }

  predicate InRangeCoordinates(item: LayoutItem) {
    item.x >= 0 && item.y >= 0 && item.w >= 1 && item.h >= 1
  }

  predicate FirstClash(layout: seq<LayoutItem>, k: int, a: int)
    requires 0 <= k < |layout|
  {
    && 0 <= a < k && Clash(BoxOf(layout[k]), BoxOf(layout[a]))
    && forall b :: 0 <= b < a ==> !Clash(BoxOf(layout[k]), BoxOf(layout[b]))
  }

  /** `_reject_impossible_grids`: accepts exactly the well-formed layouts, else names the first fault. */
  method RejectImpossibleGrids(layout: seq<LayoutItem>) returns (r: Result<seq<LayoutItem>, LayoutError>)
    ensures r.Ok? <==> WellFormed(layout)
    ensures r.Ok? <==> IsPossible(layout)
    ensures r.Ok? ==> r.value == layout
    ensures r.Err? ==> exists k :: FirstFault(layout, k, r.error)
  {
    hide IsPossible;
    WellFormedIff(layout);
    var seen: set<string> := {};
    var placed: seq<LayoutItem> := [];
    for k := 0 to |layout|
      invariant placed == layout[..k] && WellFormed(placed)
      invariant forall i :: i in seen <==> exists a :: 0 <= a < k && layout[a].i == i
    {
      var item := layout[k];
      assert layout[..k + 1] == placed + [item];
      if item.x < 0 || item.y < 0 || item.w < 1 || item.h < 1 {
        assert layout[..k + 1][k] == item;
        assert FirstFault(layout, k, OutOfRange(item.i));
        FaultSpreads(layout, k, OutOfRange(item.i));
        return Err(OutOfRange(item.i));
      }
      if item.x + item.w > GRID.columns || item.y + item.h > GRID.rows {
        assert layout[..k + 1][k] == item;
        assert FirstFault(layout, k, DoesNotFit(item.i));
        FaultSpreads(layout, k, DoesNotFit(item.i));
        return Err(DoesNotFit(item.i));
      }
      if item.i in seen {
        var a :| 0 <= a < k && layout[a].i == item.i;
        assert !Compatible(layout[..k + 1][a], layout[..k + 1][k]);
        assert layout[..k][a].i == item.i;
        assert FirstFault(layout, k, Duplicate(item.i));
        FaultSpreads(layout, k, Duplicate(item.i));
        return Err(Duplicate(item.i));
      }
      for a := 0 to k
        invariant forall b :: 0 <= b < a ==> !Clash(BoxOf(item), BoxOf(placed[b]))
      {
        var other := placed[a];
        if Clash(BoxOf(item), BoxOf(other)) {
          assert !Compatible(layout[..k + 1][a], layout[..k + 1][k]);
          assert FirstClash(layout, k, a);
          assert FirstFault(layout, k, Overlap(other.i, item.i));
          FaultSpreads(layout, k, Overlap(other.i, item.i));
          return Err(Overlap(other.i, item.i));
        }
      }
      seen := seen + {item.i};
      placed := placed + [item];
    }
    assert layout[..|layout|] == layout;
    return Ok(layout);
  }

  lemma FaultSpreads(layout: seq<LayoutItem>, k: int, e: LayoutError)
    requires FirstFault(layout, k, e)
    ensures !WellFormed(layout)
  {
  }

  // ---------- Routes ----------

  /** A dashboard row with the types of its widgets. */
  datatype State = State(layout: seq<LayoutItem>, version: int, widgets: map<string, string>)

  /** `Unbind` is what trashing a list does to a dashboard: the widgets that showed it go, all at once. */
  datatype Request =
    | Put(body: seq<LayoutItem>, version: int)
    | Add(id: string, widgetType: string)
    | Delete(id: string)
    | Unbind(ids: set<string>)

  predicate HasItem(layout: seq<LayoutItem>, i: string) {
    exists k :: 0 <= k < |layout| && layout[k].i == i
  }

  /** The entry a dict keyed by id would hold: the last one. */
  function Saved(layout: seq<LayoutItem>, i: string): Option<LayoutItem> {
    if layout == [] then None
    else if layout[|layout| - 1].i == i then Some(layout[|layout| - 1])
    else Saved(layout[..|layout| - 1], i)
  }

  function TypeOf(widgets: map<string, string>, i: string): string {
    if i in widgets then widgets[i] else ""
  }

  /** The smallest size a PUT may give an entry: its type's minimum, or its saved size where that is smaller. */
  function Floor(s: State, i: string): Size {
    var least := MinimumSize(TypeOf(s.widgets, i));
    match Saved(s.layout, i)
    case None => least
    case Some(p) => Size(Min(least.w, p.w), Min(least.h, p.h))
  }

  predicate LargeEnough(s: State, item: LayoutItem) {
    item.w >= Floor(s, item.i).w && item.h >= Floor(s, item.i).h
  }

  predicate Accepts(s: State, body: seq<LayoutItem>, version: int) {
    && WellFormed(body)
    && version == s.version
    && forall k :: 0 <= k < |body| ==> LargeEnough(s, body[k])
  }

  /** An entry is no smaller than its type's least size, or, in a dimension where its saved box already is, than that. */
  predicate NoSmallerThanSaved(s: State, item: LayoutItem) {
    var calendar := item.i in s.widgets && s.widgets[item.i] == "calendar";
    && (item.w >= (if calendar then 8 else 4) || exists p :: p in s.layout && p.i == item.i && item.w >= p.w)
    && (item.h >= (if calendar then 8 else 4) || exists p :: p in s.layout && p.i == item.i && item.h >= p.h)
  }

  lemma LargeEnoughIff(s: State, item: LayoutItem)
    requires WellFormed(s.layout)
    ensures LargeEnough(s, item) <==> NoSmallerThanSaved(s, item)
  {
    forall p | p in s.layout && p.i == item.i ensures Saved(s.layout, item.i) == Some(p) {
      SavedIs(s.layout, p);
    }
    SavedIsThere(s.layout, item.i);
  }

  lemma {:induction false} SavedIsThere(layout: seq<LayoutItem>, i: string)
    ensures Saved(layout, i).Some? ==> Saved(layout, i).value in layout && Saved(layout, i).value.i == i
  {
    if layout != [] {
      SavedIsThere(layout[..|layout| - 1], i);
    }
  }

  /** A PUT is accepted exactly when its layout is possible, its version current and no entry shrunk too far. */
  lemma AcceptsIff(s: State, body: seq<LayoutItem>, version: int)
    requires WellFormed(s.layout)
    ensures Accepts(s, body, version) <==>
            && IsPossible(body) && version == s.version
            && forall k :: 0 <= k < |body| ==> NoSmallerThanSaved(s, body[k])
  {
    hide WellFormed, IsPossible, LargeEnough, NoSmallerThanSaved;
    WellFormedIff(body);
    forall k | 0 <= k < |body| ensures LargeEnough(s, body[k]) <==> NoSmallerThanSaved(s, body[k]) {
      LargeEnoughIff(s, body[k]);
    }
  }

  function WithoutItems(layout: seq<LayoutItem>, ids: set<string>): seq<LayoutItem> {
    if layout == [] then []
    else (if layout[0].i !in ids then [layout[0]] else []) + WithoutItems(layout[1..], ids)
  }

  /** The box given to a new widget: its best size that fits, at the first free position. */
  ghost predicate IsPlacement(layout: seq<LayoutItem>, widgetType: string, b: Box) {
    && InRange(Size(b.w, b.h), MinimumSize(widgetType), DefaultSize(widgetType))
    && IsFirstSlot(Boxes(layout), GRID, b.w, b.h, Some((b.x, b.y)))
    && forall s :: InRange(s, MinimumSize(widgetType), DefaultSize(widgetType)) &&
                   FitsSomewhere(Boxes(layout), GRID, s.w, s.h) ==>
                     AsGood(Size(b.w, b.h), s, DefaultSize(widgetType))
  }

  ghost predicate NoRoom(layout: seq<LayoutItem>, widgetType: string) {
    !FitsSomewhere(Boxes(layout), GRID, MinimumSize(widgetType).w, MinimumSize(widgetType).h)
  }

  /** One request against the locked row. A new widget's id is new to the dashboard. */
  ghost predicate Step(s: State, r: Request, s': State) {
    match r
    case Put(body, version) =>
      s' == if Accepts(s, body, version) then State(body, s.version + 1, s.widgets) else s
    case Add(id, t) =>
      && id !in s.widgets && !HasItem(s.layout, id)
      && if NoRoom(s.layout, t) then s' == s
         else exists b ::
                && IsPlacement(s.layout, t, b)
                && s' == State(s.layout + [LayoutItem(id, b.x, b.y, b.w, b.h)], s.version + 1, s.widgets[id := t])
    case Delete(id) =>
      s' == if id in s.widgets then State(WithoutItems(s.layout, {id}), s.version + 1, s.widgets - {id}) else s
    case Unbind(ids) =>
      && ids <= s.widgets.Keys
      && s' == if ids == {} then s else State(WithoutItems(s.layout, ids), s.version + 1, s.widgets - ids)
  }

  class Dashboard {
    var layout: seq<LayoutItem>
    var version: int
    var widgets: map<string, string>

    constructor ()
      ensures StateOf() == State([], 0, map[])
    {
      layout, version, widgets := [], 0, map[];
    }

    function StateOf(): State
      reads this
    {
      State(layout, version, widgets)
    }

    method UpdateLayout(body: seq<LayoutItem>, version: int) returns (ok: bool)
      modifies this`layout, this`version
      ensures Step(old(StateOf()), Put(body, version), StateOf())
      ensures ok <==> Accepts(old(StateOf()), body, version)
      ensures StateOf() == if ok then State(body, old(this.version) + 1, old(widgets)) else old(StateOf())
      ensures WellFormed(old(layout)) ==>
                (ok <==> && IsPossible(body) && version == old(this.version)
                         && forall k :: 0 <= k < |body| ==> NoSmallerThanSaved(old(StateOf()), body[k]))
    {
      hide IsPossible, NoSmallerThanSaved;
      if WellFormed(layout) {
        AcceptsIff(StateOf(), body, version);
      }
      var valid := RejectImpossibleGrids(body);
      if valid.Err? || this.version != version {
        return false;
      }
      for k := 0 to |body|
        invariant StateOf() == old(StateOf())
        invariant forall j :: 0 <= j < k ==> LargeEnough(StateOf(), body[j])
      {
        var least := MinimumSize(TypeOf(widgets, body[k].i));
        var previous := Saved(layout, body[k].i);
        if previous.Some? {
          least := Size(Min(least.w, previous.value.w), Min(least.h, previous.value.h));
        }
        if body[k].w < least.w || body[k].h < least.h {
          return false;
        }
      }
      layout := body;
      this.version := this.version + 1;
      return true;
    }

    method AddWidget(id: string, widgetType: string) returns (ok: bool)
      requires id !in widgets && !HasItem(layout, id)
      modifies this
      ensures Anchored(Boxes(old(layout))) ==> Step(old(StateOf()), Add(id, widgetType), StateOf())
      ensures Anchored(Boxes(old(layout))) ==> (ok <==> !NoRoom(old(layout), widgetType))
      ensures !ok ==> NoRoom(old(layout), widgetType) && StateOf() == old(StateOf())
      ensures ok ==> exists item: LayoutItem ::
                && item.i == id
                && (if widgetType == "calendar" then 8 <= item.w <= 12 && item.h == 8 else item.w == 4 && 4 <= item.h <= 6)
                && StateOf() == State(old(layout) + [item], old(version) + 1, old(widgets)[id := widgetType])
    {
      hide AsGood;
      var placement := FitWidget(Boxes(layout), GRID, DefaultSize(widgetType), MinimumSize(widgetType));
      if placement.None? {
        return false;
      }
      var b := placement.value;
      assert Anchored(Boxes(layout)) ==> IsPlacement(layout, widgetType, b);
      var item := LayoutItem(id, b.x, b.y, b.w, b.h);
      layout := layout + [item];
      version := version + 1;
      widgets := widgets[id := widgetType];
      return true;
    }

    method DeleteWidget(id: string) returns (ok: bool)
      modifies this
      ensures Step(old(StateOf()), Delete(id), StateOf())
      ensures ok <==> id in old(widgets)
      ensures !ok ==> StateOf() == old(StateOf())
      ensures ok ==> widgets == old(widgets) - {id} && version == old(version) + 1
      ensures ok ==> forall item :: item in layout <==> item in old(layout) && item.i != id
    {
      if id !in widgets {
        return false;
      }
      widgets := widgets - {id};
      KeepOthers({id});
      version := version + 1;
      return true;
    }

    /** `remove_resource_widgets`, on one dashboard: `ids` are its widgets bound to the resource. */
    method RemoveResourceWidgets(ids: set<string>)
      requires ids <= widgets.Keys
      modifies this
      ensures Step(old(StateOf()), Unbind(ids), StateOf())
      ensures widgets == old(widgets) - ids && version == old(version) + if ids == {} then 0 else 1
      ensures forall item :: item in layout <==> item in old(layout) && item.i !in ids
    {
      if ids == {} {
        return;
      }
      KeepOthers(ids);
      version := version + 1;
      widgets := widgets - ids;
    }

    /** The entries whose widgets stay, in order. */
    method KeepOthers(ids: set<string>)
      modifies this`layout
      ensures layout == WithoutItems(old(layout), ids)
      ensures forall item :: item in layout <==> item in old(layout) && item.i !in ids
    {
      var next: seq<LayoutItem> := [];
      ghost var rest := WithoutItems(layout, ids);
      for k := 0 to |layout|
        invariant layout == old(layout) && next + rest == WithoutItems(layout, ids)
        invariant rest == WithoutItems(layout[k..], ids)
      {
        assert layout[k..][0] == layout[k] && layout[k..][1..] == layout[k + 1..];
        rest := WithoutItems(layout[k + 1..], ids);
        if layout[k].i !in ids {
          next := next + [layout[k]];
        }
      }
      WithoutItemsKeeps(layout, ids);
      layout := next;
    }
  }

  // ---------- What every step keeps ----------

  lemma {:induction false} WithoutItemsKeeps(layout: seq<LayoutItem>, ids: set<string>)
    ensures forall item :: item in WithoutItems(layout, ids) <==> item in layout && item.i !in ids
    ensures WellFormed(layout) ==> WellFormed(WithoutItems(layout, ids))
  {
    if layout != [] {
      var rest := WithoutItems(layout[1..], ids);
      WithoutItemsKeeps(layout[1..], ids);
      assert layout == [layout[0]] + layout[1..];
      if WellFormed(layout) {
        assert WellFormed(layout[1..]);
        forall b | 0 <= b < |rest| ensures Compatible(layout[0], rest[b]) {
          assert rest[b] in rest;
          var k :| 0 <= k < |layout[1..]| && layout[1..][k] == rest[b];
          assert Compatible(layout[0], layout[k + 1]);
        }
      }
    }
  }

  lemma AppendKeepsWellFormed(layout: seq<LayoutItem>, item: LayoutItem)
    requires WellFormed(layout) && InBounds(item) && !HasItem(layout, item.i)
    requires Clear(Boxes(layout), BoxOf(item))
    ensures WellFormed(layout + [item])
  {
    forall a | 0 <= a < |layout| ensures Compatible(layout[a], item) {
      assert !Clash(BoxOf(item), Boxes(layout)[a]);
    }
  }

  lemma StepKeepsWellFormed(s: State, r: Request, s': State)
    requires WellFormed(s.layout) && Step(s, r, s')
    ensures WellFormed(s'.layout)
  {
    match r
    case Put(_, _) =>
    case Delete(id) => WithoutItemsKeeps(s.layout, {id});
    case Unbind(ids) => WithoutItemsKeeps(s.layout, ids);
    case Add(id, t) =>
      if !NoRoom(s.layout, t) {
        var b :| IsPlacement(s.layout, t, b) &&
                 s' == State(s.layout + [LayoutItem(id, b.x, b.y, b.w, b.h)], s.version + 1, s.widgets[id := t]);
        AppendKeepsWellFormed(s.layout, LayoutItem(id, b.x, b.y, b.w, b.h));
      }
  }

  // ---------- Runs ----------

  ghost predicate Run(states: seq<State>, requests: seq<Request>) {
    && |states| == |requests| + 1
    && states[0].layout == []
    && forall k :: 0 <= k < |requests| ==> Step(states[k], requests[k], states[k + 1])
  }

  /** Every layout a run reaches is in bounds, free of overlaps and distinct in its ids. */
  lemma {:induction false} ReachableIsWellFormed(states: seq<State>, requests: seq<Request>, k: nat)
    requires Run(states, requests) && k < |states|
    ensures WellFormed(states[k].layout) && IsPossible(states[k].layout)
  {
    WellFormedIff(states[k].layout);
    if k > 0 {
      ReachableIsWellFormed(states, requests, k - 1);
      StepKeepsWellFormed(states[k - 1], requests[k - 1], states[k]);
    }
  }

  /** Versions never go back, and a version names one layout and one set of widgets. */
  lemma {:induction false} VersionNamesState(states: seq<State>, requests: seq<Request>, i: nat, j: nat)
    requires Run(states, requests) && i <= j < |states|
    ensures states[i].version <= states[j].version
    ensures states[i].version == states[j].version ==> states[i] == states[j]
    decreases j
  {
    hide IsPlacement, NoRoom, Accepts;
    if i < j {
      VersionNamesState(states, requests, i, j - 1);
      assert Step(states[j - 1], requests[j - 1], states[j]);
    }
  }

  ghost predicate PutAccepted(states: seq<State>, requests: seq<Request>, k: int)
    requires Run(states, requests) && 0 <= k < |requests|
  {
    requests[k].Put? && Accepts(states[k], requests[k].body, requests[k].version)
  }

  /** An accepted PUT replaces the very layout its author read under that version. */
  lemma AcceptedPutReplacesWhatWasRead(states: seq<State>, requests: seq<Request>, read: nat, put: nat)
    requires Run(states, requests) && read < |states| && put < |requests| && PutAccepted(states, requests, put)
    requires requests[put].version == states[read].version
    ensures states[put].layout == states[read].layout && states[put + 1].layout == requests[put].body
    ensures read <= put
  {
    assert Step(states[put], requests[put], states[put + 1]);
    if read <= put {
      VersionNamesState(states, requests, read, put);
    } else {
      VersionNamesState(states, requests, put + 1, read);
    }
  }

  /** No two PUTs carrying one version both succeed. */
  lemma OnePutPerVersion(states: seq<State>, requests: seq<Request>, i: nat, j: nat)
    requires Run(states, requests) && i < j < |requests|
    requires PutAccepted(states, requests, i) && PutAccepted(states, requests, j)
    ensures requests[i].version != requests[j].version
  {
    assert Step(states[i], requests[i], states[i + 1]);
    VersionNamesState(states, requests, i + 1, j);
  }

  lemma {:induction false} SavedIs(layout: seq<LayoutItem>, item: LayoutItem)
    requires WellFormed(layout) && item in layout
    ensures Saved(layout, item.i) == Some(item)
  {
    var n := |layout| - 1;
    var k :| 0 <= k <= n && layout[k] == item;
    if k < n {
      assert Compatible(layout[k], layout[n]);
      assert layout[..n][k] == item;
      SavedIs(layout[..n], item);
    }
  }

  /** The part of a size that counts against the type's minimum. */
  function Useful(s: State, item: LayoutItem): Size {
    var least := MinimumSize(TypeOf(s.widgets, item.i));
    Size(Min(least.w, item.w), Min(least.h, item.h))
  }

  lemma StepKeepsUsefulSize(s: State, r: Request, s': State, a: LayoutItem, b: LayoutItem)
    requires WellFormed(s.layout) && WellFormed(s'.layout) && Step(s, r, s')
    requires a in s.layout && b in s'.layout && a.i == b.i
    requires a.i in s.widgets && a.i in s'.widgets
    ensures s.widgets[a.i] == s'.widgets[a.i]
    ensures Useful(s', b).w >= Useful(s, a).w && Useful(s', b).h >= Useful(s, a).h
  {
    SavedIs(s.layout, a);
    SavedIs(s'.layout, b);
    if r.Put? && Accepts(s, r.body, r.version) {
      var k :| 0 <= k < |r.body| && r.body[k] == b;
      assert LargeEnough(s, r.body[k]);
    } else {
      OtherStepsKeepItem(s, r, s', a);
      SavedIs(s'.layout, a);
    }
  }

  lemma OtherStepsKeepItem(s: State, r: Request, s': State, a: LayoutItem)
    requires Step(s, r, s') && !(r.Put? && Accepts(s, r.body, r.version))
    requires a in s.layout && a.i in s.widgets && a.i in s'.widgets
    ensures a in s'.layout && s.widgets[a.i] == s'.widgets[a.i]
  {
    hide IsPlacement, NoRoom, Accepts;
    if r.Delete? {
      WithoutItemsKeeps(s.layout, {r.id});
    } else if r.Unbind? {
      WithoutItemsKeeps(s.layout, r.ids);
    }
  }

  /** While an item and its widget stay, its size never loses ground to its type's minimum. */
  lemma {:induction false} UsefulSizeNeverShrinks(
    states: seq<State>, requests: seq<Request>, i: nat, j: nat, items: seq<LayoutItem>)
    requires Run(states, requests) && i <= j < |states| && |items| == |states|
    requires forall k :: i <= k <= j ==> items[k] in states[k].layout && items[k].i == items[i].i
    requires forall k :: i <= k <= j ==> items[i].i in states[k].widgets
    ensures states[i].widgets[items[i].i] == states[j].widgets[items[i].i]
    ensures Useful(states[j], items[j]).w >= Useful(states[i], items[i]).w
    ensures Useful(states[j], items[j]).h >= Useful(states[i], items[i]).h
    decreases j
  {
    hide Step, Useful, WellFormed;
    if i < j {
      UsefulSizeNeverShrinks(states, requests, i, j - 1, items);
      ReachableIsWellFormed(states, requests, j - 1);
      ReachableIsWellFormed(states, requests, j);
      StepKeepsUsefulSize(states[j - 1], requests[j - 1], states[j], items[j - 1], items[j]);
    }
  }
}
