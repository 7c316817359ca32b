/**
 The migration that re-expresses stored layouts on the bounded grid: scale every box, then seat the
 boxes one by one, keeping, relocating or shrinking each.
 */
module Rescale {
  import opened Wrappers
  import opened Numbers
  import opened Grid

  /** A stored entry: one whose four numbers are integers, or anything else, which is left alone. */
  datatype Item = Scalable(i: string, x: int, y: int, w: int, h: int) | Other(raw: string)

  function BoxOf(item: Item): Box
    requires item.Scalable?
  {
    Box(item.x, item.y, item.w, item.h)
  }

  /** `vertical(v)` stands for the truncated product of `v` and the vertical ratio. */
  function ScaleItem(item: Item, factor: int, g: Board, vertical: int -> int): (r: Item)
    ensures r.Scalable? <==> item.Scalable?
  {
    match item
    case Other(_) => item
    case Scalable(i, x, y, w, h) =>
      Scalable(i, Min(x * factor, g.columns - 1), vertical(y),
               Max(1, Min(w * factor, g.columns)), Max(1, Min(vertical(h), g.rows)))
  }

  function Scale(layout: seq<Item>, factor: int, g: Board, vertical: int -> int): (r: seq<Item>)
    ensures |r| == |layout|
  {
    seq(|layout|, k requires 0 <= k < |layout| => ScaleItem(layout[k], factor, g, vertical))
  }

  // ---------- Seating order ----------

  predicate SeatsBefore(a: Item, b: Item)
    requires a.Scalable? && b.Scalable?
  {
    a.y < b.y || (a.y == b.y && a.x < b.x)
  }

  ghost predicate Indices(items: seq<Item>, order: seq<nat>) {
    forall k :: 0 <= k < |order| ==> order[k] < |items| && items[order[k]].Scalable?
  }

  function InsertIndex(items: seq<Item>, order: seq<nat>, n: nat): (r: seq<nat>)
    requires Indices(items, order) && n < |items| && items[n].Scalable?
    ensures Indices(items, r)
    ensures forall j :: j in r <==> j == n || j in order
    ensures |r| == |order| + 1
  {
    if order == [] then [n]
    else if SeatsBefore(items[n], items[order[0]]) then [n] + order
    else [order[0]] + InsertIndex(items, order[1..], n)
  }

  /** The scalable indices by `(y, x)`, equal positions in stored order. */
  function SeatOrder(items: seq<Item>, n: nat): (r: seq<nat>)
    requires n <= |items|
    ensures Indices(items, r)
    ensures forall j :: j in r <==> 0 <= j < n && items[j].Scalable?
  {
    if n == 0 then []
    else if items[n - 1].Scalable? then InsertIndex(items, SeatOrder(items, n - 1), n - 1)
    else SeatOrder(items, n - 1)
  }

  ghost predicate Distinct(order: seq<nat>) {
    forall a, b :: 0 <= a < b < |order| ==> order[a] != order[b]
  }

  lemma {:induction false} InsertKeepsDistinct(items: seq<Item>, order: seq<nat>, n: nat)
    requires Indices(items, order) && n < |items| && items[n].Scalable?
    requires Distinct(order) && n !in order
    ensures Distinct(InsertIndex(items, order, n))
  {
    hide SeatsBefore, Distinct;
    if order == [] {
      ConsIsDistinct(n, []);
      assert [n] + [] == [n];
    } else if SeatsBefore(items[n], items[order[0]]) {
      ConsIsDistinct(n, order);
    } else {
      TailIsDistinct(order);
      InsertKeepsDistinct(items, order[1..], n);
      ConsIsDistinct(order[0], InsertIndex(items, order[1..], n));
    }
  }

  lemma ConsIsDistinct(n: nat, rest: seq<nat>)
    requires rest == [] || (Distinct(rest) && n !in rest)
    ensures Distinct([n] + rest)
  {
  }

  lemma TailIsDistinct(order: seq<nat>)
    requires Distinct(order) && order != []
    ensures Distinct(order[1..]) && order[0] !in order[1..]
  {
  }

  lemma {:induction false} SeatOrderIsDistinct(items: seq<Item>, n: nat)
    requires n <= |items|
    ensures Distinct(SeatOrder(items, n))
  {
    if n > 0 {
      SeatOrderIsDistinct(items, n - 1);
      if items[n - 1].Scalable? {
        InsertKeepsDistinct(items, SeatOrder(items, n - 1), n - 1);
      }
    }
  }

  // ---------- Seating one box ----------

  /** The lowest row the boxes already in these columns leave free. */
  function Top(placed: seq<Box>, x: int, w: int): int {
    if placed == [] then 0
    else
      var b := placed[0];
      var rest := Top(placed[1..], x, w);
      if x < b.x + b.w && b.x < x + w then Max(b.y + b.h, rest) else rest
  }

  lemma {:induction false} TopIsClear(placed: seq<Box>, x: int, w: int)
    ensures forall k :: 0 <= k < |placed| && x < placed[k].x + placed[k].w && placed[k].x < x + w ==>
              placed[k].y + placed[k].h <= Top(placed, x, w)
    ensures Top(placed, x, w) >= 0
  {
    if placed != [] {
      TopIsClear(placed[1..], x, w);
      assert forall k :: 1 <= k < |placed| ==> placed[k] == placed[1..][k - 1];
    }
  }

  lemma FindSlot(boxes: seq<Box>, g: Board, w: int, h: int, i: nat, j: nat) returns (slot: Option<(int, int)>)
    requires Anchored(boxes) && i <= |RowEdges(boxes)| && j <= |ColumnEdges(boxes)|
    requires Scanned(boxes, g, w, h, i, j)
    ensures IsFirstSlot(boxes, g, w, h, slot)
    decreases |RowEdges(boxes)| - i, |ColumnEdges(boxes)| - j
  {
    hide Fits, RowEdges, ColumnEdges, IsFirstSlot;
    if i == |RowEdges(boxes)| {
      ScannedAll(boxes, g, w, h);
      slot := None;
    } else if j == |ColumnEdges(boxes)| {
      slot := FindSlot(boxes, g, w, h, i + 1, 0);
    } else if Fits(boxes, g, Box(ColumnEdges(boxes)[j], RowEdges(boxes)[i], w, h)) {
      FirstEdgeIsFirst(boxes, g, w, h, i, j);
      slot := Some((ColumnEdges(boxes)[j], RowEdges(boxes)[i]));
    } else {
      slot := FindSlot(boxes, g, w, h, i, j + 1);
    }
  }

  ghost function FirstSlot(boxes: seq<Box>, g: Board, w: int, h: int): (slot: Option<(int, int)>)
    requires Anchored(boxes)
    ensures IsFirstSlot(boxes, g, w, h, slot)
  {
    assert exists s :: IsFirstSlot(boxes, g, w, h, s) by {
      var s := FindSlot(boxes, g, w, h, 0, 0);
    }
    var s :| IsFirstSlot(boxes, g, w, h, s);
    s
  }

  /** A box that fits nowhere gives up height before width, cell by cell, and in the end sits at the origin. */
  ghost function Shrunk(placed: seq<Box>, g: Board, w: int, h: int): Box
    requires Anchored(placed) && w >= 1 && h >= 1
    decreases w + h
  {
    match FirstSlot(placed, g, w, h)
    case Some((x, y)) => Box(x, y, w, h)
    case None =>
      if w > 1 || h > 1 then
        if h >= w then Shrunk(placed, g, w, h - 1) else Shrunk(placed, g, w - 1, h)
      else Box(0, 0, w, h)
  }

  predicate Sized(item: Item, g: Board) {
    item.Scalable? && 1 <= item.w <= g.columns && 1 <= item.h <= g.rows
  }

  function SettledColumn(item: Item, g: Board): int
    requires item.Scalable?
  {
    Max(0, Min(item.x, g.columns - item.w))
  }

  /** Where the next item goes: up its own column onto what is there, or else wherever it can. */
  ghost function Seated(placed: seq<Box>, g: Board, item: Item): Box
    requires Anchored(placed) && Sized(item, g)
  {
    var x := SettledColumn(item, g);
    var top := Top(placed, x, item.w);
    if top + item.h <= g.rows then Box(x, top, item.w, item.h) else Shrunk(placed, g, item.w, item.h)
  }

  predicate Standing(b: Box, g: Board) {
    InGrid(b, g) && b.w >= 1 && b.h >= 1
  }

  predicate AllStanding(boxes: seq<Box>, g: Board) {
    forall k :: 0 <= k < |boxes| ==> Standing(boxes[k], g)
  }

  ghost predicate HasFreeCell(boxes: seq<Box>, g: Board) {
    FitsSomewhere(boxes, g, 1, 1)
  }

  lemma {:induction false} ShrunkStands(placed: seq<Box>, g: Board, w: int, h: int)
    requires AllStanding(placed, g) && 1 <= w <= g.columns && 1 <= h <= g.rows
    ensures var b := Shrunk(placed, g, w, h); Standing(b, g) && b.w <= w && b.h <= h
    ensures HasFreeCell(placed, g) <==> Clear(placed, Shrunk(placed, g, w, h))
    decreases w + h
  {
    hide Clear;
    var slot := FirstSlot(placed, g, w, h);
    if slot.Some? {
      var (x, y) := slot.value;
      assert Fits(placed, g, Box(x, y, w, h));
      SmallerFits(placed, g, w, h, 1, 1);
    } else if w > 1 || h > 1 {
      if h >= w {
        ShrunkStands(placed, g, w, h - 1);
      } else {
        ShrunkStands(placed, g, w - 1, h);
      }
    } else {
      assert !HasFreeCell(placed, g);
      assert !Fits(placed, g, Box(0, 0, 1, 1));
    }
  }

  lemma SeatedStands(placed: seq<Box>, g: Board, item: Item)
    requires AllStanding(placed, g) && Sized(item, g)
    ensures var b := Seated(placed, g, item); Standing(b, g) && b.w <= item.w && b.h <= item.h
    ensures HasFreeCell(placed, g) <==> Clear(placed, Seated(placed, g, item))
  {
    var x := SettledColumn(item, g);
    var top := Top(placed, x, item.w);
    TopIsClear(placed, x, item.w);
    if top + item.h <= g.rows {
      var b := Box(x, top, item.w, item.h);
      assert Fits(placed, g, b);
      SmallerFits(placed, g, item.w, item.h, 1, 1);
    } else {
      ShrunkStands(placed, g, item.w, item.h);
    }
  }

  // ---------- Seating all of them ----------

  /** Each box is where seating puts it, given the boxes before it. */
  ghost predicate SeatedInTurn(boxes: seq<Box>, items: seq<Item>, g: Board) {
    && |boxes| == |items|
    && (forall k :: 0 <= k < |items| ==> Sized(items[k], g))
    && AllStanding(boxes, g)
    && forall k :: 0 <= k < |items| ==> boxes[k] == Seated(boxes[..k], g, items[k])
  }

  predicate AllSized(items: seq<Item>, g: Board) {
    forall k :: 0 <= k < |items| ==> Sized(items[k], g)
  }

  /** The boxes seating gives these items, in this order. */
  ghost function Seating(items: seq<Item>, g: Board): (boxes: seq<Box>)
    requires AllSized(items, g)
    ensures |boxes| == |items| && AllStanding(boxes, g)
  {
    if items == [] then []
    else
      var n := |items| - 1;
      var before := Seating(items[..n], g);
      SeatedStands(before, g, items[n]);
      before + [Seated(before, g, items[n])]
  }

  lemma TurnsBefore(boxes: seq<Box>, items: seq<Item>, g: Board, k: nat)
    requires SeatedInTurn(boxes, items, g) && k <= |items|
    ensures SeatedInTurn(boxes[..k], items[..k], g)
  {
    hide Seated, Sized, Standing;
    assert forall j :: 0 <= j < k ==> boxes[..k][..j] == boxes[..j];
  }

  lemma LastTurn(boxes: seq<Box>, items: seq<Item>, g: Board, n: nat)
    requires SeatedInTurn(boxes, items, g) && n + 1 == |items|
    ensures AllSized(items, g) && Sized(items[n], g) && AllStanding(boxes[..n], g)
    ensures boxes == boxes[..n] + [Seated(boxes[..n], g, items[n])]
  {
    hide Seated, Standing;
  }

  /** Being seated in turn leaves no choice. */
  lemma {:induction false} SeatedInTurnIsSeating(boxes: seq<Box>, items: seq<Item>, g: Board)
    requires SeatedInTurn(boxes, items, g)
    ensures AllSized(items, g) && boxes == Seating(items, g)
  {
    hide Seated, SeatedInTurn, AllStanding, Sized;
    if items == [] {
      assert |boxes| == 0 by { SameCount(boxes, items, g); }
    } else {
      var n := |items| - 1;
      TurnsBefore(boxes, items, g, n);
      assert boxes[..n] == Seating(items[..n], g) by {
        SameCount(boxes, items, g);
        SeatedInTurnIsSeating(boxes[..n], items[..n], g);
      }
      LastTurn(boxes, items, g, n);
    }
  }

  lemma SameCount(boxes: seq<Box>, items: seq<Item>, g: Board)
    requires SeatedInTurn(boxes, items, g)
    ensures |boxes| == |items|
  {
  }

  predicate Disjoint(boxes: seq<Box>) {
    forall a, b :: 0 <= a < b < |boxes| ==> !Clash(boxes[a], boxes[b])
  }

  lemma DisjointByTurn(boxes: seq<Box>)
    ensures Disjoint(boxes) <==> forall k :: 0 <= k < |boxes| ==> Clear(boxes[..k], boxes[k])
  {
    if Disjoint(boxes) {
      forall k | 0 <= k < |boxes| ensures Clear(boxes[..k], boxes[k]) {
        forall j | 0 <= j < k ensures !Clash(boxes[k], boxes[..k][j]) {
          assert !Clash(boxes[j], boxes[k]);
        }
      }
    }
    if forall k :: 0 <= k < |boxes| ==> Clear(boxes[..k], boxes[k]) {
      forall a, b | 0 <= a < b < |boxes| ensures !Clash(boxes[a], boxes[b]) {
        assert Clear(boxes[..b], boxes[b]) && boxes[..b][a] == boxes[a];
      }
    }
  }

  /** The seating ends without overlaps exactly when every box was seated while a cell was free. */
  lemma DisjointIffRoom(boxes: seq<Box>, items: seq<Item>, g: Board)
    requires SeatedInTurn(boxes, items, g)
    ensures Disjoint(boxes) <==> forall k :: 0 <= k < |boxes| ==> HasFreeCell(boxes[..k], g)
  {
    hide Seated, Clear, HasFreeCell;
    DisjointByTurn(boxes);
    forall k | 0 <= k < |boxes| ensures HasFreeCell(boxes[..k], g) <==> Clear(boxes[..k], boxes[k]) {
      SeatedStands(boxes[..k], g, items[k]);
    }
  }

  /** The same, read off the items alone. */
  lemma SeatingIsDisjointIffRoom(boxes: seq<Box>, items: seq<Item>, g: Board)
    requires SeatedInTurn(boxes, items, g)
    ensures AllSized(items, g) && boxes == Seating(items, g)
    ensures Disjoint(boxes) <==> forall k :: 0 <= k < |items| ==> HasFreeCell(Seating(items[..k], g), g)
  {
    hide Seating, HasFreeCell, Clear, Sized;
    SeatedInTurnIsSeating(boxes, items, g);
    DisjointIffRoom(boxes, items, g);
    hide SeatedInTurn;
    forall k | 0 <= k < |items| ensures boxes[..k] == Seating(items[..k], g) {
      TurnsBefore(boxes, items, g, k);
      SeatedInTurnIsSeating(boxes[..k], items[..k], g);
    }
  }

  // ---------- Counting cells ----------

  function AreaSum(boxes: seq<Box>): int {
    if boxes == [] then 0 else boxes[0].w * boxes[0].h + AreaSum(boxes[1..])
  }

  ghost function Line(x: int, y: int, w: nat): set<(int, int)> {
    if w == 0 then {} else Line(x, y, w - 1) + {(x + w - 1, y)}
  }

  ghost function Cells(x: int, y: int, w: nat, h: nat): set<(int, int)> {
    if h == 0 then {} else Cells(x, y, w, h - 1) + Line(x, y + h - 1, w)
  }

  lemma {:induction false} LineHas(x: int, y: int, w: nat)
    ensures forall c :: c in Line(x, y, w) <==> x <= c.0 < x + w && c.1 == y
    ensures |Line(x, y, w)| == w
  {
    if w > 0 {
      LineHas(x, y, w - 1);
    }
  }

  lemma {:induction false} CellsAre(x: int, y: int, w: nat, h: nat)
    ensures forall c :: c in Cells(x, y, w, h) <==> x <= c.0 < x + w && y <= c.1 < y + h
  {
    hide Line;
    if h > 0 {
      CellsAre(x, y, w, h - 1);
      LineHas(x, y + h - 1, w);
    }
  }

  lemma DisjointUnion<T>(a: set<T>, b: set<T>)
    requires a !! b
    ensures |a + b| == |a| + |b|
  {
  }

  lemma LastLineIsApart(x: int, y: int, w: nat, h: nat)
    requires h > 0
    ensures Cells(x, y, w, h - 1) !! Line(x, y + h - 1, w)
  {
    hide Cells, Line;
    CellsAre(x, y, w, h - 1);
    LineHas(x, y + h - 1, w);
  }

  lemma LastLineCounts(x: int, y: int, w: nat, h: nat)
    requires h > 0
    ensures |Cells(x, y, w, h)| == |Cells(x, y, w, h - 1)| + w
  {
    hide Line;
    LineHas(x, y + h - 1, w);
    LastLineIsApart(x, y, w, h);
    DisjointUnion(Cells(x, y, w, h - 1), Line(x, y + h - 1, w));
  }

  lemma {:induction false} CellsCount(x: int, y: int, w: nat, h: nat)
    ensures |Cells(x, y, w, h)| == w * h
  {
    hide Line;
    if h == 0 {
      assert Cells(x, y, w, 0) == {};
    } else {
      CellsCount(x, y, w, h - 1);
      LastLineCounts(x, y, w, h);
      OneMore(w, h);
    }
  }

  lemma OneMore(w: int, h: int)
    ensures w * h == w * (h - 1) + w
  {
  }

  ghost function Covered(boxes: seq<Box>): set<(int, int)> {
    if boxes == [] then {}
    else Cells(boxes[0].x, boxes[0].y, Max(0, boxes[0].w), Max(0, boxes[0].h)) + Covered(boxes[1..])
  }

  lemma {:induction false} CoveredIsSmall(boxes: seq<Box>, g: Board)
    requires AllStanding(boxes, g)
    ensures |Covered(boxes)| <= AreaSum(boxes)
  {
    hide Cells;
    if boxes != [] {
      var b := boxes[0];
      CoveredIsSmall(boxes[1..], g);
      CellsCount(b.x, b.y, b.w, b.h);
      UnionIsSmall(Cells(b.x, b.y, b.w, b.h), Covered(boxes[1..]));
    }
  }

  lemma UnionIsSmall<T>(a: set<T>, b: set<T>)
    ensures |a + b| <= |a| + |b|
  {
  }

  lemma {:induction false} CoveredAre(boxes: seq<Box>, g: Board)
    requires AllStanding(boxes, g)
    ensures forall c :: c in Covered(boxes) <==>
              exists k :: 0 <= k < |boxes| && Clash(Box(c.0, c.1, 1, 1), boxes[k])
  {
    if boxes != [] {
      var b, rest := boxes[0], boxes[1..];
      CoveredAre(rest, g);
      CellsAre(b.x, b.y, b.w, b.h);
      forall c ensures c in Covered(boxes) <==> exists k :: 0 <= k < |boxes| && Clash(Box(c.0, c.1, 1, 1), boxes[k]) {
        assert c in Cells(b.x, b.y, b.w, b.h) <==> Clash(Box(c.0, c.1, 1, 1), boxes[0]);
        if j :| 0 <= j < |rest| && Clash(Box(c.0, c.1, 1, 1), rest[j]) {
          assert boxes[j + 1] == rest[j];
        }
        if j :| 1 <= j < |boxes| && Clash(Box(c.0, c.1, 1, 1), boxes[j]) {
          assert rest[j - 1] == boxes[j];
        }
      }
    }
  }

  /** Boxes whose areas add up to less than the board leave a cell free. */
  lemma RoomByArea(boxes: seq<Box>, g: Board)
    requires AllStanding(boxes, g) && g.columns >= 1 && g.rows >= 1
    requires AreaSum(boxes) < g.columns * g.rows
    ensures HasFreeCell(boxes, g)
  {
    hide Cells;
    CoveredIsSmall(boxes, g);
    CoveredAre(boxes, g);
    CellsAre(0, 0, g.columns, g.rows);
    CellsCount(0, 0, g.columns, g.rows);
    var all := Cells(0, 0, g.columns, g.rows);
    if all <= Covered(boxes) {
      SubsetIsSmaller(all, Covered(boxes));
    } else {
      var c :| c in all && c !in Covered(boxes);
      assert Fits(boxes, g, Box(c.0, c.1, 1, 1));
    }
  }

  lemma {:induction false} SubsetIsSmaller<T>(a: set<T>, b: set<T>)
    requires a <= b
    ensures |a| <= |b|
  {
    assert b == a + (b - a);
  }

  function ItemArea(items: seq<Item>): int
    requires forall k :: 0 <= k < |items| ==> items[k].Scalable?
  {
    if items == [] then 0 else items[0].w * items[0].h + ItemArea(items[1..])
  }

  lemma {:induction false} SeatedAreasShrink(boxes: seq<Box>, items: seq<Item>)
    requires |boxes| == |items|
    requires forall k :: 0 <= k < |items| ==>
               items[k].Scalable? && 1 <= boxes[k].w <= items[k].w && 1 <= boxes[k].h <= items[k].h
    ensures AreaSum(boxes) <= ItemArea(items)
  {
    if boxes != [] {
      SeatedAreasShrink(boxes[1..], items[1..]);
      assert boxes[0].w * boxes[0].h <= items[0].w * boxes[0].h <= items[0].w * items[0].h;
    }
  }

  lemma SeatedIsNoLarger(boxes: seq<Box>, items: seq<Item>, g: Board, k: nat)
    requires SeatedInTurn(boxes, items, g) && k < |items|
    ensures boxes[k].w <= items[k].w && boxes[k].h <= items[k].h
  {
    SeatedStands(boxes[..k], g, items[k]);
  }

  /** When the scaled items before each one are smaller than the board, nothing overlaps. */
  lemma RoomyLayoutsStayDisjoint(boxes: seq<Box>, items: seq<Item>, g: Board)
    requires SeatedInTurn(boxes, items, g) && g.columns >= 1 && g.rows >= 1
    requires forall k :: 0 <= k < |items| ==> ItemArea(items[..k]) < g.columns * g.rows
    ensures Disjoint(boxes)
  {
    hide Seated;
    forall k | 0 <= k < |boxes| ensures HasFreeCell(boxes[..k], g) {
      forall j | 0 <= j < k ensures boxes[..k][j].w <= items[..k][j].w && boxes[..k][j].h <= items[..k][j].h {
        SeatedIsNoLarger(boxes, items, g, j);
      }
      SeatedAreasShrink(boxes[..k], items[..k]);
      RoomByArea(boxes[..k], g);
    }
    DisjointIffRoom(boxes, items, g);
  }

  // ---------- The rewrite ----------

  method SeatItem(placed: seq<Box>, g: Board, item: Item) returns (b: Box)
    requires Anchored(placed) && Sized(item, g)
    ensures b == Seated(placed, g, item)
  {
    hide IsFirstSlot;
    var x := SettledColumn(item, g);
    var top := Top(placed, x, item.w);
    if top + item.h <= g.rows {
      return Box(x, top, item.w, item.h);
    }
    var w, h := item.w, item.h;
    var seat := Seat(placed, g, w, h);
    while seat.None? && (w > 1 || h > 1)
      invariant w >= 1 && h >= 1
      invariant seat == FirstSlot(placed, g, w, h)
      invariant Shrunk(placed, g, w, h) == Shrunk(placed, g, item.w, item.h)
      decreases w + h
    {
      if h >= w {
        h := h - 1;
      } else {
        w := w - 1;
      }
      seat := Seat(placed, g, w, h);
    }
    var (left, up) := if seat.Some? then seat.value else (0, 0);
    b := Box(left, up, w, h);
  }

  /** `_seat`. */
  method Seat(placed: seq<Box>, g: Board, w: int, h: int) returns (slot: Option<(int, int)>)
    requires Anchored(placed)
    ensures slot == FirstSlot(placed, g, w, h)
  {
    slot := FirstFreeSlot(placed, g, w, h);
    FirstSlotIsUnique(placed, g, w, h, slot, FirstSlot(placed, g, w, h));
  }

  function BoxesIn(items: seq<Item>, order: seq<nat>): (r: seq<Box>)
    requires Indices(items, order)
    ensures |r| == |order|
  {
    seq(|order|, k requires 0 <= k < |order| => BoxOf(items[order[k]]))
  }

  function ItemsIn(items: seq<Item>, order: seq<nat>): (r: seq<Item>)
    requires Indices(items, order)
    ensures |r| == |order|
  {
    seq(|order|, k requires 0 <= k < |order| => items[order[k]])
  }

  predicate DisjointItems(items: seq<Item>) {
    forall a, b :: 0 <= a < b < |items| && items[a].Scalable? && items[b].Scalable? ==>
      !Clash(BoxOf(items[a]), BoxOf(items[b]))
  }

  ghost predicate Enumerates(items: seq<Item>, order: seq<nat>) {
    && Indices(items, order)
    && Distinct(order)
    && forall j :: 0 <= j < |items| && items[j].Scalable? ==> j in order
  }

  lemma DisjointInAnyOrder(items: seq<Item>, order: seq<nat>)
    requires Enumerates(items, order)
    ensures Disjoint(BoxesIn(items, order)) <==> DisjointItems(items)
  {
    var boxes := BoxesIn(items, order);
    if Disjoint(boxes) {
      forall a, b | 0 <= a < b < |items| && items[a].Scalable? && items[b].Scalable?
        ensures !Clash(BoxOf(items[a]), BoxOf(items[b]))
      {
        assert a in order && b in order;
        var i :| 0 <= i < |order| && order[i] == a;
        var j :| 0 <= j < |order| && order[j] == b;
        assert !Clash(boxes[i], boxes[j]) || !Clash(boxes[j], boxes[i]);
      }
    }
    if DisjointItems(items) {
      forall i, j | 0 <= i < j < |boxes| ensures !Clash(boxes[i], boxes[j]) {
        var a, b := order[i], order[j];
        assert a < b || b < a;
      }
    }
  }

  /** Same length and ids; what is not scalable is untouched. */
  predicate KeepsIdentity(before: seq<Item>, after: seq<Item>) {
    && |after| == |before|
    && forall j :: 0 <= j < |before| ==>
         if before[j].Scalable? then after[j].Scalable? && after[j].i == before[j].i else after[j] == before[j]
  }

  predicate AllInGrid(items: seq<Item>, g: Board) {
    forall j :: 0 <= j < |items| && items[j].Scalable? ==> Standing(BoxOf(items[j]), g)
  }

  /** The scaled items in the order they are seated. */
  function SeatingOrder(layout: seq<Item>, factor: int, g: Board, vertical: int -> int): (items: seq<Item>)
    requires g.columns >= 1 && g.rows >= 1
    ensures AllSized(items, g)
  {
    var scaled := Scale(layout, factor, g, vertical);
    ItemsIn(scaled, SeatOrder(scaled, |scaled|))
  }

  /**
   `rescale`: every scalable item ends inside the grid, in its place in the list, where seating the
   scaled items puts it; and the result is free of overlaps exactly when the items before each one
   leave a cell free.
   */
  method Rescale(layout: seq<Item>, factor: int, g: Board, vertical: int -> int) returns (out: seq<Item>)
    requires g.columns >= 1 && g.rows >= 1
    ensures KeepsIdentity(layout, out) && AllInGrid(out, g)
    ensures var scaled := Scale(layout, factor, g, vertical);
            var order := SeatOrder(scaled, |scaled|);
            && Enumerates(out, order)
            && SeatedInTurn(BoxesIn(out, order), ItemsIn(scaled, order), g)
            && BoxesIn(out, order) == Seating(SeatingOrder(layout, factor, g, vertical), g)
    ensures var items := SeatingOrder(layout, factor, g, vertical);
            DisjointItems(out) <==> forall k :: 0 <= k < |items| ==> HasFreeCell(Seating(items[..k], g), g)
  {
    hide Scale, KeepsIdentity, Enumerates, Indices, SeatedInTurn, Seating, SeatOrder, BoxesIn, ItemsIn, DisjointItems, AllInGrid,
         HasFreeCell, AllSized, Sized;
    var scaled := Scale(layout, factor, g, vertical);
    ScaledIsSized(layout, factor, g, vertical);
    out := Resettle(scaled, g);
    ScalingKeepsIdentity(layout, factor, g, vertical, out);
    SettledIsSeated(scaled, out, g);
  }

  lemma ScaledIsSized(layout: seq<Item>, factor: int, g: Board, vertical: int -> int)
    requires g.columns >= 1 && g.rows >= 1
    ensures var scaled := Scale(layout, factor, g, vertical);
            forall j :: 0 <= j < |scaled| && scaled[j].Scalable? ==> Sized(scaled[j], g)
  {
  }

  lemma ScalingKeepsIdentity(layout: seq<Item>, factor: int, g: Board, vertical: int -> int, out: seq<Item>)
    requires KeepsIdentity(Scale(layout, factor, g, vertical), out)
    ensures KeepsIdentity(layout, out)
  {
  }

  /** What settling leaves in the list is the seating of the items, in the grid, and disjoint when there was room. */
  lemma SettledIsSeated(scaled: seq<Item>, out: seq<Item>, g: Board)
    requires var order := SeatOrder(scaled, |scaled|);
             Enumerates(out, order) && SeatedInTurn(BoxesIn(out, order), ItemsIn(scaled, order), g)
    ensures AllInGrid(out, g)
    ensures var order := SeatOrder(scaled, |scaled|);
            var items := ItemsIn(scaled, order);
            && AllSized(items, g) && BoxesIn(out, order) == Seating(items, g)
            && (DisjointItems(out) <==> forall k :: 0 <= k < |items| ==> HasFreeCell(Seating(items[..k], g), g))
  {
    hide SeatedInTurn, HasFreeCell, Seating, SeatOrder, Sized, BoxesIn, ItemsIn, Indices, DisjointItems, Disjoint, AllInGrid;
    var order := SeatOrder(scaled, |scaled|);
    var items := ItemsIn(scaled, order);
    DisjointInAnyOrder(out, order);
    SeatingIsDisjointIffRoom(BoxesIn(out, order), items, g);
    StandingItems(out, order, items, g);
  }

  lemma StandingItems(out: seq<Item>, order: seq<nat>, items: seq<Item>, g: Board)
    requires Enumerates(out, order) && SeatedInTurn(BoxesIn(out, order), items, g)
    ensures AllInGrid(out, g)
  {
    hide Seated;
    forall j | 0 <= j < |out| && out[j].Scalable? ensures Standing(BoxOf(out[j]), g) {
      assert j in order;
      var k :| 0 <= k < |order| && order[k] == j;
      assert Standing(BoxesIn(out, order)[k], g);
    }
  }

  function Moved(item: Item, b: Box): Item
    requires item.Scalable?
  {
    Scalable(item.i, b.x, b.y, b.w, b.h)
  }

  /** The first `k` of the order are where seating put them; every other entry is as scaled. */
  ghost predicate HalfSettled(scaled: seq<Item>, order: seq<nat>, out: seq<Item>, placed: seq<Box>, k: int, g: Board) {
    && Indices(scaled, order)
    && |out| == |scaled| && 0 <= k <= |order| && |placed| == k && AllStanding(placed, g)
    && (forall j: nat :: j < |scaled| && j !in order[..k] ==> out[j] == scaled[j])
    && (forall a :: 0 <= a < k ==> out[order[a]] == Moved(scaled[order[a]], placed[a]))
    && (forall a :: 0 <= a < k ==> Sized(scaled[order[a]], g) && placed[a] == Seated(placed[..a], g, scaled[order[a]]))
  }

  lemma SettleStep(scaled: seq<Item>, order: seq<nat>, out: seq<Item>, placed: seq<Box>, k: int, g: Board, b: Box)
    requires HalfSettled(scaled, order, out, placed, k, g) && k < |order| && Distinct(order)
    requires Sized(scaled[order[k]], g) && b == Seated(placed, g, scaled[order[k]])
    ensures out[order[k]] == scaled[order[k]]
    ensures HalfSettled(scaled, order, out[order[k] := Moved(scaled[order[k]], b)], placed + [b], k + 1, g)
  {
    hide Seated, Sized;
    SeatedStands(placed, g, scaled[order[k]]);
    assert forall a :: 0 <= a < k ==> order[a] != order[k];
    assert order[..k + 1] == order[..k] + [order[k]];
    assert (placed + [b])[..k] == placed;
    assert forall a :: 0 <= a < k ==> (placed + [b])[..a] == placed[..a];
  }

  method Resettle(scaled: seq<Item>, g: Board) returns (out: seq<Item>)
    requires forall j :: 0 <= j < |scaled| && scaled[j].Scalable? ==> Sized(scaled[j], g)
    ensures KeepsIdentity(scaled, out)
    ensures var order := SeatOrder(scaled, |scaled|);
            Enumerates(out, order) && SeatedInTurn(BoxesIn(out, order), ItemsIn(scaled, order), g)
  {
    hide Seated, InsertIndex, SeatOrder;
    var order := SeatOrder(scaled, |scaled|);
    SeatOrderIsDistinct(scaled, |scaled|);
    out := scaled;
    var placed: seq<Box> := [];
    for k := 0 to |order|
      invariant HalfSettled(scaled, order, out, placed, k, g)
    {
      var item := out[order[k]];
      assert forall a :: 0 <= a < k ==> order[a] != order[k];
      var b := SeatItem(placed, g, item);
      SettleStep(scaled, order, out, placed, k, g, b);
      out := out[order[k] := Moved(item, b)];
      placed := placed + [b];
    }
    assert order[..|order|] == order;
    assert BoxesIn(out, order) == placed;
  }

  /** The scaled areas of what comes before an item tell in advance that nothing will overlap. */
  lemma RoomyRescaleIsDisjoint(layout: seq<Item>, factor: int, g: Board, vertical: int -> int, out: seq<Item>)
    requires g.columns >= 1 && g.rows >= 1
    requires var scaled := Scale(layout, factor, g, vertical);
             var order := SeatOrder(scaled, |scaled|);
             && Enumerates(out, order)
             && SeatedInTurn(BoxesIn(out, order), ItemsIn(scaled, order), g)
             && forall k :: 0 <= k < |order| ==> ItemArea(ItemsIn(scaled, order)[..k]) < g.columns * g.rows
    ensures DisjointItems(out)
  {
    hide Seated, SeatOrder, Scale;
    var scaled := Scale(layout, factor, g, vertical);
    var order := SeatOrder(scaled, |scaled|);
    RoomyLayoutsStayDisjoint(BoxesIn(out, order), ItemsIn(scaled, order), g);
    DisjointInAnyOrder(out, order);
  }
}
