/**
 The whole of `rescale`, from stored layout to stored layout, and what a reader of the two can see:
 how far each box was scaled, in which order boxes were seated, and where each came to rest. Nothing in
 what is said here speaks of how the seat was found.
 */
module RescaleLayouts {
  import opened Wrappers
  import opened Numbers
  import opened Grid
  import opened Rescale

  // ---------- Scaling ----------

  /** `int(x)`: towards zero. */
  function Trunc(x: real): (n: int)
    ensures x >= 0.0 ==> n as real <= x < (n + 1) as real
    ensures x < 0.0 ==> (n - 1) as real < x <= n as real
  {
    assert x < 0.0 ==> (-x).Floor as real <= -x < (-x).Floor as real + 1.0;
    if x >= 0.0 then x.Floor else -((-x).Floor)
  }

  /** The lowest row any scalable entry reaches, 0 when there is none. */
  ghost predicate IsExtent(layout: seq<Item>, extent: int) {
    && (forall j :: 0 <= j < |layout| && layout[j].Scalable? ==> layout[j].y + layout[j].h <= extent)
    && (if exists j :: 0 <= j < |layout| && layout[j].Scalable?
        then exists j :: 0 <= j < |layout| && layout[j].Scalable? && layout[j].y + layout[j].h == extent
        else extent == 0)
  }

  /** Rows take the factor, or whatever less fits the board. */
  function Ratio(extent: int, factor: int, g: Board): real {
    if extent == 0 then factor as real
    else if factor as real <= g.rows as real / extent as real then factor as real
    else g.rows as real / extent as real
  }

  function Rows(v: int, ratio: real): int {
    Trunc(v as real * ratio)
  }

  function Vertical(ratio: real): int -> int {
    v => Rows(v, ratio)
  }

  /** `n` is `v` times the ratio, cut towards zero. */
  predicate Truncates(v: int, ratio: real, n: int) {
    var x := v as real * ratio;
    if x >= 0.0 then n as real <= x < (n + 1) as real else (n - 1) as real < x <= n as real
  }

  /** Where scaling alone puts an entry: columns times the factor, rows times the ratio, held to the board. */
  ghost predicate ScaledTo(item: Item, factor: int, ratio: real, g: Board, b: Box)
    requires item.Scalable?
  {
    && b.x == (if item.x * factor <= g.columns - 1 then item.x * factor else g.columns - 1)
    && Truncates(item.y, ratio, b.y)
    && (if item.w * factor < 1 then b.w == 1 else if item.w * factor > g.columns then b.w == g.columns
        else b.w == item.w * factor)
    && exists h :: Truncates(item.h, ratio, h)
                   && b.h == if h < 1 then 1 else if h > g.rows then g.rows else h
  }

  // ---------- Seating ----------

  /** Every scalable entry once, by scaled row, then scaled column, then place in the layout. */
  ghost predicate InSeatingOrder(layout: seq<Item>, scaled: seq<Box>, order: seq<nat>)
    requires |scaled| == |layout|
  {
    && (forall k :: 0 <= k < |order| ==> order[k] < |layout| && layout[order[k]].Scalable?)
    && (forall j :: 0 <= j < |layout| && layout[j].Scalable? ==> j in order)
    && forall a, b :: 0 <= a < b < |order| ==> ComesBefore(scaled, order[a], order[b])
  }

  predicate ComesBefore(scaled: seq<Box>, i: nat, j: nat)
    requires i < |scaled| && j < |scaled|
  {
    || scaled[i].y < scaled[j].y
    || (scaled[i].y == scaled[j].y && scaled[i].x < scaled[j].x)
    || (scaled[i].y == scaled[j].y && scaled[i].x == scaled[j].x && i < j)
  }

  /** Whether a box stands in any of these columns. */
  predicate InColumns(b: Box, x: int, w: int) {
    b.x < x + w && x < b.x + b.w
  }

  /** The scaled column, moved left if the box would stick out, and never past the edge. */
  predicate InItsColumn(x: int, b: Box, g: Board) {
    if b.x + b.w <= g.columns then x == (if b.x < 0 then 0 else b.x)
    else x == (if b.w > g.columns then 0 else g.columns - b.w)
  }

  /** Beneath everything seated before it in its columns there is room for its scaled height. */
  predicate StillFits(before: seq<Box>, x: int, b: Box, g: Board) {
    b.h <= g.rows && forall k :: 0 <= k < |before| && InColumns(before[k], x, b.w) ==> before[k].y + before[k].h + b.h <= g.rows
  }

  /** Clear of everything seated before it in its columns, and on the top edge or on one of those. */
  predicate Rests(before: seq<Box>, b: Box) {
    && b.y >= 0
    && (forall k :: 0 <= k < |before| && InColumns(before[k], b.x, b.w) ==> before[k].y + before[k].h <= b.y)
    && (b.y == 0 || exists k :: 0 <= k < |before| && InColumns(before[k], b.x, b.w) && before[k].y + before[k].h == b.y)
  }

  /** The width of the most even `w` by `h` box with these sides summing to `s`, the odd cell going to the width. */
  function EvenWidth(w: int, h: int, s: int): int {
    Min(w, Max(s - h, (s + 1) / 2))
  }

  ghost predicate NoLargerFits(before: seq<Box>, g: Board, w: int, h: int, s: int) {
    forall more :: s < more <= w + h ==> !FitsSomewhere(before, g, EvenWidth(w, h, more), more - EvenWidth(w, h, more))
  }

  /** At the first free position for the largest size that has one; or a cell at the origin when none is free. */
  ghost predicate Relocated(before: seq<Box>, g: Board, w: int, h: int, b: Box) {
    && b.w == EvenWidth(w, h, b.w + b.h)
    && NoLargerFits(before, g, w, h, b.w + b.h)
    && (|| IsFirstSlot(before, g, b.w, b.h, Some((b.x, b.y)))
        || (b == Box(0, 0, 1, 1) && !FitsSomewhere(before, g, 1, 1)))
  }

  /** What became of one entry, given the boxes seated before it. */
  ghost predicate CameToRest(before: seq<Box>, scaled: Box, g: Board, b: Box) {
    exists x :: InItsColumn(x, scaled, g) &&
      if StillFits(before, x, scaled, g)
      then b.x == x && b.w == scaled.w && b.h == scaled.h && Rests(before, b)
      else Relocated(before, g, scaled.w, scaled.h, b)
  }

  function BoxesBefore(out: seq<Item>, order: seq<nat>, k: nat): (r: seq<Box>)
    requires k <= |order| && forall a :: 0 <= a < |order| ==> order[a] < |out| && out[order[a]].Scalable?
    ensures |r| == k && forall a :: 0 <= a < k ==> r[a] == Box(out[order[a]].x, out[order[a]].y, out[order[a]].w, out[order[a]].h)
  {
    seq(k, a requires 0 <= a < k => BoxOf(out[order[a]]))
  }

  /** The rewritten layout: same entries in the same places, each scalable one at rest where its turn came. */
  ghost predicate IsRescaled(layout: seq<Item>, factor: int, ratio: real, g: Board, out: seq<Item>,
                             scaled: seq<Box>, order: seq<nat>)
  {
    && |scaled| == |layout| && KeepsIdentity(layout, out)
    && (forall j :: 0 <= j < |layout| && layout[j].Scalable? ==> ScaledTo(layout[j], factor, ratio, g, scaled[j]))
    && InSeatingOrder(layout, scaled, order)
    && forall k :: 0 <= k < |order| ==> CameToRest(BoxesBefore(out, order, k), scaled[order[k]], g, BoxOf(out[order[k]]))
  }

  // ---------- One seat ----------

  lemma {:induction false} TopRests(placed: seq<Box>, x: int, w: int)
    ensures Top(placed, x, w) == 0 || exists k :: 0 <= k < |placed| && InColumns(placed[k], x, w)
                                                  && placed[k].y + placed[k].h == Top(placed, x, w)
  {
    if placed != [] {
      var rest := placed[1..];
      TopRests(rest, x, w);
      if k :| 0 <= k < |rest| && InColumns(rest[k], x, w) && rest[k].y + rest[k].h == Top(rest, x, w) {
        assert placed[k + 1] == rest[k];
      }
      assert InColumns(placed[0], x, w) ==> placed[0].y + placed[0].h <= Top(placed, x, w);
    }
  }

  /** Giving up height before width keeps the sides as even as they can be. */
  lemma StaysEven(w: int, h: int, w': int, h': int)
    requires 1 <= w' <= w && 1 <= h' <= h && w' == EvenWidth(w, h, w' + h')
    ensures EvenWidth(w, h, w' + h' - 1) == if h' >= w' then w' else w' - 1
  {
  }

  lemma NoneOfThisSum(before: seq<Box>, g: Board, w: int, h: int, s: int)
    requires NoLargerFits(before, g, w, h, s)
    requires !FitsSomewhere(before, g, EvenWidth(w, h, s), s - EvenWidth(w, h, s))
    ensures NoLargerFits(before, g, w, h, s - 1)
  {
    hide FitsSomewhere, EvenWidth;
  }

  lemma {:induction false} ShrunkIsRelocated(placed: seq<Box>, g: Board, w: int, h: int, w': int, h': int)
    requires Anchored(placed) && 1 <= w' <= w && 1 <= h' <= h
    requires w' == EvenWidth(w, h, w' + h') && NoLargerFits(placed, g, w, h, w' + h')
    ensures Relocated(placed, g, w, h, Shrunk(placed, g, w', h'))
    decreases w' + h'
  {
    hide FitsSomewhere, IsFirstSlot, EvenWidth, NoLargerFits, Anchored;
    match FirstSlot(placed, g, w', h')
    case Some(_) =>
    case None =>
      FitsNowhere(placed, g, w', h');
      if w' > 1 || h' > 1 {
        StaysEven(w, h, w', h');
        NoneOfThisSum(placed, g, w, h, w' + h');
        if h' >= w' {
          ShrunkIsRelocated(placed, g, w, h, w', h' - 1);
        } else {
          ShrunkIsRelocated(placed, g, w, h, w' - 1, h');
        }
      }
  }

  lemma FitsNowhere(placed: seq<Box>, g: Board, w: int, h: int)
    requires IsFirstSlot(placed, g, w, h, None)
    ensures !FitsSomewhere(placed, g, w, h)
  {
  }

  lemma SeatedCameToRest(placed: seq<Box>, g: Board, item: Item)
    requires Anchored(placed) && Sized(item, g)
    ensures CameToRest(placed, BoxOf(item), g, Seated(placed, g, item))
  {
    hide Relocated, Anchored, Shrunk;
    var x := SettledColumn(item, g);
    var top := Top(placed, x, item.w);
    TopIsClear(placed, x, item.w);
    TopRests(placed, x, item.w);
    assert InItsColumn(x, BoxOf(item), g);
    assert StillFits(placed, x, BoxOf(item), g) <==> top + item.h <= g.rows;
    if top + item.h > g.rows {
      ShrunkIsRelocated(placed, g, item.w, item.h, item.w, item.h);
    }
  }

  // ---------- The order ----------

  predicate Sooner(items: seq<Item>, i: nat, j: nat)
    requires i < |items| && items[i].Scalable? && j < |items| && items[j].Scalable?
  {
    || items[i].y < items[j].y
    || (items[i].y == items[j].y && items[i].x < items[j].x)
    || (items[i].y == items[j].y && items[i].x == items[j].x && i < j)
  }

  ghost predicate SoonerFirst(items: seq<Item>, order: seq<nat>) {
    && Indices(items, order)
    && forall a, b :: 0 <= a < b < |order| ==> Sooner(items, order[a], order[b])
  }

  lemma {:induction false} InsertSoonerFirst(items: seq<Item>, order: seq<nat>, n: nat)
    requires SoonerFirst(items, order) && n < |items| && items[n].Scalable?
    requires forall a :: 0 <= a < |order| ==> order[a] < n
    ensures SoonerFirst(items, InsertIndex(items, order, n))
  {
    hide Sooner;
    if order != [] {
      var i := order[0];
      EitherIsSooner(items, i, n);
      if SeatsBefore(items[n], items[i]) {
        forall b | 0 <= b < |order| ensures Sooner(items, n, order[b]) {
          assert b > 0 ==> Sooner(items, i, order[b]);
          SoonerIsTransitive(items, n, i, order[b]);
        }
      } else {
        var rest := InsertIndex(items, order[1..], n);
        InsertSoonerFirst(items, order[1..], n);
        forall b | 0 <= b < |rest| ensures Sooner(items, i, rest[b]) {
          assert rest[b] in rest;
          if rest[b] != n {
            var a :| 0 <= a < |order[1..]| && order[1..][a] == rest[b];
            assert Sooner(items, i, order[a + 1]);
          }
        }
      }
    }
  }

  lemma EitherIsSooner(items: seq<Item>, i: nat, n: nat)
    requires i < n < |items| && items[i].Scalable? && items[n].Scalable?
    ensures if SeatsBefore(items[n], items[i]) then Sooner(items, n, i) else Sooner(items, i, n)
  {
  }

  lemma SoonerIsTransitive(items: seq<Item>, i: nat, j: nat, k: nat)
    requires i < |items| && items[i].Scalable? && j < |items| && items[j].Scalable? && k < |items| && items[k].Scalable?
    requires Sooner(items, i, j) && (j == k || Sooner(items, j, k))
    ensures Sooner(items, i, k)
  {
  }

  lemma {:induction false} SeatOrderIsSoonerFirst(items: seq<Item>, n: nat)
    requires n <= |items|
    ensures SoonerFirst(items, SeatOrder(items, n))
  {
    if n > 0 {
      SeatOrderIsSoonerFirst(items, n - 1);
      if items[n - 1].Scalable? {
        var order := SeatOrder(items, n - 1);
        forall a | 0 <= a < |order| ensures order[a] < n - 1 {
          assert order[a] in order;
        }
        InsertSoonerFirst(items, order, n - 1);
      }
    }
  }

  // ---------- The rewrite ----------

  method ExtentOf(layout: seq<Item>) returns (extent: int)
    ensures IsExtent(layout, extent)
  {
    extent := 0;
    var any := false;
    for j := 0 to |layout|
      invariant any <==> exists k :: 0 <= k < j && layout[k].Scalable?
      invariant !any ==> extent == 0
      invariant any ==> exists k :: 0 <= k < j && layout[k].Scalable? && layout[k].y + layout[k].h == extent
      invariant forall k :: 0 <= k < j && layout[k].Scalable? ==> layout[k].y + layout[k].h <= extent
    {
      if layout[j].Scalable? {
        var bottom := layout[j].y + layout[j].h;
        if !any || bottom > extent {
          extent := bottom;
          assert layout[j].y + layout[j].h == extent;
        }
        any := true;
      }
    }
  }

  function ScaledBoxes(scaled: seq<Item>): (r: seq<Box>)
    ensures |r| == |scaled| && forall j :: 0 <= j < |scaled| && scaled[j].Scalable? ==> r[j] == BoxOf(scaled[j])
  {
    seq(|scaled|, j requires 0 <= j < |scaled| => if scaled[j].Scalable? then BoxOf(scaled[j]) else Box(0, 0, 0, 0))
  }

  lemma ScaledItems(layout: seq<Item>, factor: int, ratio: real, g: Board)
    requires g.columns >= 1 && g.rows >= 1
    ensures var scaled := Scale(layout, factor, g, Vertical(ratio));
            && (forall j :: 0 <= j < |layout| ==> (scaled[j].Scalable? <==> layout[j].Scalable?))
            && forall j :: 0 <= j < |layout| && layout[j].Scalable? ==>
                 ScaledTo(layout[j], factor, ratio, g, BoxOf(scaled[j]))
  {
    forall j | 0 <= j < |layout| && layout[j].Scalable?
      ensures ScaledTo(layout[j], factor, ratio, g, BoxOf(ScaleItem(layout[j], factor, g, Vertical(ratio))))
    {
      VerticalTruncates(layout[j].y, ratio);
      VerticalTruncates(layout[j].h, ratio);
    }
  }

  lemma VerticalTruncates(v: int, ratio: real)
    ensures Truncates(v, ratio, Vertical(ratio)(v))
  {
    assert Vertical(ratio)(v) == Rows(v, ratio);
  }

  lemma OrderOfScaled(layout: seq<Item>, scaled: seq<Item>, order: seq<nat>)
    requires |scaled| == |layout| && forall j :: 0 <= j < |layout| ==> (scaled[j].Scalable? <==> layout[j].Scalable?)
    requires order == SeatOrder(scaled, |scaled|)
    ensures InSeatingOrder(layout, ScaledBoxes(scaled), order)
  {
    hide SeatOrder;
    SeatOrderIsSoonerFirst(scaled, |scaled|);
    var boxes := ScaledBoxes(scaled);
    forall a, b | 0 <= a < b < |order| ensures ComesBefore(boxes, order[a], order[b]) {
      assert Sooner(scaled, order[a], order[b]);
      assert boxes[order[a]] == BoxOf(scaled[order[a]]) && boxes[order[b]] == BoxOf(scaled[order[b]]);
    }
  }

  lemma SeatsCameToRest(scaled: seq<Item>, out: seq<Item>, order: seq<nat>, g: Board, k: nat)
    requires Enumerates(out, order) && Indices(scaled, order) && k < |order|
    requires SeatedInTurn(BoxesIn(out, order), ItemsIn(scaled, order), g)
    ensures CameToRest(BoxesBefore(out, order, k), BoxOf(scaled[order[k]]), g, BoxOf(out[order[k]]))
  {
    hide CameToRest, Seated, Standing;
    var boxes := BoxesIn(out, order);
    assert BoxesBefore(out, order, k) == boxes[..k];
    assert ItemsIn(scaled, order)[k] == scaled[order[k]];
    StandingAreAnchored(boxes[..k], g);
    SeatedCameToRest(boxes[..k], g, scaled[order[k]]);
  }

  lemma StandingAreAnchored(boxes: seq<Box>, g: Board)
    requires AllStanding(boxes, g)
    ensures Anchored(boxes)
  {
  }

  /**
   `rescale`. Each entry keeps its identity and its place in the list; each scalable one comes to rest,
   when its turn comes by scaled row and column, in its scaled column at its scaled size under what was
   seated before it, or, where that leaves the board, at the first free position for the largest size
   that has one. Nothing overlaps exactly when every entry found a cell free when its turn came.
   */
  method RescaleLayout(layout: seq<Item>, factor: int, g: Board)
    returns (out: seq<Item>, ghost ratio: real, ghost scaled: seq<Box>, ghost order: seq<nat>)
    requires g.columns >= 1 && g.rows >= 1
    ensures exists extent :: IsExtent(layout, extent) && ratio == Ratio(extent, factor, g)
    ensures IsRescaled(layout, factor, ratio, g, out, scaled, order) && AllInGrid(out, g)
    ensures DisjointItems(out) <==>
            forall k :: 0 <= k < |order| ==> FitsSomewhere(BoxesBefore(out, order, k), g, 1, 1)
  {
    hide Seating, SeatedInTurn, SeatOrder, BoxesIn, ItemsIn, CameToRest, ScaledTo, Scale, ScaledBoxes, IsExtent, Ratio,
         AllInGrid, KeepsIdentity, HasFreeCell, DisjointItems, InSeatingOrder;
    var extent := ExtentOf(layout);
    var vertical := Vertical(Ratio(extent, factor, g));
    ratio := Ratio(extent, factor, g);
    out := Rescale.Rescale(layout, factor, g, vertical);
    ghost var items := Scale(layout, factor, g, vertical);
    order := SeatOrder(items, |items|);
    scaled := ScaledBoxes(items);
    ScaledItems(layout, factor, ratio, g);
    OrderOfScaled(layout, items, order);
    forall k | 0 <= k < |order|
      ensures CameToRest(BoxesBefore(out, order, k), scaled[order[k]], g, BoxOf(out[order[k]]))
    {
      SeatsCameToRest(items, out, order, g, k);
    }
    RoomInTurn(items, out, order, g);
  }

  lemma RoomInTurn(scaled: seq<Item>, out: seq<Item>, order: seq<nat>, g: Board)
    requires Enumerates(out, order) && Indices(scaled, order)
    requires SeatedInTurn(BoxesIn(out, order), ItemsIn(scaled, order), g)
    ensures DisjointItems(out) <==>
            forall k :: 0 <= k < |order| ==> FitsSomewhere(BoxesBefore(out, order, k), g, 1, 1)
  {
    hide SeatedInTurn, DisjointItems, FitsSomewhere;
    var boxes := BoxesIn(out, order);
    DisjointInAnyOrder(out, order);
    DisjointIffRoom(boxes, ItemsIn(scaled, order), g);
    forall k | 0 <= k < |order| ensures BoxesBefore(out, order, k) == boxes[..k] {
    }
  }

  // ---------- What is kept ----------

  /** Scaled rows never leave the board, whatever the layout's height. */
  lemma ScaledRowsFit(layout: seq<Item>, extent: int, factor: int, ratio: real, g: Board, j: nat, b: Box)
    requires IsExtent(layout, extent) && factor >= 1 && g.rows >= 1 && ratio == Ratio(extent, factor, g)
    requires j < |layout| && layout[j].Scalable? && layout[j].y >= 0 && layout[j].h >= 1
    requires ScaledTo(layout[j], factor, ratio, g, b)
    ensures 0 <= b.y && b.y + b.h <= g.rows
  {
    hide Ratio, Truncates;
    var l := layout[j];
    assert l.y + l.h <= extent;
    RatioFits(extent, factor, g);
    var h :| Truncates(l.h, ratio, h) && b.h == if h < 1 then 1 else if h > g.rows then g.rows else h;
    RowsStay(l.y, l.h, ratio, extent, g.rows, b.y, h);
  }

  lemma RowsStay(y: int, h: int, ratio: real, extent: int, rows: int, top: int, height: int)
    requires y >= 0 && h >= 1 && y + h <= extent && ratio > 0.0 && extent as real * ratio <= rows as real && rows >= 1
    requires Truncates(y, ratio, top) && Truncates(h, ratio, height)
    ensures 0 <= top && top + (if height < 1 then 1 else if height > rows then rows else height) <= rows
  {
    hide Truncates;
    PartsFit(y as real, h as real, ratio, extent as real, rows);
    TruncatesDown(y, ratio, top);
    TruncatesDown(h, ratio, height);
    PartsTruncate(y as real * ratio, h as real * ratio, top, height, rows);
  }

  lemma PartsFit(y: real, h: real, ratio: real, e: real, rows: int)
    requires y >= 0.0 && h >= 1.0 && y + h <= e && ratio > 0.0 && e * ratio <= rows as real
    ensures y * ratio >= 0.0 && h * ratio > 0.0 && y * ratio + h * ratio <= rows as real
  {
    assert y * ratio + h * ratio == (y + h) * ratio;
    assert (e - (y + h)) * ratio >= 0.0;
    assert (e - (y + h)) * ratio == e * ratio - (y + h) * ratio;
  }

  lemma TruncatesDown(v: int, ratio: real, n: int)
    requires Truncates(v, ratio, n) && v as real * ratio >= 0.0
    ensures n as real <= v as real * ratio < (n + 1) as real
  {
  }

  lemma PartsTruncate(a: real, b: real, y: int, h: int, rows: int)
    requires a >= 0.0 && b > 0.0 && a + b <= rows as real && rows >= 1
    requires y as real <= a < (y + 1) as real && h as real <= b < (h + 1) as real
    ensures 0 <= y && y + (if h < 1 then 1 else if h > rows then rows else h) <= rows
  {
  }

  lemma RatioFits(extent: int, factor: int, g: Board)
    requires extent >= 1 && factor >= 1 && g.rows >= 1
    ensures Ratio(extent, factor, g) > 0.0 && extent as real * Ratio(extent, factor, g) <= g.rows as real
  {
    var e, most := extent as real, g.rows as real / extent as real;
    assert e * most == g.rows as real;
    if factor as real <= most {
      assert e * factor as real <= e * most;
    }
  }

  /** Boxes that overlap nothing, stay on the board, and rest on its top edge or on one another. */
  ghost predicate Settled(layout: seq<Item>, boxes: seq<Box>, g: Board)
    requires |boxes| == |layout|
  {
    && (forall j :: 0 <= j < |layout| && layout[j].Scalable? ==> Standing(boxes[j], g))
    && (forall i, j :: 0 <= i < |layout| && 0 <= j < |layout| && i != j && layout[i].Scalable? && layout[j].Scalable? ==>
          !Clash(boxes[i], boxes[j]))
    && forall j :: 0 <= j < |layout| && layout[j].Scalable? ==> boxes[j].y == 0 || exists i :: Carries(layout, boxes, i, j)
  }

  ghost predicate Carries(layout: seq<Item>, boxes: seq<Box>, i: int, j: int)
    requires |boxes| == |layout|
  {
    && 0 <= i < |layout| && 0 <= j < |layout| && layout[i].Scalable?
    && InColumns(boxes[i], boxes[j].x, boxes[j].w) && boxes[i].y + boxes[i].h == boxes[j].y
  }

  lemma StaysInItsTurn(layout: seq<Item>, boxes: seq<Box>, order: seq<nat>, k: nat, before: seq<Box>, g: Board, b: Box)
    requires |boxes| == |layout| && Settled(layout, boxes, g) && InSeatingOrder(layout, boxes, order) && k < |order|
    requires |before| == k && forall a :: 0 <= a < k ==> before[a] == boxes[order[a]]
    requires CameToRest(before, boxes[order[k]], g, b)
    ensures b == boxes[order[k]]
  {
    hide Relocated;
    var j, t := order[k], boxes[order[k]];
    forall a | 0 <= a < k && InColumns(before[a], t.x, t.w) ensures before[a].y + before[a].h <= t.y {
      assert ComesBefore(boxes, order[a], j);
      assert order[a] != j && !Clash(boxes[order[a]], t);
    }
    assert StillFits(before, t.x, t, g);
    assert b.x == t.x && b.w == t.w && b.h == t.h && Rests(before, b);
    assert b.y <= t.y;
    if t.y != 0 {
      var i :| Carries(layout, boxes, i, j);
      assert i in order;
      var a :| 0 <= a < |order| && order[a] == i;
      assert boxes[i].y < t.y;
      assert a < k;
      assert before[a] == boxes[i];
    }
  }

  lemma {:induction false} KeptSoFar(layout: seq<Item>, factor: int, ratio: real, g: Board, out: seq<Item>,
                                     scaled: seq<Box>, order: seq<nat>, k: nat)
    requires IsRescaled(layout, factor, ratio, g, out, scaled, order) && Settled(layout, scaled, g) && k <= |order|
    ensures forall a :: 0 <= a < k ==> BoxOf(out[order[a]]) == scaled[order[a]]
  {
    hide Settled, CameToRest, ScaledTo, ComesBefore;
    if k > 0 {
      KeptSoFar(layout, factor, ratio, g, out, scaled, order, k - 1);
      var before := BoxesBefore(out, order, k - 1);
      forall a | 0 <= a < k - 1 ensures before[a] == scaled[order[a]] {
        assert before[a] == BoxOf(out[order[a]]);
      }
      StaysInItsTurn(layout, scaled, order, k - 1, before, g, BoxOf(out[order[k - 1]]));
    }
  }

  /** When the scaled boxes are already settled, the rewrite leaves them all where scaling put them. */
  lemma SettledLayoutIsKept(layout: seq<Item>, factor: int, ratio: real, g: Board, out: seq<Item>,
                            scaled: seq<Box>, order: seq<nat>)
    requires IsRescaled(layout, factor, ratio, g, out, scaled, order) && Settled(layout, scaled, g)
    ensures forall j :: 0 <= j < |layout| && layout[j].Scalable? ==>
              out[j] == Scalable(layout[j].i, scaled[j].x, scaled[j].y, scaled[j].w, scaled[j].h)
  {
    hide Settled, CameToRest, ScaledTo, ComesBefore;
    KeptSoFar(layout, factor, ratio, g, out, scaled, order, |order|);
    forall j | 0 <= j < |layout| && layout[j].Scalable?
      ensures out[j] == Scalable(layout[j].i, scaled[j].x, scaled[j].y, scaled[j].w, scaled[j].h)
    {
      assert j in order;
      var a :| 0 <= a < |order| && order[a] == j;
      assert BoxOf(out[order[a]]) == scaled[order[a]];
    }
  }

  // ---------- Scaling by the full factor ----------

  /** The boxes of a layout, columns and rows times the factor. */
  function Times(layout: seq<Item>, factor: int): (r: seq<Box>)
    ensures |r| == |layout|
    ensures forall j :: 0 <= j < |layout| && layout[j].Scalable? ==>
              r[j] == Box(layout[j].x * factor, layout[j].y * factor, layout[j].w * factor, layout[j].h * factor)
  {
    seq(|layout|, j requires 0 <= j < |layout| =>
      if layout[j].Scalable?
      then Box(layout[j].x * factor, layout[j].y * factor, layout[j].w * factor, layout[j].h * factor)
      else Box(0, 0, 0, 0))
  }

  /** The layout fits the board once scaled by the factor. */
  predicate FitsTimes(layout: seq<Item>, factor: int, g: Board) {
    forall j :: 0 <= j < |layout| && layout[j].Scalable? ==>
      && layout[j].x >= 0 && layout[j].y >= 0 && layout[j].w >= 1 && layout[j].h >= 1
      && (layout[j].x + layout[j].w) * factor <= g.columns && (layout[j].y + layout[j].h) * factor <= g.rows
  }

  lemma FullRatio(layout: seq<Item>, extent: int, factor: int, g: Board)
    requires IsExtent(layout, extent) && FitsTimes(layout, factor, g) && factor >= 1
    ensures Ratio(extent, factor, g) == factor as real
  {
    if extent != 0 {
      var j :| 0 <= j < |layout| && layout[j].Scalable? && layout[j].y + layout[j].h == extent;
      assert extent * factor <= g.rows;
      FactorFits(extent, factor, g.rows);
    }
  }

  lemma FactorFits(extent: int, factor: int, rows: int)
    requires extent >= 1 && extent * factor <= rows
    ensures factor as real <= rows as real / extent as real
  {
    assert extent as real * factor as real == (extent * factor) as real;
    QuotientAtLeast(extent as real, factor as real, rows as real);
  }

  lemma QuotientAtLeast(e: real, f: real, r: real)
    requires e > 0.0 && e * f <= r
    ensures f <= r / e
  {
    var q := r / e;
    assert q * e == r;
    if q < f {
      assert (f - q) * e > 0.0;
      assert (f - q) * e == f * e - q * e;
    }
  }

  lemma TruncatesWhole(v: int, factor: int, n: int)
    requires Truncates(v, factor as real, n)
    ensures n == v * factor
  {
    assert v as real * factor as real == (v * factor) as real;
  }

  lemma AtLeast(a: int, factor: int)
    requires a >= 1 && factor >= 1
    ensures a * factor >= factor >= 1
  {
    assert (a - 1) * factor >= 0;
  }

  lemma SpanTimes(at: int, length: int, factor: int, end: int)
    requires at >= 0 && length >= 1 && factor >= 1 && (at + length) * factor <= end
    ensures at * factor >= 0 && length * factor >= 1 && at * factor + length * factor <= end
  {
    AtLeast(length, factor);
    assert (at + length) * factor == at * factor + length * factor;
    assert at * factor >= 0;
  }

  lemma HeightTimes(item: Item, factor: int, g: Board, b: Box)
    requires item.Scalable? && ScaledTo(item, factor, factor as real, g, b) && 1 <= item.h * factor <= g.rows
    ensures b.y == item.y * factor && b.h == item.h * factor
  {
    TruncatesWhole(item.y, factor, b.y);
    var h :| Truncates(item.h, factor as real, h) && b.h == if h < 1 then 1 else if h > g.rows then g.rows else h;
    TruncatesWhole(item.h, factor, h);
  }

  lemma ScaledToTimes(item: Item, factor: int, g: Board, b: Box)
    requires item.Scalable? && factor >= 1 && item.x >= 0 && item.y >= 0 && item.w >= 1 && item.h >= 1
    requires (item.x + item.w) * factor <= g.columns && (item.y + item.h) * factor <= g.rows
    requires ScaledTo(item, factor, factor as real, g, b)
    ensures b == Box(item.x * factor, item.y * factor, item.w * factor, item.h * factor)
    ensures b.x >= 0 && b.y >= 0
  {
    hide Truncates;
    SpanTimes(item.x, item.w, factor, g.columns);
    SpanTimes(item.y, item.h, factor, g.rows);
    HeightTimes(item, factor, g, b);
  }

  lemma TimesKeepsOrder(a: int, b: int, factor: int)
    requires a <= b && factor >= 1
    ensures a * factor <= b * factor
  {
    assert (b - a) * factor >= 0;
  }

  lemma TimesKeepsApart(a: Box, b: Box, factor: int)
    requires factor >= 1 && !Clash(a, b)
    ensures !Clash(Box(a.x * factor, a.y * factor, a.w * factor, a.h * factor),
                   Box(b.x * factor, b.y * factor, b.w * factor, b.h * factor))
  {
    assert (a.x + a.w) * factor == a.x * factor + a.w * factor && (a.y + a.h) * factor == a.y * factor + a.h * factor;
    assert (b.x + b.w) * factor == b.x * factor + b.w * factor && (b.y + b.h) * factor == b.y * factor + b.h * factor;
    if a.x >= b.x + b.w {
      TimesKeepsOrder(b.x + b.w, a.x, factor);
    } else if b.x >= a.x + a.w {
      TimesKeepsOrder(a.x + a.w, b.x, factor);
    } else if a.y >= b.y + b.h {
      TimesKeepsOrder(b.y + b.h, a.y, factor);
    } else {
      TimesKeepsOrder(a.y + a.h, b.y, factor);
    }
  }

  lemma TimesKeepsColumns(a: Box, x: int, w: int, factor: int)
    requires factor >= 1 && InColumns(a, x, w)
    ensures InColumns(Box(a.x * factor, a.y * factor, a.w * factor, a.h * factor), x * factor, w * factor)
    ensures a.y * factor + a.h * factor == (a.y + a.h) * factor
  {
    assert (a.x + a.w) * factor == a.x * factor + a.w * factor && (x + w) * factor == x * factor + w * factor;
    AtLeast(x + w - a.x, factor);
    AtLeast(a.x + a.w - x, factor);
    assert (x + w - a.x) * factor == (x + w) * factor - a.x * factor;
    assert (a.x + a.w - x) * factor == (a.x + a.w) * factor - x * factor;
  }

  lemma TimesStands(item: Item, factor: int, g: Board)
    requires factor >= 1 && item.Scalable? && FitsTimes([item], factor, g)
    ensures Standing(Box(item.x * factor, item.y * factor, item.w * factor, item.h * factor), g)
  {
    var l := [item][0];
    AtLeast(l.w, factor);
    AtLeast(l.h, factor);
    assert (l.x + l.w) * factor == l.x * factor + l.w * factor && (l.y + l.h) * factor == l.y * factor + l.h * factor;
    assert l.x * factor >= 0 && l.y * factor >= 0;
  }

  lemma TimesCarries(layout: seq<Item>, factor: int, i: int, j: int)
    requires factor >= 1 && Carries(layout, Times(layout, 1), i, j) && layout[j].Scalable?
    ensures Carries(layout, Times(layout, factor), i, j)
  {
    hide InColumns;
    TimesKeepsColumns(BoxOf(layout[i]), layout[j].x, layout[j].w, factor);
  }

  /** A settled layout stays settled when every number is multiplied. */
  lemma TimesSettles(layout: seq<Item>, factor: int, small: Board, g: Board)
    requires factor >= 1 && FitsTimes(layout, factor, g) && Settled(layout, Times(layout, 1), small)
    ensures Settled(layout, Times(layout, factor), g)
  {
    hide Clash, InColumns, Carries, Times, Standing;
    var boxes, big := Times(layout, 1), Times(layout, factor);
    forall j | 0 <= j < |layout| && layout[j].Scalable?
      ensures Standing(big[j], g) && (big[j].y == 0 || exists i :: Carries(layout, big, i, j))
    {
      TimesStands(layout[j], factor, g);
      if boxes[j].y != 0 {
        var i :| Carries(layout, boxes, i, j);
        TimesCarries(layout, factor, i, j);
      }
    }
    forall i, j | 0 <= i < |layout| && 0 <= j < |layout| && i != j && layout[i].Scalable? && layout[j].Scalable?
      ensures !Clash(big[i], big[j])
    {
      assert !Clash(boxes[i], boxes[j]);
      assert boxes[i] == BoxOf(layout[i]) && boxes[j] == BoxOf(layout[j]);
      TimesKeepsApart(boxes[i], boxes[j], factor);
    }
  }

  /**
   The arrangement is preserved: a layout that overlaps nothing, rests, and fits the board once doubled
   (or scaled by any factor) comes out with every number doubled and nothing moved otherwise.
   */
  lemma ArrangementIsKept(layout: seq<Item>, extent: int, factor: int, ratio: real, small: Board, g: Board, out: seq<Item>,
                          scaled: seq<Box>, order: seq<nat>)
    requires factor >= 1 && FitsTimes(layout, factor, g) && Settled(layout, Times(layout, 1), small)
    requires IsExtent(layout, extent) && ratio == Ratio(extent, factor, g)
    requires IsRescaled(layout, factor, ratio, g, out, scaled, order)
    ensures forall j :: 0 <= j < |layout| && layout[j].Scalable? ==>
              out[j] == Scalable(layout[j].i, layout[j].x * factor, layout[j].y * factor,
                                 layout[j].w * factor, layout[j].h * factor)
  {
    hide CameToRest, ScaledTo, InSeatingOrder, Settled, Times, FitsTimes, Ratio, IsExtent, KeepsIdentity;
    FullRatio(layout, extent, factor, g);
    ScaledAreTimes(layout, factor, ratio, g, out, scaled, order);
    TimesSettles(layout, factor, small, g);
    SameBoxesSettle(layout, Times(layout, factor), scaled, g);
    SettledLayoutIsKept(layout, factor, ratio, g, out, scaled, order);
  }

  lemma ScaledAreTimes(layout: seq<Item>, factor: int, ratio: real, g: Board, out: seq<Item>, scaled: seq<Box>, order: seq<nat>)
    requires factor >= 1 && FitsTimes(layout, factor, g) && ratio == factor as real
    requires IsRescaled(layout, factor, ratio, g, out, scaled, order)
    ensures forall j :: 0 <= j < |layout| && layout[j].Scalable? ==> scaled[j] == Times(layout, factor)[j]
  {
    hide CameToRest, ScaledTo, InSeatingOrder, Times, KeepsIdentity;
    forall j | 0 <= j < |layout| && layout[j].Scalable? ensures scaled[j] == Times(layout, factor)[j] {
      ScaledToTimes(layout[j], factor, g, scaled[j]);
    }
  }

  lemma SameBoxesSettle(layout: seq<Item>, a: seq<Box>, b: seq<Box>, g: Board)
    requires |a| == |b| == |layout| && Settled(layout, a, g)
    requires forall j :: 0 <= j < |layout| && layout[j].Scalable? ==> a[j] == b[j]
    ensures Settled(layout, b, g)
  {
    hide Clash, InColumns;
    forall j | 0 <= j < |layout| && layout[j].Scalable? && b[j].y != 0 ensures exists i :: Carries(layout, b, i, j) {
      var i :| Carries(layout, a, i, j);
      assert Carries(layout, b, i, j);
    }
  }

  // ---------- A layout the migration cannot keep apart ----------

  /** Three full-width boxes on fifty rows, none touching another. */
  const TALL: seq<Item> := [Scalable("a", 0, 0, 12, 48), Scalable("b", 0, 48, 12, 1), Scalable("c", 0, 49, 12, 1)]
  const CANONICAL := Board(24, 24)

  lemma TallIsDisjoint()
    ensures DisjointItems(TALL)
  {
  }

  lemma TallScaled(extent: int, scaled: Box, j: nat)
    requires j < 3 && IsExtent(TALL, extent) && ScaledTo(TALL[j], 2, Ratio(extent, 2, CANONICAL), CANONICAL, scaled)
    ensures scaled == [Box(0, 0, 24, 23), Box(0, 23, 24, 1), Box(0, 23, 24, 1)][j]
  {
    assert TALL[2].y + TALL[2].h == 50;
    assert extent == 50;
    assert Ratio(50, 2, CANONICAL) == 0.48;
  }

  lemma TallOrder(scaled: seq<Box>, order: seq<nat>)
    requires scaled == [Box(0, 0, 24, 23), Box(0, 23, 24, 1), Box(0, 23, 24, 1)] && InSeatingOrder(TALL, scaled, order)
    ensures |order| >= 2 && order[0] == 0 && order[1] == 1 && forall k :: 0 <= k < |order| ==> order[k] < 3
  {
    assert 0 in order && 1 in order;
    assert forall i: nat :: i < 3 ==> !ComesBefore(scaled, i, 0) && (i != 0 ==> !ComesBefore(scaled, i, 1));
    var a :| 0 <= a < |order| && order[a] == 0;
    var b :| 0 <= b < |order| && order[b] == 1;
    assert order[0] == 0;
    assert order[1] < 3;
  }

  /** Three widgets that do not overlap before the migration and always do after it: the board fills up. */
  lemma RescaleCanOverlap(extent: int, out: seq<Item>, scaled: seq<Box>, order: seq<nat>)
    requires IsExtent(TALL, extent) && AllInGrid(out, CANONICAL)
    requires IsRescaled(TALL, 2, Ratio(extent, 2, CANONICAL), CANONICAL, out, scaled, order)
    ensures !DisjointItems(out)
  {
    hide Relocated, ScaledTo, ComesBefore, InSeatingOrder, IsExtent, Ratio;
    TallScaled(extent, scaled[0], 0);
    TallScaled(extent, scaled[1], 1);
    TallScaled(extent, scaled[2], 2);
    TallOrder(scaled, order);
    FirstTwoAreStill(out, scaled, order);
    assert Standing(BoxOf(out[2]), CANONICAL);
    assert Clash(BoxOf(out[0]), BoxOf(out[2])) || Clash(BoxOf(out[1]), BoxOf(out[2]));
  }

  lemma FirstTwoAreStill(out: seq<Item>, scaled: seq<Box>, order: seq<nat>)
    requires |out| == 3 && out[0].Scalable? && out[1].Scalable? && out[2].Scalable?
    requires scaled == [Box(0, 0, 24, 23), Box(0, 23, 24, 1), Box(0, 23, 24, 1)]
    requires |order| >= 2 && order[0] == 0 && order[1] == 1 && forall k :: 0 <= k < |order| ==> order[k] < 3
    requires forall k :: 0 <= k < 2 ==>
               CameToRest(BoxesBefore(out, order, k), scaled[order[k]], CANONICAL, BoxOf(out[order[k]]))
    ensures BoxOf(out[0]) == Box(0, 0, 24, 23) && BoxOf(out[1]) == Box(0, 23, 24, 1)
  {
    hide Relocated;
    assert CameToRest(BoxesBefore(out, order, 0), scaled[0], CANONICAL, BoxOf(out[0]));
    assert BoxesBefore(out, order, 1)[0] == Box(0, 0, 24, 23);
    assert CameToRest(BoxesBefore(out, order, 1), scaled[1], CANONICAL, BoxOf(out[1]));
  }
}
