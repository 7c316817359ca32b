/**
 Placing boxes on a bounded board. The scans look only at the edges of what is already there; the
 specification looks at every cell.
 */
module Grid {
  import opened Wrappers
  import opened SortedSets

  datatype Box = Box(x: int, y: int, w: int, h: int)

  datatype Board = Board(columns: int, rows: int)

  predicate Clash(a: Box, b: Box) {
    a.x < b.x + b.w && b.x < a.x + a.w && a.y < b.y + b.h && b.y < a.y + a.h
  }

  /** A box covers the cell `(x, y)`. */
  predicate HasCell(b: Box, x: int, y: int) {
    b.x <= x < b.x + b.w && b.y <= y < b.y + b.h
  }

  /** Boxes with any cells clash exactly when they share one. */
  lemma ClashIffShareCell(a: Box, b: Box)
    requires a.w >= 1 && a.h >= 1 && b.w >= 1 && b.h >= 1
    ensures Clash(a, b) <==> exists x, y :: HasCell(a, x, y) && HasCell(b, x, y)
  {
    if Clash(a, b) {
      var x, y := if a.x < b.x then b.x else a.x, if a.y < b.y then b.y else a.y;
      assert HasCell(a, x, y) && HasCell(b, x, y);
    }
  }

  predicate Clear(boxes: seq<Box>, a: Box) {
    forall i :: 0 <= i < |boxes| ==> !Clash(a, boxes[i])
  }

  predicate InGrid(a: Box, g: Board) {
    0 <= a.x && 0 <= a.y && a.x + a.w <= g.columns && a.y + a.h <= g.rows
  }

  /** A box may stand here. */
  predicate Fits(boxes: seq<Box>, g: Board, a: Box) {
    InGrid(a, g) && Clear(boxes, a)
  }

  /** Far edges lie at or after the origin, as they do for every box inside the board. */
  predicate Anchored(boxes: seq<Box>) {
    forall i :: 0 <= i < |boxes| ==> boxes[i].x + boxes[i].w >= 0 && boxes[i].y + boxes[i].h >= 0
  }

  predicate Precedes(y: int, x: int, y': int, x': int) {
    y < y' || (y == y' && x <= x')
  }

  /** The topmost, then leftmost, of all free positions for this size; nothing when there is none. */
  ghost predicate IsFirstSlot(boxes: seq<Box>, g: Board, w: int, h: int, slot: Option<(int, int)>) {
    match slot
    case None => forall x, y :: !Fits(boxes, g, Box(x, y, w, h))
    case Some((x, y)) =>
      && Fits(boxes, g, Box(x, y, w, h))
      && forall x', y' :: Fits(boxes, g, Box(x', y', w, h)) ==> Precedes(y, x, y', x')
  }

  lemma FirstSlotIsUnique(boxes: seq<Box>, g: Board, w: int, h: int, a: Option<(int, int)>, b: Option<(int, int)>)
    requires IsFirstSlot(boxes, g, w, h, a) && IsFirstSlot(boxes, g, w, h, b)
    ensures a == b
  {
    if a.Some? {
      assert Fits(boxes, g, Box(a.value.0, a.value.1, w, h));
    }
    if b.Some? {
      assert Fits(boxes, g, Box(b.value.0, b.value.1, w, h));
    }
  }

  // ---------- Edges ----------

  function Bottoms(boxes: seq<Box>): seq<int> {
    if boxes == [] then [] else [boxes[0].y + boxes[0].h] + Bottoms(boxes[1..])
  }

  function Rights(boxes: seq<Box>): seq<int> {
    if boxes == [] then [] else [boxes[0].x + boxes[0].w] + Rights(boxes[1..])
  }

  function RowEdges(boxes: seq<Box>): seq<int> {
    SortedSet([0] + Bottoms(boxes))
  }

  function ColumnEdges(boxes: seq<Box>): seq<int> {
    SortedSet([0] + Rights(boxes))
  }

  lemma {:induction false} BottomsAre(boxes: seq<Box>)
    ensures |Bottoms(boxes)| == |boxes|
    ensures forall i :: 0 <= i < |boxes| ==> Bottoms(boxes)[i] == boxes[i].y + boxes[i].h
  {
    if boxes != [] {
      BottomsAre(boxes[1..]);
    }
  }

  lemma {:induction false} RightsAre(boxes: seq<Box>)
    ensures |Rights(boxes)| == |boxes|
    ensures forall i :: 0 <= i < |boxes| ==> Rights(boxes)[i] == boxes[i].x + boxes[i].w
  {
    if boxes != [] {
      RightsAre(boxes[1..]);
    }
  }

  lemma EdgesAre(boxes: seq<Box>)
    ensures StrictlySorted(RowEdges(boxes)) && StrictlySorted(ColumnEdges(boxes))
    ensures 0 in RowEdges(boxes) && 0 in ColumnEdges(boxes)
    ensures forall i :: 0 <= i < |boxes| ==> boxes[i].y + boxes[i].h in RowEdges(boxes)
    ensures forall i :: 0 <= i < |boxes| ==> boxes[i].x + boxes[i].w in ColumnEdges(boxes)
    ensures Anchored(boxes) ==> forall y :: y in RowEdges(boxes) ==> y >= 0
    ensures Anchored(boxes) ==> forall x :: x in ColumnEdges(boxes) ==> x >= 0
  {
    BottomsAre(boxes);
    RightsAre(boxes);
    SortedSetSorts([0] + Bottoms(boxes));
    SortedSetSorts([0] + Rights(boxes));
    assert ([0] + Bottoms(boxes))[0] == 0 && ([0] + Rights(boxes))[0] == 0;
    forall i | 0 <= i < |boxes|
      ensures boxes[i].y + boxes[i].h in RowEdges(boxes) && boxes[i].x + boxes[i].w in ColumnEdges(boxes)
    {
      assert ([0] + Bottoms(boxes))[i + 1] == Bottoms(boxes)[i];
      assert ([0] + Rights(boxes))[i + 1] == Rights(boxes)[i];
    }
  }

  /** A free box slides up until something above stops it, which is a row edge. */
  lemma {:induction false} SlideUp(boxes: seq<Box>, g: Board, a: Box) returns (y: int)
    requires Fits(boxes, g, a)
    ensures y <= a.y && y in RowEdges(boxes) && Fits(boxes, g, a.(y := y))
    decreases a.y
  {
    EdgesAre(boxes);
    if a.y == 0 || a.y in RowEdges(boxes) {
      y := a.y;
    } else {
      var up := a.(y := a.y - 1);
      forall i | 0 <= i < |boxes| ensures !Clash(up, boxes[i]) {
        assert !Clash(a, boxes[i]);
        assert a.y != boxes[i].y + boxes[i].h;
      }
      y := SlideUp(boxes, g, up);
    }
  }

  lemma {:induction false} SlideLeft(boxes: seq<Box>, g: Board, a: Box) returns (x: int)
    requires Fits(boxes, g, a)
    ensures x <= a.x && x in ColumnEdges(boxes) && Fits(boxes, g, a.(x := x))
    decreases a.x
  {
    EdgesAre(boxes);
    if a.x == 0 || a.x in ColumnEdges(boxes) {
      x := a.x;
    } else {
      var left := a.(x := a.x - 1);
      forall i | 0 <= i < |boxes| ensures !Clash(left, boxes[i]) {
        assert !Clash(a, boxes[i]);
        assert a.x != boxes[i].x + boxes[i].w;
      }
      x := SlideLeft(boxes, g, left);
    }
  }

  /** Every free position has a free edge position no lower and no further right. */
  lemma EdgeBefore(boxes: seq<Box>, g: Board, a: Box) returns (x: int, y: int)
    requires Fits(boxes, g, a)
    ensures x <= a.x && y <= a.y && x in ColumnEdges(boxes) && y in RowEdges(boxes)
    ensures Fits(boxes, g, Box(x, y, a.w, a.h))
  {
    y := SlideUp(boxes, g, a);
    x := SlideLeft(boxes, g, a.(y := y));
  }

  // ---------- The scan ----------

  /** No box of this size fits at the first `i` row edges, nor at the first `j` columns of the next. */
  ghost predicate Scanned(boxes: seq<Box>, g: Board, w: int, h: int, i: int, j: int) {
    && (forall a, b :: 0 <= a < i && a < |RowEdges(boxes)| && 0 <= b < |ColumnEdges(boxes)| ==>
          !Fits(boxes, g, Box(ColumnEdges(boxes)[b], RowEdges(boxes)[a], w, h)))
    && (0 <= i < |RowEdges(boxes)| ==>
          forall b :: 0 <= b < j && b < |ColumnEdges(boxes)| ==>
            !Fits(boxes, g, Box(ColumnEdges(boxes)[b], RowEdges(boxes)[i], w, h)))
  }

  /** The first edge position at which the box fits is the first of all positions. */
  lemma FirstEdgeIsFirst(boxes: seq<Box>, g: Board, w: int, h: int, i: int, j: int)
    requires 0 <= i < |RowEdges(boxes)| && 0 <= j < |ColumnEdges(boxes)|
    requires Scanned(boxes, g, w, h, i, j)
    requires Fits(boxes, g, Box(ColumnEdges(boxes)[j], RowEdges(boxes)[i], w, h))
    ensures IsFirstSlot(boxes, g, w, h, Some((ColumnEdges(boxes)[j], RowEdges(boxes)[i])))
  {
    hide Fits, RowEdges, ColumnEdges;
    EdgesAre(boxes);
    var rows, cols := RowEdges(boxes), ColumnEdges(boxes);
    forall x', y' | Fits(boxes, g, Box(x', y', w, h)) ensures Precedes(rows[i], cols[j], y', x') {
      var x, y := EdgeBefore(boxes, g, Box(x', y', w, h));
      var a :| 0 <= a < |rows| && rows[a] == y;
      var b :| 0 <= b < |cols| && cols[b] == x;
      assert a >= i;
    }
  }

  lemma ScannedAll(boxes: seq<Box>, g: Board, w: int, h: int)
    requires Scanned(boxes, g, w, h, |RowEdges(boxes)|, 0)
    ensures IsFirstSlot(boxes, g, w, h, None)
  {
    forall x', y' ensures !Fits(boxes, g, Box(x', y', w, h)) {
      if Fits(boxes, g, Box(x', y', w, h)) {
        var x, y := EdgeBefore(boxes, g, Box(x', y', w, h));
        assert false;
      }
    }
  }

  method IsClear(boxes: seq<Box>, a: Box) returns (clear: bool)
    ensures clear <==> Clear(boxes, a)
  {
    for i := 0 to |boxes|
      invariant forall k :: 0 <= k < i ==> !Clash(a, boxes[k])
    {
      if Clash(a, boxes[i]) {
        return false;
      }
    }
    return true;
  }

  /**
   `_first_free_slot`, and the migration's `_seat`: a scan of edges that finds what a scan of cells
   finds, exactly when what it finds is not before the origin, as it never is over boxes in the grid.
   */
  method FirstFreeSlot(boxes: seq<Box>, g: Board, w: int, h: int) returns (slot: Option<(int, int)>)
    ensures IsFirstSlot(boxes, g, w, h, slot) <==> (slot.Some? ==> slot.value.0 >= 0 && slot.value.1 >= 0)
    ensures Anchored(boxes) ==> IsFirstSlot(boxes, g, w, h, slot)
    ensures slot.Some? ==> slot.value.0 in ColumnEdges(boxes) && slot.value.1 in RowEdges(boxes)
    ensures slot.Some? ==> Clear(boxes, Box(slot.value.0, slot.value.1, w, h))
  {
    hide Fits, IsFirstSlot, RowEdges, ColumnEdges, Clear;
    var rows, columns := RowEdges(boxes), ColumnEdges(boxes);
    EdgesAre(boxes);
    for i := 0 to |rows|
      invariant Scanned(boxes, g, w, h, i, 0)
    {
      for j := 0 to |columns|
        invariant Scanned(boxes, g, w, h, i, j)
      {
        assert rows[i] in rows && columns[j] in columns;
        var a := Box(columns[j], rows[i], w, h);
        FitsWhen(boxes, g, a);
        if rows[i] + h <= g.rows && columns[j] + w <= g.columns {
          var clear := IsClear(boxes, a);
          if clear {
            if columns[j] >= 0 && rows[i] >= 0 {
              FirstEdgeIsFirst(boxes, g, w, h, i, j);
            } else {
              FirstSlotFits(boxes, g, w, h, columns[j], rows[i]);
            }
            return Some((columns[j], rows[i]));
          }
        }
      }
    }
    ScannedAll(boxes, g, w, h);
    return None;
  }

  lemma FirstSlotFits(boxes: seq<Box>, g: Board, w: int, h: int, x: int, y: int)
    ensures IsFirstSlot(boxes, g, w, h, Some((x, y))) ==> Fits(boxes, g, Box(x, y, w, h))
  {
  }

  lemma FitsWhen(boxes: seq<Box>, g: Board, a: Box)
    ensures Fits(boxes, g, a) <==>
            a.x >= 0 && a.y >= 0 && a.x + a.w <= g.columns && a.y + a.h <= g.rows && Clear(boxes, a)
  {
  }

  // ---------- Fitting a widget ----------

  ghost predicate FitsSomewhere(boxes: seq<Box>, g: Board, w: int, h: int) {
    exists x, y :: Fits(boxes, g, Box(x, y, w, h))
  }

  lemma SmallerFits(boxes: seq<Box>, g: Board, w: int, h: int, w': int, h': int)
    requires FitsSomewhere(boxes, g, w, h) && w' <= w && h' <= h
    ensures FitsSomewhere(boxes, g, w', h')
  {
    var x, y :| Fits(boxes, g, Box(x, y, w, h));
    forall i | 0 <= i < |boxes| ensures !Clash(Box(x, y, w', h'), boxes[i]) {
      assert !Clash(Box(x, y, w, h), boxes[i]);
    }
    assert Fits(boxes, g, Box(x, y, w', h'));
  }

  datatype Size = Size(w: int, h: int)

  function Area(s: Size): int {
    s.w * s.h
  }

  /** How far a size is from the default's proportions. */
  function Distortion(s: Size, preferred: Size): real
    requires s.h >= 1 && preferred.h >= 1
  {
    var d := s.w as real / s.h as real - preferred.w as real / preferred.h as real;
    if d < 0.0 then -d else d
  }

  /** The candidate order: larger area first, then closer to the default's proportions. */
  predicate NotWorse(a: Size, b: Size, preferred: Size)
    requires a.h >= 1 && b.h >= 1 && preferred.h >= 1
  {
    || Area(a) > Area(b)
    || (Area(a) == Area(b) && Distortion(a, preferred) <= Distortion(b, preferred))
  }

  function Abs(x: int): int {
    if x < 0 then -x else x
  }

  /** The same in whole numbers: of two sizes, more cells, or as many in proportions no farther from the default's. */
  predicate AsGood(a: Size, b: Size, preferred: Size) {
    || a.w * a.h > b.w * b.h
    || (a.w * a.h == b.w * b.h
        && Abs(a.w * preferred.h - preferred.w * a.h) * b.h <= Abs(b.w * preferred.h - preferred.w * b.h) * a.h)
  }

  lemma DistortionIs(s: Size, preferred: Size)
    requires s.h >= 1 && preferred.h >= 1
    ensures Distortion(s, preferred) * (s.h as real * preferred.h as real)
            == Abs(s.w * preferred.h - preferred.w * s.h) as real
  {
    var w, h, pw, ph := s.w as real, s.h as real, preferred.w as real, preferred.h as real;
    assert w / h * h == w && pw / ph * ph == pw;
    assert (w / h - pw / ph) * (h * ph) == (w / h * h) * ph - (pw / ph * ph) * h;
    assert (s.w * preferred.h - preferred.w * s.h) as real == w * ph - pw * h;
  }

  lemma TimesPositive(a: real, b: real, k: real)
    requires k > 0.0
    ensures a <= b <==> a * k <= b * k
  {
    assert (b - a) * k == b * k - a * k;
    if a <= b {
      assert (b - a) * k >= 0.0;
    } else {
      assert (a - b) * k > 0.0;
    }
  }

  lemma DistortionIff(a: Size, b: Size, preferred: Size)
    requires a.h >= 1 && b.h >= 1 && preferred.h >= 1
    ensures Distortion(a, preferred) <= Distortion(b, preferred) <==>
            Abs(a.w * preferred.h - preferred.w * a.h) * b.h <= Abs(b.w * preferred.h - preferred.w * b.h) * a.h
  {
    hide Distortion, Abs;
    var da, db, ah, bh, ph := Distortion(a, preferred), Distortion(b, preferred), a.h as real, b.h as real, preferred.h as real;
    var oa, ob := Abs(a.w * preferred.h - preferred.w * a.h), Abs(b.w * preferred.h - preferred.w * b.h);
    DistortionIs(a, preferred);
    DistortionIs(b, preferred);
    CrossMultiplied(da, db, ah, bh, ph, oa as real, ob as real);
    assert (oa * b.h) as real == oa as real * bh && (ob * a.h) as real == ob as real * ah;
  }

  lemma CrossMultiplied(da: real, db: real, ah: real, bh: real, ph: real, oa: real, ob: real)
    requires ah > 0.0 && bh > 0.0 && ph > 0.0 && da * (ah * ph) == oa && db * (bh * ph) == ob
    ensures da <= db <==> oa * bh <= ob * ah
  {
    var k := ah * ph * bh;
    assert k > 0.0;
    TimesPositive(da, db, k);
    assert da * k == da * (ah * ph) * bh;
    assert db * k == db * (bh * ph) * ah;
  }

  lemma NotWorseIff(a: Size, b: Size, preferred: Size)
    requires a.h >= 1 && b.h >= 1 && preferred.h >= 1
    ensures NotWorse(a, b, preferred) <==> AsGood(a, b, preferred)
  {
    hide Distortion, Abs;
    DistortionIff(a, b, preferred);
  }

  predicate InRange(s: Size, least: Size, preferred: Size) {
    least.w <= s.w <= preferred.w && least.h <= s.h <= preferred.h
  }

  ghost predicate Ranked(sizes: seq<Size>, preferred: Size) {
    && preferred.h >= 1
    && (forall i :: 0 <= i < |sizes| ==> sizes[i].h >= 1)
    && forall i, j :: 0 <= i < j < |sizes| ==> NotWorse(sizes[i], sizes[j], preferred)
  }

  /** Inserts after everything that is not worse, so equal candidates keep their order. */
  method InsertRanked(sizes: seq<Size>, s: Size, preferred: Size) returns (out: seq<Size>)
    requires Ranked(sizes, preferred) && s.h >= 1
    ensures Ranked(out, preferred)
    ensures forall t :: t in out <==> t == s || t in sizes
  {
    hide Area, Distortion;
    var k := |sizes|;
    while k > 0 && !NotWorse(sizes[k - 1], s, preferred)
      invariant 0 <= k <= |sizes|
      invariant forall j :: k <= j < |sizes| ==> NotWorse(s, sizes[j], preferred)
    {
      k := k - 1;
    }
    out := sizes[..k] + [s] + sizes[k..];
    assert sizes == sizes[..k] + sizes[k..];
    forall i | 0 <= i < k ensures NotWorse(sizes[i], s, preferred) {
      assert NotWorse(sizes[k - 1], s, preferred);
      if i < k - 1 {
        assert NotWorse(sizes[i], sizes[k - 1], preferred);
      }
    }
  }

  method Candidates(least: Size, preferred: Size) returns (sizes: seq<Size>)
    requires least.h >= 1 && preferred.h >= 1
    ensures Ranked(sizes, preferred)
    ensures forall s :: s in sizes <==> InRange(s, least, preferred)
  {
    sizes := [];
    var w := least.w;
    while w <= preferred.w
      invariant w <= preferred.w + 1 || w == least.w
      invariant Ranked(sizes, preferred)
      invariant forall s :: s in sizes <==> InRange(s, least, preferred) && s.w < w
    {
      var h := least.h;
      while h <= preferred.h
        invariant h <= preferred.h + 1 || h == least.h
        invariant Ranked(sizes, preferred)
        invariant forall s :: s in sizes <==> InRange(s, least, preferred) && (s.w < w || (s.w == w && s.h < h))
      {
        assert InRange(Size(w, h), least, preferred) && least.h <= h;
        sizes := InsertRanked(sizes, Size(w, h), preferred);
        h := h + 1;
      }
      w := w + 1;
    }
  }

  /**
   `_fit_widget`: the best size that fits anywhere, at its first free position; nothing exactly when
   even the minimum fits nowhere.
   */
  method FitWidget(boxes: seq<Box>, g: Board, preferred: Size, least: Size) returns (r: Option<Box>)
    requires least.h >= 1 && preferred.h >= 1
    ensures r.Some? ==> least.w <= r.value.w <= preferred.w && least.h <= r.value.h <= preferred.h
    ensures Anchored(boxes) && r.Some? ==> IsFirstSlot(boxes, g, r.value.w, r.value.h, Some((r.value.x, r.value.y)))
    ensures r.Some? ==> forall s: Size ::
              least.w <= s.w <= preferred.w && least.h <= s.h <= preferred.h && FitsSomewhere(boxes, g, s.w, s.h) ==>
                AsGood(Size(r.value.w, r.value.h), s, preferred)
    ensures r.None? ==> forall w, h ::
              least.w <= w <= preferred.w && least.h <= h <= preferred.h ==> !FitsSomewhere(boxes, g, w, h)
    ensures Anchored(boxes) && least.w <= preferred.w && least.h <= preferred.h ==> (r.None? <==> !FitsSomewhere(boxes, g, least.w, least.h))
  {
    hide Area, Distortion, Fits, NotWorse, AsGood;
    var sizes := Candidates(least, preferred);
    for i := 0 to |sizes|
      invariant forall k :: 0 <= k < i ==> !FitsSomewhere(boxes, g, sizes[k].w, sizes[k].h)
    {
      assert sizes[i] in sizes;
      var slot := FirstFreeSlot(boxes, g, sizes[i].w, sizes[i].h);
      if slot.Some? {
        r := Some(Box(slot.value.0, slot.value.1, sizes[i].w, sizes[i].h));
        assert Size(r.value.w, r.value.h) == sizes[i];
        if Anchored(boxes) && InRange(least, least, preferred) {
          SmallerFits(boxes, g, r.value.w, r.value.h, least.w, least.h);
        }
        BestSoFar(boxes, g, sizes, i, least, preferred);
        return;
      }
    }
    r := None;
    forall w, h | least.w <= w <= preferred.w && least.h <= h <= preferred.h ensures !FitsSomewhere(boxes, g, w, h) {
      assert Size(w, h) in sizes;
    }
  }

  lemma BestSoFar(boxes: seq<Box>, g: Board, sizes: seq<Size>, i: nat, least: Size, preferred: Size)
    requires Ranked(sizes, preferred) && i < |sizes| && least.h >= 1 && preferred.h >= 1
    requires forall s :: s in sizes <==> InRange(s, least, preferred)
    requires forall k :: 0 <= k < i ==> !FitsSomewhere(boxes, g, sizes[k].w, sizes[k].h)
    ensures forall s :: InRange(s, least, preferred) && FitsSomewhere(boxes, g, s.w, s.h) ==>
              AsGood(sizes[i], s, preferred)
  {
    hide Area, Distortion, AsGood;
    forall s | InRange(s, least, preferred) && FitsSomewhere(boxes, g, s.w, s.h)
      ensures AsGood(sizes[i], s, preferred)
    {
      assert s in sizes;
      var k :| 0 <= k < |sizes| && sizes[k] == s;
      assert k == i || NotWorse(sizes[i], sizes[k], preferred);
      NotWorseIff(sizes[i], s, preferred);
    }
  }
}
