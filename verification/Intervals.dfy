/** Half-open intervals of time, and the sorted coverage list the occurrence cache keeps. */
module Intervals {

  datatype Interval = Interval(start: int, end: int)

  predicate Has(v: Interval, p: int) {
    v.start <= p < v.end
  }

  predicate Covers(list: seq<Interval>, p: int) {
    exists i :: 0 <= i < |list| && Has(list[i], p)
  }

  /** Two intervals touch when they share a point or abut. */
  predicate Touches(a: Interval, b: Interval) {
    a.start <= b.end && b.start <= a.end
  }

  /** Non-empty, in order, and never touching. */
  predicate Separated(list: seq<Interval>) {
    && (forall i :: 0 <= i < |list| ==> list[i].start < list[i].end)
    && forall i, j :: 0 <= i < j < |list| ==> list[i].end < list[j].start
  }

  function Width(v: Interval): int {
    v.end - v.start
  }

  function Sum(list: seq<Interval>, f: Interval -> int): int {
    if list == [] then 0 else f(list[0]) + Sum(list[1..], f)
  }

  /** `coveredSpan`. */
  function Span(list: seq<Interval>): int {
    Sum(list, Width)
  }

  // ---------- Sorting ----------

  predicate SortedBy(list: seq<Interval>, key: Interval -> int) {
    forall i, j :: 0 <= i < j < |list| ==> key(list[i]) <= key(list[j])
  }

  method InsertBy(list: seq<Interval>, v: Interval, key: Interval -> int) returns (out: seq<Interval>)
    requires SortedBy(list, key)
    ensures SortedBy(out, key) && multiset(out) == multiset(list) + multiset{v}
  {
    hide SortedBy;
    var k := |list|;
    while k > 0 && key(list[k - 1]) > key(v)
      invariant 0 <= k <= |list|
      invariant forall j :: k <= j < |list| ==> key(v) < key(list[j])
    {
      k := k - 1;
    }
    assert list == list[..k] + list[k..];
    out := list[..k] + [v] + list[k..];
    InsertedAt(list, k, v, key);
  }

  lemma InsertedAt(list: seq<Interval>, k: int, v: Interval, key: Interval -> int)
    requires SortedBy(list, key) && 0 <= k <= |list|
    requires k > 0 ==> key(list[k - 1]) <= key(v)
    requires forall j :: k <= j < |list| ==> key(v) <= key(list[j])
    ensures SortedBy(list[..k] + [v] + list[k..], key)
  {
    var out := list[..k] + [v] + list[k..];
    forall i, j | 0 <= i < j < |out| ensures key(out[i]) <= key(out[j]) {
      var a, b := if i < k then i else i - 1, if j < k then j else j - 1;
      assert i != k ==> out[i] == list[a];
      assert j != k ==> out[j] == list[b];
      if j == k {
        assert key(list[i]) <= key(list[k - 1]);
      }
    }
  }

  method SortBy(list: seq<Interval>, key: Interval -> int) returns (out: seq<Interval>)
    ensures SortedBy(out, key) && multiset(out) == multiset(list)
  {
    hide SortedBy;
    out := [];
    NothingIsSorted(key);
    for i := 0 to |list|
      invariant SortedBy(out, key) && multiset(out) == multiset(list[..i])
    {
      assert list[..i + 1] == list[..i] + [list[i]];
      out := InsertBy(out, list[i], key);
    }
    assert list[..|list|] == list;
  }

  lemma NothingIsSorted(key: Interval -> int)
    ensures SortedBy([], key)
  {
  }

  lemma {:induction false} SumAppends(a: seq<Interval>, b: seq<Interval>, f: Interval -> int)
    ensures Sum(a + b, f) == Sum(a, f) + Sum(b, f)
  {
    if a == [] {
      assert a + b == b;
    } else {
      SumAppends(a[1..], b, f);
      assert (a + b)[1..] == a[1..] + b;
    }
  }

  lemma WithoutOne(b: seq<Interval>, k: int)
    requires 0 <= k < |b|
    ensures multiset(b) == multiset(b[..k] + b[k + 1..]) + multiset{b[k]}
  {
    assert b == b[..k] + [b[k]] + b[k + 1..];
  }

  lemma SumFirst(v: Interval, rest: seq<Interval>, f: Interval -> int)
    ensures Sum([v] + rest, f) == f(v) + Sum(rest, f)
  {
    assert ([v] + rest)[1..] == rest;
  }

  lemma SumWithout(b: seq<Interval>, k: int, f: Interval -> int)
    requires 0 <= k < |b|
    ensures Sum(b, f) == Sum(b[..k] + b[k + 1..], f) + f(b[k])
  {
    hide Sum;
    assert b == b[..k] + ([b[k]] + b[k + 1..]);
    SumAppends(b[..k], [b[k]] + b[k + 1..], f);
    SumAppends(b[..k], b[k + 1..], f);
    SumFirst(b[k], b[k + 1..], f);
  }

  lemma RestPermutes(a: seq<Interval>, b: seq<Interval>, k: int)
    requires multiset(a) == multiset(b) && a != [] && 0 <= k < |b| && b[k] == a[0]
    ensures multiset(a[1..]) == multiset(b[..k] + b[k + 1..])
  {
    WithoutOne(a, 0);
    WithoutOne(b, k);
    assert a[..0] + a[1..] == a[1..];
    assert multiset(a[1..]) == multiset(a) - multiset{a[0]};
    assert multiset(b[..k] + b[k + 1..]) == multiset(b) - multiset{a[0]};
  }

  lemma {:induction false} SumPermutes(a: seq<Interval>, b: seq<Interval>, f: Interval -> int)
    requires multiset(a) == multiset(b)
    ensures Sum(a, f) == Sum(b, f)
  {
    assert |multiset(a)| == |a| && |multiset(b)| == |b|;
    if a != [] {
      assert a[0] in multiset(b);
      var k :| 0 <= k < |b| && b[k] == a[0];
      RestPermutes(a, b, k);
      SumPermutes(a[1..], b[..k] + b[k + 1..], f);
      SumWithout(b, k, f);
    }
  }

  /** No two entries at different places touch. */
  predicate Apart(list: seq<Interval>) {
    && (forall i :: 0 <= i < |list| ==> list[i].start < list[i].end)
    && forall i, j :: 0 <= i < |list| && 0 <= j < |list| && i != j ==> !Touches(list[i], list[j])
  }

  lemma TwoPlaces(list: seq<Interval>, i: int, j: int)
    requires 0 <= i < j < |list| && list[i] == list[j]
    ensures multiset(list)[list[i]] >= 2
  {
    assert list == list[..j] + [list[j]] + list[j + 1..];
    assert list[..j][i] == list[i];
    assert list[i] in multiset(list[..j]);
  }

  lemma ApartMeansOnce(list: seq<Interval>, v: Interval)
    requires Apart(list)
    ensures multiset(list)[v] <= 1
  {
    if multiset(list)[v] >= 2 {
      assert v in multiset(list);
      var i :| 0 <= i < |list| && list[i] == v;
      WithoutOne(list, i);
    }
  }

  function StartOf(v: Interval): int {
    v.start
  }

  /** Sorting untouching intervals by their start separates them. */
  lemma SortedApartIsSeparated(list: seq<Interval>, sorted: seq<Interval>)
    requires Apart(list) && multiset(sorted) == multiset(list) && SortedBy(sorted, StartOf)
    ensures Separated(sorted)
  {
    forall i | 0 <= i < |sorted| ensures sorted[i].start < sorted[i].end {
      assert sorted[i] in multiset(list);
    }
    forall i, j | 0 <= i < j < |sorted| ensures sorted[i].end < sorted[j].start {
      if sorted[i] == sorted[j] {
        TwoPlaces(sorted, i, j);
        ApartMeansOnce(list, sorted[i]);
      }
      assert sorted[i] in multiset(list) && sorted[j] in multiset(list);
      var a :| 0 <= a < |list| && list[a] == sorted[i];
      var b :| 0 <= b < |list| && list[b] == sorted[j];
      assert !Touches(list[a], list[b]);
      assert StartOf(sorted[i]) <= StartOf(sorted[j]);
    }
  }

  lemma SeparatedIsApart(list: seq<Interval>)
    requires Separated(list)
    ensures Apart(list)
  {
  }

  lemma SameEntriesCoverTheSame(a: seq<Interval>, b: seq<Interval>)
    requires multiset(a) == multiset(b)
    ensures forall v :: v in a <==> v in b
    ensures forall p :: Covers(a, p) <==> Covers(b, p)
  {
    forall v ensures v in a <==> v in b {
      assert v in multiset(a) <==> v in multiset(b);
    }
    forall p ensures Covers(a, p) <==> Covers(b, p) {
      if i :| 0 <= i < |a| && Has(a[i], p) {
        assert a[i] in b;
      }
      if i :| 0 <= i < |b| && Has(b[i], p) {
        assert b[i] in a;
      }
    }
  }

  // ---------- Adding an interval ----------

  function Hull(a: Interval, b: Interval): Interval {
    Interval(if a.start < b.start then a.start else b.start, if a.end > b.end then a.end else b.end)
  }

  /** Part way through: what was kept apart, and what was absorbed into `current`. */
  ghost predicate Absorbing(covered: seq<Interval>, next: Interval, i: int, kept: seq<Interval>, current: Interval) {
    && 0 <= i <= |covered|
    && Apart(kept + [current])
    && (forall k, j :: 0 <= k < |kept| && i <= j < |covered| ==> kept[k].end < covered[j].start)
    && forall p :: Covers(kept + [current], p) <==> Covers(covered[..i], p) || Has(next, p)
  }

  lemma CoversAppend(list: seq<Interval>, v: Interval, p: int)
    ensures Covers(list + [v], p) <==> Covers(list, p) || Has(v, p)
  {
    if i :| 0 <= i < |list| && Has(list[i], p) {
      assert Has((list + [v])[i], p);
    }
    if Has(v, p) {
      assert Has((list + [v])[|list|], p);
    }
  }

  lemma KeepApart(covered: seq<Interval>, next: Interval, i: int, kept: seq<Interval>, current: Interval)
    requires Separated(covered) && Absorbing(covered, next, i, kept, current) && i < |covered|
    requires !Touches(covered[i], current)
    ensures Absorbing(covered, next, i + 1, kept + [covered[i]], current)
  {
    var v := covered[i];
    var all := kept + [v] + [current];
    assert forall k :: 0 <= k < |kept| ==> all[k] == (kept + [current])[k];
    assert all[|kept|] == v && all[|kept| + 1] == (kept + [current])[|kept|] == current;
    assert covered[..i + 1] == covered[..i] + [v];
    forall p ensures Covers(all, p) <==> Covers(covered[..i + 1], p) || Has(next, p) {
      CoversAppend(kept + [v], current, p);
      CoversAppend(kept, v, p);
      CoversAppend(kept, current, p);
      CoversAppend(covered[..i], v, p);
    }
  }

  lemma Absorb(covered: seq<Interval>, next: Interval, i: int, kept: seq<Interval>, current: Interval)
    requires Separated(covered) && Absorbing(covered, next, i, kept, current) && i < |covered|
    requires Touches(covered[i], current)
    ensures Absorbing(covered, next, i + 1, kept, Hull(current, covered[i]))
  {
    var v, hull := covered[i], Hull(current, covered[i]);
    var was, now := kept + [current], kept + [hull];
    assert was[|kept|] == current && now[|kept|] == hull;
    forall k | 0 <= k < |kept| ensures !Touches(kept[k], hull) {
      assert was[k] == kept[k] && !Touches(was[k], was[|kept|]);
    }
    assert forall k :: 0 <= k < |kept| ==> now[k] == was[k] == kept[k];
    assert covered[..i + 1] == covered[..i] + [v];
    forall p ensures Covers(now, p) <==> Covers(covered[..i + 1], p) || Has(next, p) {
      CoversAppend(kept, hull, p);
      CoversAppend(kept, current, p);
      CoversAppend(covered[..i], v, p);
    }
  }

  /** `addInterval`: the list stays separated and covers exactly the union. */
  method AddInterval(covered: seq<Interval>, next: Interval) returns (merged: seq<Interval>)
    requires Separated(covered) && next.start < next.end
    ensures Separated(merged)
    ensures forall p :: Covers(merged, p) <==> Covers(covered, p) || Has(next, p)
  {
    hide Absorbing;
    merged := [];
    var current := next;
    StartAbsorbing(covered, next);
    for i := 0 to |covered|
      invariant Absorbing(covered, next, i, merged, current)
    {
      var interval := covered[i];
      if interval.end < current.start || interval.start > current.end {
        KeepApart(covered, next, i, merged, current);
        merged := merged + [interval];
      } else {
        Absorb(covered, next, i, merged, current);
        current := Hull(current, interval);
      }
    }
    EndAbsorbing(covered, next, merged, current);
    ghost var all := merged + [current];
    merged := SortBy(merged + [current], StartOf);
    SortedApartIsSeparated(all, merged);
    SameEntriesCoverTheSame(all, merged);
  }

  lemma StartAbsorbing(covered: seq<Interval>, next: Interval)
    requires next.start < next.end
    ensures Absorbing(covered, next, 0, [], next)
  {
    forall p ensures Covers([] + [next], p) <==> Has(next, p) {
      CoversAppend([], next, p);
    }
  }

  lemma EndAbsorbing(covered: seq<Interval>, next: Interval, kept: seq<Interval>, current: Interval)
    requires Absorbing(covered, next, |covered|, kept, current)
    ensures Apart(kept + [current])
    ensures forall p :: Covers(kept + [current], p) <==> Covers(covered, p) || Has(next, p)
  {
    assert covered[..|covered|] == covered;
  }

  // ---------- Gaps ----------

  /** Separated pieces holding exactly the points of `wanted` that nothing covers. */
  ghost predicate AreGaps(covered: seq<Interval>, wanted: Interval, gaps: seq<Interval>) {
    && Separated(gaps)
    && forall p :: Covers(gaps, p) <==> Has(wanted, p) && !Covers(covered, p)
  }

  /** The first `i` intervals are accounted for up to `cursor`. */
  ghost predicate GapsUpTo(covered: seq<Interval>, wanted: Interval, i: int, cursor: int, gaps: seq<Interval>) {
    && 0 <= i <= |covered| && wanted.start <= cursor
    && Separated(gaps)
    && (forall k :: 0 <= k < |gaps| ==> gaps[k].end < cursor)
    && (forall k :: 0 <= k < i ==> covered[k].end <= cursor)
    && (cursor == wanted.start || exists k :: 0 <= k < i && covered[k].end == cursor)
    && forall p :: Covers(gaps, p) <==> Has(wanted, p) && p < cursor && !Covers(covered, p)
  }

  lemma SkipPassed(covered: seq<Interval>, wanted: Interval, i: int, cursor: int, gaps: seq<Interval>)
    requires Separated(covered) && GapsUpTo(covered, wanted, i, cursor, gaps) && i < |covered|
    requires covered[i].end <= cursor
    ensures GapsUpTo(covered, wanted, i + 1, cursor, gaps)
  {
  }

  lemma CoversUpTo(covered: seq<Interval>, i: int, p: int)
    requires Separated(covered) && 0 <= i < |covered|
    requires p < covered[i].end
    ensures Covers(covered, p) <==> Has(covered[i], p) || exists k :: 0 <= k < i && Has(covered[k], p)
  {
    if k :| i < k < |covered| && Has(covered[k], p) {
      assert false;
    }
  }

  lemma PassInterval(covered: seq<Interval>, wanted: Interval, i: int, cursor: int, gaps: seq<Interval>)
    returns (more: seq<Interval>)
    requires Separated(covered) && GapsUpTo(covered, wanted, i, cursor, gaps) && i < |covered|
    requires covered[i].end > cursor && covered[i].start < wanted.end
    ensures more == if covered[i].start > cursor then [Interval(cursor, covered[i].start)] else []
    ensures GapsUpTo(covered, wanted, i + 1, covered[i].end, gaps + more)
  {
    var v := covered[i];
    more := if v.start > cursor then [Interval(cursor, v.start)] else [];
    forall p ensures Covers(gaps + more, p) <==> Has(wanted, p) && p < v.end && !Covers(covered, p) {
      if more != [] {
        CoversAppend(gaps, more[0], p);
      } else {
        assert gaps + more == gaps;
      }
      if cursor <= p < v.end {
        CoversUpTo(covered, i, p);
      }
      if Has(v, p) {
        assert Covers(covered, p);
      }
    }
  }

  lemma FinishGaps(covered: seq<Interval>, wanted: Interval, i: int, cursor: int, gaps: seq<Interval>)
    requires Separated(covered) && GapsUpTo(covered, wanted, i, cursor, gaps)
    requires i < |covered| && cursor < wanted.end ==> covered[i].start >= wanted.end
    ensures AreGaps(covered, wanted, gaps + if cursor < wanted.end then [Interval(cursor, wanted.end)] else [])
  {
    if cursor < wanted.end {
      var last := Interval(cursor, wanted.end);
      forall p ensures Covers(gaps + [last], p) <==> Has(wanted, p) && !Covers(covered, p) {
        CoversAppend(gaps, last, p);
      }
    } else {
      assert gaps + [] == gaps;
    }
  }

  /** `gapsIn`. */
  method GapsIn(covered: seq<Interval>, wanted: Interval) returns (gaps: seq<Interval>)
    requires Separated(covered)
    ensures AreGaps(covered, wanted, gaps)
  {
    hide GapsUpTo, AreGaps;
    gaps := [];
    var cursor := wanted.start;
    GapsBegin(covered, wanted);
    var i := 0;
    while i < |covered|
      invariant GapsUpTo(covered, wanted, i, cursor, gaps) && 0 <= i <= |covered|
    {
      var interval := covered[i];
      if interval.end <= cursor {
        SkipPassed(covered, wanted, i, cursor, gaps);
        i := i + 1;
        continue;
      }
      if interval.start >= wanted.end {
        break;
      }
      ghost var more := PassInterval(covered, wanted, i, cursor, gaps);
      if interval.start > cursor {
        var end := if interval.start < wanted.end then interval.start else wanted.end;
        gaps := gaps + [Interval(cursor, end)];
      } else {
        assert gaps + more == gaps;
      }
      cursor := if interval.end > cursor then interval.end else cursor;
      i := i + 1;
      if cursor >= wanted.end {
        break;
      }
    }
    FinishGaps(covered, wanted, i, cursor, gaps);
    if cursor < wanted.end {
      gaps := gaps + [Interval(cursor, wanted.end)];
    } else {
      assert gaps + [] == gaps;
    }
  }

  lemma GapsBegin(covered: seq<Interval>, wanted: Interval)
    ensures GapsUpTo(covered, wanted, 0, wanted.start, [])
  {
  }
}
