/**
 The client's occurrence cache for one dashboard: what it holds for the time it has covered is what
 the server would answer, however fetches, trims and invalidations interleave.
 */
module OccurrenceCache {
  import opened Wrappers
  import opened Numbers
  import opened Intervals
  import Expansion

  const MAX_COVERED_MS := 366 * 24 * 60 * 60 * 1000

  /** What the listing sends for one occurrence. */
  type Occurrence = Expansion.Occurrence

  type Key = (int, int)

  /** `occurrenceKey`. */
  function KeyOf(o: Occurrence): Key {
    (o.eventId, o.originalStart)
  }

  predicate Meets(o: Occurrence, v: Interval) {
    o.start < v.end && v.start < o.end
  }

  predicate MeetsAny(o: Occurrence, list: seq<Interval>) {
    exists i :: 0 <= i < |list| && Meets(o, list[i])
  }

  // ---------- Trimming ----------

  function Distance(keep: Interval): Interval -> int {
    (v: Interval) => Max(0, Max(keep.start - v.end, v.start - keep.end))
  }

  /** Reaching within `r` of `keep`. */
  predicate Within(keep: Interval, v: Interval, r: int) {
    v.start <= keep.end + r && keep.start - r <= v.end
  }

  /** The width of what reaches within `r` of `keep`. */
  function NearWidth(keep: Interval, r: int): Interval -> int {
    (v: Interval) => if Within(keep, v, r) then v.end - v.start else 0
  }

  /** None is dropped that would have fitted, however near to `keep` it reaches, beside what is kept as near. */
  ghost predicate DropsNoneThatFit(covered: seq<Interval>, keep: Interval, after: seq<Interval>) {
    forall d, r :: d in covered && d !in after && r >= 0 && Within(keep, d, r) ==>
                     Sum(after, NearWidth(keep, r)) + (d.end - d.start) > MAX_COVERED_MS
  }

  /**
   What trimming may leave: everything when it fits the cap; else some of the intervals, the one
   holding `keep` always among them, within the cap or alone, and none dropped that would still have
   fitted beside those as near.
   */
  ghost predicate Trimmed(covered: seq<Interval>, keep: Interval, after: seq<Interval>) {
    if Span(covered) <= MAX_COVERED_MS then after == covered
    else
      && Separated(after)
      && (forall v :: v in after ==> v in covered)
      && (forall v :: v in covered && v.start <= keep.start && keep.end <= v.end ==> v in after)
      && (Span(after) <= MAX_COVERED_MS || |after| == 1)
      && DropsNoneThatFit(covered, keep, after)
  }

  lemma ApartPermutes(list: seq<Interval>, other: seq<Interval>)
    requires Apart(list) && multiset(other) == multiset(list)
    ensures Apart(other)
  {
    forall i | 0 <= i < |other| ensures other[i].start < other[i].end {
      assert other[i] in multiset(list);
    }
    forall i, j | 0 <= i < j < |other| ensures !Touches(other[i], other[j]) {
      if other[i] == other[j] {
        TwoPlaces(other, i, j);
        ApartMeansOnce(list, other[i]);
      }
      assert other[i] in multiset(list) && other[j] in multiset(list);
      var a :| 0 <= a < |list| && list[a] == other[i];
      var b :| 0 <= b < |list| && list[b] == other[j];
      assert !Touches(list[a], list[b]);
    }
  }

  /** Beside what is retained as near to `keep`, there is no room for this interval. */
  predicate NoRoomFor(retained: seq<Interval>, keep: Interval, d: Interval) {
    Sum(retained, NearWidth(keep, Distance(keep)(d))) + Width(d) > MAX_COVERED_MS
  }

  /** The intervals retained so far, nearest first, and why the others were passed over. */
  ghost predicate Retaining(ordered: seq<Interval>, keep: Interval, i: int, retained: seq<Interval>) {
    && 0 <= i <= |ordered|
    && Apart(retained + ordered[i..])
    && (forall v :: v in retained ==> v in ordered[..i])
    && (i > 0 ==> ordered[0] in retained)
    && (retained == [] ==> i == 0)
    && (Span(retained) <= MAX_COVERED_MS || |retained| == 1)
    && forall j :: 0 <= j < i ==>
         ordered[j] in retained || NoRoomFor(retained, keep, ordered[j])
  }

  lemma {:induction false} AllNear(list: seq<Interval>, keep: Interval, d: Interval)
    requires forall v :: v in list ==> Distance(keep)(v) <= Distance(keep)(d)
    ensures Sum(list, NearWidth(keep, Distance(keep)(d))) == Span(list)
  {
    if list != [] {
      WithinIff(keep, list[0], Distance(keep)(d));
      AllNear(list[1..], keep, d);
    }
  }

  /** The distance of an interval is the least radius it reaches within. */
  lemma WithinIff(keep: Interval, v: Interval, r: int)
    requires r >= 0
    ensures Within(keep, v, r) <==> Distance(keep)(v) <= r
  {
  }

  lemma {:induction false} MoreIsWithin(list: seq<Interval>, keep: Interval, near: int, r: int)
    requires near <= r && forall v :: v in list ==> v.start < v.end
    ensures Sum(list, NearWidth(keep, near)) <= Sum(list, NearWidth(keep, r))
  {
    if list != [] {
      assert list[0] in list;
      MoreIsWithin(list[1..], keep, near, r);
    }
  }

  lemma OneMore(list: seq<Interval>, v: Interval, f: Interval -> int)
    ensures Sum(list + [v], f) == Sum(list, f) + f(v)
  {
    SumAppends(list, [v], f);
    assert [v][1..] == [];
  }

  lemma RetainNext(ordered: seq<Interval>, keep: Interval, i: int, retained: seq<Interval>)
    requires Retaining(ordered, keep, i, retained) && i < |ordered|
    requires Span(retained) + Width(ordered[i]) <= MAX_COVERED_MS || retained == []
    ensures Retaining(ordered, keep, i + 1, retained + [ordered[i]])
    ensures Span(retained + [ordered[i]]) == Span(retained) + Width(ordered[i])
  {
    var v := ordered[i];
    assert (retained + ordered[i..])[|retained|] == v;
    OneMore(retained, v, Width);
    assert retained + [v] + ordered[i + 1..] == retained + ordered[i..];
    assert ordered[..i + 1] == ordered[..i] + [v];
    forall j | 0 <= j < i + 1
      ensures ordered[j] in retained + [v] || NoRoomFor(retained + [v], keep, ordered[j])
    {
      OneMore(retained, v, NearWidth(keep, Distance(keep)(ordered[j])));
    }
  }

  lemma FewerAreApart(a: seq<Interval>, v: Interval, b: seq<Interval>)
    requires Apart(a + [v] + b)
    ensures Apart(a + b)
  {
    var all, fewer := a + [v] + b, a + b;
    forall i, j | 0 <= i < |fewer| && 0 <= j < |fewer| && i != j ensures !Touches(fewer[i], fewer[j]) {
      var i', j' := if i < |a| then i else i + 1, if j < |a| then j else j + 1;
      assert fewer[i] == all[i'] && fewer[j] == all[j'];
    }
    forall i | 0 <= i < |fewer| ensures fewer[i].start < fewer[i].end {
      assert fewer[i] == all[if i < |a| then i else i + 1];
    }
  }

  lemma PassOver(ordered: seq<Interval>, keep: Interval, i: int, retained: seq<Interval>)
    requires Retaining(ordered, keep, i, retained) && i < |ordered| && SortedBy(ordered, Distance(keep))
    requires Span(retained) + Width(ordered[i]) > MAX_COVERED_MS && retained != []
    ensures Retaining(ordered, keep, i + 1, retained)
  {
    hide Apart;
    assert retained + [ordered[i]] + ordered[i + 1..] == retained + ordered[i..];
    FewerAreApart(retained, ordered[i], ordered[i + 1..]);
    forall v | v in retained ensures Distance(keep)(v) <= Distance(keep)(ordered[i]) {
      var k :| 0 <= k < i && ordered[..i][k] == v;
      assert ordered[k] == v;
    }
    AllNear(retained, keep, ordered[i]);
    assert NoRoomFor(retained, keep, ordered[i]);
    hide NoRoomFor;
    assert ordered[..i + 1] == ordered[..i] + [ordered[i]];
    assert retained[0] in ordered[..i];
  }

  /** An interval holding `keep` is strictly the nearest. */
  lemma HolderIsFirst(ordered: seq<Interval>, keep: Interval, v: Interval)
    requires Apart(ordered) && SortedBy(ordered, Distance(keep)) && v in ordered && keep.start < keep.end
    requires v.start <= keep.start && keep.end <= v.end
    ensures ordered[0] == v
  {
    var k :| 0 <= k < |ordered| && ordered[k] == v;
    assert Distance(keep)(ordered[k]) == 0;
  }

  lemma TrimmedWhenRetained(covered: seq<Interval>, ordered: seq<Interval>, keep: Interval,
                            retained: seq<Interval>, after: seq<Interval>)
    requires Separated(covered) && keep.start < keep.end && Span(covered) > MAX_COVERED_MS
    requires multiset(ordered) == multiset(covered) && SortedBy(ordered, Distance(keep)) && Apart(ordered)
    requires Retaining(ordered, keep, |ordered|, retained)
    requires multiset(after) == multiset(retained) && SortedBy(after, StartOf)
    ensures Trimmed(covered, keep, after)
  {
    assert retained + ordered[|ordered|..] == retained && ordered[..|ordered|] == ordered;
    SortedApartIsSeparated(retained, after);
    SameEntriesCoverTheSame(after, retained);
    SameEntriesCoverTheSame(ordered, covered);
    SumPermutes(after, retained, Width);
    assert |multiset(after)| == |after| && |multiset(retained)| == |retained|;
    forall v | v in covered && v.start <= keep.start && keep.end <= v.end ensures v in after {
      HolderIsFirst(ordered, keep, v);
    }
    NoneThatFitDropped(covered, ordered, keep, retained, after);
  }

  lemma NoneThatFitDropped(covered: seq<Interval>, ordered: seq<Interval>, keep: Interval,
                           retained: seq<Interval>, after: seq<Interval>)
    requires multiset(after) == multiset(retained) && Separated(after)
    requires forall v :: v in ordered <==> v in covered
    requires forall v :: v in after <==> v in retained
    requires forall j :: 0 <= j < |ordered| ==> ordered[j] in retained || NoRoomFor(retained, keep, ordered[j])
    ensures DropsNoneThatFit(covered, keep, after)
  {
    forall d, r | d in covered && d !in after && r >= 0 && Within(keep, d, r)
      ensures Sum(after, NearWidth(keep, r)) + (d.end - d.start) > MAX_COVERED_MS
    {
      var j :| 0 <= j < |ordered| && ordered[j] == d;
      var near := Distance(keep)(d);
      WithinIff(keep, d, r);
      SumPermutes(after, retained, NearWidth(keep, near));
      MoreIsWithin(after, keep, near, r);
    }
  }

  /** The coverage part of `trim`. */
  method TrimCoverage(covered: seq<Interval>, keep: Interval) returns (after: seq<Interval>)
    requires Separated(covered) && keep.start < keep.end
    ensures Trimmed(covered, keep, after)
  {
    hide Retaining, SortedBy, Separated, Apart;
    if Span(covered) <= MAX_COVERED_MS {
      return covered;
    }
    var ordered := SortBy(covered, Distance(keep));
    SeparatedIsApart(covered);
    ApartPermutes(covered, ordered);
    var retained: seq<Interval> := [];
    var span := 0;
    StartRetaining(ordered, keep);
    for i := 0 to |ordered|
      invariant Retaining(ordered, keep, i, retained) && span == Span(retained)
    {
      var width := Width(ordered[i]);
      if span + width > MAX_COVERED_MS && |retained| > 0 {
        PassOver(ordered, keep, i, retained);
        continue;
      }
      RetainNext(ordered, keep, i, retained);
      retained := retained + [ordered[i]];
      span := span + width;
    }
    after := SortBy(retained, StartOf);
    TrimmedWhenRetained(covered, ordered, keep, retained, after);
  }

  lemma StartRetaining(ordered: seq<Interval>, keep: Interval)
    requires Apart(ordered)
    ensures Retaining(ordered, keep, 0, [])
  {
    assert [] + ordered[0..] == ordered;
  }

  // ---------- One entry ----------

  type Held = map<Key, Occurrence>

  function InsertAll(m: Held, fetched: seq<Occurrence>): Held {
    if fetched == [] then m
    else
      var last := fetched[|fetched| - 1];
      InsertAll(m, fetched[..|fetched| - 1])[KeyOf(last) := last]
  }

  /** The server is authoritative for the range: what overlapped it goes, and its answer comes in. */
  function Reconciled(m: Held, interval: Interval, fetched: seq<Occurrence>): Held {
    InsertAll(map k | k in m && !Meets(m[k], interval) :: m[k], fetched)
  }

  function StillCovered(m: Held, covered: seq<Interval>): Held {
    map k | k in m && MeetsAny(m[k], covered) :: m[k]
  }

  datatype Store = Store(byKey: Held, covered: seq<Interval>, inFlight: set<Interval>, occurrences: set<Occurrence>)

  const EMPTY := Store(map[], [], {}, {})

  datatype Event =
    | Load(wanted: Interval)
    | Completed(interval: Interval, fetched: seq<Occurrence>)
    | Failed(interval: Interval)
    | Published
    | Invalidated

  ghost predicate IsUnion(covered: seq<Interval>, next: Interval, merged: seq<Interval>) {
    Separated(merged) && forall p :: Covers(merged, p) <==> Covers(covered, p) || Has(next, p)
  }

  ghost predicate FetchApplied(s: Store, interval: Interval, fetched: seq<Occurrence>, s': Store) {
    && s'.inFlight == s.inFlight - {interval} && s'.occurrences == s.occurrences
    && exists merged ::
         && IsUnion(s.covered, interval, merged)
         && Trimmed(merged, interval, s'.covered)
         && s'.byKey == (if Span(merged) <= MAX_COVERED_MS then Reconciled(s.byKey, interval, fetched)
                         else StillCovered(Reconciled(s.byKey, interval, fetched), s'.covered))
  }

  /** What each thing that happens to an entry does to it. */
  ghost predicate Step(s: Store, e: Event, s': Store) {
    match e
    case Load(wanted) =>
      exists gaps :: AreGaps(s.covered, wanted, gaps) && s' == s.(inFlight := s.inFlight + set g | g in gaps)
    case Completed(interval, fetched) => interval in s.inFlight && FetchApplied(s, interval, fetched, s')
    case Failed(interval) => s' == s.(inFlight := s.inFlight - {interval})
    case Published => s' == s.(occurrences := s.byKey.Values)
    case Invalidated => s' == s.(covered := [])
  }

  class Entry {
    var byKey: Held
    var covered: seq<Interval>
    var inFlight: set<Interval>
    var occurrences: set<Occurrence>

    constructor ()
      ensures StoreOf() == EMPTY
    {
      byKey, covered, inFlight, occurrences := map[], [], {}, {};
    }

    function StoreOf(): Store
      reads this
    {
      Store(byKey, covered, inFlight, occurrences)
    }

    /** `runLoad` up to its first await: a request for every gap not already being fetched. */
    method BeginLoad(wanted: Interval) returns (gaps: seq<Interval>)
      requires Separated(covered)
      modifies this`inFlight
      ensures AreGaps(covered, wanted, gaps)
      ensures Step(old(StoreOf()), Load(wanted), StoreOf())
      ensures forall v :: v in inFlight <==> v in old(inFlight) || v in gaps
    {
      gaps := GapsIn(covered, wanted);
      inFlight := inFlight + set g | g in gaps;
    }

    /** The rest of `fetchInterval`, run when the response arrives. */
    method FetchCompleted(interval: Interval, fetched: seq<Occurrence>)
      requires Separated(covered) && interval.start < interval.end && interval in inFlight
      modifies this`byKey, this`covered, this`inFlight
      ensures Step(old(StoreOf()), Completed(interval, fetched), StoreOf())
      ensures interval !in inFlight && forall v :: v != interval ==> (v in inFlight <==> v in old(inFlight))
    {
      hide Separated, Trimmed;
      byKey := map k | k in byKey && !Meets(byKey[k], interval) :: byKey[k];
      ghost var kept := byKey;
      for i := 0 to |fetched|
        invariant byKey == InsertAll(kept, fetched[..i])
        invariant covered == old(covered) && inFlight == old(inFlight) && occurrences == old(occurrences)
      {
        byKey := byKey[KeyOf(fetched[i]) := fetched[i]];
        assert fetched[..i + 1][..i] == fetched[..i];
      }
      assert fetched[..|fetched|] == fetched;
      covered := AddInterval(covered, interval);
      ghost var merged := covered;
      Trim(interval);
      inFlight := inFlight - {interval};
      assert IsUnion(old(covered), interval, merged) && Trimmed(merged, interval, covered);
    }

    /** `trim`. */
    method Trim(keep: Interval)
      requires Separated(covered) && keep.start < keep.end
      modifies this`byKey, this`covered
      ensures Trimmed(old(covered), keep, covered)
      ensures byKey == if Span(old(covered)) <= MAX_COVERED_MS then old(byKey) else StillCovered(old(byKey), covered)
    {
      if Span(covered) <= MAX_COVERED_MS {
        return;
      }
      covered := TrimCoverage(covered, keep);
      byKey := map k | k in byKey && MeetsAny(byKey[k], covered) :: byKey[k];
    }

    method FetchFailed(interval: Interval)
      modifies this`inFlight
      ensures Step(old(StoreOf()), Failed(interval), StoreOf())
      ensures interval !in inFlight && forall v :: v != interval ==> (v in inFlight <==> v in old(inFlight))
    {
      inFlight := inFlight - {interval};
    }

    /** `republishOccurrences`. */
    method Publish()
      modifies this`occurrences
      ensures Step(old(StoreOf()), Published, StoreOf())
      ensures forall o :: o in occurrences <==> exists k :: k in byKey && byKey[k] == o
    {
      occurrences := byKey.Values;
    }

    /** `reload`, and a reader's `refetch`, before the load that follows. */
    method Invalidate()
      modifies this`covered
      ensures Step(old(StoreOf()), Invalidated, StoreOf())
      ensures covered == []
    {
      covered := [];
    }
  }

  // ---------- Agreement with the server ----------

  /** Occurrences last some time, and a key names one of them. */
  ghost predicate ValidServer(server: iset<Occurrence>) {
    && (forall o :: o in server ==> o.start < o.end)
    && forall o, o' :: o in server && o' in server && KeyOf(o) == KeyOf(o') ==> o == o'
  }

  /** A correct response for an interval. */
  ghost predicate Answers(server: iset<Occurrence>, interval: Interval, fetched: seq<Occurrence>) {
    forall o :: o in fetched <==> o in server && Meets(o, interval)
  }

  ghost predicate Reaches(covered: seq<Interval>, o: Occurrence) {
    exists p :: o.start <= p < o.end && Covers(covered, p)
  }

  /** Wherever coverage reaches, the cache holds exactly what the server has. */
  ghost predicate Agrees(s: Store, server: iset<Occurrence>) {
    && ValidServer(server)
    && Separated(s.covered)
    && (forall v :: v in s.inFlight ==> v.start < v.end)
    && (forall k :: k in s.byKey ==> KeyOf(s.byKey[k]) == k)
    && (forall k :: k in s.byKey && Reaches(s.covered, s.byKey[k]) ==> s.byKey[k] in server)
    && forall o :: o in server && Reaches(s.covered, o) ==> KeyOf(o) in s.byKey && s.byKey[KeyOf(o)] == o
  }

  lemma {:induction false} InsertAllHas(m: Held, fetched: seq<Occurrence>)
    requires forall o, o' :: o in fetched && o' in fetched && KeyOf(o) == KeyOf(o') ==> o == o'
    requires forall k :: k in m ==> KeyOf(m[k]) == k
    ensures var r := InsertAll(m, fetched);
            && (forall o :: o in fetched ==> KeyOf(o) in r && r[KeyOf(o)] == o)
            && (forall k :: k in r ==> KeyOf(r[k]) == k && (r[k] in fetched || (k in m && m[k] == r[k])))
            && (forall k :: k in m ==> k in r && (r[k] == m[k] || r[k] in fetched))
  {
    if fetched != [] {
      var n := |fetched| - 1;
      InsertAllHas(m, fetched[..n]);
      assert fetched == fetched[..n] + [fetched[n]];
    }
  }

  lemma ReachesUnion(covered: seq<Interval>, next: Interval, merged: seq<Interval>, o: Occurrence)
    requires IsUnion(covered, next, merged) && o.start < o.end && next.start < next.end
    ensures Reaches(merged, o) <==> Reaches(covered, o) || Meets(o, next)
  {
    if Reaches(covered, o) {
      var p :| o.start <= p < o.end && Covers(covered, p);
      assert Covers(merged, p);
    }
    if Meets(o, next) {
      var p := if o.start < next.start then next.start else o.start;
      assert Has(next, p) && Covers(merged, p);
    }
  }

  lemma MeetsAnyIsReaches(covered: seq<Interval>, o: Occurrence)
    requires Separated(covered)
    ensures Reaches(covered, o) ==> MeetsAny(o, covered)
    ensures o.start < o.end && MeetsAny(o, covered) ==> Reaches(covered, o)
  {
    if Reaches(covered, o) {
      var p :| o.start <= p < o.end && Covers(covered, p);
      var i :| 0 <= i < |covered| && Has(covered[i], p);
      assert Meets(o, covered[i]);
    }
    if o.start < o.end && MeetsAny(o, covered) {
      var i :| 0 <= i < |covered| && Meets(o, covered[i]);
      var p := if o.start < covered[i].start then covered[i].start else o.start;
      assert Has(covered[i], p) && Covers(covered, p);
    }
  }

  lemma TrimmedReachesLess(covered: seq<Interval>, keep: Interval, after: seq<Interval>, o: Occurrence)
    requires Trimmed(covered, keep, after) && Reaches(after, o)
    ensures Reaches(covered, o)
  {
    var p :| o.start <= p < o.end && Covers(after, p);
    var i :| 0 <= i < |after| && Has(after[i], p);
    assert after[i] in after && after[i] in covered;
    var j :| 0 <= j < |covered| && covered[j] == after[i];
    assert Has(covered[j], p);
    assert Covers(covered, p);
  }

  /** Reconciling a correct answer extends the agreement over its interval. */
  lemma ReconcileAgrees(s: Store, server: iset<Occurrence>, interval: Interval, fetched: seq<Occurrence>, merged: seq<Interval>)
    requires Agrees(s, server) && interval in s.inFlight && Answers(server, interval, fetched)
    requires IsUnion(s.covered, interval, merged)
    ensures Agrees(s.(byKey := Reconciled(s.byKey, interval, fetched), covered := merged), server)
  {
    hide IsUnion, Reaches, Meets, Separated;
    assert Separated(merged) by { UnionIsSeparated(s.covered, interval, merged); }
    var kept := map k | k in s.byKey && !Meets(s.byKey[k], interval) :: s.byKey[k];
    var held := InsertAll(kept, fetched);
    InsertAllHas(kept, fetched);
    forall k | k in held && Reaches(merged, held[k]) ensures held[k] in server {
      if held[k] !in fetched {
        ReachesIsPositive(merged, held[k]);
        ReachesUnion(s.covered, interval, merged, held[k]);
      }
    }
    forall o | o in server && Reaches(merged, o) ensures KeyOf(o) in held && held[KeyOf(o)] == o {
      ReachesUnion(s.covered, interval, merged, o);
      if o !in fetched {
        assert s.byKey[KeyOf(o)] == o && KeyOf(o) in kept;
      }
    }
  }

  lemma UnionIsSeparated(covered: seq<Interval>, next: Interval, merged: seq<Interval>)
    requires IsUnion(covered, next, merged)
    ensures Separated(merged)
  {
  }

  lemma ReachesIsPositive(covered: seq<Interval>, o: Occurrence)
    requires Reaches(covered, o)
    ensures o.start < o.end
  {
  }

  /** Forgetting coverage, and what no coverage reaches, keeps the agreement. */
  lemma TrimAgrees(s: Store, server: iset<Occurrence>, keep: Interval, after: seq<Interval>)
    requires Agrees(s, server) && Trimmed(s.covered, keep, after)
    ensures Agrees(s.(byKey := StillCovered(s.byKey, after), covered := after), server)
    ensures Span(s.covered) <= MAX_COVERED_MS ==> after == s.covered
  {
    hide Reaches, Meets, MeetsAny, Separated;
    assert Separated(after);
    var held := StillCovered(s.byKey, after);
    forall k | k in held && Reaches(after, held[k]) ensures held[k] in server {
      TrimmedReachesLess(s.covered, keep, after, held[k]);
    }
    forall o | o in server && Reaches(after, o) ensures KeyOf(o) in held && held[KeyOf(o)] == o {
      TrimmedReachesLess(s.covered, keep, after, o);
      MeetsAnyIsReaches(after, o);
    }
  }

  // ---------- Runs ----------

  /** The server's contents change only with an invalidation, and not while a request is in flight. */
  ghost predicate WorldStep(s: Store, server: iset<Occurrence>, e: Event, s': Store, server': iset<Occurrence>) {
    && Step(s, e, s')
    && ValidServer(server')
    && (e.Completed? ==> Answers(server, e.interval, e.fetched))
    && (server' != server ==> e.Invalidated? && s.inFlight == {})
  }

  lemma StepAgrees(s: Store, server: iset<Occurrence>, e: Event, s': Store, server': iset<Occurrence>)
    requires Agrees(s, server) && WorldStep(s, server, e, s', server')
    ensures Agrees(s', server')
  {
    hide IsUnion, Trimmed, Reconciled, StillCovered;
    match e
    case Load(wanted) =>
      var gaps :| AreGaps(s.covered, wanted, gaps) && s' == s.(inFlight := s.inFlight + set g | g in gaps);
      assert forall v :: v in s'.inFlight ==> v.start < v.end;
    case Completed(interval, fetched) =>
      var merged :| && IsUnion(s.covered, interval, merged)
                    && Trimmed(merged, interval, s'.covered)
                    && s'.byKey == (if Span(merged) <= MAX_COVERED_MS then Reconciled(s.byKey, interval, fetched)
                                    else StillCovered(Reconciled(s.byKey, interval, fetched), s'.covered));
      CompletionAgrees(s, server, interval, fetched, merged, s');
    case Failed(_) =>
    case Published =>
    case Invalidated =>
      assert forall o :: !Reaches(s'.covered, o);
  }

  lemma CompletionAgrees(s: Store, server: iset<Occurrence>, interval: Interval, fetched: seq<Occurrence>,
                         merged: seq<Interval>, s': Store)
    requires Agrees(s, server) && interval in s.inFlight && Answers(server, interval, fetched)
    requires IsUnion(s.covered, interval, merged) && Trimmed(merged, interval, s'.covered)
    requires s'.inFlight == s.inFlight - {interval}
    requires s'.byKey == if Span(merged) <= MAX_COVERED_MS then Reconciled(s.byKey, interval, fetched)
                         else StillCovered(Reconciled(s.byKey, interval, fetched), s'.covered)
    ensures Agrees(s', server)
  {
    hide Reaches, Reconciled, StillCovered, IsUnion, Trimmed, Separated;
    ReconcileAgrees(s, server, interval, fetched, merged);
    var mid := s.(byKey := Reconciled(s.byKey, interval, fetched), covered := merged);
    TrimAgrees(mid, server, interval, s'.covered);
  }

  /** A run of the entry beside the server, from an empty cache. */
  ghost predicate Run(states: seq<Store>, servers: seq<iset<Occurrence>>, events: seq<Event>) {
    && |states| == |servers| == |events| + 1
    && states[0] == EMPTY && ValidServer(servers[0])
    && forall k :: 0 <= k < |events| ==> WorldStep(states[k], servers[k], events[k], states[k + 1], servers[k + 1])
  }

  lemma {:induction false} RunAgrees(states: seq<Store>, servers: seq<iset<Occurrence>>, events: seq<Event>, k: nat)
    requires Run(states, servers, events) && k < |states|
    ensures Agrees(states[k], servers[k])
  {
    if k == 0 {
      assert forall o :: !Reaches(states[0].covered, o);
    } else {
      RunAgrees(states, servers, events, k - 1);
      hide WorldStep, Agrees;
      StepAgrees(states[k - 1], servers[k - 1], events[k - 1], states[k], servers[k]);
    }
  }

  ghost predicate FullyCovered(covered: seq<Interval>, w: Interval) {
    forall p :: Has(w, p) ==> Covers(covered, p)
  }

  /** What is held for a covered window is the server's answer for it. */
  lemma CoveredWindowIsAnswered(s: Store, server: iset<Occurrence>, w: Interval, o: Occurrence)
    requires Agrees(s, server) && FullyCovered(s.covered, w) && w.start < w.end && o.start < o.end
    ensures o in s.byKey.Values && Meets(o, w) <==> o in server && Meets(o, w)
  {
    if Meets(o, w) {
      var p := if o.start < w.start then w.start else o.start;
      assert Has(w, p) && Covers(s.covered, p);
      assert Reaches(s.covered, o);
      if o in server {
        assert KeyOf(o) in s.byKey && s.byKey[KeyOf(o)] == o;
      }
    }
  }

  /** Every interleaving: over a fully covered window the cache and the server agree. */
  lemma CacheAgreesWithServer(states: seq<Store>, servers: seq<iset<Occurrence>>, events: seq<Event>, k: nat,
                              w: Interval, o: Occurrence)
    requires Run(states, servers, events) && k < |states|
    requires FullyCovered(states[k].covered, w) && w.start < w.end && o.start < o.end
    ensures o in states[k].byKey.Values && Meets(o, w) <==> o in servers[k] && Meets(o, w)
  {
    RunAgrees(states, servers, events, k);
    CoveredWindowIsAnswered(states[k], servers[k], w, o);
  }

  // ---------- Responses overtaken by changes ----------

  /** The server's contents may change at any moment, and a response answers those of its own moment. */
  ghost predicate OpenRun(states: seq<Store>, servers: seq<iset<Occurrence>>, events: seq<Option<Event>>) {
    && |states| == |servers| == |events| + 1
    && states[0] == EMPTY && (forall k :: 0 <= k < |servers| ==> ValidServer(servers[k]))
    && forall k :: 0 <= k < |events| ==> OpenStep(states, servers, events, k)
  }

  /** Something happens to the entry, or, when nothing does, to the server. */
  ghost predicate OpenStep(states: seq<Store>, servers: seq<iset<Occurrence>>, events: seq<Option<Event>>, k: int)
    requires |states| == |servers| == |events| + 1 && 0 <= k < |events|
  {
    match events[k]
    case None => states[k + 1] == states[k]
    case Some(e) =>
      && Step(states[k], e, states[k + 1]) && servers[k + 1] == servers[k]
      && (e.Completed? ==> exists j :: 0 <= j <= k && Answers(servers[j], e.interval, e.fetched))
  }

  /** A response still answers the current contents; a change is out of the covered time. */
  ghost predicate StillAnswers(states: seq<Store>, servers: seq<iset<Occurrence>>, events: seq<Option<Event>>, k: int)
    requires |states| == |servers| == |events| + 1 && 0 <= k < |events|
  {
    match events[k]
    case None => SameWhereCovered(states[k].covered, servers[k], servers[k + 1])
    case Some(e) => e.Completed? ==> Answers(servers[k], e.interval, e.fetched)
  }

  ghost predicate SameWhereCovered(covered: seq<Interval>, server: iset<Occurrence>, server': iset<Occurrence>) {
    forall o :: Reaches(covered, o) ==> (o in server <==> o in server')
  }

  lemma ChangeAgreesIff(s: Store, server: iset<Occurrence>, server': iset<Occurrence>)
    requires Agrees(s, server) && ValidServer(server')
    ensures Agrees(s, server') <==> SameWhereCovered(s.covered, server, server')
  {
    hide Reaches, Separated;
  }

  /** An interval that is covered throughout lies in one piece of the coverage. */
  lemma HolderExists(list: seq<Interval>, w: Interval) returns (v: Interval)
    requires Separated(list) && w.start < w.end && FullyCovered(list, w)
    ensures v in list && v.start <= w.start && w.end <= v.end
  {
    assert Has(w, w.start) && Covers(list, w.start);
    var i :| 0 <= i < |list| && Has(list[i], w.start);
    v := list[i];
    if v.end < w.end {
      assert Has(w, v.end) && Covers(list, v.end);
      var j :| 0 <= j < |list| && Has(list[j], v.end);
      assert false;
    }
  }

  lemma HolderStays(covered: seq<Interval>, keep: Interval, after: seq<Interval>, v: Interval)
    requires Trimmed(covered, keep, after) && v in covered && v.start <= keep.start && keep.end <= v.end
    ensures v in after
  {
    hide Separated, DropsNoneThatFit;
  }

  lemma CompletedIsCovered(s: Store, interval: Interval, fetched: seq<Occurrence>, s': Store, o: Occurrence)
    requires FetchApplied(s, interval, fetched, s') && interval.start < interval.end
    requires o.start < o.end && Meets(o, interval)
    ensures Reaches(s'.covered, o)
  {
    var merged :| IsUnion(s.covered, interval, merged) && Trimmed(merged, interval, s'.covered);
    var v := HolderExists(merged, interval);
    HolderStays(merged, interval, s'.covered, v);
    hide Trimmed, FetchApplied, IsUnion;
    var i :| 0 <= i < |s'.covered| && s'.covered[i] == v;
    var p := if o.start < interval.start then interval.start else o.start;
    assert Has(s'.covered[i], p) && Covers(s'.covered, p);
  }

  /** What a completion holds over its interval is its response. */
  lemma CompletedHolds(s: Store, interval: Interval, fetched: seq<Occurrence>, s': Store, past: iset<Occurrence>, o: Occurrence)
    requires FetchApplied(s, interval, fetched, s') && interval.start < interval.end
    requires forall k :: k in s.byKey ==> KeyOf(s.byKey[k]) == k
    requires ValidServer(past) && Answers(past, interval, fetched)
    requires o.start < o.end && Meets(o, interval) && Separated(s'.covered)
    ensures o in fetched <==> KeyOf(o) in s'.byKey && s'.byKey[KeyOf(o)] == o
  {
    hide Trimmed, IsUnion;
    var kept := map k | k in s.byKey && !Meets(s.byKey[k], interval) :: s.byKey[k];
    InsertAllHas(kept, fetched);
    CompletedIsCovered(s, interval, fetched, s', o);
    MeetsAnyIsReaches(s'.covered, o);
  }

  /** A response keeps an agreeing cache agreeing exactly when it still answers the current contents. */
  lemma CompletionAgreesIff(
    s: Store, server: iset<Occurrence>, interval: Interval, fetched: seq<Occurrence>, s': Store, past: iset<Occurrence>)
    requires Agrees(s, server) && Step(s, Completed(interval, fetched), s')
    requires ValidServer(past) && Answers(past, interval, fetched)
    ensures Agrees(s', server) <==> Answers(server, interval, fetched)
  {
    hide FetchApplied, Reaches, Separated, Meets, ValidServer;
    assert interval.start < interval.end;
    if Answers(server, interval, fetched) {
      assert ValidServer(server);
      StepAgrees(s, server, Completed(interval, fetched), s', server);
    }
    if Agrees(s', server) {
      assert FetchApplied(s, interval, fetched, s');
      forall o ensures o in fetched <==> o in server && Meets(o, interval) {
        if o in server || o in past {
          assert o.start < o.end by { Lasts(server, o); Lasts(past, o); }
          if Meets(o, interval) {
            CompletedIsCovered(s, interval, fetched, s', o);
            CompletedHolds(s, interval, fetched, s', past, o);
          }
        }
      }
    }
  }

  lemma Lasts(server: iset<Occurrence>, o: Occurrence)
    requires ValidServer(server)
    ensures o in server ==> o.start < o.end
  {
  }

  lemma {:induction false} AgreesWhileAnswered(states: seq<Store>, servers: seq<iset<Occurrence>>, events: seq<Option<Event>>, k: nat)
    requires OpenRun(states, servers, events) && k < |states|
    requires forall i :: 0 <= i < k ==> StillAnswers(states, servers, events, i)
    ensures Agrees(states[k], servers[k])
  {
    if k == 0 {
      assert forall o :: !Reaches(states[0].covered, o);
    } else {
      AgreesWhileAnswered(states, servers, events, k - 1);
      hide Agrees;
      OpenStepAgreesIff(states, servers, events, k - 1);
    }
  }

  lemma OpenStepAgreesIff(states: seq<Store>, servers: seq<iset<Occurrence>>, events: seq<Option<Event>>, k: nat)
    requires OpenRun(states, servers, events) && k < |events| && Agrees(states[k], servers[k])
    ensures Agrees(states[k + 1], servers[k + 1]) <==> StillAnswers(states, servers, events, k)
  {
    hide Agrees, Step, Answers, SameWhereCovered, ValidServer;
    assert OpenStep(states, servers, events, k);
    match events[k]
    case None => ChangeAgreesIff(states[k], servers[k], servers[k + 1]);
    case Some(e) =>
      if e.Completed? {
        var j :| 0 <= j <= k && Answers(servers[j], e.interval, e.fetched);
        CompletionAgreesIff(states[k], servers[k], e.interval, e.fetched, states[k + 1], servers[j]);
      } else {
        StepAgrees(states[k], servers[k], e, states[k + 1], servers[k]);
      }
  }

  /**
   Whatever changes while requests are in flight: the cache agrees with the server at every moment
   exactly when each response still answers the current contents over its interval when it arrives,
   and each change spares the covered time.
   */
  lemma OpenRunAgreesIff(states: seq<Store>, servers: seq<iset<Occurrence>>, events: seq<Option<Event>>)
    requires OpenRun(states, servers, events)
    ensures (forall k :: 0 <= k < |states| ==> Agrees(states[k], servers[k]))
            <==> (forall k :: 0 <= k < |events| ==> StillAnswers(states, servers, events, k))
  {
    hide Agrees, StillAnswers;
    if forall k :: 0 <= k < |events| ==> StillAnswers(states, servers, events, k) {
      forall k | 0 <= k < |states| ensures Agrees(states[k], servers[k]) {
        AgreesWhileAnswered(states, servers, events, k);
      }
    }
    if forall k :: 0 <= k < |states| ==> Agrees(states[k], servers[k]) {
      forall k | 0 <= k < |events| ensures StillAnswers(states, servers, events, k) {
        assert Agrees(states[k + 1], servers[k + 1]);
        OpenStepAgreesIff(states, servers, events, k);
      }
    }
  }

  /** A load in flight while its window's only occurrence is deleted and the cache invalidated: the occurrence stays. */
  lemma LateResponseCanDisagree(o: Occurrence)
    returns (states: seq<Store>, servers: seq<iset<Occurrence>>, events: seq<Option<Event>>)
    requires o.start < o.end && o.end - o.start <= MAX_COVERED_MS
    ensures var w := Interval(o.start, o.end);
            events == [Some(Load(w)), None, Some(Invalidated), Some(Completed(w, [o]))]
    ensures OpenRun(states, servers, events) && servers[1] == iset{o} && servers[2] == iset{}
    ensures o in states[4].byKey.Values && FullyCovered(states[4].covered, Interval(o.start, o.end))
    ensures !Agrees(states[4], servers[4])
  {
    hide FetchApplied, ValidServer, AreGaps, Separated, Covers;
    var w := Interval(o.start, o.end);
    var loading, loaded := EMPTY.(inFlight := {w}), Store(map[KeyOf(o) := o], [w], {}, {});
    events := [Some(Load(w)), None, Some(Invalidated), Some(Completed(w, [o]))];
    states := [EMPTY, loading, loading, loading, loaded];
    servers := [iset{o}, iset{o}, iset{}, iset{}, iset{}];
    OneInterval(w);
    FirstCompletion(o);
    ServersOfOne(o);
    assert Step(EMPTY, Load(w), loading) by {
      assert EMPTY.inFlight + (set g | g in [w]) == {w};
    }
    assert Step(loading, Completed(w, [o]), loaded);
    assert forall k :: 0 <= k < |events| ==> OpenStep(states, servers, events, k) by {
      assert Answers(servers[1], w, [o]);
    }
    assert loaded.byKey[KeyOf(o)] == o && o in loaded.byKey.Values;
    assert Has(w, o.start) && Reaches([w], o);
  }

  lemma OneInterval(w: Interval)
    requires w.start < w.end
    ensures AreGaps([], w, [w]) && IsUnion([], w, [w]) && FullyCovered([w], w) && Span([w]) == Width(w)
  {
    forall p ensures Covers([w], p) <==> Has(w, p) {
      CoversAppend([], w, p);
      assert [] + [w] == [w];
    }
    SumFirst(w, [], Width);
    assert [w] + [] == [w] && Sum([], Width) == 0;
  }

  lemma FirstCompletion(o: Occurrence)
    requires o.start < o.end && o.end - o.start <= MAX_COVERED_MS
    ensures var w := Interval(o.start, o.end);
            FetchApplied(EMPTY.(inFlight := {w}), w, [o], Store(map[KeyOf(o) := o], [w], {}, {}))
  {
    hide IsUnion;
    var w := Interval(o.start, o.end);
    OneInterval(w);
    OneReconciled(map[], w, o);
    assert Reconciled(map[], w, [o]) == map[KeyOf(o) := o];
    assert IsUnion([], w, [w]) && Trimmed([w], w, [w]);
  }

  lemma OneReconciled(m: Held, w: Interval, o: Occurrence)
    ensures var r := Reconciled(m, w, [o]);
            KeyOf(o) in r && r[KeyOf(o)] == o && forall k :: k in r ==> k == KeyOf(o) || k in m
  {
    var kept := map k | k in m && !Meets(m[k], w) :: m[k];
    assert [o][..0] == [] && InsertAll(kept, [o][..0]) == kept;
  }

  lemma ServersOfOne(o: Occurrence)
    requires o.start < o.end
    ensures ValidServer(iset{o}) && ValidServer(iset{}) && Answers(iset{o}, Interval(o.start, o.end), [o])
  {
  }

  // ---------- A load publishes its answer ----------

  ghost predicate Unanswered(events: seq<Event>, begin: int, end: int, g: Interval) {
    forall k :: 0 <= begin < k < end <= |events| ==>
      events[k] != Failed(g) && !(events[k].Completed? && events[k].interval == g)
  }

  /** What a load lacks is asked for, and stays in flight until it is answered or fails. */
  lemma {:induction false} GapsStayInFlight(states: seq<Store>, servers: seq<iset<Occurrence>>, events: seq<Event>,
                                            begin: nat, end: nat, p: int)
    requires Run(states, servers, events) && begin < end < |states|
    requires events[begin].Load? && Has(events[begin].wanted, p) && !Covers(states[begin].covered, p)
    ensures exists g :: Has(g, p) && (Unanswered(events, begin, end, g) ==> g in states[end].inFlight)
    decreases end
  {
    if end == begin + 1 {
      assert WorldStep(states[begin], servers[begin], events[begin], states[end], servers[end]);
      var gaps :| AreGaps(states[begin].covered, events[begin].wanted, gaps)
                  && states[end] == states[begin].(inFlight := states[begin].inFlight + set g | g in gaps);
      assert Covers(gaps, p);
      var i :| 0 <= i < |gaps| && Has(gaps[i], p);
      assert gaps[i] in states[end].inFlight;
    } else {
      GapsStayInFlight(states, servers, events, begin, end - 1, p);
      var e, s, s' := events[end - 1], states[end - 1], states[end];
      assert WorldStep(s, servers[end - 1], e, s', servers[end]);
      var g :| Has(g, p) && (Unanswered(events, begin, end - 1, g) ==> g in s.inFlight);
      StaysInFlight(s, e, s', g);
    }
  }

  lemma StaysInFlight(s: Store, e: Event, s': Store, g: Interval)
    requires Step(s, e, s')
    ensures g in s.inFlight && e != Failed(g) && !(e.Completed? && e.interval == g) ==> g in s'.inFlight
  {
  }

  /** No fetch completed between `begin` and `end` took the covered span over the cap. */
  ghost predicate StaysUnderCap(states: seq<Store>, events: seq<Event>, begin: int, end: int)
    requires |states| == |events| + 1
  {
    forall k, merged ::
      (0 <= begin <= k < end <= |events| && events[k].Completed? && IsUnion(states[k].covered, events[k].interval, merged))
      ==> Span(merged) <= MAX_COVERED_MS
  }

  ghost predicate NotInvalidated(events: seq<Event>, begin: int, end: int) {
    forall k :: 0 <= begin <= k < end <= |events| ==> !events[k].Invalidated?
  }

  lemma {:induction false} CoverageGrows(states: seq<Store>, servers: seq<iset<Occurrence>>, events: seq<Event>,
                                         begin: nat, end: nat, p: int)
    requires Run(states, servers, events) && begin <= end < |states|
    requires StaysUnderCap(states, events, begin, end) && NotInvalidated(events, begin, end)
    requires Covers(states[begin].covered, p)
    ensures Covers(states[end].covered, p)
    decreases end
  {
    if begin < end {
      CoverageGrows(states, servers, events, begin, end - 1, p);
      StepCovers(states, servers, events, end - 1);
    }
  }

  lemma StepCovers(states: seq<Store>, servers: seq<iset<Occurrence>>, events: seq<Event>, k: nat)
    requires Run(states, servers, events) && k < |events|
    requires StaysUnderCap(states, events, k, k + 1) && !events[k].Invalidated?
    ensures forall p :: Covers(states[k].covered, p) ==> Covers(states[k + 1].covered, p)
    ensures events[k].Completed? ==> forall p :: Has(events[k].interval, p) ==> Covers(states[k + 1].covered, p)
  {
    var s, e, s' := states[k], events[k], states[k + 1];
    assert WorldStep(s, servers[k], e, s', servers[k + 1]);
    if e.Completed? {
      assert FetchApplied(s, e.interval, e.fetched, s');
      var merged :| && IsUnion(s.covered, e.interval, merged) && Trimmed(merged, e.interval, s'.covered);
      assert Span(merged) <= MAX_COVERED_MS;
    }
  }

  /**
   A load whose gaps have all arrived, with nothing invalidated and nothing trimmed since it began,
   publishes for its window exactly the server's answer.
   */
  lemma LoadPublishesTheAnswer(
    states: seq<Store>, servers: seq<iset<Occurrence>>, events: seq<Event>, begin: nat, end: nat,
    wanted: Interval, gaps: seq<Interval>, arrivals: seq<nat>, o: Occurrence)
    requires Run(states, servers, events) && begin <= end < |events| && events[end].Published?
    requires StaysUnderCap(states, events, begin, end) && NotInvalidated(events, begin, end)
    requires AreGaps(states[begin].covered, wanted, gaps) && |arrivals| == |gaps|
    requires forall g :: 0 <= g < |gaps| ==>
               begin <= arrivals[g] < end && events[arrivals[g]].Completed? && events[arrivals[g]].interval == gaps[g]
    requires wanted.start < wanted.end && o.start < o.end
    ensures o in states[end + 1].occurrences && Meets(o, wanted) <==> o in servers[end] && Meets(o, wanted)
  {
    forall p | Has(wanted, p) ensures Covers(states[end].covered, p) {
      if Covers(states[begin].covered, p) {
        CoverageGrows(states, servers, events, begin, end, p);
      } else {
        assert Covers(gaps, p);
        var g :| 0 <= g < |gaps| && Has(gaps[g], p);
        StepCovers(states, servers, events, arrivals[g]);
        CoverageGrows(states, servers, events, arrivals[g] + 1, end, p);
      }
    }
    assert WorldStep(states[end], servers[end], events[end], states[end + 1], servers[end + 1]);
    CacheAgreesWithServer(states, servers, events, end, wanted, o);
  }
}
