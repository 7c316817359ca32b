/**
 Recurring series: the candidate dates a rule visits, the starts it emits, and the walk that lists
 the starts around a window. Instants are microseconds; day `d` of UTC is `[d * DAY, (d + 1) * DAY)`.
 */
module Recurrence {
  import opened Wrappers
  import opened CivilDates
  import opened Numbers
  import opened SortedSets

  const DAY := 86_400_000_000

  datatype Frequency = Daily | Weekly | Monthly | Yearly

  /** The stored rule. `interval` is whatever the column holds; the walk clamps it. */
  datatype Rule = Rule(
    frequency: Frequency,
    interval: int,
    byWeekday: Option<seq<int>>,
    until: Option<int>,
    count: Option<int>)

  /**
   One recurring event's timing. `base` and `timeOfDay` are its first start on the event's own
   clock; `toUtc` sends a local day to the instant that clock shows `timeOfDay` on it.
   */
  datatype Series = Series(
    startsAt: int,
    duration: int,
    rule: Rule,
    base: int,
    timeOfDay: int,
    toUtc: int -> int)

  datatype Window = Window(start: int, end: int)

  /** A UTC offset is under a day, and a later local day is never an earlier instant. */
  ghost predicate IsZone(timeOfDay: int, toUtc: int -> int) {
    && (forall d :: -DAY < toUtc(d) - (d * DAY + timeOfDay) < DAY)
    && (forall d, e :: d <= e ==> toUtc(d) <= toUtc(e))
  }

  ghost predicate Valid(s: Series) {
    && 1 <= s.base <= MAX_ORDINAL
    && 0 <= s.timeOfDay < DAY
    && 0 < s.duration
    && IsZone(s.timeOfDay, s.toUtc)
    && -DAY < s.startsAt - (s.base * DAY + s.timeOfDay) < DAY
    && (s.rule.byWeekday.Some? ==> forall d :: d in s.rule.byWeekday.value ==> 0 <= d <= 6)
  }

  /** A window between representable instants. */
  predicate ValidWindow(w: Window) {
    DAY <= w.start < w.end <= (MAX_ORDINAL + 1) * DAY
  }

  predicate Overlaps(start: int, end: int, w: Window) {
    start < w.end && end > w.start
  }

  // ---------- Candidate dates ----------

  /** A rule's n-th candidate: a date, a date that does not exist, or past the last date. */
  datatype Slot = On(day: int) | Impossible | Exhausted

  function Interval(s: Series): (i: int)
    ensures i >= 1
  {
    if s.rule.interval < 1 then 1 else s.rule.interval
  }

  function Weekday(day: int): int {
    (day + 6) % 7
  }

  /** Daily and weekly series repeat a list of day offsets every `Period` days from `Origin`. */
  function Offsets(s: Series): seq<int> {
    if s.rule.frequency == Daily then [0]
    else match s.rule.byWeekday
      case None => [Weekday(s.base)]
      case Some(days) => SortedSet(days)
  }

  function Period(s: Series): (p: int)
    ensures p >= 1
  {
    if s.rule.frequency == Daily then Interval(s) else 7 * Interval(s)
  }

  function Origin(s: Series): int {
    if s.rule.frequency == Daily then s.base else s.base - Weekday(s.base)
  }

  function PeriodStart(s: Series, k: int): int {
    Origin(s) + k * Period(s)
  }

  /** Monthly and yearly series step `MonthStep` months and keep the day of the month. */
  function MonthStep(s: Series): (m: int)
    ensures m >= 1
  {
    if s.rule.frequency == Monthly then Interval(s) else 12 * Interval(s)
  }

  function BaseMonth(s: Series): (m: nat)
    requires Valid(s)
    ensures MonthStart(m) <= s.base < MonthStart(m + 1)
  {
    MonthOf(s.base)
  }

  function DayOfMonth(s: Series): int
    requires Valid(s)
  {
    s.base - MonthStart(BaseMonth(s)) + 1
  }

  function CandidateMonth(s: Series, n: nat): (m: nat)
    requires Valid(s)
    ensures m >= n
  {
    assert n * MonthStep(s) >= n;
    BaseMonth(s) + n * MonthStep(s)
  }

  function CandidateDay(s: Series, n: nat): int
    requires Offsets(s) != []
  {
    PeriodStart(s, n / |Offsets(s)|) + Offsets(s)[n % |Offsets(s)|]
  }

  predicate IsGrid(s: Series) {
    s.rule.frequency == Daily || s.rule.frequency == Weekly
  }

  function Candidate(s: Series, n: nat): Slot
    requires Valid(s)
  {
    if IsGrid(s) then
      if Offsets(s) == [] || CandidateDay(s, n) > MAX_ORDINAL then Exhausted else On(CandidateDay(s, n))
    else
      var m := CandidateMonth(s, n);
      if YearOf(m) > MAX_YEAR then Exhausted
      else if DayOfMonth(s) > MonthLength(m) then Impossible
      else On(MonthStart(m) + DayOfMonth(s) - 1)
  }

  /** No series has this many candidates: each one is at least a day after the one before. */
  const HORIZON: nat := MAX_ORDINAL + 7

  lemma OffsetsAreDays(s: Series)
    requires Valid(s) && IsGrid(s)
    ensures StrictlySorted(Offsets(s))
    ensures forall j :: 0 <= j < |Offsets(s)| ==> 0 <= Offsets(s)[j] < 7
    ensures s.rule.frequency == Daily ==> Offsets(s) == [0]
    ensures |Offsets(s)| <= 7
  {
    if s.rule.frequency == Weekly && s.rule.byWeekday.Some? {
      var days := s.rule.byWeekday.value;
      SortedSetSorts(days);
      forall j | 0 <= j < |Offsets(s)| ensures 0 <= Offsets(s)[j] < 7 {
        assert Offsets(s)[j] in days;
      }
    }
    if |Offsets(s)| > 7 {
      SortedDaysFit(Offsets(s), 7);
    }
  }

  lemma {:induction false} SortedDaysFit(xs: seq<int>, j: nat)
    requires StrictlySorted(xs) && j < |xs|
    requires forall i :: 0 <= i < |xs| ==> 0 <= xs[i]
    ensures xs[j] >= j
  {
    if j > 0 {
      SortedDaysFit(xs, j - 1);
    }
  }

  lemma {:induction false} GridAscends(s: Series, n: nat, m: nat)
    requires Valid(s) && IsGrid(s) && Offsets(s) != [] && n < m
    ensures CandidateDay(s, n) + (m - n) <= CandidateDay(s, m)
    decreases m
  {
    if n < m - 1 {
      GridAscends(s, n, m - 1);
    }
    GridStep(s, m - 1);
  }

  lemma GridStep(s: Series, n: nat)
    requires Valid(s) && IsGrid(s) && Offsets(s) != []
    ensures CandidateDay(s, n) < CandidateDay(s, n + 1)
  {
    OffsetsAreDays(s);
    var l := |Offsets(s)|;
    var k, j := n / l, n % l;
    NextIndex(n, l);
    if j + 1 == l {
      assert (k + 1) * Period(s) == k * Period(s) + Period(s);
    }
  }

  /** Counting up moves to the next offset, or to the first offset of the next period. */
  lemma NextIndex(n: nat, l: int)
    requires l > 0
    ensures n % l + 1 < l ==> (n + 1) / l == n / l && (n + 1) % l == n % l + 1
    ensures n % l + 1 == l ==> (n + 1) / l == n / l + 1 && (n + 1) % l == 0
  {
    var k, j := n / l, n % l;
    assert n == k * l + j;
    if j + 1 < l {
      DivisionIs(n + 1, l, k, j + 1);
    } else {
      assert (k + 1) * l == k * l + l;
      DivisionIs(n + 1, l, k + 1, 0);
    }
  }

  lemma DivisionIs(n: int, d: int, q: int, r: int)
    requires d > 0 && n == q * d + r && 0 <= r < d
    ensures n / d == q && n % d == r
  {
    assert (n / d - q) * d == r - n % d;
    MultiplesAreLarge(n / d - q, d);
  }

  lemma MultiplesAreLarge(k: int, d: int)
    requires d > 0
    ensures k * d <= -d || k == 0 || k * d >= d
  {
    if k >= 1 {
      assert k * d == (k - 1) * d + d;
    } else if k <= -1 {
      assert k * d == (k + 1) * d - d;
    }
  }

  /** Candidate dates increase, and once the dates run out they stay out. */
  lemma CandidatesAscend(s: Series, n: nat, m: nat)
    requires Valid(s) && n < m
    ensures Candidate(s, m).Exhausted? || !Candidate(s, n).Exhausted?
    ensures Candidate(s, n).On? && Candidate(s, m).On? ==> Candidate(s, n).day < Candidate(s, m).day
  {
    if IsGrid(s) {
      if Offsets(s) != [] {
        GridAscends(s, n, m);
      }
    } else {
      var a, b := CandidateMonth(s, n), CandidateMonth(s, m);
      MonthsAscend(s, n, m);
      MonthStartsAreSpaced(a + 1, b);
      assert MonthStart(a + 1) == MonthStart(a) + MonthLength(a);
    }
  }

  lemma MonthsAscend(s: Series, n: nat, m: nat)
    requires Valid(s) && n <= m
    ensures CandidateMonth(s, n) + (m - n) * MonthStep(s) == CandidateMonth(s, m)
    ensures CandidateMonth(s, n) + (m - n) <= CandidateMonth(s, m)
  {
    assert m * MonthStep(s) == n * MonthStep(s) + (m - n) * MonthStep(s);
    assert (m - n) * MonthStep(s) >= m - n;
  }

  lemma ExhaustedByHorizon(s: Series, n: nat)
    requires Valid(s) && n >= HORIZON
    ensures Candidate(s, n).Exhausted?
  {
    if IsGrid(s) && Offsets(s) != [] {
      OffsetsAreDays(s);
      GridAscends(s, 0, n);
      DivisionIs(0, |Offsets(s)|, 0, 0);
      assert CandidateDay(s, 0) >= Origin(s) >= s.base - 6;
    }
  }

  // ---------- The starts of a series, whatever the window ----------

  /** The instant of a candidate date. */
  function At(s: Series, n: nat): int
    requires Valid(s) && Candidate(s, n).On?
  {
    s.toUtc(Candidate(s, n).day)
  }

  /** A candidate on or after the first start and not past `until`. */
  predicate Eligible(s: Series, n: nat)
    requires Valid(s)
  {
    && Candidate(s, n).On?
    && At(s, n) >= s.startsAt
    && (s.rule.until.Some? ==> At(s, n) <= s.rule.until.value)
  }

  /** How many eligible candidates come before the n-th. */
  function Rank(s: Series, n: nat): (r: nat)
    requires Valid(s)
    ensures r <= n
  {
    if n == 0 then 0 else Rank(s, n - 1) + (if Eligible(s, n - 1) then 1 else 0)
  }

  /** The rule's meaning: eligible, and among the first `count` of those. */
  predicate Emitted(s: Series, n: nat)
    requires Valid(s)
  {
    Eligible(s, n) && (s.rule.count.Some? ==> Rank(s, n) < s.rule.count.value)
  }

  ghost predicate IsStart(s: Series, t: int)
    requires Valid(s)
  {
    exists n: nat :: Emitted(s, n) && At(s, n) == t
  }

  /** An emitted candidate whose occurrence meets the window. */
  predicate Shown(s: Series, w: Window, n: nat)
    requires Valid(s)
  {
    Emitted(s, n) && Overlaps(At(s, n), At(s, n) + s.duration, w)
  }

  /** The specification: every candidate from the n-th on, kept when its occurrence meets the window. */
  function Reference(s: Series, w: Window, n: nat): seq<int>
    requires Valid(s)
    decreases HORIZON - n
  {
    if n >= HORIZON then []
    else (if Shown(s, w, n) then [At(s, n)] else []) + Reference(s, w, n + 1)
  }

  // ---------- The walk ----------

  predicate Stops(s: Series, w: Window, t: int) {
    t >= w.end || (s.rule.until.Some? && t > s.rule.until.value)
  }

  predicate CountReached(s: Series, emitted: int) {
    s.rule.count.Some? && emitted >= s.rule.count.value
  }

  /** What the generator yields from its n-th candidate on, having already yielded `emitted` starts. */
  function Walk(s: Series, w: Window, n: nat, emitted: int): seq<int>
    requires Valid(s)
    decreases HORIZON - n
  {
    match Candidate(s, n)
    case Exhausted => []
    case Impossible => WithinHorizon(s, n); Walk(s, w, n + 1, emitted)
    case On(day) =>
      WithinHorizon(s, n);
      var t := s.toUtc(day);
      if Stops(s, w, t) then []
      else if t >= s.startsAt && !CountReached(s, emitted) then [t] + Walk(s, w, n + 1, emitted + 1)
      else if CountReached(s, emitted) then []
      else Walk(s, w, n + 1, emitted)
  }

  lemma WithinHorizon(s: Series, n: nat)
    requires Valid(s)
    ensures !Candidate(s, n).Exhausted? ==> n < HORIZON
  {
    if n >= HORIZON {
      ExhaustedByHorizon(s, n);
    }
  }

  function DurationDays(s: Series): int {
    s.duration / DAY
  }

  function PeriodsBack(s: Series): (b: int)
    ensures b >= 1
  {
    var b := (DurationDays(s) + Period(s) - 1) / Period(s);
    if b < 1 then 1 else b
  }

  /** The candidate the walk starts from: 0, or near the window when nothing has to be counted. */
  function SkipIndex(s: Series, w: Window): nat
    requires Valid(s) && ValidWindow(w)
  {
    if s.rule.count.Some? || w.start <= s.startsAt then 0
    else SkipAhead(s, w.start / DAY)
  }

  function SkipAhead(s: Series, day: int): nat
    requires Valid(s) && 1 <= day
  {
    if IsGrid(s) then GridSkip(s, day) else CalendarSkip(s, day)
  }

  function GridSkip(s: Series, day: int): nat {
    var ahead := day - Origin(s);
    if s.rule.frequency == Daily then Max0(ahead / Period(s) - PeriodsBack(s))
    else Max0(Max0(ahead) / Period(s) - PeriodsBack(s)) * |Offsets(s)|
  }

  function CalendarSkip(s: Series, day: int): nat
    requires Valid(s) && 1 <= day
  {
    if s.rule.frequency == Monthly then
      var ahead := MonthOf(day) - BaseMonth(s);
      var back := DurationDays(s) / 28 + Interval(s) + 1;
      Max0((ahead - back) / Interval(s))
    else
      var ahead := YearOf(MonthOf(day)) - YearOf(BaseMonth(s));
      var back := DurationDays(s) / 365 + Interval(s) + 1;
      Max0((ahead - back) / Interval(s))
  }

  /** The starts the generator yields for a window. */
  function Starts(s: Series, w: Window): seq<int>
    requires Valid(s) && ValidWindow(w)
  {
    Walk(s, w, SkipIndex(s, w), 0)
  }

  /** The starts whose occurrences meet the window. */
  function Meeting(s: Series, w: Window, ts: seq<int>): seq<int> {
    if ts == [] then []
    else (if Overlaps(ts[0], ts[0] + s.duration, w) then [ts[0]] else []) + Meeting(s, w, ts[1..])
  }

  // ---------- The walk lists what the specification lists ----------

  lemma {:induction false} ReferenceIsEmpty(s: Series, w: Window, n: nat)
    requires Valid(s)
    requires forall m: nat :: n <= m ==> !Shown(s, w, m)
    ensures Reference(s, w, n) == []
    decreases HORIZON - n
  {
    if n < HORIZON {
      ReferenceIsEmpty(s, w, n + 1);
    }
  }

  lemma {:induction false} RankGrows(s: Series, n: nat, m: nat)
    requires Valid(s) && n <= m
    ensures Rank(s, n) <= Rank(s, m)
    decreases m
  {
    if n < m {
      RankGrows(s, n, m - 1);
    }
  }

  lemma NothingShownAfterStop(s: Series, w: Window, n: nat, m: nat)
    requires Valid(s) && n <= m && Candidate(s, n).On? && Stops(s, w, At(s, n))
    ensures !Shown(s, w, m)
  {
    if n < m && Candidate(s, m).On? {
      CandidatesAscend(s, n, m);
      assert At(s, n) <= At(s, m);
    }
  }

  lemma NothingShownOnceExhausted(s: Series, w: Window, n: nat, m: nat)
    requires Valid(s) && n <= m && Candidate(s, n).Exhausted?
    ensures !Shown(s, w, m)
  {
    if n < m {
      CandidatesAscend(s, n, m);
    }
  }

  /** Where the walk ends, nothing shown is left. */
  lemma NothingLeft(s: Series, w: Window, n: nat, emitted: int)
    requires Valid(s) && (s.rule.count.Some? ==> emitted == Rank(s, n)) && !Candidate(s, n).Impossible?
    requires Candidate(s, n).On? ==> Stops(s, w, At(s, n)) || CountReached(s, emitted)
    ensures Reference(s, w, n) == []
  {
    hide Candidate, Overlaps, IsZone, Rank, Reference, Stops;
    forall m: nat | n <= m ensures !Shown(s, w, m) {
      if Candidate(s, n).Exhausted? {
        NothingShownOnceExhausted(s, w, n, m);
      } else if Stops(s, w, At(s, n)) {
        NothingShownAfterStop(s, w, n, m);
      } else {
        RankGrows(s, n, m);
      }
    }
    ReferenceIsEmpty(s, w, n);
  }

  lemma ReferenceHere(s: Series, w: Window, n: nat)
    requires Valid(s) && n < HORIZON
    ensures Shown(s, w, n) ==> Reference(s, w, n) == [At(s, n)] + Reference(s, w, n + 1)
    ensures !Shown(s, w, n) ==> Reference(s, w, n) == Reference(s, w, n + 1)
  {
  }

  lemma MeetingHere(s: Series, w: Window, t: int, rest: seq<int>)
    ensures Meeting(s, w, [t] + rest) == (if Overlaps(t, t + s.duration, w) then [t] else []) + Meeting(s, w, rest)
  {
    assert ([t] + rest)[1..] == rest;
  }

  lemma RankSteps(s: Series, n: nat, emitted: int)
    requires Valid(s) && Candidate(s, n).On? && !CountReached(s, emitted)
    requires s.rule.count.Some? ==> emitted == Rank(s, n)
    requires s.rule.until.Some? ==> At(s, n) <= s.rule.until.value
    ensures Emitted(s, n) <==> At(s, n) >= s.startsAt
    ensures Rank(s, n + 1) == Rank(s, n) + if Emitted(s, n) then 1 else 0
  {
    hide Candidate, IsZone;
  }

  lemma ImpossibleRank(s: Series, n: nat)
    requires Valid(s) && Candidate(s, n).Impossible?
    ensures !Emitted(s, n) && Rank(s, n + 1) == Rank(s, n)
  {
    hide Candidate, IsZone;
  }

  /** The early exits lose nothing: filtering the walk by overlap is the specification. */
  lemma {:induction false} WalkMeetsReference(s: Series, w: Window, n: nat, emitted: int)
    requires Valid(s)
    requires s.rule.count.Some? ==> emitted == Rank(s, n)
    ensures Meeting(s, w, Walk(s, w, n, emitted)) == Reference(s, w, n)
    decreases HORIZON - n
  {
    hide Candidate, Overlaps, IsZone, Rank, Reference, Emitted, Meeting;
    WithinHorizon(s, n);
    if Candidate(s, n).Impossible? {
      ImpossibleRank(s, n);
      WalkMeetsReference(s, w, n + 1, emitted);
      ReferenceHere(s, w, n);
    } else if Candidate(s, n).Exhausted? || Stops(s, w, At(s, n)) || CountReached(s, emitted) {
      NothingLeft(s, w, n, emitted);
      NothingMeets(s, w);
    } else {
      RankSteps(s, n, emitted);
      ReferenceHere(s, w, n);
      if Emitted(s, n) {
        WalkMeetsReference(s, w, n + 1, emitted + 1);
        MeetingHere(s, w, At(s, n), Walk(s, w, n + 1, emitted + 1));
      } else {
        WalkMeetsReference(s, w, n + 1, emitted);
      }
    }
  }

  lemma NothingMeets(s: Series, w: Window)
    ensures Meeting(s, w, []) == []
  {
  }

  lemma {:induction false} ReferenceSkips(s: Series, w: Window, n: nat, m: nat)
    requires Valid(s) && n <= m
    requires forall k: nat :: n <= k < m ==> !Shown(s, w, k)
    ensures Reference(s, w, n) == Reference(s, w, m)
    decreases m - n
  {
    if n < m {
      ReferenceSkips(s, w, n + 1, m);
      if n >= HORIZON {
        assert Reference(s, w, n) == Reference(s, w, m) == [];
      }
    }
  }

  lemma {:induction false} ReferenceShrinks(s: Series, w: Window, n: nat, m: nat)
    requires Valid(s) && n <= m
    ensures |Reference(s, w, n)| >= |Reference(s, w, m)|
    decreases m - n
  {
    if n < m {
      ReferenceShrinks(s, w, n + 1, m);
    }
  }

  lemma SkippedShowingIsLost(s: Series, w: Window, n: nat, k: nat)
    requires Valid(s) && n < k && Shown(s, w, n)
    ensures |Reference(s, w, 0)| > |Reference(s, w, k)|
  {
    WithinHorizon(s, n);
    ReferenceShrinks(s, w, 0, n);
    ReferenceShrinks(s, w, n + 1, k);
  }

  /** Nothing the walk skipped is missing exactly when nothing it skipped meets the window. */
  lemma SkipIsExact(s: Series, w: Window)
    requires Valid(s) && ValidWindow(w)
    ensures Meeting(s, w, Starts(s, w)) == Reference(s, w, 0)
            <==> forall n: nat :: n < SkipIndex(s, w) ==> !Shown(s, w, n)
  {
    var k := SkipIndex(s, w);
    WalkMeetsReference(s, w, k, 0);
    if n: nat :| n < k && Shown(s, w, n) {
      SkippedShowingIsLost(s, w, n, k);
    } else {
      ReferenceSkips(s, w, 0, k);
    }
  }
}
