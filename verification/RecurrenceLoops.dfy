/**
 The generator itself, one loop per frequency, proved to yield `Recurrence.Starts`. Each loop keeps
 the same fact: what it has yielded, followed by the walk from its current candidate, is the answer.
 */
module RecurrenceLoops {
  import opened Wrappers
  import opened CivilDates
  import opened Numbers
  import opened SortedSets
  import opened Recurrence
  import opened RecurrenceSkip
  import opened RecurrenceDates

  /** `_add_months`: carries whole years out of a month count. */
  function AddMonths(year: int, month: int, monthsAdded: int): (int, int) {
    var total := (month - 1) + monthsAdded;
    (year + total / 12, total % 12 + 1)
  }

  /** `_safe_date`: the ordinal of a date, or nothing when the month has no such day. */
  function SafeDate(year: int, month: int, day: int): Option<int>
    requires year >= 1 && 1 <= month <= 12
  {
    if 1 <= day <= DaysInMonth(year, month)
    then Some(MonthStart(12 * (year - 1) + month - 1) + day - 1)
    else None
  }

  /** `should_emit`. */
  predicate MayEmit(s: Series, t: int, emitted: int) {
    t >= s.startsAt && (s.rule.until.Some? ==> t <= s.rule.until.value) && !CountReached(s, emitted)
  }

  /** What every loop does with a candidate: stop, or yield it, or pass over it. */
  method Visit(s: Series, w: Window, ghost n: nat, candidate: Option<int>, emitted: int)
    returns (go: bool, next: seq<int>, ghost rest: seq<int>)
    requires Valid(s) && Candidate(s, n) == (if candidate.None? then Impossible else On(candidate.value))
    ensures rest == if go then Walk(s, w, n + 1, emitted + |next|) else []
    ensures Walk(s, w, n, emitted) == next + rest
    ensures Walk(s, w, n, emitted) == next + if go then Walk(s, w, n + 1, emitted + |next|) else []
  {
    if candidate.None? {
      return true, [], Walk(s, w, n + 1, emitted);
    }
    var t := s.toUtc(candidate.value);
    if Stops(s, w, t) {
      return false, [], [];
    }
    if MayEmit(s, t, emitted) {
      return true, [t], Walk(s, w, n + 1, emitted + 1);
    }
    go := !CountReached(s, emitted);
    return go, [], if go then Walk(s, w, n + 1, emitted) else [];
  }

  lemma Advance(out: seq<int>, walk: seq<int>, next: seq<int>, rest: seq<int>)
    requires walk == next + rest
    ensures out + walk == (out + next) + rest
  {
  }

  lemma WalkEnds(s: Series, w: Window, n: nat, emitted: int)
    requires Valid(s) && Candidate(s, n).Exhausted?
    ensures Walk(s, w, n, emitted) == []
  {
  }

  // ---------- Daily ----------

  function DailyDay(s: Series, n: nat): int {
    s.base + n * Interval(s)
  }

  lemma DailyCandidate(s: Series, n: nat)
    requires Valid(s) && s.rule.frequency == Daily
    ensures Candidate(s, n) == if DailyDay(s, n) > MAX_ORDINAL then Exhausted else On(DailyDay(s, n))
    ensures DailyDay(s, n + 1) == DailyDay(s, n) + Interval(s)
  {
    assert n / 1 == n && n % 1 == 0;
    assert (n + 1) * Interval(s) == n * Interval(s) + Interval(s);
  }

  lemma DailySkipStaysInRange(s: Series, day: int)
    requires s.rule.frequency == Daily && day <= MAX_ORDINAL && GridSkip(s, day) > 0
    ensures DailyDay(s, GridSkip(s, day)) <= MAX_ORDINAL
  {
    var k := GridSkip(s, day) - 1;
    SkippedFromIsExact(s, day, k);
    PeriodsCover(s, k);
    assert (k + 1) * Interval(s) == k * Interval(s) + Interval(s);
  }

  method DailySkip(s: Series, w: Window) returns (skipped: nat)
    requires Valid(s) && ValidWindow(w) && s.rule.frequency == Daily
    ensures skipped == SkipIndex(s, w)
    ensures DailyDay(s, skipped) <= MAX_ORDINAL
  {
    var interval := Interval(s);
    if s.rule.count.None? && w.start > s.startsAt {
      var daysAhead := w.start / DAY - s.base;
      var durationDays := s.duration / DAY;
      var back := (durationDays + interval - 1) / interval;
      var intervalsBack := if back < 1 then 1 else back;
      skipped := Max0(daysAhead / interval - intervalsBack);
      assert skipped == GridSkip(s, w.start / DAY);
      if skipped > 0 {
        DailySkipStaysInRange(s, w.start / DAY);
      }
    } else {
      skipped := 0;
    }
  }

  lemma DailyNext(s: Series, n: nat, day: int)
    requires Valid(s) && s.rule.frequency == Daily && Candidate(s, n) == On(day)
    ensures Candidate(s, n + 1) == if day + Interval(s) > MAX_ORDINAL then Exhausted else On(day + Interval(s))
  {
    DailyCandidate(s, n);
    DailyCandidate(s, n + 1);
  }

  method DailyLoop(s: Series, w: Window, first: int, ghost skipped: nat) returns (out: seq<int>)
    requires Valid(s) && s.rule.frequency == Daily && Candidate(s, skipped) == On(first) && first <= MAX_ORDINAL
    ensures out == Walk(s, w, skipped, 0)
  {
    hide Walk, Candidate, Valid;
    var interval := Interval(s);
    ghost var goal := Walk(s, w, skipped, 0);
    ghost var n := skipped;
    var currentDate := first;
    var emitted := 0;
    ghost var rest := goal;
    out := [];
    while true
      invariant Candidate(s, n) == On(currentDate) && currentDate <= MAX_ORDINAL
      invariant out + rest == goal && rest == Walk(s, w, n, emitted)
      decreases MAX_ORDINAL - currentDate
    {
      var go, next, after := Visit(s, w, n, Some(currentDate), emitted);
      Advance(out, rest, next, after);
      out, emitted, rest := out + next, emitted + |next|, after;
      if !go {
        return;
      }
      DailyNext(s, n, currentDate);
      if currentDate + interval > MAX_ORDINAL {
        WalkEnds(s, w, n + 1, emitted);
        return;
      }
      currentDate := currentDate + interval;
      n := n + 1;
    }
  }

  // ---------- Weekly ----------

  function WeekIndex(s: Series, week: nat, j: nat): nat {
    week * |Offsets(s)| + j
  }

  lemma WeeklyCandidate(s: Series, week: nat, j: nat)
    requires Valid(s) && s.rule.frequency == Weekly && j < |Offsets(s)|
    ensures Candidate(s, WeekIndex(s, week, j)) ==
            var d := PeriodStart(s, week) + Offsets(s)[j];
            if d > MAX_ORDINAL then Exhausted else On(d)
  {
    DivisionIs(WeekIndex(s, week, j), |Offsets(s)|, week, j);
  }

  lemma NextWeek(s: Series, week: nat)
    ensures WeekIndex(s, week + 1, 0) == WeekIndex(s, week, 0) + |Offsets(s)|
    ensures PeriodStart(s, week + 1) == PeriodStart(s, week) + Period(s)
  {
    assert (week + 1) * |Offsets(s)| == week * |Offsets(s)| + |Offsets(s)|;
    assert (week + 1) * Period(s) == week * Period(s) + Period(s);
  }

  method WeeklySkip(s: Series, w: Window) returns (weekIndex: nat)
    requires Valid(s) && ValidWindow(w) && s.rule.frequency == Weekly
    ensures WeekIndex(s, weekIndex, 0) == SkipIndex(s, w)
  {
    var interval := Interval(s);
    var weekStart := s.base - Weekday(s.base);
    if s.rule.count.None? && w.start > s.startsAt {
      var daysAhead := Max0(w.start / DAY - weekStart);
      var durationDays := s.duration / DAY;
      var back := (durationDays + 7 * interval - 1) / (7 * interval);
      var intervalsBack := if back < 1 then 1 else back;
      weekIndex := Max0(daysAhead / (7 * interval) - intervalsBack);
      assert GridSkip(s, w.start / DAY) == weekIndex * |Offsets(s)|;
    } else {
      weekIndex := 0;
    }
  }

  method WeekStarts(s: Series, w: Window, ghost first: nat, weekOrdinal: int, weekdays: seq<int>, emitted: int)
    returns (go: bool, next: seq<int>, ghost rest: seq<int>)
    requires Valid(s)
    requires forall j :: 0 <= j < |weekdays| ==>
               Candidate(s, first + j) == if weekOrdinal + weekdays[j] > MAX_ORDINAL then Exhausted
                                          else On(weekOrdinal + weekdays[j])
    ensures rest == if go then Walk(s, w, first + |weekdays|, emitted + |next|) else []
    ensures Walk(s, w, first, emitted) == next + rest
    ensures Walk(s, w, first, emitted) == next + if go then Walk(s, w, first + |weekdays|, emitted + |next|) else []
  {
    hide Walk, Candidate, Valid;
    ghost var goal := Walk(s, w, first, emitted);
    next, rest := [], goal;
    for j := 0 to |weekdays|
      invariant next + rest == goal
      invariant rest == Walk(s, w, first + j, emitted + |next|)
    {
      if weekOrdinal + weekdays[j] > MAX_ORDINAL {
        WalkEnds(s, w, first + j, emitted + |next|);
        return false, next, [];
      }
      var on, more, after := Visit(s, w, first + j, Some(weekOrdinal + weekdays[j]), emitted + |next|);
      Advance(next, rest, more, after);
      next, rest := next + more, after;
      if !on {
        return false, next, [];
      }
    }
    go := true;
  }

  lemma WeekCandidates(s: Series, week: nat)
    requires Valid(s) && s.rule.frequency == Weekly
    ensures forall j :: 0 <= j < |Offsets(s)| ==>
              Candidate(s, WeekIndex(s, week, 0) + j) ==
              if PeriodStart(s, week) + Offsets(s)[j] > MAX_ORDINAL then Exhausted
              else On(PeriodStart(s, week) + Offsets(s)[j])
  {
    forall j | 0 <= j < |Offsets(s)|
      ensures Candidate(s, WeekIndex(s, week, 0) + j) ==
              if PeriodStart(s, week) + Offsets(s)[j] > MAX_ORDINAL then Exhausted
              else On(PeriodStart(s, week) + Offsets(s)[j])
    {
      WeeklyCandidate(s, week, j);
    }
  }

  lemma WeeksExhausted(s: Series, week: nat)
    requires Valid(s) && s.rule.frequency == Weekly && PeriodStart(s, week) > MAX_ORDINAL
    ensures Candidate(s, WeekIndex(s, week, 0)).Exhausted?
  {
    OffsetsAreDays(s);
    if Offsets(s) != [] {
      WeeklyCandidate(s, week, 0);
    }
  }

  method WeeklyLoop(s: Series, w: Window, weekIndex: nat) returns (out: seq<int>)
    requires Valid(s) && s.rule.frequency == Weekly
    ensures out == Walk(s, w, WeekIndex(s, weekIndex, 0), 0)
  {
    hide Walk, Candidate, Valid, WeekIndex;
    var weekdays := match s.rule.byWeekday case None => [Weekday(s.base)] case Some(days) => SortedSet(days);
    assert weekdays == Offsets(s);
    ghost var goal := Walk(s, w, WeekIndex(s, weekIndex, 0), 0);
    ghost var week := weekIndex;
    var weekOrdinal := s.base - Weekday(s.base) + 7 * weekIndex * Interval(s);
    assert weekOrdinal == PeriodStart(s, week);
    var emitted := 0;
    ghost var rest := goal;
    out := [];
    while weekOrdinal <= MAX_ORDINAL
      invariant weekOrdinal == PeriodStart(s, week)
      invariant out + rest == goal && rest == Walk(s, w, WeekIndex(s, week, 0), emitted)
      decreases MAX_ORDINAL - weekOrdinal
    {
      WeekCandidates(s, week);
      var go, next, after := WeekStarts(s, w, WeekIndex(s, week, 0), weekOrdinal, weekdays, emitted);
      Advance(out, rest, next, after);
      out, emitted, rest := out + next, emitted + |next|, after;
      if !go {
        return;
      }
      NextWeek(s, week);
      weekOrdinal := weekOrdinal + 7 * Interval(s);
      week := week + 1;
    }
    WeeksExhausted(s, week);
    WalkEnds(s, w, WeekIndex(s, week, 0), emitted);
  }

  // ---------- Monthly and yearly ----------

  lemma MonthFromParts(m: nat)
    ensures 12 * (YearOf(m) - 1) + MonthInYear(m) - 1 == m
  {
  }

  function SlotOf(s: Series, m: nat): Slot
    requires Valid(s)
  {
    if YearOf(m) > MAX_YEAR then Exhausted
    else match SafeDate(YearOf(m), MonthInYear(m), DayOfMonth(s)) case None => Impossible case Some(d) => On(d)
  }

  lemma CalendarCandidate(s: Series, n: nat, m: nat)
    requires Valid(s) && !IsGrid(s) && m == CandidateMonth(s, n)
    ensures Candidate(s, n) == SlotOf(s, m)
    ensures CandidateMonth(s, n + 1) == m + MonthStep(s)
  {
    hide MonthStart, IsZone, DaysInMonth, CandidateDay;
    MonthFromParts(m);
    MonthsAscend(s, n, n + 1);
  }

  lemma CarriedMonth(m: nat, k: nat)
    ensures AddMonths(YearOf(m), MonthInYear(m), k) == (YearOf(m + k), MonthInYear(m + k))
  {
  }

  lemma CarriedYear(m: nat, k: nat)
    ensures YearOf(m + 12 * k) == YearOf(m) + k && MonthInYear(m + 12 * k) == MonthInYear(m)
  {
  }

  method MonthlyCandidate(s: Series, ghost n: nat, baseMonth: nat, monthsAdded: nat)
    returns (year: int, candidate: Option<int>)
    requires Valid(s) && s.rule.frequency == Monthly && baseMonth == BaseMonth(s)
    requires baseMonth + monthsAdded == CandidateMonth(s, n)
    ensures year <= MAX_YEAR ==> monthsAdded <= 12 * MAX_YEAR
    ensures Candidate(s, n) == if year > MAX_YEAR then Exhausted
                               else if candidate.None? then Impossible else On(candidate.value)
    ensures CandidateMonth(s, n + 1) == baseMonth + monthsAdded + Interval(s)
  {
    CarriedMonth(baseMonth, monthsAdded);
    CalendarCandidate(s, n, baseMonth + monthsAdded);
    var (y, month) := AddMonths(YearOf(baseMonth), MonthInYear(baseMonth), monthsAdded);
    year := y;
    candidate := SafeDate(year, month, s.base - MonthStart(baseMonth) + 1);
  }

  method YearlyCandidate(s: Series, ghost n: nat, baseMonth: nat, yearsAdded: nat)
    returns (year: int, candidate: Option<int>)
    requires Valid(s) && s.rule.frequency == Yearly && baseMonth == BaseMonth(s)
    requires baseMonth + 12 * yearsAdded == CandidateMonth(s, n)
    ensures year <= MAX_YEAR ==> yearsAdded <= MAX_YEAR
    ensures Candidate(s, n) == if year > MAX_YEAR then Exhausted
                               else if candidate.None? then Impossible else On(candidate.value)
    ensures CandidateMonth(s, n + 1) == baseMonth + 12 * (yearsAdded + Interval(s))
  {
    CarriedYear(baseMonth, yearsAdded);
    CalendarCandidate(s, n, baseMonth + 12 * yearsAdded);
    year := YearOf(baseMonth) + yearsAdded;
    candidate := SafeDate(year, MonthInYear(baseMonth), s.base - MonthStart(baseMonth) + 1);
  }

  method MonthlySkip(s: Series, w: Window, baseMonth: nat) returns (monthsAdded: nat)
    requires Valid(s) && ValidWindow(w) && s.rule.frequency == Monthly && baseMonth == BaseMonth(s)
    ensures baseMonth + monthsAdded == CandidateMonth(s, SkipIndex(s, w))
  {
    hide MonthStart, IsZone, GridSkip;
    monthsAdded := 0;
    if s.rule.count.None? && w.start > s.startsAt {
      var interval := Interval(s);
      var now := MonthOf(w.start / DAY);
      var monthsAhead := (YearOf(now) - YearOf(baseMonth)) * 12 + MonthInYear(now) - MonthInYear(baseMonth);
      var monthsBack := (s.duration / DAY) / 28 + interval + 1;
      MonthFromParts(now);
      MonthFromParts(baseMonth);
      assert monthsAhead == now - baseMonth;
      var skipped := Max0((monthsAhead - monthsBack) / interval);
      assert skipped * interval >= 0;
      monthsAdded := skipped * interval;
    }
  }

  method MonthlyLoop(s: Series, w: Window, baseMonth: nat, skipped: nat, ghost first: nat) returns (out: seq<int>)
    requires Valid(s) && s.rule.frequency == Monthly && baseMonth == BaseMonth(s)
    requires baseMonth + skipped == CandidateMonth(s, first)
    ensures out == Walk(s, w, first, 0)
  {
    hide Walk, Candidate, Valid, CandidateMonth;
    ghost var goal := Walk(s, w, first, 0);
    var monthsAdded := skipped;
    ghost var n := first;
    var emitted := 0;
    ghost var rest := goal;
    out := [];
    while true
      invariant baseMonth + monthsAdded == CandidateMonth(s, n)
      invariant out + rest == goal && rest == Walk(s, w, n, emitted)
      decreases 12 * MAX_YEAR - monthsAdded
    {
      var year, candidate := MonthlyCandidate(s, n, baseMonth, monthsAdded);
      if year > MAX_YEAR {
        WalkEnds(s, w, n, emitted);
        return;
      }
      var go, next, after := Visit(s, w, n, candidate, emitted);
      Advance(out, rest, next, after);
      out, emitted, rest := out + next, emitted + |next|, after;
      if !go {
        return;
      }
      monthsAdded := monthsAdded + Interval(s);
      n := n + 1;
    }
  }

  method YearlySkip(s: Series, w: Window, baseMonth: nat) returns (yearsAdded: nat)
    requires Valid(s) && ValidWindow(w) && s.rule.frequency == Yearly && baseMonth == BaseMonth(s)
    ensures baseMonth + 12 * yearsAdded == CandidateMonth(s, SkipIndex(s, w))
  {
    hide MonthStart, IsZone, GridSkip;
    yearsAdded := 0;
    if s.rule.count.None? && w.start > s.startsAt {
      var interval := Interval(s);
      var yearsBack := (s.duration / DAY) / 365 + interval + 1;
      var skipped := Max0((YearOf(MonthOf(w.start / DAY)) - YearOf(baseMonth) - yearsBack) / interval);
      assert skipped * (12 * interval) == 12 * (skipped * interval);
      assert skipped * interval >= 0;
      yearsAdded := skipped * interval;
    }
  }

  method YearlyLoop(s: Series, w: Window, baseMonth: nat, skipped: nat, ghost first: nat) returns (out: seq<int>)
    requires Valid(s) && s.rule.frequency == Yearly && baseMonth == BaseMonth(s)
    requires baseMonth + 12 * skipped == CandidateMonth(s, first)
    ensures out == Walk(s, w, first, 0)
  {
    hide Walk, Candidate, Valid, CandidateMonth;
    ghost var goal := Walk(s, w, first, 0);
    var yearsAdded := skipped;
    ghost var n := first;
    var emitted := 0;
    ghost var rest := goal;
    out := [];
    while true
      invariant baseMonth + 12 * yearsAdded == CandidateMonth(s, n)
      invariant out + rest == goal && rest == Walk(s, w, n, emitted)
      decreases MAX_YEAR - yearsAdded
    {
      var year, candidate := YearlyCandidate(s, n, baseMonth, yearsAdded);
      if year > MAX_YEAR {
        WalkEnds(s, w, n, emitted);
        return;
      }
      var go, next, after := Visit(s, w, n, candidate, emitted);
      Advance(out, rest, next, after);
      out, emitted, rest := out + next, emitted + |next|, after;
      if !go {
        return;
      }
      yearsAdded := yearsAdded + Interval(s);
      n := n + 1;
    }
  }

  /**
   `_iter_recurrence_starts`, run to its end: in order, only starts of dates the rule emits, and all of
   those whose occurrences meet the window, when skipping ahead is lossless.
   */
  method IterRecurrenceStarts(s: Series, w: Window) returns (out: seq<int>)
    requires Valid(s) && ValidWindow(w)
    ensures out == Starts(s, w)
    ensures AscendsFrom(0, out)
    ensures forall t :: t in out ==> exists d :: Emits(s, d) && s.toUtc(d) == t
    ensures ListsExactly(s) ==>
              forall d :: Emits(s, d) && s.toUtc(d) < w.end && s.toUtc(d) + s.duration > w.start ==> s.toUtc(d) in out
  {
    hide Emits, ListsExactly, Starts;
    YieldsEmittedDates(s, w);
    out := YieldStarts(s, w);
  }

  method YieldStarts(s: Series, w: Window) returns (out: seq<int>)
    requires Valid(s) && ValidWindow(w)
    ensures out == Starts(s, w)
  {
    match s.rule.frequency
    case Daily =>
      var skipped := DailySkip(s, w);
      DailyCandidate(s, skipped);
      out := DailyLoop(s, w, s.base + skipped * Interval(s), skipped);
    case Weekly =>
      var skipped := WeeklySkip(s, w);
      out := WeeklyLoop(s, w, skipped);
    case Monthly =>
      var skipped := MonthlySkip(s, w, MonthOf(s.base));
      out := MonthlyLoop(s, w, MonthOf(s.base), skipped, SkipIndex(s, w));
    case Yearly =>
      var skipped := YearlySkip(s, w, MonthOf(s.base));
      out := YearlyLoop(s, w, MonthOf(s.base), skipped, SkipIndex(s, w));
  }
}
