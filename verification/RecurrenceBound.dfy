/**
 The checks made when an event is written bound every later walk: no listing can be refused because
 one such series emits too many starts.
 */
module RecurrenceBound {
  import opened CivilDates
  import opened Numbers
  import opened Recurrence
  import opened RecurrenceSkip

  const MAX_EVENT_OCCURRENCES := 2000
  const MAX_OCCURRENCE_WINDOW := 366 * DAY
  const MAX_OCCURRENCE_DURATION := 31 * DAY

  /** What the rule schema and `assert_expandable` let a recurring event store. */
  predicate Writable(s: Series) {
    && 1 <= s.rule.interval <= 366
    && (s.rule.count.Some? ==> 1 <= s.rule.count.value <= 1000)
    && s.duration <= MAX_OCCURRENCE_DURATION
  }

  predicate ListableWindow(w: Window) {
    ValidWindow(w) && w.end - w.start <= MAX_OCCURRENCE_WINDOW
  }

  /** Candidates from the n-th on are at or after an instant. */
  ghost predicate NotBefore(s: Series, n: nat, t: int)
    requires Valid(s)
  {
    forall m: nat :: n <= m && Candidate(s, m).On? ==> At(s, m) >= t
  }

  lemma {:induction false} WalkIsShort(s: Series, w: Window, n: nat, emitted: int, last: nat)
    requires Valid(s) && NotBefore(s, last, w.end)
    ensures |Walk(s, w, n, emitted)| <= Max0(last - n)
    decreases HORIZON - n
  {
    hide Candidate, IsZone;
    WithinHorizon(s, n);
    if !Candidate(s, n).Exhausted? {
      WalkIsShort(s, w, n + 1, emitted, last);
      WalkIsShort(s, w, n + 1, emitted + 1, last);
    }
  }

  lemma {:induction false} CountedWalkIsShort(s: Series, w: Window, n: nat, emitted: int)
    requires Valid(s) && s.rule.count.Some?
    ensures |Walk(s, w, n, emitted)| <= Max0(s.rule.count.value - emitted)
    decreases HORIZON - n
  {
    hide Candidate, IsZone;
    WithinHorizon(s, n);
    if !Candidate(s, n).Exhausted? {
      CountedWalkIsShort(s, w, n + 1, emitted);
      CountedWalkIsShort(s, w, n + 1, emitted + 1);
    }
  }

  /** An occurrence in the n-th period, or the n-th month, starts no sooner than a day before it. */
  lemma StartsNoSooner(s: Series, n: nat)
    requires Valid(s) && Candidate(s, n).On?
    ensures IsGrid(s) ==> At(s, n) > (PeriodStart(s, n / |Offsets(s)|) - 1) * DAY
    ensures !IsGrid(s) ==> At(s, n) > (MonthStart(CandidateMonth(s, n)) - 1) * DAY
  {
    if IsGrid(s) {
      OffsetsAreDays(s);
    }
    var d := Candidate(s, n).day;
    assert -DAY < s.toUtc(d) - (d * DAY + s.timeOfDay);
  }

  // ---------- Daily and weekly ----------

  lemma BackIsBounded(d: int, p: int)
    requires 0 <= d <= 31 && p >= 1
    ensures (d + p - 1) / p <= 31
    ensures p >= 7 ==> (d + p - 1) / p <= 5
  {
    FloorAtLeast(d + p - 1, p, 32);
    FloorAtLeast(d + p - 1, p, 6);
    assert 32 * p == 31 * p + p;
    assert 6 * p == 5 * p + p;
  }

  /** The period the walk starts in is at most back + 1 periods before the window. */
  lemma FirstPeriod(ahead: int, p: int, back: int, k: nat)
    requires p >= 1 && back >= 1
    requires k == Max0(ahead / p - back) || k == Max0(Max0(ahead) / p - back)
    ensures k * p + (back + 1) * p > ahead
  {
    FloorAtLeast(ahead, p, k + back + 1);
    FloorAtLeast(Max0(ahead), p, k + back + 1);
    assert (k + back + 1) * p == k * p + (back + 1) * p;
    assert (k + back + 1) * p >= 0;
  }

  lemma Multiply(a: int, b: int, i: int)
    requires a <= b && i >= 0
    ensures a * i <= b * i
  {
    assert (b - a) * i >= 0;
  }

  lemma Distribute(a: int, b: int, p: int)
    ensures (a + b) * p == a * p + b * p
  {
  }

  lemma SpanOfPeriods(k: nat, m: nat, p: int, back: int, gap: nat)
    requires p >= 1 && m >= k + back + 1 + gap
    ensures m * p >= k * p + (back + 1) * p + gap * p
    ensures gap * p >= gap
  {
    Multiply(k + (back + 1) + gap, m, p);
    Distribute(k + (back + 1), gap, p);
    Distribute(k, back + 1, p);
    Multiply(1, p, gap);
  }

  lemma StartNearWindow(s: Series, w: Window)
    requires Valid(s) && ValidWindow(w) && w.start <= s.startsAt
    ensures s.base + 2 > w.start / DAY
  {
  }

  lemma DailyPast(s: Series, w: Window, m: nat)
    requires Valid(s) && Writable(s) && ListableWindow(w) && s.rule.frequency == Daily && s.rule.count.None?
    requires SkipIndex(s, w) + 1000 <= m && Candidate(s, m).On?
    ensures At(s, m) >= w.end
  {
    var k, p, back, day := SkipIndex(s, w), Period(s), PeriodsBack(s), w.start / DAY;
    BackIsBounded(DurationDays(s), p);
    if w.start <= s.startsAt {
      StartNearWindow(s, w);
    } else {
      FirstPeriod(day - s.base, p, back, k);
    }
    SpanOfPeriods(k, m, p, back, 400);
    assert k * p >= 0 && (back + 1) * p >= 0;
    StartsNoSooner(s, m);
    assert m / |Offsets(s)| == m;
    assert PeriodStart(s, m) == s.base + m * p;
  }

  lemma WeekOfLater(k: nat, l: int, m: nat)
    requires 1 <= l <= 7 && m >= k * l + 700
    ensures m / l >= k + 100
  {
    FloorAtLeast(m, l, k + 100);
    assert (k + 100) * l == k * l + 100 * l;
  }

  lemma WeeklyPast(s: Series, w: Window, m: nat)
    requires Valid(s) && Writable(s) && ListableWindow(w) && s.rule.frequency == Weekly && s.rule.count.None?
    requires SkipIndex(s, w) + 1000 <= m && Candidate(s, m).On?
    ensures At(s, m) >= w.end
  {
    OffsetsAreDays(s);
    var l, p, back, day := |Offsets(s)|, Period(s), PeriodsBack(s), w.start / DAY;
    BackIsBounded(DurationDays(s), p);
    var k: nat := 0;
    if w.start <= s.startsAt {
      StartNearWindow(s, w);
    } else {
      k := Max0(Max0(day - Origin(s)) / p - back);
      FirstPeriod(day - Origin(s), p, back, k);
    }
    WeekOfLater(k, l, m);
    SpanOfPeriods(k, m / l, p, back, 90);
    assert 90 * p >= 630;
    assert k * p >= 0 && (back + 1) * p >= 0;
    StartsNoSooner(s, m);
  }

  // ---------- Monthly and yearly ----------

  lemma StepsCover(x: int, i: int, k: nat, m: nat)
    requires i >= 1 && k == Max0(x / i) && m >= k + 1000
    ensures m * i > x + 999 * i
    ensures m * i >= 1000 * i
  {
    FloorAtLeast(x, i, k + 1);
    Multiply(k + 1, m - 999, i);
    Multiply(1000, m, i);
    assert (m - 999) * i == m * i - 999 * i;
  }

  lemma MonthsPastWindow(s: Series, w: Window, m: nat)
    requires Valid(s) && ListableWindow(w) && !IsGrid(s) && Candidate(s, m).On?
    requires CandidateMonth(s, m) >= MonthOf(w.start / DAY) + 20
    ensures At(s, m) >= w.end
  {
    var here := MonthOf(w.start / DAY);
    MonthStartsAreSpaced(here + 1, CandidateMonth(s, m));
    StartsNoSooner(s, m);
  }

  lemma BaseMonthNearWindow(s: Series, w: Window)
    requires Valid(s) && ValidWindow(w) && w.start <= s.startsAt
    ensures BaseMonth(s) + 2 > MonthOf(w.start / DAY)
  {
    StartNearWindow(s, w);
    var here := MonthOf(w.start / DAY);
    if BaseMonth(s) + 2 <= here {
      MonthStartsAreSpaced(BaseMonth(s) + 1, here);
    }
  }

  /** After a thousand steps from where the walk starts, the month is well past the window's. */
  lemma MonthAfterManySteps(s: Series, w: Window, m: nat)
    requires Valid(s) && Writable(s) && ValidWindow(w) && !IsGrid(s) && s.rule.count.None?
    requires SkipIndex(s, w) + 1000 <= m
    ensures CandidateMonth(s, m) >= MonthOf(w.start / DAY) + 20
  {
    hide MonthStart, IsZone;
    var i, base, here, k := Interval(s), BaseMonth(s), MonthOf(w.start / DAY), SkipIndex(s, w);
    assert m * (12 * i) == 12 * (m * i);
    if w.start <= s.startsAt {
      BaseMonthNearWindow(s, w);
      Multiply(1000, m, i);
    } else if s.rule.frequency == Monthly {
      var x := here - base - (DurationDays(s) / 28 + i + 1);
      assert k == Max0(x / i);
      StepsCover(x, i, k, m);
    } else {
      var x := here / 12 - base / 12 - (DurationDays(s) / 365 + i + 1);
      assert k == Max0(x / i);
      StepsCover(x, i, k, m);
    }
  }

  lemma CalendarPast(s: Series, w: Window, m: nat)
    requires Valid(s) && Writable(s) && ListableWindow(w) && !IsGrid(s) && s.rule.count.None?
    requires SkipIndex(s, w) + 1000 <= m && Candidate(s, m).On?
    ensures At(s, m) >= w.end
  {
    MonthAfterManySteps(s, w, m);
    MonthsPastWindow(s, w, m);
  }

  /** Under the write-time checks every walk is far below the per-event budget. */
  lemma WritableWalkIsShort(s: Series, w: Window)
    requires Valid(s) && Writable(s) && ListableWindow(w)
    ensures |Starts(s, w)| <= 1000 < MAX_EVENT_OCCURRENCES
  {
    var k := SkipIndex(s, w);
    if s.rule.count.Some? {
      CountedWalkIsShort(s, w, k, 0);
    } else {
      forall m: nat | k + 1000 <= m && Candidate(s, m).On?
        ensures At(s, m) >= w.end
      {
        if s.rule.frequency == Daily {
          DailyPast(s, w, m);
        } else if s.rule.frequency == Weekly {
          WeeklyPast(s, w, m);
        } else {
          CalendarPast(s, w, m);
        }
      }
      WalkIsShort(s, w, k, 0, k + 1000);
    }
  }
}
