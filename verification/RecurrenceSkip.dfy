/**
 Starting the walk near the window instead of at the first date: for which series does the listing
 stay complete for every window?
 */
module RecurrenceSkip {
  import opened Wrappers
  import opened CivilDates
  import opened Numbers
  import opened Recurrence

  /** Every window is listed as the specification lists it. */
  ghost predicate ListsExactly(s: Series)
    requires Valid(s)
  {
    forall w :: ValidWindow(w) ==> Meeting(s, w, Starts(s, w)) == Reference(s, w, 0)
  }

  /** The first window day for which the walk no longer visits the n-th candidate. */
  function SkippedFrom(s: Series, n: nat): int
    requires Offsets(s) != []
  {
    PeriodStart(s, n / |Offsets(s)| + PeriodsBack(s) + 1)
  }

  /** Each occurrence of a daily or weekly series is over by the day the walk stops visiting it. */
  ghost predicate Margin(s: Series)
    requires Valid(s)
  {
    Offsets(s) != [] ==>
      forall n: nat :: Emitted(s, n) && SkippedFrom(s, n) <= MAX_ORDINAL ==>
                         At(s, n) + s.duration <= SkippedFrom(s, n) * DAY
  }

  lemma FloorAtLeast(x: int, p: int, k: int)
    requires p > 0
    ensures k <= x / p <==> k * p <= x
  {
    var q := x / p;
    assert q * p <= x < q * p + p;
    if k <= q {
      assert (q - k) * p >= 0;
    } else {
      assert (k - q - 1) * p >= 0;
      assert k * p == q * p + p + (k - q - 1) * p;
    }
  }

  lemma IndexBelow(n: nat, l: int, k: nat)
    requires l > 0
    ensures n < k * l <==> n / l < k
  {
    FloorAtLeast(n, l, k);
  }

  lemma PeriodsSkipped(ahead: int, p: int, back: int, k: nat)
    requires p >= 1 && back >= 1
    ensures k < Max0(ahead / p - back) <==> (k + back + 1) * p <= ahead
    ensures k < Max0(Max0(ahead) / p - back) <==> (k + back + 1) * p <= ahead
  {
    FloorAtLeast(ahead, p, k + back + 1);
    FloorAtLeast(Max0(ahead), p, k + back + 1);
    assert (k + back + 1) * p >= 1;
  }

  lemma WeeklySkipped(ahead: int, p: int, back: int, n: nat, l: int)
    requires p >= 1 && back >= 1 && l >= 1
    ensures n < Max0(Max0(ahead) / p - back) * l <==> (n / l + back + 1) * p <= ahead
  {
    PeriodsSkipped(ahead, p, back, n / l);
    IndexBelow(n, l, Max0(Max0(ahead) / p - back));
  }

  lemma SkippedFromIsExact(s: Series, day: int, n: nat)
    requires IsGrid(s) && Offsets(s) != []
    ensures n < GridSkip(s, day) <==> SkippedFrom(s, n) <= day
  {
    var ahead := day - Origin(s);
    if s.rule.frequency == Weekly {
      WeeklySkipped(ahead, Period(s), PeriodsBack(s), n, |Offsets(s)|);
    } else {
      assert Offsets(s) == [0] && n / 1 == n;
      PeriodsSkipped(ahead, Period(s), PeriodsBack(s), n);
    }
  }

  lemma GridOccurrenceStartsEarly(s: Series, n: nat)
    requires Valid(s) && IsGrid(s) && Candidate(s, n).On?
    ensures At(s, n) < (PeriodStart(s, n / |Offsets(s)|) + (if s.rule.frequency == Daily then 2 else 8)) * DAY
    ensures At(s, n) < SkippedFrom(s, n) * DAY
  {
    OffsetsAreDays(s);
    PeriodsCover(s, n / |Offsets(s)|);
    var d := Candidate(s, n).day;
    assert s.toUtc(d) - (d * DAY + s.timeOfDay) < DAY;
  }

  lemma MarginIsEnough(s: Series, w: Window, n: nat)
    requires Valid(s) && ValidWindow(w) && IsGrid(s) && Margin(s)
    requires n < SkipIndex(s, w)
    ensures !Shown(s, w, n)
  {
    if Emitted(s, n) {
      SkippedFromIsExact(s, w.start / DAY, n);
    }
  }

  lemma MarginIsNeeded(s: Series, n: nat)
    requires Valid(s) && IsGrid(s) && s.rule.count.None?
    requires Emitted(s, n) && SkippedFrom(s, n) <= MAX_ORDINAL
    requires At(s, n) + s.duration > SkippedFrom(s, n) * DAY
    ensures !ListsExactly(s)
  {
    var day := SkippedFrom(s, n);
    var w := Window(day * DAY, day * DAY + 1);
    GridOccurrenceStartsEarly(s, n);
    assert day >= 1 by {
      assert At(s, n) >= s.startsAt > (s.base - 1) * DAY;
    }
    assert w.start / DAY == day;
    SkippedFromIsExact(s, day, n);
    assert n < SkipIndex(s, w) && Shown(s, w, n);
    SkipIsExact(s, w);
  }

  /** Uncounted daily and weekly series: skipping ahead is lossless for every window iff the margin holds. */
  lemma GridSkipIsLosslessIffMargin(s: Series)
    requires Valid(s) && IsGrid(s) && s.rule.count.None?
    ensures ListsExactly(s) <==> Margin(s)
  {
    if Margin(s) {
      forall w | ValidWindow(w) ensures Meeting(s, w, Starts(s, w)) == Reference(s, w, 0) {
        forall n: nat | n < SkipIndex(s, w) ensures !Shown(s, w, n) {
          MarginIsEnough(s, w, n);
        }
        SkipIsExact(s, w);
      }
    } else {
      var n: nat :| Emitted(s, n) && SkippedFrom(s, n) <= MAX_ORDINAL &&
                    At(s, n) + s.duration > SkippedFrom(s, n) * DAY;
      MarginIsNeeded(s, n);
    }
  }

  lemma PeriodsCover(s: Series, k: int)
    ensures PeriodStart(s, k + PeriodsBack(s) + 1) >= PeriodStart(s, k) + DurationDays(s) + Period(s)
    ensures PeriodStart(s, k + PeriodsBack(s) + 1) >= PeriodStart(s, k) + 2 * Period(s)
  {
    PeriodsBackCover(s);
    var p, back := Period(s), PeriodsBack(s);
    assert (k + back + 1) * p == k * p + back * p + p;
  }

  /** Long intervals, and weekly occurrences under six days, always have the margin. */
  lemma MarginHolds(s: Series)
    requires Valid(s) && IsGrid(s)
    requires s.rule.frequency == Daily ==> Interval(s) >= 3
    requires s.rule.frequency == Weekly ==> Interval(s) >= 2 || s.duration < 6 * DAY
    ensures Margin(s)
  {
    if Offsets(s) != [] {
      forall n: nat | Emitted(s, n) && SkippedFrom(s, n) <= MAX_ORDINAL
        ensures At(s, n) + s.duration <= SkippedFrom(s, n) * DAY
      {
        GridOccurrenceStartsEarly(s, n);
        PeriodsCover(s, n / |Offsets(s)|);
      }
    }
  }

  /**
   The margin read off the clock: it holds when the latest weekday, the latest the wall time comes in
   UTC and the duration together fit in the periods stepped back plus one.
   */
  lemma MarginFromClock(s: Series, latest: int)
    requires Valid(s) && IsGrid(s)
    requires forall d :: s.toUtc(d) - d * DAY <= latest
    requires forall j :: 0 <= j < |Offsets(s)| ==>
               Offsets(s)[j] * DAY + latest + s.duration <= (PeriodsBack(s) + 1) * Period(s) * DAY
    ensures Margin(s)
  {
    if Offsets(s) != [] {
      forall n: nat | Emitted(s, n) && SkippedFrom(s, n) <= MAX_ORDINAL
        ensures At(s, n) + s.duration <= SkippedFrom(s, n) * DAY
      {
        var k, j := n / |Offsets(s)|, n % |Offsets(s)|;
        PeriodsFurther(s, k);
        assert Candidate(s, n).day == PeriodStart(s, k) + Offsets(s)[j];
        assert s.toUtc(Candidate(s, n).day) - Candidate(s, n).day * DAY <= latest;
      }
    }
  }

  /** The zone keeps one offset: the wall time is always `clock` UTC, on the same day or the next to it. */
  ghost predicate FixedOffset(s: Series, clock: int) {
    forall d :: s.toUtc(d) == d * DAY + clock
  }

  /** The clock's condition on one candidate. */
  predicate FitsOnClock(s: Series, clock: int, n: nat)
    requires Offsets(s) != []
  {
    Offsets(s)[n % |Offsets(s)|] * DAY + clock + s.duration <= (PeriodsBack(s) + 1) * Period(s) * DAY
  }

  /**
   With a fixed offset the margin is just that: skipping ahead is lossless exactly when every emitted
   candidate that can be skipped fits on the clock.
   */
  lemma FixedOffsetIsLosslessIff(s: Series, clock: int)
    requires Valid(s) && IsGrid(s) && s.rule.count.None? && Offsets(s) != []
    requires FixedOffset(s, clock)
    ensures ListsExactly(s) <==>
            forall n: nat :: Emitted(s, n) && SkippedFrom(s, n) <= MAX_ORDINAL ==> FitsOnClock(s, clock, n)
  {
    hide Emitted, SkippedFrom, FitsOnClock, Offsets, At, ListsExactly, FixedOffset, Candidate, Valid;
    GridSkipIsLosslessIffMargin(s);
    forall n: nat | Emitted(s, n)
      ensures Candidate(s, n).On? && (At(s, n) + s.duration <= SkippedFrom(s, n) * DAY <==> FitsOnClock(s, clock, n))
    {
      EmittedFitsIff(s, clock, n);
    }
  }

  lemma EmittedFitsIff(s: Series, clock: int, n: nat)
    requires Valid(s) && IsGrid(s) && Offsets(s) != [] && Emitted(s, n)
    requires FixedOffset(s, clock)
    ensures Candidate(s, n).On?
    ensures At(s, n) + s.duration <= SkippedFrom(s, n) * DAY <==> FitsOnClock(s, clock, n)
  {
    hide IsZone, Rank, PeriodsBack, Period;
    var k, j := n / |Offsets(s)|, n % |Offsets(s)|;
    PeriodsFurther(s, k);
    assert Candidate(s, n).day == PeriodStart(s, k) + Offsets(s)[j];
  }

  lemma PeriodsFurther(s: Series, k: int)
    ensures PeriodStart(s, k + PeriodsBack(s) + 1) == PeriodStart(s, k) + (PeriodsBack(s) + 1) * Period(s)
  {
    var p, back := Period(s), PeriodsBack(s);
    assert (k + back + 1) * p == k * p + (back + 1) * p;
  }

  lemma PeriodsBackCover(s: Series)
    ensures PeriodsBack(s) * Period(s) >= DurationDays(s)
    ensures PeriodsBack(s) * Period(s) >= Period(s)
  {
    var p, x := Period(s), DurationDays(s) + Period(s) - 1;
    FloorAtLeast(x, p, x / p + 1);
    assert (x / p + 1) * p == (x / p) * p + p;
    if x / p >= 1 {
      assert (x / p - 1) * p >= 0;
      assert (x / p) * p == (x / p - 1) * p + p;
    } else {
      FloorAtLeast(x, p, 1);
    }
  }

  /** The periods stepped back are the fewest, and at least one, that hold the whole days of a duration. */
  lemma PeriodsBackAreFewest(s: Series, b: int)
    ensures PeriodsBack(s) * Period(s) >= DurationDays(s)
    ensures b >= 1 && b * Period(s) >= DurationDays(s) ==> b >= PeriodsBack(s)
  {
    PeriodsBackCover(s);
    var p := Period(s);
    if b >= 1 && b * p >= DurationDays(s) {
      assert (b + 1) * p == b * p + p;
      FloorAtLeast(DurationDays(s) + p - 1, p, b + 1);
    }
  }

  /** A daily 26-hour event at 23:00 UTC lacks the margin: the walk drops an occurrence still running. */
  lemma MarginCanFail() returns (s: Series)
    ensures Valid(s) && s.rule == Rule(Daily, 1, None, None, None) && s.duration == 26 * (DAY / 24)
    ensures !ListsExactly(s)
  {
    var hour := DAY / 24;
    var start := 1000 * DAY + 23 * hour;
    s := Series(start, 26 * hour, Rule(Daily, 1, None, None, None), 1000, 23 * hour, d => d * DAY + 23 * hour);
    assert Offsets(s) == [0] && Candidate(s, 0) == On(1000);
    assert DurationDays(s) == 1 && PeriodsBack(s) == 1 && SkippedFrom(s, 0) == 1002;
    MarginIsNeeded(s, 0);
  }

  /** A counted series is walked from its first date, so its listing is always complete. */
  lemma CountedListsExactly(s: Series)
    requires Valid(s) && s.rule.count.Some?
    ensures ListsExactly(s)
  {
    forall w | ValidWindow(w) ensures Meeting(s, w, Starts(s, w)) == Reference(s, w, 0) {
      SkipIsExact(s, w);
    }
  }

  lemma MonthlySkippedAreOver(s: Series, w: Window, n: nat)
    requires Valid(s) && ValidWindow(w) && s.rule.frequency == Monthly
    requires n < SkipIndex(s, w) && Candidate(s, n).On?
    ensures At(s, n) + s.duration <= w.start
  {
    hide MonthStart, IsZone;
    var day, i := w.start / DAY, Interval(s);
    var here, m := MonthOf(day), CandidateMonth(s, n);
    var back := DurationDays(s) / 28 + i + 1;
    FloorAtLeast(here - BaseMonth(s) - back, i, n + 1);
    assert (n + 1) * i == n * i + i;
    assert m + DurationDays(s) / 28 + 3 <= here;
    MonthStartsAreSpaced(m + 1, here);
    OccurrenceEndsSoon(s, n, m);
  }

  lemma YearsSkipped(base: nat, i: int, n: nat, here: nat, d: nat)
    requires i >= 1
    requires n < Max0((YearOf(here) - YearOf(base) - (d + i + 1)) / i)
    ensures (base + n * (12 * i)) / 12 + d + 3 <= here / 12
  {
    FloorAtLeast(here / 12 - base / 12 - (d + i + 1), i, n + 1);
    assert (n + 1) * i == n * i + i;
    assert n * (12 * i) == 12 * (n * i);
  }

  lemma YearlySkippedAreOver(s: Series, w: Window, n: nat)
    requires Valid(s) && ValidWindow(w) && s.rule.frequency == Yearly
    requires n < SkipIndex(s, w) && Candidate(s, n).On?
    ensures At(s, n) + s.duration <= w.start
  {
    hide MonthStart, IsZone;
    var here, m := MonthOf(w.start / DAY), CandidateMonth(s, n);
    YearsSkipped(BaseMonth(s), Interval(s), n, here, DurationDays(s) / 365);
    YearsAreSpaced(m / 12 + 1, here / 12);
    MonthStartsAreSpaced(m + 1, 12 * (m / 12 + 1));
    MonthStartsAreSpaced(12 * (here / 12), here);
    OccurrenceEndsSoon(s, n, m);
  }

  /** An occurrence is over within its duration and two days of the end of its month. */
  lemma OccurrenceEndsSoon(s: Series, n: nat, m: nat)
    requires Valid(s) && !IsGrid(s) && Candidate(s, n).On? && m == CandidateMonth(s, n)
    ensures At(s, n) + s.duration <= (MonthStart(m + 1) + DurationDays(s) + 2) * DAY
  {
    assert MonthStart(m + 1) == MonthStart(m) + MonthLength(m);
    var d := Candidate(s, n).day;
    assert s.toUtc(d) - (d * DAY + s.timeOfDay) < DAY;
  }

  /** Monthly and yearly series need no margin: skipping ahead is lossless for every series and window. */
  lemma CalendarSkipIsLossless(s: Series)
    requires Valid(s) && !IsGrid(s)
    ensures ListsExactly(s)
  {
    forall w | ValidWindow(w) ensures Meeting(s, w, Starts(s, w)) == Reference(s, w, 0) {
      forall n: nat | n < SkipIndex(s, w) ensures !Shown(s, w, n) {
        if Candidate(s, n).On? {
          if s.rule.frequency == Monthly {
            MonthlySkippedAreOver(s, w, n);
          } else {
            YearlySkippedAreOver(s, w, n);
          }
        }
      }
      SkipIsExact(s, w);
    }
  }
}
