/**
 What a stored rule means in calendar terms, read off its own fields: which dates it visits, which of
 those it emits, and so what a window lists. Nothing here speaks of candidates, periods or walks.
 */
module RecurrenceDates {
  import opened Wrappers
  import opened CivilDates
  import opened SortedSets
  import opened Recurrence
  import opened RecurrenceSkip

  /** 1 January of year 1 is a Monday; weeks start on Mondays, and weekday 0 is Monday. */
  const MONDAY := 1

  /** The k-th day, week, month or year from the first is one of every `interval`; of every one, below 1. */
  predicate OnBeat(rule: Rule, k: int) {
    k >= 0 && (rule.interval >= 1 ==> k % rule.interval == 0)
  }

  predicate DailyVisits(rule: Rule, base: int, d: int) {
    OnBeat(rule, d - base)
  }

  predicate WeeklyVisits(rule: Rule, base: int, d: int) {
    && OnBeat(rule, (d - MONDAY) / 7 - (base - MONDAY) / 7)
    && match rule.byWeekday
       case None => (d - MONDAY) % 7 == (base - MONDAY) % 7
       case Some(days) => (d - MONDAY) % 7 in days
  }

  /** The same day of the month, a number of months later that is on the beat. */
  ghost predicate MonthlyVisits(rule: Rule, base: int, d: int) {
    exists year, month, year0, month0, day ::
      FallsOn(base, year0, month0, day) && FallsOn(d, year, month, day)
      && OnBeat(rule, 12 * (year - year0) + month - month0)
  }

  /** The same day of the same month, a number of years later that is on the beat. */
  ghost predicate YearlyVisits(rule: Rule, base: int, d: int) {
    exists year, year0, month, day ::
      FallsOn(base, year0, month, day) && FallsOn(d, year, month, day) && OnBeat(rule, year - year0)
  }

  /** The dates a rule visits, up to the last day of year 9999. */
  ghost predicate Visits(rule: Rule, base: int, d: int) {
    && d <= MAX_ORDINAL
    && match rule.frequency
       case Daily => DailyVisits(rule, base, d)
       case Weekly => WeeklyVisits(rule, base, d)
       case Monthly => MonthlyVisits(rule, base, d)
       case Yearly => YearlyVisits(rule, base, d)
  }

  ghost predicate Visited(s: Series, d: int)
    requires Valid(s)
  {
    exists n: nat :: Candidate(s, n) == On(d)
  }

  // ---------- Daily and weekly ----------

  ghost predicate Multiple(k: int, step: int) {
    exists n: nat :: k == n * step
  }

  lemma OnBeatIff(s: Series, k: int)
    ensures OnBeat(s.rule, k) <==> Multiple(k, Interval(s))
  {
    var i := Interval(s);
    if OnBeat(s.rule, k) {
      assert k == (k / i) * i by {
        assert k % i == 0;
      }
      assert k / i >= 0;
    }
    if n: nat :| k == n * i {
      assert k >= 0;
      DivisionIs(k, i, n, 0);
    }
  }

  lemma DailyVisitedIff(s: Series, d: int)
    requires Valid(s) && s.rule.frequency == Daily
    ensures Visited(s, d) <==> d <= MAX_ORDINAL && DailyVisits(s.rule, s.base, d)
  {
    OnBeatIff(s, d - s.base);
    forall n: nat ensures Candidate(s, n) == if s.base + n * Interval(s) > MAX_ORDINAL then Exhausted
                                             else On(s.base + n * Interval(s)) {
      assert n / 1 == n && n % 1 == 0;
    }
    if n: nat :| d - s.base == n * Interval(s) && d <= MAX_ORDINAL {
      assert Candidate(s, n) == On(d);
    }
  }

  lemma WeekParts(base: int, weeks: int, offset: int)
    requires 0 <= offset < 7
    ensures var d := base - (base - MONDAY) % 7 + 7 * weeks + offset;
            (d - MONDAY) % 7 == offset && (d - MONDAY) / 7 == (base - MONDAY) / 7 + weeks
  {
    var d, week := base - (base - MONDAY) % 7 + 7 * weeks + offset, (base - MONDAY) / 7;
    assert d - MONDAY == (week + weeks) * 7 + offset;
    DivisionIs(d - MONDAY, 7, week + weeks, offset);
  }

  /** A weekly candidate is the n-th listed weekday from the base's week on. */
  lemma WeeklyCandidateDate(s: Series, n: nat)
    requires Valid(s) && s.rule.frequency == Weekly && Offsets(s) != []
    ensures var d := CandidateDay(s, n);
            && (d - MONDAY) % 7 == Offsets(s)[n % |Offsets(s)|]
            && (d - MONDAY) / 7 == (s.base - MONDAY) / 7 + (n / |Offsets(s)|) * Interval(s)
  {
    OffsetsAreDays(s);
    hide Offsets, Interval, Valid;
    var k, j := n / |Offsets(s)|, n % |Offsets(s)|;
    assert k * Period(s) == 7 * (k * Interval(s)) by {
      PeriodOfWeeks(s, k);
    }
    assert Weekday(s.base) == (s.base - MONDAY) % 7;
    WeekParts(s.base, k * Interval(s), Offsets(s)[j]);
  }

  lemma PeriodOfWeeks(s: Series, k: int)
    requires s.rule.frequency == Weekly
    ensures k * Period(s) == 7 * (k * Interval(s))
  {
    assert k * (7 * Interval(s)) == 7 * (k * Interval(s));
  }

  lemma OffsetsAre(s: Series, x: int)
    requires Valid(s) && s.rule.frequency == Weekly
    ensures x in Offsets(s) <==> match s.rule.byWeekday case None => x == (s.base - MONDAY) % 7 case Some(days) => x in days
  {
    if s.rule.byWeekday.Some? {
      SortedSetSorts(s.rule.byWeekday.value);
    } else {
      assert Weekday(s.base) == (s.base - MONDAY) % 7;
    }
  }

  lemma WeeklyIsVisited(s: Series, d: int, k: nat, j: nat)
    requires Valid(s) && s.rule.frequency == Weekly && j < |Offsets(s)| && d <= MAX_ORDINAL
    requires (d - MONDAY) / 7 - (s.base - MONDAY) / 7 == k * Interval(s) && (d - MONDAY) % 7 == Offsets(s)[j]
    ensures Visited(s, d)
  {
    var n := k * |Offsets(s)| + j;
    DivisionIs(n, |Offsets(s)|, k, j);
    WeeklyCandidateDate(s, n);
    hide Offsets, CandidateDay, IsZone;
    assert CandidateDay(s, n) == d;
    assert Candidate(s, n) == On(d);
  }

  lemma WeeklyVisitedIff(s: Series, d: int)
    requires Valid(s) && s.rule.frequency == Weekly
    ensures Visited(s, d) <==> d <= MAX_ORDINAL && WeeklyVisits(s.rule, s.base, d)
  {
    hide CandidateDay, IsZone, Offsets, OnBeat, Interval;
    var offset, weeks := (d - MONDAY) % 7, (d - MONDAY) / 7 - (s.base - MONDAY) / 7;
    OffsetsAre(s, offset);
    OnBeatIff(s, weeks);
    if Visited(s, d) {
      var n: nat :| Candidate(s, n) == On(d);
      WeeklyCandidateDate(s, n);
      assert offset == Offsets(s)[n % |Offsets(s)|];
      assert weeks == (n / |Offsets(s)|) * Interval(s);
    }
    if d <= MAX_ORDINAL && WeeklyVisits(s.rule, s.base, d) {
      var k: nat :| weeks == k * Interval(s);
      var j :| 0 <= j < |Offsets(s)| && Offsets(s)[j] == offset;
      WeeklyIsVisited(s, d, k, j);
    }
  }

  // ---------- Monthly and yearly ----------

  /** A calendar candidate is its month's day of the base's number, when the month has one. */
  lemma CalendarVisitedIff(s: Series, d: int)
    requires Valid(s) && !IsGrid(s)
    ensures Visited(s, d) <==>
            && 1 <= d <= MAX_ORDINAL
            && d - MonthStart(MonthOf(d)) == s.base - MonthStart(MonthOf(s.base))
            && Multiple(MonthOf(d) - MonthOf(s.base), MonthStep(s))
  {
    hide MonthStart, MonthLength, MonthOf, IsZone;
    if Visited(s, d) {
      var n: nat :| Candidate(s, n) == On(d);
      var m := CandidateMonth(s, n);
      MonthHolds(m, d);
      MonthsFitYears(m, d);
      assert MonthOf(d) - MonthOf(s.base) == n * MonthStep(s);
    }
    if 1 <= d <= MAX_ORDINAL && d - MonthStart(MonthOf(d)) == s.base - MonthStart(MonthOf(s.base)) {
      if n: nat :| MonthOf(d) - MonthOf(s.base) == n * MonthStep(s) {
        var m := CandidateMonth(s, n);
        MonthHolds(m, d);
        MonthsFitYears(m, d);
        assert Candidate(s, n) == On(d);
      }
    }
  }

  /** The month that holds a day, and the month's length. */
  lemma MonthHolds(m: nat, d: int)
    ensures MonthStart(m + 1) == MonthStart(m) + MonthLength(m) && MonthStart(m) >= 1
    ensures MonthStart(m) <= d < MonthStart(m + 1) ==> d >= 1 && MonthOf(d) == m
  {
    MonthStartsAreSpaced(0, m);
    if MonthStart(m) <= d < MonthStart(m + 1) {
      OneMonthHolds(d, m, MonthOf(d));
    }
  }

  lemma MonthsFitYears(m: nat, d: int)
    requires MonthStart(m) <= d < MonthStart(m + 1)
    ensures d <= MAX_ORDINAL <==> YearOf(m) <= MAX_YEAR
  {
    hide MonthStart;
    LastRepresentableDay();
    if m < 12 * MAX_YEAR {
      MonthStartsAreSpaced(m + 1, 12 * MAX_YEAR);
    } else {
      MonthStartsAreSpaced(12 * MAX_YEAR, m);
    }
  }

  lemma MonthlyVisitedIff(s: Series, d: int)
    requires Valid(s) && s.rule.frequency == Monthly
    ensures Visited(s, d) <==> d <= MAX_ORDINAL && MonthlyVisits(s.rule, s.base, d)
  {
    hide MonthStart, MonthOf, FallsOn, Visited, Valid, OnBeat;
    CalendarVisitedIff(s, d);
    assert 1 <= s.base by { BaseIsADay(s); }
    var year0, month0, day0 := DateOf(s.base);
    if 1 <= d {
      var year, month, day := DateOf(d);
      var months := 12 * (year - year0) + month - month0;
      assert months == MonthOf(d) - MonthOf(s.base);
      OnBeatIff(s, months);
      assert day == day0 <==> d - MonthStart(MonthOf(d)) == s.base - MonthStart(MonthOf(s.base));
      assert MonthlyVisits(s.rule, s.base, d) <==> day == day0 && OnBeat(s.rule, months);
    } else if MonthlyVisits(s.rule, s.base, d) {
      var year, month, day :| FallsOn(d, year, month, day);
      DatesAreDays(d, year, month, day);
    }
  }

  lemma YearlyVisitedIff(s: Series, d: int)
    requires Valid(s) && s.rule.frequency == Yearly
    ensures Visited(s, d) <==> d <= MAX_ORDINAL && YearlyVisits(s.rule, s.base, d)
  {
    hide MonthStart, MonthOf, FallsOn, Visited, Valid, OnBeat;
    CalendarVisitedIff(s, d);
    assert 1 <= s.base by { BaseIsADay(s); }
    var year0, month0, day0 := DateOf(s.base);
    if 1 <= d {
      var year, month, day := DateOf(d);
      OnBeatIff(s, year - year0);
      YearsApart(year, month, year0, month0, Interval(s));
      assert YearlyVisits(s.rule, s.base, d) <==> day == day0 && month == month0 && OnBeat(s.rule, year - year0);
    } else if YearlyVisits(s.rule, s.base, d) {
      var year, month, day :| FallsOn(d, year, month, day);
      DatesAreDays(d, year, month, day);
    }
  }

  lemma BaseIsADay(s: Series)
    requires Valid(s)
    ensures 1 <= s.base <= MAX_ORDINAL
  {
  }

  lemma DatesAreDays(d: int, year: int, month: int, day: int)
    requires FallsOn(d, year, month, day)
    ensures d >= 1
  {
    DateInMonth(d, year, month, day);
    MonthHolds(12 * (year - 1) + month - 1, d);
  }

  /** Two months are a number of twelve-month steps apart exactly when they are the same month that many years apart. */
  lemma YearsApart(year: int, month: int, year0: int, month0: int, i: int)
    requires 1 <= month <= 12 && 1 <= month0 <= 12
    ensures Multiple(12 * (year - 1) + month - 1 - (12 * (year0 - 1) + month0 - 1), 12 * i)
            <==> month == month0 && Multiple(year - year0, i)
  {
    if n: nat :| 12 * (year - 1) + month - 1 - (12 * (year0 - 1) + month0 - 1) == n * (12 * i) {
      assert n * (12 * i) == 12 * (n * i);
      assert year - year0 == n * i;
    }
    if n: nat :| month == month0 && year - year0 == n * i {
      assert n * (12 * i) == 12 * (n * i);
    }
  }

  /** A rule's candidates are exactly the dates its stored fields say it visits. */
  lemma VisitedIff(s: Series, d: int)
    requires Valid(s)
    ensures Visited(s, d) <==> Visits(s.rule, s.base, d)
  {
    hide Visited, Valid, DailyVisits, WeeklyVisits, MonthlyVisits, YearlyVisits;
    match s.rule.frequency
    case Daily => DailyVisitedIff(s, d);
    case Weekly => WeeklyVisitedIff(s, d);
    case Monthly => MonthlyVisitedIff(s, d);
    case Yearly => YearlyVisitedIff(s, d);
  }

  // ---------- Emitted dates ----------

  /** A visited date whose start is not before the first start and not past `until`. */
  ghost predicate Counts(s: Series, d: int) {
    && Visits(s.rule, s.base, d)
    && s.toUtc(d) >= s.startsAt
    && (s.rule.until.Some? ==> s.toUtc(d) <= s.rule.until.value)
  }

  ghost function EarlierDates(s: Series, d: int): set<int> {
    set e | 1 <= e < d && Counts(s, e)
  }

  /** The rule starts an occurrence on this date: it counts, and fewer than `count` dates do before it. */
  ghost predicate Emits(s: Series, d: int) {
    Counts(s, d) && (s.rule.count.Some? ==> |EarlierDates(s, d)| < s.rule.count.value)
  }

  ghost function EligibleDays(s: Series, n: nat): set<int>
    requires Valid(s)
  {
    if n == 0 then {}
    else EligibleDays(s, n - 1) + if Eligible(s, n - 1) then {Candidate(s, n - 1).day} else {}
  }

  ghost predicate EligibleBefore(s: Series, n: nat, d: int)
    requires Valid(s)
  {
    exists k: nat :: k < n && Eligible(s, k) && Candidate(s, k) == On(d)
  }

  lemma {:induction false} EligibleDaysAre(s: Series, n: nat, d: int)
    requires Valid(s)
    ensures d in EligibleDays(s, n) <==> EligibleBefore(s, n, d)
  {
    hide Eligible, Candidate, Valid;
    if n > 0 {
      EligibleDaysAre(s, n - 1, d);
      if Eligible(s, n - 1) {
        var day := EligibleIsOn(s, n - 1);
      }
    }
  }

  lemma EligibleDaysNext(s: Series, n: nat)
    requires Valid(s)
    ensures Rank(s, 0) == 0 && EligibleDays(s, 0) == {}
    ensures Eligible(s, n) ==> Candidate(s, n).On? && EligibleDays(s, n + 1) == EligibleDays(s, n) + {Candidate(s, n).day}
    ensures !Eligible(s, n) ==> EligibleDays(s, n + 1) == EligibleDays(s, n)
    ensures Rank(s, n + 1) == Rank(s, n) + if Eligible(s, n) then 1 else 0
  {
    hide Candidate, Valid;
  }

  lemma {:induction false} RankCountsDays(s: Series, n: nat)
    requires Valid(s)
    ensures |EligibleDays(s, n)| == Rank(s, n)
  {
    hide *;
    if n == 0 {
      EligibleDaysNext(s, n);
    } else {
      RankCountsDays(s, n - 1);
      EligibleDaysNext(s, n - 1);
      if Eligible(s, n - 1) {
        var day := Candidate(s, n - 1).day;
        NewDay(s, n - 1, day);
        OneMoreDay(EligibleDays(s, n - 1), day);
      }
    }
  }

  lemma OneMoreDay(days: set<int>, day: int)
    requires day !in days
    ensures |days + {day}| == |days| + 1
  {
  }

  lemma NewDay(s: Series, n: nat, day: int)
    requires Valid(s) && Candidate(s, n) == On(day)
    ensures day !in EligibleDays(s, n)
  {
    hide Eligible, Candidate, Valid, EligibleDays;
    EligibleDaysAre(s, n, day);
    if k: nat :| k < n && Eligible(s, k) && Candidate(s, k) == On(day) {
      CandidatesAscend(s, k, n);
    }
  }

  lemma EligibleIsOn(s: Series, n: nat) returns (day: int)
    requires Valid(s) && Eligible(s, n)
    ensures Candidate(s, n) == On(day)
  {
    day := Candidate(s, n).day;
  }

  lemma EligibleIff(s: Series, n: nat, d: int)
    requires Valid(s) && Candidate(s, n) == On(d)
    ensures Eligible(s, n) <==> Counts(s, d)
  {
    hide Candidate, IsZone, Visits;
    VisitedIff(s, d);
    assert Visited(s, d);
  }

  lemma VisitedDatesAreDays(s: Series, n: nat, d: int)
    requires Valid(s) && Candidate(s, n) == On(d)
    ensures d >= 1
  {
    hide MonthStart, IsZone;
    if IsGrid(s) {
      OffsetsAreDays(s);
      DivisionIs(0, |Offsets(s)|, 0, 0);
      if n > 0 {
        GridAscends(s, 0, n);
      }
      assert CandidateDay(s, 0) >= s.base - (s.base - MONDAY) % 7;
    } else {
      MonthHolds(CandidateMonth(s, n), d);
    }
  }

  /** The rank of a candidate is the number of dates that count before its own. */
  lemma RankIsEarlierDates(s: Series, n: nat, d: int)
    requires Valid(s) && Candidate(s, n) == On(d)
    ensures Rank(s, n) == |EarlierDates(s, d)|
  {
    hide Candidate, Valid, IsZone, Visits, Counts, Eligible, EligibleDays;
    RankCountsDays(s, n);
    forall e ensures e in EligibleDays(s, n) <==> e in EarlierDates(s, d) {
      EligibleDaysAre(s, n, e);
      if k: nat :| k < n && Eligible(s, k) && Candidate(s, k) == On(e) {
        CandidatesAscend(s, k, n);
        VisitedDatesAreDays(s, k, e);
        EligibleIff(s, k, e);
      }
      if 1 <= e < d && Counts(s, e) {
        var k := CountedIsVisited(s, e);
        EligibleIff(s, k, e);
        if k > n {
          CandidatesAscend(s, n, k);
        }
      }
    }
    assert EligibleDays(s, n) == EarlierDates(s, d);
  }

  lemma CountedIsVisited(s: Series, d: int) returns (n: nat)
    requires Valid(s) && Counts(s, d)
    ensures Candidate(s, n) == On(d)
  {
    VisitedIff(s, d);
    n :| Candidate(s, n) == On(d);
  }

  lemma EmittedIff(s: Series, n: nat, d: int)
    requires Valid(s) && Candidate(s, n) == On(d)
    ensures Emitted(s, n) <==> Emits(s, d)
  {
    hide Candidate, Rank, IsZone, Counts, Eligible;
    EligibleIff(s, n, d);
    RankIsEarlierDates(s, n, d);
  }

  /** The starts of a series are the starts of the dates its rule emits. */
  lemma IsStartIff(s: Series, t: int)
    requires Valid(s)
    ensures IsStart(s, t) <==> exists d :: Emits(s, d) && s.toUtc(d) == t
  {
    hide Candidate, Rank, IsZone, Counts, EarlierDates;
    if n: nat :| Emitted(s, n) && At(s, n) == t {
      EmittedIff(s, n, Candidate(s, n).day);
    }
    if d :| Emits(s, d) && s.toUtc(d) == t {
      var n := CountedIsVisited(s, d);
      EmittedIff(s, n, d);
      assert Emitted(s, n) && At(s, n) == t;
    }
  }

  // ---------- What the generator yields ----------

  lemma {:induction false} WalkYieldsStarts(s: Series, w: Window, n: nat, emitted: int, t: int)
    requires Valid(s) && t in Walk(s, w, n, emitted)
    requires s.rule.count.Some? ==> emitted == Rank(s, n)
    ensures IsStart(s, t)
    decreases HORIZON - n
  {
    hide Candidate, IsZone;
    WithinHorizon(s, n);
    if Candidate(s, n).On? {
      var next := At(s, n);
      if next >= s.startsAt && !CountReached(s, emitted) {
        assert Emitted(s, n);
        if t != next {
          WalkYieldsStarts(s, w, n + 1, emitted + 1, t);
        }
      } else {
        WalkYieldsStarts(s, w, n + 1, emitted, t);
      }
    } else {
      WalkYieldsStarts(s, w, n + 1, emitted, t);
    }
  }

  lemma {:induction false} MeetingHas(s: Series, w: Window, ts: seq<int>, t: int)
    ensures t in Meeting(s, w, ts) <==> t in ts && Overlaps(t, t + s.duration, w)
  {
    if ts != [] {
      MeetingHas(s, w, ts[1..], t);
      assert ts == [ts[0]] + ts[1..];
    }
  }

  lemma {:induction false} ReferenceHas(s: Series, w: Window, n: nat, m: nat)
    requires Valid(s) && n <= m && Shown(s, w, m)
    ensures At(s, m) in Reference(s, w, n)
    decreases m - n
  {
    WithinHorizon(s, m);
    if n < m {
      ReferenceHas(s, w, n + 1, m);
    }
  }

  /** Every start that is yielded is of an emitted date. */
  lemma YieldedIsEmitted(s: Series, w: Window, t: int)
    requires Valid(s) && ValidWindow(w) && t in Starts(s, w)
    ensures exists d :: Emits(s, d) && s.toUtc(d) == t
  {
    WalkYieldsStarts(s, w, SkipIndex(s, w), 0, t);
    IsStartIff(s, t);
  }

  /** Every emitted date whose occurrence meets the window is yielded, when the skip-ahead is lossless. */
  lemma EmittedIsYielded(s: Series, w: Window, d: int)
    requires Valid(s) && ValidWindow(w) && ListsExactly(s) && Emits(s, d)
    requires s.toUtc(d) < w.end && s.toUtc(d) + s.duration > w.start
    ensures s.toUtc(d) in Starts(s, w)
  {
    hide Candidate, Rank, IsZone, Starts, Reference, Emits;
    IsStartIff(s, s.toUtc(d));
    var n: nat :| Emitted(s, n) && At(s, n) == s.toUtc(d);
    ReferenceHas(s, w, 0, n);
    MeetingHas(s, w, Starts(s, w), s.toUtc(d));
  }

  lemma WalkHere(s: Series, w: Window, n: nat, emitted: int)
    requires Valid(s)
    ensures Candidate(s, n).Exhausted? ==> Walk(s, w, n, emitted) == []
    ensures Candidate(s, n).Impossible? ==> Walk(s, w, n, emitted) == Walk(s, w, n + 1, emitted)
    ensures Candidate(s, n).On? ==>
              || Walk(s, w, n, emitted) == []
              || Walk(s, w, n, emitted) == [At(s, n)] + Walk(s, w, n + 1, emitted + 1)
              || Walk(s, w, n, emitted) == Walk(s, w, n + 1, emitted)
    ensures !Candidate(s, n).Exhausted? ==> n < HORIZON
  {
    hide Candidate, IsZone;
    WithinHorizon(s, n);
  }

  /** What the generator yields, whole: in order, only starts of emitted dates, and all of those that meet the window. */
  lemma YieldsEmittedDates(s: Series, w: Window)
    requires Valid(s) && ValidWindow(w)
    ensures AscendsFrom(0, Starts(s, w))
    ensures forall t :: t in Starts(s, w) ==> exists d :: Emits(s, d) && s.toUtc(d) == t
    ensures ListsExactly(s) ==>
              forall d :: Emits(s, d) && s.toUtc(d) < w.end && s.toUtc(d) + s.duration > w.start ==>
                            s.toUtc(d) in Starts(s, w)
  {
    hide Starts, Emits, Valid, ListsExactly;
    StartsAscend(s, w);
    forall t | t in Starts(s, w) ensures exists d :: Emits(s, d) && s.toUtc(d) == t {
      YieldedIsEmitted(s, w, t);
    }
    if ListsExactly(s) {
      forall d | Emits(s, d) && s.toUtc(d) < w.end && s.toUtc(d) + s.duration > w.start
        ensures s.toUtc(d) in Starts(s, w)
      {
        EmittedIsYielded(s, w, d);
      }
    }
  }

  predicate AscendsFrom(least: int, ts: seq<int>) {
    && (forall i :: 0 <= i < |ts| ==> least <= ts[i])
    && forall i, j :: 0 <= i < j < |ts| ==> ts[i] <= ts[j]
  }

  /** Starts are yielded in order. */
  lemma {:induction false} WalkAscends(s: Series, w: Window, n: nat, emitted: int, least: int)
    requires Valid(s) && forall k: nat :: n <= k && Candidate(s, k).On? ==> least <= At(s, k)
    ensures AscendsFrom(least, Walk(s, w, n, emitted))
    decreases HORIZON - n
  {
    hide Candidate, Valid, Walk, At;
    WalkHere(s, w, n, emitted);
    if Candidate(s, n).On? {
      forall k: nat | n <= k && Candidate(s, k).On? ensures At(s, n) <= At(s, k) {
        LaterStartsLater(s, n, k);
      }
      WalkAscends(s, w, n + 1, emitted + 1, At(s, n));
      WalkAscends(s, w, n + 1, emitted, At(s, n));
      assert least <= At(s, n);
    } else if Candidate(s, n).Impossible? {
      WalkAscends(s, w, n + 1, emitted, least);
    }
  }

  lemma LaterStartsLater(s: Series, n: nat, m: nat)
    requires Valid(s) && n <= m && Candidate(s, n).On? && Candidate(s, m).On?
    ensures At(s, n) <= At(s, m)
  {
    if n < m {
      CandidatesAscend(s, n, m);
    }
  }

  lemma StartsAscend(s: Series, w: Window)
    requires Valid(s) && ValidWindow(w)
    ensures AscendsFrom(0, Starts(s, w))
  {
    hide Candidate, Valid, Walk, SkipIndex;
    forall k: nat | Candidate(s, k).On? ensures 0 <= At(s, k) {
      StartsInTime(s, k);
    }
    WalkAscends(s, w, SkipIndex(s, w), 0, 0);
  }

  lemma StartsInTime(s: Series, n: nat)
    requires Valid(s) && Candidate(s, n).On?
    ensures 0 <= At(s, n)
  {
    hide Candidate;
    var d := Candidate(s, n).day;
    VisitedDatesAreDays(s, n, d);
    assert s.toUtc(d) - (d * DAY + s.timeOfDay) > -DAY;
  }

  // ---------- Skipping ahead ----------

  /**
   An occurrence of this date is over by the day from which the walk no longer visits its period:
   one period after as many whole ones as hold the days of the duration, and at least one.
   */
  ghost predicate OverInTime(s: Series, d: int) {
    var every := if s.rule.interval < 1 then 1 else s.rule.interval;
    if s.rule.frequency == Daily then OverWhenSkipped(s, d, d, every)
    else OverWhenSkipped(s, d, d - (d - MONDAY) % 7, 7 * every)
  }

  ghost predicate OverWhenSkipped(s: Series, d: int, first: int, period: int) {
    forall back :: OverAfter(s, d, first, period, back)
  }

  predicate OverAfter(s: Series, d: int, first: int, period: int, back: int) {
    back >= 1 && back * period >= s.duration / DAY && first + (back + 1) * period <= MAX_ORDINAL ==>
      s.toUtc(d) + s.duration <= (first + (back + 1) * period) * DAY
  }

  lemma PeriodIsRead(s: Series, n: nat, d: int)
    requires Valid(s) && IsGrid(s) && Candidate(s, n) == On(d)
    ensures Offsets(s) != []
    ensures Interval(s) == if s.rule.interval < 1 then 1 else s.rule.interval
    ensures Period(s) == if s.rule.frequency == Daily then Interval(s) else 7 * Interval(s)
    ensures PeriodStart(s, n / |Offsets(s)|) == if s.rule.frequency == Daily then d else d - (d - MONDAY) % 7
  {
    if s.rule.frequency == Weekly {
      WeeklyCandidateDate(s, n);
    } else {
      assert Offsets(s) == [0];
    }
  }

  /** The fewest periods that will do decide for all that will. */
  lemma FewestDecide(s: Series, d: int, first: int)
    ensures OverWhenSkipped(s, d, first, Period(s)) <==> OverAfter(s, d, first, Period(s), PeriodsBack(s))
  {
    hide Period, PeriodsBack;
    var back, period := PeriodsBack(s), Period(s);
    if OverAfter(s, d, first, period, back) {
      forall b ensures OverAfter(s, d, first, period, b) {
        PeriodsBackAreFewest(s, b);
        if b >= back {
          assert (b + 1) * period == (back + 1) * period + (b - back) * period;
          assert (b - back) * period >= 0;
        }
      }
    }
  }

  lemma OverInTimeIff(s: Series, n: nat, d: int)
    requires Valid(s) && IsGrid(s) && Candidate(s, n) == On(d)
    ensures Offsets(s) != []
    ensures OverInTime(s, d) <==>
            (SkippedFrom(s, n) <= MAX_ORDINAL ==> At(s, n) + s.duration <= SkippedFrom(s, n) * DAY)
  {
    hide Candidate, Valid, Interval, Period, Offsets, PeriodStart, PeriodsBack, OverWhenSkipped;
    PeriodIsRead(s, n, d);
    var k := n / |Offsets(s)|;
    PeriodsFurther(s, k);
    PeriodsBackAreFewest(s, PeriodsBack(s));
    FewestDecide(s, d, PeriodStart(s, k));
  }

  /** From the stored fields: an uncounted daily or weekly series is listed completely for every window exactly then. */
  lemma GridSkipIsLosslessIff(s: Series)
    requires Valid(s) && IsGrid(s) && s.rule.count.None?
    ensures ListsExactly(s) <==> forall d :: Emits(s, d) ==> OverInTime(s, d)
  {
    hide Candidate, IsZone, ListsExactly, Emits, OverInTime, Rank, SkippedFrom;
    GridSkipIsLosslessIffMargin(s);
    if Margin(s) {
      forall d | Emits(s, d) ensures OverInTime(s, d) {
        var n := EmittedDateIsVisited(s, d);
        OverInTimeIff(s, n, d);
        EmittedIff(s, n, d);
      }
    }
    if Offsets(s) != [] && forall d :: Emits(s, d) ==> OverInTime(s, d) {
      forall n: nat | Emitted(s, n) && SkippedFrom(s, n) <= MAX_ORDINAL
        ensures At(s, n) + s.duration <= SkippedFrom(s, n) * DAY
      {
        var d := EligibleIsOn(s, n);
        EmittedIff(s, n, d);
        OverInTimeIff(s, n, d);
      }
    }
  }

  lemma EmittedDateIsVisited(s: Series, d: int) returns (n: nat)
    requires Valid(s) && Emits(s, d)
    ensures Candidate(s, n) == On(d) && (IsGrid(s) ==> Offsets(s) != [])
  {
    n := CountedIsVisited(s, d);
  }
}
