# Proofs about a household dashboard

The program keeps shared dashboards: a calendar with recurring events, widgets on a bounded grid,
lists with due dates, notifications, and a live event stream that keeps every open tab current. Its
hardest code is always a fast or stateful form of something simple: a walk that starts near the
window instead of at the first date, a scan of edges instead of cells, a cache instead of a request,
a patch instead of a refetch, a cursor instead of the whole table. This project models those forms
as the code has them and proves what each says about the simple one, for every input and every run.

- **Recurring events.** `Recurrence` defines what a rule means (`Emitted`, `Reference`: every
  candidate from the first date, kept when its occurrence meets the window) and what the generator
  walks (`Walk`, `SkipIndex`). `RecurrenceSkip` settles when starting near the window loses nothing:
  always for counted, monthly and yearly series; for daily and weekly ones exactly when a margin
  holds. `RecurrenceBound` shows that what may be written is always cheap to walk. `RecurrenceLoops`
  is the generator itself, four loops, proved to yield that walk. `Expansion` merges the edits made
  to single occurrences, `Listing` is the request with its queries, budgets and limits, and
  `CivilDates` is the calendar underneath. `RecurrenceDates` reads a stored
  rule as calendar dates, with no candidate or period in sight, and is what the listing is exact about.
- **The occurrence cache.** `Intervals` is the coverage list and its gaps; `OccurrenceCache` is the
  entry that fetches, reconciles, trims and invalidates, and the proof that over covered time it holds
  the server's answer under every interleaving. `CalendarEndToEnd` joins it to the listing: what a
  client holds for a covered window is what the stored rules and edits show in it.
- **Layouts.** `Grid` proves that scanning edges finds the first of all free positions, and that a new
  widget gets its best size. `Rescale` is the migration that scales, seats, relocates and shrinks;
  `RescaleLayouts` says what becomes of a stored layout without naming how, and that an arrangement
  that fits once scaled is kept.
  `DashboardLayout` is the validator, the four requests that change a layout, and their runs.
- **Event streams.** `SseQueues` is the fan-out into bounded queues; `SseStreams` is one stream under
  every interleaving of fan-out, revocation and its own generator, with a log of what became of each frame.
- **Client queries.** `QueryCache` is the life of a cached entry, with the request each datum came from
  kept through every write, and the eviction rule; `ScopedQuery` is the cache as objects changed in
  place. `Agenda` patches reminders in place of a refetch; `AgendaDue` says which mutations change what
  is due, `AgendaWords` what each says of one reminder, and `AgendaDays` when a cache fed by responses
  and answers in any order still shows what a refetch would return. `KeysetPages` follows cursors over a table that may change underneath.

Where the code changes state in place, so does the model: classes with the code's fields, whose
methods are proved against the functions and step relations that the lemmas are about.

Nine results say that something the code or its comments suggest is not so, each with a witness and
the exact condition:

- A daily or weekly series can lose an occurrence that is still running when a window opens, because
  the step back counts whole days of duration only (`RecurrenceSkip.MarginCanFail`: a 26-hour daily
  event at 23:00 UTC). It loses none exactly when `Margin` holds (`GridSkipIsLosslessIffMargin`).
- `frontend/src/resources/scopedQuery.ts:102` says that a new entry is never the one evicted. It is
  evicted exactly when the pinned entries alone fill the cap (`QueryCache.NewEntrySurvivesIff`).
- `backend/alembic/versions/c7e1a9b3d5f8_double_layout_grid_resolution.py:121` says that a 1x1 box
  always fits. Three widgets on fifty rows already overlap after the migration
  (`RescaleLayouts.RescaleCanOverlap`); a layout comes out free of overlaps exactly when no item was
  seated onto a full board (`RescaleLayouts.RescaleLayout`).
- A rollback can show data as current that was requested before its last invalidation:
  `frontend/src/resources/listData.ts:326-345` captures the lists, awaits, and on failure writes them
  back, whatever was invalidated and refetched meanwhile (`QueryCache.RollbackCanShowOlderData`, and
  `RollbackCanOutliveReset` after a reset). Every datum ever shown as current is fresh exactly when
  every write passed a check its caller can make (`ShownDataIsCurrent`); for a rollback that is that
  nothing was invalidated since the capture, or that the entry is stale, awaits a response or keeps an
  error (`RollbackIsHarmlessIff`). The same with resets is `NothingOlderReaches`.
- A write that fills absent data, as `frontend/src/resources/listData.ts:160-168` does to summaries
  that were never fetched, shows as current what no request returned
  (`QueryCache.FillCanShowUnrequestedData`), unless the entry is stale, awaits a response or keeps an
  error (`FillIsHarmlessIff`).
- A rollback can also undo an edit that an event made after the capture, with nothing invalidated
  (`QueryCache.RollbackCanUndoAnEvent`). While the same response is shown it undoes its own edit alone
  exactly when nothing else was edited since (`RollbackUndoesOnlyItsOwnIff`).
- A mutation's response is handled when it comes, not in the order the mutations were accepted
  (`frontend/src/resources/listData.ts:223-300`). An item renamed and then deleted, with the response
  to the deletion handled first, comes back as a reminder (`AgendaDays.DeletedItemCanComeBack`). What is
  cached is what a refetch would return exactly when, for each reminder, the last word the client has
  written of it is the last word of the accepted mutations (`PatchedIsRefetched`, `ItemIsRightIff`). Two
  responses may be handled either way round exactly when they do not clash: two mutations of one item
  that leave it differently, or two names for a list that has reminders (`HandledEitherWayIff`).
- A reminders request answered before a mutation can arrive after its patch and undo it
  (`AgendaDays.LateAnswerCanUndoAPatch`). With no response on its way an answer may arrive exactly when
  the same reminders are still due (`ArrivalIsHarmlessIff`); one mutation in between spoils it exactly
  when it touches the dashboard (`OvertakenIsOnTimeIff`).
- An occurrence request overtaken by a change and its invalidation brings the old contents back as
  covered (`OccurrenceCache.LateResponseCanDisagree`). Whatever changes while requests are in flight, the
  cache agrees with the server throughout exactly when each response still answers the current contents
  of its interval and each change spares the covered time (`OpenRunAgreesIff`).

## Model

| member | source | states |
|---|---|---|
| CivilDates.MonthOf | backend/app/services/calendar.py:241 | The month index it finds is the one whose first day is at or before the day and whose successor's is after it. |
| CivilDates.MonthStartsAreSpaced | backend/app/services/calendar.py:241-243 | Any two months lie between 28 and 31 days apart per month: the bound the monthly step-back divides by. |
| CivilDates.MonthStartsAgreeWithYears | backend/app/services/calendar.py:312-321 | Summing month lengths gives the closed Gregorian form for the days before every year. |
| CivilDates.YearsAreSpaced | backend/app/services/calendar.py:265-266 | Any two years lie at least 365 days apart per year: the bound the yearly step-back divides by. |
| CivilDates.LastRepresentableDay | backend/app/services/calendar.py:204-222 | The last date is the last day of year 9999, ordinal 3652059. |
| CivilDates.DateOf | backend/app/services/calendar.py:312-321 | Every day has one year, month and day of the month, by the closed form of the days before a year. |
| Recurrence.OffsetsAreDays | backend/app/services/calendar.py:210 | The weekdays a weekly series walks are sorted, distinct, at most seven, each between 0 and 6, however the rule lists them. |
| Recurrence.CandidatesAscend | backend/app/services/calendar.py:196-281 | For every frequency a later candidate that exists is a later date, and once dates run out they stay out. |
| Recurrence.ExhaustedByHorizon | backend/app/services/calendar.py:154-157 | Every series, even one stored with a zero or negative interval or a day that never recurs, runs out of dates: the walk terminates. |
| Recurrence.WalkMeetsReference | backend/app/services/calendar.py:172-281 | From any candidate on, stopping at the window's end, at `until` or at the count loses nothing: the walk filtered by overlap is the reference listing. |
| Recurrence.SkipIsExact | backend/app/services/calendar.py:183-281 | The listing from where the walk starts equals the listing from the first date exactly when no skipped candidate is shown in the window. |
| RecurrenceSkip.SkippedFromIsExact | backend/app/services/calendar.py:183-219 | A daily or weekly candidate is skipped for a window day exactly when that day is `back + 1` periods or more past the candidate's period. |
| RecurrenceSkip.MarginIsEnough | backend/app/services/calendar.py:183-219 | Under the margin no skipped daily or weekly candidate is shown in any window. |
| RecurrenceSkip.MarginIsNeeded | backend/app/services/calendar.py:183-219 | One emitted occurrence outlasting the margin makes some window's listing incomplete. |
| RecurrenceSkip.GridSkipIsLosslessIffMargin | backend/app/services/calendar.py:183-236 | An uncounted daily or weekly series is listed completely for every window if and only if each occurrence ends by the day the walk stops visiting it. |
| RecurrenceSkip.MarginHolds | backend/app/services/calendar.py:188-217 | The margin always holds for daily intervals of three or more, and for weekly intervals of two or more or durations under six days. |
| RecurrenceSkip.MarginFromClock | backend/app/services/calendar.py:188-217 | The margin holds when weekday offset, latest UTC time of day and duration together fit in the periods stepped back plus one. |
| RecurrenceSkip.PeriodsBackAreFewest | backend/app/services/calendar.py:188-217 | The periods stepped back are the fewest, and at least one, that hold the whole days of the duration. |
| RecurrenceSkip.FixedOffsetIsLosslessIff | backend/app/services/calendar.py:183-236 | In a zone with one offset the listing is complete for every window exactly when, for each emitted candidate that can be skipped, weekday offset, UTC time of day and duration fit in the periods stepped back plus one. |
| RecurrenceSkip.MarginCanFail | backend/app/services/calendar.py:188-193 | A daily 26-hour event starting at 23:00 UTC is listed incompletely for some window. |
| RecurrenceSkip.CountedListsExactly | backend/app/services/calendar.py:184-195 | A count-limited series is listed completely for every window: the same first `count` candidates whatever the window. |
| RecurrenceSkip.MonthlySkippedAreOver | backend/app/services/calendar.py:238-260 | Every occurrence a monthly walk skips ends at or before the window opens. |
| RecurrenceSkip.YearlySkippedAreOver | backend/app/services/calendar.py:262-281 | Every occurrence a yearly walk skips ends at or before the window opens. |
| RecurrenceSkip.CalendarSkipIsLossless | backend/app/services/calendar.py:238-281 | Monthly and yearly series are listed completely for every window, duration, interval and zone. |
| RecurrenceDates.VisitedIff | backend/app/services/calendar.py:151-281 | A rule visits a date exactly when its stored fields say so: daily, a multiple of `interval` days from the first; weekly, a listed weekday (the first date's when none is listed) a multiple of `interval` weeks from the first date's Monday-based week; monthly and yearly, the first date's day of the month a multiple of `interval` months or years on; an interval below 1 counts as 1. |
| RecurrenceDates.RankIsEarlierDates | backend/app/services/calendar.py:172-181 | What `count` counts is the number of earlier dates that are visited, not before the first start and not past `until`. |
| RecurrenceDates.IsStartIff | backend/app/services/calendar.py:151-281 | The starts of a series are the instants of the dates emitted so: visited, from the first start to `until`, fewer than `count` of them before. |
| RecurrenceDates.WalkYieldsStarts | backend/app/services/calendar.py:151-281 | Every start the walk yields is one the rule emits, whatever the window. |
| RecurrenceDates.YieldsEmittedDates | backend/app/services/calendar.py:151-281 | For a window the generator yields, in order, only starts of dates its stored fields emit, and all of those whose occurrences meet it when skipping ahead is lossless. |
| RecurrenceDates.GridSkipIsLosslessIff | backend/app/services/calendar.py:183-236 | From the stored fields: an uncounted daily or weekly series is listed completely for every window exactly when each emitted occurrence is over one period after as many as hold its whole days, and at least one. |
| RecurrenceBound.WalkIsShort | backend/app/services/calendar.py:196-281 | A walk is no longer than the number of candidates before the first one that is at or past the window's end for good. |
| RecurrenceBound.CountedWalkIsShort | backend/app/services/calendar.py:178-181 | A counted walk yields no more than what is left of its count. |
| RecurrenceBound.DailyPast | backend/app/services/calendar.py:183-207 | A thousand candidates after the daily walk starts, everything is past the window. |
| RecurrenceBound.WeeklyPast | backend/app/services/calendar.py:209-236 | The same for the weekly walk, with up to seven starts a week. |
| RecurrenceBound.CalendarPast | backend/app/services/calendar.py:238-281 | The same for the monthly and yearly walks. |
| RecurrenceBound.WritableWalkIsShort | backend/app/services/calendar.py:133-140 | What the rule schema and the write-time check accept walks at most 1000 starts in any listable window, in any zone, so its starts never exceed the per-event budget of 2000. |
| RecurrenceLoops.Visit | backend/app/services/calendar.py:172-181 | What every loop does with a candidate (stop, yield, pass over) is one step of the walk. |
| RecurrenceLoops.DailySkip | backend/app/services/calendar.py:186-195 | The daily skip lands on the walk's starting candidate, and that date is representable. |
| RecurrenceLoops.DailyLoop | backend/app/services/calendar.py:196-207 | The daily loop yields the walk from its first date on. |
| RecurrenceLoops.WeeklySkip | backend/app/services/calendar.py:211-219 | The weekly skip lands on the first offset of the week the walk starts in. |
| RecurrenceLoops.WeekStarts | backend/app/services/calendar.py:225-235 | One week's pass over the weekdays yields the walk's next starts, or ends it. |
| RecurrenceLoops.WeeklyLoop | backend/app/services/calendar.py:210-236 | The weekly loop yields the walk from its first week on. |
| RecurrenceLoops.CarriedMonth | backend/app/services/calendar.py:319-321 | Adding months to a year and month is addition on month indices. |
| RecurrenceLoops.CalendarCandidate | backend/app/services/calendar.py:245-274 | The safe date of a candidate's year and month is the candidate; a missing day is passed over, a year past the last ends the series. |
| RecurrenceLoops.MonthlySkip | backend/app/services/calendar.py:239-243 | The months skipped are a whole number of intervals, landing on the walk's starting candidate. |
| RecurrenceLoops.MonthlyLoop | backend/app/services/calendar.py:244-260 | The monthly loop yields the walk from where it was skipped to. |
| RecurrenceLoops.YearlySkip | backend/app/services/calendar.py:263-266 | The years skipped land on the walk's starting candidate. |
| RecurrenceLoops.YearlyLoop | backend/app/services/calendar.py:267-281 | The yearly loop yields the walk from where it was skipped to. |
| RecurrenceLoops.IterRecurrenceStarts | backend/app/services/calendar.py:151-281 | The generator, run to its end, yields exactly `Starts`, whatever the frequency: in order, only starts of dates the stored fields emit, and all of those that meet the window when skipping ahead is lossless. |
| Expansion.LookupFinds | backend/app/services/calendar.py:94 | An edit is found for a start exactly when some edit is keyed by it. |
| Expansion.ExpandHas | backend/app/services/calendar.py:86-102 | An occurrence is in an expansion exactly when its start was walked or is an edit's key, it is what building gives, and it meets the window. |
| Expansion.OriginalsAreWalked | backend/app/services/calendar.py:78 | Every start of the event whose unedited occurrence meets the window is walked for it. |
| Expansion.ExpandIsExact | backend/app/services/calendar.py:62-130 | The expansion of an event is exactly what the window shows of it: kept, retimed into or out of the window, or cancelled. |
| Expansion.ShownIff | backend/app/services/calendar.py:105-130 | What a window shows of an event is, field by field: each start nobody edited, with the event's own fields; each edit that is not cancelled, with the edit's title, description, location, timezone, all-day flag, start and end where it has them and the event's, or its slot and duration, where it has none. |
| Expansion.ExpandIsWhatIsStored | backend/app/services/calendar.py:62-130 | The expansion of an event is exactly that, for the dates its rule emits. |
| Expansion.EditsAreHonoured | backend/app/services/calendar.py:105-130 | Whatever the walk finds, nothing with a cancelled edit's start is expanded, what has an edit is as the edit has it, and an occurrence is an exception exactly when it has an edit. |
| Expansion.WindowRestriction | backend/app/services/calendar.py:62-102 | Expanding over a window is expanding over any wider one and filtering. |
| Expansion.BuiltSlot | backend/app/services/calendar.py:114-115 | An edited occurrence stands in the slot that the listing's query computes for its edit. |
| Expansion.LoadedLookup | backend/app/routers/calendar.py:292-300 | Among the loaded edits a start finds its edit exactly when that edit touches the window. |
| Expansion.LoadingFewerEdits | backend/app/routers/calendar.py:292-300 | Leaving out the edits whose original and edited slots both miss the window changes nothing in it. |
| Expansion.UnloadedShowsNothing | backend/app/routers/calendar.py:275-314 | An event that the query's predicates do not load has nothing in the window. |
| Listing.ExpansionBudget.Spend | backend/app/services/calendar.py:40-43 | Spending takes exactly what was walked and refuses exactly when the budget goes negative. |
| Listing.CollectOccurrences | backend/app/services/calendar.py:91-102 | The loop builds, drops the cancelled and keeps what overlaps, in order. |
| Listing.UnwalkedStarts | backend/app/services/calendar.py:86-89 | The starts added to the walked ones are the edit keys not among them, in order. |
| Listing.ExpandEventOccurrences | backend/app/services/calendar.py:62-102 | Refuses the request exactly when the charge exceeds what remains, the event exactly when it is over its own limit; a normal return cut nothing off and spent exactly the charge. |
| Listing.LoadRows | backend/app/routers/calendar.py:302-337 | The two queries return the events that may meet the window, each with only the edits that may. |
| Listing.EditsAdd | backend/app/routers/calendar.py:324-334 | The edits a request is refused for are counted row by row. |
| Listing.ListOccurrences | backend/app/routers/calendar.py:246-357 | A listing is refused exactly for a bad window or an exceeded limit; otherwise it answers every loaded row's expansion, and what remains plus what was spent is the initial budget. |
| Listing.LoadedRowListsWhatItShows | backend/app/routers/calendar.py:339-353 | A row as the write paths keep it is never left out for its own size, and lists exactly what it shows. |
| Listing.AllListedHas | backend/app/routers/calendar.py:339-353 | What is answered is what some loaded row within its limit expands to. |
| Listing.ListingIsExact | backend/app/routers/calendar.py:275-357 | Query, walks, edits and limits together: an answered listing holds an occurrence exactly when some stored row shows it in the window. |
| Listing.EditsAreListed | backend/app/services/calendar.py:105-130 | In an answered listing no occurrence has a cancelled edit's start, an edited one is as its edit has it, and the exceptions are exactly those with an edit. |
| Listing.ListingRestricts | backend/app/routers/calendar.py:275-357 | A listing over a window is the listing over any wider one, filtered to it. |
| Grid.ClashIffShareCell | backend/app/schemas/dashboards.py:231-243 | Boxes with any cells clash exactly when some cell is in both. |
| Grid.FirstSlotIsUnique | backend/app/routers/dashboards.py:124-132 | There is one topmost-then-leftmost free position at most. |
| Grid.SlideUp | backend/app/routers/dashboards.py:127-129 | A free box slides up to a row edge, staying free. |
| Grid.SlideLeft | backend/app/routers/dashboards.py:127-129 | A free box slides left to a column edge, staying free. |
| Grid.EdgeBefore | backend/app/routers/dashboards.py:127-129 | Every free position has a free edge position no lower and no further right. |
| Grid.FirstEdgeIsFirst | backend/app/routers/dashboards.py:138-146 | The first edge position that fits is the first of all positions over every cell. |
| Grid.ScannedAll | backend/app/routers/dashboards.py:147 | When no edge position fits, no position fits. |
| Grid.FirstFreeSlot | backend/app/routers/dashboards.py:124-147 | For any boxes, the scan of edges returns the topmost, then leftmost, of all free positions, or nothing when there is none, exactly when what it returns is not before the origin; over boxes in the grid it never is. |
| Grid.SmallerFits | backend/app/routers/dashboards.py:158-159 | Where a size fits, every smaller size fits. |
| Grid.InsertRanked | backend/app/routers/dashboards.py:165-168 | Sorting in a candidate keeps larger areas first and, among equal areas, the default's proportions first. |
| Grid.NotWorseIff | backend/app/routers/dashboards.py:165-168 | The order of candidates in whole numbers: more cells first, then width over height no farther from the default's. |
| Grid.Candidates | backend/app/routers/dashboards.py:165-168 | The candidates are exactly the sizes between minimum and default, ranked. |
| Grid.FitWidget | backend/app/routers/dashboards.py:150-174 | A new widget gets the size with most cells that fits anywhere in range, and among those the proportions nearest the default's, at its first free position; it gets none exactly when the minimum fits nowhere. |
| Rescale.SeatOrderIsDistinct | backend/alembic/versions/c7e1a9b3d5f8_double_layout_grid_resolution.py:105-108 | Each item is seated once. |
| Rescale.TopIsClear | backend/alembic/versions/c7e1a9b3d5f8_double_layout_grid_resolution.py:112-116 | An item rising in its column rests below everything already in those columns. |
| Rescale.FirstSlot | backend/alembic/versions/c7e1a9b3d5f8_double_layout_grid_resolution.py:49-66 | The position a seat is given is the first of all free ones. |
| Rescale.Seat | backend/alembic/versions/c7e1a9b3d5f8_double_layout_grid_resolution.py:49-66 | The migration's own scan finds that position. |
| Rescale.ShrunkStands | backend/alembic/versions/c7e1a9b3d5f8_double_layout_grid_resolution.py:120-128 | The shrink loop ends inside the grid at no larger a size, and free of the others exactly when a cell was free. |
| Rescale.SeatedStands | backend/alembic/versions/c7e1a9b3d5f8_double_layout_grid_resolution.py:109-129 | Kept, relocated or shrunk, an item ends inside the grid, and free of the others exactly when a cell was free. |
| Rescale.DisjointIffRoom | backend/alembic/versions/c7e1a9b3d5f8_double_layout_grid_resolution.py:104-131 | The seating ends without overlaps exactly when every item was seated while a cell was free. |
| Rescale.SeatedInTurnIsSeating | backend/alembic/versions/c7e1a9b3d5f8_double_layout_grid_resolution.py:104-131 | Boxes seated in turn are the one seating of their items. |
| Rescale.SeatingIsDisjointIffRoom | backend/alembic/versions/c7e1a9b3d5f8_double_layout_grid_resolution.py:104-131 | The seating of a list of items is free of overlaps exactly when the seating of each part before an item leaves a cell free. |
| Rescale.RoomByArea | backend/alembic/versions/c7e1a9b3d5f8_double_layout_grid_resolution.py:120-121 | Boxes whose areas add up to less than the board leave a cell free. |
| Rescale.RoomyLayoutsStayDisjoint | backend/alembic/versions/c7e1a9b3d5f8_double_layout_grid_resolution.py:104-131 | When the scaled areas before each item sum to less than the board, nothing overlaps. |
| Rescale.SeatItem | backend/alembic/versions/c7e1a9b3d5f8_double_layout_grid_resolution.py:112-128 | One item's pass through keep, relocate and shrink puts it where seating is defined to. |
| Rescale.Resettle | backend/alembic/versions/c7e1a9b3d5f8_double_layout_grid_resolution.py:104-131 | Writing the seats back item by item keeps length, ids and everything unscalable, and seats all in turn. |
| Rescale.DisjointInAnyOrder | backend/alembic/versions/c7e1a9b3d5f8_double_layout_grid_resolution.py:105-131 | Overlap-freedom in seating order is overlap-freedom of the stored list. |
| Rescale.Rescale | backend/alembic/versions/c7e1a9b3d5f8_double_layout_grid_resolution.py:69-131 | Every scalable item ends inside the grid, where seating the scaled items puts it; order, ids and unscalable entries are kept; and the result is free of overlaps exactly when the seating of the scaled items before each one leaves a cell free. |
| Rescale.RoomyRescaleIsDisjoint | backend/alembic/versions/c7e1a9b3d5f8_double_layout_grid_resolution.py:69-131 | Scaled areas alone tell in advance that a rescale will not overlap. |
| RescaleLayouts.ExtentOf | backend/alembic/versions/c7e1a9b3d5f8_double_layout_grid_resolution.py:86-87 | The extent is the lowest row any scalable entry reaches, 0 when there is none. |
| RescaleLayouts.SeatOrderIsSoonerFirst | backend/alembic/versions/c7e1a9b3d5f8_double_layout_grid_resolution.py:105-108 | Entries are seated by scaled row, then scaled column, then place in the layout. |
| RescaleLayouts.ShrunkIsRelocated | backend/alembic/versions/c7e1a9b3d5f8_double_layout_grid_resolution.py:117-128 | What does not fit under its column goes to the first free position for the largest size that has one, sides as even as its own allow; with no cell free, to a cell at the origin. |
| RescaleLayouts.SeatedCameToRest | backend/alembic/versions/c7e1a9b3d5f8_double_layout_grid_resolution.py:112-128 | An entry that still fits keeps its scaled column, moved left only to stay on the board, and its scaled size, clear of what was seated before it in its columns and resting on the top edge or on one of those; else it is relocated. |
| RescaleLayouts.RescaleLayout | backend/alembic/versions/c7e1a9b3d5f8_double_layout_grid_resolution.py:69-131 | The whole rewrite: columns times the factor, rows times the factor or the ratio that fits, clamped to the board; seated in order, each resting or relocated; ids, places and unscalable entries kept; free of overlaps exactly when every entry found a cell free when its turn came. |
| RescaleLayouts.ScaledRowsFit | backend/alembic/versions/c7e1a9b3d5f8_double_layout_grid_resolution.py:78-79 | Whatever the height of a layout, its scaled rows stay on the board. |
| RescaleLayouts.SettledLayoutIsKept | backend/alembic/versions/c7e1a9b3d5f8_double_layout_grid_resolution.py:109-116 | When the scaled boxes are on the board, overlap nothing and rest on the top or on one another, they are left where scaling put them. |
| RescaleLayouts.ArrangementIsKept | backend/alembic/versions/c7e1a9b3d5f8_double_layout_grid_resolution.py:74-80 | A layout that overlaps nothing, rests and fits the board once scaled comes out with every number multiplied by the factor and nothing else changed. |
| RescaleLayouts.TallIsDisjoint | backend/alembic/versions/c7e1a9b3d5f8_double_layout_grid_resolution.py:74-78 | The three-widget fifty-row layout has no overlap before the migration. |
| RescaleLayouts.RescaleCanOverlap | backend/alembic/versions/c7e1a9b3d5f8_double_layout_grid_resolution.py:120-128 | After the migration it always has one: the claim that a 1x1 always fits is false. |
| DashboardLayout.RejectImpossibleGrids | backend/app/schemas/dashboards.py:215-244 | Accepts exactly the layouts whose boxes lie on the 24 by 24 board, with distinct ids and no cell taken twice; else names the first entry at fault and what is wrong with it. |
| DashboardLayout.WellFormedIff | backend/app/schemas/dashboards.py:215-244 | A layout is well formed exactly when every box lies on the 24 by 24 board, ids are distinct and no cell is taken twice. |
| DashboardLayout.AcceptsIff | backend/app/routers/dashboards.py:713-741 | A PUT is accepted exactly when its layout is possible so, its version is the current one, and each entry is, in each dimension, at least its type's least size (8 for a calendar, else 4) or its saved one. |
| DashboardLayout.Dashboard.UpdateLayout | backend/app/routers/dashboards.py:713-741 | A PUT replaces the layout and bumps the version exactly when its boxes are possible on the board, it carries the current version and shrinks nothing below its least or saved size; otherwise nothing changes. |
| DashboardLayout.Dashboard.AddWidget | backend/app/routers/dashboards.py:907-929 | An add appends the best-fitting box and bumps the version, or changes nothing exactly when the minimum fits nowhere; over boxes before the origin it still changes nothing but by one box in range (8 to 12 by 8 for a calendar, else 4 by 4 to 6). |
| DashboardLayout.Dashboard.DeleteWidget | backend/app/routers/dashboards.py:1065-1071 | A delete removes the widget and its entry and bumps the version, or changes nothing when there is no such widget. |
| DashboardLayout.Dashboard.RemoveResourceWidgets | backend/app/services/dashboard_widgets.py:25-49 | Trashing a list removes all its widgets from a dashboard with their entries in one version, and changes nothing where there are none. |
| DashboardLayout.Dashboard.KeepOthers | backend/app/services/dashboard_widgets.py:39-43 | Exactly the entries of the other widgets stay, in order. |
| DashboardLayout.WithoutItemsKeeps | backend/app/routers/dashboards.py:1070 | Removing ids keeps exactly the other entries, and well-formedness. |
| DashboardLayout.StepKeepsWellFormed | backend/app/routers/dashboards.py:704-1071 | Every request, accepted or refused, keeps a layout well formed. |
| DashboardLayout.ReachableIsWellFormed | backend/app/routers/dashboards.py:704-1071 | Every layout that a run of PUTs, adds, deletes and unbindings reaches from empty lies on the board, takes no cell twice and is distinct in its ids. |
| DashboardLayout.VersionNamesState | backend/app/routers/dashboards.py:722-741 | Over any run versions never go back, and one version names one layout and one set of widgets. |
| DashboardLayout.AcceptedPutReplacesWhatWasRead | backend/app/routers/dashboards.py:714-741 | An accepted PUT replaces the very layout its author read under that version. |
| DashboardLayout.OnePutPerVersion | backend/app/routers/dashboards.py:722-726 | No two PUTs carrying one version both succeed. |
| DashboardLayout.SavedIs | backend/app/routers/dashboards.py:729 | Looking up an id among the saved entries finds that entry. |
| DashboardLayout.StepKeepsUsefulSize | backend/app/routers/dashboards.py:727-737 | No request takes an item further below its type's minimum, nor changes its widget's type. |
| DashboardLayout.UsefulSizeNeverShrinks | backend/app/routers/dashboards.py:727-737 | While an item and its widget stay, the smaller of its size and its type's minimum never decreases on either axis. |
| Intervals.SortBy | frontend/src/resources/occurrenceStore.ts:82 | Sorting by a key orders the list and keeps its entries, counted. |
| Intervals.SumPermutes | frontend/src/resources/occurrenceStore.ts:102-104 | A total over intervals does not depend on their order. |
| Intervals.SortedApartIsSeparated | frontend/src/resources/occurrenceStore.ts:66-84 | Intervals no two of which touch, sorted by start, are strictly separated. |
| Intervals.AddInterval | frontend/src/resources/occurrenceStore.ts:67-84 | Adding an interval keeps the coverage strictly separated and covers exactly the union. |
| Intervals.GapsIn | frontend/src/resources/occurrenceStore.ts:87-100 | The gaps are separated pieces covering exactly the uncovered points of the window. |
| OccurrenceCache.HolderIsFirst | frontend/src/resources/occurrenceStore.ts:147-151 | The interval holding what was just fetched is strictly the nearest to it. |
| OccurrenceCache.TrimCoverage | frontend/src/resources/occurrenceStore.ts:144-158 | Trimming keeps everything under the cap; above it, it keeps the interval just fetched, ends within the cap or with one interval, and drops none that would have fitted, at whatever distance it reaches, beside what it keeps reaching as near. |
| OccurrenceCache.Entry.BeginLoad | frontend/src/resources/occurrenceStore.ts:207-214 | A load requests exactly the gaps in its window that are not already in flight. |
| OccurrenceCache.Entry.FetchCompleted | frontend/src/resources/occurrenceStore.ts:180-200 | A response replaces what was held over its interval, extends the coverage by it and trims. |
| OccurrenceCache.Entry.Trim | frontend/src/resources/occurrenceStore.ts:144-167 | Above the cap, what no remaining coverage reaches is dropped with the coverage; at or under it nothing is. |
| OccurrenceCache.Entry.FetchFailed | frontend/src/resources/occurrenceStore.ts:198-200 | A failed request changes nothing but what is in flight. |
| OccurrenceCache.Entry.Publish | frontend/src/resources/occurrenceStore.ts:132-137 | Publishing makes what is held visible, and changes nothing held. |
| OccurrenceCache.Entry.Invalidate | frontend/src/resources/occurrenceStore.ts:342-343 | Invalidating forgets all coverage and keeps what is held. |
| OccurrenceCache.InsertAllHas | frontend/src/resources/occurrenceStore.ts:194 | After inserting a response every occurrence in it is held under its key, and nothing else is displaced. |
| OccurrenceCache.ReconcileAgrees | frontend/src/resources/occurrenceStore.ts:187-196 | Reconciling a correct answer extends the agreement with the server over its interval. |
| OccurrenceCache.TrimAgrees | frontend/src/resources/occurrenceStore.ts:144-167 | Trimming keeps the agreement wherever coverage remains. |
| OccurrenceCache.StepAgrees | frontend/src/resources/occurrenceStore.ts:144-221 | Every step of the entry beside the server keeps the agreement. |
| OccurrenceCache.RunAgrees | frontend/src/resources/occurrenceStore.ts:144-221 | Every state a run reaches from an empty cache agrees with the server of that moment. |
| OccurrenceCache.CoveredWindowIsAnswered | frontend/src/resources/occurrenceStore.ts:144-204 | Under the agreement, what is held for a covered window is the server's answer for it. |
| OccurrenceCache.CacheAgreesWithServer | frontend/src/resources/occurrenceStore.ts:144-221 | Under every interleaving of loads, completions, failures, trims and invalidations, over a fully covered window the cache and the server agree. |
| OccurrenceCache.CompletionAgreesIff | frontend/src/resources/occurrenceStore.ts:175-204 | A response, whenever it was answered, keeps an agreeing cache agreeing exactly when it still answers the current contents over its interval. |
| OccurrenceCache.ChangeAgreesIff | frontend/src/resources/occurrenceStore.ts:331-350 | A change of the server keeps the agreement exactly when it spares the covered time. |
| OccurrenceCache.OpenRunAgreesIff | frontend/src/resources/occurrenceStore.ts:144-221 | Whatever changes while requests are in flight: the cache agrees with the server at every moment exactly when each response still answers the current contents over its interval and each change spares the covered time. |
| OccurrenceCache.LateResponseCanDisagree | frontend/src/resources/occurrenceStore.ts:175-204 | A load in flight while its only occurrence is deleted and the cache invalidated leaves the occurrence covered and held. |
| OccurrenceCache.CoverageGrows | frontend/src/resources/occurrenceStore.ts:175-204 | Without an invalidation, and under the cap, covered time stays covered. |
| OccurrenceCache.GapsStayInFlight | frontend/src/resources/occurrenceStore.ts:172-206 | Every moment of its window that a load finds uncovered is asked for, and stays in flight until its interval is answered or fails. |
| OccurrenceCache.LoadPublishesTheAnswer | frontend/src/resources/occurrenceStore.ts:207-221 | A load whose gaps all arrive under the cap publishes exactly the server's answer for its window. |
| CalendarEndToEnd.ProducedLasts | backend/app/services/calendar.py:114-118 | Every occurrence a stored row produces lasts some time and carries the row's event id. |
| CalendarEndToEnd.ServerIsValid | frontend/src/resources/occurrenceStore.ts:53-56 | Over stored events a cache key names one occurrence. |
| CalendarEndToEnd.ListingAnswers | backend/app/routers/calendar.py:246-357 | An answered listing is what the cache expects of its server for that interval. |
| CalendarEndToEnd.RunOverIsRun | frontend/src/resources/occurrenceStore.ts:175-221 | A run of the cache over listings of the stored events is a run beside a correct server. |
| CalendarEndToEnd.CacheShowsTheCalendar | frontend/src/resources/occurrenceStore.ts:144-204 | From rules to cache: over a covered window the cache holds exactly the occurrences that some stored event, with its edits, shows in it. |
| CalendarEndToEnd.PublishedIsTheCalendar | frontend/src/resources/occurrenceStore.ts:207-221 | From rules to screen: a load whose gaps all arrive under the cap publishes for its window exactly what the stored events, with their edits, show in it. |
| SseQueues.Client.PutNowait | backend/app/sse/manager.py:97-99 | A message is queued exactly when the queue is under its bound of 256. |
| SseQueues.Client.Drain | backend/app/sse/manager.py:129-133 | Draining empties the queue. |
| SseQueues.SseManager.Connect | backend/app/sse/manager.py:57-61 | A new stream is registered last, with an empty queue and no debt. |
| SseQueues.SseManager.Disconnect | backend/app/sse/manager.py:63-66 | Closing removes that stream alone, and a second close does nothing. |
| SseQueues.SseManager.OverflowClient | backend/app/sse/manager.py:135-146 | After an overflow the queue is the sentinel alone and a resync is owed; the sentinel always fits. |
| SseQueues.SseManager.OfferTo | backend/app/sse/manager.py:94-100 | One frame offered is dropped under a debt, queued under the bound, or turned into a debt. |
| SseQueues.SseManager.DeliverToAll | backend/app/sse/manager.py:85-100 | Every registered stream is offered the frame, once. |
| SseQueues.SseManager.Broadcast | backend/app/sse/manager.py:102-127 | Exactly the audience is offered the frame, or the actor alone when no audience is named. |
| SseQueues.SseManager.DisconnectSession | backend/app/sse/manager.py:68-83 | Every stream of the session, and no other, is unregistered with the end-of-stream sentinel alone in its queue. |
| SseStreams.Generator.TakeFromQueue | backend/app/routers/sse.py:132-160 | The generator's dequeue is the one the step relation takes: a frame is sent, an overflow leads to a resync, a revocation ends the stream and unregisters it. |
| SseStreams.Generator.SendResync | backend/app/routers/sse.py:139-153 | The debt is cleared with the resync as the step relation has it, and the queue is left as it is. |
| SseStreams.Generator.End | backend/app/routers/sse.py:161-163 | Whichever way it ends, a stream is closed and no longer fanned into. |
| SseStreams.StepKeepsSound | backend/app/sse/manager.py:85-146 | Fan-out, opening, dequeue, resync, revocation and end each keep order, one fate per frame, announced drops and the held debt. |
| SseStreams.RunIsSound | backend/app/routers/sse.py:84-163 | Every run from registration keeps them. |
| SseStreams.NoFrameIsLostUnannounced | backend/app/sse/manager.py:68-146 | While a stream is registered, each frame addressed to it was sent, is still queued, or was dropped with the unscoped resync sent or owed after the drop; the resync a stream opens with does not count. |
| SseStreams.FramesLeaveInOrder | backend/app/routers/sse.py:116-160 | Frames leave in the order they were addressed, none twice, and queued ones are later than sent ones. |
| SseStreams.DebtsAreDelivered | backend/app/sse/manager.py:135-146 | Queues never exceed the bound, and an owed resync is always in the queue or in the generator's hand. |
| SseStreams.RegisteredMeansNeverClosed | backend/app/routers/sse.py:155-163 | A stream that is still registered was neither revoked nor ended. |
| SseStreams.EndIsFinal | backend/app/routers/sse.py:160-162 | In every run an open stream can end, whatever it is doing, and is then closed and unregistered; nothing happens to a closed one. |
| SseStreams.RevokedStreamOnlyEnds | backend/app/routers/sse.py:155-157 | In every run, after its session is revoked a stream is fanned nothing and sends no frame, its generator is never left waiting on an empty queue until it has ended, and the first thing it takes ends it. |
| QueryCache.EventKeepsTimed | frontend/src/resources/scopedQuery.ts:134-235 | Every event keeps requests, data and invalidations in the past. |
| QueryCache.LifeIsTimed | frontend/src/resources/scopedQuery.ts:134-235 | So does every life, and an entry keeps its birth. |
| QueryCache.EventKeepsFreshIff | frontend/src/resources/scopedQuery.ts:134-235 | On an entry that shows, and awaits, nothing outdated, an event spoils that exactly when it is a write or seed that fails its check. |
| QueryCache.ShownDataIsCurrent | frontend/src/resources/scopedQuery.ts:134-235 | Under every interleaving of fetches, responses, failures, invalidations, arbitrary writes and seeds, all data ever shown as current (not stale, no response awaited, no error), or awaited to be, was requested after the last invalidation, exactly when every write and seed passed its check. |
| QueryCache.OrdinaryLivesAreCurrent | frontend/src/resources/listData.ts:79-118 | Edits of data already there, and removals, that clear no error need no check. |
| QueryCache.EventOwnsIff | frontend/src/resources/scopedQuery.ts:214-239 | An event gives an entry data requested before a moment exactly when it puts such data back or seeds it. |
| QueryCache.NothingOlderReaches | frontend/src/resources/scopedQuery.ts:237-239 | An entry made after a reset never holds data requested before it, exactly when no write puts such data back and no seed was obtained before it. |
| QueryCache.RollbackIsHarmlessIff | frontend/src/resources/listData.ts:302-353 | Data captured while shown as current may be put back exactly when nothing was invalidated since, or the entry is stale, awaits a response or keeps an error. |
| QueryCache.RollbackCanShowOlderData | frontend/src/resources/listData.ts:325-353 | A reorder that fails after an invalidation and its refetch leaves the entry showing, as current, data requested before the invalidation. |
| QueryCache.RollbackUndoesOnlyItsOwnIff | frontend/src/resources/listData.ts:302-353 | A rollback of an edit, while the same response is shown, undoes that edit alone exactly when nothing else was edited since. |
| QueryCache.RollbackCanUndoAnEvent | frontend/src/resources/listData.ts:302-323 | A failed reorder unchecks an item that another user checked meanwhile, with every state fresh. |
| QueryCache.RollbackCanOutliveReset | frontend/src/resources/listData.ts:325-353 | The same rollback after a reset fills the new entry with data requested before the reset. |
| QueryCache.FillCanShowUnrequestedData | frontend/src/resources/listData.ts:160-168 | A list added to summaries that were never fetched is shown as current, though no request returned them. |
| QueryCache.FillIsHarmlessIff | frontend/src/resources/listData.ts:160-168 | A fill leaves an entry current exactly when it is stale, awaits a response or keeps an error. |
| QueryCache.InvalidationsAreRemembered | frontend/src/resources/scopedQuery.ts:193-212 | The recorded invalidation is the last one in the entry's life, or none. |
| QueryCache.LoadingIsRead | frontend/src/resources/scopedQuery.ts:127-166 | An entry shows that it is loading exactly since a request with nothing else to show, or told to show it, or a write saying so, with no response, failure, seed, write or cleared error since. |
| QueryCache.ErrorIsRead | frontend/src/resources/scopedQuery.ts:127-166 | It shows an error exactly since a failure, or a write saying so, with no request, response, seed or write since. |
| QueryCache.StaleIsRead | frontend/src/resources/scopedQuery.ts:193-235 | It is stale exactly since an invalidation with no request started and no seed since. |
| QueryCache.PendingIsRead | frontend/src/resources/scopedQuery.ts:127-172 | It awaits a request made at a time exactly when a fetch started then and nothing answered it; an answered one is in flight until its end. |
| QueryCache.LastDataIsShown | frontend/src/resources/scopedQuery.ts:147-235 | What a response brought, a seed or a write put in is what is shown, with the request it came from, until something else is put in its place. |
| QueryCache.EvictionTakesTheColdest | frontend/src/resources/scopedQuery.ts:68-83 | Eviction removes the unpinned entries of a cold prefix and nothing else, no more than the excess. |
| QueryCache.EvictionMeetsTheCap | frontend/src/resources/scopedQuery.ts:68-83 | Pinned entries always stay, and the cache ends at its cap or holds nothing but pinned entries. |
| QueryCache.EvictionIsColdestFirst | frontend/src/resources/scopedQuery.ts:76-83 | No entry is dropped while a colder one that nothing pins stays. |
| QueryCache.NewEntrySurvivesIff | frontend/src/resources/scopedQuery.ts:101-104 | A new entry survives its own insertion exactly when fewer than the cap of the others are pinned. |
| QueryCache.TouchedEntrySurvivesIff | frontend/src/resources/scopedQuery.ts:63-66 | An entry just used is the last unpinned one to go. |
| QueryCache.NewEntryCanBeEvicted | frontend/src/resources/scopedQuery.ts:102 | With two watched entries and a cap of two the newcomer is evicted at once. |
| ScopedQuery.Entry.Request | frontend/src/resources/scopedQuery.ts:139-184 | A fetch joins a request in flight and changes nothing, or starts one, clears `stale` and shows loading as asked. |
| ScopedQuery.Entry.Resolved | frontend/src/resources/scopedQuery.ts:163-166 | A response is stored with the time of its request. |
| ScopedQuery.Entry.Rejected | frontend/src/resources/scopedQuery.ts:167-175 | A failure keeps the data and shows the error. |
| ScopedQuery.Entry.Finished | frontend/src/resources/scopedQuery.ts:176-180 | Settling ends the flight. |
| ScopedQuery.Query.ShownIsCurrent | frontend/src/resources/scopedQuery.ts:134-239 | The invariant `Valid`, which every method ensures, read for a caller: as long as every write since the last reset passed its check, what readers see of any entry in the map is current and was requested since that reset. |
| ScopedQuery.Query.Touch | frontend/src/resources/scopedQuery.ts:64-66 | An entry in the map moves to the warm end and the others keep their order; one no longer there is not re-admitted. |
| ScopedQuery.Query.EvictColdEntries | frontend/src/resources/scopedQuery.ts:76-83 | The in-place loop drops, coldest first, entries that are neither watched nor awaiting a request, until the cap is met or none is left; it drops none under the cap. |
| ScopedQuery.Query.EnsureEntry | frontend/src/resources/scopedQuery.ts:85-105 | A known key's entry is returned and nothing changes; a new one is admitted, evicting, and stays exactly when fewer than the cap of the others are pinned; no watched or awaited entry goes. |
| ScopedQuery.Query.Fetch | frontend/src/resources/scopedQuery.ts:134-184 | A fetch touches its entry, joins or starts its request, and changes no other entry. |
| ScopedQuery.Query.Respond | frontend/src/resources/scopedQuery.ts:162-175 | A response changes the entry it was requested for, in the map or not, and leaves the cache sound. |
| ScopedQuery.Query.Finally | frontend/src/resources/scopedQuery.ts:176-180 | Ending a flight leaves the cache sound. |
| ScopedQuery.Query.Reset | frontend/src/resources/scopedQuery.ts:237-239 | A reset empties the map and starts anew: no entry made before it is found again. Data from before it can come back only through a write or seed, as `UpdateWhere` and `Seed` state. |
| ScopedQuery.Query.InvalidateOne | frontend/src/resources/scopedQuery.ts:203-210 | One match is marked stale and, when wanted, refetched; a request already in flight is joined and leaves it stale. |
| ScopedQuery.Query.InvalidateWhere | frontend/src/resources/scopedQuery.ts:193-212 | Field by field: every match is marked stale; of the watched ones (or all, when asked) those with no request out await a new one and are no longer stale, and all are warmed in order; data and every other entry are left alone. |
| ScopedQuery.Query.UpdateWhere | frontend/src/resources/scopedQuery.ts:214-227 | For any updater, every match is patched in place and `stale` and flights are left alone; the entries go on showing nothing outdated, and nothing from before the last reset, exactly when every write passes its check. |
| ScopedQuery.Query.PatchAll | frontend/src/resources/scopedQuery.ts:220-226 | The loop patches every match once and nothing else. |
| ScopedQuery.WriteIsTrustedIff | frontend/src/resources/scopedQuery.ts:214-227 | One write leaves an entry current and from after the last reset exactly when it passes its check. |
| ScopedQuery.Query.Seed | frontend/src/resources/scopedQuery.ts:229-235 | A seed makes or finds its entry, clears `stale` and the error, and is trusted exactly when nothing was reset since it was obtained, nor invalidated since then or, while a response is awaited, since its request. |
| Agenda.EntryIdIsInjective | frontend/src/resources/agendaData.ts:84 | Reminder ids name one item each. |
| Agenda.RefetchedAre | frontend/src/resources/agendaData.ts:183-194 | A refetch returns a reminder exactly when some item of the dashboard's lists gives it. |
| Agenda.RefetchedAreDueItems | frontend/src/resources/agendaData.ts:76-92 | Field by field: a refetch has a reminder for each unchecked item of the dashboard's lists due by today, with the item's id, text, due day and priority and the list's id and name, overdue exactly when due before today, and no other. |
| Agenda.RefetchedAreDistinct | frontend/src/resources/agendaData.ts:183-194 | A refetch returns no reminder twice. |
| Agenda.AgendaReminders.ApplyAgendaItemUpdate | frontend/src/resources/agendaData.ts:107-123 | One dashboard's reminders lose the item's old entry and gain its new one exactly when it is unchecked and due by today, field by field; others are untouched. |
| Agenda.AgendaReminders.RemoveAgendaItem | frontend/src/resources/agendaData.ts:133-142 | Every dashboard loses the item's reminder and keeps every other, in order, with none doubled. |
| Agenda.AgendaReminders.RenameAgendaListEntries | frontend/src/resources/agendaData.ts:145-158 | On every dashboard the list's reminders, and no others, carry the new name, each in its place with its id. |
| Agenda.AgendaReminders.RemoveAgendaItemsForList | frontend/src/resources/agendaData.ts:170-181 | Every dashboard loses the list's reminders and keeps every other, in order, with none doubled. |
| Agenda.AgendaReminders.OnMutation | frontend/src/resources/listData.ts:173-300 | The response to each mutation makes its own patch of the reminders, from the list details as they are when it is handled, and patches those in turn. |
| Agenda.AgendaReminders.PatchFromDetail | frontend/src/resources/listData.ts:255-259 | An item's reminder is derived with its list's cached dashboard and name, and left alone when the list has no cached detail. |
| Agenda.ItemAppliedIsFaithful | frontend/src/resources/listData.ts:223-282 | After an item is added or updated, the patched reminders are exactly those due from the new lists. |
| Agenda.ItemRemovedIsFaithful | frontend/src/resources/listData.ts:284-300 | The same after an item is deleted. |
| Agenda.ListRenamedIsFaithful | frontend/src/resources/listData.ts:173-188 | The same after a list is renamed. |
| Agenda.ListDroppedIsFaithful | frontend/src/resources/listData.ts:190-199 | The same after a list is trashed. |
| Agenda.PatchKeepsFaithful | frontend/src/resources/listData.ts:173-300 | Every accepted mutation, patched, keeps the reminders faithful and the lists well formed. |
| Agenda.RefetchIsFaithful | frontend/src/resources/agendaData.ts:183-194 | A refetch leaves the reminders exactly those due. |
| AgendaDue.SwapKeepsDueIff | frontend/src/resources/listData.ts:223-300 | Swapping one item changes nothing due exactly when old and new call for the same reminder. |
| AgendaDue.RenameKeepsDueIff | frontend/src/resources/listData.ts:173-188 | Renaming a list changes nothing due exactly when the name is the same or the list has no reminder there. |
| AgendaDue.DropKeepsDueIff | frontend/src/resources/listData.ts:190-199 | Trashing a list changes nothing due exactly when it has no reminder there. |
| AgendaDue.MutationKeepsDueIff | frontend/src/resources/listData.ts:173-300 | For each of the five mutations: what is due on a dashboard stays the same exactly when the mutation does not touch it. |
| AgendaWords.SameWordsIff | frontend/src/resources/agendaData.ts:183-194 | Reminders with distinct ids are the same, as a multiset, exactly when they show the same under every entry id. |
| AgendaWords.PatchSays | frontend/src/resources/listData.ts:223-300 | Handling a response makes of every cached reminder what the mutation says, from the details then cached. |
| AgendaWords.AcceptanceSays | frontend/src/resources/listData.ts:223-300 | Accepting a mutation makes of every reminder that is due what the mutation says, from the lists' own details. |
| AgendaWords.SaidEitherWayIff | frontend/src/resources/listData.ts:173-300 | Two mutations say the same of a reminder in either order exactly when they do not clash over it. |
| AgendaWords.HandledEitherWayIff | frontend/src/resources/listData.ts:173-300 | The responses to two mutations may be handled either way round exactly when they are not of one item that they leave differently, nor two names for a list with reminders. |
| AgendaDays.AnswersAreRemembered | frontend/src/resources/agendaData.ts:183-194 | An answer on its way is what was due when the server gave it. |
| AgendaDays.PatchedIsRefetched | frontend/src/resources/listData.ts:173-300 | At any moment of any day (mutations of this and other clients accepted in one order, their responses and the answers to reminders requests handled in any other, details loaded and dropped at will) the reminders of each cached dashboard are, as a multiset, what a refetch would return, exactly when for each reminder the last word the client has written is the last word of the accepted mutations. |
| AgendaDays.ServerHasItsSay | frontend/src/resources/listData.ts:223-300 | What the lists call for is what the accepted mutations, in order, have made of it. |
| AgendaDays.ClientHasItsSay | frontend/src/resources/listData.ts:223-300 | What is shown is what arrivals and handled responses, in their own order, have made of it. |
| AgendaDays.LastPatchDecides | frontend/src/resources/listData.ts:255-300 | The last patch of an item to be handled, with no answer arriving later, is the client's last word. |
| AgendaDays.LastAcceptanceDecides | frontend/src/resources/listData.ts:255-300 | The last accepted mutation of an item is the server's last word. |
| AgendaDays.ItemIsRightIff | frontend/src/resources/listData.ts:255-300 | An item is shown as the lists call for it exactly when its last handled patch and its last accepted mutation leave the same reminder. |
| AgendaDays.SettledIsRefetched | frontend/src/resources/listData.ts:223-300 | With no response on its way, to come out right is to be what a refetch would return. |
| AgendaDays.StepSettlesIff | frontend/src/resources/listData.ts:173-300 | A happening keeps the cache such that the responses on their way will bring it right exactly when it is harmless. |
| AgendaDays.DaySettlesIff | frontend/src/resources/listData.ts:173-300 | Through a day, every moment comes out right, and so every moment with no response on its way shows what a refetch would return, exactly when everything that happens is harmless. |
| AgendaDays.OvertakingApartIsHarmless | frontend/src/resources/listData.ts:223-300 | A response may be handled before those of earlier mutations that stand apart from it. |
| AgendaDays.OwnMutationIsHarmless | frontend/src/resources/listData.ts:255-259 | A client that will have the list's detail as it is makes of its own mutation what the server does. |
| AgendaDays.OthersMutationIsHarmlessIff | frontend/src/resources/agendaData.ts:260-286 | Another client's mutation is harmless exactly when it touches no dashboard that is cached. |
| AgendaDays.ArrivalIsHarmlessIff | frontend/src/resources/agendaData.ts:183-194 | With no response on its way, an answer may arrive exactly when the same reminders are due as when it was given. |
| AgendaDays.ArrivalBeforeResponsesIsHarmless | frontend/src/resources/agendaData.ts:183-194 | An answer given with nothing on its way may arrive before the responses to the client's own mutations that overtook it. |
| AgendaDays.DeletedItemCanComeBack | frontend/src/resources/listData.ts:261-300 | An item renamed, then deleted, with the responses handled the other way round, stays as a reminder, though no reminders request is made. |
| AgendaDays.UnovertakenIsOnTime | frontend/src/resources/agendaData.ts:183-194 | An answer that no mutation overtakes arrives on time. |
| AgendaDays.OvertakenIsOnTimeIff | frontend/src/resources/agendaData.ts:269-271 | An answer that one mutation overtakes is on time exactly when that mutation does not touch its dashboard. |
| AgendaDays.LateAnswerCanUndoAPatch | frontend/src/resources/agendaData.ts:269-271 | An item checked between an answer and its arrival comes back as a reminder. |
| KeysetPages.PageIsExact | backend/app/routers/notifications.py:74-78 | A page holds, in order, exactly the rows past its cursor and not past its own last row; it names a next page exactly when rows remain, and is then full. |
| KeysetPages.AllPagesAre | backend/app/routers/notifications.py:51-82 | Following cursors from anywhere terminates and lists exactly the rows past it, in order. |
| KeysetPages.PagesListTheTable | backend/app/routers/notifications.py:51-82 | Over an unchanged table the pages are the sorted table: every row once. |
| KeysetPages.CursorsDescend | backend/app/routers/calendar.py:410-437 | Successive cursors only move down the order, whatever the table does between pages. |
| KeysetPages.StayingRowIsOnOnePage | backend/app/routers/calendar.py:400-437 | No row is on two pages of one paging, whatever changes between them. |
| KeysetPages.StayingRowIsReached | backend/app/routers/calendar.py:400-437 | A row that stays was listed by now or still lies past the cursor. |
| KeysetPages.SinkingRowIsReached | backend/app/routers/notifications.py:57-82 | A row that only stays or sinks between pages was listed by now or still lies past the cursor. |
| KeysetPages.SinkingRowIsListed | backend/app/routers/notifications.py:57-82 | Paged to the end, such a row was listed at least once. |
| KeysetPages.ReadNotificationIsListed | backend/app/routers/notifications.py:57-82 | A notification marked read at any point while its pages are followed is listed at least once. |
| KeysetPages.StayingRowsAreListedOnce | backend/app/routers/calendar.py:370-437 | Paged to the end, every row that stayed trashed is listed on exactly one page, even when the cursor row itself is restored or purged. |
| KeysetPages.WhereIsPast | backend/app/routers/notifications.py:66-72 | The two-part WHERE clause selects exactly the rows past the cursor in (unread, created_at, id) order. |
| KeysetPages.PageOfNotifications | backend/app/routers/notifications.py:51-82 | Read off the notifications: a page of at most fifty, unread first, then newest, then highest id, holds exactly those after the cursor and, when there are more, not after its fiftieth, which is the next cursor. |
| KeysetPages.PageOfTrash | backend/app/routers/calendar.py:400-437 | Read off the trash: a page of at most two hundred, latest deleted first, holds exactly the events deleted before the cursor and, when there are more, not before its last. |
| KeysetPages.ListNotifications | backend/app/routers/notifications.py:51-82 | The notifications endpoint answers that page. |
| KeysetPages.TrashPast | backend/app/routers/calendar.py:402-411 | The trash query selects the rows past its cursor. |
| KeysetPages.EventTrash | backend/app/routers/calendar.py:363-437 | The trash endpoint answers that page. |
| KeysetPages.CursorRoundTrip | backend/app/routers/notifications.py:32-48 | A cursor decoded is the position of the row it was encoded from. |

## Left out

- RecurrenceLoops.IterRecurrenceStarts: the generator is run to its end and its list cut afterwards, so the laziness that stops the walk itself at the limit is not modelled; what is yielded is.
- Listing.ListOccurrences: does not model the final sort of the response, participants, or reading a database; a row's edits stand in for the join.
- Listing.ListingIsExact: for uncounted daily and weekly series it needs the margin, because without it the code's listing is not complete.
- RescaleLayouts.RescaleLayout: the vertical ratio is a real quotient where the code's is floating point, so rounding is not modelled (`Rescale.Rescale` holds for any function in its place); downgrade and layouts that are not lists are left out.
- Grid.FitWidget: the proportions tie-break compares real quotients instead of floating-point ones.
- Grid.FirstFreeSlot: entries missing a coordinate, which the code reads as 0 or 1, are not modelled.
- DashboardLayout.Dashboard.AddWidget: a new widget's id is taken to be new to the dashboard, and its box is only said to be the best placed over boxes that end at or after the origin, as every box the validator accepts does; quotas, bound resources and created lists are left out.
- OccurrenceCache.CacheAgreesWithServer: speaks of runs in which the server changes only together with an invalidation while nothing is in flight; the exact condition without that is `OpenRunAgreesIff`.
- OccurrenceCache.LoadPublishesTheAnswer: partly failed loads, the loading, error and loaded flags, listeners, per-tick batching of windows and the order of the published list are not modelled.
- CalendarEndToEnd.CacheShowsTheCalendar: one unit of time stands for the server's microseconds and the client's milliseconds.
- QueryCache.ShownDataIsCurrent: `fetchIfStale`, `useQuery` and listeners that re-enter the cache are left out, and a scope is its key.
- AgendaDays.PatchedIsRefetched: restoring a list (which refetches), the turn of the day and the events half of the agenda are left out.
- KeysetPages.ReadNotificationIsListed: that a notification may then be listed twice, which the client handles by removing repeats, is not modelled; purge deadlines of trashed events are left out.
- KeysetPages.CursorRoundTrip: that instants and ids are read back from their own text, free of the separator, is a hypothesis about the language's library.
- Recurrence.OffsetsAreDays: weekdays outside 0 to 6, which the schema refuses, are excluded.
- SseStreams.RunIsSound: stream expiry, revalidation and the client going away are one `End` action; heads, watermarks, scopes, metrics and the broker are left out.
- Time zones: a zone is any function from local days to instants that never decreases and stays within a day of the naive value; zone tables, gaps and folds, `OverflowError` at the ends of the date range, and weekdays outside 0 to 6 are left out.
- Calls to `expand_event_occurrences` without a budget, all-day normalisation and edits built for a write are left out; they add nothing the listing does not show.
- HTTP, authentication, sessions, roles, sharing, retention, rate limits, database transactions and locks are left out: each route is one atomic step on the row it locks.
- React components, hooks and pages, list reordering and search are left out.
