/**
 One listing request: the rows it loads, the budget it spends walking them, and what it answers.
 */
module Listing {
  import opened Wrappers
  import opened Numbers
  import opened Recurrence
  import opened RecurrenceSkip
  import opened RecurrenceBound
  import opened RecurrenceLoops
  import opened Expansion

  const MAX_RESPONSE_OCCURRENCES := 20_000
  const MAX_RESPONSE_CANDIDATES := 200_000

  /** One refusal covers every limit: too many rows, too many edits, too long a walk, too long an answer. */
  datatype Refusal = TooManyOccurrences | BadWindow

  /** Candidates one request may still walk. */
  class ExpansionBudget {
    var remaining: int

    constructor (candidates: int)
      ensures remaining == candidates
    {
      remaining := candidates;
    }

    method Spend(walked: int) returns (ok: bool)
      modifies this
      ensures remaining == old(remaining) - walked
      ensures ok <==> remaining >= 0
    {
      remaining := remaining - walked;
      ok := remaining >= 0;
    }
  }

  /** What a row costs a request that goes through: its starts, or one past the per-event limit, and its edits. */
  function Charge(e: Event, edits: seq<Override>, w: Window): nat
    requires ValidEvent(e) && ValidWindow(w)
  {
    Min(|WalkedStarts(e, w)|, MAX_EVENT_OCCURRENCES + 1) + |edits|
  }

  predicate WithinEventLimit(e: Event, edits: seq<Override>, w: Window)
    requires ValidEvent(e) && ValidWindow(w)
  {
    |WalkedStarts(e, w)| <= MAX_EVENT_OCCURRENCES && |edits| <= MAX_EVENT_OCCURRENCES
  }

  method CollectOccurrences(e: Event, edits: seq<Override>, w: Window, starts: seq<int>) returns (out: seq<Occurrence>)
    ensures out == Collect(e, edits, w, starts)
  {
    out := [];
    ghost var rest := Collect(e, edits, w, starts);
    for i := 0 to |starts|
      invariant out + rest == Collect(e, edits, w, starts)
      invariant rest == Collect(e, edits, w, starts[i..])
    {
      assert starts[i..][0] == starts[i] && starts[i..][1..] == starts[i + 1..];
      rest := Collect(e, edits, w, starts[i + 1..]);
      var built := Build(e, Lookup(edits, starts[i]), starts[i]);
      if built.Some? && Meets(built.value, w) {
        out := out + [built.value];
      }
    }
  }

  method UnwalkedStarts(edits: seq<Override>, walked: seq<int>) returns (out: seq<int>)
    ensures out == Unwalked(edits, walked)
  {
    out := [];
    ghost var rest := Unwalked(edits, walked);
    for i := 0 to |edits|
      invariant out + rest == Unwalked(edits, walked)
      invariant rest == Unwalked(edits[i..], walked)
    {
      assert edits[i..][0] == edits[i] && edits[i..][1..] == edits[i + 1..];
      rest := Unwalked(edits[i + 1..], walked);
      if edits[i].occurrenceStart !in walked {
        out := out + [edits[i].occurrenceStart];
      }
    }
  }

  datatype Failure = RequestTooLarge | EventTooLarge

  predicate Refused<T>(r: Result<T, Failure>) {
    r.Err? && r.error == RequestTooLarge
  }

  /**
   `expand_event_occurrences` under a budget. The walk is cut one past the nearer limit, yet a call
   that returns normally cut nothing.
   */
  method ExpandEventOccurrences(e: Event, edits: seq<Override>, w: Window, budget: ExpansionBudget)
    returns (r: Result<seq<Occurrence>, Failure>)
    requires ValidEvent(e) && ValidWindow(w) && budget.remaining >= 0
    modifies budget
    ensures Refused(r) <==> old(budget.remaining) < Charge(e, edits, w)
    ensures Refused(r) <==> budget.remaining < 0
    ensures !Refused(r) ==> budget.remaining == old(budget.remaining) - Charge(e, edits, w)
    ensures !Refused(r) ==> (r.Ok? <==> WithinEventLimit(e, edits, w))
    ensures r.Ok? ==> r.value == Expand(e, edits, w)
  {
    var walkLimit := Min(MAX_EVENT_OCCURRENCES, budget.remaining);
    var starts := [e.startsAt];
    if e.recurrence.Some? {
      var walk := IterRecurrenceStarts(SeriesOf(e), w);
      starts := walk[..Min(|walk|, walkLimit + 1)];
    }
    var ok := budget.Spend(|starts| + |edits|);
    if !ok {
      return Err(RequestTooLarge);
    }
    if |starts| > MAX_EVENT_OCCURRENCES || |edits| > MAX_EVENT_OCCURRENCES {
      return Err(EventTooLarge);
    }
    assert starts == WalkedStarts(e, w);
    var more := UnwalkedStarts(edits, starts);
    var occurrences := CollectOccurrences(e, edits, w, starts + more);
    return Ok(occurrences);
  }

  /** A stored event with all its edits. */
  datatype Row = Row(event: Event, edits: seq<Override>)

  ghost predicate ValidRow(row: Row) {
    ValidEvent(row.event) && DistinctKeys(row.edits)
  }

  ghost predicate ValidRows(db: seq<Row>) {
    forall i :: 0 <= i < |db| ==> ValidRow(db[i])
  }

  /** The rows the two queries return: events that may meet the window, with only the edits that may. */
  function Loaded(db: seq<Row>, w: Window): (rows: seq<Row>) {
    if db == [] then []
    else
      var row := db[0];
      (if LoadsEvent(row.event, row.edits, w) then [Row(row.event, LoadedEdits(row.event, row.edits, w))] else [])
      + Loaded(db[1..], w)
  }

  function EditCount(rows: seq<Row>): nat {
    if rows == [] then 0 else |rows[0].edits| + EditCount(rows[1..])
  }

  /** Edits are counted row by row. */
  lemma {:induction false} EditsAdd(rows: seq<Row>, row: Row)
    ensures EditCount([]) == 0 && EditCount(rows + [row]) == EditCount(rows) + |row.edits|
  {
    if rows == [] {
      assert [] + [row] == [row] && [row][1..] == [];
    } else {
      EditsAdd(rows[1..], row);
      assert (rows + [row])[1..] == rows[1..] + [row];
    }
  }

  ghost function TotalCharge(rows: seq<Row>, w: Window): nat
    requires ValidRows(rows) && ValidWindow(w)
  {
    if rows == [] then 0 else
      assert ValidRow(rows[0]);
      assert ValidRows(rows[1..]) by { TailIsValid(rows); }
      Charge(rows[0].event, rows[0].edits, w) + TotalCharge(rows[1..], w)
  }

  lemma TailIsValid(rows: seq<Row>)
    requires ValidRows(rows) && rows != []
    ensures ValidRow(rows[0]) && ValidRows(rows[1..])
  {
  }

  /** Listed from these rows: some row within its limits expands to it. */
  ghost predicate Listed(rows: seq<Row>, w: Window, o: Occurrence)
    requires ValidRows(rows) && ValidWindow(w)
  {
    exists i :: 0 <= i < |rows| && ListedBy(rows[i], w, o)
  }

  ghost predicate ListedBy(row: Row, w: Window, o: Occurrence)
    requires ValidWindow(w)
  {
    && ValidRow(row)
    && WithinEventLimit(row.event, row.edits, w)
    && o in Expand(row.event, row.edits, w)
  }

  lemma {:induction false} LoadedRowsAreValid(db: seq<Row>, w: Window)
    requires ValidRows(db)
    ensures ValidRows(Loaded(db, w))
  {
    hide LoadsEvent, LoadedEdits, ValidEvent, DistinctKeys;
    if db != [] {
      TailIsValid(db);
      LoadedRowsAreValid(db[1..], w);
      LoadedEditsStayDistinct(db[0].event, db[0].edits, w);
    }
  }

  lemma {:induction false} LoadedRowsAre(db: seq<Row>, w: Window)
    ensures forall row :: row in db && LoadsEvent(row.event, row.edits, w) ==>
              Row(row.event, LoadedEdits(row.event, row.edits, w)) in Loaded(db, w)
    ensures forall kept :: kept in Loaded(db, w) ==>
              exists row :: row in db && LoadsEvent(row.event, row.edits, w)
                            && kept == Row(row.event, LoadedEdits(row.event, row.edits, w))
  {
    hide LoadsEvent, LoadedEdits;
    if db != [] {
      LoadedRowsAre(db[1..], w);
      assert db == [db[0]] + db[1..];
    }
  }

  lemma {:induction false} LoadedEditsStayDistinct(e: Event, ovs: seq<Override>, w: Window)
    requires DistinctKeys(ovs)
    ensures DistinctKeys(LoadedEdits(e, ovs, w))
  {
    if ovs != [] {
      LoadedEditsStayDistinct(e, ovs[1..], w);
      var rest := LoadedEdits(e, ovs[1..], w);
      forall j | 0 <= j < |rest| ensures rest[j].occurrenceStart != ovs[0].occurrenceStart {
        LoadedEditsAre(e, ovs[1..], w, rest[j]);
        assert rest[j] in rest;
        var i :| 0 <= i < |ovs[1..]| && ovs[1..][i] == rest[j];
        assert ovs[i + 1] == rest[j];
      }
    }
  }

  method LoadRows(db: seq<Row>, w: Window) returns (rows: seq<Row>)
    ensures rows == Loaded(db, w)
  {
    rows := [];
    ghost var rest := Loaded(db, w);
    for i := 0 to |db|
      invariant rows + rest == Loaded(db, w) && rest == Loaded(db[i..], w)
    {
      assert db[i..][0] == db[i] && db[i..][1..] == db[i + 1..];
      rest := Loaded(db[i + 1..], w);
      if LoadsEvent(db[i].event, db[i].edits, w) {
        rows := rows + [Row(db[i].event, LoadedEdits(db[i].event, db[i].edits, w))];
      }
    }
  }

  /** What a row adds to a listing: its expansion, or nothing when it is over its own limit. */
  ghost function RowListing(row: Row, w: Window): seq<Occurrence>
    requires ValidRow(row) && ValidWindow(w)
  {
    if WithinEventLimit(row.event, row.edits, w) then Expand(row.event, row.edits, w) else []
  }

  ghost function AllListed(rows: seq<Row>, w: Window): seq<Occurrence>
    requires ValidRows(rows) && ValidWindow(w)
  {
    if rows == [] then [] else
      assert ValidRow(rows[0]);
      assert ValidRows(rows[1..]) by { TailIsValid(rows); }
      RowListing(rows[0], w) + AllListed(rows[1..], w)
  }

  /** Some limit of the whole request is exceeded. */
  ghost predicate TooLarge(rows: seq<Row>, w: Window)
    requires ValidRows(rows) && ValidWindow(w)
  {
    || |rows| > MAX_RESPONSE_OCCURRENCES
    || EditCount(rows) > MAX_RESPONSE_OCCURRENCES
    || TotalCharge(rows, w) > MAX_RESPONSE_CANDIDATES
    || |AllListed(rows, w)| > MAX_RESPONSE_OCCURRENCES
  }

  /**
   `list_occurrences` over the rows of the dashboards asked for: refused exactly when a limit is
   exceeded, and otherwise complete, with the budget in balance. Over rows as the write paths keep them,
   it answers exactly what their stored fields call for in the window.
   */
  method ListOccurrences(db: seq<Row>, w: Window)
    returns (r: Result<seq<Occurrence>, Refusal>, remaining: int)
    requires ValidRows(db)
    requires DAY <= w.start && w.end <= DAY * (CivilDates.MAX_ORDINAL + 1)
    ensures r == Err(BadWindow) <==> !ListableWindow(w)
    ensures ListableWindow(w) ==> ValidRows(Loaded(db, w))
    ensures r == Err(TooManyOccurrences) <==> ListableWindow(w) && TooLarge(Loaded(db, w), w)
    ensures r.Ok? ==> r.value == AllListed(Loaded(db, w), w)
    ensures r.Ok? ==> remaining >= 0 && remaining + TotalCharge(Loaded(db, w), w) == MAX_RESPONSE_CANDIDATES
    ensures r.Ok? && (forall row :: row in db ==> WellKept(row)) ==>
              forall o :: o in r.value <==> exists row :: row in db && ShownByRow(row, w, o)
  {
    hide WellKept, ShownByRow;
    hide Charge, TotalCharge, RowListing, AllListed, Loaded, Expand, ValidEvent, WithinEventLimit;
    remaining := MAX_RESPONSE_CANDIDATES;
    if w.end <= w.start || w.end - w.start > MAX_OCCURRENCE_WINDOW {
      return Err(BadWindow), remaining;
    }
    LoadedRowsAreValid(db, w);
    var rows := LoadRows(db, w);
    if |rows| > MAX_RESPONSE_OCCURRENCES || EditCount(rows) > MAX_RESPONSE_OCCURRENCES {
      return Err(TooManyOccurrences), remaining;
    }
    var budget := new ExpansionBudget(MAX_RESPONSE_CANDIDATES);
    var occurrences: seq<Occurrence> := [];
    NothingFromNoRows(rows[..0], w);
    for i := 0 to |rows|
      invariant 0 <= budget.remaining && ValidRows(rows[..i])
      invariant budget.remaining + TotalCharge(rows[..i], w) == MAX_RESPONSE_CANDIDATES
      invariant occurrences == AllListed(rows[..i], w) && |occurrences| <= MAX_RESPONSE_OCCURRENCES
    {
      var row := rows[i];
      NextRow(rows, i, w);
      PrefixIsLess(rows, i + 1, w);
      var expanded := ExpandEventOccurrences(row.event, row.edits, w, budget);
      if Refused(expanded) {
        return Err(TooManyOccurrences), remaining;
      }
      assert RowListing(row, w) == if expanded.Ok? then expanded.value else [] by {
        RowListingIs(row, w);
      }
      // An event over its own limit is left out of the listing rather than refusing it.
      if expanded.Ok? {
        occurrences := occurrences + expanded.value;
      }
      if |occurrences| > MAX_RESPONSE_OCCURRENCES {
        return Err(TooManyOccurrences), remaining;
      }
    }
    assert rows[..|rows|] == rows;
    if forall row :: row in db ==> WellKept(row) {
      forall o ensures o in occurrences <==> exists row :: row in db && ShownByRow(row, w, o) {
        ListingIsExact(db, w, o);
      }
    }
    return Ok(occurrences), budget.remaining;
  }

  lemma RowListingIs(row: Row, w: Window)
    requires ValidRow(row) && ValidWindow(w)
    ensures RowListing(row, w) ==
            if WithinEventLimit(row.event, row.edits, w) then Expand(row.event, row.edits, w) else []
  {
  }

  lemma NothingFromNoRows(rows: seq<Row>, w: Window)
    requires rows == [] && ValidWindow(w)
    ensures ValidRows(rows) && TotalCharge(rows, w) == 0 && AllListed(rows, w) == []
  {
  }

  lemma PrefixIsValid(rows: seq<Row>, i: nat)
    requires ValidRows(rows) && i <= |rows|
    ensures ValidRows(rows[..i])
  {
  }

  lemma {:induction false} RowsAdd(a: seq<Row>, b: seq<Row>, w: Window)
    requires ValidRows(a) && ValidRows(b) && ValidWindow(w)
    ensures ValidRows(a + b) && TotalCharge(a + b, w) == TotalCharge(a, w) + TotalCharge(b, w)
    ensures AllListed(a + b, w) == AllListed(a, w) + AllListed(b, w)
  {
    hide Charge, RowListing, ValidRow;
    if a == [] {
      assert a + b == b;
    } else {
      TailIsValid(a);
      assert (a + b)[0] == a[0];
      RowsAdd(a[1..], b, w);
      assert (a + b)[1..] == a[1..] + b;
    }
  }

  lemma NextRow(rows: seq<Row>, i: nat, w: Window)
    requires ValidRows(rows) && i < |rows| && ValidWindow(w)
    ensures ValidRows(rows[..i]) && ValidRows(rows[..i + 1]) && ValidRow(rows[i])
    ensures TotalCharge(rows[..i + 1], w) == TotalCharge(rows[..i], w) + Charge(rows[i].event, rows[i].edits, w)
    ensures AllListed(rows[..i + 1], w) == AllListed(rows[..i], w) + RowListing(rows[i], w)
  {
    hide Charge, RowListing, ValidRow;
    PrefixIsValid(rows, i);
    RowsAdd(rows[..i], [rows[i]], w);
    assert rows[..i] + [rows[i]] == rows[..i + 1];
    assert [rows[i]][1..] == [];
  }

  lemma PrefixIsLess(rows: seq<Row>, i: nat, w: Window)
    requires ValidRows(rows) && i <= |rows| && ValidWindow(w)
    ensures ValidRows(rows[..i]) && TotalCharge(rows[..i], w) <= TotalCharge(rows, w)
    ensures |AllListed(rows[..i], w)| <= |AllListed(rows, w)|
  {
    hide Charge, RowListing, ValidRow;
    PrefixIsValid(rows, i);
    RowsAdd(rows[..i], rows[i..], w);
    assert rows[..i] + rows[i..] == rows;
  }

  /** What is answered is what some row lists. */
  lemma {:induction false} AllListedHas(rows: seq<Row>, w: Window, o: Occurrence)
    requires ValidRows(rows) && ValidWindow(w)
    ensures o in AllListed(rows, w) <==> Listed(rows, w, o)
  {
    hide Expand, ValidRow, WithinEventLimit;
    if rows != [] {
      TailIsValid(rows);
      AllListedHas(rows[1..], w, o);
      if i :| 0 <= i < |rows[1..]| && ListedBy(rows[1..][i], w, o) {
        assert ListedBy(rows[i + 1], w, o);
      }
      if i :| 0 < i < |rows| && ListedBy(rows[i], w, o) {
        assert ListedBy(rows[1..][i - 1], w, o);
      }
    }
  }

  // ---------- What a listing means ----------

  const QUOTA_OVERRIDES_PER_EVENT := 1000

  /** A row as the write paths keep it, in a series whose skip-ahead is lossless. */
  ghost predicate WellKept(row: Row) {
    && ValidRow(row)
    && |row.edits| <= QUOTA_OVERRIDES_PER_EVENT
    && (row.event.recurrence.Some? ==>
          Writable(SeriesOf(row.event)) && ListsExactly(SeriesOf(row.event)))
  }

  ghost predicate ShownByRow(row: Row, w: Window, o: Occurrence) {
    ValidRow(row) && ShownAs(row.event, row.edits, w, o)
  }

  lemma {:induction false} FewerEditsLoaded(e: Event, ovs: seq<Override>, w: Window)
    ensures |LoadedEdits(e, ovs, w)| <= |ovs|
  {
    if ovs != [] {
      FewerEditsLoaded(e, ovs[1..], w);
    }
  }

  lemma LoadedRowListsWhatItShows(row: Row, w: Window, o: Occurrence)
    requires WellKept(row) && ListableWindow(w)
    ensures ListedBy(Row(row.event, LoadedEdits(row.event, row.edits, w)), w, o) <==> ShownByRow(row, w, o)
  {
    var e := row.event;
    LoadedEditsStayDistinct(e, row.edits, w);
    FewerEditsLoaded(e, row.edits, w);
    LoadingFewerEdits(e, row.edits, w, o);
    ExpandIsWhatIsStored(e, row.edits, w, o);
    if e.recurrence.Some? {
      WritableWalkIsShort(SeriesOf(e), w);
    }
  }

  /**
   The query, the walks, the edits and the limits together: a listing that is answered holds an
   occurrence exactly when some stored row shows it in the window.
   */
  lemma ListingIsExact(db: seq<Row>, w: Window, o: Occurrence)
    requires forall row :: row in db ==> WellKept(row)
    requires ListableWindow(w)
    ensures ValidRows(db) && ValidRows(Loaded(db, w))
    ensures o in AllListed(Loaded(db, w), w) <==> exists row :: row in db && ShownByRow(row, w, o)
  {
    forall i | 0 <= i < |db| ensures ValidRow(db[i]) {
      assert db[i] in db && WellKept(db[i]);
    }
    LoadedRowsAreValid(db, w);
    LoadedRowsAre(db, w);
    var rows := Loaded(db, w);
    AllListedHas(rows, w, o);
    if Listed(rows, w, o) {
      var i :| 0 <= i < |rows| && ListedBy(rows[i], w, o);
      assert rows[i] in rows;
      var row :| row in db && LoadsEvent(row.event, row.edits, w)
                 && rows[i] == Row(row.event, LoadedEdits(row.event, row.edits, w));
      LoadedRowListsWhatItShows(row, w, o);
    }
    if row :| row in db && ShownByRow(row, w, o) {
      LoadedRowListsWhatItShows(row, w, o);
      ExpandIsWhatIsStored(row.event, row.edits, w, o);
      if !LoadsEvent(row.event, row.edits, w) {
        UnloadedShowsNothing(row.event, row.edits, w, o);
      }
      var kept := Row(row.event, LoadedEdits(row.event, row.edits, w));
      var i :| 0 <= i < |rows| && rows[i] == kept;
    }
  }

  /** A cancelled occurrence is not listed, and an edited one is listed as its edit has it. */
  lemma EditsAreListed(db: seq<Row>, w: Window, row: Row, ov: Override, o: Occurrence)
    requires forall r :: r in db ==> WellKept(r)
    requires forall a, b :: a in db && b in db && a.event.id == b.event.id ==> a == b
    requires ListableWindow(w) && ValidRows(db) && ValidRows(Loaded(db, w))
    requires o in AllListed(Loaded(db, w), w) && row in db && o.eventId == row.event.id
    ensures ov in row.edits && ov.occurrenceStart == o.originalStart ==> AsEdited(row.event, ov, o)
    ensures o.isException <==> exists edit :: edit in row.edits && edit.occurrenceStart == o.originalStart
  {
    hide ListableWindow, ValidRows, ShownByRow, AsEdited, WellKept;
    ListingIsExact(db, w, o);
    var shown :| shown in db && ShownByRow(shown, w, o);
    assert WellKept(row);
    ShownAsEdited(shown, row, w, ov, o);
  }

  lemma ShownAsEdited(shown: Row, row: Row, w: Window, ov: Override, o: Occurrence)
    requires ValidRow(row) && ShownByRow(shown, w, o) && o.eventId == row.event.id
    requires shown.event.id == row.event.id ==> shown == row
    ensures ov in row.edits && ov.occurrenceStart == o.originalStart ==> AsEdited(row.event, ov, o)
    ensures o.isException <==> exists edit :: edit in row.edits && edit.occurrenceStart == o.originalStart
  {
    hide ValidEvent, StartsAt;
    if exists edit :: edit in shown.edits && AsEdited(shown.event, edit, o) {
      var edit :| edit in shown.edits && AsEdited(shown.event, edit, o);
      if ov in row.edits && ov.occurrenceStart == o.originalStart {
        KeyedEdit(row.edits, edit);
        KeyedEdit(row.edits, ov);
      }
    }
  }

  /** A listing over a window is the listing over any wider one, filtered to it. */
  lemma ListingRestricts(db: seq<Row>, w: Window, wide: Window, o: Occurrence)
    requires forall row :: row in db ==> WellKept(row)
    requires ListableWindow(w) && ListableWindow(wide) && wide.start <= w.start && w.end <= wide.end
    ensures ValidRows(Loaded(db, w)) && ValidRows(Loaded(db, wide))
    ensures o in AllListed(Loaded(db, w), w) <==> o in AllListed(Loaded(db, wide), wide) && Meets(o, w)
  {
    ListingIsExact(db, w, o);
    ListingIsExact(db, wide, o);
    forall row | row in db ensures ShownByRow(row, w, o) <==> ShownByRow(row, wide, o) && Meets(o, w) {
    }
  }
}
