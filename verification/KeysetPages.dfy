/**
 Keyset paging: each request names the last row it has seen, and gets the next rows in order. Over an
 unchanged table the pages list it exactly; over a changing one, rows that stay are listed once.
 */
module KeysetPages {
  import opened Wrappers

  /** A row by what orders it. Unread notifications are section 1, read ones 0; trash has one section. */
  datatype Row = Row(section: int, at: int, id: int)

  /** `a` comes strictly after `b` in a listing: a lower section, then older, then a lower id. */
  predicate Below(a: Row, b: Row) {
    || a.section < b.section
    || (a.section == b.section && (a.at < b.at || (a.at == b.at && a.id < b.id)))
  }

  predicate Past(cursor: Option<Row>, r: Row) {
    cursor.Some? ==> Below(r, cursor.value)
  }

  predicate Descending(rows: seq<Row>) {
    forall i, j :: 0 <= i < j < |rows| ==> Below(rows[j], rows[i])
  }

  /** No two rows share an id. */
  predicate Unique(table: seq<Row>) {
    forall i, j :: 0 <= i < j < |table| ==> table[i].id != table[j].id
  }

  // ---------- One query ----------

  function Matching(table: seq<Row>, cursor: Option<Row>): seq<Row> {
    if table == [] then []
    else (if Past(cursor, table[0]) then [table[0]] else []) + Matching(table[1..], cursor)
  }

  function Insert(r: Row, rows: seq<Row>): seq<Row> {
    if rows == [] then [r]
    else if Below(r, rows[0]) then [rows[0]] + Insert(r, rows[1..])
    else [r] + rows
  }

  function Ordered(rows: seq<Row>): seq<Row> {
    if rows == [] then [] else Insert(rows[0], Ordered(rows[1..]))
  }

  datatype Page = Page(items: seq<Row>, next: Option<Row>)

  /** Filter past the cursor, order, fetch one more than a page; the extra row says there is another. */
  function PageOf(table: seq<Row>, cursor: Option<Row>, size: nat): Page
    requires size >= 1
  {
    var rows := Ordered(Matching(table, cursor));
    if |rows| > size then Page(rows[..size], Some(rows[size - 1])) else Page(rows, None)
  }

  lemma {:induction false} MatchingAre(table: seq<Row>, cursor: Option<Row>)
    ensures forall r :: r in Matching(table, cursor) <==> r in table && Past(cursor, r)
    ensures Unique(table) ==> Unique(Matching(table, cursor))
    ensures |Matching(table, cursor)| <= |table|
  {
    if table != [] {
      MatchingAre(table[1..], cursor);
      assert table == [table[0]] + table[1..];
      var rest := Matching(table[1..], cursor);
      if Unique(table) {
        assert Unique(table[1..]);
        forall j | 0 <= j < |rest| ensures rest[j].id != table[0].id {
          assert rest[j] in rest;
          var k :| 0 <= k < |table[1..]| && table[1..][k] == rest[j];
          assert table[k + 1].id != table[0].id;
        }
      }
    }
  }

  lemma {:induction false} InsertAre(r: Row, rows: seq<Row>)
    ensures forall x :: x in Insert(r, rows) <==> x == r || x in rows
    ensures |Insert(r, rows)| == |rows| + 1
    ensures Descending(rows) && (forall x :: x in rows ==> x.id != r.id) ==> Descending(Insert(r, rows))
  {
    if rows != [] {
      InsertAre(r, rows[1..]);
      assert rows == [rows[0]] + rows[1..];
      if Descending(rows) && forall x :: x in rows ==> x.id != r.id {
        assert Descending(rows[1..]);
        var rest := Insert(r, rows[1..]);
        if Below(r, rows[0]) {
          forall j | 0 <= j < |rest| ensures Below(rest[j], rows[0]) {
            assert rest[j] in rest;
            if rest[j] != r {
              var k :| 0 <= k < |rows[1..]| && rows[1..][k] == rest[j];
              assert Below(rows[k + 1], rows[0]);
            }
          }
        } else {
          assert rows[0] in rows;
          forall j | 0 <= j < |rows| ensures Below(rows[j], r) {
            assert j > 0 ==> Below(rows[j], rows[0]);
          }
        }
      }
    }
  }

  lemma {:induction false} OrderedAre(rows: seq<Row>)
    ensures forall r :: r in Ordered(rows) <==> r in rows
    ensures |Ordered(rows)| == |rows|
    ensures Unique(rows) ==> Descending(Ordered(rows))
  {
    if rows != [] {
      OrderedAre(rows[1..]);
      InsertAre(rows[0], Ordered(rows[1..]));
      assert rows == [rows[0]] + rows[1..];
      if Unique(rows) {
        assert Unique(rows[1..]);
        forall x | x in Ordered(rows[1..]) ensures x.id != rows[0].id {
          var k :| 0 <= k < |rows[1..]| && rows[1..][k] == x;
          assert rows[k + 1].id != rows[0].id;
        }
      }
    }
  }

  /** A page holds, in order, exactly the matching rows not past its own last one, and is full when it is not the last. */
  lemma PageIsExact(table: seq<Row>, cursor: Option<Row>, size: nat)
    requires Unique(table) && size >= 1
    ensures var p := PageOf(table, cursor, size);
            && Descending(p.items) && |p.items| <= size && (p.next.Some? ==> |p.items| == size)
            && (forall r :: r in p.items <==>
                  r in table && Past(cursor, r) && (p.next.Some? ==> !Past(p.next, r)))
            && (p.next.Some? ==> p.next.value in p.items && Past(cursor, p.next.value))
            && (p.next.Some? ==> exists r :: r in table && Past(p.next, r))
  {
    hide Matching, Ordered;
    MatchingAre(table, cursor);
    OrderedAre(Matching(table, cursor));
    var rows := Ordered(Matching(table, cursor));
    if |rows| > size {
      var last := rows[size - 1];
      assert last in rows[..size] && last in rows;
      assert rows == rows[..size] + rows[size..];
      forall r ensures r in rows[..size] <==> r in rows && !Below(r, last) {
        if r in rows {
          var k :| 0 <= k < |rows| && rows[k] == r;
          if k < size {
            assert rows[..size][k] == r;
          } else {
            assert Below(rows[k], rows[size - 1]);
          }
        }
      }
      assert Below(rows[size], last) && rows[size] in rows;
    }
  }

  // ---------- Following cursors over an unchanged table ----------

  function CountPast(table: seq<Row>, cursor: Option<Row>): nat {
    |Matching(table, cursor)|
  }

  lemma {:induction false} FewerPast(table: seq<Row>, cursor: Option<Row>, next: Row)
    requires Past(cursor, next)
    ensures |Matching(table, Some(next))| <= |Matching(table, cursor)|
    ensures next in table ==> |Matching(table, Some(next))| < |Matching(table, cursor)|
  {
    if table != [] {
      FewerPast(table[1..], cursor, next);
      assert table == [table[0]] + table[1..];
    }
  }

  /** Every page from a cursor on, one after another. */
  function AllPages(table: seq<Row>, cursor: Option<Row>, size: nat): seq<Row>
    requires Unique(table) && size >= 1
    decreases CountPast(table, cursor)
  {
    var p := PageOf(table, cursor, size);
    if p.next.None? then p.items
    else
      PageIsExact(table, cursor, size);
      FewerPast(table, cursor, p.next.value);
      p.items + AllPages(table, p.next, size)
  }

  lemma FirstIsIn(rows: seq<Row>)
    ensures rows != [] ==> rows[0] in rows
  {
  }

  lemma {:induction false} SameDescendingAreEqual(a: seq<Row>, b: seq<Row>)
    requires Descending(a) && Descending(b) && forall r :: r in a <==> r in b
    ensures a == b
  {
    FirstIsIn(b);
    if a != [] {
      assert a[0] in a && b != [];
      assert b[0] in b;
      var i :| 0 <= i < |b| && b[i] == a[0];
      var j :| 0 <= j < |a| && a[j] == b[0];
      assert a[0] == b[0];
      forall r ensures r in a[1..] <==> r in b[1..] {
        TailHas(a, r);
        TailHas(b, r);
      }
      SameDescendingAreEqual(a[1..], b[1..]);
    }
  }

  lemma TailHas(a: seq<Row>, r: Row)
    requires Descending(a) && a != []
    ensures r in a[1..] <==> r in a && r != a[0]
  {
    assert a == [a[0]] + a[1..];
    if r in a[1..] {
      var k :| 0 <= k < |a[1..]| && a[1..][k] == r;
      assert Below(a[k + 1], a[0]);
    }
  }

  lemma {:induction false} AllPagesAre(table: seq<Row>, cursor: Option<Row>, size: nat)
    requires Unique(table) && size >= 1
    ensures Descending(AllPages(table, cursor, size))
    ensures forall r :: r in AllPages(table, cursor, size) <==> r in table && Past(cursor, r)
    decreases CountPast(table, cursor)
  {
    var p := PageOf(table, cursor, size);
    PageIsExact(table, cursor, size);
    if p.next.Some? {
      FewerPast(table, cursor, p.next.value);
      AllPagesAre(table, p.next, size);
      var rest := AllPages(table, p.next, size);
      forall i, j | 0 <= i < |p.items| && 0 <= j < |rest| ensures Below(rest[j], p.items[i]) {
        assert p.items[i] in p.items && rest[j] in rest;
      }
    }
  }

  /** The pages of an unchanged table list every row, once, in order. */
  lemma PagesListTheTable(table: seq<Row>, size: nat)
    requires Unique(table) && size >= 1
    ensures AllPages(table, None, size) == Ordered(table)
  {
    AllPagesAre(table, None, size);
    OrderedAre(table);
    SameDescendingAreEqual(AllPages(table, None, size), Ordered(table));
  }

  // ---------- A table that changes between pages ----------

  /** Pages asked for one after another, each over the table as it then was. */
  ghost predicate Paging(tables: seq<seq<Row>>, pages: seq<Page>, size: nat) {
    && size >= 1 && |tables| == |pages|
    && (forall k :: 0 <= k < |tables| ==> Unique(tables[k]))
    && (forall k :: 0 <= k < |pages| - 1 ==> pages[k].next.Some?)
    && forall k :: 0 <= k < |pages| ==> pages[k] == PageOf(tables[k], CursorAt(pages, k), size)
  }

  function CursorAt(pages: seq<Page>, k: int): Option<Row>
    requires 0 <= k <= |pages|
  {
    if k == 0 then None else pages[k - 1].next
  }

  lemma {:induction false} CursorsDescend(tables: seq<seq<Row>>, pages: seq<Page>, size: nat, i: nat, j: nat, r: Row)
    requires Paging(tables, pages, size) && i <= j < |pages| && Past(CursorAt(pages, j), r)
    ensures Past(CursorAt(pages, i), r)
    decreases j
  {
    hide PageOf, Unique;
    if i < j {
      PageIsExact(tables[j - 1], CursorAt(pages, j - 1), size);
      assert pages[j - 1] == PageOf(tables[j - 1], CursorAt(pages, j - 1), size);
      CursorsDescend(tables, pages, size, i, j - 1, r);
    }
  }

  /** A row that stays put is on the one page whose cursors enclose it, whatever else comes and goes. */
  lemma StayingRowIsOnOnePage(tables: seq<seq<Row>>, pages: seq<Page>, size: nat, r: Row, i: nat, j: nat)
    requires Paging(tables, pages, size) && i < j < |pages|
    ensures !(r in pages[i].items && r in pages[j].items)
  {
    hide PageOf, Unique, Below, Descending;
    PageIsExact(tables[i], CursorAt(pages, i), size);
    PageIsExact(tables[j], CursorAt(pages, j), size);
    if r in pages[i].items && r in pages[j].items {
      CursorsDescend(tables, pages, size, i + 1, j, r);
    }
  }

  /** A row that only stays or sinks while pages are asked for, as it is at each of them. */
  ghost predicate Sinks(tables: seq<seq<Row>>, rs: seq<Row>) {
    && |rs| == |tables|
    && (forall k :: 0 <= k < |rs| ==> rs[k] in tables[k])
    && forall j, k :: 0 <= j < k < |rs| ==> NotAbove(rs[k], rs[j])
  }

  predicate NotAbove(a: Row, b: Row) {
    a == b || Below(a, b)
  }

  lemma {:induction false} SinkingRowIsReached(tables: seq<seq<Row>>, pages: seq<Page>, size: nat, rs: seq<Row>, n: nat)
    requires Paging(tables, pages, size) && 0 < n <= |pages| && Sinks(tables, rs)
    ensures (exists k :: 0 <= k < n && rs[k] in pages[k].items)
            || (pages[n - 1].next.Some? && Past(pages[n - 1].next, rs[n - 1]))
  {
    PageIsExact(tables[n - 1], CursorAt(pages, n - 1), size);
    if n > 1 {
      SinkingRowIsReached(tables, pages, size, rs, n - 1);
    }
    if rs[n - 1] in pages[n - 1].items {
      assert n - 1 < n;
    }
  }

  /** Paged to the end, a row that only stayed or sank was listed at least once. */
  lemma SinkingRowIsListed(tables: seq<seq<Row>>, pages: seq<Page>, size: nat, rs: seq<Row>)
    requires Paging(tables, pages, size) && pages != [] && pages[|pages| - 1].next.None? && Sinks(tables, rs)
    ensures exists k :: 0 <= k < |pages| && rs[k] in pages[k].items
  {
    hide PageOf, Unique, Below;
    SinkingRowIsReached(tables, pages, size, rs, |pages|);
  }

  lemma StayingRowIsReached(tables: seq<seq<Row>>, pages: seq<Page>, size: nat, r: Row, n: nat)
    requires Paging(tables, pages, size) && 0 < n <= |pages|
    requires forall k :: 0 <= k < |tables| ==> r in tables[k]
    ensures (exists k :: 0 <= k < n && r in pages[k].items) || (pages[n - 1].next.Some? && Past(pages[n - 1].next, r))
  {
    var rs := seq(|tables|, k requires 0 <= k < |tables| => r);
    SinkingRowIsReached(tables, pages, size, rs, n);
    if k :| 0 <= k < n && rs[k] in pages[k].items {
      assert r in pages[k].items;
    }
  }

  /** Paged to the end, every row that stayed in the table throughout was listed, and on one page only. */
  lemma StayingRowsAreListedOnce(tables: seq<seq<Row>>, pages: seq<Page>, size: nat, r: Row)
    requires Paging(tables, pages, size) && pages != [] && pages[|pages| - 1].next.None?
    requires forall k :: 0 <= k < |tables| ==> r in tables[k]
    ensures exists k :: 0 <= k < |pages| && r in pages[k].items
                        && forall j :: 0 <= j < |pages| && j != k ==> r !in pages[j].items
  {
    StayingRowIsReached(tables, pages, size, r, |pages|);
    var k :| 0 <= k < |pages| && r in pages[k].items;
    forall j | 0 <= j < |pages| && j != k ensures r !in pages[j].items {
      if j < k {
        StayingRowIsOnOnePage(tables, pages, size, r, j, k);
      } else {
        StayingRowIsOnOnePage(tables, pages, size, r, k, j);
      }
    }
  }

  // ---------- The two endpoints ----------

  const NOTIFICATION_PAGE: nat := 50
  const TRASH_PAGE: nat := 200

  datatype Notification = Notification(id: int, createdAt: int, readAt: Option<int>)

  function RowOf(n: Notification): Row {
    Row(if n.readAt.None? then 1 else 0, n.createdAt, n.id)
  }

  /** Marking a notification read sinks its row. */
  lemma ReadingSinks(before: Notification, after: Notification)
    requires WasRead(before, after)
    ensures Below(RowOf(after), RowOf(before))
  {
  }

  /** The same notification, unread before and read after. */
  predicate WasRead(before: Notification, after: Notification) {
    before.readAt.None? && after.readAt.Some? && after.id == before.id && after.createdAt == before.createdAt
  }

  /** One notification as it is at each page, marked read at some point or never. */
  ghost predicate OnlyRead(tables: seq<seq<Row>>, ns: seq<Notification>) {
    && |ns| == |tables|
    && (forall k :: 0 <= k < |ns| ==> RowOf(ns[k]) in tables[k])
    && forall j, k :: 0 <= j < k < |ns| ==> ns[k] == ns[j] || WasRead(ns[j], ns[k])
  }

  /** A notification that is only marked read while its pages are followed to the end is listed at least once. */
  lemma ReadNotificationIsListed(tables: seq<seq<Row>>, pages: seq<Page>, size: nat, ns: seq<Notification>)
    requires Paging(tables, pages, size) && pages != [] && pages[|pages| - 1].next.None? && OnlyRead(tables, ns)
    ensures exists k :: 0 <= k < |pages| && RowOf(ns[k]) in pages[k].items
  {
    var rs := seq(|ns|, k requires 0 <= k < |ns| => RowOf(ns[k]));
    forall j, k | 0 <= j < k < |ns| ensures NotAbove(rs[k], rs[j]) {
      assert ns[k] == ns[j] || WasRead(ns[j], ns[k]);
      if ns[k] != ns[j] {
        ReadingSinks(ns[j], ns[k]);
      }
    }
    SinkingRowIsListed(tables, pages, size, rs);
    var k :| 0 <= k < |pages| && rs[k] in pages[k].items;
  }

  predicate OlderThan(n: Notification, at: int, id: int) {
    n.createdAt < at || (n.createdAt == at && n.id < id)
  }

  /** The query's WHERE clause, section by section. */
  predicate AfterCursor(n: Notification, cursor: Option<(bool, int, int)>) {
    match cursor
    case None => true
    case Some((inUnread, at, id)) =>
      if inUnread then (n.readAt.None? && OlderThan(n, at, id)) || n.readAt.Some?
      else n.readAt.Some? && OlderThan(n, at, id)
  }

  function CursorRow(cursor: Option<(bool, int, int)>): Option<Row> {
    match cursor
    case None => None
    case Some((inUnread, at, id)) => Some(Row(if inUnread then 1 else 0, at, id))
  }

  function Rows(ns: seq<Notification>): seq<Row> {
    if ns == [] then [] else [RowOf(ns[0])] + Rows(ns[1..])
  }

  function Filtered(ns: seq<Notification>, cursor: Option<(bool, int, int)>): seq<Notification> {
    if ns == [] then []
    else (if AfterCursor(ns[0], cursor) then [ns[0]] else []) + Filtered(ns[1..], cursor)
  }

  lemma {:induction false} RowsAppend(a: seq<Notification>, b: seq<Notification>)
    ensures Rows(a + b) == Rows(a) + Rows(b)
  {
    if a == [] {
      assert a + b == b;
    } else {
      RowsAppend(a[1..], b);
      assert (a + b)[1..] == a[1..] + b;
    }
  }

  /** The two-part WHERE clause selects exactly the rows past the cursor in the listing's order. */
  lemma {:induction false} WhereIsPast(ns: seq<Notification>, cursor: Option<(bool, int, int)>)
    ensures Rows(Filtered(ns, cursor)) == Matching(Rows(ns), CursorRow(cursor))
  {
    if ns != [] {
      WhereIsPast(ns[1..], cursor);
      assert AfterCursor(ns[0], cursor) <==> Past(CursorRow(cursor), RowOf(ns[0]));
      RowsAppend(if AfterCursor(ns[0], cursor) then [ns[0]] else [], Filtered(ns[1..], cursor));
      assert [ns[0]][1..] == [];
      assert Rows(ns)[1..] == Rows(ns[1..]);
    }
  }

  method OrderRows(rows: seq<Row>) returns (out: seq<Row>)
    ensures out == Ordered(rows)
  {
    out := [];
    var i := |rows|;
    while i > 0
      invariant 0 <= i <= |rows|
      invariant out == Ordered(rows[i..])
    {
      i := i - 1;
      assert rows[i..][0] == rows[i] && rows[i..][1..] == rows[i + 1..];
      out := Insert(rows[i], out);
    }
    assert rows[0..] == rows;
  }

  /** Unread ones first, then newer ones, then higher ids. */
  predicate ListedAfter(n: Notification, unread: bool, at: int, id: int) {
    if n.readAt.None? != unread then unread
    else n.createdAt < at || (n.createdAt == at && n.id < id)
  }

  lemma {:induction false} RowsAre(ns: seq<Notification>)
    ensures |Rows(ns)| == |ns| && forall k :: 0 <= k < |ns| ==> Rows(ns)[k] == RowOf(ns[k])
  {
    if ns != [] {
      RowsAre(ns[1..]);
    }
  }

  lemma RowsAreUnique(ns: seq<Notification>)
    requires forall i, j :: 0 <= i < j < |ns| ==> ns[i].id != ns[j].id
    ensures Unique(Rows(ns))
  {
    RowsAre(ns);
  }

  /** A page of notifications, read off them: in order, those after the cursor and, if there are more, not after its last. */
  ghost predicate IsNotificationPage(ns: seq<Notification>, cursor: Option<(bool, int, int)>, page: Page) {
    && |page.items| <= 50 && (page.next.Some? ==> |page.items| == 50 && page.next == Some(page.items[49]))
    && (forall i, j :: 0 <= i < j < |page.items| ==> Below(page.items[j], page.items[i]))
    && (forall row :: row in page.items ==> exists n :: n in ns && row == Row(if n.readAt.None? then 1 else 0, n.createdAt, n.id))
    && forall n :: n in ns ==>
         (Row(if n.readAt.None? then 1 else 0, n.createdAt, n.id) in page.items <==>
          && (cursor.Some? ==> ListedAfter(n, cursor.value.0, cursor.value.1, cursor.value.2))
          && (page.next.Some? ==> !ListedAfter(n, page.next.value.section == 1, page.next.value.at, page.next.value.id)))
  }

  lemma {:induction false} PageOfNotifications(ns: seq<Notification>, cursor: Option<(bool, int, int)>, page: Page)
    requires forall i, j :: 0 <= i < j < |ns| ==> ns[i].id != ns[j].id
    requires page == PageOf(Rows(ns), CursorRow(cursor), NOTIFICATION_PAGE)
    ensures IsNotificationPage(ns, cursor, page)
  {
    hide PageOf, Rows;
    RowsAre(ns);
    RowsAreUnique(ns);
    PageIsExact(Rows(ns), CursorRow(cursor), NOTIFICATION_PAGE);
    NextIsLast(Rows(ns), CursorRow(cursor), NOTIFICATION_PAGE);
    forall row | row in page.items
      ensures exists n :: n in ns && row == Row(if n.readAt.None? then 1 else 0, n.createdAt, n.id)
    {
      var k :| 0 <= k < |Rows(ns)| && Rows(ns)[k] == row;
      assert ns[k] in ns;
    }
    forall n | n in ns ensures RowOf(n) in Rows(ns) {
      var k :| 0 <= k < |ns| && ns[k] == n;
      assert Rows(ns)[k] == RowOf(n);
    }
    if page.next.Some? {
      assert page.next.value in page.items;
    }
  }

  lemma NextIsLast(table: seq<Row>, cursor: Option<Row>, size: nat)
    requires size >= 1
    ensures var p := PageOf(table, cursor, size); p.next.Some? ==> |p.items| == size && p.next == Some(p.items[size - 1])
  {
  }

  /** `list_notifications`. */
  method ListNotifications(ns: seq<Notification>, cursor: Option<(bool, int, int)>) returns (page: Page)
    ensures page == PageOf(Rows(ns), CursorRow(cursor), NOTIFICATION_PAGE)
    ensures (forall i, j :: 0 <= i < j < |ns| ==> ns[i].id != ns[j].id) ==> IsNotificationPage(ns, cursor, page)
  {
    hide IsNotificationPage;
    if forall i, j :: 0 <= i < j < |ns| ==> ns[i].id != ns[j].id {
      PageOfNotifications(ns, cursor, PageOf(Rows(ns), CursorRow(cursor), NOTIFICATION_PAGE));
    }
    WhereIsPast(ns, cursor);
    var rows := OrderRows(Rows(Filtered(ns, cursor)));
    var next: Option<Row> := None;
    if |rows| > NOTIFICATION_PAGE {
      next := Some(rows[NOTIFICATION_PAGE - 1]);
      rows := rows[..NOTIFICATION_PAGE];
    }
    page := Page(rows, next);
  }

  datatype TrashedEvent = TrashedEvent(id: int, deletedAt: int)

  function TrashRows(es: seq<TrashedEvent>): seq<Row> {
    if es == [] then [] else [Row(0, es[0].deletedAt, es[0].id)] + TrashRows(es[1..])
  }

  /** `(deleted_at, id) < (before, before_id)`. */
  predicate DeletedBefore(e: TrashedEvent, cursor: Option<(int, int)>) {
    cursor.Some? ==> e.deletedAt < cursor.value.0 || (e.deletedAt == cursor.value.0 && e.id < cursor.value.1)
  }

  function TrashCursor(cursor: Option<(int, int)>): Option<Row> {
    match cursor
    case None => None
    case Some((before, beforeId)) => Some(Row(0, before, beforeId))
  }

  method TrashPast(es: seq<TrashedEvent>, cursor: Option<(int, int)>) returns (rows: seq<Row>)
    ensures rows == Matching(TrashRows(es), TrashCursor(cursor))
  {
    rows := [];
    var i := |es|;
    while i > 0
      invariant 0 <= i <= |es|
      invariant rows == Matching(TrashRows(es[i..]), TrashCursor(cursor))
    {
      i := i - 1;
      assert es[i..][0] == es[i] && es[i..][1..] == es[i + 1..];
      assert TrashRows(es[i..])[1..] == TrashRows(es[i + 1..]);
      if DeletedBefore(es[i], cursor) {
        rows := [Row(0, es[i].deletedAt, es[i].id)] + rows;
      }
    }
    assert es[0..] == es;
  }

  lemma {:induction false} TrashRowsAre(es: seq<TrashedEvent>)
    ensures |TrashRows(es)| == |es| && forall k :: 0 <= k < |es| ==> TrashRows(es)[k] == Row(0, es[k].deletedAt, es[k].id)
  {
    if es != [] {
      TrashRowsAre(es[1..]);
    }
  }

  /** A page of the trash, read off it: latest deleted first, the events before the cursor and, if there are more, not before its last. */
  ghost predicate IsTrashPage(es: seq<TrashedEvent>, cursor: Option<(int, int)>, page: Page) {
    && |page.items| <= 200 && (page.next.Some? ==> |page.items| == 200 && page.next == Some(page.items[199]))
    && (forall i, j :: 0 <= i < j < |page.items| ==> Below(page.items[j], page.items[i]))
    && (forall row :: row in page.items ==> exists e :: e in es && row == Row(0, e.deletedAt, e.id))
    && forall e :: e in es ==>
         (Row(0, e.deletedAt, e.id) in page.items <==>
          && (cursor.Some? ==> e.deletedAt < cursor.value.0 || (e.deletedAt == cursor.value.0 && e.id < cursor.value.1))
          && (page.next.Some? ==> e.deletedAt > page.next.value.at
                                  || (e.deletedAt == page.next.value.at && e.id >= page.next.value.id)))
  }

  lemma {:induction false} PageOfTrash(es: seq<TrashedEvent>, cursor: Option<(int, int)>, page: Page)
    requires forall i, j :: 0 <= i < j < |es| ==> es[i].id != es[j].id
    requires page == PageOf(TrashRows(es), TrashCursor(cursor), TRASH_PAGE)
    ensures IsTrashPage(es, cursor, page)
  {
    hide PageOf, TrashRows;
    TrashRowsAre(es);
    var rows := TrashRows(es);
    assert Unique(rows);
    PageIsExact(rows, TrashCursor(cursor), TRASH_PAGE);
    NextIsLast(rows, TrashCursor(cursor), TRASH_PAGE);
    forall row | row in page.items ensures exists e :: e in es && row == Row(0, e.deletedAt, e.id) {
      var k :| 0 <= k < |rows| && rows[k] == row;
      assert es[k] in es;
    }
    forall e | e in es ensures Row(0, e.deletedAt, e.id) in rows {
      var k :| 0 <= k < |es| && es[k] == e;
      assert rows[k] == Row(0, e.deletedAt, e.id);
    }
    if page.next.Some? {
      assert page.next.value in page.items;
    }
  }

  /** `event_trash`, over the events trashed when it is asked. */
  method EventTrash(es: seq<TrashedEvent>, cursor: Option<(int, int)>) returns (page: Page)
    ensures page == PageOf(TrashRows(es), TrashCursor(cursor), TRASH_PAGE)
    ensures (forall i, j :: 0 <= i < j < |es| ==> es[i].id != es[j].id) ==> IsTrashPage(es, cursor, page)
  {
    hide IsTrashPage;
    if forall i, j :: 0 <= i < j < |es| ==> es[i].id != es[j].id {
      PageOfTrash(es, cursor, PageOf(TrashRows(es), TrashCursor(cursor), TRASH_PAGE));
    }
    var past := TrashPast(es, cursor);
    var rows := OrderRows(past);
    var hasMore := |rows| > TRASH_PAGE;
    var items := if hasMore then rows[..TRASH_PAGE] else rows;
    page := Page(items, if hasMore && items != [] then Some(items[|items| - 1]) else None);
  }

  // ---------- Cursors as text ----------

  /** How instants and ids are written, and read back. */
  datatype Codec = Codec(
    showTime: int -> string, readTime: string -> Option<int>,
    showId: int -> string, readId: string -> Option<int>)

  ghost predicate Faithful(c: Codec) {
    && (forall t :: c.readTime(c.showTime(t)) == Some(t) && '|' !in c.showTime(t))
    && (forall i :: c.readId(c.showId(i)) == Some(i) && '|' !in c.showId(i))
  }

  function Split(s: string): (parts: seq<string>)
    ensures parts != []
  {
    if s == "" then [""]
    else
      var rest := Split(s[1..]);
      if s[0] == '|' then [""] + rest else [[s[0]] + rest[0]] + rest[1..]
  }

  /** `_encode_cursor`. */
  function Encode(c: Codec, n: Notification): string {
    (if n.readAt.None? then "u" else "r") + "|" + c.showTime(n.createdAt) + "|" + c.showId(n.id)
  }

  /** `_decode_cursor`: nothing for text no page ever handed out. */
  function Decode(c: Codec, s: string): Option<(bool, int, int)> {
    var parts := Split(s);
    if |parts| != 3 || (parts[0] != "u" && parts[0] != "r") then None
    else
      var at, id := c.readTime(parts[1]), c.readId(parts[2]);
      if at.None? || id.None? then None else Some((parts[0] == "u", at.value, id.value))
  }

  lemma {:induction false} SplitAtBar(a: string, b: string)
    requires '|' !in a
    ensures Split(a + "|" + b) == [a] + Split(b)
    ensures Split(a) == [a]
  {
    var s := a + "|" + b;
    if a == "" {
      assert s[0] == '|' && s[1..] == b;
    } else {
      SplitAtBar(a[1..], b);
      assert s[1..] == a[1..] + "|" + b;
      assert a == [a[0]] + a[1..];
    }
  }

  /** A cursor read back is the position of the row it was made from. */
  lemma CursorRoundTrip(c: Codec, n: Notification)
    requires Faithful(c)
    ensures CursorRow(Decode(c, Encode(c, n))) == Some(RowOf(n))
  {
    var section, at, id := if n.readAt.None? then "u" else "r", c.showTime(n.createdAt), c.showId(n.id);
    assert c.readTime(at) == Some(n.createdAt) && c.readId(id) == Some(n.id);
    SplitAtBar(section, at + "|" + id);
    SplitAtBar(at, id);
    SplitAtBar(id, "");
    assert Encode(c, n) == section + "|" + (at + "|" + id);
  }
}
