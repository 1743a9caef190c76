/** Keyset pagination of payments: `PaymentRepository.list_cursor`, the cursor text it
    prints, and the parsing of that text in the listing endpoint. */
module Keyset {
  import opened Common
  import opened Iso

  datatype Payment = Payment(id: string, createdAt: Stamp, status: string, outage: Option<string>, kind: string)

  datatype Filters = Filters(status: Option<string>, outage: Option<string>, kind: Option<string>)

  datatype Page = Page(items: seq<Payment>, nextCursor: Option<string>, hasMore: bool)

  /** What the endpoint hands to `list_cursor`: a date and an id, each possibly absent. */
  datatype Cursor = Cursor(date: Option<Stamp>, id: Option<string>)

  /** The primary key is unique and every row carries a real date. */
  predicate IsTable(t: seq<Payment>) {
    && (forall i, j :: 0 <= i < j < |t| ==> t[i].id != t[j].id)
    && forall i :: 0 <= i < |t| ==> t[i].createdAt.Valid()
  }

  // ---------------------------------------------------------------------------
  // The listing order: created_at descending, then id descending
  // ---------------------------------------------------------------------------

  /** p is listed before q: created later, or at the same time with the greater id. */
  predicate Precedes(p: Payment, q: Payment) {
    p.createdAt.Ticks() > q.createdAt.Ticks() || (p.createdAt.Ticks() == q.createdAt.Ticks() && TextLess(q.id, p.id))
  }

  predicate Descending(s: seq<Payment>) {
    forall i, j :: 0 <= i < j < |s| ==> Precedes(s[i], s[j])
  }

  /** In calendar terms: the newer payment comes first, and of two created at the same moment
      the one with the greater id. */
  lemma PrecedesIff(p: Payment, q: Payment)
    requires p.createdAt.Valid() && q.createdAt.Valid()
    ensures Precedes(p, q) <==>
              || Earlier(q.createdAt, p.createdAt)
              || (SameInstant(p.createdAt, q.createdAt) && TextLess(q.id, p.id))
  {
    TicksOrder(q.createdAt, p.createdAt);
  }

  lemma PrecedesTransitive(p: Payment, q: Payment, r: Payment)
    requires Precedes(p, q) && Precedes(q, r)
    ensures Precedes(p, r)
  {
    if TextLess(q.id, p.id) && TextLess(r.id, q.id) { TextLessTransitive(r.id, q.id, p.id); }
  }

  lemma PrecedesIrreflexive(p: Payment)
    ensures !Precedes(p, p)
  {
    TextLessIrreflexive(p.id);
  }

  lemma PrecedesTotal(p: Payment, q: Payment)
    requires p.id != q.id
    ensures Precedes(p, q) || Precedes(q, p)
  {
    TextLessTotal(p.id, q.id);
  }

  // ---------------------------------------------------------------------------
  // list_cursor
  // ---------------------------------------------------------------------------

  /** An absent or empty filter value selects everything. */
  predicate Wanted(want: Option<string>, have: Option<string>) {
    want.None? || want.value == "" || have == want
  }

  predicate Matches(f: Filters, p: Payment) {
    Wanted(f.status, Some(p.status)) && Wanted(f.outage, p.outage) && Wanted(f.kind, Some(p.kind))
  }

  /** The cursor only restricts the query when both parts are present and the id is not empty. */
  predicate Active(c: Cursor) {
    c.date.Some? && c.id.Some? && c.id.value != ""
  }

  /** The cursor filter of the query. */
  predicate After(date: Stamp, id: string, p: Payment) {
    p.createdAt.Ticks() < date.Ticks() || (p.createdAt.Ticks() == date.Ticks() && TextLess(p.id, id))
  }

  predicate Selected(f: Filters, c: Cursor, p: Payment) {
    Matches(f, p) && (Active(c) ==> After(c.date.value, c.id.value, p))
  }

  function Select(t: seq<Payment>, f: Filters, c: Cursor): seq<Payment> {
    if t == [] then []
    else if Selected(f, c, t[0]) then [t[0]] + Select(t[1..], f, c)
    else Select(t[1..], f, c)
  }

  function Insert(p: Payment, s: seq<Payment>): seq<Payment> {
    if s == [] || Precedes(p, s[0]) then [p] + s else [s[0]] + Insert(p, s[1..])
  }

  function Order(s: seq<Payment>): seq<Payment> {
    if s == [] then [] else Insert(s[0], Order(s[1..]))
  }

  function Query(t: seq<Payment>, f: Filters, c: Cursor): seq<Payment> {
    Order(Select(t, f, c))
  }

  function CursorText(p: Payment): string {
    IsoFormat(p.createdAt) + "," + p.id
  }

  function ListCursor(t: seq<Payment>, limit: nat, f: Filters, c: Cursor): Page {
    var rows := Query(t, f, c);
    var rows := rows[..Min(limit + 1, |rows|)];
    var hasMore := |rows| > limit;
    var items := rows[..Min(limit, |rows|)];
    Page(items, if hasMore && items != [] then Some(CursorText(items[|items| - 1])) else None, hasMore)
  }

  // ---------------------------------------------------------------------------
  // The endpoint's cursor parsing
  // ---------------------------------------------------------------------------

  /** `text.split(",", 1)`: the part before the first comma, and the rest if there is one. */
  function SplitOnce(text: string): (string, Option<string>) {
    if text == "" then ("", None)
    else if text[0] == ',' then ("", Some(text[1..]))
    else var (a, b) := SplitOnce(text[1..]); ([text[0]] + a, b)
  }

  /** None when the date part is not a date: the request fails. */
  function ParseCursor(text: string): Option<Cursor> {
    var (a, b) := SplitOnce(text);
    match FromIso(a)
    case None => None
    case Some(d) => Some(Cursor(Some(d), b))
  }

  lemma {:induction false} SplitOnceAtComma(a: string, b: string)
    requires ',' !in a
    ensures SplitOnce(a + "," + b) == (a, Some(b))
  {
    var t := a + "," + b;
    if a == "" {
      assert t[1..] == b;
    } else {
      assert t[1..] == a[1..] + "," + b;
      SplitOnceAtComma(a[1..], b);
      assert [a[0]] + a[1..] == a;
    }
  }

  /** The cursor text parses back to the pair it was printed from, whatever the id contains. */
  lemma CursorRoundTrip(p: Payment)
    requires p.createdAt.Valid()
    ensures ParseCursor(CursorText(p)) == Some(Cursor(Some(p.createdAt), Some(p.id)))
  {
    IsoHasNoComma(p.createdAt);
    SplitOnceAtComma(IsoFormat(p.createdAt), p.id);
    IsoRoundTrip(p.createdAt);
  }

  /** A cursor, character by character. */
  lemma CursorTextIs(p: Payment)
    requires p.createdAt == Stamp(2026, 1, 23, 4, 56, 7, 0, true) && p.id == "pay_1"
    ensures CursorText(p) == "2026-01-23T04:56:07+00:00,pay_1"
  {
    hide IsoFormat;
    IsoTexts();
  }

  // ---------------------------------------------------------------------------
  // The query returns exactly the selected rows, in order
  // ---------------------------------------------------------------------------

  lemma {:induction false} SelectMembers(t: seq<Payment>, f: Filters, c: Cursor)
    ensures forall p :: p in Select(t, f, c) <==> p in t && Selected(f, c, p)
  {
    if t != [] { SelectMembers(t[1..], f, c); }
  }

  lemma {:induction false} SelectIsTable(t: seq<Payment>, f: Filters, c: Cursor)
    requires IsTable(t)
    ensures IsTable(Select(t, f, c))
  {
    if t != [] {
      SelectIsTable(t[1..], f, c);
      SelectMembers(t[1..], f, c);
      var rest := Select(t[1..], f, c);
      forall j | 0 <= j < |rest| ensures rest[j].id != t[0].id {
        assert rest[j] in t[1..];
      }
    }
  }

  lemma {:induction false} InsertOrdered(p: Payment, s: seq<Payment>)
    requires Descending(s) && forall q :: q in s ==> q.id != p.id
    ensures Descending(Insert(p, s))
    ensures forall q :: q in Insert(p, s) <==> q == p || q in s
  {
    if s == [] {
    } else if Precedes(p, s[0]) {
      forall j | 0 <= j < |s| ensures Precedes(p, s[j]) {
        if j > 0 { PrecedesTransitive(p, s[0], s[j]); }
      }
    } else {
      InsertOrdered(p, s[1..]);
      PrecedesTotal(p, s[0]);
      var rest := Insert(p, s[1..]);
      forall j | 0 <= j < |rest| ensures Precedes(s[0], rest[j]) {
        assert rest[j] in rest;
      }
    }
  }

  lemma {:induction false} OrderOrdered(s: seq<Payment>)
    requires IsTable(s)
    ensures Descending(Order(s))
    ensures forall q :: q in Order(s) <==> q in s
  {
    if s != [] {
      OrderOrdered(s[1..]);
      InsertOrdered(s[0], Order(s[1..]));
    }
  }

  /** The selection said on the columns: every filter that is given and not empty must be met,
      and a cursor with a date and a non-empty id keeps the older rows, and of those created at
      its very moment the ones with a smaller id. */
  lemma SelectedIff(f: Filters, c: Cursor, p: Payment)
    requires p.createdAt.Valid() && (c.date.Some? ==> c.date.value.Valid())
    ensures Selected(f, c, p) <==>
              && (f.status.Some? && f.status.value != "" ==> f.status.value == p.status)
              && (f.outage.Some? && f.outage.value != "" ==> f.outage == p.outage)
              && (f.kind.Some? && f.kind.value != "" ==> f.kind.value == p.kind)
              && (c.date.Some? && c.id.Some? && c.id.value != "" ==>
                    || Earlier(p.createdAt, c.date.value)
                    || (SameInstant(p.createdAt, c.date.value) && TextLess(p.id, c.id.value)))
  {
    if c.date.Some? { TicksOrder(p.createdAt, c.date.value); }
  }

  /** The listing is newest first. */
  lemma ListingIsNewestFirst(t: seq<Payment>, f: Filters, c: Cursor)
    requires IsTable(t)
    ensures forall i, j :: 0 <= i < j < |Query(t, f, c)| ==>
              var p, q := Query(t, f, c)[i], Query(t, f, c)[j];
              || Earlier(q.createdAt, p.createdAt)
              || (SameInstant(p.createdAt, q.createdAt) && TextLess(q.id, p.id))
  {
    hide Query, Precedes, Earlier;
    var rows := Query(t, f, c);
    QueryIsExact(t, f, c);
    forall i, j | 0 <= i < j < |rows|
      ensures || Earlier(rows[j].createdAt, rows[i].createdAt)
              || (SameInstant(rows[i].createdAt, rows[j].createdAt) && TextLess(rows[j].id, rows[i].id))
    {
      assert rows[i] in rows && rows[j] in rows;
      assert Precedes(rows[i], rows[j]);
      PrecedesIff(rows[i], rows[j]);
    }
  }

  lemma QueryIsExact(t: seq<Payment>, f: Filters, c: Cursor)
    requires IsTable(t)
    ensures Descending(Query(t, f, c))
    ensures forall p :: p in Query(t, f, c) <==> p in t && Selected(f, c, p)
  {
    SelectMembers(t, f, c);
    SelectIsTable(t, f, c);
    OrderOrdered(Select(t, f, c));
  }

  /** A set of rows has only one descending listing. */
  lemma {:induction false} DescendingIsUnique(a: seq<Payment>, b: seq<Payment>)
    requires Descending(a) && Descending(b) && forall p :: p in a <==> p in b
    ensures a == b
  {
    assert a != [] ==> a[0] in b;
    assert b != [] ==> b[0] in a;
    if a != [] && b != [] {
      var i :| 0 <= i < |b| && b[i] == a[0];
      var j :| 0 <= j < |a| && a[j] == b[0];
      if i > 0 && j > 0 {
        PrecedesTransitive(a[0], b[0], a[0]);
        PrecedesIrreflexive(a[0]);
        assert false;
      }
      forall p | p in a[1..] ensures p in b[1..] { InTail(a, b, p); }
      forall p | p in b[1..] ensures p in a[1..] { InTail(b, a, p); }
      DescendingIsUnique(a[1..], b[1..]);
      assert a == [a[0]] + a[1..] && b == [b[0]] + b[1..];
    }
  }

  lemma InTail(a: seq<Payment>, b: seq<Payment>, p: Payment)
    requires Descending(a) && |a| > 0 && |b| > 0 && a[0] == b[0] && p in a[1..] && p in b
    ensures p in b[1..]
  {
    var k :| 1 <= k < |a| && a[k] == p;
    PrecedesIrreflexive(p);
    assert p != a[0];
    assert b == [b[0]] + b[1..];
  }

  // ---------------------------------------------------------------------------
  // Walks
  // ---------------------------------------------------------------------------

  const START := Cursor(None, None)

  function NextRequest(page: Page): Option<Cursor> {
    if page.nextCursor.None? then None else ParseCursor(page.nextCursor.value)
  }

  /** The tables that a reader met, one per request, oldest first. */
  datatype Visits = First(table: seq<Payment>) | Then(before: Visits, table: seq<Payment>)

  /** The answer to the last request: every request but the first carries the cursor of
      the page before it (an unreadable cursor, which `Walk` excludes, is read as none). */
  function LastPage(v: Visits, limit: nat, f: Filters): Page {
    match v
    case First(t) => ListCursor(t, limit, f, START)
    case Then(b, t) =>
      var c := NextRequest(LastPage(b, limit, f));
      ListCursor(t, limit, f, if c.Some? then c.value else START)
  }

  /** A reader goes on exactly while a page says that there is more. */
  predicate Walk(v: Visits, limit: nat, f: Filters) {
    v.Then? ==>
      && Walk(v.before, limit, f) && LastPage(v.before, limit, f).hasMore
      && NextRequest(LastPage(v.before, limit, f)).Some?
  }

  predicate Finished(v: Visits, limit: nat, f: Filters) {
    Walk(v, limit, f) && !LastPage(v, limit, f).hasMore
  }

  /** Everything the reader has received, in the order received. */
  function Emitted(v: Visits, limit: nat, f: Filters): seq<Payment> {
    match v
    case First(_) => LastPage(v, limit, f).items
    case Then(b, _) => Emitted(b, limit, f) + LastPage(v, limit, f).items
  }

  function Initial(v: Visits): seq<Payment> {
    match v
    case First(t) => t
    case Then(b, _) => Initial(b)
  }

  /** Rows are only ever inserted between the requests. */
  predicate Grows(v: Visits) {
    IsTable(v.table) && (v.Then? ==> Grows(v.before) && forall p :: p in v.before.table ==> p in v.table)
  }

  /** No page boundary met so far falls on a row whose id is the empty string. */
  predicate CursorsActive(v: Visits, limit: nat, f: Filters) {
    v.Then? ==>
      && CursorsActive(v.before, limit, f)
      && (NextRequest(LastPage(v.before, limit, f)).Some? ==> Active(NextRequest(LastPage(v.before, limit, f)).value))
  }

  /** Shape of one page over a query result. */
  lemma PageShape(t: seq<Payment>, limit: nat, f: Filters, c: Cursor)
    requires IsTable(t) && limit >= 1
    ensures var rows := Query(t, f, c);
            var page := ListCursor(t, limit, f, c);
            && page.hasMore == (|rows| > limit)
            && page.items == rows[..Min(limit, |rows|)]
            && (page.hasMore ==>
                  NextRequest(page) == Some(Cursor(Some(rows[limit - 1].createdAt), Some(rows[limit - 1].id))))
  {
    var rows := Query(t, f, c);
    var page := ListCursor(t, limit, f, c);
    var cut := rows[..Min(limit + 1, |rows|)];
    assert cut[..Min(limit, |cut|)] == rows[..Min(limit, |rows|)];
    if page.hasMore {
      QueryIsExact(t, f, c);
      assert rows[limit - 1] in rows;
      assert rows[limit - 1] in t;
      CursorRoundTrip(rows[limit - 1]);
    }
  }

  /** The part of a listing that one page shows, and what it leaves for later pages. */
  lemma Cut(rows: seq<Payment>, limit: nat)
    requires Descending(rows) && limit >= 1
    ensures var items := rows[..Min(limit, |rows|)];
            && Descending(items)
            && (forall p :: p in items ==> p in rows)
            && (forall p :: p in rows ==> p in items || (|rows| > limit && Precedes(items[|items| - 1], p)))
  {
    var items := rows[..Min(limit, |rows|)];
    forall p | p in rows ensures p in items || (|rows| > limit && Precedes(items[|items| - 1], p)) {
      var k :| 0 <= k < |rows| && rows[k] == p;
      if k < |items| { assert items[k] == p; }
    }
  }

  /** What the pages received so far have established. */
  ghost predicate Progress(first: seq<Payment>, latest: seq<Payment>, f: Filters, out: seq<Payment>, more: bool) {
    && Descending(out)
    && (more ==> out != [])
    && (forall p :: p in out ==> p in latest && Matches(f, p))
    && (forall p :: p in first && Matches(f, p) ==> p in out || (more && Precedes(out[|out| - 1], p)))
  }

  /** One more page, cut from the rows after the last one received, extends the progress. */
  lemma ExtendProgress(first: seq<Payment>, before: seq<Payment>, t: seq<Payment>, limit: nat, f: Filters,
                       out: seq<Payment>, rows: seq<Payment>)
    requires limit >= 1 && Descending(rows)
    requires forall p :: p in before ==> p in t
    requires forall p :: p in first ==> p in t
    requires Progress(first, before, f, out, true)
    requires forall p :: p in rows <==> p in t && Matches(f, p) && Precedes(out[|out| - 1], p)
    ensures Progress(first, t, f, out + rows[..Min(limit, |rows|)], |rows| > limit)
  {
    var last := out[|out| - 1];
    var items := rows[..Min(limit, |rows|)];
    Cut(rows, limit);
    forall i, j | 0 <= i < |out| && 0 <= j < |items| ensures Precedes(out[i], items[j]) {
      assert items[j] in rows;
      if i < |out| - 1 { PrecedesTransitive(out[i], last, items[j]); }
    }
  }

  lemma FirstProgress(t: seq<Payment>, limit: nat, f: Filters)
    requires limit >= 1 && IsTable(t)
    ensures var page := ListCursor(t, limit, f, START);
            && Progress(t, t, f, page.items, page.hasMore)
            && (page.hasMore ==> NextRequest(page) == Some(CursorAtEnd(page.items)))
  {
    QueryIsExact(t, f, START);
    PageShape(t, limit, f, START);
    Cut(Query(t, f, START), limit);
  }

  function CursorAtEnd(out: seq<Payment>): Cursor
    requires out != []
  {
    Cursor(Some(out[|out| - 1].createdAt), Some(out[|out| - 1].id))
  }

  lemma NextProgress(first: seq<Payment>, before: seq<Payment>, t: seq<Payment>,
                     limit: nat, f: Filters, out: seq<Payment>)
    requires limit >= 1 && IsTable(t)
    requires forall p :: p in before ==> p in t
    requires forall p :: p in first ==> p in t
    requires Progress(first, before, f, out, true) && Active(CursorAtEnd(out))
    ensures var page := ListCursor(t, limit, f, CursorAtEnd(out));
            && Progress(first, t, f, out + page.items, page.hasMore)
            && (page.hasMore ==> NextRequest(page) == Some(CursorAtEnd(out + page.items)))
  {
    hide ListCursor, NextRequest, Query, ParseCursor;
    var c := CursorAtEnd(out);
    QueryIsExact(t, f, c);
    PageShape(t, limit, f, c);
    ExtendProgress(first, before, t, limit, f, out, Query(t, f, c));
  }

  lemma {:induction false} WalkProgress(v: Visits, limit: nat, f: Filters)
    requires limit >= 1 && Grows(v) && Walk(v, limit, f) && CursorsActive(v, limit, f)
    ensures Progress(Initial(v), v.table, f, Emitted(v, limit, f), LastPage(v, limit, f).hasMore)
    ensures LastPage(v, limit, f).hasMore ==>
              NextRequest(LastPage(v, limit, f)) == Some(CursorAtEnd(Emitted(v, limit, f)))
    ensures forall p :: p in Initial(v) ==> p in v.table
  {
    hide ListCursor, NextRequest, Progress;
    match v
    case First(t) =>
      FirstProgress(t, limit, f);
    case Then(b, t) =>
      WalkProgress(b, limit, f);
      NextProgress(Initial(v), b.table, t, limit, f, Emitted(b, limit, f));
  }

  /** A page lists matching rows of its table, and its cursor names one of them. */
  lemma PageRows(v: Visits, limit: nat, f: Filters)
    requires limit >= 1 && IsTable(v.table)
    ensures forall p :: p in LastPage(v, limit, f).items ==> p in v.table && Matches(f, p)
    ensures LastPage(v, limit, f).hasMore ==>
              exists p ::
                p in v.table && NextRequest(LastPage(v, limit, f)) == Some(Cursor(Some(p.createdAt), Some(p.id)))
  {
    hide ListCursor, NextRequest, Query, Precedes;
    var c := if v.First? then START else
               var r := NextRequest(LastPage(v.before, limit, f)); if r.Some? then r.value else START;
    var rows := Query(v.table, f, c);
    QueryIsExact(v.table, f, c);
    PageShape(v.table, limit, f, c);
    Cut(rows, limit);
    assert LastPage(v, limit, f) == ListCursor(v.table, limit, f, c);
    if LastPage(v, limit, f).hasMore { assert rows[limit - 1] in rows; }
  }

  /** On a table without empty ids every cursor is active. */
  lemma {:induction false} NonEmptyIdsKeepCursorsActive(v: Visits, limit: nat, f: Filters)
    requires limit >= 1 && Grows(v) && Walk(v, limit, f) && forall p :: p in v.table ==> p.id != ""
    ensures CursorsActive(v, limit, f)
  {
    hide LastPage, NextRequest, IsTable;
    if v.Then? {
      NonEmptyIdsKeepCursorsActive(v.before, limit, f);
      PageRows(v.before, limit, f);
    }
  }

  /** After an inactive cursor the first matching row comes again, or a newer one before it. */
  lemma RestartIsOutOfOrder(t: seq<Payment>, limit: nat, f: Filters, c: Cursor, out: seq<Payment>)
    requires limit >= 1 && IsTable(t) && !Active(c)
    requires out != [] && out[0] in t && Matches(f, out[0])
    ensures !Descending(out + ListCursor(t, limit, f, c).items)
  {
    var rows, items := Query(t, f, c), ListCursor(t, limit, f, c).items;
    QueryIsExact(t, f, c);
    PageShape(t, limit, f, c);
    assert out[0] in rows;
    var k :| 0 <= k < |rows| && rows[k] == out[0];
    assert rows[0] == items[0] == (out + items)[|out|] && (out + items)[0] == out[0];
    if Precedes(out[0], rows[0]) {
      if k > 0 { PrecedesTransitive(out[0], rows[0], out[0]); }
      PrecedesIrreflexive(out[0]);
    }
  }

  lemma PrefixDescending(a: seq<Payment>, b: seq<Payment>)
    requires Descending(a + b)
    ensures Descending(a)
  {
    forall i, j | 0 <= i < j < |a| ensures Precedes(a[i], a[j]) {
      assert (a + b)[i] == a[i] && (a + b)[j] == a[j];
    }
  }

  lemma {:induction false} InOrderNeedsActive(v: Visits, limit: nat, f: Filters)
    requires limit >= 1 && Grows(v) && Walk(v, limit, f) && Descending(Emitted(v, limit, f))
    ensures CursorsActive(v, limit, f)
  {
    hide ListCursor, NextRequest, Precedes, Descending, IsTable;
    if v.Then? {
      var b, out := v.before, Emitted(v.before, limit, f);
      PrefixDescending(out, LastPage(v, limit, f).items);
      InOrderNeedsActive(b, limit, f);
      WalkProgress(b, limit, f);
      var c := NextRequest(LastPage(b, limit, f)).value;
      if !Active(c) { RestartIsOutOfOrder(v.table, limit, f, c, out); }
    }
  }

  /** Over a table that only grows, what a reader receives is strictly descending, so that
      nothing is repeated, exactly when no cursor it followed had an empty id. */
  lemma WalkInOrderIff(v: Visits, limit: nat, f: Filters)
    requires limit >= 1 && Grows(v) && Walk(v, limit, f)
    ensures Descending(Emitted(v, limit, f)) <==> CursorsActive(v, limit, f)
  {
    if CursorsActive(v, limit, f) { WalkProgress(v, limit, f); }
    if Descending(Emitted(v, limit, f)) { InOrderNeedsActive(v, limit, f); }
  }

  /** The part of a walk since the listing last started from the top. */
  function SinceRestart(v: Visits, limit: nat, f: Filters): Visits {
    match v
    case First(_) => v
    case Then(b, t) =>
      var c := NextRequest(LastPage(b, limit, f));
      if c.Some? && Active(c.value) then Then(SinceRestart(b, limit, f), t) else First(t)
  }

  lemma {:induction false} SinceRestartIsWalk(v: Visits, limit: nat, f: Filters)
    requires Grows(v) && Walk(v, limit, f)
    ensures var u := SinceRestart(v, limit, f);
            && u.table == v.table && LastPage(u, limit, f) == LastPage(v, limit, f)
            && Grows(u) && Walk(u, limit, f) && CursorsActive(u, limit, f)
            && (forall p :: p in Initial(v) ==> p in Initial(u) && p in v.table)
            && (forall p :: p in Emitted(u, limit, f) ==> p in Emitted(v, limit, f))
  {
    hide ListCursor, NextRequest, IsTable;
    if v.Then? {
      SinceRestartIsWalk(v.before, limit, f);
      var c := NextRequest(LastPage(v.before, limit, f)).value;
      if !Active(c) { RestartedPage(v.table, limit, f, c); }
    }
  }

  lemma RestartedPage(t: seq<Payment>, limit: nat, f: Filters, c: Cursor)
    requires !Active(c)
    ensures ListCursor(t, limit, f, c) == ListCursor(t, limit, f, START)
  {
    EmptyIdRestarts(t, f, c);
  }

  lemma {:induction false} EmitsMatchingRows(v: Visits, limit: nat, f: Filters)
    requires limit >= 1 && Grows(v)
    ensures forall p :: p in Emitted(v, limit, f) ==> p in v.table && Matches(f, p)
  {
    hide LastPage, IsTable;
    PageRows(v, limit, f);
    if v.Then? { EmitsMatchingRows(v.before, limit, f); }
  }

  /** A finished walk over a table that only grows loses no matching row that was there when
      it started, and receives matching rows only; it repeats nothing exactly when no cursor
      it followed had an empty id. */
  lemma WalkLosesNothing(v: Visits, limit: nat, f: Filters)
    requires limit >= 1 && Grows(v) && Finished(v, limit, f)
    ensures forall p :: p in Initial(v) && Matches(f, p) ==> p in Emitted(v, limit, f)
    ensures forall p :: p in Emitted(v, limit, f) ==> p in v.table && Matches(f, p)
    ensures Descending(Emitted(v, limit, f)) <==> CursorsActive(v, limit, f)
  {
    hide LastPage, Emitted, Precedes, Walk, Grows, CursorsActive;
    SinceRestartIsWalk(v, limit, f);
    WalkProgress(SinceRestart(v, limit, f), limit, f);
    EmitsMatchingRows(v, limit, f);
    WalkInOrderIff(v, limit, f);
  }

  // ---------------------------------------------------------------------------
  // Walks over a table that does not change
  // ---------------------------------------------------------------------------

  /** n + 1 requests to the same table. */
  function Repeat(t: seq<Payment>, n: nat): Visits {
    if n == 0 then First(t) else Then(Repeat(t, n - 1), t)
  }

  lemma {:induction false} RepeatGrows(t: seq<Payment>, n: nat)
    requires IsTable(t)
    ensures Grows(Repeat(t, n)) && Initial(Repeat(t, n)) == t && Repeat(t, n).table == t
  {
    if n > 0 { RepeatGrows(t, n - 1); }
  }

  /** A cursor at a row with an id resumes the listing right after that row. */
  lemma ResumesAfter(t: seq<Payment>, f: Filters, m: nat)
    requires IsTable(t) && 1 <= m <= |Query(t, f, START)| && Query(t, f, START)[m - 1].id != ""
    ensures var s := Query(t, f, START);
            Query(t, f, Cursor(Some(s[m - 1].createdAt), Some(s[m - 1].id))) == s[m..]
  {
    var s := Query(t, f, START);
    var c := Cursor(Some(s[m - 1].createdAt), Some(s[m - 1].id));
    QueryIsExact(t, f, START);
    QueryIsExact(t, f, c);
    TailMembers(s, m);
    DescendingIsUnique(Query(t, f, c), s[m..]);
  }

  lemma TailMembers(s: seq<Payment>, m: nat)
    requires Descending(s) && 1 <= m <= |s|
    ensures Descending(s[m..])
    ensures forall p :: p in s[m..] <==> p in s && Precedes(s[m - 1], p)
  {
    forall p | p in s && Precedes(s[m - 1], p) ensures p in s[m..] {
      var k :| 0 <= k < |s| && s[k] == p;
      PrecedesIrreflexive(p);
      if k < m - 1 { PrecedesTransitive(p, s[m - 1], p); }
      assert s[m..][k - m] == p;
    }
  }

  /** A cursor whose id is empty is ignored: the listing starts again. */
  lemma {:induction false} EmptyIdRestarts(t: seq<Payment>, f: Filters, c: Cursor)
    requires !Active(c)
    ensures Select(t, f, c) == Select(t, f, START)
  {
    if t != [] { EmptyIdRestarts(t[1..], f, c); }
  }

  /** The number of rows in n full pages. */
  function Rows(n: nat, limit: nat): nat {
    n * limit
  }

  lemma RowsStep(n: nat, limit: nat)
    ensures Rows(n + 1, limit) == Rows(n, limit) + limit
  {
  }

  lemma {:induction false} RowsGrow(i: nat, j: nat, limit: nat)
    requires i < j
    ensures Rows(i, limit) + limit <= Rows(j, limit)
    decreases j
  {
    RowsStep(j - 1, limit);
    if i < j - 1 { RowsGrow(i, j - 1, limit); }
  }

  /** The n-th page boundary of a listing falls on a row with an empty id, and rows follow it. */
  predicate StuckAt(s: seq<Payment>, limit: nat, n: nat) {
    0 < Rows(n, limit) < |s| && s[Rows(n, limit) - 1].id == ""
  }

  /** The page that starts at offset m of a listing. */
  predicate ShowsFrom(page: Page, s: seq<Payment>, limit: nat, m: nat) {
    && m <= |s|
    && page.items == s[m..Min(m + limit, |s|)]
    && page.hasMore == (m + limit < |s|)
    && (0 < m + limit < |s| ==>
          NextRequest(page) == Some(Cursor(Some(s[m + limit - 1].createdAt), Some(s[m + limit - 1].id))))
  }

  lemma PageIsSlice(t: seq<Payment>, limit: nat, f: Filters, c: Cursor, s: seq<Payment>, m: nat)
    requires IsTable(t) && limit >= 1 && m <= |s| && Query(t, f, c) == s[m..]
    ensures ShowsFrom(ListCursor(t, limit, f, c), s, limit, m)
  {
    PageShape(t, limit, f, c);
    assert s[m..][..Min(limit, |s[m..]|)] == s[m..Min(m + limit, |s|)];
  }

  /** After a page that shows from offset m the next one goes on ... */
  lemma PageResumes(t: seq<Payment>, limit: nat, f: Filters, page: Page, m: nat)
    requires IsTable(t) && limit >= 1 && ShowsFrom(page, Query(t, f, START), limit, m) && page.hasMore
    requires Query(t, f, START)[m + limit - 1].id != ""
    ensures NextRequest(page).Some? && Active(NextRequest(page).value)
    ensures ShowsFrom(ListCursor(t, limit, f, NextRequest(page).value), Query(t, f, START), limit, m + limit)
  {
    hide ListCursor, Query, ParseCursor;
    ResumesAfter(t, f, m + limit);
    PageIsSlice(t, limit, f, NextRequest(page).value, Query(t, f, START), m + limit);
  }

  /** ... unless the boundary row has an empty id: then the listing starts again. */
  lemma PageRestarts(t: seq<Payment>, limit: nat, f: Filters, page: Page, m: nat)
    requires IsTable(t) && limit >= 1 && ShowsFrom(page, Query(t, f, START), limit, m) && page.hasMore
    requires Query(t, f, START)[m + limit - 1].id == ""
    ensures NextRequest(page).Some?
    ensures ShowsFrom(ListCursor(t, limit, f, NextRequest(page).value), Query(t, f, START), limit, 0)
  {
    hide ListCursor, ParseCursor;
    var s := Query(t, f, START);
    EmptyIdRestarts(t, f, NextRequest(page).value);
    assert s[0..] == s;
    PageIsSlice(t, limit, f, NextRequest(page).value, s, 0);
  }

  lemma FirstShows(t: seq<Payment>, limit: nat, f: Filters)
    requires IsTable(t) && limit >= 1
    ensures ShowsFrom(ListCursor(t, limit, f, START), Query(t, f, START), limit, 0)
  {
    var s := Query(t, f, START);
    assert s[0..] == s;
    PageIsSlice(t, limit, f, START, s, 0);
  }

  lemma OnlyOneEmptyId(t: seq<Payment>, f: Filters, i: nat, j: nat)
    requires IsTable(t) && i < |Query(t, f, START)| && j < |Query(t, f, START)| && i != j
    requires Query(t, f, START)[i].id == ""
    ensures Query(t, f, START)[j].id != ""
  {
    var s := Query(t, f, START);
    QueryIsExact(t, f, START);
    assert s[i] in s && s[j] in s;
    if s[j].id == "" { PrecedesIrreflexive(s[i]); }
  }

  /** Up to the first stuck boundary, request number k shows page number k. */
  lemma {:induction false} GoesOn(t: seq<Payment>, limit: nat, f: Filters, k: nat)
    requires IsTable(t) && limit >= 1
    requires k > 0 ==> Rows(k, limit) < |Query(t, f, START)|
    requires forall i :: 0 < i <= k ==> !StuckAt(Query(t, f, START), limit, i)
    ensures Walk(Repeat(t, k), limit, f) && CursorsActive(Repeat(t, k), limit, f)
    ensures ShowsFrom(LastPage(Repeat(t, k), limit, f), Query(t, f, START), limit, Rows(k, limit))
  {
    hide ListCursor, Query, NextRequest, ShowsFrom;
    if k == 0 {
      FirstShows(t, limit, f);
    } else {
      RowsStep(k - 1, limit);
      GoesOn(t, limit, f, k - 1);
      OnStep(t, limit, f, k, LastPage(Repeat(t, k - 1), limit, f));
      RepeatStep(t, limit, f, k);
    }
  }

  lemma OnStep(t: seq<Payment>, limit: nat, f: Filters, k: nat, page: Page)
    requires IsTable(t) && limit >= 1 && k > 0 && Rows(k, limit) < |Query(t, f, START)|
    requires !StuckAt(Query(t, f, START), limit, k)
    requires ShowsFrom(page, Query(t, f, START), limit, Rows(k - 1, limit))
    ensures page.hasMore && NextRequest(page).Some? && Active(NextRequest(page).value)
    ensures ShowsFrom(ListCursor(t, limit, f, NextRequest(page).value), Query(t, f, START), limit, Rows(k, limit))
  {
    hide ListCursor, NextRequest, Query;
    RowsStep(k - 1, limit);
    PageResumes(t, limit, f, page, Rows(k - 1, limit));
  }

  /** With a stuck boundary after page b - 1, the number of the page that request k shows. */
  function RoundPage(b: nat, k: nat): (p: nat)
    requires b > 0
    ensures p < b
  {
    if k == 0 then 0 else NextRound(b, RoundPage(b, k - 1))
  }

  function NextRound(b: nat, p: nat): nat {
    if p + 1 == b then 0 else p + 1
  }

  /** At a stuck boundary every request, however many are made, shows an earlier page again. */
  lemma {:induction false} GoesRound(t: seq<Payment>, limit: nat, f: Filters, b: nat, k: nat)
    requires IsTable(t) && limit >= 1 && b > 0 && StuckAt(Query(t, f, START), limit, b)
    ensures ShowsFrom(LastPage(Repeat(t, k), limit, f), Query(t, f, START), limit, Rows(RoundPage(b, k), limit))
  {
    hide ListCursor, NextRequest, Query, ShowsFrom;
    if k == 0 {
      FirstShows(t, limit, f);
    } else {
      GoesRound(t, limit, f, b, k - 1);
      RoundStep(t, limit, f, b, RoundPage(b, k - 1), LastPage(Repeat(t, k - 1), limit, f));
      RepeatStep(t, limit, f, k);
    }
  }

  lemma NeverFinishes(t: seq<Payment>, limit: nat, f: Filters, b: nat, k: nat)
    requires IsTable(t) && limit >= 1 && StuckAt(Query(t, f, START), limit, b)
    ensures !Ends(t, limit, f, k)
  {
    hide ListCursor, Query, NextRequest;
    assert b > 0;
    GoesRound(t, limit, f, b, k);
    BoundaryId(t, limit, f, b, RoundPage(b, k));
  }

  /** The reader of a fixed table is done after k + 1 requests. */
  predicate Ends(t: seq<Payment>, limit: nat, f: Filters, k: nat) {
    Finished(Repeat(t, k), limit, f)
  }

  lemma RepeatStep(t: seq<Payment>, limit: nat, f: Filters, k: nat)
    requires k > 0 && NextRequest(LastPage(Repeat(t, k - 1), limit, f)).Some?
    ensures LastPage(Repeat(t, k), limit, f) ==
              ListCursor(t, limit, f, NextRequest(LastPage(Repeat(t, k - 1), limit, f)).value)
  {
  }

  lemma RoundStep(t: seq<Payment>, limit: nat, f: Filters, b: nat, p: nat, page: Page)
    requires IsTable(t) && limit >= 1 && StuckAt(Query(t, f, START), limit, b) && p < b
    requires ShowsFrom(page, Query(t, f, START), limit, Rows(p, limit))
    ensures page.hasMore && NextRequest(page).Some?
    ensures ShowsFrom(ListCursor(t, limit, f, NextRequest(page).value), Query(t, f, START),
                      limit, Rows(NextRound(b, p), limit))
  {
    hide ListCursor, NextRequest, Query;
    BoundaryId(t, limit, f, b, p);
    RowsStep(p, limit);
    if p + 1 == b {
      PageRestarts(t, limit, f, page, Rows(p, limit));
    } else {
      PageResumes(t, limit, f, page, Rows(p, limit));
    }
  }

  /** Of the boundaries up to a stuck one, only that one has an empty id. */
  lemma BoundaryId(t: seq<Payment>, limit: nat, f: Filters, b: nat, p: nat)
    requires IsTable(t) && limit >= 1 && StuckAt(Query(t, f, START), limit, b) && p < b
    ensures Rows(p, limit) + limit < |Query(t, f, START)|
    ensures Query(t, f, START)[Rows(p, limit) + limit - 1].id == "" <==> p + 1 == b
  {
    RowsGrow(p, b, limit);
    RowsStep(p, limit);
    if p + 1 != b {
      RowsGrow(p + 1, b, limit);
      OnlyOneEmptyId(t, f, Rows(b, limit) - 1, Rows(p + 1, limit) - 1);
    }
  }

  /** The number of the page that holds the last of n rows. */
  lemma {:induction false} LastPageNumber(n: nat, limit: nat) returns (k: nat)
    requires limit >= 1
    ensures n <= Rows(k, limit) + limit && (k > 0 ==> Rows(k, limit) < n)
  {
    if n <= limit {
      k := 0;
    } else {
      var j := LastPageNumber(n - limit, limit);
      k := j + 1;
      RowsStep(j, limit);
    }
  }

  /** On a table that does not change, following the cursors comes to an end exactly when
      no page boundary before the end falls on a row with an empty id. */
  lemma FixedWalkFinishesIff(t: seq<Payment>, limit: nat, f: Filters)
    requires IsTable(t) && limit >= 1
    ensures (exists k :: Ends(t, limit, f, k)) <==> !(exists b :: StuckAt(Query(t, f, START), limit, b))
  {
    var s := Query(t, f, START);
    if b :| StuckAt(s, limit, b) {
      forall k ensures !Ends(t, limit, f, k) {
        NeverFinishes(t, limit, f, b, k);
      }
    } else {
      var k := LastPageNumber(|s|, limit);
      GoesOn(t, limit, f, k);
      assert Ends(t, limit, f, k);
    }
  }

  /** Without a stuck boundary a reader of a fixed table never asks beyond its last page. */
  lemma {:induction false} StaysInside(t: seq<Payment>, limit: nat, f: Filters, n: nat)
    requires IsTable(t) && limit >= 1 && Walk(Repeat(t, n), limit, f)
    requires forall i :: !StuckAt(Query(t, f, START), limit, i)
    ensures n > 0 ==> Rows(n, limit) < |Query(t, f, START)|
  {
    hide ListCursor, Query, NextRequest;
    if n > 0 {
      StaysInside(t, limit, f, n - 1);
      GoesOn(t, limit, f, n - 1);
      RowsStep(n - 1, limit);
    }
  }

  /** A finished walk over a fixed table emits exactly the sorted, filtered table. */
  lemma FixedWalkIsTheListing(t: seq<Payment>, n: nat, limit: nat, f: Filters)
    requires IsTable(t) && limit >= 1 && Ends(t, limit, f, n)
    ensures Emitted(Repeat(t, n), limit, f) == Query(t, f, START)
  {
    hide ListCursor, Query, NextRequest, LastPage, Emitted, StuckAt, CursorsActive;
    forall b ensures !StuckAt(Query(t, f, START), limit, b) {
      if StuckAt(Query(t, f, START), limit, b) { NeverFinishes(t, limit, f, b, n); }
    }
    StaysInside(t, limit, f, n);
    GoesOn(t, limit, f, n);
    RepeatGrows(t, n);
    WalkLosesNothing(Repeat(t, n), limit, f);
    QueryIsExact(t, f, START);
    DescendingIsUnique(Emitted(Repeat(t, n), limit, f), Query(t, f, START));
  }

  /** A row with an empty id on a page boundary sends the reader round the first page for ever. */
  lemma EmptyIdLoops(n: nat)
    ensures var at := Stamp(2026, 1, 1, 0, 0, 0, 0, true);
            var t := [Payment("", at.(day := 2), "pending", None, "reward"),
                      Payment("pay_1", at, "pending", None, "reward")];
            IsTable(t) && !Ends(t, 1, Filters(None, None, None), n)
  {
    hide ListCursor, Query, NextRequest;
    var at := Stamp(2026, 1, 1, 0, 0, 0, 0, true);
    var p, q := Payment("", at.(day := 2), "pending", None, "reward"), Payment("pay_1", at, "pending", None, "reward");
    var t := [p, q];
    var f := Filters(None, None, None);
    QueryIsExact(t, f, START);
    assert Precedes(p, q);
    assert Selected(f, START, p) && Selected(f, START, q);
    DescendingIsUnique(Query(t, f, START), [p, q]);
    assert StuckAt(Query(t, f, START), 1, 1);
    NeverFinishes(t, 1, f, 1, n);
  }
}
