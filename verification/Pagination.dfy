/**
 Keyset pagination of app/db/repository.py over the (created_at, id) pair, and
 the offset form it must agree with. A table here is the set of rows that match
 the filter of the statement at the moment a page is read.
 */
module Pagination {
  import opened Prelude
  import opened RowOrders

  const MAX_PAGE_SIZE := 100
  const MAX_OFFSET_TOTAL := 10_000

  datatype CursorArg = NoCursor | Malformed | At(row: Row)

  datatype CursorPage = CursorPage(items: seq<Row>, next: Option<Row>, hasMore: bool)

  datatype OffsetPage = OffsetPage(items: seq<Row>, total: Option<nat>, page: nat, pageSize: nat)

  datatype PageError = BadLimit | MalformedCursor | OffsetCapped

  /** ORDER BY created_at DESC, id DESC. */
  ghost predicate Descending(s: seq<Row>) {
    Sorted(NoPrior, s)
  }

  ghost function SortDesc(rows: set<Row>): seq<Row> {
    SortBy(NoPrior, rows)
  }

  lemma SortFacts(rows: set<Row>)
    ensures |SortDesc(rows)| == |rows| && Descending(SortDesc(rows)) && SameRows(SortDesc(rows), rows)
  {
    SortByFacts(NoPrior, rows);
  }

  ghost function Take(s: seq<Row>, n: nat): seq<Row> {
    if |s| <= n then s else s[..n]
  }

  ghost function Drop(s: seq<Row>, n: nat): seq<Row> {
    if |s| <= n then [] else s[n..]
  }

  ghost function Below(table: set<Row>, cursor: Option<Row>): set<Row> {
    set r | r in table && (cursor.None? || Less(r, cursor.value))
  }

  /** The page after a decoded cursor: fetch limit + 1 rows, return limit of them. */
  ghost function PageAfter(table: set<Row>, cursor: Option<Row>, limit: nat): CursorPage {
    Cut(SortDesc(Below(table, cursor)), limit)
  }

  ghost function Cut(sorted: seq<Row>, limit: nat): CursorPage {
    var rows := Take(sorted, limit + 1);
    var items := Take(rows, limit);
    var hasMore := |rows| > limit;
    CursorPage(items, if hasMore && items != [] then Some(items[|items| - 1]) else None, hasMore)
  }

  ghost function PaginateCursor(table: set<Row>, cursor: CursorArg, limit: int): Result<CursorPage, PageError> {
    if !(1 <= limit <= MAX_PAGE_SIZE) then Err(BadLimit)
    else match cursor
      case NoCursor => Ok(PageAfter(table, None, limit))
      case Malformed => Err(MalformedCursor)
      case At(row) => Ok(PageAfter(table, Some(row), limit))
  }

  ghost function PaginateOffset(table: set<Row>, page: int, pageSize: int,
                                withTotal: bool): Result<OffsetPage, PageError> {
    if !(1 <= page) || !(1 <= pageSize <= MAX_PAGE_SIZE) then Err(BadLimit)
    else if (page - 1) * pageSize >= MAX_OFFSET_TOTAL then Err(OffsetCapped)
    else
      var offset: nat := (page - 1) * pageSize;
      Ok(OffsetPage(Take(Drop(SortDesc(table), offset), pageSize),
                    if withTotal then Some(|table|) else None, page, pageSize))
  }

  // ------------------------------------------------------------------
  // A scan while the table changes: tables[i] is what page i reads
  // ------------------------------------------------------------------

  ghost function Scan(tables: seq<set<Row>>, cursor: Option<Row>, limit: nat): seq<Row> {
    if tables == [] then []
    else
      var page := PageAfter(tables[0], cursor, limit);
      page.items + if page.next.Some? then Scan(tables[1..], page.next, limit) else []
  }

  /** How many of the tables the scan reads before a page says there is no more. */
  ghost function PagesRead(tables: seq<set<Row>>, cursor: Option<Row>, limit: nat): nat {
    if tables == [] then 0
    else
      var page := PageAfter(tables[0], cursor, limit);
      1 + if page.next.Some? then PagesRead(tables[1..], page.next, limit) else 0
  }

  /** The scan ends within the given tables, on a page without a next cursor. */
  ghost predicate Finishes(tables: seq<set<Row>>, cursor: Option<Row>, limit: nat) {
    tables != []
    && var page := PageAfter(tables[0], cursor, limit);
       page.next.None? || Finishes(tables[1..], page.next, limit)
  }

  ghost predicate Under(r: Row, cursor: Option<Row>) {
    cursor.None? || Less(r, cursor.value)
  }

  /** Cutting a list: its first rows, whether more follow, and the last row shown if so. */
  lemma CutFacts(sorted: seq<Row>, limit: nat)
    requires limit >= 1
    ensures var page := Cut(sorted, limit);
      && page.items == Take(sorted, limit)
      && (page.hasMore <==> |sorted| > limit)
      && page.next == if |sorted| > limit then Some(sorted[limit - 1]) else None
  {
  }

  /** A cut of a descending list keeps everything that is not below its next cursor. */
  lemma CutCovers(sorted: seq<Row>, limit: nat, r: Row)
    requires limit >= 1 && Descending(sorted)
    requires r in sorted && !(|sorted| > limit && Less(r, sorted[limit - 1]))
    ensures r in Take(sorted, limit)
  {
    var i :| 0 <= i < |sorted| && sorted[i] == r;
    assert Take(sorted, limit)[i] == r;
  }

  lemma CutIsSound(sorted: seq<Row>, limit: nat)
    requires Descending(sorted)
    ensures Descending(Take(sorted, limit)) && forall r | r in Take(sorted, limit) :: r in sorted
  {
  }

  /** One page: descending, below the cursor, and its next cursor is its last row. */
  lemma PageFacts(table: set<Row>, cursor: Option<Row>, limit: nat)
    requires limit >= 1
    ensures var page := PageAfter(table, cursor, limit);
      && Descending(page.items) && |page.items| <= limit
      && (forall r | r in page.items :: r in table && Under(r, cursor))
      && (page.next.Some? ==> page.items != [] && page.next.value == page.items[|page.items| - 1])
  {
    var below := Below(table, cursor);
    SortFacts(below);
    CutFacts(SortDesc(below), limit);
    CutIsSound(SortDesc(below), limit);
  }

  /** ... and it is complete down to that row. */
  lemma PageIsComplete(table: set<Row>, cursor: Option<Row>, limit: nat, r: Row)
    requires limit >= 1 && r in table && Under(r, cursor)
    ensures var page := PageAfter(table, cursor, limit);
      r in page.items || (page.next.Some? && Less(r, page.next.value))
  {
    var below := Below(table, cursor);
    SortFacts(below);
    assert r in below;
    CutFacts(SortDesc(below), limit);
    if !(|SortDesc(below)| > limit && Less(r, SortDesc(below)[limit - 1])) {
      CutCovers(SortDesc(below), limit, r);
    }
  }

  lemma JoinDescends(a: seq<Row>, b: seq<Row>)
    requires a != [] && Descending(a) && Descending(b)
    requires forall j | 0 <= j < |b| :: Less(b[j], a[|a| - 1])
    ensures Descending(a + b)
  {
    forall i, j | 0 <= i < j < |a + b| ensures Less((a + b)[j], (a + b)[i]) {
      if i < |a| <= j {
        assert Less(b[j - |a|], a[|a| - 1]);
        assert i < |a| - 1 ==> Less(a[|a| - 1], a[i]);
      }
    }
  }

  /** Pages of a scan never repeat a row: all of them together strictly descend. */
  lemma {:induction false} ScanDescends(tables: seq<set<Row>>, cursor: Option<Row>, limit: nat)
    requires limit >= 1
    ensures Descending(Scan(tables, cursor, limit))
    ensures forall r | r in Scan(tables, cursor, limit) :: Under(r, cursor)
  {
    if tables != [] {
      var page := PageAfter(tables[0], cursor, limit);
      PageFacts(tables[0], cursor, limit);
      if page.next.Some? {
        var rest := Scan(tables[1..], page.next, limit);
        ScanDescends(tables[1..], page.next, limit);
        assert forall j | 0 <= j < |rest| :: rest[j] in rest;
        JoinDescends(page.items, rest);
        assert page.next.value in page.items;
      } else {
        assert Scan(tables, cursor, limit) == page.items;
      }
    }
  }

  /** A row that matches at every page of a finished scan is returned by it. */
  lemma {:induction false} ScanCovers(tables: seq<set<Row>>, cursor: Option<Row>, limit: nat, r: Row)
    requires limit >= 1 && Finishes(tables, cursor, limit) && Under(r, cursor)
    requires forall i | 0 <= i < PagesRead(tables, cursor, limit) && i < |tables| :: r in tables[i]
    ensures r in Scan(tables, cursor, limit)
  {
    var page := PageAfter(tables[0], cursor, limit);
    assert r in tables[0];
    PageIsComplete(tables[0], cursor, limit, r);
    if r !in page.items {
      forall i | 0 <= i < PagesRead(tables[1..], page.next, limit) && i < |tables[1..]| ensures r in tables[1..][i] {
        assert tables[1..][i] == tables[i + 1];
      }
      ScanCovers(tables[1..], page.next, limit, r);
    }
  }

  lemma {:induction false} ScanIsSound(tables: seq<set<Row>>, cursor: Option<Row>, limit: nat, r: Row)
    requires limit >= 1 && r in Scan(tables, cursor, limit)
    ensures exists i :: 0 <= i < |tables| && r in tables[i]
  {
    var page := PageAfter(tables[0], cursor, limit);
    PageFacts(tables[0], cursor, limit);
    if r in page.items {
      assert r in tables[0];
    } else {
      ScanIsSound(tables[1..], page.next, limit, r);
      var i :| 0 <= i < |tables[1..]| && r in tables[1..][i];
      assert r in tables[i + 1];
    }
  }

  /**
   Whatever is inserted or deleted between pages: no row comes back twice, a row
   that matches throughout comes back exactly once, and nothing is invented.
   */
  lemma ScanUnderChange(tables: seq<set<Row>>, limit: nat, r: Row)
    requires limit >= 1 && Finishes(tables, None, limit)
    ensures Occurrences(Scan(tables, None, limit), r) <= 1
    ensures (forall i | 0 <= i < |tables| :: r in tables[i]) ==> Occurrences(Scan(tables, None, limit), r) == 1
    ensures (forall i | 0 <= i < |tables| :: r !in tables[i]) ==> Occurrences(Scan(tables, None, limit), r) == 0
  {
    ScanDescends(tables, None, limit);
    SortedOccursOnce(NoPrior, Scan(tables, None, limit), r);
    if forall i | 0 <= i < |tables| :: r in tables[i] {
      ScanCovers(tables, None, limit, r);
    }
    if r in Scan(tables, None, limit) {
      ScanIsSound(tables, None, limit, r);
    }
  }

  // ------------------------------------------------------------------
  // A fixed table: the pages are the sort, cut up
  // ------------------------------------------------------------------

  lemma TailIsBelow(s: seq<Row>, k: nat, r: Row)
    requires Descending(s) && 1 <= k <= |s|
    ensures r in s[k..] <==> r in s && Less(r, s[k - 1])
  {
    if r in s[k..] {
      var i :| 0 <= i < |s[k..]| && s[k..][i] == r;
      assert s[k + i] == r;
    }
    if r in s && Less(r, s[k - 1]) {
      var i :| 0 <= i < |s| && s[i] == r;
      assert s[k..][i - k] == r;
    }
  }

  /** After the row at position k - 1 of the sort, the rows below are the rest of it. */
  lemma SortAfter(table: set<Row>, k: nat)
    requires 1 <= k <= |SortDesc(table)|
    ensures SortDesc(Below(table, Some(SortDesc(table)[k - 1]))) == SortDesc(table)[k..]
  {
    var s := SortDesc(table);
    var below := Below(table, Some(s[k - 1]));
    SortFacts(table);
    SortFacts(below);
    forall r ensures r in SortDesc(below) <==> r in s[k..] {
      TailIsBelow(s, k, r);
      assert r in SortDesc(below) <==> r in below;
    }
    SortIsUnique(NoPrior, SortDesc(below), s[k..]);
  }

  /** The cursor that stands at a position of the sorted table. */
  ghost function CursorAt(table: set<Row>, start: nat): Option<Row>
    requires start <= |SortDesc(table)|
  {
    if start == 0 then None else Some(SortDesc(table)[start - 1])
  }

  /** The page read at a position of a fixed table is the cut of the sort from there. */
  lemma PageAt(table: set<Row>, limit: nat, start: nat)
    requires limit >= 1 && start <= |SortDesc(table)|
    ensures PageAfter(table, CursorAt(table, start), limit) == Cut(SortDesc(table)[start..], limit)
  {
    if start == 0 {
      assert Below(table, None) == table;
      assert SortDesc(table)[0..] == SortDesc(table);
    } else {
      SortAfter(table, start);
    }
  }

  /** The cursor a client of a fixed table holds before page k. */
  ghost function CursorBefore(table: set<Row>, limit: nat, k: nat): Option<Row> {
    if k == 0 then None else PageAfter(table, CursorBefore(table, limit, k - 1), limit).next
  }

  ghost function Position(k: nat, limit: nat): nat {
    if k == 0 then 0 else Position(k - 1, limit) + limit
  }

  lemma {:induction false} PositionGrows(k: nat, limit: nat)
    requires limit >= 1
    ensures Position(k, limit) >= k
  {
    if k > 0 { PositionGrows(k - 1, limit); }
  }

  lemma {:induction false} PositionIsProduct(k: nat, limit: nat)
    ensures Position(k, limit) == k * limit
  {
    if k > 0 { PositionIsProduct(k - 1, limit); }
  }

  lemma {:induction false} CursorBeforeIsAt(table: set<Row>, limit: nat, k: nat)
    requires limit >= 1 && (k == 0 || Position(k, limit) < |SortDesc(table)|)
    ensures CursorBefore(table, limit, k) == CursorAt(table, Position(k, limit))
  {
    if k > 0 {
      var start := Position(k - 1, limit);
      CursorBeforeIsAt(table, limit, k - 1);
      PageAt(table, limit, start);
      CutFacts(SortDesc(table)[start..], limit);
    }
  }

  /** A next cursor, sent back as the cursor argument. */
  function AsArg(cursor: Option<Row>): CursorArg {
    if cursor.None? then NoCursor else At(cursor.value)
  }

  lemma KeysetPage(table: set<Row>, limit: nat, k: nat)
    requires limit >= 1 && (k == 0 || Position(k, limit) < |SortDesc(table)|)
    ensures PageAfter(table, CursorBefore(table, limit, k), limit).items
         == Take(Drop(SortDesc(table), Position(k, limit)), limit)
  {
    CursorBeforeIsAt(table, limit, k);
    PageAt(table, limit, Position(k, limit));
    CutFacts(SortDesc(table)[Position(k, limit)..], limit);
  }

  /** Keyset page after keyset page of a fixed table is offset page after offset page, up to the offset cap. */
  lemma KeysetAgreesWithOffset(table: set<Row>, limit: nat, page: nat, withTotal: bool)
    requires 1 <= limit <= MAX_PAGE_SIZE && 1 <= page && (page == 1 || (page - 1) * limit < |table|)
    ensures var offset := PaginateOffset(table, page, limit, withTotal);
      var keyset := PaginateCursor(table, AsArg(CursorBefore(table, limit, page - 1)), limit);
      && keyset.Ok? && (offset.Ok? <==> (page - 1) * limit < MAX_OFFSET_TOTAL)
      && (offset.Ok? ==> offset.value.items == keyset.value.items)
  {
    PositionIsProduct(page - 1, limit);
    KeysetItems(table, limit, page - 1);
    OffsetPageAt(table, page, limit, Position(page - 1, limit), withTotal);
  }

  lemma KeysetItems(table: set<Row>, limit: nat, k: nat)
    requires 1 <= limit <= MAX_PAGE_SIZE && (k == 0 || Position(k, limit) < |table|)
    ensures var keyset := PaginateCursor(table, AsArg(CursorBefore(table, limit, k)), limit);
      keyset.Ok? && keyset.value.items == Take(Drop(SortDesc(table), Position(k, limit)), limit)
  {
    SortFacts(table);
    KeysetPage(table, limit, k);
    ArgPage(table, CursorBefore(table, limit, k), limit);
  }

  lemma ArgPage(table: set<Row>, cursor: Option<Row>, limit: nat)
    requires 1 <= limit <= MAX_PAGE_SIZE
    ensures PaginateCursor(table, AsArg(cursor), limit) == Ok(PageAfter(table, cursor, limit))
  {
  }

  lemma OffsetPageAt(table: set<Row>, page: nat, pageSize: nat, offset: nat, withTotal: bool)
    requires page >= 1 && 1 <= pageSize <= MAX_PAGE_SIZE && (page - 1) * pageSize == offset
    ensures var r := PaginateOffset(table, page, pageSize, withTotal);
      && (r.Ok? <==> offset < MAX_OFFSET_TOTAL)
      && (r.Ok? ==> r.value.items == Take(Drop(SortDesc(table), offset), pageSize))
  {
  }

  ghost function Repeat(table: set<Row>, n: nat): (tables: seq<set<Row>>)
    ensures |tables| == n && forall i | 0 <= i < n :: tables[i] == table
  {
    seq(n, _ => table)
  }

  type Pages = Option<Row> -> CursorPage

  /** What a client collects by following next cursors for at most n pages. */
  ghost function Collect(page: Pages, cursor: Option<Row>, n: nat): seq<Row>
    decreases n
  {
    if n == 0 then []
    else
      var p := page(cursor);
      p.items + if p.next.Some? then Collect(page, p.next, n - 1) else []
  }

  ghost function CursorIn(s: seq<Row>, start: nat): Option<Row>
    requires start <= |s|
  {
    if start == 0 then None else Some(s[start - 1])
  }

  /** Position n is a whole number of pages from the start. */
  ghost predicate PageEnd(n: nat, limit: nat)
    requires limit >= 1
  {
    n == 0 || (n >= limit && PageEnd(n - limit, limit))
  }

  /** The whole numbers of pages are the positions k * limit. */
  lemma {:induction false} PageEndIff(n: nat, limit: nat)
    requires limit >= 1
    ensures PageEnd(n, limit) <==> exists k: nat :: n == Position(k, limit)
  {
    if PageEnd(n, limit) {
      if n == 0 {
        assert n == Position(0, limit);
      } else {
        PageEndIff(n - limit, limit);
        var k: nat :| n - limit == Position(k, limit);
        assert n == Position(k + 1, limit);
      }
    }
    if k: nat :| n == Position(k, limit) { PositionIsPageEnd(k, limit); }
  }

  lemma {:induction false} PositionIsPageEnd(k: nat, limit: nat)
    requires limit >= 1
    ensures PageEnd(Position(k, limit), limit)
  {
    if k > 0 { PositionIsPageEnd(k - 1, limit); }
  }

  // ------------------------------------------------------------------
  // Pages that follow a list
  // ------------------------------------------------------------------

  /** The page after position n of the list holds its next rows, and points on behind them if there are more. */
  ghost predicate Serves(page: Pages, s: seq<Row>, limit: nat, n: nat) {
    n <= |s|
    && var p := page(CursorIn(s, n));
       if n + limit < |s| then p.items == s[n..n + limit] && p.next == CursorIn(s, n + limit)
       else p.items == s[n..] && p.next.None?
  }

  ghost predicate ServesToTheEnd(page: Pages, s: seq<Row>, limit: nat)
    requires limit >= 1
  {
    forall m: nat {:trigger Serves(page, s, limit, m)} | (m == 0 || m < |s|) && PageEnd(m, limit) ::
      Serves(page, s, limit, m)
  }

  lemma {:induction false} CollectsTheRest(page: Pages, s: seq<Row>, limit: nat, start: nat, n: nat)
    requires limit >= 1 && PageEnd(start, limit) && (start == 0 || start < |s|) && n >= 1
    requires |s| <= start + Position(n, limit) && ServesToTheEnd(page, s, limit)
    ensures Collect(page, CursorIn(s, start), n) == s[start..]
    decreases n
  {
    CollectsOnePage(page, s, limit, start, n);
    if start + limit < |s| {
      NextPageEnd(start, n, limit);
      CollectsTheRest(page, s, limit, start + limit, n - 1);
      JoinTail(s, start, start + limit, Collect(page, CursorIn(s, start), n));
    }
  }

  /** One page further on there is one page less to go. */
  lemma NextPageEnd(start: nat, n: nat, limit: nat)
    requires limit >= 1 && n >= 1 && PageEnd(start, limit)
    ensures PageEnd(start + limit, limit)
    ensures Position(n, limit) == Position(n - 1, limit) + limit
    ensures n == 1 ==> Position(n - 1, limit) == 0
  {
  }

  lemma CollectsOnePage(page: Pages, s: seq<Row>, limit: nat, start: nat, n: nat)
    requires limit >= 1 && n >= 1 && PageEnd(start, limit) && (start == 0 || start < |s|)
    requires ServesToTheEnd(page, s, limit)
    ensures Collect(page, CursorIn(s, start), n)
         == if start + limit < |s| then s[start..start + limit] + Collect(page, CursorIn(s, start + limit), n - 1)
            else s[start..]
  {
    assert Serves(page, s, limit, start);
  }

  lemma JoinTail(s: seq<Row>, i: nat, j: nat, scan: seq<Row>)
    requires i <= j <= |s| && scan == s[i..j] + s[j..]
    ensures scan == s[i..]
  {
  }

  lemma CutServes(page: Pages, s: seq<Row>, limit: nat, n: nat)
    requires limit >= 1 && n <= |s| && page(CursorIn(s, n)) == Cut(s[n..], limit)
    ensures Serves(page, s, limit, n)
  {
    CutFacts(s[n..], limit);
  }

  ghost function FixedPages(table: set<Row>, limit: nat): Pages {
    (cursor: Option<Row>) => PageAfter(table, cursor, limit)
  }

  /** Scanning a table that does not change is following its cursors. */
  lemma {:induction false} ScanIsCollect(table: set<Row>, limit: nat, cursor: Option<Row>, n: nat)
    ensures Scan(Repeat(table, n), cursor, limit) == Collect(FixedPages(table, limit), cursor, n)
    decreases n
  {
    if n > 0 {
      assert Repeat(table, n)[1..] == Repeat(table, n - 1);
      ScanIsCollect(table, limit, PageAfter(table, cursor, limit).next, n - 1);
    }
  }

  lemma FixedServes(table: set<Row>, limit: nat, m: nat)
    requires limit >= 1 && m <= |SortDesc(table)|
    ensures Serves(FixedPages(table, limit), SortDesc(table), limit, m)
  {
    PageAt(table, limit, m);
    CutServes(FixedPages(table, limit), SortDesc(table), limit, m);
  }

  lemma FixedPage(table: set<Row>, limit: nat, start: nat)
    requires limit >= 1 && start <= |SortDesc(table)|
    ensures PageAfter(table, CursorAt(table, start), limit).next
         == if start + limit < |SortDesc(table)| then CursorAt(table, start + limit) else None
  {
    FixedServes(table, limit, start);
  }

  lemma PositionStep(n: nat, limit: nat)
    requires n >= 1
    ensures Position(n, limit) == Position(n - 1, limit) + limit && (n == 1 ==> Position(n - 1, limit) == 0)
  {
  }

  lemma {:induction false} ScanFinishes(table: set<Row>, limit: nat, start: nat, n: nat)
    requires limit >= 1 && n >= 1 && start <= |SortDesc(table)| <= start + Position(n, limit)
    ensures Finishes(Repeat(table, n), CursorAt(table, start), limit)
    decreases n
  {
    FixedPage(table, limit, start);
    assert Repeat(table, n)[1..] == Repeat(table, n - 1);
    if start + limit < |SortDesc(table)| {
      PositionStep(n, limit);
      ScanFinishes(table, limit, start + limit, n - 1);
    }
  }

  /** On a fixed table the scan ends within any number of pages that can hold it, and is the sort. */
  lemma FixedScanIsTheSort(table: set<Row>, limit: nat, pages: nat)
    requires limit >= 1 && pages >= 1 && pages * limit >= |table|
    ensures Finishes(Repeat(table, pages), None, limit)
    ensures Scan(Repeat(table, pages), None, limit) == SortDesc(table)
  {
    SortFacts(table);
    PositionIsProduct(pages, limit);
    ScanFinishes(table, limit, 0, pages);
    forall m: nat | m <= |SortDesc(table)| ensures Serves(FixedPages(table, limit), SortDesc(table), limit, m) {
      FixedServes(table, limit, m);
    }
    CollectsTheRest(FixedPages(table, limit), SortDesc(table), limit, 0, pages);
    ScanIsCollect(table, limit, None, pages);
    assert SortDesc(table)[0..] == SortDesc(table);
  }

  // ------------------------------------------------------------------
  // One page
  // ------------------------------------------------------------------

  /** The row comes before the other in every listing: it is newer or, of two equally new, has the greater id. */
  predicate Newer(a: Row, b: Row) {
    a.createdAt > b.createdAt || (a.createdAt == b.createdAt && a.id > b.id)
  }

  /** A page shows, newest first, rows of the table behind the cursor, as many as asked for if there are so many. */
  lemma PageShows(table: set<Row>, cursor: CursorArg, limit: int)
    ensures var r := PaginateCursor(table, cursor, limit);
      && (r.Ok? <==> 1 <= limit <= 100 && cursor != Malformed)
      && (r.Ok? ==>
            var behind := set row | row in table && (cursor.At? ==> Newer(cursor.row, row));
            && |r.value.items| == (if |behind| < limit then |behind| else limit)
            && (forall row | row in r.value.items :: row in behind)
            && (forall i, j | 0 <= i < j < |r.value.items| :: Newer(r.value.items[i], r.value.items[j]))
            && (r.value.hasMore <==> |behind| > limit)
            && r.value.next == if |behind| > limit then Some(r.value.items[limit - 1]) else None)
  {
    if 1 <= limit <= 100 && cursor != Malformed {
      var at := if cursor.At? then Some(cursor.row) else None;
      assert Below(table, at) == set row | row in table && (cursor.At? ==> Newer(cursor.row, row));
      SortFacts(Below(table, at));
      CutFacts(SortDesc(Below(table, at)), limit);
      CutIsSound(SortDesc(Below(table, at)), limit);
    }
  }

  /** An offset page is refused beyond 10000 rows; it knows its number and, if asked, how many rows there are. */
  lemma OffsetPageSays(table: set<Row>, page: int, pageSize: int, withTotal: bool)
    ensures var r := PaginateOffset(table, page, pageSize, withTotal);
      && (r.Ok? <==> 1 <= page && 1 <= pageSize <= 100 && (page - 1) * pageSize < 10000)
      && (r.Ok? ==> r.value.page == page && r.value.pageSize == pageSize
                    && r.value.total == if withTotal then Some(|table|) else None)
  {
  }
}
