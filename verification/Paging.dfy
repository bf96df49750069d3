/** Keyset pages of the stores and the permission-filtered, scan-limited pages that the MCP tools build on them. */
module Paging {
  import opened Prelude

  datatype Row = Row(id: string, root: string, name: string)

  const PAGE_LIMIT := 50
  const SCAN_LIMIT := 500
  const MAX_ID := 128

  predicate IdentifierChar(c: char) {
    'a' <= c <= 'z' || 'A' <= c <= 'Z' || '0' <= c <= '9' || c == '_' || c == '-'
  }

  /** An empty cursor starts at the beginning; any other must look like an identifier of the right kind. */
  predicate ValidCursor(prefix: string, cursor: string) {
    cursor == "" || (prefix <= cursor && |cursor| <= MAX_ID && forall c <- cursor :: IdentifierChar(c))
  }

  /** A table in primary key order. */
  ghost predicate Catalog(rows: seq<Row>, prefix: string) {
    && (forall i, j :: 0 <= i < j < |rows| ==> Less(rows[i].id, rows[j].id))
    && (forall i :: 0 <= i < |rows| ==> rows[i].id != "" && ValidCursor(prefix, rows[i].id))
  }

  /** How many rows a query with id > cursor passes over. */
  function Position(rows: seq<Row>, cursor: string): (p: nat)
    ensures p <= |rows|
  {
    if rows == [] || Less(cursor, rows[0].id) then 0 else 1 + Position(rows[1..], cursor)
  }

  lemma {:induction false} PositionOf(rows: seq<Row>, prefix: string, k: nat)
    requires Catalog(rows, prefix) && k < |rows|
    ensures Position(rows, rows[k].id) == k + 1
  {
    LessIrreflexive(rows[k].id);
    if k == 0 {
      if |rows| > 1 { assert Less(rows[0].id, rows[1].id); }
      PositionStops(rows[1..], rows[0].id);
    } else {
      LessAsymmetric(rows[0].id, rows[k].id);
      PositionOf(rows[1..], prefix, k - 1);
    }
  }

  /** Whether or not the row of a cursor still exists, a query passes over exactly the rows up to it. */
  lemma {:induction false} PositionMeans(rows: seq<Row>, prefix: string, cursor: string, k: nat)
    requires Catalog(rows, prefix) && k < |rows|
    ensures k < Position(rows, cursor) <==> LessEq(rows[k].id, cursor)
  {
    if Less(cursor, rows[0].id) {
      if k > 0 { LessTransitive(cursor, rows[0].id, rows[k].id); }
      LessAsymmetric(cursor, rows[k].id);
    } else {
      LessTotal(cursor, rows[0].id);
      if k > 0 { PositionMeans(rows[1..], prefix, cursor, k - 1); }
    }
  }

  lemma PositionStops(rows: seq<Row>, cursor: string)
    requires rows != [] ==> Less(cursor, rows[0].id)
    ensures Position(rows, cursor) == 0
  {}

  lemma PositionOfStart(rows: seq<Row>, prefix: string)
    requires Catalog(rows, prefix)
    ensures Position(rows, "") == 0
  {
    if rows != [] { assert |rows[0].id| > 0; }
  }

  // ------------------------------------------------------------------ the stores

  /** The store's page size: a default for a missing limit, and a cap. */
  function Clamped(limit: int, fallback: nat, cap: nat): nat {
    var n := if limit <= 0 then fallback else limit;
    if n > cap then cap else n
  }

  /** A page size within the cap is used as asked, a missing one is the default, a larger one is the cap. */
  lemma ClampedMeans(limit: int, fallback: nat, cap: nat)
    requires 1 <= fallback <= cap
    ensures 1 <= Clamped(limit, fallback, cap) <= cap
    ensures 1 <= limit <= cap ==> Clamped(limit, fallback, cap) == limit
    ensures limit <= 0 ==> Clamped(limit, fallback, cap) == fallback
    ensures limit > cap ==> Clamped(limit, fallback, cap) == cap
  {}

  function Until(rows: seq<Row>, p: nat, n: nat): nat {
    if p + n < |rows| then p + n else |rows|
  }

  /** One page of a store: rows after the cursor, and the last id of the page exactly when more rows follow. */
  method List(rows: seq<Row>, cursor: string, requested: int, fallback: nat, cap: nat) returns (items: seq<Row>, next: Option<string>)
    requires fallback >= 1 && cap >= 1
    ensures var p, n := Position(rows, cursor), Clamped(requested, fallback, cap);
      && items == rows[p..Until(rows, p, n)]
      && next == if p + n < |rows| then Some(rows[p + n - 1].id) else None
  {
    var limit := Clamped(requested, fallback, cap);
    var p := Position(rows, cursor);
    var selected := rows[p..Until(rows, p, limit + 1)];
    items := [];
    for i := 0 to |selected|
      invariant items == selected[..i] && i <= limit
    {
      if |items| == limit {
        return items, Some(items[|items| - 1].id);
      }
      items := items + [selected[i]];
    }
    next := None;
  }

  // --------------------------------------------------------- the filtered scan

  /** From row p: stop after limit kept rows, after budget rows, or at the end.  Gives the kept rows and the stop. */
  function Scan(rows: seq<Row>, p: nat, limit: nat, budget: nat, keep: Row -> bool): (r: (seq<Row>, nat))
    requires p <= |rows|
    ensures p <= r.1 <= |rows| && (p < |rows| && limit > 0 && budget > 0 ==> p < r.1)
    decreases |rows| - p
  {
    if p == |rows| || limit == 0 || budget == 0 then ([], p)
    else if keep(rows[p]) then
      var rest := Scan(rows, p + 1, limit - 1, budget - 1, keep);
      ([rows[p]] + rest.0, rest.1)
    else Scan(rows, p + 1, limit, budget - 1, keep)
  }

  datatype Page = Page(items: seq<Row>, next: Option<string>)

  /** The page a client should get, whatever pages the store is read in. */
  function PageFrom(rows: seq<Row>, p: nat, limit: nat, keep: Row -> bool): Page
    requires p <= |rows| && limit >= 1
  {
    var (items, stop) := Scan(rows, p, limit, SCAN_LIMIT, keep);
    Page(items, if stop < |rows| then Some(rows[stop - 1].id) else None)
  }

  function CursorOf(next: Option<string>): string {
    match next case None => "" case Some(c) => c
  }

  function Least(a: int, b: int): int {
    if a < b then a else b
  }

  /** Where the scan stands: done rows read, items kept so far, and the rest of the scan still to come. */
  ghost predicate Midway(rows: seq<Row>, start: nat, limit: nat, keep: Row -> bool, scanned: nat, items: seq<Row>) {
    && start + scanned <= |rows| && scanned <= SCAN_LIMIT && |items| <= limit
    && var whole, rest := Scan(rows, start, limit, SCAN_LIMIT, keep), Scan(rows, start + scanned, limit - |items|, SCAN_LIMIT - scanned, keep);
       whole == (items + rest.0, rest.1)
  }

  lemma ScanStep(rows: seq<Row>, start: nat, limit: nat, keep: Row -> bool, scanned: nat, items: seq<Row>)
    requires Midway(rows, start, limit, keep, scanned, items)
    requires start + scanned < |rows| && scanned < SCAN_LIMIT && |items| < limit
    ensures Midway(rows, start, limit, keep, scanned + 1, if keep(rows[start + scanned]) then items + [rows[start + scanned]] else items)
  {
    var row, p := rows[start + scanned], start + scanned;
    if keep(row) {
      var rest := Scan(rows, p + 1, limit - |items| - 1, SCAN_LIMIT - scanned - 1, keep);
      assert items + ([row] + rest.0) == items + [row] + rest.0;
    }
  }

  /** The scan is over: nothing remains. */
  lemma ScanOver(rows: seq<Row>, start: nat, limit: nat, keep: Row -> bool, scanned: nat, items: seq<Row>)
    requires Midway(rows, start, limit, keep, scanned, items)
    requires start + scanned == |rows| || |items| == limit || scanned == SCAN_LIMIT
    ensures Scan(rows, start, limit, SCAN_LIMIT, keep) == (items, start + scanned)
  {
    assert items + [] == items;
  }

  /** The loop over one store page, which both tools share. */
  method TakePage(ghost rows: seq<Row>, ghost p: nat, limit: nat, keep: Row -> bool,
                  page: seq<Row>, before: seq<Row>, scannedBefore: nat, cursorBefore: string)
    returns (items: seq<Row>, scanned: nat, cursor: string, pageComplete: bool)
    requires Midway(rows, p, limit, keep, scannedBefore, before) && |before| < limit
    requires scannedBefore + |page| <= SCAN_LIMIT && p + scannedBefore + |page| <= |rows|
    requires forall k :: 0 <= k < |page| ==> page[k] == rows[p + scannedBefore + k]
    ensures Midway(rows, p, limit, keep, scanned, items) && scannedBefore <= scanned <= scannedBefore + |page|
    ensures pageComplete <==> scanned == scannedBefore + |page|
    ensures |items| < limit ==> pageComplete
    ensures |items| == limit ==> scanned > scannedBefore
    ensures |items| <= limit
    ensures cursor == if scanned == scannedBefore then cursorBefore else rows[p + scanned - 1].id
  {
    items, scanned, cursor, pageComplete := before, scannedBefore, cursorBefore, true;
    for position := 0 to |page|
      invariant scanned == scannedBefore + position && pageComplete && |items| < limit
      invariant Midway(rows, p, limit, keep, scanned, items)
      invariant cursor == if position == 0 then cursorBefore else rows[p + scanned - 1].id
    {
      var item := page[position];
      ScanStep(rows, p, limit, keep, scanned, items);
      scanned := scanned + 1;
      cursor := item.id;
      if keep(item) {
        items := items + [item];
        if |items| == limit {
          pageComplete := position == |page| - 1;
          break;
        }
      }
    }
  }

  /** Both tools: the answer once the scan is over. */
  lemma PageReached(rows: seq<Row>, prefix: string, p: nat, limit: nat, keep: Row -> bool, scanned: nat, items: seq<Row>, cursor: string)
    requires Catalog(rows, prefix) && Midway(rows, p, limit, keep, scanned, items) && limit >= 1
    requires p + scanned == |rows| || |items| == limit || scanned == SCAN_LIMIT
    requires cursor == if p + scanned < |rows| && p + scanned > 0 then rows[p + scanned - 1].id else ""
    ensures Page(items, if cursor == "" then None else Some(cursor)) == PageFrom(rows, p, limit, keep)
  {
    ScanOver(rows, p, limit, keep, scanned, items);
  }

  /** The list_media tool. */
  method ListMedia(rows: seq<Row>, start: string, limit: int, keep: Row -> bool) returns (r: Option<Page>)
    requires Catalog(rows, "m_")
    ensures r.Some? <==> ValidCursor("m_", start) && 1 <= limit <= 50
    ensures r.Some? ==> r.value == PageFrom(rows, Position(rows, start), limit, keep)
  {
    hide ValidCursor, Catalog, PageFrom, Scan, Midway;
    if !ValidCursor("m_", start) || limit < 1 || limit > PAGE_LIMIT {
      return None;
    }
    var items: seq<Row> := [];
    var cursor, scanned := start, 0;
    ghost var p := Position(rows, start);
    MidwayStart(rows, p, limit, keep);
    while scanned < SCAN_LIMIT && |items| < limit
      invariant 0 <= scanned <= SCAN_LIMIT && |items| < limit && p + scanned <= |rows|
      invariant Midway(rows, p, limit, keep, scanned, items) && Position(rows, cursor) == p + scanned
      invariant scanned > 0 ==> p + scanned < |rows| && cursor == rows[p + scanned - 1].id
      decreases SCAN_LIMIT - scanned
    {
      var batch := Least(PAGE_LIMIT, SCAN_LIMIT - scanned);
      var pageItems, pageNext := List(rows, cursor, batch, 100, 500);
      var pageComplete;
      items, scanned, cursor, pageComplete := TakePage(rows, p, limit, keep, pageItems, items, scanned, cursor);
      if |items| == limit {
        if pageComplete {
          cursor := CursorOf(pageNext);
        }
        break;
      }
      if pageNext.None? || |pageItems| == 0 {
        cursor := "";
        break;
      }
      cursor := pageNext.value;
      PositionOf(rows, "m_", p + scanned - 1);
    }
    PageReached(rows, "m_", p, limit, keep, scanned, items, cursor);
    r := Some(Page(items, if cursor == "" then None else Some(cursor)));
  }

  /** The list_projects tool. */
  method ListProjects(rows: seq<Row>, start: string, limit: int, keep: Row -> bool) returns (r: Option<Page>)
    requires Catalog(rows, "p_")
    ensures r.Some? <==> ValidCursor("p_", start) && 1 <= limit <= 50
    ensures r.Some? ==> r.value == PageFrom(rows, Position(rows, start), limit, keep)
  {
    hide ValidCursor, Catalog, PageFrom, Scan, Midway;
    if !ValidCursor("p_", start) || limit < 1 || limit > PAGE_LIMIT {
      return None;
    }
    var items: seq<Row> := [];
    var cursor, scanned := start, 0;
    ghost var p := Position(rows, start);
    MidwayStart(rows, p, limit, keep);
    while scanned < SCAN_LIMIT && |items| < limit
      invariant 0 <= scanned <= SCAN_LIMIT && |items| <= limit && p + scanned <= |rows|
      invariant |items| == limit ==> scanned > 0
      invariant Midway(rows, p, limit, keep, scanned, items) && Position(rows, cursor) == p + scanned
      invariant scanned > 0 ==> p + scanned < |rows| && cursor == rows[p + scanned - 1].id
      decreases SCAN_LIMIT - scanned
    {
      var pageItems, pageNext := List(rows, cursor, Least(PAGE_LIMIT, SCAN_LIMIT - scanned), 50, 100);
      var pageComplete;
      items, scanned, cursor, pageComplete := TakePage(rows, p, limit, keep, pageItems, items, scanned, cursor);
      if |items| == limit && !pageComplete {
        break;
      }
      if pageNext.None? || |pageItems| == 0 {
        cursor := "";
        break;
      }
      cursor := pageNext.value;
      PositionOf(rows, "p_", p + scanned - 1);
    }
    PageReached(rows, "p_", p, limit, keep, scanned, items, cursor);
    r := Some(Page(items, if cursor == "" then None else Some(cursor)));
  }

  lemma MidwayStart(rows: seq<Row>, p: nat, limit: nat, keep: Row -> bool)
    requires p <= |rows|
    ensures Midway(rows, p, limit, keep, 0, [])
  {
    var s := Scan(rows, p, limit, SCAN_LIMIT, keep);
    assert [] + s.0 == s.0;
  }

  // ------------------------------------------------------------ following the cursors

  function Kept(rows: seq<Row>, keep: Row -> bool): seq<Row> {
    if rows == [] then [] else (if keep(rows[0]) then [rows[0]] else []) + Kept(rows[1..], keep)
  }

  lemma Associate(a: seq<Row>, b: seq<Row>, c: seq<Row>)
    ensures a + (b + c) == a + b + c
  {}

  lemma {:induction false} KeptConcat(a: seq<Row>, b: seq<Row>, keep: Row -> bool)
    ensures Kept(a + b, keep) == Kept(a, keep) + Kept(b, keep)
  {
    if a == [] {
      assert a + b == b;
    } else {
      KeptConcat(a[1..], b, keep);
      assert (a + b)[1..] == a[1..] + b && (a + b)[0] == a[0];
      Associate(if keep(a[0]) then [a[0]] else [], Kept(a[1..], keep), Kept(b, keep));
    }
  }

  lemma {:induction false} ScanIsKept(rows: seq<Row>, p: nat, limit: nat, budget: nat, keep: Row -> bool)
    requires p <= |rows|
    ensures var (items, stop) := Scan(rows, p, limit, budget, keep);
      items == Kept(rows[p..stop], keep) && |items| <= limit && stop <= p + budget
      && (|items| == limit || stop == p + budget || stop == |rows|)
    decreases |rows| - p
  {
    if p < |rows| && limit > 0 && budget > 0 {
      ScanIsKept(rows, p + 1, if keep(rows[p]) then limit - 1 else limit, budget - 1, keep);
      var stop := Scan(rows, p, limit, budget, keep).1;
      assert rows[p..stop] == [rows[p]] + rows[p + 1..stop];
      assert rows[p..stop][1..] == rows[p + 1..stop];
    } else {
      assert rows[p..p] == [];
    }
  }

  /** A full page ends with the last row read. */
  lemma {:induction false} FullEndsThere(rows: seq<Row>, p: nat, limit: nat, budget: nat, keep: Row -> bool)
    requires p <= |rows| && limit > 0
    ensures var (items, stop) := Scan(rows, p, limit, budget, keep);
      |items| == limit ==> stop > p && items[limit - 1] == rows[stop - 1]
    decreases |rows| - p
  {
    if p < |rows| && budget > 0 {
      if !keep(rows[p]) {
        FullEndsThere(rows, p + 1, limit, budget - 1, keep);
      } else if limit > 1 {
        FullEndsThere(rows, p + 1, limit - 1, budget - 1, keep);
      } else {
        assert Scan(rows, p + 1, 0, budget - 1, keep) == ([], p + 1);
      }
    }
  }

  /** Kept rows are those that pass, each as often as in the table. */
  lemma {:induction false} KeptMeans(rows: seq<Row>, keep: Row -> bool, x: Row)
    ensures multiset(Kept(rows, keep))[x] == if keep(x) then multiset(rows)[x] else 0
  {
    if rows != [] {
      KeptMeans(rows[1..], keep, x);
      assert rows == [rows[0]] + rows[1..];
    }
  }

  /** The page a tool answers, without its scan: the rows after the cursor that pass, up to its limit, from at most five
      hundred rows. */
  lemma AnswerMeans(rows: seq<Row>, prefix: string, start: string, limit: nat, keep: Row -> bool, k: nat)
    requires Catalog(rows, prefix) && limit >= 1 && k < |rows|
    ensures var page := PageFrom(rows, Position(rows, start), limit, keep);
      && (rows[k] in page.items <==>
            keep(rows[k]) && Less(start, rows[k].id) && (page.next.Some? ==> LessEq(rows[k].id, page.next.value)))
  {
    PageMeaning(rows, prefix, start, limit, keep);
    var p, page := Position(rows, start), PageFrom(rows, Position(rows, start), limit, keep);
    var q := if page.next.Some? then Position(rows, page.next.value) else |rows|;
    KeptMeans(rows[p..q], keep, rows[k]);
    PositionMeans(rows, prefix, start, k);
    if page.next.Some? { PositionMeans(rows, prefix, page.next.value, k); }
    LessTotal(start, rows[k].id);
    if Less(start, rows[k].id) { LessAsymmetric(start, rows[k].id); }
    OnceInCatalog(rows, prefix, p, q, k);
    assert rows[k] in page.items <==> multiset(page.items)[rows[k]] > 0;
    assert rows[k] in rows[p..q] <==> multiset(rows[p..q])[rows[k]] > 0;
  }

  lemma OnceInCatalog(rows: seq<Row>, prefix: string, p: nat, q: nat, k: nat)
    requires Catalog(rows, prefix) && p <= q <= |rows| && k < |rows|
    ensures rows[k] in rows[p..q] <==> p <= k < q
  {
    if rows[k] in rows[p..q] {
      var i :| p <= i < q && rows[i] == rows[k];
      LessIrreflexive(rows[k].id);
      assert i == k;
    }
    if p <= k < q { assert rows[p..q][k - p] == rows[k]; }
  }

  /** One page holds exactly the kept rows between its two cursors; a following cursor is that of the last row read
      and lies strictly after the one that asked; a page that is not full has read 500 rows or reached the end. */
  lemma PageMeaning(rows: seq<Row>, prefix: string, start: string, limit: nat, keep: Row -> bool)
    requires Catalog(rows, prefix) && limit >= 1
    ensures var p, page := Position(rows, start), PageFrom(rows, Position(rows, start), limit, keep);
      var q := if page.next.Some? then Position(rows, page.next.value) else |rows|;
      && p <= q <= |rows| && page.items == Kept(rows[p..q], keep)
      && (page.next.Some? ==> p < q < |rows| && page.next.value == rows[q - 1].id && ValidCursor(prefix, page.next.value) && page.next.value != "")
      && |page.items| <= limit && (|page.items| < limit && page.next.Some? ==> q == p + 500)
      && (|page.items| == limit && page.next.Some? ==> page.items[limit - 1] == rows[q - 1])
  {
    var p := Position(rows, start);
    ScanIsKept(rows, p, limit, SCAN_LIMIT, keep);
    FullEndsThere(rows, p, limit, SCAN_LIMIT, keep);
    var stop := Scan(rows, p, limit, SCAN_LIMIT, keep).1;
    if stop < |rows| {
      PositionOf(rows, prefix, stop - 1);
    }
  }

  /** The cursor itself advances in key order. */
  lemma CursorAdvances(rows: seq<Row>, prefix: string, start: string, limit: nat, keep: Row -> bool)
    requires Catalog(rows, prefix) && limit >= 1
    ensures var page := PageFrom(rows, Position(rows, start), limit, keep); page.next.Some? ==> Less(start, page.next.value)
  {
    PageMeaning(rows, prefix, start, limit, keep);
    var page := PageFrom(rows, Position(rows, start), limit, keep);
    if page.next.Some? {
      AfterPosition(rows, prefix, start, Position(rows, page.next.value) - 1);
    }
  }

  lemma {:induction false} AfterPosition(rows: seq<Row>, prefix: string, cursor: string, k: nat)
    requires Catalog(rows, prefix) && Position(rows, cursor) <= k < |rows|
    ensures Less(cursor, rows[k].id)
  {
    if Less(cursor, rows[0].id) {
      if k > 0 { LessTransitive(cursor, rows[0].id, rows[k].id); }
    } else {
      AfterPosition(rows[1..], prefix, cursor, k - 1);
    }
  }

  /** A client that keeps asking, with any page size each time, until no cursor comes back. */
  function Followed(rows: seq<Row>, prefix: string, cursor: string, limits: nat -> nat, turn: nat, keep: Row -> bool): seq<Row>
    requires Catalog(rows, prefix) && forall k :: limits(k) >= 1
    decreases |rows| - Position(rows, cursor)
  {
    var page := PageFrom(rows, Position(rows, cursor), limits(turn), keep);
    PageMeaning(rows, prefix, cursor, limits(turn), keep);
    if page.next.None? then page.items
    else page.items + Followed(rows, prefix, page.next.value, limits, turn + 1, keep)
  }

  lemma {:induction false} FollowedFrom(rows: seq<Row>, prefix: string, cursor: string, limits: nat -> nat, turn: nat, keep: Row -> bool)
    requires Catalog(rows, prefix) && forall k :: limits(k) >= 1
    ensures Followed(rows, prefix, cursor, limits, turn, keep) == Kept(rows[Position(rows, cursor)..], keep)
    decreases |rows| - Position(rows, cursor)
  {
    hide PageFrom, Kept;
    PageMeaning(rows, prefix, cursor, limits(turn), keep);
    var p, page := Position(rows, cursor), PageFrom(rows, Position(rows, cursor), limits(turn), keep);
    if page.next.None? {
      assert rows[p..|rows|] == rows[p..];
    } else {
      var q := Position(rows, page.next.value);
      FollowedFrom(rows, prefix, page.next.value, limits, turn + 1, keep);
      assert rows[p..] == rows[p..q] + rows[q..];
      KeptConcat(rows[p..q], rows[q..], keep);
    }
  }

  /** Following the cursors from the start ends, and the pages put together are exactly the authorised matching rows
      in key order: none lost, none repeated, whatever the page sizes, empty pages and scan limits in between. */
  lemma FollowingIsFiltering(rows: seq<Row>, prefix: string, limits: nat -> nat, keep: Row -> bool)
    requires Catalog(rows, prefix) && forall k :: limits(k) >= 1
    ensures Followed(rows, prefix, "", limits, 0, keep) == Kept(rows, keep)
  {
    FollowedFrom(rows, prefix, "", limits, 0, keep);
    PositionOfStart(rows, prefix);
    assert rows[0..] == rows;
  }
}
