/**
 * Pages of a query. One page contract, `Honest`, holds for a leaf partition and for a router that walks
 * its visits, and following the cursor of honest pages gives one ordered scan.
 */
module QueryPages {
  import opened Bytes
  import opened KeyCodec
  import opened SkIntervals

  /** A stored row of the hash key: its stored size, whether the filter matches, and the size of its item. */
  datatype Row = Row(sk: Bytes, est: nat, matched: bool, size: nat, item: Bytes)

  datatype Budget = Budget(items: int, evaluated: int, response: int, visits: int, oversized: bool)

  datatype Request = Request(interval: SkInterval, cursor: Option<Cursor>, direction: Direction, projection: bool, budget: Budget)

  datatype Response = Response(items: seq<Bytes>, count: nat, scannedCount: nat, evaluatedBytes: nat, responseBytes: nat,
                               lastEvaluated: Option<Cursor>, nextCursor: Option<Cursor>, visits: nat)

  // ─── the scan ───────────────────────────────────────────────────────────────

  predicate Wanted(r: Row, req: Request) {
    InInterval(r.sk, req.interval) && After(r.sk, req.cursor, req.direction)
  }

  /** The rows that the request still owes, in scan order. */
  function Scan(rows: seq<Row>, req: Request): (s: seq<Row>)
    ensures forall r :: r in s ==> r in rows && Wanted(r, req)
  {
    if rows == [] then [] else (if Wanted(rows[0], req) then [rows[0]] else []) + Scan(rows[1..], req)
  }

  predicate RowBefore(a: Row, b: Row, d: Direction) {
    if d.Asc? then Less(a.sk, b.sk) else Less(b.sk, a.sk)
  }

  /** The rows are in scan order, with no sort key two times. */
  ghost predicate InOrder(rows: seq<Row>, d: Direction) {
    forall i, j :: 0 <= i < j < |rows| ==> RowBefore(rows[i], rows[j], d)
  }

  lemma {:induction false} ScanIsInOrder(rows: seq<Row>, req: Request)
    requires InOrder(rows, req.direction)
    ensures InOrder(Scan(rows, req), req.direction)
  {
    if rows != [] {
      ScanIsInOrder(rows[1..], req);
      var s := Scan(rows[1..], req);
      forall k | 0 <= k < |s| ensures RowBefore(rows[0], s[k], req.direction) {
        assert s[k] in rows[1..];
        var j :| 1 <= j < |rows| && rows[j] == s[k];
      }
    }
  }

  lemma {:induction false} ScanOfAppend(a: seq<Row>, b: seq<Row>, req: Request)
    ensures Scan(a + b, req) == Scan(a, req) + Scan(b, req)
  {
    if a == [] {
      assert a + b == b;
    } else {
      assert (a + b)[1..] == a[1..] + b;
      ScanOfAppend(a[1..], b, req);
    }
  }

  lemma {:induction false} NothingWanted(rows: seq<Row>, req: Request)
    requires forall r :: r in rows ==> !Wanted(r, req)
    ensures Scan(rows, req) == []
  {
    if rows != [] {
      NothingWanted(rows[1..], req);
    }
  }

  lemma {:induction false} SameWanted(rows: seq<Row>, a: Request, b: Request)
    requires forall r :: r in rows ==> (Wanted(r, a) <==> Wanted(r, b))
    ensures Scan(rows, a) == Scan(rows, b)
  {
    if rows != [] {
      SameWanted(rows[1..], a, b);
    }
  }

  // ─── cursors ────────────────────────────────────────────────────────────────

  /** `b` is a later position of the scan than `a`. */
  predicate Later(a: Cursor, b: Cursor, d: Direction) {
    (if d.Asc? then Less(a.sk, b.sk) else Less(b.sk, a.sk)) || (a.sk == b.sk && a.inclusive && !b.inclusive)
  }

  predicate Moves(from: Option<Cursor>, to: Cursor, d: Direction) {
    from.None? || Later(from.value, to, d)
  }

  predicate AtOrAfter(from: Option<Cursor>, to: Cursor, d: Direction) {
    Moves(from, to, d) || from == Some(to)
  }

  /** A later cursor owes less. */
  lemma LaterOwesLess(from: Option<Cursor>, to: Cursor, d: Direction, sk: Bytes)
    requires AtOrAfter(from, to, d) && After(sk, Some(to), d)
    ensures After(sk, from, d)
  {
    if from.Some? {
      Order(from.value.sk, to.sk, sk);
      Order(sk, to.sk, from.value.sk);
    }
  }

  /** The cursor is inside the interval, as far as a later partition could see. */
  predicate CursorFits(interval: SkInterval, c: Cursor) {
    && (interval.lower.Some? ==> AtMost(interval.lower.value.value, c.sk))
    && (interval.upper.Some? ==> Less(c.sk, interval.upper.value.value) || (interval.upper.value.inclusive && c.sk == interval.upper.value.value))
  }

  lemma KeyFits(interval: SkInterval, sk: Bytes, inclusive: bool)
    requires InInterval(sk, interval)
    ensures CursorFits(interval, Cursor(sk, inclusive))
  {
    if interval.lower.Some? {
      Order(interval.lower.value.value, sk, sk);
    }
  }

  lemma ClippedCursorFits(interval: SkInterval, child: Segment, c: Cursor)
    requires CursorFits(ClipToChildRange(interval, child), c)
    ensures CursorFits(interval, c) && InSegment(c.sk, child)
  {
    Order(c.sk, child.start, c.sk);
    if interval.lower.Some? {
      Order(interval.lower.value.value, child.start, c.sk);
      Order(child.start, interval.lower.value.value, c.sk);
      Order(c.sk, child.start, interval.lower.value.value);
      Order(c.sk, interval.lower.value.value, child.start);
    }
    if child.end.Some? && interval.upper.Some? {
      Order(c.sk, child.end.value, interval.upper.value.value);
      Order(child.end.value, interval.upper.value.value, c.sk);
      Order(c.sk, interval.upper.value.value, child.end.value);
      Order(interval.upper.value.value, child.end.value, c.sk);
    }
  }

  // ─── totals ─────────────────────────────────────────────────────────────────

  /** What a page reports of the rows that it evaluated. */
  datatype Totals = Totals(items: seq<Bytes>, count: nat, evaluated: nat, response: nat)

  function RowTotals(r: Row, projection: bool): Totals {
    Totals(if r.matched && projection then [r.item] else [], if r.matched then 1 else 0, r.est, if r.matched && projection then r.size else 0)
  }

  function Add(a: Totals, b: Totals): Totals {
    Totals(a.items + b.items, a.count + b.count, a.evaluated + b.evaluated, a.response + b.response)
  }

  function TotalsOf(rows: seq<Row>, projection: bool): Totals {
    if rows == [] then Totals([], 0, 0, 0) else Add(TotalsOf(rows[..|rows| - 1], projection), RowTotals(rows[|rows| - 1], projection))
  }

  lemma AddRow(t: Totals, r: Row, projection: bool)
    ensures Add(t, RowTotals(r, projection)) == Totals(if r.matched && projection then t.items + [r.item] else t.items,
                                                       if r.matched then t.count + 1 else t.count, t.evaluated + r.est,
                                                       if r.matched && projection then t.response + r.size else t.response)
  {
    assert t.items + [] == t.items;
  }

  lemma AddIsAssociative(a: Totals, b: Totals, c: Totals)
    ensures Add(Add(a, b), c) == Add(a, Add(b, c))
  {
  }

  lemma TotalsOfPush(rows: seq<Row>, r: Row, projection: bool)
    ensures TotalsOf(rows + [r], projection) == Add(TotalsOf(rows, projection), RowTotals(r, projection))
    ensures LastOf(rows + [r]) == Some(Cursor(r.sk, false))
  {
    assert (rows + [r])[..|rows|] == rows;
  }

  lemma {:induction false} TotalsOfAppend(a: seq<Row>, b: seq<Row>, projection: bool)
    ensures TotalsOf(a + b, projection) == Add(TotalsOf(a, projection), TotalsOf(b, projection))
  {
    if b == [] {
      assert a + b == a;
    } else {
      var init, last := b[..|b| - 1], b[|b| - 1];
      TotalsOfAppend(a, init, projection);
      AppendLast(a, b);
      PushBoth(a, init, last, projection);
    }
  }

  lemma AppendLast(a: seq<Row>, b: seq<Row>)
    requires b != []
    ensures a + b == (a + b[..|b| - 1]) + [b[|b| - 1]] && b == b[..|b| - 1] + [b[|b| - 1]]
  {
  }

  lemma PushBoth(a: seq<Row>, init: seq<Row>, last: Row, projection: bool)
    requires TotalsOf(a + init, projection) == Add(TotalsOf(a, projection), TotalsOf(init, projection))
    ensures TotalsOf((a + init) + [last], projection) == Add(TotalsOf(a, projection), TotalsOf(init + [last], projection))
  {
    hide RowTotals, Add, TotalsOf;
    TotalsOfPush(a + init, last, projection);
    TotalsOfPush(init, last, projection);
    AddIsAssociative(TotalsOf(a, projection), TotalsOf(init, projection), RowTotals(last, projection));
  }

  function LastOf(rows: seq<Row>): Option<Cursor> {
    if rows == [] then None else Some(Cursor(rows[|rows| - 1].sk, false))
  }

  predicate Reports(resp: Response, rows: seq<Row>, projection: bool) {
    && resp.scannedCount == |rows|
    && TotalsOf(rows, projection) == Totals(resp.items, resp.count, resp.evaluatedBytes, resp.responseBytes)
    && resp.lastEvaluated == LastOf(rows)
  }

  function Sum(bytes: seq<nat>): nat {
    if bytes == [] then 0 else Sum(bytes[..|bytes| - 1]) + bytes[|bytes| - 1]
  }

  lemma SumOfPush(bytes: seq<nat>, b: nat)
    ensures Sum(bytes + [b]) == Sum(bytes) + b
  {
    assert (bytes + [b])[..|bytes|] == bytes;
  }

  /** The indexes of the matched rows, in order. */
  ghost predicate AreMatches(rows: seq<Row>, matches: seq<nat>) {
    && (forall j :: 0 <= j < |matches| ==> matches[j] < |rows| && rows[matches[j]].matched)
    && (forall i, j :: 0 <= i < j < |matches| ==> matches[i] < matches[j])
    && (forall i :: 0 <= i < |rows| && rows[i].matched ==> i in matches)
  }

  lemma MatchesOfPush(front: seq<Row>, before: seq<nat>, r: Row)
    requires AreMatches(front, before)
    ensures AreMatches(front + [r], if r.matched then before + [|front|] else before)
  {
    var rows, after := front + [r], if r.matched then before + [|front|] else before;
    assert forall i :: 0 <= i < |front| ==> rows[i] == front[i];
    forall j | 0 <= j < |after| ensures after[j] < |rows| && rows[after[j]].matched {
      assert j < |before| ==> after[j] == before[j] && before[j] < |front| && front[before[j]].matched;
    }
    forall i, j | 0 <= i < j < |after| ensures after[i] < after[j] {
      assert after[i] == before[i];
    }
    forall i | 0 <= i < |rows| && rows[i].matched ensures i in after {
      if i < |front| {
        var j :| 0 <= j < |before| && before[j] == i;
        assert after[j] == i;
      } else {
        assert after[|before|] == i;
      }
    }
  }

  function Ests(rows: seq<Row>): seq<nat> {
    seq(|rows|, i requires 0 <= i < |rows| => rows[i].est)
  }

  /** The items at the indexes. */
  function ItemsAt(rows: seq<Row>, at: seq<nat>): seq<Bytes>
    requires forall j :: 0 <= j < |at| ==> at[j] < |rows|
  {
    seq(|at|, j requires 0 <= j < |at| => rows[at[j]].item)
  }

  /** The sizes of the items at the indexes. */
  function SizesAt(rows: seq<Row>, at: seq<nat>): seq<nat>
    requires forall j :: 0 <= j < |at| ==> at[j] < |rows|
  {
    seq(|at|, j requires 0 <= j < |at| => rows[at[j]].size)
  }

  /** The totals show the matched rows, and with projection their items. */
  ghost predicate Shows(t: Totals, rows: seq<Row>, matches: seq<nat>, projection: bool) {
    && AreMatches(rows, matches)
    && (forall j :: 0 <= j < |matches| ==> matches[j] < |rows|)
    && t.count == |matches| && t.evaluated == Sum(Ests(rows))
    && t.items == (if projection then ItemsAt(rows, matches) else [])
    && t.response == (if projection then Sum(SizesAt(rows, matches)) else 0)
  }

  lemma PicksOfPush(front: seq<Row>, before: seq<nat>, r: Row)
    requires forall j :: 0 <= j < |before| ==> before[j] < |front|
    ensures Ests(front + [r]) == Ests(front) + [r.est]
    ensures ItemsAt(front + [r], before) == ItemsAt(front, before)
    ensures SizesAt(front + [r], before) == SizesAt(front, before)
    ensures ItemsAt(front + [r], before + [|front|]) == ItemsAt(front, before) + [r.item]
    ensures SizesAt(front + [r], before + [|front|]) == SizesAt(front, before) + [r.size]
  {
  }

  lemma ShowsOfPush(t: Totals, front: seq<Row>, before: seq<nat>, r: Row, projection: bool)
    requires Shows(t, front, before, projection)
    ensures Shows(Add(t, RowTotals(r, projection)), front + [r], if r.matched then before + [|front|] else before, projection)
  {
    hide Sum, Ests, ItemsAt, SizesAt, AreMatches, Add, RowTotals;
    MatchesOfPush(front, before, r);
    MatchesAreIndexes(front, before);
    PicksOfPush(front, before, r);
    AddRow(t, r, projection);
    SumOfPush(Ests(front), r.est);
    if r.matched {
      SumOfPush(SizesAt(front, before), r.size);
      assert Shows(Add(t, RowTotals(r, projection)), front + [r], before + [|front|], projection);
    } else {
      assert Shows(Add(t, RowTotals(r, projection)), front + [r], before, projection);
    }
  }

  lemma ShowsNothing(projection: bool)
    ensures Shows(TotalsOf([], projection), [], [], projection)
  {
  }

  lemma MatchesAreIndexes(rows: seq<Row>, matches: seq<nat>)
    requires AreMatches(rows, matches)
    ensures forall j :: 0 <= j < |matches| ==> matches[j] < |rows|
  {
  }

  /**
   * What a page reports of the rows that it evaluated: the count of the matched ones, with projection their
   * items in order and the bytes of these, and the evaluated bytes of all rows.
   */
  lemma {:induction false} TotalsShowTheMatches(rows: seq<Row>, projection: bool) returns (matches: seq<nat>)
    ensures Shows(TotalsOf(rows, projection), rows, matches, projection)
  {
    hide Shows, Add, RowTotals;
    if rows == [] {
      matches := [];
      ShowsNothing(projection);
    } else {
      var front, r := rows[..|rows| - 1], rows[|rows| - 1];
      var before := TotalsShowTheMatches(front, projection);
      ShowsOfPush(TotalsOf(front, projection), front, before, r, projection);
      assert front + [r] == rows;
      matches := if r.matched then before + [|front|] else before;
    }
  }

  // ─── the contract of a page ─────────────────────────────────────────────────

  /** The row cannot enter a page that starts with the budget. */
  predicate Blocked(r: Row, req: Request) {
    || req.budget.items <= 0 || r.est > req.budget.evaluated
    || (r.matched && req.projection && r.size > req.budget.response && !req.budget.oversized)
  }

  /** The cursor owes exactly the rows of the scan from `n` on. */
  ghost predicate OwesFrom(s: seq<Row>, n: nat, c: Cursor, d: Direction) {
    forall k :: 0 <= k < |s| ==> (After(s[k].sk, Some(c), d) <==> k >= n)
  }

  /** The cursor owes the rest of the scan, moves forward, and stays in the interval. It stands only before a row that the budget blocks. */
  ghost predicate HonestCursor(s: seq<Row>, n: nat, c: Cursor, req: Request) {
    && OwesFrom(s, n, c, req.direction) && CursorFits(req.interval, c) && AtOrAfter(req.cursor, c, req.direction)
    && (Moves(req.cursor, c, req.direction) || (n == 0 && s != [] && c == Cursor(s[0].sk, true) && Blocked(s[0], req)))
  }

  /** With what a page took already, the row does not fit what is left of the budgets. Only a first item can be oversized. */
  predicate NoRoom(r: Row, req: Request, scanned: nat, evaluated: nat, response: nat, empty: bool) {
    || scanned >= req.budget.items
    || evaluated + r.est > req.budget.evaluated
    || (r.matched && req.projection && response + r.size > req.budget.response && !(req.budget.oversized && empty))
  }

  /** The next row of the scan does not fit the page any more. */
  ghost predicate NextHasNoRoom(rows: seq<Row>, req: Request, resp: Response) {
    var s := Scan(rows, req);
    resp.scannedCount < |s| && NoRoom(s[resp.scannedCount], req, resp.scannedCount, resp.evaluatedBytes, resp.responseBytes, resp.items == [])
  }

  /** A budget of the page is spent. */
  predicate Spent(b: Budget, resp: Response) {
    resp.scannedCount >= b.items || resp.evaluatedBytes >= b.evaluated || resp.responseBytes >= b.response || resp.visits >= b.visits
  }

  /** A page with a cursor stopped for a budget: one is spent, or the next row does not fit what is left. */
  ghost predicate StopsForBudget(rows: seq<Row>, req: Request, resp: Response) {
    resp.nextCursor.Some? ==> NextHasNoRoom(rows, req, resp) || Spent(req.budget, resp)
  }

  /** The page evaluated a prefix of the scan within its budgets, reports it, and says how to go on. */
  ghost predicate Honest(rows: seq<Row>, req: Request, resp: Response) {
    var s := Scan(rows, req);
    && resp.scannedCount <= |s|
    && Reports(resp, s[..resp.scannedCount], req.projection)
    && (resp.nextCursor.None? ==> resp.scannedCount == |s|)
    && (resp.nextCursor.Some? ==> HonestCursor(s, resp.scannedCount, resp.nextCursor.value, req))
    && resp.scannedCount <= Max(req.budget.items, 0) && resp.evaluatedBytes <= Max(req.budget.evaluated, 0)
    && (resp.responseBytes <= Max(req.budget.response, 0) || (req.budget.oversized && |resp.items| == 1))
  }

  // ─── following the cursor ───────────────────────────────────────────────────

  lemma {:induction false} ScanGoesOn(rows: seq<Row>, req: Request, n: nat, c: Cursor)
    requires InOrder(rows, req.direction) && n <= |Scan(rows, req)|
    requires OwesFrom(Scan(rows, req), n, c, req.direction) && AtOrAfter(req.cursor, c, req.direction)
    ensures Scan(rows, req.(cursor := Some(c))) == Scan(rows, req)[n..]
  {
    if rows != [] {
      var s, rest := Scan(rows, req), Scan(rows[1..], req);
      var head := rows[0];
      if After(head.sk, Some(c), req.direction) {
        LaterOwesLess(req.cursor, c, req.direction, head.sk);
      }
      if Wanted(head, req) {
        assert s[0] == head && s[1..] == rest;
        forall k | 0 <= k < |rest| ensures After(rest[k].sk, Some(c), req.direction) <==> k >= (if n == 0 then 0 else n - 1) {
          assert rest[k] == s[k + 1];
        }
        ScanGoesOn(rows[1..], req, if n == 0 then 0 else n - 1, c);
        if n == 0 {
          assert s[n..] == [head] + rest;
        } else {
          assert s[n..] == rest[n - 1..];
        }
      } else {
        assert s == rest;
        ScanGoesOn(rows[1..], req, n, c);
      }
    }
  }

  /** The pages of one query: each starts at the cursor of the one before it, with its own budgets, and the last has no cursor. */
  ghost predicate Follows(rows: seq<Row>, req: Request, budgets: seq<Budget>, pages: seq<Response>)
    decreases |pages|
  {
    && |pages| == |budgets| > 0
    && Honest(rows, req.(budget := budgets[0]), pages[0])
    && (if |pages| == 1 then pages[0].nextCursor.None?
        else pages[0].nextCursor.Some? && Follows(rows, req.(cursor := pages[0].nextCursor), budgets[1..], pages[1..]))
  }

  function AllItems(pages: seq<Response>): seq<Bytes> {
    if pages == [] then [] else pages[0].items + AllItems(pages[1..])
  }

  function AllScanned(pages: seq<Response>): nat {
    if pages == [] then 0 else pages[0].scannedCount + AllScanned(pages[1..])
  }

  /**
   * The items of all pages together are the items of one scan: none is skipped or repeated, for any
   * budgets. Each page can come from another plan, because the contract names only the rows.
   */
  lemma {:induction false} PagesAreOneScan(rows: seq<Row>, req: Request, budgets: seq<Budget>, pages: seq<Response>)
    requires InOrder(rows, req.direction) && Follows(rows, req, budgets, pages)
    ensures AllItems(pages) == TotalsOf(Scan(rows, req), req.projection).items
    ensures AllScanned(pages) == |Scan(rows, req)|
    decreases |pages|
  {
    hide TotalsOf, Scan, InOrder, AtOrAfter, OwesFrom, LastOf, CursorFits, Blocked, Moves;
    var s, n := Scan(rows, req), pages[0].scannedCount;
    SameWanted(rows, req, req.(budget := budgets[0]));
    assert s == s[..n] + s[n..];
    assert TotalsOf(s[..n], req.projection).items == pages[0].items && n <= |s|;
    if |pages| == 1 {
      assert s[..n] == s && pages[1..] == [];
    } else {
      ScanGoesOn(rows, req, n, pages[0].nextCursor.value);
      PagesAreOneScan(rows, req.(cursor := pages[0].nextCursor), budgets[1..], pages[1..]);
      TotalsOfAppend(s[..n], s[n..], req.projection);
    }
  }

  /** The budgets of a page at its start. */
  predicate StartsPage(b: Budget) {
    b.items > 0 && b.evaluated > 0 && b.response > 0 && b.oversized
  }

  /** The budgets start a page, and no stored row is above the evaluated-byte budget of a whole page. */
  predicate FitsRows(b: Budget, rows: seq<Row>) {
    StartsPage(b) && forall i :: 0 <= i < |rows| ==> rows[i].est <= b.evaluated
  }

  const MAX_EVALUATED_BYTES_PER_PAGE := 100 * 1024 * 1024
  const MAX_ITEM_BYTES := 400 * 1024

  /** Each page of a client starts with budgets that fit every stored row. */
  lemma ClientBudgetFits(items: int, response: int, visits: int, rows: seq<Row>)
    requires items > 0 && response > 0
    requires forall i :: 0 <= i < |rows| ==> rows[i].est <= MAX_ITEM_BYTES
    ensures FitsRows(Budget(items, MAX_EVALUATED_BYTES_PER_PAGE, response, visits, true), rows)
  {
  }

  /** Every page with a cursor moves forward. */
  lemma PageMoves(rows: seq<Row>, req: Request, resp: Response)
    requires Honest(rows, req, resp) && resp.nextCursor.Some? && FitsRows(req.budget, rows)
    ensures Moves(req.cursor, resp.nextCursor.value, req.direction)
  {
    var s := Scan(rows, req);
    if s != [] {
      assert s[0] in s;
      var i :| 0 <= i < |rows| && rows[i] == s[0];
    }
  }

  /**
   * Of the page contract alone: without the bound on the stored rows, a page that stands before a row
   * above the evaluated-byte budget returns the cursor that it got.
   */
  lemma OversizedRowRepeats(rows: seq<Row>, req: Request, resp: Response)
    requires Honest(rows, req, resp) && Scan(rows, req) != [] && req.cursor == Some(Cursor(Scan(rows, req)[0].sk, true))
    requires req.budget.evaluated >= 0 && Scan(rows, req)[0].est > req.budget.evaluated
    requires InOrder(rows, req.direction)
    ensures resp.scannedCount == 0 && resp.items == [] && resp.nextCursor == req.cursor
  {
    EvaluatedCoversFirst(rows, req, resp);
    var s := Scan(rows, req);
    var c := resp.nextCursor.value;
    assert s[..0] == [] && After(s[0].sk, Some(c), req.direction);
    Order(c.sk, s[0].sk, c.sk);
    Order(s[0].sk, c.sk, s[0].sk);
  }

  // ─── how many pages ─────────────────────────────────────────────────────────

  /** A page that evaluates no row and goes on ends at an edge of a visit. */
  ghost predicate Advances(rows: seq<Row>, req: Request, resp: Response, edges: set<Cursor>) {
    FitsRows(req.budget, rows) && resp.nextCursor.Some? && resp.scannedCount == 0 ==> resp.nextCursor.value in edges
  }

  /** Pages one after the other, each with its own budgets, and none after a page without a cursor. */
  ghost predicate Chain(rows: seq<Row>, req: Request, budgets: seq<Budget>, pages: seq<Response>, edges: set<Cursor>)
    decreases |pages|
  {
    && |pages| == |budgets|
    && (pages != [] ==>
      && FitsRows(budgets[0], rows)
      && Honest(rows, req.(budget := budgets[0]), pages[0]) && Advances(rows, req.(budget := budgets[0]), pages[0], edges)
      && (|pages| > 1 ==>
            pages[0].nextCursor.Some? && Chain(rows, req.(cursor := pages[0].nextCursor), budgets[1..], pages[1..], edges)))
  }

  ghost function Ahead(edges: set<Cursor>, from: Option<Cursor>, d: Direction): set<Cursor> {
    set c | c in edges && Moves(from, c, d)
  }

  lemma MovesAreAnOrder(from: Option<Cursor>, a: Cursor, b: Cursor, d: Direction)
    ensures !Moves(Some(a), a, d)
    ensures Moves(from, a, d) && Moves(Some(a), b, d) ==> Moves(from, b, d)
  {
    Order(a.sk, a.sk, a.sk);
    Order(a.sk, b.sk, a.sk);
    if from.Some? {
      Order(from.value.sk, a.sk, b.sk);
      Order(b.sk, a.sk, from.value.sk);
    }
  }

  /** A move leaves fewer edges ahead when it ends at one, and never more. */
  lemma FewerAhead(edges: set<Cursor>, from: Option<Cursor>, to: Cursor, d: Direction)
    requires Moves(from, to, d)
    ensures |Ahead(edges, Some(to), d)| <= |Ahead(edges, from, d)|
    ensures to in edges ==> |Ahead(edges, Some(to), d)| < |Ahead(edges, from, d)|
  {
    var now, later := Ahead(edges, from, d), Ahead(edges, Some(to), d);
    forall c | c in later ensures c in now {
      MovesAreAnOrder(from, to, c, d);
    }
    SubsetSize(later, now);
    if to in edges {
      MovesAreAnOrder(from, to, to, d);
      SubsetSize(later + {to}, now);
    }
  }

  lemma {:induction false} SubsetSize<T>(a: set<T>, b: set<T>)
    requires a <= b
    ensures |a| <= |b|
  {
    if a != {} {
      var x :| x in a;
      SubsetSize(a - {x}, b - {x});
    }
  }

  /** The pages of a query end: each evaluates a row, or passes one more edge of the visits. */
  lemma {:induction false} PagesAreFinite(rows: seq<Row>, req: Request, budgets: seq<Budget>, pages: seq<Response>, edges: set<Cursor>)
    requires InOrder(rows, req.direction) && Chain(rows, req, budgets, pages, edges)
    ensures |pages| <= |Scan(rows, req)| + |Ahead(edges, req.cursor, req.direction)| + 1
    decreases |pages|
  {
    if |pages| > 1 {
      PageLeavesLess(rows, req, budgets[0], pages[0], edges);
      hide Scan, InOrder, Honest, Advances, FitsRows, Ahead;
      PagesAreFinite(rows, req.(cursor := pages[0].nextCursor), budgets[1..], pages[1..], edges);
    }
  }

  lemma PageLeavesLess(rows: seq<Row>, req: Request, b: Budget, page: Response, edges: set<Cursor>)
    requires InOrder(rows, req.direction) && FitsRows(b, rows) && Honest(rows, req.(budget := b), page)
    requires Advances(rows, req.(budget := b), page, edges) && page.nextCursor.Some?
    ensures var next := req.(cursor := page.nextCursor);
            |Scan(rows, next)| + |Ahead(edges, next.cursor, req.direction)| < |Scan(rows, req)| + |Ahead(edges, req.cursor, req.direction)|
  {
    var c, n := page.nextCursor.value, page.scannedCount;
    SameWanted(rows, req, req.(budget := b));
    PageMoves(rows, req.(budget := b), page);
    hide Scan, InOrder, Ahead, FitsRows, Moves, TotalsOf, Blocked, CursorFits, OwesFrom, LastOf;
    assert AtOrAfter(req.cursor, c, req.direction);
    ScanGoesOn(rows, req, n, c);
    FewerAhead(edges, req.cursor, c, req.direction);
  }

  lemma EvaluatedCoversFirst(rows: seq<Row>, req: Request, resp: Response)
    requires Honest(rows, req, resp)
    ensures resp.scannedCount > 0 ==> resp.evaluatedBytes >= Scan(rows, req)[0].est
  {
    var s := Scan(rows, req);
    if resp.scannedCount > 0 {
      EvaluatedIsAtLeastFirst(s[..resp.scannedCount], req.projection);
      assert s[..resp.scannedCount][0] == s[0];
    }
  }

  lemma {:induction false} EvaluatedIsAtLeastFirst(rows: seq<Row>, projection: bool)
    requires rows != []
    ensures TotalsOf(rows, projection).evaluated >= rows[0].est
  {
    if |rows| > 1 {
      EvaluatedIsAtLeastFirst(rows[..|rows| - 1], projection);
    }
  }

  // ─── the leaf ───────────────────────────────────────────────────────────────

  /** `createQueryPageCollector`: the state of one page of one partition. */
  class PageCollector {
    const projection: bool
    var items: seq<Bytes>
    var count: nat
    var scannedCount: nat
    var evaluatedBytes: nat
    var responseBytes: nat
    var allowOversizedFirstItem: bool
    var lastEvaluated: Option<Cursor>
    var nextCursor: Option<Cursor>
    var remainingItems: int
    var remainingEvaluatedBytes: int
    var remainingResponseBytes: int

    constructor (projection: bool, budget: Budget)
      ensures this.projection == projection && items == [] && count == 0 && scannedCount == 0 && evaluatedBytes == 0 && responseBytes == 0
      ensures allowOversizedFirstItem == budget.oversized && lastEvaluated == None && nextCursor == None
      ensures remainingItems == budget.items && remainingEvaluatedBytes == budget.evaluated && remainingResponseBytes == budget.response
    {
      this.projection := projection;
      items, count, scannedCount, evaluatedBytes, responseBytes := [], 0, 0, 0, 0;
      allowOversizedFirstItem, lastEvaluated, nextCursor := budget.oversized, None, None;
      remainingItems, remainingEvaluatedBytes, remainingResponseBytes := budget.items, budget.evaluated, budget.response;
    }

    /** The page holds the totals of the evaluated rows. */
    ghost predicate Holds(rows: seq<Row>)
      reads this
    {
      && scannedCount == |rows| && lastEvaluated == LastOf(rows)
      && TotalsOf(rows, projection) == Totals(items, count, evaluatedBytes, responseBytes)
    }

    /** What is left of the budgets, and what was taken of them. */
    ghost predicate Within(budget: Budget)
      reads this
    {
      && remainingItems == budget.items - scannedCount && scannedCount <= Max(budget.items, 0)
      && remainingEvaluatedBytes == budget.evaluated - evaluatedBytes && evaluatedBytes <= Max(budget.evaluated, 0)
      && remainingResponseBytes == budget.response - responseBytes
      && allowOversizedFirstItem == (budget.oversized && items == [])
      && (items == [] ==> responseBytes == 0)
      && (responseBytes <= Max(budget.response, 0) || (budget.oversized && |items| == 1))
    }

    /** The response shows the state of the page. */
    predicate Answers(resp: Response)
      reads this
    {
      resp == Response(items, count, scannedCount, evaluatedBytes, responseBytes, lastEvaluated, nextCursor, 1)
    }

    method Answer() returns (resp: Response)
      ensures Answers(resp)
    {
      resp := Response(items, count, scannedCount, evaluatedBytes, responseBytes, lastEvaluated, nextCursor, 1);
    }

    /** A budget rejects the row before it enters the page. */
    predicate Rejects(r: Row)
      reads this
    {
      || remainingItems <= 0 || r.est > remainingEvaluatedBytes
      || (r.matched && projection && r.size > remainingResponseBytes && !allowOversizedFirstItem)
    }

    /** The row enters the page. */
    method Accept(r: Row, ghost rows: seq<Row>, ghost budget: Budget)
      requires Holds(rows) && Within(budget) && !Rejects(r)
      modifies this
      ensures Holds(rows + [r]) && Within(budget) && nextCursor == old(nextCursor)
    {
      TotalsOfPush(rows, r, projection);
      AddRow(TotalsOf(rows, projection), r, projection);
      hide TotalsOf, LastOf, Add, RowTotals;
      scannedCount := scannedCount + 1;
      evaluatedBytes := evaluatedBytes + r.est;
      remainingItems := remainingItems - 1;
      remainingEvaluatedBytes := remainingEvaluatedBytes - r.est;
      lastEvaluated := Some(Cursor(r.sk, false));
      if r.matched {
        count := count + 1;
      }
      if r.matched && projection {
        items := items + [r.item];
        responseBytes := responseBytes + r.size;
        remainingResponseBytes := remainingResponseBytes - r.size;
        allowOversizedFirstItem := false;
      }
    }

    /** `consume`: a row that a budget rejects stops the page before it. */
    method Consume(r: Row, ghost rows: seq<Row>, ghost req: Request) returns (goOn: bool)
      requires Holds(rows) && Within(req.budget) && nextCursor.None? && projection == req.projection
      modifies this
      ensures goOn ==> Holds(rows + [r]) && nextCursor.None?
      ensures !goOn ==> Holds(rows) && nextCursor == Some(Cursor(r.sk, true)) && (rows == [] ==> Blocked(r, req))
      ensures !goOn ==> NoRoom(r, req, scannedCount, evaluatedBytes, responseBytes, items == [])
      ensures Within(req.budget)
    {
      if Rejects(r) {
        nextCursor := Some(Cursor(r.sk, true));
        return false;
      }
      Accept(r, rows, req.budget);
      return true;
    }
  }

  /** The scan of a leaf partition: it stops at the first row that a budget rejects. */
  method LeafPage(rows: seq<Row>, req: Request) returns (resp: Response)
    requires InOrder(rows, req.direction)
    ensures Honest(rows, req, resp) && Advances(rows, req, resp, {})
    ensures resp.nextCursor.Some? ==> NextHasNoRoom(rows, req, resp)
    ensures StopsForBudget(rows, req, resp)
  {
    var s := Scan(rows, req);
    var page := new PageCollector(req.projection, req.budget);
    var i := 0;
    var goOn := true;
    hide InOrder, Scan, TotalsOf, LastOf, Blocked, NoRoom, Advances, HonestCursor, Honest, PageCollector.Holds, PageCollector.Within;
    NewPageHolds(page, req);
    assert s[..0] == [];
    while i < |s| && goOn
      invariant 0 <= i <= |s| && page.projection == req.projection
      invariant page.Holds(s[..i]) && page.Within(req.budget)
      invariant goOn ==> page.nextCursor.None?
      invariant !goOn ==> i < |s| && page.nextCursor == Some(Cursor(s[i].sk, true)) && (i == 0 ==> Blocked(s[0], req))
      invariant !goOn ==> NoRoom(s[i], req, page.scannedCount, page.evaluatedBytes, page.responseBytes, page.items == [])
      decreases |s| - i, goOn
    {
      assert s[..i + 1] == s[..i] + [s[i]];
      goOn := page.Consume(s[i], s[..i], req);
      if goOn {
        i := i + 1;
      }
    }
    resp := page.Answer();
    LeafIsHonest(page, rows, req, i, resp);
  }

  lemma NewPageHolds(page: PageCollector, req: Request)
    requires page.projection == req.projection && page.items == [] && page.count == 0 && page.scannedCount == 0 && page.evaluatedBytes == 0
    requires page.responseBytes == 0 && page.allowOversizedFirstItem == req.budget.oversized && page.lastEvaluated == None
    requires page.remainingItems == req.budget.items && page.remainingEvaluatedBytes == req.budget.evaluated && page.remainingResponseBytes == req.budget.response
    ensures page.Holds([]) && page.Within(req.budget)
  {
    NoTotals(req.projection);
  }

  /** The page that ended at row `i` of the scan, or after its last row. */
  lemma LeafIsHonest(page: PageCollector, rows: seq<Row>, req: Request, i: nat, resp: Response)
    requires InOrder(rows, req.direction) && i <= |Scan(rows, req)|
    requires page.projection == req.projection && page.Holds(Scan(rows, req)[..i]) && page.Within(req.budget) && page.Answers(resp)
    requires page.nextCursor.None? ==> i == |Scan(rows, req)|
    requires page.nextCursor.Some? ==> i < |Scan(rows, req)| && page.nextCursor == Some(Cursor(Scan(rows, req)[i].sk, true))
                                       && (i == 0 ==> Blocked(Scan(rows, req)[0], req))
    requires page.nextCursor.Some? ==> NoRoom(Scan(rows, req)[i], req, page.scannedCount, page.evaluatedBytes, page.responseBytes, page.items == [])
    ensures Honest(rows, req, resp) && Advances(rows, req, resp, {})
    ensures resp.nextCursor.Some? ==> NextHasNoRoom(rows, req, resp)
  {
    hide InOrder, NoRoom, Scan, TotalsOf, LastOf, Blocked, Advances, HonestCursor, Honest, PageCollector.Holds, PageCollector.Within;
    ScanIsInOrder(rows, req);
    if page.nextCursor.Some? {
      StopIsHonest(Scan(rows, req), i, req);
    }
    PageIsHonest(page, rows, req, i, resp);
    LeafAdvances(rows, req, resp);
  }

  lemma PageIsHonest(page: PageCollector, rows: seq<Row>, req: Request, i: nat, resp: Response)
    requires i <= |Scan(rows, req)| && page.projection == req.projection && page.Holds(Scan(rows, req)[..i]) && page.Within(req.budget)
    requires page.Answers(resp)
    requires if resp.nextCursor.None? then i == |Scan(rows, req)| else HonestCursor(Scan(rows, req), i, resp.nextCursor.value, req)
    ensures Honest(rows, req, resp) && resp.scannedCount == i
  {
    hide Scan, TotalsOf, LastOf, HonestCursor;
  }

  /** A leaf page that stops before its first row stands before a blocked row, which is no row of a page that fits. */
  lemma LeafAdvances(rows: seq<Row>, req: Request, resp: Response)
    requires resp.nextCursor.Some? && resp.scannedCount == 0 ==> Scan(rows, req) != [] && Blocked(Scan(rows, req)[0], req)
    ensures Advances(rows, req, resp, {})
  {
    var s := Scan(rows, req);
    if s != [] {
      assert s[0] in s;
      var i :| 0 <= i < |rows| && rows[i] == s[0];
    }
  }

  lemma NoTotals(projection: bool)
    ensures TotalsOf([], projection) == Totals([], 0, 0, 0) && LastOf([]) == None
  {
  }

  /** An inclusive cursor at row `i` owes the rows from `i` on. */
  lemma StopIsHonest(s: seq<Row>, i: nat, req: Request)
    requires InOrder(s, req.direction) && i < |s| && (forall r :: r in s ==> Wanted(r, req)) && (i == 0 ==> Blocked(s[0], req))
    ensures HonestCursor(s, i, Cursor(s[i].sk, true), req)
  {
    var c, d := Cursor(s[i].sk, true), req.direction;
    forall k | 0 <= k < |s| ensures After(s[k].sk, Some(c), d) <==> k >= i {
      InOrderAt(s, k, i, d);
    }
    assert s[i] in s && s[0] in s;
    KeyFits(req.interval, s[i].sk, true);
    if req.cursor.Some? && i > 0 {
      InOrderAt(s, 0, i, d);
      Order(req.cursor.value.sk, s[0].sk, s[i].sk);
      Order(s[i].sk, s[0].sk, req.cursor.value.sk);
    }
  }

  lemma InOrderAt(s: seq<Row>, a: nat, b: nat, d: Direction)
    requires InOrder(s, d) && a < |s| && b < |s|
    ensures a < b ==> RowBefore(s[a], s[b], d) && s[a].sk != s[b].sk && !RowBefore(s[b], s[a], d)
    ensures b < a ==> RowBefore(s[b], s[a], d) && s[a].sk != s[b].sk && !RowBefore(s[a], s[b], d)
    ensures !RowBefore(s[a], s[a], d)
  {
    Order(s[a].sk, s[b].sk, s[a].sk);
    Order(s[b].sk, s[a].sk, s[b].sk);
    LessIrreflexive(s[a].sk);
  }
}
