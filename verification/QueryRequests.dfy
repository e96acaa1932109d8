/** A query of several sub-queries that share the budget of a page: the pages are one scan of the sub-queries in their order, and they end. */
module QueryRequests {
  import opened Bytes
  import opened SkIntervals
  import opened QueryPages
  import opened QueryWalk

  // ─── sub-queries ────────────────────────────────────────────────────────────

  /** A sub-query and the rows of its hash key. A condition that nothing satisfies has no interval. */
  datatype SubQuery = SubQuery(rows: seq<Row>, interval: Option<SkInterval>, direction: Direction)

  /** The public cursor: a sub-query, and where its scan goes on. */
  datatype Position = Position(query: nat, inner: Option<Cursor>)

  datatype Page = Page(items: seq<Bytes>, count: nat, scannedCount: nat, next: Option<Position>)

  const NO_BUDGET := Budget(0, 0, 0, 0, false)

  function RequestOf(q: SubQuery, inner: Option<Cursor>, projection: bool, budget: Budget): Request
    requires q.interval.Some?
  {
    Request(q.interval.value, inner, q.direction, projection, budget)
  }

  /** The rows that the sub-query still owes. */
  function Owed(q: SubQuery, inner: Option<Cursor>): seq<Row> {
    if q.interval.None? then [] else Scan(q.rows, RequestOf(q, inner, false, NO_BUDGET))
  }

  lemma OwedIsScan(q: SubQuery, inner: Option<Cursor>, projection: bool, budget: Budget)
    requires q.interval.Some?
    ensures Scan(q.rows, RequestOf(q, inner, projection, budget)) == Owed(q, inner)
  {
    SameWanted(q.rows, RequestOf(q, inner, projection, budget), RequestOf(q, inner, false, NO_BUDGET));
  }

  function OwedFrom(queries: seq<SubQuery>, at: Position): seq<Row>
    decreases |queries| - at.query
  {
    if at.query >= |queries| then [] else Owed(queries[at.query], at.inner) + OwedFrom(queries, Position(at.query + 1, None))
  }

  lemma {:induction false} EmptyQueriesOweNothing(queries: seq<SubQuery>, i: nat, j: nat)
    requires i <= j && forall k :: i <= k < j && k < |queries| ==> queries[k].interval.None?
    ensures OwedFrom(queries, Position(i, None)) == OwedFrom(queries, Position(j, None))
    decreases j - i
  {
    if i < j && i < |queries| {
      EmptyQueriesOweNothing(queries, i + 1, j);
    }
  }

  // ─── how far the pages are from their end ───────────────────────────────────

  /** The rows that a sub-query owes, the edges of its visits that are ahead, and one for the sub-query. */
  ghost function Weight(q: SubQuery, edges: set<Cursor>, inner: Option<Cursor>): nat {
    |Owed(q, inner)| + |Ahead(edges, inner, q.direction)| + 1
  }

  ghost function Distance(queries: seq<SubQuery>, edges: seq<set<Cursor>>, at: Position): nat
    requires |edges| == |queries|
    decreases |queries| - at.query
  {
    if at.query >= |queries| then 0
    else Weight(queries[at.query], edges[at.query], at.inner) + Distance(queries, edges, Position(at.query + 1, None))
  }

  lemma {:induction false} LaterIsNearer(queries: seq<SubQuery>, edges: seq<set<Cursor>>, at: Position, j: nat)
    requires |edges| == |queries| && at.query < j && at.query < |queries|
    ensures Distance(queries, edges, Position(j, None)) < Distance(queries, edges, at)
    decreases j - at.query
  {
    hide Weight;
    assert Weight(queries[at.query], edges[at.query], at.inner) > 0 by { WeightIsPositive(queries[at.query], edges[at.query], at.inner); }
    if at.query + 1 < j && at.query + 1 < |queries| {
      LaterIsNearer(queries, edges, Position(at.query + 1, None), j);
    }
  }

  lemma WeightIsPositive(q: SubQuery, edges: set<Cursor>, inner: Option<Cursor>)
    ensures Weight(q, edges, inner) > 0
  {
  }

  // ─── a page ─────────────────────────────────────────────────────────────────

  /** The page reports a prefix of what is owed, and its cursor owes the rest. */
  ghost predicate GoesOn(queries: seq<SubQuery>, projection: bool, start: Position, page: Page) {
    var owed := OwedFrom(queries, start);
    && page.scannedCount <= |owed|
    && page.items == TotalsOf(owed[..page.scannedCount], projection).items && page.count == TotalsOf(owed[..page.scannedCount], projection).count
    && OwedFrom(queries, if page.next.Some? then page.next.value else Position(|queries|, None)) == owed[page.scannedCount..]
  }

  /** A cursor names a sub-query that has an interval. */
  predicate ValidPosition(queries: seq<SubQuery>, at: Position) {
    at.query < |queries| && (at.inner.Some? ==> queries[at.query].interval.Some?)
  }

  ghost predicate Ordered(queries: seq<SubQuery>) {
    forall i :: 0 <= i < |queries| ==> InOrder(queries[i].rows, queries[i].direction)
  }

  /** The range call of each sub-query answers an honest page that goes forward. */
  ghost predicate CallsAreHonest(queries: seq<SubQuery>, ask: (nat, Request) -> Response, edges: seq<set<Cursor>>)
    requires |edges| == |queries|
  {
    forall i: nat, r: Request :: i < |queries| && r.direction == queries[i].direction && HasBudget(r.budget) ==>
      && Honest(queries[i].rows, r, ask(i, r)) && Advances(queries[i].rows, r, ask(i, r), edges[i])
      && StopsForBudget(queries[i].rows, r, ask(i, r))
  }

  /** The cursor of a page is valid, and nearer to the end than where the page started. */
  ghost predicate ComesNearer(queries: seq<SubQuery>, edges: seq<set<Cursor>>, start: Position, page: Page)
    requires |edges| == |queries|
  {
    page.next.Some? ==> ValidPosition(queries, page.next.value) && Distance(queries, edges, page.next.value) < Distance(queries, edges, start)
  }

  /** What the loop holds: the rows before the position are reported, and the budget shrank by them. */
  ghost predicate Holds(queries: seq<SubQuery>, projection: bool, start: Position, done: seq<Row>, at: Position, items: seq<Bytes>, count: nat) {
    && OwedFrom(queries, start) == done + OwedFrom(queries, at)
    && TotalsOf(done, projection).items == items && TotalsOf(done, projection).count == count
  }

  lemma HoldsGoesOn(queries: seq<SubQuery>, projection: bool, start: Position, done: seq<Row>, at: Position, items: seq<Bytes>, count: nat, next: Option<Position>)
    requires Holds(queries, projection, start, done, at, items, count)
    requires OwedFrom(queries, if next.Some? then next.value else Position(|queries|, None)) == OwedFrom(queries, at)
    ensures GoesOn(queries, projection, start, Page(items, count, |done|, next))
    ensures |done| <= |OwedFrom(queries, start)| && OwedFrom(queries, start)[..|done|] == done
  {
    var owed := OwedFrom(queries, start);
    assert owed[..|done|] == done && owed[|done|..] == OwedFrom(queries, at);
  }

  /** One answer of the current sub-query. */
  lemma AnswerHolds(queries: seq<SubQuery>, projection: bool, start: Position, done: seq<Row>, at: Position, items: seq<Bytes>, count: nat, budget: Budget, resp: Response)
    requires Holds(queries, projection, start, done, at, items, count) && at.query < |queries| && queries[at.query].interval.Some?
    requires Ordered(queries) && Honest(queries[at.query].rows, RequestOf(queries[at.query], at.inner, projection, budget), resp)
    ensures var n := resp.scannedCount;
            var owed := Owed(queries[at.query], at.inner);
            && n <= |owed|
            && Holds(queries, projection, start, done + owed[..n], if resp.nextCursor.Some? then Position(at.query, resp.nextCursor) else Position(at.query + 1, None),
                     items + resp.items, count + resp.count)
  {
    hide *;
    var q, n := queries[at.query], resp.scannedCount;
    AnswerReports(q, at.inner, projection, budget, resp);
    AnswerOwes(queries, projection, at, budget, resp);
    GrowHolds(queries, projection, start, done, at, if resp.nextCursor.Some? then Position(at.query, resp.nextCursor) else Position(at.query + 1, None),
              Owed(q, at.inner)[..n], items, count);
  }

  lemma GrowHolds(queries: seq<SubQuery>, projection: bool, start: Position, done: seq<Row>, at: Position, next: Position, part: seq<Row>, items: seq<Bytes>, count: nat)
    requires Holds(queries, projection, start, done, at, items, count) && OwedFrom(queries, at) == part + OwedFrom(queries, next)
    ensures Holds(queries, projection, start, done + part, next, items + TotalsOf(part, projection).items, count + TotalsOf(part, projection).count)
  {
    hide OwedFrom, TotalsOf;
    TotalsOfAppend(done, part, projection);
    assert done + (part + OwedFrom(queries, next)) == (done + part) + OwedFrom(queries, next);
  }

  /** What is owed before an answer is what the answer reports and what is owed after it. */
  lemma AnswerOwes(queries: seq<SubQuery>, projection: bool, at: Position, budget: Budget, resp: Response)
    requires at.query < |queries| && queries[at.query].interval.Some? && Ordered(queries)
    requires Honest(queries[at.query].rows, RequestOf(queries[at.query], at.inner, projection, budget), resp)
    ensures var owed := Owed(queries[at.query], at.inner);
            && resp.scannedCount <= |owed|
            && OwedFrom(queries, at) == owed[..resp.scannedCount]
                                        + OwedFrom(queries, if resp.nextCursor.Some? then Position(at.query, resp.nextCursor) else Position(at.query + 1, None))
  {
    hide *;
    var q := queries[at.query];
    var owed, n, rest := Owed(q, at.inner), resp.scannedCount, OwedFrom(queries, Position(at.query + 1, None));
    OwedAt(queries, at);
    OrderedAt(queries, at.query);
    AnswerReports(q, at.inner, projection, budget, resp);
    if resp.nextCursor.Some? {
      OwedAt(queries, Position(at.query, resp.nextCursor));
      CursorOwesRest(q, at.inner, projection, budget, resp);
      assert owed[..n] + (owed[n..] + rest) == owed + rest;
    } else {
      NoCursorMeansAll(q, at.inner, projection, budget, resp);
      assert owed[..n] == owed;
    }
  }

  lemma OwedAt(queries: seq<SubQuery>, at: Position)
    requires at.query < |queries|
    ensures OwedFrom(queries, at) == Owed(queries[at.query], at.inner) + OwedFrom(queries, Position(at.query + 1, None))
  {
    hide Owed;
  }

  lemma AnswerReports(q: SubQuery, inner: Option<Cursor>, projection: bool, budget: Budget, resp: Response)
    requires q.interval.Some? && Honest(q.rows, RequestOf(q, inner, projection, budget), resp)
    ensures resp.scannedCount <= |Owed(q, inner)|
    ensures TotalsOf(Owed(q, inner)[..resp.scannedCount], projection).items == resp.items
    ensures TotalsOf(Owed(q, inner)[..resp.scannedCount], projection).count == resp.count
  {
    OwedIsScan(q, inner, projection, budget);
    hide Owed, Scan, TotalsOf, HonestCursor, LastOf;
  }

  lemma NoCursorMeansAll(q: SubQuery, inner: Option<Cursor>, projection: bool, budget: Budget, resp: Response)
    requires q.interval.Some? && Honest(q.rows, RequestOf(q, inner, projection, budget), resp) && resp.nextCursor.None?
    ensures resp.scannedCount == |Owed(q, inner)|
  {
    OwedIsScan(q, inner, projection, budget);
    hide Owed, Scan, TotalsOf, HonestCursor, LastOf;
  }

  lemma CursorOwesRest(q: SubQuery, inner: Option<Cursor>, projection: bool, budget: Budget, resp: Response)
    requires q.interval.Some? && InOrder(q.rows, q.direction)
    requires Honest(q.rows, RequestOf(q, inner, projection, budget), resp) && resp.nextCursor.Some?
    ensures resp.scannedCount <= |Owed(q, inner)| && Owed(q, resp.nextCursor) == Owed(q, inner)[resp.scannedCount..]
    ensures AtOrAfter(inner, resp.nextCursor.value, q.direction)
  {
    var req, c := RequestOf(q, inner, projection, budget), resp.nextCursor.value;
    OwedIsScan(q, inner, projection, budget);
    OwedIsScan(q, resp.nextCursor, projection, budget);
    hide Owed, Scan, TotalsOf, LastOf, InOrder, OwesFrom, AtOrAfter, Moves, CursorFits, Blocked;
    ScanGoesOn(q.rows, req, resp.scannedCount, c);
    assert req.(cursor := Some(c)) == RequestOf(q, resp.nextCursor, projection, budget);
  }

  /** A cursor is no farther than where its sub-query started, and nearer when the page had whole budgets. */
  lemma CursorIsNearer(q: SubQuery, edges: set<Cursor>, inner: Option<Cursor>, projection: bool, budget: Budget, resp: Response)
    requires q.interval.Some? && InOrder(q.rows, q.direction)
    requires Honest(q.rows, RequestOf(q, inner, projection, budget), resp) && resp.nextCursor.Some?
    requires Advances(q.rows, RequestOf(q, inner, projection, budget), resp, edges)
    ensures Weight(q, edges, resp.nextCursor) <= Weight(q, edges, inner)
    ensures FitsRows(budget, q.rows) ==> Weight(q, edges, resp.nextCursor) < Weight(q, edges, inner)
  {
    var req := RequestOf(q, inner, projection, budget);
    CursorOwesRest(q, inner, projection, budget, resp);
    OwedIsScan(q, inner, projection, budget);
    OwedIsScan(q, resp.nextCursor, projection, budget);
    hide Owed, Scan, InOrder, Honest, Advances, FitsRows, Ahead, Moves;
    if FitsRows(budget, q.rows) {
      PageLeavesLess(q.rows, req, budget, resp, edges);
    }
    NoMoreAhead(edges, inner, resp.nextCursor.value, q.direction);
  }

  lemma NoMoreAhead(edges: set<Cursor>, from: Option<Cursor>, to: Cursor, d: Direction)
    requires AtOrAfter(from, to, d)
    ensures |Ahead(edges, Some(to), d)| <= |Ahead(edges, from, d)|
  {
    if Moves(from, to, d) {
      FewerAhead(edges, from, to, d);
    }
  }

  /** The first later sub-query that has an interval, or the end. */
  method FindNextQuery(queries: seq<SubQuery>, from: nat) returns (next: nat)
    requires from <= |queries|
    ensures from <= next <= |queries| && (next < |queries| ==> queries[next].interval.Some?)
    ensures forall k :: from <= k < next ==> queries[k].interval.None?
  {
    for j := from to |queries|
      invariant forall k :: from <= k < j ==> queries[k].interval.None?
    {
      if queries[j].interval.Some? {
        return j;
      }
    }
    return |queries|;
  }

  /** Where the loop is before sub-query `i`. */
  function Before(start: Position, i: nat): Position {
    if i == start.query then start else Position(i, None)
  }

  lemma SkippedQuery(queries: seq<SubQuery>, projection: bool, start: Position, done: seq<Row>, i: nat, items: seq<Bytes>, count: nat)
    requires i < |queries| && queries[i].interval.None? && start.query <= i
    requires Holds(queries, projection, start, done, Before(start, i), items, count)
    ensures Holds(queries, projection, start, done, Position(i + 1, None), items, count)
  {
    OwedAt(queries, Before(start, i));
    hide OwedFrom, TotalsOf, Scan;
  }

  lemma PositionIsNearer(queries: seq<SubQuery>, edges: seq<set<Cursor>>, start: Position, i: nat, projection: bool, budget: Budget, resp: Response)
    requires |edges| == |queries| && start.query <= i < |queries| && queries[i].interval.Some? && InOrder(queries[i].rows, queries[i].direction)
    requires Honest(queries[i].rows, RequestOf(queries[i], Before(start, i).inner, projection, budget), resp) && resp.nextCursor.Some?
    requires Advances(queries[i].rows, RequestOf(queries[i], Before(start, i).inner, projection, budget), resp, edges[i])
    requires i == start.query ==> FitsRows(budget, queries[i].rows)
    ensures Distance(queries, edges, Position(i, resp.nextCursor)) < Distance(queries, edges, start)
  {
    hide *;
    CursorIsNearer(queries[i], edges[i], Before(start, i).inner, projection, budget, resp);
    DistanceAt(queries, edges, Position(i, resp.nextCursor));
    if i == start.query {
      BeforeIs(start, i);
      DistanceAt(queries, edges, start);
    } else {
      BeforeIs(start, i);
      DistanceAt(queries, edges, Position(i, None));
      LaterIsNearer(queries, edges, start, i);
    }
  }

  lemma BeforeIs(start: Position, i: nat)
    ensures Before(start, i) == if i == start.query then start else Position(i, None)
  {
  }

  lemma DistanceAt(queries: seq<SubQuery>, edges: seq<set<Cursor>>, at: Position)
    requires |edges| == |queries| && at.query < |queries|
    ensures Distance(queries, edges, at) == Weight(queries[at.query], edges[at.query], at.inner) + Distance(queries, edges, Position(at.query + 1, None))
  {
    hide Weight;
  }

  lemma StartHolds(queries: seq<SubQuery>, projection: bool, start: Position)
    ensures Holds(queries, projection, start, [], start, [], 0)
  {
    NoTotals(projection);
  }

  /** The page loop of `queryItems`: the sub-queries in order, with one budget for all of them. */
  method QueryPage(queries: seq<SubQuery>, start: Position, projection: bool, init: Budget, ask: (nat, Request) -> Response, ghost edges: seq<set<Cursor>>)
    returns (page: Page, ghost left: Budget)
    requires ValidPosition(queries, start) && Ordered(queries) && |edges| == |queries| && CallsAreHonest(queries, ask, edges)
    requires forall i :: 0 <= i < |queries| ==> FitsRows(init, queries[i].rows)
    ensures GoesOn(queries, projection, start, page) && ComesNearer(queries, edges, start, page) && page.scannedCount <= init.items
    ensures LeftIs(left, init, OwedFrom(queries, start)[..page.scannedCount], projection) && PageStops(queries, projection, start, page, left)
  {
    hide GoesOn, ComesNearer, LeftIs, PageStops, StopsForBudget, Holds, Ordered, Honest, Advances, FitsRows, InOrder, OwedFrom, Owed, Distance, HasBudget, Rest;
    FitsIsABudget(init, queries[start.query].rows);
    var budget := new PageBudget(init);
    var items: seq<Bytes> := [];
    var count: nat, scannedCount: nat := 0, 0;
    ghost var done: seq<Row> := [];
    StartHolds(queries, projection, start);
    LeftAtStart(init, projection);
    for qi := start.query to |queries|
      invariant fresh(budget) && HasBudget(budget.Left()) && scannedCount == |done|
      invariant LeftIs(budget.Left(), init, done, projection) && scannedCount <= init.items
      invariant qi == start.query ==> budget.Left() == init
      invariant Holds(queries, projection, start, done, Before(start, qi), items, count)
    {
      var query := queries[qi];
      if query.interval.None? {
        SkippedQuery(queries, projection, start, done, qi, items, count);
        continue;
      }
      var inner := if qi == start.query then start.inner else None;
      assert inner == Before(start, qi).inner;
      ghost var before, had := done, budget.Left();
      var resp := ask(qi, RequestOf(query, inner, projection, budget.Left()));
      AskedIsHonest(queries, ask, edges, qi, RequestOf(query, inner, projection, had));
      AnswerHolds(queries, projection, start, done, Before(start, qi), items, count, had, resp);
      ghost var heldItems, heldCount := items, count;
      LeftAfterQuery(init, done, query, inner, projection, had, resp);
      done := done + Owed(query, inner)[..resp.scannedCount];
      items, count, scannedCount := items + resp.items, count + resp.count, scannedCount + resp.scannedCount;
      budget.Consume(resp);
      if resp.nextCursor.Some? {
        var next := Position(qi, resp.nextCursor);
        OrderedAt(queries, qi);
        PositionIsNearer(queries, edges, start, qi, projection, had, resp);
        HoldsGoesOn(queries, projection, start, done, next, items, count, Some(next));
        page := Page(items, count, scannedCount, Some(next));
        GoodNext(queries, edges, start, page);
        AnswerStops(queries, projection, start, before, Before(start, qi), heldItems, heldCount, had, resp, page);
        return page, budget.Left();
      }
      if budget.BudgetExhausted() || budget.VisitsExhausted() {
        var next := FindNextQuery(queries, qi + 1);
        EmptyQueriesOweNothing(queries, qi + 1, next);
        LaterIsNearer(queries, edges, start, next);
        var cursor := if next < |queries| then Some(Position(next, None)) else None;
        HoldsGoesOn(queries, projection, start, done, Position(qi + 1, None), items, count, cursor);
        page := Page(items, count, scannedCount, cursor);
        GoodNext(queries, edges, start, page);
        assert PageStops(queries, projection, start, page, budget.Left()) by { SpentByQueries(queries, projection, start, page, budget); }
        return page, budget.Left();
      }
      assert HasBudget(budget.Left()) by { NotExhausted(budget); }
    }
    HoldsGoesOn(queries, projection, start, done, Position(|queries|, None), items, count, None);
    page, left := Page(items, count, scannedCount, None), budget.Left();
    GoodNext(queries, edges, start, page);
    SpentPage(queries, projection, start, page, left);
  }

  lemma FitsIsABudget(b: Budget, rows: seq<Row>)
    requires FitsRows(b, rows)
    ensures HasBudget(b) && b.items > 0
  {
  }

  lemma GoodNext(queries: seq<SubQuery>, edges: seq<set<Cursor>>, start: Position, page: Page)
    requires |edges| == |queries|
    requires page.next.Some? ==> page.next.value.query < |queries| && queries[page.next.value.query].interval.Some?
    requires page.next.Some? ==> Distance(queries, edges, page.next.value) < Distance(queries, edges, start)
    ensures ComesNearer(queries, edges, start, page)
  {
  }

  // ─── why a page stops ───────────────────────────────────────────────────────

  /** What is left of the budget after the rows of a page. Only the visits are counted apart. */
  ghost predicate LeftIs(left: Budget, init: Budget, done: seq<Row>, projection: bool) {
    && left.items == init.items - |done| && left.evaluated == init.evaluated - TotalsOf(done, projection).evaluated
    && left.response == init.response - TotalsOf(done, projection).response
    && (left.oversized <==> init.oversized && TotalsOf(done, projection).items == [])
  }

  /** The row does not fit what is left. */
  predicate DoesNotFit(r: Row, left: Budget, projection: bool) {
    left.items <= 0 || r.est > left.evaluated || (r.matched && projection && r.size > left.response && !left.oversized)
  }

  /** A page with a cursor stopped for a budget: one is spent, also that of the visits, or the next row of the request does not fit what is left. */
  ghost predicate PageStops(queries: seq<SubQuery>, projection: bool, start: Position, page: Page, left: Budget) {
    page.next.Some? ==>
      || !HasBudget(left) || left.visits <= 0
      || (page.scannedCount < |OwedFrom(queries, start)| && DoesNotFit(OwedFrom(queries, start)[page.scannedCount], left, projection))
  }

  lemma LeftAtStart(init: Budget, projection: bool)
    ensures LeftIs(init, init, [], projection)
  {
    NoTotals(projection);
  }

  lemma LeftAfter(left: Budget, init: Budget, done: seq<Row>, rows: seq<Row>, req: Request, resp: Response)
    requires LeftIs(left, init, done, req.projection) && req.budget == left && Honest(rows, req, resp) && HasBudget(left)
    ensures |done| + resp.scannedCount <= init.items && resp.scannedCount <= |Scan(rows, req)|
    ensures LeftIs(Rest(left, resp), init, done + Scan(rows, req)[..resp.scannedCount], req.projection)
  {
    hide Scan, TotalsOf, HonestCursor, LastOf;
    TotalsOfAppend(done, Scan(rows, req)[..resp.scannedCount], req.projection);
  }

  /** The answer of a sub-query that goes on: what it says of its own budget holds for the page. */
  lemma AnswerStops(queries: seq<SubQuery>, projection: bool, start: Position, done: seq<Row>, at: Position, items: seq<Bytes>, count: nat, left: Budget, resp: Response, page: Page)
    requires Holds(queries, projection, start, done, at, items, count) && at.query < |queries| && queries[at.query].interval.Some?
    requires Honest(queries[at.query].rows, RequestOf(queries[at.query], at.inner, projection, left), resp) && resp.nextCursor.Some?
    requires StopsForBudget(queries[at.query].rows, RequestOf(queries[at.query], at.inner, projection, left), resp)
    requires page.scannedCount == |done| + resp.scannedCount
    ensures PageStops(queries, projection, start, page, Rest(left, resp))
  {
    var q := queries[at.query];
    OwedIsScan(q, at.inner, projection, left);
    OwedAt(queries, at);
    var req := RequestOf(q, at.inner, projection, left);
    var owed, rest := Owed(q, at.inner), OwedFrom(queries, Position(at.query + 1, None));
    hide Scan, Owed, OwedFrom, TotalsOf, HonestCursor, LastOf, Holds;
    if NextHasNoRoom(q.rows, req, resp) {
      OwedNext(queries, projection, start, done, at, items, count, resp.scannedCount);
    }
  }

  lemma LeftAfterQuery(init: Budget, done: seq<Row>, q: SubQuery, inner: Option<Cursor>, projection: bool, left: Budget, resp: Response)
    requires q.interval.Some? && LeftIs(left, init, done, projection) && HasBudget(left)
    requires Honest(q.rows, RequestOf(q, inner, projection, left), resp)
    ensures |done| + resp.scannedCount <= init.items && resp.scannedCount <= |Owed(q, inner)|
    ensures LeftIs(Rest(left, resp), init, done + Owed(q, inner)[..resp.scannedCount], projection)
  {
    hide LeftIs, HasBudget, Honest, Rest, Scan, Owed;
    OwedIsScan(q, inner, projection, left);
    LeftAfter(left, init, done, q.rows, RequestOf(q, inner, projection, left), resp);
  }

  lemma SpentByQueries(queries: seq<SubQuery>, projection: bool, start: Position, page: Page, budget: PageBudget)
    requires budget.BudgetExhausted() || budget.VisitsExhausted()
    ensures PageStops(queries, projection, start, page, budget.Left())
  {
    hide OwedFrom;
  }

  lemma OwedNext(queries: seq<SubQuery>, projection: bool, start: Position, done: seq<Row>, at: Position, items: seq<Bytes>, count: nat, n: nat)
    requires Holds(queries, projection, start, done, at, items, count) && at.query < |queries| && n < |Owed(queries[at.query], at.inner)|
    ensures |done| + n < |OwedFrom(queries, start)| && OwedFrom(queries, start)[|done| + n] == Owed(queries[at.query], at.inner)[n]
  {
    OwedAt(queries, at);
    hide Owed, OwedFrom, TotalsOf;
  }

  lemma SpentPage(queries: seq<SubQuery>, projection: bool, start: Position, page: Page, left: Budget)
    requires page.next.None? || !HasBudget(left) || left.visits <= 0
    ensures PageStops(queries, projection, start, page, left)
  {
    hide OwedFrom;
  }

  lemma NotExhausted(budget: PageBudget)
    requires !budget.BudgetExhausted()
    ensures HasBudget(budget.Left())
  {
  }

  lemma OrderedAt(queries: seq<SubQuery>, i: nat)
    requires Ordered(queries) && i < |queries|
    ensures InOrder(queries[i].rows, queries[i].direction)
  {
  }

  lemma AskedIsHonest(queries: seq<SubQuery>, ask: (nat, Request) -> Response, edges: seq<set<Cursor>>, i: nat, r: Request)
    requires |edges| == |queries| && CallsAreHonest(queries, ask, edges) && i < |queries| && r.direction == queries[i].direction && HasBudget(r.budget)
    ensures Honest(queries[i].rows, r, ask(i, r)) && Advances(queries[i].rows, r, ask(i, r), edges[i]) && StopsForBudget(queries[i].rows, r, ask(i, r))
  {
  }

  // ─── the pages of a query ───────────────────────────────────────────────────

  /** Each page starts where the one before it says, and the last has no cursor. */
  ghost predicate Pages(queries: seq<SubQuery>, projection: bool, start: Position, pages: seq<Page>)
    decreases |pages|
  {
    && pages != [] && GoesOn(queries, projection, start, pages[0])
    && if |pages| == 1 then pages[0].next.None?
       else pages[0].next.Some? && Pages(queries, projection, pages[0].next.value, pages[1..])
  }

  function ItemsOf(pages: seq<Page>): seq<Bytes> {
    if pages == [] then [] else pages[0].items + ItemsOf(pages[1..])
  }

  function ScannedOf(pages: seq<Page>): nat {
    if pages == [] then 0 else pages[0].scannedCount + ScannedOf(pages[1..])
  }

  lemma {:induction false} OwedAtEnd(queries: seq<SubQuery>)
    ensures OwedFrom(queries, Position(|queries|, None)) == []
  {
  }

  /** All pages together give one scan of each sub-query, in their order, and skip and repeat nothing. */
  lemma {:induction false} PagesAreOneScanOfAll(queries: seq<SubQuery>, projection: bool, start: Position, pages: seq<Page>)
    requires Pages(queries, projection, start, pages)
    ensures ItemsOf(pages) == TotalsOf(OwedFrom(queries, start), projection).items
    ensures ScannedOf(pages) == |OwedFrom(queries, start)|
    decreases |pages|
  {
    hide TotalsOf, OwedFrom;
    var owed, n := OwedFrom(queries, start), pages[0].scannedCount;
    assert owed == owed[..n] + owed[n..];
    if |pages| == 1 {
      OwedAtEnd(queries);
      assert pages[1..] == [] && owed[..n] == owed;
    } else {
      PagesAreOneScanOfAll(queries, projection, pages[0].next.value, pages[1..]);
      TotalsOfAppend(owed[..n], owed[n..], projection);
    }
  }

  /** Pages one after the other, each nearer to the end than the one before it. */
  ghost predicate Nearer(queries: seq<SubQuery>, edges: seq<set<Cursor>>, start: Position, pages: seq<Page>)
    requires |edges| == |queries|
    decreases |pages|
  {
    |pages| > 1 ==>
      && pages[0].next.Some? && ComesNearer(queries, edges, start, pages[0])
      && Nearer(queries, edges, pages[0].next.value, pages[1..])
  }

  /** The pages end. */
  lemma {:induction false} PagesEnd(queries: seq<SubQuery>, edges: seq<set<Cursor>>, start: Position, pages: seq<Page>)
    requires |edges| == |queries| && Nearer(queries, edges, start, pages)
    ensures |pages| <= Distance(queries, edges, start) + 1
    decreases |pages|
  {
    hide Distance;
    if |pages| > 1 {
      PagesEnd(queries, edges, pages[0].next.value, pages[1..]);
    }
  }
}
