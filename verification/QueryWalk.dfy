/** The walk of a router over its planned visits: a page that is as honest as the pages of its parts. */
module QueryWalk {
  import opened Bytes
  import opened KeyCodec
  import opened SkIntervals
  import opened QueryPages
  import RangeFrontier

  // ─── visits and their rows ──────────────────────────────────────────────────

  predicate VisitBefore(a: Segment, b: Segment, d: Direction) {
    if d.Asc? then a.end.Some? && AtMost(a.end.value, b.start) else b.end.Some? && AtMost(b.end.value, a.start)
  }

  /** The visits are disjoint, not empty and in scan order, and each part holds the rows of its visit in scan order. */
  ghost predicate Partitioned(visits: seq<Segment>, parts: seq<seq<Row>>, d: Direction) {
    && |visits| == |parts|
    && (forall i, j :: 0 <= i < j < |visits| ==> VisitBefore(visits[i], visits[j], d))
    && (forall i :: 0 <= i < |visits| && visits[i].end.Some? ==> Less(visits[i].start, visits[i].end.value))
    && (forall i :: 0 <= i < |parts| ==> InOrder(parts[i], d))
    && (forall i, r :: 0 <= i < |parts| && r in parts[i] ==> InSegment(r.sk, visits[i]))
  }

  function Flatten(parts: seq<seq<Row>>): seq<Row> {
    if parts == [] then [] else Flatten(parts[..|parts| - 1]) + parts[|parts| - 1]
  }

  /** The rows that the request owes in the parts `a .. b`. */
  function ScanRange(parts: seq<seq<Row>>, req: Request, a: nat, b: nat): seq<Row>
    requires a <= b <= |parts|
  {
    if a == b then [] else ScanRange(parts, req, a, b - 1) + Scan(parts[b - 1], req)
  }

  lemma {:induction false} ScanRangeSplits(parts: seq<seq<Row>>, req: Request, a: nat, b: nat, c: nat)
    requires a <= b <= c <= |parts|
    ensures ScanRange(parts, req, a, c) == ScanRange(parts, req, a, b) + ScanRange(parts, req, b, c)
  {
    if b < c {
      ScanRangeSplits(parts, req, a, b, c - 1);
    }
  }

  lemma {:induction false} ScanOfFlatten(parts: seq<seq<Row>>, req: Request, n: nat)
    requires n <= |parts|
    ensures Scan(Flatten(parts[..n]), req) == ScanRange(parts, req, 0, n)
  {
    if n > 0 {
      assert parts[..n][..n - 1] == parts[..n - 1];
      ScanOfFlatten(parts, req, n - 1);
      ScanOfAppend(Flatten(parts[..n - 1]), parts[n - 1], req);
    }
  }

  lemma {:induction false} PartOfRow(parts: seq<seq<Row>>, req: Request, a: nat, b: nat, r: Row) returns (j: nat)
    requires a <= b <= |parts| && r in ScanRange(parts, req, a, b)
    ensures a <= j < b && r in parts[j] && Wanted(r, req)
  {
    if r in Scan(parts[b - 1], req) {
      return b - 1;
    }
    j := PartOfRow(parts, req, a, b - 1, r);
  }

  /** The rows of an earlier part come before the rows of a later one. */
  lemma PartsInOrder(visits: seq<Segment>, parts: seq<seq<Row>>, d: Direction, i: nat, j: nat, a: Row, b: Row)
    requires Partitioned(visits, parts, d) && i < j < |parts| && a in parts[i] && b in parts[j]
    ensures RowBefore(a, b, d)
  {
    assert VisitBefore(visits[i], visits[j], d) && InSegment(a.sk, visits[i]) && InSegment(b.sk, visits[j]);
    if d.Asc? {
      Order(a.sk, visits[i].end.value, visits[j].start);
      Order(visits[i].end.value, visits[j].start, b.sk);
      Order(a.sk, visits[i].end.value, b.sk);
      Order(visits[j].start, visits[i].end.value, b.sk);
      Order(b.sk, visits[j].start, visits[i].end.value);
    } else {
      Order(b.sk, visits[j].end.value, visits[i].start);
      Order(visits[j].end.value, visits[i].start, a.sk);
      Order(b.sk, visits[j].end.value, a.sk);
      Order(visits[i].start, visits[j].end.value, a.sk);
      Order(a.sk, visits[i].start, visits[j].end.value);
    }
  }

  lemma {:induction false} FlattenInOrder(visits: seq<Segment>, parts: seq<seq<Row>>, d: Direction, n: nat)
    requires Partitioned(visits, parts, d) && n <= |parts|
    ensures InOrder(Flatten(parts[..n]), d)
    ensures forall r :: r in Flatten(parts[..n]) ==> exists i :: 0 <= i < n && r in parts[i]
  {
    if n > 0 {
      FlattenInOrder(visits, parts, d, n - 1);
      var init, last := Flatten(parts[..n - 1]), parts[n - 1];
      assert parts[..n][..n - 1] == parts[..n - 1];
      forall a, b | 0 <= a < b < |init + last| ensures RowBefore((init + last)[a], (init + last)[b], d) {
        if a < |init| <= b {
          assert init[a] in init;
          var i :| 0 <= i < n - 1 && init[a] in parts[i];
          PartsInOrder(visits, parts, d, i, n - 1, init[a], last[b - |init|]);
        }
      }
      forall r | r in init + last ensures exists i :: 0 <= i < n && r in parts[i] {
        if r in init {
          var i :| 0 <= i < n - 1 && r in parts[i];
        }
      }
    }
  }

  // ─── the part of one visit ──────────────────────────────────────────────────

  predicate IsCandidate(visit: Segment, req: Request) {
    RangeIntersects(visit, req.interval) && !(req.cursor.Some? && IsChildFullyBeforeCursor(visit, req.cursor.value, req.direction))
  }

  /** `clipQueryToVisit`, for a visit that is not behind the cursor. */
  function ClipQueryToVisit(req: Request, visit: Segment): Request {
    req.(interval := ClipToChildRange(req.interval, visit),
         cursor := if req.cursor.Some? && CursorFallsInChild(visit, req.cursor.value) then req.cursor else None)
  }

  lemma ClippedScan(rows: seq<Row>, visit: Segment, req: Request, b: Budget)
    requires IsCandidate(visit, req) && forall r :: r in rows ==> InSegment(r.sk, visit)
    ensures Scan(rows, ClipQueryToVisit(req, visit).(budget := b)) == Scan(rows, req)
  {
    forall r | r in rows ensures Wanted(r, ClipQueryToVisit(req, visit).(budget := b)) <==> Wanted(r, req) {
      ClipIsExact(req.interval, visit, r.sk);
      if req.cursor.Some? && !CursorFallsInChild(visit, req.cursor.value) {
        CursorBeforeChildOwesAll(visit, req.cursor.value, req.direction, r.sk);
      }
    }
    SameWanted(rows, ClipQueryToVisit(req, visit).(budget := b), req);
  }

  lemma NotACandidate(rows: seq<Row>, visit: Segment, req: Request)
    requires !IsCandidate(visit, req) && forall r :: r in rows ==> InSegment(r.sk, visit)
    ensures Scan(rows, req) == []
  {
    forall r | r in rows ensures !Wanted(r, req) {
      if InInterval(r.sk, req.interval) {
        IntersectionIsComplete(visit, req.interval, r.sk);
        FullyBeforeOwesNothing(visit, req.cursor.value, req.direction, r.sk);
      }
    }
    NothingWanted(rows, req);
  }

  lemma {:induction false} NoCandidatesBetween(visits: seq<Segment>, parts: seq<seq<Row>>, req: Request, a: nat, b: nat)
    requires Partitioned(visits, parts, req.direction) && a <= b <= |parts|
    requires forall i :: a <= i < b ==> !IsCandidate(visits[i], req)
    ensures ScanRange(parts, req, a, b) == []
  {
    if a < b {
      NoCandidatesBetween(visits, parts, req, a, b - 1);
      NotACandidate(parts[b - 1], visits[b - 1], req);
    }
  }

  // ─── cursors of the walk ────────────────────────────────────────────────────

  /** A cursor inside visit `i` owes nothing of the earlier parts, and everything of the later ones. */
  lemma CursorInVisit(visits: seq<Segment>, parts: seq<seq<Row>>, d: Direction, i: nat, c: Cursor, j: nat, r: Row)
    requires Partitioned(visits, parts, d) && i < |parts| && j < |parts| && r in parts[j] && InSegment(c.sk, visits[i])
    ensures j < i ==> !After(r.sk, Some(c), d)
    ensures i < j ==> After(r.sk, Some(c), d)
  {
    assert InSegment(r.sk, visits[j]);
    var p := Row(c.sk, 0, false, 0, []);
    var at := parts[i := [p]];
    assert Partitioned(visits, at, d) by {
      assert InOrder([p], d);
    }
    if j < i {
      PartsInOrder(visits, at, d, j, i, r, p);
      Order(r.sk, c.sk, r.sk);
      Order(c.sk, r.sk, c.sk);
    } else if i < j {
      PartsInOrder(visits, at, d, i, j, p, r);
    }
  }

  /** A cursor that was dropped for a visit lies before each position in it. */
  lemma DroppedCursorIsBefore(visit: Segment, req: Request, c: Cursor)
    requires IsCandidate(visit, req) && InSegment(c.sk, visit)
    requires req.cursor.Some? && !CursorFallsInChild(visit, req.cursor.value)
    ensures Moves(req.cursor, c, req.direction)
  {
    CursorBeforeChildOwesAll(visit, req.cursor.value, req.direction, c.sk);
  }

  /** A position at or after a row that is owed is a move. */
  lemma AfterOwedRow(req: Request, r: Row, c: Cursor)
    requires Wanted(r, req)
    requires (if req.direction.Asc? then Less(r.sk, c.sk) else Less(c.sk, r.sk)) || (c.sk == r.sk && !c.inclusive)
    ensures Moves(req.cursor, c, req.direction)
  {
    if req.cursor.Some? {
      Order(req.cursor.value.sk, r.sk, c.sk);
      Order(c.sk, r.sk, req.cursor.value.sk);
    }
  }

  /** The whole scan as the rows before part `i`, its rows, and the rows after it. */
  lemma ThreeParts(parts: seq<seq<Row>>, req: Request, i: nat)
    requires i < |parts|
    ensures ScanRange(parts, req, 0, |parts|) == ScanRange(parts, req, 0, i) + Scan(parts[i], req) + ScanRange(parts, req, i + 1, |parts|)
    ensures ScanRange(parts, req, 0, i + 1) == ScanRange(parts, req, 0, i) + Scan(parts[i], req)
  {
    ScanRangeSplits(parts, req, 0, i + 1, |parts|);
  }

  /** Of the rows of the parts `a` to `b`, a cursor inside visit `i` owes those of the later parts. */
  lemma RangeOwes(visits: seq<Segment>, parts: seq<seq<Row>>, req: Request, i: nat, c: Cursor, a: nat, b: nat)
    requires Partitioned(visits, parts, req.direction) && i < |parts| && a <= b <= |parts| && InSegment(c.sk, visits[i])
    requires b <= i || i < a
    ensures forall k :: 0 <= k < |ScanRange(parts, req, a, b)| ==> (After(ScanRange(parts, req, a, b)[k].sk, Some(c), req.direction) <==> i < a)
  {
    hide ScanRange, Partitioned, InSegment, After;
    var s := ScanRange(parts, req, a, b);
    forall k | 0 <= k < |s| ensures After(s[k].sk, Some(c), req.direction) <==> i < a {
      var j := PartOfRow(parts, req, a, b, s[k]);
      CursorInVisit(visits, parts, req.direction, i, c, j, s[k]);
    }
  }

  lemma OwesOfThree(before: seq<Row>, own: seq<Row>, rest: seq<Row>, n: nat, c: Cursor, d: Direction)
    requires n <= |own| && OwesFrom(own, n, c, d)
    requires forall k :: 0 <= k < |before| ==> !After(before[k].sk, Some(c), d)
    requires forall k :: 0 <= k < |rest| ==> After(rest[k].sk, Some(c), d)
    ensures OwesFrom(before + own + rest, |before| + n, c, d)
  {
    hide After;
    var s := before + own + rest;
    forall k | 0 <= k < |s| ensures After(s[k].sk, Some(c), d) <==> k >= |before| + n {
      assert s[k] == if k < |before| then before[k] else if k < |before| + |own| then own[k - |before|] else rest[k - |before| - |own|];
    }
  }

  lemma PartCursorOwes(visits: seq<Segment>, parts: seq<seq<Row>>, req: Request, i: nat, n: nat, c: Cursor)
    requires Partitioned(visits, parts, req.direction) && i < |parts| && n <= |Scan(parts[i], req)|
    requires OwesFrom(Scan(parts[i], req), n, c, req.direction) && InSegment(c.sk, visits[i])
    ensures OwesFrom(ScanRange(parts, req, 0, |parts|), |ScanRange(parts, req, 0, i)| + n, c, req.direction)
  {
    hide ScanRange, Scan, Partitioned, InSegment, After, OwesFrom;
    ThreeParts(parts, req, i);
    RangeOwes(visits, parts, req, i, c, 0, i);
    RangeOwes(visits, parts, req, i, c, i + 1, |parts|);
    OwesOfThree(ScanRange(parts, req, 0, i), Scan(parts[i], req), ScanRange(parts, req, i + 1, |parts|), n, c, req.direction);
  }

  /** The budget that a page leaves after some totals. */
  function Rest(b: Budget, out: Response): Budget {
    Budget(b.items - out.scannedCount, b.evaluated - out.evaluatedBytes, b.response - out.responseBytes, b.visits - out.visits, b.oversized && out.items == [])
  }

  /** The cursor of a part is the cursor of the page. */
  lemma PartStopIsHonest(visits: seq<Segment>, parts: seq<seq<Row>>, req: Request, i: nat, out: Response, part: Response)
    requires Partitioned(visits, parts, req.direction) && i < |parts| && IsCandidate(visits[i], req)
    requires Reports(out, ScanRange(parts, req, 0, i), req.projection) && part.nextCursor.Some?
    requires Honest(parts[i], ClipQueryToVisit(req, visits[i]).(budget := Rest(req.budget, out)), part)
    ensures HonestCursor(ScanRange(parts, req, 0, |parts|), out.scannedCount + part.scannedCount, part.nextCursor.value, req)
  {
    hide Scan, ScanRange, Flatten, TotalsOf, OwesFrom, CursorFits, ClipToChildRange, InOrder;
    var sub := ClipQueryToVisit(req, visits[i]).(budget := Rest(req.budget, out));
    var c := part.nextCursor.value;
    ClippedScan(parts[i], visits[i], req, Rest(req.budget, out));
    ClippedCursorFits(req.interval, visits[i], c);
    PartCursorOwes(visits, parts, req, i, part.scannedCount, c);
    if sub.cursor != req.cursor {
      DroppedCursorIsBefore(visits[i], req, c);
    } else if !Moves(req.cursor, c, req.direction) {
      StuckPart(visits, parts, req, i, out, c);
    }
  }

  /** A part stands before a blocked row: either rows were evaluated before it, or the row blocks the whole page. */
  lemma StuckPart(visits: seq<Segment>, parts: seq<seq<Row>>, req: Request, i: nat, out: Response, c: Cursor)
    requires Partitioned(visits, parts, req.direction) && i < |parts| && Reports(out, ScanRange(parts, req, 0, i), req.projection)
    requires Scan(parts[i], req) != [] && c == Cursor(Scan(parts[i], req)[0].sk, true)
    requires Blocked(Scan(parts[i], req)[0], req.(budget := Rest(req.budget, out)))
    ensures Moves(req.cursor, c, req.direction)
            || (out.scannedCount == 0 && ScanRange(parts, req, 0, |parts|) != [] && c == Cursor(ScanRange(parts, req, 0, |parts|)[0].sk, true)
                && Blocked(ScanRange(parts, req, 0, |parts|)[0], req))
  {
    ThreeParts(parts, req, i);
    var before, first := ScanRange(parts, req, 0, i), Scan(parts[i], req)[0];
    if before != [] {
      assert before[0] in before && first in Scan(parts[i], req);
      var j := PartOfRow(parts, req, 0, i, before[0]);
      PartsInOrder(visits, parts, req.direction, j, i, before[0], first);
      AfterOwedRow(req, before[0], c);
    } else {
      NoTotals(req.projection);
      assert ScanRange(parts, req, 0, |parts|)[0] == first;
    }
  }

  /** The cursor after the last evaluated row owes the rows that come after it. */
  lemma LastRowIsHonest(rows: seq<Row>, req: Request, n: nat)
    requires InOrder(rows, req.direction) && 0 < n <= |Scan(rows, req)|
    ensures HonestCursor(Scan(rows, req), n, Cursor(Scan(rows, req)[n - 1].sk, false), req)
  {
    ScanIsInOrder(rows, req);
    var s := Scan(rows, req);
    var c, d := Cursor(s[n - 1].sk, false), req.direction;
    forall k | 0 <= k < |s| ensures After(s[k].sk, Some(c), d) <==> k >= n {
      InOrderAt(s, k, n - 1, d);
    }
    assert s[n - 1] in s;
    KeyFits(req.interval, s[n - 1].sk, false);
    AfterOwedRow(req, s[n - 1], c);
  }

  /** The boundary after a visit owes the parts after it, and it is a move, because the visit was not behind the cursor. */
  lemma BoundaryIsHonest(visits: seq<Segment>, parts: seq<seq<Row>>, req: Request, i: nat, j: nat)
    requires Partitioned(visits, parts, req.direction) && i < j < |parts| && IsCandidate(visits[i], req) && IsCandidate(visits[j], req)
    ensures HonestCursor(ScanRange(parts, req, 0, |parts|), |ScanRange(parts, req, 0, i + 1)|, MakeBoundaryCursor(visits[i], req.direction), req)
  {
    BoundaryOwes(visits, parts, req, i, j);
    BoundaryFits(visits[i], visits[j], req);
  }

  lemma BoundaryOwes(visits: seq<Segment>, parts: seq<seq<Row>>, req: Request, i: nat, j: nat)
    requires Partitioned(visits, parts, req.direction) && i < j < |parts|
    ensures OwesFrom(ScanRange(parts, req, 0, |parts|), |ScanRange(parts, req, 0, i + 1)|, MakeBoundaryCursor(visits[i], req.direction), req.direction)
  {
    var d, c := req.direction, MakeBoundaryCursor(visits[i], req.direction);
    assert VisitBefore(visits[i], visits[j], d);
    ScanRangeSplits(parts, req, 0, i + 1, |parts|);
    var before, rest, s := ScanRange(parts, req, 0, i + 1), ScanRange(parts, req, i + 1, |parts|), ScanRange(parts, req, 0, |parts|);
    forall k | 0 <= k < |s| ensures After(s[k].sk, Some(c), d) <==> k >= |before| {
      BoundaryCursorIsExact(visits[i], d, s[k].sk);
      if k < |before| {
        assert s[k] == before[k];
        var m := PartOfRow(parts, req, 0, i + 1, s[k]);
        RowUpToVisit(visits, parts, d, m, i, s[k]);
      } else {
        assert s[k] == rest[k - |before|];
        var m := PartOfRow(parts, req, i + 1, |parts|, s[k]);
        RowBeyondVisit(visits, parts, d, i, m, s[k]);
      }
    }
  }

  lemma RowUpToVisit(visits: seq<Segment>, parts: seq<seq<Row>>, d: Direction, m: nat, i: nat, r: Row)
    requires Partitioned(visits, parts, d) && m <= i < |parts| && r in parts[m] && (d.Asc? ==> visits[i].end.Some?)
    ensures if d.Asc? then Less(r.sk, visits[i].end.value) else AtMost(visits[i].start, r.sk)
  {
    assert InSegment(r.sk, visits[m]);
    if m < i {
      assert VisitBefore(visits[m], visits[i], d);
      if d.Asc? {
        Order(r.sk, visits[m].end.value, visits[i].start);
        Order(visits[i].start, visits[m].end.value, r.sk);
        ChainBelow(r.sk, visits[m].end.value, visits[i]);
      } else {
        Order(visits[i].start, visits[i].end.value, visits[m].start);
        ChainAbove(r.sk, visits[m].start, visits[i]);
      }
    }
  }

  /** The segment is not empty, or it is before nothing: a key below its start is below its end. */
  lemma ChainBelow(sk: Bytes, e: Bytes, s: Segment)
    requires Less(sk, e) && AtMost(e, s.start) && s.end.Some?
    ensures Less(s.start, s.end.value) ==> Less(sk, s.end.value)
  {
    Order(sk, e, s.start);
    Order(e, s.start, s.end.value);
    Order(sk, e, s.end.value);
    Order(sk, s.start, s.end.value);
  }

  lemma ChainAbove(sk: Bytes, b: Bytes, s: Segment)
    requires AtMost(b, sk) && s.end.Some? && AtMost(s.end.value, b)
    ensures Less(s.start, s.end.value) ==> AtMost(s.start, sk)
  {
    Order(s.start, s.end.value, sk);
    Order(sk, s.start, s.end.value);
    Order(sk, s.end.value, b);
    Order(b, s.end.value, sk);
    Order(sk, b, s.end.value);
  }

  lemma RowBeyondVisit(visits: seq<Segment>, parts: seq<seq<Row>>, d: Direction, i: nat, m: nat, r: Row)
    requires Partitioned(visits, parts, d) && i < m < |parts| && r in parts[m]
    ensures if d.Asc? then visits[i].end.Some? && AtMost(visits[i].end.value, r.sk) else Less(r.sk, visits[i].start)
  {
    assert InSegment(r.sk, visits[m]) && VisitBefore(visits[i], visits[m], d);
    if d.Asc? {
      Order(r.sk, visits[i].end.value, visits[m].start);
      Order(visits[m].start, visits[i].end.value, r.sk);
      Order(r.sk, visits[m].start, visits[i].end.value);
    } else {
      Order(r.sk, visits[m].end.value, visits[i].start);
      Order(visits[i].start, visits[m].end.value, r.sk);
      Order(visits[i].start, r.sk, visits[m].end.value);
    }
  }

  lemma BoundaryFits(visit: Segment, later: Segment, req: Request)
    requires VisitBefore(visit, later, req.direction) && IsCandidate(visit, req) && IsCandidate(later, req)
    ensures CursorFits(req.interval, MakeBoundaryCursor(visit, req.direction))
    ensures Moves(req.cursor, MakeBoundaryCursor(visit, req.direction), req.direction)
  {
    var c := MakeBoundaryCursor(visit, req.direction);
    if req.direction.Asc? {
      if req.interval.lower.Some? {
        Order(req.interval.lower.value.value, c.sk, c.sk);
      }
      if req.interval.upper.Some? {
        Order(c.sk, later.start, req.interval.upper.value.value);
        Order(later.start, c.sk, req.interval.upper.value.value);
      }
      if req.cursor.Some? {
        Order(req.cursor.value.sk, c.sk, c.sk);
      }
    } else {
      if req.interval.lower.Some? {
        Order(req.interval.lower.value.value, later.end.value, c.sk);
        Order(c.sk, req.interval.lower.value.value, later.end.value);
      }
      if req.cursor.Some? {
        Order(req.cursor.value.sk, c.sk, c.sk);
      }
    }
  }

  // ─── the walk ───────────────────────────────────────────────────────────────

  /** `QueryPageBudget`. */
  class PageBudget {
    var items: int
    var evaluated: int
    var response: int
    var visits: int
    var oversized: bool

    constructor (b: Budget)
      ensures Left() == b
    {
      items, evaluated, response, visits, oversized := b.items, b.evaluated, b.response, b.visits, b.oversized;
    }

    function Left(): Budget
      reads this
    {
      Budget(items, evaluated, response, visits, oversized)
    }

    /** Applies one partition response. */
    method Consume(part: Response)
      modifies this
      ensures Left() == Rest(old(Left()), part)
    {
      items := items - part.scannedCount;
      evaluated := evaluated - part.evaluatedBytes;
      response := response - part.responseBytes;
      visits := visits - part.visits;
      if |part.items| > 0 {
        oversized := false;
      }
    }

    predicate BudgetExhausted()
      reads this
    {
      items <= 0 || evaluated <= 0 || response <= 0
    }

    predicate VisitsExhausted()
      reads this
    {
      visits <= 0
    }
  }

  predicate HasBudget(b: Budget) {
    b.items > 0 && b.evaluated > 0 && b.response > 0
  }

  /** Each part answers every request that has a budget with an honest page of its rows. */
  ghost predicate AllHonest(parts: seq<seq<Row>>, d: Direction, ask: (nat, Request) -> Response) {
    forall i: nat, r: Request :: i < |parts| && r.direction == d && HasBudget(r.budget) ==> Honest(parts[i], r, ask(i, r))
  }

  method SelectCandidates(visits: seq<Segment>, req: Request) returns (candidates: seq<nat>)
    ensures forall k :: 0 <= k < |candidates| ==> candidates[k] < |visits| && IsCandidate(visits[candidates[k]], req)
    ensures forall k, l :: 0 <= k < l < |candidates| ==> candidates[k] < candidates[l]
    ensures forall i :: 0 <= i < |visits| && i !in candidates ==> !IsCandidate(visits[i], req)
  {
    candidates := [];
    for i := 0 to |visits|
      invariant forall k :: 0 <= k < |candidates| ==> candidates[k] < i && IsCandidate(visits[candidates[k]], req)
      invariant forall k, l :: 0 <= k < l < |candidates| ==> candidates[k] < candidates[l]
      invariant forall j :: 0 <= j < i && j !in candidates ==> !IsCandidate(visits[j], req)
    {
      if IsCandidate(visits[i], req) {
        candidates := candidates + [i];
      }
    }
  }

  /** The first visit of the walk that is not done: the candidate `k`, or the end. */
  function NextVisit(candidates: seq<nat>, k: nat, count: nat): nat
    requires k <= |candidates|
  {
    if k < |candidates| then candidates[k] else count
  }

  ghost predicate AreCandidates(visits: seq<Segment>, req: Request, candidates: seq<nat>) {
    && (forall k :: 0 <= k < |candidates| ==> candidates[k] < |visits| && IsCandidate(visits[candidates[k]], req))
    && (forall k, l :: 0 <= k < l < |candidates| ==> candidates[k] < candidates[l])
    && (forall i :: 0 <= i < |visits| && i !in candidates ==> !IsCandidate(visits[i], req))
  }

  /** The visits between two candidates owe nothing. */
  lemma SkippedVisits(visits: seq<Segment>, parts: seq<seq<Row>>, req: Request, candidates: seq<nat>, k: nat)
    requires Partitioned(visits, parts, req.direction) && AreCandidates(visits, req, candidates) && k <= |candidates|
    ensures NextVisit(candidates, k, |visits|) <= |visits|
    ensures k == 0 ==> ScanRange(parts, req, 0, NextVisit(candidates, 0, |visits|)) == []
    ensures k > 0 ==> candidates[k - 1] < NextVisit(candidates, k, |visits|)
                      && ScanRange(parts, req, 0, NextVisit(candidates, k, |visits|)) == ScanRange(parts, req, 0, candidates[k - 1] + 1)
  {
    var from := if k == 0 then 0 else candidates[k - 1] + 1;
    var to := NextVisit(candidates, k, |visits|);
    forall i | from <= i < to ensures !IsCandidate(visits[i], req) {
      forall l | 0 <= l < |candidates| ensures candidates[l] != i {
      }
    }
    NoCandidatesBetween(visits, parts, req, from, to);
    ScanRangeSplits(parts, req, 0, from, to);
  }

  /** What the walk holds before a candidate. */
  ghost predicate WalkHolds(done: seq<Row>, req: Request, out: Response, left: Budget) {
    && Reports(out, done, req.projection) && left == Rest(req.budget, out)
    && (out.items == [] ==> out.responseBytes == 0)
    && out.scannedCount <= req.budget.items && out.evaluatedBytes <= req.budget.evaluated
    && (out.responseBytes <= req.budget.response || (req.budget.oversized && |out.items| == 1))
  }

  function Merge(out: Response, part: Response): Response {
    Response(out.items + part.items, out.count + part.count, out.scannedCount + part.scannedCount,
             out.evaluatedBytes + part.evaluatedBytes, out.responseBytes + part.responseBytes,
             if part.lastEvaluated.Some? then part.lastEvaluated else out.lastEvaluated, out.nextCursor, out.visits + part.visits)
  }

  lemma {:induction false} NoItemsNoBytes(rows: seq<Row>, projection: bool)
    ensures TotalsOf(rows, projection).items == [] ==> TotalsOf(rows, projection).response == 0
  {
    if rows != [] {
      NoItemsNoBytes(rows[..|rows| - 1], projection);
    }
  }

  lemma ReportsMerge(out: Response, part: Response, done: seq<Row>, more: seq<Row>, projection: bool)
    requires Reports(out, done, projection) && Reports(part, more, projection)
    ensures Reports(Merge(out, part), done + more, projection)
  {
    TotalsOfAppend(done, more, projection);
  }

  /** The page after one more part, within its budgets. */
  lemma MergeHolds(done: seq<Row>, req: Request, out: Response, part: Response, rows: seq<Row>, sub: Request)
    requires WalkHolds(done, req, out, sub.budget) && HasBudget(sub.budget) && Honest(rows, sub, part) && sub.projection == req.projection
    ensures WalkHolds(done + Scan(rows, sub)[..part.scannedCount], req, Merge(out, part), Rest(sub.budget, part))
  {
    hide Scan, TotalsOf, HonestCursor;
    ReportsMerge(out, part, done, Scan(rows, sub)[..part.scannedCount], req.projection);
    NoItemsNoBytes(Scan(rows, sub)[..part.scannedCount], req.projection);
  }

  /** Without a budget left, something was evaluated. */
  lemma ExhaustedMeansEvaluated(done: seq<Row>, req: Request, out: Response, left: Budget)
    requires WalkHolds(done, req, out, left) && HasBudget(req.budget) && !HasBudget(left)
    ensures done != []
  {
    NoTotals(req.projection);
  }

  lemma WholeScan(visits: seq<Segment>, parts: seq<seq<Row>>, req: Request)
    requires Partitioned(visits, parts, req.direction)
    ensures Scan(Flatten(parts), req) == ScanRange(parts, req, 0, |parts|) && InOrder(Flatten(parts), req.direction)
  {
    assert parts[..|parts|] == parts;
    ScanOfFlatten(parts, req, |parts|);
    FlattenInOrder(visits, parts, req.direction, |parts|);
  }

  lemma ScanPrefix(parts: seq<seq<Row>>, req: Request, n: nat)
    requires n <= |parts|
    ensures |ScanRange(parts, req, 0, n)| <= |ScanRange(parts, req, 0, |parts|)|
    ensures ScanRange(parts, req, 0, |parts|)[..|ScanRange(parts, req, 0, n)|] == ScanRange(parts, req, 0, n)
  {
    ScanRangeSplits(parts, req, 0, n, |parts|);
  }

  /** A page that evaluated the first parts whole, with no cursor or with an honest one. */
  lemma WholePartsAreHonest(visits: seq<Segment>, parts: seq<seq<Row>>, req: Request, n: nat, out: Response, left: Budget)
    requires Partitioned(visits, parts, req.direction) && n <= |parts| && HasBudget(req.budget)
    requires WalkHolds(ScanRange(parts, req, 0, n), req, out, left)
    requires out.nextCursor.None? ==> ScanRange(parts, req, 0, n) == ScanRange(parts, req, 0, |parts|)
    requires out.nextCursor.Some? ==> HonestCursor(ScanRange(parts, req, 0, |parts|), out.scannedCount, out.nextCursor.value, req)
    ensures Honest(Flatten(parts), req, out)
  {
    hide Scan, Flatten, TotalsOf, HonestCursor, ScanRange;
    WholeScan(visits, parts, req);
    ScanPrefix(parts, req, n);
  }

  /** The page ends inside part `i`, with the cursor of that part. */
  lemma PartPageIsHonest(visits: seq<Segment>, parts: seq<seq<Row>>, req: Request, i: nat, out: Response, part: Response, left: Budget)
    requires Partitioned(visits, parts, req.direction) && i < |parts| && HasBudget(req.budget) && IsCandidate(visits[i], req)
    requires WalkHolds(ScanRange(parts, req, 0, i), req, out, left) && HasBudget(left) && part.nextCursor.Some?
    requires Honest(parts[i], ClipQueryToVisit(req, visits[i]).(budget := left), part)
    ensures Honest(Flatten(parts), req, Merge(out, part).(nextCursor := part.nextCursor))
  {
    hide Flatten, TotalsOf, HonestCursor, Partitioned, IsCandidate, Scan, ScanRange, Reports;
    SameCount(visits, parts, req.direction);
    var sub := ClipQueryToVisit(req, visits[i]).(budget := left);
    assert forall r :: r in parts[i] ==> InSegment(r.sk, visits[i]) by { RowsInVisit(visits, parts, req.direction, i); }
    ClippedScan(parts[i], visits[i], req, left);
    PartStopIsHonest(visits, parts, req, i, out, part);
    MergeHolds(ScanRange(parts, req, 0, i), req, out, part, parts[i], sub);
    WholeScan(visits, parts, req);
    ThreeParts(parts, req, i);
    var s, done := ScanRange(parts, req, 0, |parts|), ScanRange(parts, req, 0, i) + Scan(parts[i], req)[..part.scannedCount];
    assert s[..|done|] == done;
    ReportsIgnoresCursor(Merge(out, part), part.nextCursor, done, req.projection);
  }

  lemma ReportsIgnoresCursor(out: Response, c: Option<Cursor>, rows: seq<Row>, projection: bool)
    requires Reports(out, rows, projection)
    ensures Reports(out.(nextCursor := c), rows, projection) && out.scannedCount == |rows|
  {
  }

  lemma SameCount(visits: seq<Segment>, parts: seq<seq<Row>>, d: Direction)
    requires Partitioned(visits, parts, d)
    ensures |visits| == |parts|
  {
  }

  lemma RowsInVisit(visits: seq<Segment>, parts: seq<seq<Row>>, d: Direction, i: nat)
    requires Partitioned(visits, parts, d) && i < |parts|
    ensures forall r :: r in parts[i] ==> InSegment(r.sk, visits[i])
  {
  }

  /** The end of one round: the cursor of the page, if it ends here. */
  lemma RoundEnds(visits: seq<Segment>, parts: seq<seq<Row>>, req: Request, candidates: seq<nat>, k: nat, out: Response, left: Budget)
    requires Partitioned(visits, parts, req.direction) && AreCandidates(visits, req, candidates) && k < |candidates| && HasBudget(req.budget)
    requires WalkHolds(ScanRange(parts, req, 0, candidates[k] + 1), req, out, left) && out.nextCursor.None?
    ensures k + 1 == |candidates| ==> Honest(Flatten(parts), req, out)
    ensures !HasBudget(left) ==> out.lastEvaluated.Some?
    ensures !HasBudget(left) && k + 1 < |candidates| ==> Honest(Flatten(parts), req, out.(nextCursor := out.lastEvaluated))
    ensures k + 1 < |candidates| ==> Honest(Flatten(parts), req, out.(nextCursor := Some(MakeBoundaryCursor(visits[candidates[k]], req.direction))))
  {
    hide Scan, Flatten, TotalsOf, HonestCursor, ScanRange, Honest, IsCandidate;
    var n := candidates[k] + 1;
    var done := ScanRange(parts, req, 0, n);
    SkippedVisits(visits, parts, req, candidates, k + 1);
    if k + 1 == |candidates| {
      WholePartsAreHonest(visits, parts, req, n, out, left);
    }
    WholeScan(visits, parts, req);
    ScanPrefix(parts, req, n);
    if !HasBudget(left) {
      ExhaustedMeansEvaluated(done, req, out, left);
      LastRowIsHonest(Flatten(parts), req, |done|);
      assert ScanRange(parts, req, 0, |parts|)[|done| - 1] == done[|done| - 1];
      WholePartsAreHonest(visits, parts, req, n, out.(nextCursor := out.lastEvaluated), left);
    }
    if k + 1 < |candidates| {
      var c := MakeBoundaryCursor(visits[candidates[k]], req.direction);
      BoundaryIsHonest(visits, parts, req, candidates[k], candidates[k + 1]);
      WholePartsAreHonest(visits, parts, req, n, out.(nextCursor := Some(c)), left);
    }
  }

  // ─── the walk goes forward ──────────────────────────────────────────────────

  /** The edges of the walk: those of its own visits, and those where the parts below it stop. */
  ghost predicate HoldsEdges(visits: seq<Segment>, parts: seq<seq<Row>>, d: Direction, ask: (nat, Request) -> Response, edges: set<Cursor>) {
    && (forall i :: 0 <= i < |visits| - 1 ==> MakeBoundaryCursor(visits[i], d) in edges)
    && (forall i: nat, r: Request :: i < |parts| && r.direction == d && HasBudget(r.budget) ==>
          Advances(parts[i], r, ask(i, r), edges) && StopsForBudget(parts[i], r, ask(i, r)))
  }

  lemma {:induction false} RowOfFlatten(parts: seq<seq<Row>>, i: nat, r: Row)
    requires i < |parts| && r in parts[i]
    ensures r in Flatten(parts)
  {
    if i < |parts| - 1 {
      RowOfFlatten(parts[..|parts| - 1], i, r);
    }
  }

  /** Before the first evaluated row, a part gets the budgets of the page, and only its visits are fewer. */
  lemma FirstPartFits(parts: seq<seq<Row>>, req: Request, i: nat, out: Response, done: seq<Row>)
    requires i < |parts| && Reports(out, done, req.projection) && out.scannedCount == 0 && FitsRows(req.budget, Flatten(parts))
    ensures FitsRows(Rest(req.budget, out), parts[i])
  {
    NoTotals(req.projection);
    assert done == [];
    forall j | 0 <= j < |parts[i]| ensures parts[i][j].est <= req.budget.evaluated {
      RowOfFlatten(parts, i, parts[i][j]);
    }
  }

  /** The page that ends inside a part evaluated a row, or it stops at the edge where that part stops. */
  lemma PartPageAdvances(parts: seq<seq<Row>>, req: Request, i: nat, sub: Request, out: Response, part: Response, done: seq<Row>, edges: set<Cursor>)
    requires i < |parts| && Reports(out, done, req.projection) && sub.budget == Rest(req.budget, out)
    requires Advances(parts[i], sub, part, edges)
    ensures Advances(Flatten(parts), req, Merge(out, part).(nextCursor := part.nextCursor), edges)
  {
    if FitsRows(req.budget, Flatten(parts)) && out.scannedCount == 0 {
      FirstPartFits(parts, req, i, out, done);
    }
  }

  /** A page with a budget that ran out evaluated a row. */
  lemma ExhaustedAdvances(rows: seq<Row>, done: seq<Row>, req: Request, out: Response, left: Budget, c: Option<Cursor>, edges: set<Cursor>)
    requires WalkHolds(done, req, out, left) && HasBudget(req.budget) && !HasBudget(left)
    ensures Advances(rows, req, out.(nextCursor := c), edges)
  {
    ExhaustedMeansEvaluated(done, req, out, left);
  }

  /** The page that ends inside a part stops for the budget that the part stopped for. */
  lemma PartPageStops(visits: seq<Segment>, parts: seq<seq<Row>>, req: Request, i: nat, out: Response, part: Response)
    requires Partitioned(visits, parts, req.direction) && i < |parts| && IsCandidate(visits[i], req)
    requires Reports(out, ScanRange(parts, req, 0, i), req.projection) && part.nextCursor.Some?
    requires StopsForBudget(parts[i], ClipQueryToVisit(req, visits[i]).(budget := Rest(req.budget, out)), part)
    ensures StopsForBudget(Flatten(parts), req, Merge(out, part).(nextCursor := part.nextCursor))
  {
    hide Scan, ScanRange, Flatten, TotalsOf, LastOf, Partitioned, IsCandidate, InSegment;
    SameCount(visits, parts, req.direction);
    RowsInVisit(visits, parts, req.direction, i);
    ClippedScan(parts[i], visits[i], req, Rest(req.budget, out));
    WholeScan(visits, parts, req);
    ThreeParts(parts, req, i);
  }

  /** A page that ends with a spent budget. */
  lemma SpentStops(rows: seq<Row>, req: Request, out: Response, left: Budget, c: Option<Cursor>)
    requires left == Rest(req.budget, out) && (!HasBudget(left) || left.visits <= 0)
    ensures StopsForBudget(rows, req, out.(nextCursor := c))
  {
    hide NextHasNoRoom;
  }

  lemma BoundaryAdvances(rows: seq<Row>, req: Request, out: Response, edges: set<Cursor>)
    requires out.nextCursor.None? || out.nextCursor.value in edges
    ensures Advances(rows, req, out, edges)
  {
  }

  lemma CandidatesGrow(visits: seq<Segment>, req: Request, candidates: seq<nat>, k: nat)
    requires AreCandidates(visits, req, candidates) && k + 1 < |candidates|
    ensures candidates[k] < |visits| - 1
  {
    assert candidates[k] < candidates[k + 1];
  }

  /**
   * `walkRangeVisits`: one page over all parts, and as honest as each of theirs. A page that evaluated
   * no row and goes on ends at an edge, so following the cursors ends. A page goes on only for a budget.
   */
  method WalkRangeVisits(req: Request, visits: seq<Segment>, ghost parts: seq<seq<Row>>, ask: (nat, Request) -> Response, ghost edges: set<Cursor>) returns (out: Response)
    requires Partitioned(visits, parts, req.direction) && HasBudget(req.budget) && AllHonest(parts, req.direction, ask)
    requires HoldsEdges(visits, parts, req.direction, ask, edges)
    ensures Honest(Flatten(parts), req, out)
    ensures Advances(Flatten(parts), req, out, edges) && StopsForBudget(Flatten(parts), req, out)
  {
    hide Advances, Honest, StopsForBudget, Partitioned, WalkHolds, IsCandidate, ScanRange, Flatten, AreCandidates, Merge, Rest;
    var budget := new PageBudget(req.budget);
    out := Response([], 0, 0, 0, 0, None, None, 0);
    var candidates := SelectCandidates(visits, req);
    assert AreCandidates(visits, req, candidates) by { CandidatesFold(visits, req, candidates); }
    SameCount(visits, parts, req.direction);
    SkippedVisits(visits, parts, req, candidates, 0);
    NothingHeld(req);
    ghost var n := NextVisit(candidates, 0, |visits|);
    for k := 0 to |candidates|
      invariant n == NextVisit(candidates, k, |visits|) && n <= |parts| == |visits|
      invariant WalkHolds(ScanRange(parts, req, 0, n), req, out, budget.Left()) && out.nextCursor.None?
      invariant HasBudget(budget.Left())
      invariant fresh(budget)
    {
      var i := candidates[k];
      var hasLaterCandidate := k < |candidates| - 1;
      var sub := ClipQueryToVisit(req, visits[i]).(budget := budget.Left());
      var part := ask(i, sub);
      assert Honest(parts[i], sub, part);
      assert Advances(parts[i], sub, part, edges) && StopsForBudget(parts[i], sub, part);
      ghost var before, left := out, budget.Left();
      out := Response(out.items + part.items, out.count + part.count, out.scannedCount + part.scannedCount,
                      out.evaluatedBytes + part.evaluatedBytes, out.responseBytes + part.responseBytes,
                      if part.lastEvaluated.Some? then part.lastEvaluated else out.lastEvaluated, out.nextCursor, out.visits + part.visits);
      MergeIs(before, part);
      budget.Consume(part);
      CandidateAt(visits, req, candidates, k);
      if part.nextCursor.Some? {
        PartPageIsHonest(visits, parts, req, i, before, part, left);
        WalkReports(ScanRange(parts, req, 0, i), req, before, left);
        PartPageAdvances(parts, req, i, sub, before, part, ScanRange(parts, req, 0, i), edges);
        PartPageStops(visits, parts, req, i, before, part);
        out := out.(nextCursor := part.nextCursor);
        return;
      }
      DrainedPart(visits, parts, req, i, before, part, left);
      RoundEnds(visits, parts, req, candidates, k, out, budget.Left());
      WalkReports(ScanRange(parts, req, 0, i + 1), req, out, budget.Left());
      if budget.BudgetExhausted() {
        ExhaustedAdvances(Flatten(parts), ScanRange(parts, req, 0, i + 1), req, out, budget.Left(), out.nextCursor, edges);
        ExhaustedAdvances(Flatten(parts), ScanRange(parts, req, 0, i + 1), req, out, budget.Left(), out.lastEvaluated, edges);
        SpentStops(Flatten(parts), req, out, budget.Left(), out.nextCursor);
        SpentStops(Flatten(parts), req, out, budget.Left(), out.lastEvaluated);
        if hasLaterCandidate && out.lastEvaluated.Some? {
          out := out.(nextCursor := out.lastEvaluated);
        }
        return;
      }
      if budget.VisitsExhausted() && hasLaterCandidate {
        CandidatesGrow(visits, req, candidates, k);
        SpentStops(Flatten(parts), req, out, budget.Left(), Some(MakeBoundaryCursor(visits[i], req.direction)));
        out := out.(nextCursor := Some(MakeBoundaryCursor(visits[i], req.direction)));
        BoundaryAdvances(Flatten(parts), req, out, edges);
        return;
      }
      SkippedVisits(visits, parts, req, candidates, k + 1);
      n := NextVisit(candidates, k + 1, |visits|);
    }
    WholePartsAreHonest(visits, parts, req, |visits|, out, budget.Left());
    BoundaryAdvances(Flatten(parts), req, out, edges);
    NoCursorStops(Flatten(parts), req, out);
  }

  lemma NoCursorStops(rows: seq<Row>, req: Request, out: Response)
    requires out.nextCursor.None?
    ensures StopsForBudget(rows, req, out)
  {
  }

  lemma WalkReports(done: seq<Row>, req: Request, out: Response, left: Budget)
    requires WalkHolds(done, req, out, left)
    ensures Reports(out, done, req.projection) && left == Rest(req.budget, out)
  {
  }

  lemma CandidatesFold(visits: seq<Segment>, req: Request, candidates: seq<nat>)
    requires forall k :: 0 <= k < |candidates| ==> candidates[k] < |visits| && IsCandidate(visits[candidates[k]], req)
    requires forall k, l :: 0 <= k < l < |candidates| ==> candidates[k] < candidates[l]
    requires forall i :: 0 <= i < |visits| && i !in candidates ==> !IsCandidate(visits[i], req)
    ensures AreCandidates(visits, req, candidates)
  {
  }

  lemma CandidateAt(visits: seq<Segment>, req: Request, candidates: seq<nat>, k: nat)
    requires AreCandidates(visits, req, candidates) && k < |candidates|
    ensures candidates[k] < |visits| && IsCandidate(visits[candidates[k]], req)
  {
  }

  lemma NothingHeld(req: Request)
    requires HasBudget(req.budget)
    ensures WalkHolds([], req, Response([], 0, 0, 0, 0, None, None, 0), req.budget)
  {
    NoTotals(req.projection);
  }

  lemma MergeIs(out: Response, part: Response)
    ensures Merge(out, part) == Response(out.items + part.items, out.count + part.count, out.scannedCount + part.scannedCount,
                                         out.evaluatedBytes + part.evaluatedBytes, out.responseBytes + part.responseBytes,
                                         if part.lastEvaluated.Some? then part.lastEvaluated else out.lastEvaluated, out.nextCursor, out.visits + part.visits)
  {
  }

  /** A part without a cursor gave all its rows. */
  lemma DrainedPart(visits: seq<Segment>, parts: seq<seq<Row>>, req: Request, i: nat, out: Response, part: Response, left: Budget)
    requires Partitioned(visits, parts, req.direction) && i < |parts| && IsCandidate(visits[i], req)
    requires WalkHolds(ScanRange(parts, req, 0, i), req, out, left) && HasBudget(left) && part.nextCursor.None?
    requires Honest(parts[i], ClipQueryToVisit(req, visits[i]).(budget := left), part)
    ensures WalkHolds(ScanRange(parts, req, 0, i + 1), req, Merge(out, part), Rest(left, part))
  {
    hide Flatten, TotalsOf, HonestCursor, IsCandidate, Scan, Reports, WalkHolds;
    RowsInVisit(visits, parts, req.direction, i);
    ClippedScan(parts[i], visits[i], req, left);
    MergeHolds(ScanRange(parts, req, 0, i), req, out, part, parts[i], ClipQueryToVisit(req, visits[i]).(budget := left));
    assert Scan(parts[i], req)[..|Scan(parts[i], req)|] == Scan(parts[i], req);
  }

  /** The visits of a range plan are visits that the walk can take. */
  lemma PlanIsWalkable(plan: seq<RangeFrontier.Visit>, parts: seq<seq<Row>>, d: Direction)
    requires RangeFrontier.InScanOrder(plan, d.Desc?) && |parts| == |plan|
    requires forall v :: v in plan ==> RangeFrontier.BelowEnd(v.segment.start, v.segment.end)
    requires forall i :: 0 <= i < |parts| ==> InOrder(parts[i], d)
    requires forall i, r :: 0 <= i < |parts| && r in parts[i] ==> InSegment(r.sk, plan[i].segment)
    ensures Partitioned(seq(|plan|, i requires 0 <= i < |plan| => plan[i].segment), parts, d)
  {
    var visits := seq(|plan|, i requires 0 <= i < |plan| => plan[i].segment);
    forall i, j | 0 <= i < j < |visits| ensures VisitBefore(visits[i], visits[j], d) {
      if d.Desc? {
        assert RangeFrontier.IsBefore(plan[j], plan[i]);
      } else {
        assert RangeFrontier.IsBefore(plan[i], plan[j]);
      }
    }
    forall i | 0 <= i < |visits| && visits[i].end.Some? ensures Less(visits[i].start, visits[i].end.value) {
      assert plan[i] in plan;
    }
  }
}
