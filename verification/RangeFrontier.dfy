/** The interval frontier of one range request: a partial cache of learned slices over a base cover. */
module RangeFrontier {
  import opened Bytes
  import opened KeyCodec
  import opened SkIntervals

  // ─── projection ─────────────────────────────────────────────────────────────

  /** `projectOnHashKey`: the sort keys of the hash key inside the composite interval, or nothing. */
  function ProjectOnHashKey(hk: Bytes, start: Option<ItemKey>, end: Option<ItemKey>): Option<Segment> {
    if start.Some? && Less(hk, start.value.hk) then None
    else
      var skStart := if start.Some? && start.value.hk == hk then start.value.sk else [];
      if end.None? then Some(Segment(skStart, None))
      else if Less(end.value.hk, hk) then None
      else if end.value.hk != hk then Some(Segment(skStart, None))
      else if end.value.sk == [] || (skStart != [] && !Less(skStart, end.value.sk)) then None
      else Some(Segment(skStart, Some(end.value.sk)))
  }

  /** The projection selects exactly the sort keys whose composite keys are in the interval. */
  lemma ProjectionIsExact(hk: Bytes, start: Option<ItemKey>, end: Option<ItemKey>, sk: Bytes)
    ensures InComposite(ItemKey(hk, sk), start, end)
            <==> ProjectOnHashKey(hk, start, end).Some? && InSegment(sk, ProjectOnHashKey(hk, start, end).value)
  {
    Order([], sk, sk);
    if start.Some? {
      Order(hk, start.value.hk, hk);
      Order(start.value.hk, hk, hk);
      Order(sk, start.value.sk, sk);
    }
    if end.Some? {
      Order(hk, end.value.hk, hk);
      Order(end.value.hk, hk, hk);
      Order(sk, end.value.sk, sk);
      if start.Some? {
        Order(start.value.sk, sk, end.value.sk);
        Order(sk, start.value.sk, end.value.sk);
        Order(start.value.sk, end.value.sk, sk);
      }
    }
  }

  lemma ProjectionIsNotEmpty(hk: Bytes, start: Option<ItemKey>, end: Option<ItemKey>)
    requires ProjectOnHashKey(hk, start, end).Some?
    ensures BelowEnd(ProjectOnHashKey(hk, start, end).value.start, ProjectOnHashKey(hk, start, end).value.end)
  {
  }

  // ─── segments ───────────────────────────────────────────────────────────────

  predicate BelowEnd(k: Bytes, end: Option<Bytes>) {
    end.Some? ==> Less(k, end.value)
  }

  predicate EndAtMost(a: Option<Bytes>, b: Option<Bytes>) {
    b.Some? ==> a.Some? && AtMost(a.value, b.value)
  }

  predicate Contains(outer: Segment, inner: Segment) {
    AtMost(outer.start, inner.start) && EndAtMost(inner.end, outer.end)
  }

  predicate StartAtMost(a: Option<ItemKey>, b: Option<ItemKey>) {
    a.Some? ==> b.Some? && CompositeAtMost(a.value, b.value)
  }

  predicate CompositeEndAtMost(a: Option<ItemKey>, b: Option<ItemKey>) {
    b.Some? ==> a.Some? && CompositeAtMost(a.value, b.value)
  }

  /** `isStrictSubSlice`: inside the base, and narrower than it. */
  predicate IsStrictSubSlice(s: Slice, start: Option<ItemKey>, end: Option<ItemKey>) {
    StartAtMost(start, s.start) && CompositeEndAtMost(s.end, end) && (s.start != start || s.end != end)
  }

  lemma AtMostIsTransitive(a: Bytes, b: Bytes, c: Bytes)
    requires AtMost(a, b) && AtMost(b, c)
    ensures AtMost(a, c)
  {
    Order(a, b, c);
    Order(b, c, a);
    Order(c, a, b);
  }

  lemma LessAtMost(a: Bytes, b: Bytes, c: Bytes)
    ensures Less(a, b) && AtMost(b, c) ==> Less(a, c)
    ensures AtMost(a, b) && Less(b, c) ==> Less(a, c)
    ensures Less(a, b) ==> AtMost(a, b)
    ensures !AtMost(a, b) <==> Less(b, a)
    ensures AtMost(a, a)
  {
    Order(a, b, c);
    Order(b, c, a);
    Order(b, a, c);
    Order(c, b, a);
  }

  // ─── the plan ───────────────────────────────────────────────────────────────

  datatype Target = Local | Ref(id: nat)

  datatype Base = Base(target: Target, start: Option<ItemKey>, end: Option<ItemKey>, speculative: bool)

  /** A learned slice. `id` is the partition that its boundaries name. */
  datatype Slice = Slice(id: nat, start: Option<ItemKey>, end: Option<ItemKey>, depth: nat)

  datatype Visit = Visit(target: Target, segment: Segment, speculative: bool, learned: Option<Slice>)

  function BaseSegment(hk: Bytes, b: Base): Option<Segment> {
    ProjectOnHashKey(hk, b.start, b.end)
  }

  function SliceSegment(hk: Bytes, s: Slice): Option<Segment> {
    ProjectOnHashKey(hk, s.start, s.end)
  }

  /** The overlay of a base: the slices that are narrower than it, also on the sort keys of the hash key. */
  predicate IsInside(hk: Bytes, b: Base, s: Slice) {
    && SliceSegment(hk, s).Some? && BaseSegment(hk, b).Some?
    && IsStrictSubSlice(s, b.start, b.end)
    && Contains(BaseSegment(hk, b).value, SliceSegment(hk, s).value)
    && SliceSegment(hk, s).value != BaseSegment(hk, b).value
  }

  /** The bases do not overlap, and ascend. */
  predicate BasesAscend(bases: seq<Base>) {
    forall i, j :: 0 <= i < j < |bases| ==> bases[i].end.Some? && bases[j].start.Some? && CompositeAtMost(bases[i].end.value, bases[j].start.value)
  }

  /** A partition has one interval, because its name holds its boundaries. */
  ghost predicate OneIntervalPerPartition(bases: seq<Base>, learned: seq<Slice>) {
    && (forall a, b :: a in learned && b in learned && a.id == b.id ==> a == b)
    && (forall b, s :: b in bases && s in learned && b.target == Ref(s.id) ==> b.start == s.start && b.end == s.end)
  }

  /** The visit goes to its base, or to a learned slice of the overlay that contains it. */
  ghost predicate InOwnInterval(hk: Bytes, b: Base, learned: seq<Slice>, v: Visit) {
    && BaseSegment(hk, b).Some? && Contains(BaseSegment(hk, b).value, v.segment) && v.speculative == b.speculative
    && (v.learned.None? ==> v.target == b.target)
    && (v.learned.Some? ==>
         && v.target == Ref(v.learned.value.id) && v.learned.value in learned && IsInside(hk, b, v.learned.value)
         && Contains(SliceSegment(hk, v.learned.value).value, v.segment))
  }

  /** No slice of the overlay that holds a key of the visit is deeper than the target of the visit. */
  ghost predicate IsDeepest(hk: Bytes, b: Base, learned: seq<Slice>, v: Visit) {
    forall s, sk {:trigger SliceHolds(hk, s, sk), InSegment(sk, v.segment)} ::
      s in learned && IsInside(hk, b, s) && InSegment(sk, v.segment) && SliceHolds(hk, s, sk) ==>
        v.learned.Some? && s.depth <= v.learned.value.depth
  }

  predicate SliceHolds(hk: Bytes, s: Slice, sk: Bytes) {
    SliceSegment(hk, s).Some? && InSegment(sk, SliceSegment(hk, s).value)
  }

  predicate IsBefore(a: Visit, b: Visit) {
    a.segment.end.Some? && AtMost(a.segment.end.value, b.segment.start)
  }

  ghost predicate Ascend(visits: seq<Visit>) {
    forall i, j :: 0 <= i < j < |visits| ==> IsBefore(visits[i], visits[j])
  }

  ghost predicate Covered(visits: seq<Visit>, sk: Bytes) {
    exists i :: 0 <= i < |visits| && InSegment(sk, visits[i].segment)
  }

  // ─── boundaries inside a base ───────────────────────────────────────────────

  predicate StrictlyAscend(points: seq<Bytes>) {
    forall i, j :: 0 <= i < j < |points| ==> Less(points[i], points[j])
  }

  predicate IsStrictlyInside(p: Bytes, segment: Segment) {
    Less(segment.start, p) && BelowEnd(p, segment.end)
  }

  /** Each learned edge strictly inside the segment is a point. */
  ghost predicate PointsCover(points: seq<Bytes>, segment: Segment, inner: Segment) {
    && (IsStrictlyInside(inner.start, segment) ==> inner.start in points)
    && (inner.end.Some? && IsStrictlyInside(inner.end.value, segment) ==> inner.end.value in points)
  }

  lemma InsertKeepsOrder(sorted: seq<Bytes>, i: nat, p: Bytes)
    requires StrictlyAscend(sorted) && i <= |sorted|
    requires forall j :: 0 <= j < i ==> Less(sorted[j], p)
    requires forall j :: i <= j < |sorted| ==> Less(p, sorted[j])
    ensures StrictlyAscend(sorted[..i] + [p] + sorted[i..])
    ensures forall q :: q in sorted[..i] + [p] + sorted[i..] <==> q in sorted || q == p
  {
    hide Less;
    var s := sorted[..i] + [p] + sorted[i..];
    forall a, b | 0 <= a < b < |s| ensures Less(s[a], s[b]) {
      assert s[a] == if a < i then sorted[a] else if a == i then p else sorted[a - 1];
      assert s[b] == if b < i then sorted[b] else if b == i then p else sorted[b - 1];
    }
    assert sorted == sorted[..i] + sorted[i..];
  }

  /** `points.sort`, as an insertion of each point at its place. */
  method SortKeys(points: seq<Bytes>) returns (sorted: seq<Bytes>)
    requires forall i, j :: 0 <= i < j < |points| ==> points[i] != points[j]
    ensures StrictlyAscend(sorted)
    ensures forall p :: p in sorted <==> p in points
  {
    sorted := [];
    for n := 0 to |points|
      invariant StrictlyAscend(sorted)
      invariant forall p :: p in sorted <==> p in points[..n]
    {
      var i := 0;
      assert points[n] !in points[..n];
      while i < |sorted| && Less(sorted[i], points[n])
        invariant 0 <= i <= |sorted|
        invariant forall j :: 0 <= j < i ==> Less(sorted[j], points[n])
      {
        i := i + 1;
      }
      forall j | i <= j < |sorted| ensures Less(points[n], sorted[j]) {
        assert sorted[i] in sorted && sorted[i] != points[n];
        Order(points[n], sorted[i], sorted[j]);
        Order(points[n], sorted[i], points[n]);
      }
      InsertKeepsOrder(sorted, i, points[n]);
      assert points[..n + 1] == points[..n] + [points[n]];
      sorted := sorted[..i] + [points[n]] + sorted[i..];
    }
    assert points[..|points|] == points;
  }

  method AddPoint(points: seq<Bytes>, p: Bytes, segment: Segment) returns (out: seq<Bytes>)
    requires forall i, j :: 0 <= i < j < |points| ==> points[i] != points[j]
    ensures forall i, j :: 0 <= i < j < |out| ==> out[i] != out[j]
    ensures forall q :: q in out <==> q in points || (q == p && IsStrictlyInside(p, segment))
  {
    if IsStrictlyInside(p, segment) && p !in points {
      out := points + [p];
    } else {
      out := points;
    }
  }

  method CollectPoints(hk: Bytes, inside: seq<Slice>, segment: Segment) returns (points: seq<Bytes>)
    requires forall s :: s in inside ==> SliceSegment(hk, s).Some?
    ensures StrictlyAscend(points)
    ensures forall p :: p in points ==> IsStrictlyInside(p, segment)
    ensures forall s :: s in inside ==> PointsCover(points, segment, SliceSegment(hk, s).value)
  {
    var found: seq<Bytes> := [];
    for n := 0 to |inside|
      invariant forall i, j :: 0 <= i < j < |found| ==> found[i] != found[j]
      invariant forall p :: p in found ==> IsStrictlyInside(p, segment)
      invariant forall k :: 0 <= k < n ==> PointsCover(found, segment, SliceSegment(hk, inside[k]).value)
    {
      var inner := SliceSegment(hk, inside[n]).value;
      found := AddPoint(found, inner.start, segment);
      if inner.end.Some? {
        found := AddPoint(found, inner.end.value, segment);
      }
    }
    points := SortKeys(found);
  }

  /** The pieces of the segment between the points. */
  function PieceAt(segment: Segment, points: seq<Bytes>, i: nat): Segment
    requires i <= |points|
  {
    Segment(if i == 0 then segment.start else points[i - 1], if i == |points| then segment.end else Some(points[i]))
  }

  /** The points split the segment: each piece is inside it and not empty, and no point is strictly inside a piece. */
  ghost predicate PointsSplit(segment: Segment, points: seq<Bytes>) {
    && StrictlyAscend(points) && BelowEnd(segment.start, segment.end)
    && forall p :: p in points ==> IsStrictlyInside(p, segment)
  }

  lemma PieceFits(segment: Segment, points: seq<Bytes>, i: nat)
    requires PointsSplit(segment, points) && i <= |points|
    ensures Contains(segment, PieceAt(segment, points, i)) && BelowEnd(PieceAt(segment, points, i).start, PieceAt(segment, points, i).end)
    ensures forall p :: p in points ==> !IsStrictlyInside(p, PieceAt(segment, points, i))
  {
    var piece := PieceAt(segment, points, i);
    LessIrreflexive(segment.start);
    if i > 0 {
      assert IsStrictlyInside(points[i - 1], segment);
      LessAtMost(segment.start, points[i - 1], segment.start);
    }
    if i < |points| {
      assert IsStrictlyInside(points[i], segment);
      if segment.end.Some? {
        LessAtMost(points[i], segment.end.value, points[i]);
      }
    } else if segment.end.Some? {
      LessIrreflexive(segment.end.value);
    }
    forall p | p in points ensures !IsStrictlyInside(p, piece) {
      var k :| 0 <= k < |points| && points[k] == p;
      LessIrreflexive(p);
      if k < i - 1 {
        Order(p, points[i - 1], p);
      } else if i < k {
        Order(points[i], p, p);
      }
    }
  }

  /** A slice whose edges are points contains a whole piece, or none of its keys. */
  lemma PieceIsWhole(segment: Segment, points: seq<Bytes>, i: nat, inner: Segment, sk: Bytes)
    requires PointsSplit(segment, points) && i <= |points| && PointsCover(points, segment, inner)
    requires InSegment(sk, PieceAt(segment, points, i)) && InSegment(sk, inner)
    ensures Contains(inner, PieceAt(segment, points, i))
  {
    var piece := PieceAt(segment, points, i);
    PieceFits(segment, points, i);
    StartIsBefore(segment, piece, inner.start, sk);
    if inner.end.Some? {
      EndIsAfter(segment, piece, inner.end.value, sk);
    }
  }

  /** An edge at or below a key of the piece, and not strictly inside the piece, is at or below its start. */
  lemma StartIsBefore(segment: Segment, piece: Segment, p: Bytes, sk: Bytes)
    requires Contains(segment, piece) && InSegment(sk, piece) && AtMost(p, sk)
    requires IsStrictlyInside(p, segment) ==> !IsStrictlyInside(p, piece)
    ensures AtMost(p, piece.start)
  {
    LessAtMost(segment.start, piece.start, p);
    LessAtMost(p, piece.start, p);
    if piece.end.Some? {
      LessAtMost(p, sk, piece.end.value);
      if segment.end.Some? {
        LessAtMost(p, piece.end.value, segment.end.value);
      }
    }
  }

  /** An edge above a key of the piece, and not strictly inside the piece, is at or above its end. */
  lemma EndIsAfter(segment: Segment, piece: Segment, p: Bytes, sk: Bytes)
    requires Contains(segment, piece) && InSegment(sk, piece) && Less(sk, p)
    requires IsStrictlyInside(p, segment) ==> !IsStrictlyInside(p, piece)
    ensures piece.end.Some? && AtMost(piece.end.value, p)
  {
    LessAtMost(piece.start, sk, p);
    LessAtMost(segment.start, piece.start, p);
    if piece.end.Some? {
      LessAtMost(piece.end.value, p, p);
      if segment.end.Some? {
        LessAtMost(p, piece.end.value, segment.end.value);
      }
    }
  }

  // ─── one base ───────────────────────────────────────────────────────────────

  method FilterInside(hk: Bytes, b: Base, learned: seq<Slice>) returns (inside: seq<Slice>)
    ensures forall s :: s in inside <==> s in learned && IsInside(hk, b, s)
  {
    inside := [];
    for i := 0 to |learned|
      invariant forall s :: s in inside <==> s in learned[..i] && IsInside(hk, b, s)
    {
      assert learned[..i + 1] == learned[..i] + [learned[i]];
      if IsInside(hk, b, learned[i]) {
        inside := inside + [learned[i]];
      }
    }
    assert learned[..|learned|] == learned;
  }

  /** The deepest slice of the overlay that contains the piece. */
  method DeepestFor(hk: Bytes, inside: seq<Slice>, piece: Segment) returns (deepest: Option<Slice>)
    requires forall s :: s in inside ==> SliceSegment(hk, s).Some?
    ensures deepest.Some? ==> deepest.value in inside && Contains(SliceSegment(hk, deepest.value).value, piece)
    ensures forall s :: s in inside && Contains(SliceSegment(hk, s).value, piece) ==> deepest.Some? && s.depth <= deepest.value.depth
  {
    deepest := None;
    for i := 0 to |inside|
      invariant deepest.Some? ==> deepest.value in inside && Contains(SliceSegment(hk, deepest.value).value, piece)
      invariant forall k :: 0 <= k < i && Contains(SliceSegment(hk, inside[k]).value, piece) ==> deepest.Some? && inside[k].depth <= deepest.value.depth
    {
      if Contains(SliceSegment(hk, inside[i]).value, piece) && (deepest.None? || inside[i].depth > deepest.value.depth) {
        deepest := Some(inside[i]);
      }
    }
  }

  ghost predicate GoodVisit(hk: Bytes, b: Base, learned: seq<Slice>, v: Visit) {
    InOwnInterval(hk, b, learned, v) && IsDeepest(hk, b, learned, v)
  }

  /** A piece with its deepest slice is a good visit. */
  lemma PieceIsGood(hk: Bytes, b: Base, learned: seq<Slice>, points: seq<Bytes>, i: nat, v: Visit)
    requires BaseSegment(hk, b).Some? && PointsSplit(BaseSegment(hk, b).value, points) && i <= |points|
    requires forall s :: s in learned && IsInside(hk, b, s) ==> PointsCover(points, BaseSegment(hk, b).value, SliceSegment(hk, s).value)
    requires InOwnInterval(hk, b, learned, v) && v.segment == PieceAt(BaseSegment(hk, b).value, points, i)
    requires forall s :: s in learned && IsInside(hk, b, s) && Contains(SliceSegment(hk, s).value, v.segment) ==> v.learned.Some? && s.depth <= v.learned.value.depth
    ensures GoodVisit(hk, b, learned, v)
  {
    forall s, sk | s in learned && IsInside(hk, b, s) && InSegment(sk, v.segment) && SliceHolds(hk, s, sk)
      ensures v.learned.Some? && s.depth <= v.learned.value.depth
    {
      PieceIsWhole(BaseSegment(hk, b).value, points, i, SliceSegment(hk, s).value, sk);
    }
  }

  /** Two neighbours with one target have one slice, so the merged visit is good. */
  lemma MergeIsGood(hk: Bytes, b: Base, learned: seq<Slice>, v: Visit, w: Visit)
    requires OneIntervalPerPartition([b], learned)
    requires GoodVisit(hk, b, learned, v) && GoodVisit(hk, b, learned, w) && v.target == w.target && v.segment.end == Some(w.segment.start)
    requires BelowEnd(v.segment.start, v.segment.end) && BelowEnd(w.segment.start, w.segment.end)
    ensures GoodVisit(hk, b, learned, v.(segment := Segment(v.segment.start, w.segment.end)))
    ensures v.learned == w.learned
  {
    assert b in [b];
    assert v.learned == w.learned;
    var merged := v.(segment := Segment(v.segment.start, w.segment.end));
    forall s, sk | s in learned && IsInside(hk, b, s) && InSegment(sk, merged.segment) && SliceHolds(hk, s, sk)
      ensures merged.learned.Some? && s.depth <= merged.learned.value.depth
    {
      LessAtMost(w.segment.start, sk, sk);
      assert InSegment(sk, v.segment) || InSegment(sk, w.segment);
    }
  }

  /** What the visits of the first pieces keep. `from` is the start of the next piece, or nothing after the last one. */
  ghost predicate PlannedUpTo(hk: Bytes, b: Base, learned: seq<Slice>, interval: SkInterval, visits: seq<Visit>, from: Option<Bytes>)
    requires BaseSegment(hk, b).Some?
  {
    && (forall v :: v in visits ==> GoodVisit(hk, b, learned, v) && BelowEnd(v.segment.start, v.segment.end))
    && Ascend(visits)
    && (from.Some? ==> forall v :: v in visits ==> v.segment.end.Some? && AtMost(v.segment.end.value, from.value))
    && (forall sk :: InInterval(sk, interval) && InSegment(sk, BaseSegment(hk, b).value) && (from.Some? ==> Less(sk, from.value)) ==> Covered(visits, sk))
  }

  /** No visit goes to a segment that the interval does not meet. */
  ghost predicate EachIsRequested(visits: seq<Visit>, interval: SkInterval) {
    forall v :: v in visits ==> RangeIntersects(v.segment, interval)
  }

  /** Two visits in a row that touch go to different targets. */
  ghost predicate NeighboursAreMerged(visits: seq<Visit>) {
    forall i {:trigger visits[i]} :: 0 <= i < |visits| - 1 && visits[i].segment.end == Some(visits[i + 1].segment.start) ==>
      visits[i].target != visits[i + 1].target
  }

  lemma NoneIsMerged(interval: SkInterval)
    ensures EachIsRequested([], interval) && NeighboursAreMerged([])
  {
  }

  lemma PushIsMerged(visits: seq<Visit>, interval: SkInterval, v: Visit)
    requires EachIsRequested(visits, interval) && NeighboursAreMerged(visits) && RangeIntersects(v.segment, interval)
    requires visits != [] && visits[|visits| - 1].segment.end == Some(v.segment.start) ==> visits[|visits| - 1].target != v.target
    ensures EachIsRequested(visits + [v], interval) && NeighboursAreMerged(visits + [v])
  {
    hide RangeIntersects;
  }

  lemma ExtendIsMerged(visits: seq<Visit>, interval: SkInterval, w: Segment)
    requires EachIsRequested(visits, interval) && NeighboursAreMerged(visits) && RangeIntersects(w, interval) && visits != []
    ensures var n, last := |visits| - 1, visits[|visits| - 1];
            var after := visits[n := last.(segment := Segment(last.segment.start, w.end))];
            EachIsRequested(after, interval) && NeighboursAreMerged(after)
  {
    assert visits[|visits| - 1] in visits;
    hide Less, AtMost;
  }

  /** After a piece that is not requested, the last visit ends below the next piece. */
  lemma SkipLeavesGap(hk: Bytes, b: Base, learned: seq<Slice>, interval: SkInterval, visits: seq<Visit>, piece: Segment)
    requires BaseSegment(hk, b).Some? && PlannedUpTo(hk, b, learned, interval, visits, Some(piece.start))
    requires BelowEnd(piece.start, piece.end)
    ensures visits != [] && piece.end.Some? ==> EndsBelow(visits[|visits| - 1], piece.end.value)
  {
    hide GoodVisit;
    if visits != [] && piece.end.Some? {
      var last := visits[|visits| - 1];
      assert last in visits;
      LessAtMost(last.segment.end.value, piece.start, piece.end.value);
    }
  }

  predicate EndsBelow(v: Visit, p: Bytes) {
    v.segment.end.Some? && Less(v.segment.end.value, p)
  }

  lemma EndsBelowIsNoNeighbour(v: Visit, p: Bytes)
    requires EndsBelow(v, p)
    ensures v.segment.end != Some(p)
  {
    LessIrreflexive(p);
  }

  /** A piece that does not intersect the interval needs no visit. */
  lemma SkipKeeps(hk: Bytes, b: Base, learned: seq<Slice>, interval: SkInterval, visits: seq<Visit>, piece: Segment)
    requires BaseSegment(hk, b).Some? && PlannedUpTo(hk, b, learned, interval, visits, Some(piece.start))
    requires BelowEnd(piece.start, piece.end) && !RangeIntersects(piece, interval)
    ensures PlannedUpTo(hk, b, learned, interval, visits, piece.end)
  {
    hide GoodVisit;
    forall sk | InInterval(sk, interval) && InSegment(sk, BaseSegment(hk, b).value) && (piece.end.Some? ==> Less(sk, piece.end.value))
      ensures Covered(visits, sk)
    {
      if AtMost(piece.start, sk) {
        IntersectionIsComplete(piece, interval, sk);
        assert false;
      }
    }
    if piece.end.Some? {
      forall v | v in visits ensures AtMost(v.segment.end.value, piece.end.value) {
        LessAtMost(piece.start, piece.end.value, piece.start);
        AtMostIsTransitive(v.segment.end.value, piece.start, piece.end.value);
      }
    }
  }

  lemma PushKeeps(hk: Bytes, b: Base, learned: seq<Slice>, interval: SkInterval, visits: seq<Visit>, v: Visit)
    requires BaseSegment(hk, b).Some? && PlannedUpTo(hk, b, learned, interval, visits, Some(v.segment.start))
    requires GoodVisit(hk, b, learned, v) && BelowEnd(v.segment.start, v.segment.end)
    ensures PlannedUpTo(hk, b, learned, interval, visits + [v], v.segment.end)
  {
    hide GoodVisit;
    var after := visits + [v];
    forall sk | InInterval(sk, interval) && InSegment(sk, BaseSegment(hk, b).value) && (v.segment.end.Some? ==> Less(sk, v.segment.end.value))
      ensures Covered(after, sk)
    {
      if AtMost(v.segment.start, sk) {
        assert InSegment(sk, after[|visits|].segment);
      } else {
        var i :| 0 <= i < |visits| && InSegment(sk, visits[i].segment);
        assert after[i] == visits[i];
      }
    }
    if v.segment.end.Some? {
      LessAtMost(v.segment.start, v.segment.end.value, v.segment.end.value);
      LessIrreflexive(v.segment.end.value);
      forall u | u in after ensures u.segment.end.Some? && AtMost(u.segment.end.value, v.segment.end.value) {
        if u in visits {
          AtMostIsTransitive(u.segment.end.value, v.segment.start, v.segment.end.value);
        }
      }
    }
  }

  lemma ExtendKeeps(hk: Bytes, b: Base, learned: seq<Slice>, interval: SkInterval, visits: seq<Visit>, w: Visit)
    requires BaseSegment(hk, b).Some? && PlannedUpTo(hk, b, learned, interval, visits, Some(w.segment.start)) && visits != []
    requires OneIntervalPerPartition([b], learned) && GoodVisit(hk, b, learned, w) && BelowEnd(w.segment.start, w.segment.end)
    requires visits[|visits| - 1].target == w.target && visits[|visits| - 1].segment.end == Some(w.segment.start)
    ensures var last := visits[|visits| - 1];
            PlannedUpTo(hk, b, learned, interval, visits[|visits| - 1 := last.(segment := Segment(last.segment.start, w.segment.end))], w.segment.end)
  {
    var n, last := |visits| - 1, visits[|visits| - 1];
    MergeIsGood(hk, b, learned, last, w);
    hide GoodVisit;
    var merged := last.(segment := Segment(last.segment.start, w.segment.end));
    var after := visits[n := merged];
    assert BelowEnd(merged.segment.start, merged.segment.end) by {
      if w.segment.end.Some? {
        Order(last.segment.start, w.segment.start, w.segment.end.value);
      }
    }
    forall i, j | 0 <= i < j < |after| ensures IsBefore(after[i], after[j]) {
      assert IsBefore(visits[i], visits[j]);
    }
    forall sk | InInterval(sk, interval) && InSegment(sk, BaseSegment(hk, b).value) && (w.segment.end.Some? ==> Less(sk, w.segment.end.value))
      ensures Covered(after, sk)
    {
      if AtMost(w.segment.start, sk) {
        LessAtMost(last.segment.start, w.segment.start, sk);
        LessAtMost(last.segment.start, sk, sk);
        assert InSegment(sk, after[n].segment);
      } else {
        var i :| 0 <= i < |visits| && InSegment(sk, visits[i].segment);
        if i == n && w.segment.end.Some? {
          Order(sk, w.segment.start, w.segment.end.value);
        }
        assert InSegment(sk, after[i].segment);
      }
    }
    if w.segment.end.Some? {
      LessAtMost(w.segment.start, w.segment.end.value, w.segment.end.value);
      LessIrreflexive(w.segment.end.value);
      forall u | u in after ensures u.segment.end.Some? && AtMost(u.segment.end.value, w.segment.end.value) {
        if u in visits {
          AtMostIsTransitive(u.segment.end.value, w.segment.start, w.segment.end.value);
        }
      }
    }
  }

  lemma NothingPlanned(hk: Bytes, b: Base, learned: seq<Slice>, interval: SkInterval)
    requires BaseSegment(hk, b).Some?
    ensures PlannedUpTo(hk, b, learned, interval, [], Some(BaseSegment(hk, b).value.start))
  {
  }

  /** A base without an overlay is one visit. */
  lemma WholeBaseIsGood(hk: Bytes, b: Base, learned: seq<Slice>)
    requires BaseSegment(hk, b).Some? && forall s :: s in learned ==> !IsInside(hk, b, s)
    ensures GoodVisit(hk, b, learned, Visit(b.target, BaseSegment(hk, b).value, b.speculative, None))
  {
    var segment := BaseSegment(hk, b).value;
    LessIrreflexive(segment.start);
    if segment.end.Some? {
      LessIrreflexive(segment.end.value);
    }
  }

  /** A base without an overlay is planned with one visit. */
  lemma WholeBaseIsPlanned(hk: Bytes, b: Base, learned: seq<Slice>, interval: SkInterval)
    requires BaseSegment(hk, b).Some? && RangeIntersects(BaseSegment(hk, b).value, interval)
    requires forall s :: s in learned ==> !IsInside(hk, b, s)
    ensures var visits := [Visit(b.target, BaseSegment(hk, b).value, b.speculative, None)];
            PlannedUpTo(hk, b, learned, interval, visits, None) && EachIsRequested(visits, interval) && NeighboursAreMerged(visits)
  {
    hide PlannedUpTo, GoodVisit, IsInside;
    var whole := Visit(b.target, BaseSegment(hk, b).value, b.speculative, None);
    WholeBaseIsGood(hk, b, learned);
    ProjectionIsNotEmpty(hk, b.start, b.end);
    NothingPlanned(hk, b, learned, interval);
    PushKeeps(hk, b, learned, interval, [], whole);
    WholeIsAll(hk, b, learned, interval, [] + [whole]);
    assert [] + [whole] == [whole];
  }

  /** The visit that a piece gives with its deepest slice. */
  lemma DeepestIsGood(hk: Bytes, b: Base, learned: seq<Slice>, inside: seq<Slice>, points: seq<Bytes>, i: nat, deepest: Option<Slice>)
    requires BaseSegment(hk, b).Some? && PointsSplit(BaseSegment(hk, b).value, points) && i <= |points|
    requires forall s :: s in inside <==> s in learned && IsInside(hk, b, s)
    requires forall s :: s in inside ==> SliceSegment(hk, s).Some? && PointsCover(points, BaseSegment(hk, b).value, SliceSegment(hk, s).value)
    requires var piece := PieceAt(BaseSegment(hk, b).value, points, i);
             && (deepest.Some? ==> deepest.value in inside && Contains(SliceSegment(hk, deepest.value).value, piece))
             && (forall s :: s in inside && Contains(SliceSegment(hk, s).value, piece) ==> deepest.Some? && s.depth <= deepest.value.depth)
    ensures GoodVisit(hk, b, learned, PieceVisit(b, PieceAt(BaseSegment(hk, b).value, points, i), deepest))
  {
    PieceFits(BaseSegment(hk, b).value, points, i);
    PieceIsGood(hk, b, learned, points, i, PieceVisit(b, PieceAt(BaseSegment(hk, b).value, points, i), deepest));
  }

  function PieceVisit(b: Base, piece: Segment, deepest: Option<Slice>): Visit {
    Visit(if deepest.Some? then Ref(deepest.value.id) else b.target, piece, b.speculative, deepest)
  }

  /** The visits of one base: its pieces, with neighbours of one target merged. */
  method PlanBase(hk: Bytes, b: Base, learned: seq<Slice>, interval: SkInterval) returns (visits: seq<Visit>)
    requires BaseSegment(hk, b).Some? && OneIntervalPerPartition([b], learned)
    requires RangeIntersects(BaseSegment(hk, b).value, interval)
    ensures PlannedUpTo(hk, b, learned, interval, visits, None)
    ensures EachIsRequested(visits, interval) && NeighboursAreMerged(visits)
  {
    var segment := BaseSegment(hk, b).value;
    ProjectionIsNotEmpty(hk, b.start, b.end);
    NothingPlanned(hk, b, learned, interval);
    NoneIsMerged(interval);
    hide PlannedUpTo, GoodVisit, IsInside, OneIntervalPerPartition, EachIsRequested, NeighboursAreMerged, EndsBelow, RangeIntersects,
      Contains, PointsCover;
    var inside := FilterInside(hk, b, learned);
    if |inside| == 0 {
      WholeBaseIsPlanned(hk, b, learned, interval);
      return [Visit(b.target, segment, b.speculative, None)];
    }
    InsideHasSegments(hk, b, inside);
    var points := CollectPoints(hk, inside, segment);
    assert PointsSplit(segment, points);
    visits := [];
    var open := false;
    for i := 0 to |points| + 1
      invariant PlannedUpTo(hk, b, learned, interval, visits, if i <= |points| then Some(PieceAt(segment, points, i).start) else segment.end)
      invariant open && i <= |points| ==> visits != [] && visits[|visits| - 1].segment.end == Some(PieceAt(segment, points, i).start)
      invariant !open && visits != [] && i <= |points| ==> EndsBelow(visits[|visits| - 1], PieceAt(segment, points, i).start)
      invariant EachIsRequested(visits, interval) && NeighboursAreMerged(visits)
    {
      var piece := PieceAt(segment, points, i);
      PieceFits(segment, points, i);
      if !RangeIntersects(piece, interval) {
        SkipLeavesGap(hk, b, learned, interval, visits, piece);
        open := false;
        SkipKeeps(hk, b, learned, interval, visits, piece);
      } else {
        var deepest := DeepestFor(hk, inside, piece);
        var visit := PieceVisit(b, piece, deepest);
        DeepestIsGood(hk, b, learned, inside, points, i, deepest);
        if open && visits[|visits| - 1].target == visit.target && visits[|visits| - 1].segment.end == Some(piece.start) {
          ExtendKeeps(hk, b, learned, interval, visits, visit);
          ExtendIsMerged(visits, interval, piece);
          var last := visits[|visits| - 1];
          visits := visits[|visits| - 1 := last.(segment := Segment(last.segment.start, piece.end))];
        } else {
          if !open && visits != [] {
            EndsBelowIsNoNeighbour(visits[|visits| - 1], piece.start);
          }
          PushKeeps(hk, b, learned, interval, visits, visit);
          PushIsMerged(visits, interval, visit);
          visits := visits + [visit];
          open := true;
        }
      }
    }
    WholeIsAll(hk, b, learned, interval, visits);
  }

  lemma InsideHasSegments(hk: Bytes, b: Base, inside: seq<Slice>)
    requires forall s :: s in inside ==> IsInside(hk, b, s)
    ensures forall s :: s in inside ==> SliceSegment(hk, s).Some?
  {
  }

  lemma WholeIsAll(hk: Bytes, b: Base, learned: seq<Slice>, interval: SkInterval, visits: seq<Visit>)
    requires BaseSegment(hk, b).Some? && PlannedUpTo(hk, b, learned, interval, visits, BaseSegment(hk, b).value.end)
    ensures PlannedUpTo(hk, b, learned, interval, visits, None)
  {
    hide GoodVisit;
  }

  // ─── all bases ──────────────────────────────────────────────────────────────

  /** The bases in order have their segments in order. */
  lemma BaseSegmentsAscend(hk: Bytes, bases: seq<Base>, i: nat, j: nat)
    requires BasesAscend(bases) && i < j < |bases| && BaseSegment(hk, bases[i]).Some? && BaseSegment(hk, bases[j]).Some?
    ensures BaseSegment(hk, bases[i]).value.end.Some?
    ensures AtMost(BaseSegment(hk, bases[i]).value.end.value, BaseSegment(hk, bases[j]).value.start)
  {
    var e, s := bases[i].end.value, bases[j].start.value;
    Order(e.hk, s.hk, hk);
    Order(hk, s.hk, e.hk);
    Order(s.hk, e.hk, hk);
    Order(e.hk, hk, s.hk);
    Order(hk, e.hk, s.hk);
    LessIrreflexive(hk);
  }

  /** Visits that a base makes lie inside its segment, so they are before every visit of a later base. */
  lemma VisitsOfBasesAscend(hk: Bytes, bases: seq<Base>, i: nat, j: nat, learned: seq<Slice>, v: Visit, w: Visit)
    requires BasesAscend(bases) && i < j < |bases|
    requires InOwnInterval(hk, bases[i], learned, v) && InOwnInterval(hk, bases[j], learned, w)
    ensures IsBefore(v, w)
  {
    BaseSegmentsAscend(hk, bases, i, j);
    var a, b := BaseSegment(hk, bases[i]).value, BaseSegment(hk, bases[j]).value;
    AtMostIsTransitive(v.segment.end.value, a.end.value, b.start);
    AtMostIsTransitive(v.segment.end.value, b.start, w.segment.start);
  }

  /** The visit comes from one of the bases `from ..`. */
  ghost predicate FromBase(hk: Bytes, bases: seq<Base>, learned: seq<Slice>, v: Visit, count: nat)
    requires count <= |bases|
  {
    exists i :: 0 <= i < count && GoodVisit(hk, bases[i], learned, v)
  }

  predicate InBase(hk: Bytes, b: Base, sk: Bytes) {
    InComposite(ItemKey(hk, sk), b.start, b.end)
  }

  /** What the plan of the first bases keeps. */
  ghost predicate PlannedBases(hk: Bytes, bases: seq<Base>, learned: seq<Slice>, interval: SkInterval, visits: seq<Visit>, count: nat)
    requires count <= |bases|
  {
    && (forall v :: v in visits ==> FromBase(hk, bases, learned, v, count) && BelowEnd(v.segment.start, v.segment.end))
    && Ascend(visits)
    && (forall i, sk :: 0 <= i < count && InInterval(sk, interval) && InBase(hk, bases[i], sk) ==> Covered(visits, sk))
  }

  lemma EmptyBaseKeeps(hk: Bytes, bases: seq<Base>, learned: seq<Slice>, interval: SkInterval, visits: seq<Visit>, n: nat)
    requires n < |bases| && PlannedBases(hk, bases, learned, interval, visits, n)
    requires BaseSegment(hk, bases[n]).None? || !RangeIntersects(BaseSegment(hk, bases[n]).value, interval)
    ensures PlannedBases(hk, bases, learned, interval, visits, n + 1)
  {
    hide GoodVisit;
    forall v | v in visits ensures FromBase(hk, bases, learned, v, n + 1) {
      var i :| 0 <= i < n && GoodVisit(hk, bases[i], learned, v);
      assert i < n + 1;
    }
    forall i, sk | 0 <= i < n + 1 && InInterval(sk, interval) && InBase(hk, bases[i], sk) ensures Covered(visits, sk) {
      if i == n {
        ProjectionIsExact(hk, bases[n].start, bases[n].end, sk);
        IntersectionIsComplete(BaseSegment(hk, bases[n]).value, interval, sk);
        assert false;
      }
    }
  }

  lemma NextBaseKeeps(hk: Bytes, bases: seq<Base>, learned: seq<Slice>, interval: SkInterval, visits: seq<Visit>, more: seq<Visit>, n: nat)
    requires n < |bases| && BasesAscend(bases) && PlannedBases(hk, bases, learned, interval, visits, n)
    requires BaseSegment(hk, bases[n]).Some? && PlannedUpTo(hk, bases[n], learned, interval, more, None)
    ensures PlannedBases(hk, bases, learned, interval, visits + more, n + 1)
  {
    hide IsDeepest, InOwnInterval;
    var all := visits + more;
    forall v | v in all ensures FromBase(hk, bases, learned, v, n + 1) {
      if v in visits {
        var i :| 0 <= i < n && GoodVisit(hk, bases[i], learned, v);
        assert i < n + 1;
      } else {
        assert v in more && GoodVisit(hk, bases[n], learned, v);
      }
    }
    forall a, b | 0 <= a < b < |all| ensures IsBefore(all[a], all[b]) {
      if a < |visits| <= b {
        assert all[a] in visits && all[b] in more;
        assert FromBase(hk, bases, learned, all[a], n) && GoodVisit(hk, bases[n], learned, all[b]);
        var i :| 0 <= i < n && GoodVisit(hk, bases[i], learned, all[a]);
        VisitsOfBasesAscend(hk, bases, i, n, learned, all[a], all[b]);
      } else if b < |visits| {
        assert IsBefore(visits[a], visits[b]);
      } else {
        assert IsBefore(more[a - |visits|], more[b - |visits|]);
      }
    }
    forall i, sk | 0 <= i < n + 1 && InInterval(sk, interval) && InBase(hk, bases[i], sk) ensures Covered(all, sk) {
      if i == n {
        ProjectionIsExact(hk, bases[n].start, bases[n].end, sk);
        var k :| 0 <= k < |more| && InSegment(sk, more[k].segment);
        assert all[|visits| + k] == more[k];
      } else {
        var k :| 0 <= k < |visits| && InSegment(sk, visits[k].segment);
        assert all[k] == visits[k];
      }
    }
  }

  ghost predicate InScanOrder(visits: seq<Visit>, descending: bool) {
    forall i, j :: 0 <= i < j < |visits| ==> if descending then IsBefore(visits[j], visits[i]) else IsBefore(visits[i], visits[j])
  }

  method Reverse(visits: seq<Visit>) returns (reversed: seq<Visit>)
    ensures |reversed| == |visits| && forall i :: 0 <= i < |visits| ==> reversed[i] == visits[|visits| - 1 - i]
  {
    reversed := [];
    for i := 0 to |visits|
      invariant |reversed| == i && forall k :: 0 <= k < i ==> reversed[k] == visits[|visits| - 1 - k]
    {
      reversed := reversed + [visits[|visits| - 1 - i]];
    }
  }

  /** `planRangeFrontier`. */
  method PlanRangeFrontier(hk: Bytes, bases: seq<Base>, learned: seq<Slice>, interval: SkInterval, descending: bool) returns (visits: seq<Visit>)
    requires BasesAscend(bases) && OneIntervalPerPartition(bases, learned)
    ensures InScanOrder(visits, descending)
    ensures forall v :: v in visits ==> FromBase(hk, bases, learned, v, |bases|) && BelowEnd(v.segment.start, v.segment.end)
    ensures forall b, sk :: b in bases && InInterval(sk, interval) && InBase(hk, b, sk) ==> Covered(visits, sk)
    ensures EachIsRequested(visits, interval)
  {
    hide GoodVisit, PlannedUpTo, RangeIntersects;
    var plan: seq<Visit> := [];
    for n := 0 to |bases|
      invariant PlannedBases(hk, bases, learned, interval, plan, n)
      invariant EachIsRequested(plan, interval)
    {
      var segment := BaseSegment(hk, bases[n]);
      if segment.None? || !RangeIntersects(segment.value, interval) {
        EmptyBaseKeeps(hk, bases, learned, interval, plan, n);
      } else {
        assert bases[n] in bases;
        var more := PlanBase(hk, bases[n], learned, interval);
        NextBaseKeeps(hk, bases, learned, interval, plan, more, n);
        plan := plan + more;
      }
    }
    if descending {
      visits := Reverse(plan);
      forall sk | Covered(plan, sk) ensures Covered(visits, sk) {
        var i :| 0 <= i < |plan| && InSegment(sk, plan[i].segment);
        assert visits[|plan| - 1 - i] == plan[i];
      }
    } else {
      visits := plan;
    }
  }

  /** A sort key lies in at most one visit of a plan, so with the cover in exactly one. */
  lemma OneVisitPerKey(visits: seq<Visit>, descending: bool, i: nat, j: nat, sk: Bytes)
    requires InScanOrder(visits, descending) && i < |visits| && j < |visits|
    requires InSegment(sk, visits[i].segment) && InSegment(sk, visits[j].segment)
    ensures i == j
  {
    if i != j {
      var a, b := if i < j then i else j, if i < j then j else i;
      var first, second := if descending then b else a, if descending then a else b;
      assert IsBefore(visits[first], visits[second]);
      LessAtMost(sk, visits[first].segment.end.value, visits[second].segment.start);
    }
  }

  // ─── the deepest slice ──────────────────────────────────────────────────────

  lemma InsideCompositeInterval(key: ItemKey, start: Option<ItemKey>, end: Option<ItemKey>, outerStart: Option<ItemKey>, outerEnd: Option<ItemKey>)
    requires InComposite(key, start, end) && StartAtMost(outerStart, start) && CompositeEndAtMost(end, outerEnd)
    ensures InComposite(key, outerStart, outerEnd)
  {
    if outerStart.Some? {
      CompositeIsTotalOrder(key, outerStart.value, start.value);
      CompositeIsTotalOrder(outerStart.value, start.value, key);
      CompositeIsTotalOrder(start.value, key, outerStart.value);
    }
    if outerEnd.Some? {
      CompositeIsTotalOrder(key, end.value, outerEnd.value);
      CompositeIsTotalOrder(end.value, outerEnd.value, key);
    }
  }

  /** A learned descendant of the base is in the overlay, unless it holds the whole segment of the base. */
  lemma OverlayOfDescendants(hk: Bytes, b: Base, s: Slice)
    requires IsStrictSubSlice(s, b.start, b.end) && SliceSegment(hk, s).Some?
    ensures BaseSegment(hk, b).Some?
    ensures IsInside(hk, b, s) <==> SliceSegment(hk, s).value != BaseSegment(hk, b).value
  {
    var inner := SliceSegment(hk, s).value;
    ProjectionIsNotEmpty(hk, s.start, s.end);
    LessIrreflexive(inner.start);
    SliceKeyIsInBase(hk, b, s, inner.start);
    var outer := BaseSegment(hk, b).value;
    if outer.end.Some? && !EndAtMost(inner.end, outer.end) {
      LessAtMost(inner.start, outer.end.value, outer.end.value);
      SliceKeyIsInBase(hk, b, s, outer.end.value);
      LessIrreflexive(outer.end.value);
      assert false;
    }
  }

  lemma SliceKeyIsInBase(hk: Bytes, b: Base, s: Slice, sk: Bytes)
    requires IsStrictSubSlice(s, b.start, b.end) && SliceHolds(hk, s, sk)
    ensures BaseSegment(hk, b).Some? && InSegment(sk, BaseSegment(hk, b).value)
  {
    ProjectionIsExact(hk, s.start, s.end, sk);
    InsideCompositeInterval(ItemKey(hk, sk), s.start, s.end, b.start, b.end);
    ProjectionIsExact(hk, b.start, b.end, sk);
  }

  /**
   * The target of a visit is the deepest learned descendant of its base that holds a key of the visit,
   * except for the descendants that hold the whole segment of the base: the planner passes over those.
   */
  lemma DeepestUnlessWhole(hk: Bytes, b: Base, learned: seq<Slice>, v: Visit, s: Slice, sk: Bytes)
    requires GoodVisit(hk, b, learned, v) && s in learned && IsStrictSubSlice(s, b.start, b.end)
    requires InSegment(sk, v.segment) && SliceHolds(hk, s, sk)
    ensures (v.learned.Some? && s.depth <= v.learned.value.depth) || SliceSegment(hk, s) == BaseSegment(hk, b)
  {
    OverlayOfDescendants(hk, b, s);
  }

  /** No learned descendant of the base that holds the key is deeper than the target of the visit. */
  ghost predicate TargetIsDeepest(hk: Bytes, b: Base, learned: seq<Slice>, v: Visit, sk: Bytes) {
    forall s :: s in learned && IsStrictSubSlice(s, b.start, b.end) && SliceHolds(hk, s, sk) ==> v.learned.Some? && s.depth <= v.learned.value.depth
  }

  /** A slice of the overlay holds the key and is at least that deep. */
  predicate InsideAsDeep(hk: Bytes, b: Base, learned: seq<Slice>, sk: Bytes, depth: nat) {
    exists o :: o in learned && IsInside(hk, b, o) && SliceHolds(hk, o, sk) && depth <= o.depth
  }

  /** The descendant is narrower than the base, but for this hash key it holds the same sort keys. */
  predicate HoldsWholeBase(hk: Bytes, b: Base, s: Slice) {
    IsStrictSubSlice(s, b.start, b.end) && SliceSegment(hk, s).Some? && SliceSegment(hk, s) == BaseSegment(hk, b)
  }

  /**
   * From the bases and the learned slices alone: a visit that is planned for a key goes to the deepest
   * descendant that holds the key exactly when, for each descendant that holds the whole segment of the
   * base, one that is narrower on this hash key, holds the sort key and is as deep is learned too.
   */
  lemma DeepestExactly(hk: Bytes, b: Base, learned: seq<Slice>, v: Visit, sk: Bytes)
    requires GoodVisit(hk, b, learned, v) && InSegment(sk, v.segment)
    ensures TargetIsDeepest(hk, b, learned, v, sk)
            <==> forall s :: s in learned && HoldsWholeBase(hk, b, s) ==> InsideAsDeep(hk, b, learned, sk, s.depth)
  {
    forall s | s in learned && IsStrictSubSlice(s, b.start, b.end) && SliceHolds(hk, s, sk)
      ensures (v.learned.Some? && s.depth <= v.learned.value.depth) || HoldsWholeBase(hk, b, s)
    {
      DeepestUnlessWhole(hk, b, learned, v, s, sk);
    }
    forall s | s in learned && HoldsWholeBase(hk, b, s)
      ensures SliceHolds(hk, s, sk)
      ensures InsideAsDeep(hk, b, learned, sk, s.depth) <==> v.learned.Some? && s.depth <= v.learned.value.depth
    {
      InsideSegments(sk, v.segment, BaseSegment(hk, b).value);
      TargetIsInside(hk, b, learned, v, sk, s.depth);
    }
  }

  lemma InsideSegments(sk: Bytes, inner: Segment, outer: Segment)
    requires InSegment(sk, inner) && Contains(outer, inner)
    ensures InSegment(sk, outer)
  {
    AtMostIsTransitive(outer.start, inner.start, sk);
    if outer.end.Some? {
      LessAtMost(sk, inner.end.value, outer.end.value);
    }
  }

  /** The target of a visit is the deepest slice of the overlay that holds the key. */
  lemma TargetIsInside(hk: Bytes, b: Base, learned: seq<Slice>, v: Visit, sk: Bytes, depth: nat)
    requires GoodVisit(hk, b, learned, v) && InSegment(sk, v.segment)
    ensures InsideAsDeep(hk, b, learned, sk, depth) <==> v.learned.Some? && depth <= v.learned.value.depth
  {
    if v.learned.Some? {
      InsideSegments(sk, v.segment, SliceSegment(hk, v.learned.value).value);
      assert v.learned.value in learned && IsInside(hk, b, v.learned.value) && SliceHolds(hk, v.learned.value, sk);
    }
  }

  /**
   * A learned slice that holds all of one hash key, and not all of its base: every visit that is planned
   * for that hash key goes to the base, although the slice is deeper.
   */
  lemma WholeDescendantIsPassedOver(v: Visit, sk: Bytes)
    requires var s := Slice(1, Some(ItemKey([4], [])), Some(ItemKey([6], [])), 1);
             GoodVisit([5], Base(Ref(0), None, None, false), [s], v) && InSegment(sk, v.segment)
    ensures var s := Slice(1, Some(ItemKey([4], [])), Some(ItemKey([6], [])), 1);
            v.target == Ref(0) && v.learned.None? && !TargetIsDeepest([5], Base(Ref(0), None, None, false), [s], v, sk)
  {
    var s := Slice(1, Some(ItemKey([4], [])), Some(ItemKey([6], [])), 1);
    var b := Base(Ref(0), None, None, false);
    DeepestExactly([5], b, [s], v, sk);
    assert s in [s] && HoldsWholeBase([5], b, s);
  }
}
