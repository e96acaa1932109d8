/**
 * The known range intervals of one promoted routing hash: sorted boundaries with levels. Segment `i` is
 * between the positions `i` and `i + 1`, and position `p` of `1 .. n` is the boundary `p - 1`. The
 * intervals of rank `t` are the runs of segments between the positions whose level is below `t`.
 */
module RangeTopology {
  import opened Bytes
  import opened KeyCodec
  import opened RoutingHash
  import opened SkIntervals

  datatype View = View(boundaries: seq<ItemKey>, levels: seq<nat>, depths: seq<nat>)

  predicate ValidView(v: View) {
    && (forall i, j :: 0 <= i < j < |v.boundaries| ==> CompositeLess(v.boundaries[i], v.boundaries[j]))
    && |v.levels| == |v.boundaries|
    && (|v.depths| == |v.boundaries| + 1 || (v.boundaries == [] && v.depths == []))
  }

  /** One known interval, by its positions and its rank. Rank 0 is the range root. */
  datatype Target = Target(start: nat, end: nat, rank: nat)

  /** `rangeCutKey`. */
  function CutKey(v: View, start: int, end: int): int {
    start * (|v.boundaries| + 2) + end
  }

  /** Two intervals of the view have the same cut key only when they are one interval. */
  lemma CutKeyIsInjective(v: View, a: int, b: int, c: int, d: int)
    requires 0 <= b <= |v.boundaries| + 1 && 0 <= d <= |v.boundaries| + 1 && CutKey(v, a, b) == CutKey(v, c, d)
    ensures a == c && b == d
  {
    RemainderOf(a, |v.boundaries| + 2, b);
    RemainderOf(c, |v.boundaries| + 2, d);
  }

  function LevelAt(v: View, p: nat): int
    requires ValidView(v) && p <= |v.boundaries| + 1
  {
    if p == 0 || p == |v.boundaries| + 1 then -1 else v.levels[p - 1]
  }

  // ─── counting boundaries ────────────────────────────────────────────────────

  predicate IsCounted(b: ItemKey, key: ItemKey, orEqual: bool) {
    CompositeLess(b, key) || (orEqual && b == key)
  }

  /** The count of boundaries below the key, as the first index that is not counted. */
  ghost predicate IsCount(v: View, key: ItemKey, orEqual: bool, count: nat) {
    && count <= |v.boundaries|
    && (forall k :: 0 <= k < count ==> IsCounted(v.boundaries[k], key, orEqual))
    && (forall k :: count <= k < |v.boundaries| ==> !IsCounted(v.boundaries[k], key, orEqual))
  }

  function CountFrom(v: View, key: ItemKey, orEqual: bool, from: nat): nat
    requires from <= |v.boundaries|
    decreases |v.boundaries| - from
  {
    if from < |v.boundaries| && IsCounted(v.boundaries[from], key, orEqual) then CountFrom(v, key, orEqual, from + 1) else from
  }

  function Count(v: View, key: ItemKey, orEqual: bool): nat {
    CountFrom(v, key, orEqual, 0)
  }

  lemma CountedStays(v: View, key: ItemKey, orEqual: bool, a: nat, b: nat)
    requires ValidView(v) && a < b < |v.boundaries| && IsCounted(v.boundaries[b], key, orEqual)
    ensures IsCounted(v.boundaries[a], key, orEqual)
  {
    CompositeIsTotalOrder(v.boundaries[a], v.boundaries[b], key);
  }

  lemma {:induction false} CountFromIsCount(v: View, key: ItemKey, orEqual: bool, from: nat)
    requires ValidView(v) && from <= |v.boundaries| && forall k :: 0 <= k < from ==> IsCounted(v.boundaries[k], key, orEqual)
    ensures IsCount(v, key, orEqual, CountFrom(v, key, orEqual, from))
    decreases |v.boundaries| - from
  {
    if from < |v.boundaries| {
      if IsCounted(v.boundaries[from], key, orEqual) {
        CountFromIsCount(v, key, orEqual, from + 1);
      } else {
        forall k | from < k < |v.boundaries| ensures !IsCounted(v.boundaries[k], key, orEqual) {
          if IsCounted(v.boundaries[k], key, orEqual) {
            CountedStays(v, key, orEqual, from, k);
            assert false;
          }
        }
      }
    }
  }

  /** The binary search of `countBoundaries`. */
  method CountBoundaries(v: View, key: ItemKey, orEqual: bool) returns (count: nat)
    requires ValidView(v)
    ensures count == Count(v, key, orEqual) && IsCount(v, key, orEqual, count)
  {
    var lo, hi := 0, |v.boundaries|;
    while lo < hi
      invariant 0 <= lo <= hi <= |v.boundaries|
      invariant forall k :: 0 <= k < lo ==> IsCounted(v.boundaries[k], key, orEqual)
      invariant forall k :: hi <= k < |v.boundaries| ==> !IsCounted(v.boundaries[k], key, orEqual)
    {
      var mid := (lo + hi) / 2;
      var b := v.boundaries[mid];
      var cmp := Compare(b.hk, key.hk);
      if cmp == 0 {
        cmp := Compare(b.sk, key.sk);
      }
      LessIrreflexive(b.hk);
      CompositeIsTotalOrder(b, key, key);
      if cmp < 0 || (orEqual && cmp == 0) {
        forall k | 0 <= k < mid ensures IsCounted(v.boundaries[k], key, orEqual) {
          CountedStays(v, key, orEqual, k, mid);
        }
        lo := mid + 1;
      } else {
        forall k | mid < k < |v.boundaries| ensures !IsCounted(v.boundaries[k], key, orEqual) {
          if IsCounted(v.boundaries[k], key, orEqual) {
            CountedStays(v, key, orEqual, mid, k);
            assert false;
          }
        }
        hi := mid;
      }
    }
    count := lo;
    CountFromIsCount(v, key, orEqual, 0);
    CountIsUnique(v, key, orEqual, count, Count(v, key, orEqual));
  }

  lemma CountDecides(v: View, key: ItemKey, orEqual: bool, count: nat, k: nat)
    requires IsCount(v, key, orEqual, count) && k <= |v.boundaries|
    ensures k < |v.boundaries| ==> (IsCounted(v.boundaries[k], key, orEqual) <==> k < count)
  {
  }

  lemma CountIsUnique(v: View, key: ItemKey, orEqual: bool, a: nat, b: nat)
    requires IsCount(v, key, orEqual, a) && IsCount(v, key, orEqual, b)
    ensures a == b
  {
    CountDecides(v, key, orEqual, a, b);
    CountDecides(v, key, orEqual, b, a);
  }

  // ─── the interval of a rank ─────────────────────────────────────────────────

  /** The first position at or before `p` whose level is below `t`. The sentinel `~min` always is. */
  function StartOf(v: View, p: nat, t: nat): (start: nat)
    requires ValidView(v) && p <= |v.boundaries|
    ensures start <= p && LevelAt(v, start) < t
    ensures forall q :: start < q <= p ==> LevelAt(v, q) >= t
  {
    if LevelAt(v, p) >= t then StartOf(v, p - 1, t) else p
  }

  /** The first position at or after `p` whose level is below `t`. The sentinel `~max` always is. */
  function EndOf(v: View, p: nat, t: nat): (end: nat)
    requires ValidView(v) && p <= |v.boundaries| + 1
    ensures p <= end <= |v.boundaries| + 1 && LevelAt(v, end) < t
    ensures forall q :: p <= q < end ==> LevelAt(v, q) >= t
    decreases |v.boundaries| + 1 - p
  {
    if LevelAt(v, p) >= t then EndOf(v, p + 1, t) else p
  }

  function TargetAt(v: View, i: nat, j: nat, t: nat): Target
    requires ValidView(v) && i <= j <= |v.boundaries|
  {
    Target(StartOf(v, i, t), EndOf(v, j + 1, t), t)
  }

  predicate IsCut(v: View, cut: set<int>, target: Target) {
    CutKey(v, target.start, target.end) in cut
  }

  function Rule(v: View, i: nat, j: nat, threshold: nat, cut: set<int>): Option<Target>
    requires ValidView(v) && i <= j <= |v.boundaries|
  {
    var target := TargetAt(v, i, j, threshold);
    if !IsCut(v, cut, target) then Some(target)
    else if threshold == 0 then None
    else Rule(v, i, j, threshold - 1, cut)
  }

  lemma RuleStep(v: View, i: nat, j: nat, t: nat, cut: set<int>)
    requires ValidView(v) && i <= j <= |v.boundaries|
    ensures var target := Target(StartOf(v, i, t), EndOf(v, j + 1, t), t);
            Rule(v, i, j, t, cut) == if CutKey(v, target.start, target.end) !in cut then Some(target) else if t == 0 then None else Rule(v, i, j, t - 1, cut)
  {
  }

  lemma StartStep(v: View, p: nat, t: nat)
    requires ValidView(v) && p <= |v.boundaries|
    ensures if LevelAt(v, p) >= t then p > 0 && StartOf(v, p, t) == StartOf(v, p - 1, t) else StartOf(v, p, t) == p
  {
  }

  lemma EndStep(v: View, p: nat, t: nat)
    requires ValidView(v) && p <= |v.boundaries| + 1
    ensures if LevelAt(v, p) >= t then p <= |v.boundaries| && EndOf(v, p, t) == EndOf(v, p + 1, t) else EndOf(v, p, t) == p
  {
  }

  /** The scans of `intervalRule`: they stop at the sentinels at the latest. */
  method IntervalRule(v: View, i: nat, j: nat, threshold: nat, cut: set<int>) returns (r: Option<Target>)
    requires ValidView(v) && i <= j <= |v.boundaries|
    ensures r == Rule(v, i, j, threshold, cut)
  {
    hide Rule, StartOf, EndOf, ValidView;
    var t := threshold;
    while true
      invariant 0 <= t <= threshold
      invariant Rule(v, i, j, t, cut) == Rule(v, i, j, threshold, cut)
      decreases t
    {
      RuleStep(v, i, j, t, cut);
      var start := i;
      while LevelAt(v, start) >= t
        invariant 0 <= start <= i && StartOf(v, start, t) == StartOf(v, i, t)
        decreases start
      {
        StartStep(v, start, t);
        start := start - 1;
      }
      StartStep(v, start, t);
      var end := j + 1;
      while LevelAt(v, end) >= t
        invariant j + 1 <= end <= |v.boundaries| + 1 && EndOf(v, end, t) == EndOf(v, j + 1, t)
        decreases |v.boundaries| + 1 - end
      {
        EndStep(v, end, t);
        end := end + 1;
      }
      EndStep(v, end, t);
      if CutKey(v, start, end) !in cut {
        return Some(Target(start, end, t));
      }
      if t == 0 {
        return None;
      }
      t := t - 1;
    }
  }

  // ─── lookups ────────────────────────────────────────────────────────────────

  /** The first key above every key of a hash key. */
  function NextHashKey(hk: Bytes): Bytes {
    hk + [0]
  }

  function FirstSegment(v: View, hk: Bytes, interval: SkInterval): nat {
    Count(v, ItemKey(hk, if interval.lower.Some? then interval.lower.value.value else []), true)
  }

  function LastSegment(v: View, hk: Bytes, interval: SkInterval): nat {
    if interval.upper.Some? then Count(v, ItemKey(hk, interval.upper.value.value), interval.upper.value.inclusive)
    else Count(v, ItemKey(NextHashKey(hk), []), false)
  }

  /** The largest rank whose intervals hold the segments `i .. j` together, as far as the view knows them. */
  function Threshold(v: View, i: nat, j: nat): (t: nat)
    requires ValidView(v) && v.depths != [] && i <= j <= |v.boundaries|
    ensures forall p :: i <= p <= j ==> t <= v.depths[p]
    ensures forall p :: i < p <= j ==> t <= LevelAt(v, p)
  {
    if i == j then v.depths[i]
    else
      var t := Threshold(v, i, j - 1);
      if v.depths[j] <= t && v.depths[j] <= v.levels[j - 1] then v.depths[j]
      else if v.levels[j - 1] <= t then v.levels[j - 1]
      else t
  }

  function PointLookup(v: View, key: ItemKey, cut: set<int>): Option<Target>
    requires ValidView(v)
  {
    if v.depths == [] then None
    else
      CountFromIsCount(v, key, true, 0);
      var i := Count(v, key, true);
      Rule(v, i, i, v.depths[i], cut)
  }

  function IntervalLookup(v: View, hk: Bytes, interval: SkInterval, cut: set<int>): Option<Target>
    requires ValidView(v)
  {
    if v.depths == [] then None
    else
      CountFromIsCount(v, ItemKey(hk, if interval.lower.Some? then interval.lower.value.value else []), true, 0);
      SegmentsFit(v, hk, interval);
      var i, j := FirstSegment(v, hk, interval), LastSegment(v, hk, interval);
      if j < i then Rule(v, i, i, v.depths[i], cut) else Rule(v, i, j, Threshold(v, i, j), cut)
  }

  lemma SegmentsFit(v: View, hk: Bytes, interval: SkInterval)
    requires ValidView(v)
    ensures FirstSegment(v, hk, interval) <= |v.boundaries| && LastSegment(v, hk, interval) <= |v.boundaries|
  {
    CountFromIsCount(v, ItemKey(hk, if interval.lower.Some? then interval.lower.value.value else []), true, 0);
    if interval.upper.Some? {
      CountFromIsCount(v, ItemKey(hk, interval.upper.value.value), interval.upper.value.inclusive, 0);
    } else {
      CountFromIsCount(v, ItemKey(NextHashKey(hk), []), false, 0);
    }
  }

  method RangePointLookup(v: View, key: ItemKey, cut: set<int>) returns (r: Option<Target>)
    requires ValidView(v)
    ensures r == PointLookup(v, key, cut)
  {
    if |v.depths| == 0 {
      return None;
    }
    var i := CountBoundaries(v, key, true);
    r := IntervalRule(v, i, i, v.depths[i], cut);
  }

  method RangeIntervalLookup(v: View, hk: Bytes, interval: SkInterval, cut: set<int>) returns (r: Option<Target>)
    requires ValidView(v)
    ensures r == IntervalLookup(v, hk, interval, cut)
  {
    if |v.depths| == 0 {
      return None;
    }
    var i := CountBoundaries(v, ItemKey(hk, if interval.lower.Some? then interval.lower.value.value else []), true);
    var j: nat;
    if interval.upper.Some? {
      j := CountBoundaries(v, ItemKey(hk, interval.upper.value.value), interval.upper.value.inclusive);
    } else {
      j := CountBoundaries(v, ItemKey(NextHashKey(hk), []), false);
    }
    if j < i {
      r := IntervalRule(v, i, i, v.depths[i], cut);
      return;
    }
    var threshold := LargestCommonRank(v, i, j);
    r := IntervalRule(v, i, j, threshold, cut);
  }

  method LargestCommonRank(v: View, i: nat, j: nat) returns (threshold: nat)
    requires ValidView(v) && v.depths != [] && i <= j <= |v.boundaries|
    ensures threshold == Threshold(v, i, j)
  {
    threshold := v.depths[i];
    for p := i + 1 to j + 1
      invariant threshold == Threshold(v, i, p - 1)
    {
      if v.depths[p] <= threshold && v.depths[p] <= v.levels[p - 1] {
        threshold := v.depths[p];
      } else if v.levels[p - 1] <= threshold {
        threshold := v.levels[p - 1];
      }
    }
  }

  // ─── what the lookups find ──────────────────────────────────────────────────

  /** The key is inside the interval between two positions. */
  predicate Encloses(v: View, target: Target, key: ItemKey)
    requires target.start <= |v.boundaries| + 1 && target.end <= |v.boundaries| + 1
  {
    && (1 <= target.start <= |v.boundaries| ==> CompositeAtMost(v.boundaries[target.start - 1], key))
    && (1 <= target.end <= |v.boundaries| ==> CompositeLess(key, v.boundaries[target.end - 1]))
  }

  /** The view knows an interval of rank `t` that holds the segments `i .. j` together. */
  ghost predicate HoldsTogether(v: View, i: nat, j: nat, t: nat)
    requires ValidView(v) && v.depths != [] && i <= j <= |v.boundaries|
  {
    && (forall p :: i <= p <= j ==> t <= v.depths[p])
    && (forall p :: i < p <= j ==> t <= LevelAt(v, p))
  }

  lemma TargetHasRank(v: View, i: nat, j: nat, t: nat)
    requires ValidView(v) && i <= j <= |v.boundaries|
    ensures TargetAt(v, i, j, t).rank == t
  {
  }

  /** The rule gives the highest rank that is not cut, and nothing only when every rank is cut. */
  lemma {:induction false} RuleIsHighest(v: View, i: nat, j: nat, threshold: nat, cut: set<int>)
    requires ValidView(v) && i <= j <= |v.boundaries|
    ensures var r := Rule(v, i, j, threshold, cut);
            && (r.Some? ==> r.value.rank <= threshold && r.value == TargetAt(v, i, j, r.value.rank) && !IsCut(v, cut, r.value)
                            && forall t :: r.value.rank < t <= threshold ==> IsCut(v, cut, TargetAt(v, i, j, t)))
            && (r.None? ==> forall t :: 0 <= t <= threshold ==> IsCut(v, cut, TargetAt(v, i, j, t)))
  {
    hide TargetAt, IsCut, ValidView, StartOf, EndOf;
    TargetHasRank(v, i, j, threshold);
    if IsCut(v, cut, TargetAt(v, i, j, threshold)) && threshold > 0 {
      RuleIsHighest(v, i, j, threshold - 1, cut);
    }
  }

  /** The threshold is the highest rank of which one interval holds the segments together. */
  lemma {:induction false} ThresholdIsHighest(v: View, i: nat, j: nat, t: nat)
    requires ValidView(v) && v.depths != [] && i <= j <= |v.boundaries|
    ensures HoldsTogether(v, i, j, t) <==> t <= Threshold(v, i, j)
  {
    if i < j {
      ThresholdIsHighest(v, i, j - 1, t);
      if HoldsTogether(v, i, j, t) {
        assert t <= v.depths[j] && t <= LevelAt(v, j);
      }
    }
  }

  /** A key of the interval is at or above the boundary of its first segment, and below the boundary after its last one. */
  lemma SegmentsEnclose(v: View, hk: Bytes, interval: SkInterval, sk: Bytes, start: nat, end: nat)
    requires ValidView(v) && InInterval(sk, interval)
    requires start <= FirstSegment(v, hk, interval) && LastSegment(v, hk, interval) < end <= |v.boundaries| + 1
    ensures start <= |v.boundaries| && Encloses(v, Target(start, end, 0), ItemKey(hk, sk))
  {
    SegmentsFit(v, hk, interval);
    var key := ItemKey(hk, sk);
    var low := ItemKey(hk, if interval.lower.Some? then interval.lower.value.value else []);
    CountFromIsCount(v, low, true, 0);
    LessIrreflexive(hk);
    if 1 <= start {
      var b := v.boundaries[start - 1];
      assert IsCounted(b, low, true);
      CompositeIsTotalOrder(b, low, key);
      CompositeIsTotalOrder(b, key, low);
      LessIsTotal([], sk);
    }
    if end <= |v.boundaries| {
      var b := v.boundaries[end - 1];
      if interval.upper.Some? {
        var high := ItemKey(hk, interval.upper.value.value);
        CountFromIsCount(v, high, interval.upper.value.inclusive, 0);
        assert !IsCounted(b, high, interval.upper.value.inclusive);
        CompositeIsTotalOrder(b, high, key);
        CompositeIsTotalOrder(key, high, b);
      } else {
        var high := ItemKey(NextHashKey(hk), []);
        CountFromIsCount(v, high, false, 0);
        assert !IsCounted(b, high, false);
        PrefixIsAtMost(hk, NextHashKey(hk));
        CompositeIsTotalOrder(b, high, key);
        CompositeIsTotalOrder(key, high, b);
      }
    }
  }

  /** With the last segment before the first one, no key is in the interval. */
  lemma CrossedIntervalIsEmpty(v: View, hk: Bytes, interval: SkInterval, sk: Bytes)
    requires ValidView(v) && LastSegment(v, hk, interval) < FirstSegment(v, hk, interval)
    ensures !InInterval(sk, interval)
  {
    if InInterval(sk, interval) {
      SegmentsFit(v, hk, interval);
      var i := FirstSegment(v, hk, interval);
      SegmentsEnclose(v, hk, interval, sk, i, i);
    }
  }

  /** The last segment of the request, or the first one when the request is empty. */
  function EndSegment(v: View, hk: Bytes, interval: SkInterval): nat {
    Max(FirstSegment(v, hk, interval), LastSegment(v, hk, interval))
  }

  /** The target is the interval of its rank around the request, known and not cut, and every higher rank is unknown or cut. */
  ghost predicate IsDeepest(v: View, i: nat, j: nat, cut: set<int>, target: Target)
    requires ValidView(v) && v.depths != [] && i <= j <= |v.boundaries|
  {
    && target == TargetAt(v, i, j, target.rank) && !IsCut(v, cut, target) && HoldsTogether(v, i, j, target.rank)
    && forall t: nat :: HoldsTogether(v, i, j, t) && t > target.rank ==> IsCut(v, cut, TargetAt(v, i, j, t))
  }

  lemma RuleIsDeepest(v: View, i: nat, j: nat, cut: set<int>)
    requires ValidView(v) && v.depths != [] && i <= j <= |v.boundaries|
    ensures var r := Rule(v, i, j, Threshold(v, i, j), cut);
            && (r.Some? ==> IsDeepest(v, i, j, cut, r.value))
            && (r.None? ==> forall t: nat :: HoldsTogether(v, i, j, t) ==> IsCut(v, cut, TargetAt(v, i, j, t)))
  {
    hide TargetAt, HoldsTogether, IsCut, Threshold;
    RuleIsHighest(v, i, j, Threshold(v, i, j), cut);
    forall t: nat ensures HoldsTogether(v, i, j, t) <==> t <= Threshold(v, i, j) {
      ThresholdIsHighest(v, i, j, t);
    }
  }

  lemma LookupIsRule(v: View, hk: Bytes, interval: SkInterval, cut: set<int>)
    requires ValidView(v) && v.depths != []
    ensures EndSegment(v, hk, interval) <= |v.boundaries|
    ensures IntervalLookup(v, hk, interval, cut)
            == Rule(v, FirstSegment(v, hk, interval), EndSegment(v, hk, interval), Threshold(v, FirstSegment(v, hk, interval), EndSegment(v, hk, interval)), cut)
  {
    SegmentsFit(v, hk, interval);
  }

  /**
   * A lookup result encloses every key of the hash key in the interval, is not cut, and has the highest
   * rank of the known intervals that hold the request and are not cut. Without a result, each of them is cut.
   */
  lemma IntervalLookupIsDeepest(v: View, hk: Bytes, interval: SkInterval, cut: set<int>)
    requires ValidView(v) && v.depths != []
    ensures EndSegment(v, hk, interval) <= |v.boundaries|
    ensures var r := IntervalLookup(v, hk, interval, cut);
            var i, j := FirstSegment(v, hk, interval), EndSegment(v, hk, interval);
            && (r.Some? ==> IsDeepest(v, i, j, cut, r.value))
            && (r.None? ==> forall t: nat :: HoldsTogether(v, i, j, t) ==> IsCut(v, cut, TargetAt(v, i, j, t)))
  {
    LookupIsRule(v, hk, interval, cut);
    RuleIsDeepest(v, FirstSegment(v, hk, interval), EndSegment(v, hk, interval), cut);
  }

  lemma IntervalLookupEncloses(v: View, hk: Bytes, interval: SkInterval, cut: set<int>, sk: Bytes)
    requires ValidView(v) && IntervalLookup(v, hk, interval, cut).Some? && InInterval(sk, interval)
    ensures var target := IntervalLookup(v, hk, interval, cut).value;
            target.start <= |v.boundaries| && target.end <= |v.boundaries| + 1 && Encloses(v, target, ItemKey(hk, sk))
  {
    hide Encloses, InInterval, FirstSegment, LastSegment, Rule, Threshold, IntervalLookup, IsCut;
    assert v.depths != [] by { LookupNeedsSegments(v, hk, interval, cut); }
    LookupIsRule(v, hk, interval, cut);
    var i, j := FirstSegment(v, hk, interval), EndSegment(v, hk, interval);
    RuleIsHighest(v, i, j, Threshold(v, i, j), cut);
    var target := IntervalLookup(v, hk, interval, cut).value;
    if LastSegment(v, hk, interval) < i {
      CrossedIntervalIsEmpty(v, hk, interval, sk);
      assert false;
    }
    SegmentsEnclose(v, hk, interval, sk, target.start, target.end);
    EnclosesIgnoresRank(v, target, ItemKey(hk, sk));
  }

  lemma LookupNeedsSegments(v: View, hk: Bytes, interval: SkInterval, cut: set<int>)
    requires ValidView(v) && IntervalLookup(v, hk, interval, cut).Some?
    ensures v.depths != []
  {
  }

  lemma EnclosesIgnoresRank(v: View, target: Target, key: ItemKey)
    requires target.start <= |v.boundaries| + 1 && target.end <= |v.boundaries| + 1 && Encloses(v, Target(target.start, target.end, 0), key)
    ensures Encloses(v, target, key)
  {
  }

  /** A point lookup is the lookup of the interval of that one key. */
  lemma PointIsOneKeyInterval(v: View, key: ItemKey, cut: set<int>)
    requires ValidView(v)
    ensures PointLookup(v, key, cut)
            == IntervalLookup(v, key.hk, SkInterval(Some(Bound(key.sk, true)), Some(Bound(key.sk, true))), cut)
  {
  }
}
