/** The parts of a source keyspace that the targets of a repartition own, and the plans that make them. */
module RepartitionSlices {
  import opened Bytes
  import opened KeyCodec
  import opened RoutingHash

  /** What a source partition owns before it gives anything away. */
  datatype Identity =
    | HashNode(root: int, path: seq<int>)
    | RangeNode(routingHash: Hash, start: Option<ItemKey>, end: Option<ItemKey>)

  /**
   * The fixed part of one source: the hash function of its shard group, its identity, and `adopted`, the
   * hashes that were promoted before this partition became their hash owner.
   */
  datatype Config = Config(hash: Bytes -> Hash, topology: Topology, identity: Identity, adopted: set<Hash>)

  ghost predicate ValidConfig(c: Config) {
    && ValidTopology(c.topology)
    && (c.identity.RangeNode? ==> c.adopted == {})
  }

  function HashOf(c: Config, key: ItemKey): Hash {
    c.hash(key.hk)
  }

  datatype Slice =
    | HashChild(childIndex: nat, depth: nat)
    | RangeSlice(routingHash: Hash, start: Option<ItemKey>, end: Option<ItemKey>)
    | PromotedHash(routingHash: Hash)

  predicate SliceHasHash(c: Config, slice: Slice, h: Hash)
    requires c.topology.hashSplitN >= 1
  {
    match slice
    case HashChild(childIndex, depth) => depth >= 1 && DigitOf(h, c.topology, depth) == childIndex
    case RangeSlice(routingHash, _, _) => h == routingHash
    case PromotedHash(routingHash) => h == routingHash
  }

  /** `sliceIncludesItem`. */
  predicate SliceHas(c: Config, slice: Slice, key: ItemKey)
    requires c.topology.hashSplitN >= 1
  {
    SliceHasHash(c, slice, HashOf(c, key)) && (slice.RangeSlice? ==> InComposite(key, slice.start, slice.end))
  }

  predicate InScope(c: Config, key: ItemKey)
    requires c.topology.hashSplitN >= 1
  {
    match c.identity
    case HashNode(root, path) => RootOf(HashOf(c, key), c.topology) == root && PathOf(HashOf(c, key), c.topology, |path|) == path
    case RangeNode(routingHash, start, end) => HashOf(c, key) == routingHash && InComposite(key, start, end)
  }

  /** The loop of `sliceIncludesRoutingHash` over the digits. */
  method SliceIncludesRoutingHash(c: Config, slice: Slice, b: Bytes) returns (includes: bool)
    requires ValidTopology(c.topology) && |b| == HASH_BYTES && 0 <= ValueOf(b) < TWO_64
    ensures includes <==> SliceHasHash(c, slice, ValueOf(b))
  {
    match slice {
      case HashChild(childIndex, depth) =>
        var x := ValueOf(b);
        var cursor := new DigitCursor(b, c.topology.rootTreesN);
        var digit := -1;
        for d := 0 to depth
          invariant cursor.Valid() && fresh(cursor)
          invariant cursor.Value() == x * Nodes(c.topology, d) % TWO_64
          invariant if d == 0 then digit == -1 else digit == DigitOf(x, c.topology, d)
        {
          NextLevel(x, c.topology, d);
          RemainderOf(NodeOf(x, c.topology, d), c.topology.hashSplitN, x * Nodes(c.topology, d) % TWO_64 * c.topology.hashSplitN / TWO_64);
          digit := cursor.Next(c.topology.hashSplitN);
        }
        return digit == childIndex;
      case RangeSlice(routingHash, _, _) => return ValueOf(b) == routingHash;
      case PromotedHash(routingHash) => return ValueOf(b) == routingHash;
    }
  }

  // ─── plans ──────────────────────────────────────────────────────────────────

  datatype Kind = HashSplit | RangeSplit | KeyPromotion(promoted: Hash)

  predicate IsSplit(k: Kind) {
    !k.KeyPromotion?
  }

  predicate KindFits(c: Config, k: Kind) {
    if k.RangeSplit? then c.identity.RangeNode? else c.identity.HashNode?
  }

  /** The edges of the children: the start of the source, the boundaries, and the end of the source. */
  function Edges(start: Option<ItemKey>, boundaries: seq<ItemKey>, end: Option<ItemKey>): (edges: seq<Option<ItemKey>>)
    ensures |edges| == |boundaries| + 2
  {
    [start] + seq(|boundaries|, i requires 0 <= i < |boundaries| => Some(boundaries[i])) + [end]
  }

  /** What the flow checks of the boundaries that the host computes. */
  predicate BoundariesFit(c: Config, boundaries: seq<ItemKey>)
    requires c.identity.RangeNode?
  {
    && |boundaries| >= 1
    && forall i :: 0 <= i < |boundaries| ==> BoundaryFits(c, boundaries, i)
  }

  predicate BoundaryFits(c: Config, boundaries: seq<ItemKey>, i: nat)
    requires c.identity.RangeNode? && i < |boundaries|
  {
    && (i == 0 ==> c.identity.start.None? || CompositeLess(c.identity.start.value, boundaries[0]))
    && (i > 0 ==> CompositeLess(boundaries[i - 1], boundaries[i]))
    && (c.identity.end.None? || CompositeLess(boundaries[i], c.identity.end.value))
    && (HashOf(c, boundaries[i]) == c.identity.routingHash || boundaries[i].sk == [])
  }

  function RangeSlices(c: Config, boundaries: seq<ItemKey>): (slices: seq<Slice>)
    requires c.identity.RangeNode?
    ensures |slices| == |boundaries| + 1
  {
    var edges := Edges(c.identity.start, boundaries, c.identity.end);
    seq(|boundaries| + 1, i requires 0 <= i < |boundaries| + 1 => RangeSlice(c.identity.routingHash, edges[i], edges[i + 1]))
  }

  /** The slices of a plan, or nothing when the boundaries are refused. */
  function PlanSlices(c: Config, kind: Kind, boundaries: seq<ItemKey>): Option<seq<Slice>>
    requires KindFits(c, kind)
  {
    match kind
    case HashSplit => Some(seq(c.topology.hashSplitN, i requires 0 <= i < c.topology.hashSplitN => HashChild(i, |c.identity.path| + 1)))
    case RangeSplit => if BoundariesFit(c, boundaries) then Some(RangeSlices(c, boundaries)) else None
    case KeyPromotion(h) => Some([PromotedHash(h)])
  }

  /** The keys that a repartition moves. */
  predicate Moves(c: Config, kind: Kind, key: ItemKey)
    requires c.topology.hashSplitN >= 1
  {
    if kind.KeyPromotion? then HashOf(c, key) == kind.promoted else InScope(c, key)
  }

  /** The slices of a plan are pairwise disjoint and cover what moves. */
  ghost predicate Tiles(c: Config, kind: Kind, slices: seq<Slice>)
    requires c.topology.hashSplitN >= 1
  {
    && |slices| > 0
    && (forall key, i, j :: 0 <= i < j < |slices| ==> !(SliceHas(c, slices[i], key) && SliceHas(c, slices[j], key)))
    && (forall key :: Moves(c, kind, key) ==> exists i :: 0 <= i < |slices| && SliceHas(c, slices[i], key))
    && (kind.RangeSplit? ==> forall key, i :: 0 <= i < |slices| && SliceHas(c, slices[i], key) ==> InScope(c, key))
    && (kind.KeyPromotion? ==> slices == [PromotedHash(kind.promoted)])
  }

  lemma PlanTiles(c: Config, kind: Kind, boundaries: seq<ItemKey>)
    requires ValidConfig(c) && KindFits(c, kind) && PlanSlices(c, kind, boundaries).Some?
    ensures Tiles(c, kind, PlanSlices(c, kind, boundaries).value)
  {
    match kind
    case HashSplit => HashChildrenTile(c);
    case RangeSplit => RangeChildrenTile(c, boundaries);
    case KeyPromotion(h) =>
      forall key | Moves(c, kind, key) ensures SliceHas(c, [PromotedHash(h)][0], key) {
      }
  }

  lemma HashChildrenTile(c: Config)
    requires ValidConfig(c) && c.identity.HashNode?
    ensures Tiles(c, HashSplit, PlanSlices(c, HashSplit, []).value)
  {
    var slices, depth := PlanSlices(c, HashSplit, []).value, |c.identity.path| + 1;
    forall key | Moves(c, HashSplit, key) ensures exists i :: 0 <= i < |slices| && SliceHas(c, slices[i], key) {
      var d := DigitOf(HashOf(c, key), c.topology, depth);
      assert SliceHas(c, slices[d], key);
    }
  }

  // ─── range children ─────────────────────────────────────────────────────────

  lemma {:induction false} BoundariesAscend(c: Config, boundaries: seq<ItemKey>, i: nat, j: nat)
    requires c.identity.RangeNode? && BoundariesFit(c, boundaries) && i < j < |boundaries|
    ensures CompositeLess(boundaries[i], boundaries[j])
  {
    assert BoundaryFits(c, boundaries, j);
    if i + 1 < j {
      BoundariesAscend(c, boundaries, i, j - 1);
      CompositeIsTotalOrder(boundaries[i], boundaries[j - 1], boundaries[j]);
    }
  }

  /** The child of a key: one more than the count of boundaries at or below it, as a search from the first one. */
  lemma {:induction false} RangeChildExists(c: Config, boundaries: seq<ItemKey>, key: ItemKey, from: nat)
    returns (i: nat)
    requires c.identity.RangeNode? && BoundariesFit(c, boundaries) && from <= |boundaries|
    requires InComposite(key, Edges(c.identity.start, boundaries, c.identity.end)[from], c.identity.end)
    ensures i <= |boundaries| && InComposite(key, Edges(c.identity.start, boundaries, c.identity.end)[i], Edges(c.identity.start, boundaries, c.identity.end)[i + 1])
    decreases |boundaries| - from
  {
    if from == |boundaries| || CompositeLess(key, boundaries[from]) {
      return from;
    }
    i := RangeChildExists(c, boundaries, key, from + 1);
  }

  /** A boundary after the start of a child is above it, so a key of a child is below every later boundary. */
  lemma LaterBoundaryIsAbove(c: Config, boundaries: seq<ItemKey>, key: ItemKey, i: nat, j: nat)
    requires c.identity.RangeNode? && BoundariesFit(c, boundaries) && i < j <= |boundaries|
    requires CompositeLess(key, boundaries[i])
    ensures CompositeLess(key, boundaries[j - 1])
  {
    if i < j - 1 {
      BoundariesAscend(c, boundaries, i, j - 1);
      CompositeIsTotalOrder(key, boundaries[i], boundaries[j - 1]);
    }
  }

  lemma RangeChildInScope(c: Config, boundaries: seq<ItemKey>, key: ItemKey, i: nat)
    requires c.identity.RangeNode? && BoundariesFit(c, boundaries) && i <= |boundaries|
    requires InComposite(key, Edges(c.identity.start, boundaries, c.identity.end)[i], Edges(c.identity.start, boundaries, c.identity.end)[i + 1])
    ensures InComposite(key, c.identity.start, c.identity.end)
  {
    var start, end := c.identity.start, c.identity.end;
    assert BoundaryFits(c, boundaries, 0);
    if i > 0 {
      if start.Some? {
        if i > 1 {
          BoundariesAscend(c, boundaries, 0, i - 1);
          CompositeIsTotalOrder(start.value, boundaries[0], boundaries[i - 1]);
        }
        CompositeIsTotalOrder(start.value, boundaries[i - 1], key);
        CompositeIsTotalOrder(key, start.value, boundaries[i - 1]);
      }
    }
    if i < |boundaries| && end.Some? {
      assert BoundaryFits(c, boundaries, i);
      CompositeIsTotalOrder(key, boundaries[i], end.value);
    }
  }

  lemma RangeChildrenTile(c: Config, boundaries: seq<ItemKey>)
    requires ValidConfig(c) && c.identity.RangeNode? && BoundariesFit(c, boundaries)
    ensures Tiles(c, RangeSplit, RangeSlices(c, boundaries))
  {
    var slices := RangeSlices(c, boundaries);
    forall key, i, j | 0 <= i < j < |slices| && SliceHas(c, slices[i], key)
      ensures !SliceHas(c, slices[j], key)
    {
      LaterBoundaryIsAbove(c, boundaries, key, i, j);
    }
    forall key | InScope(c, key) ensures exists i :: 0 <= i < |slices| && SliceHas(c, slices[i], key) {
      var i := RangeChildExists(c, boundaries, key, 0);
      assert SliceHas(c, slices[i], key);
    }
    forall key, i | 0 <= i < |slices| && SliceHas(c, slices[i], key) ensures InScope(c, key) {
      RangeChildInScope(c, boundaries, key, i);
    }
  }

  /** The checks of the plan step over the boundaries that the host computed. */
  method CheckBoundaries(c: Config, boundaries: seq<ItemKey>, childCount: nat) returns (ok: bool)
    requires c.identity.RangeNode? && childCount >= 2
    ensures ok <==> |boundaries| == childCount - 1 && BoundariesFit(c, boundaries)
  {
    if |boundaries| != childCount - 1 {
      return false;
    }
    for i := 0 to |boundaries|
      invariant forall j :: 0 <= j < i ==> BoundaryFits(c, boundaries, j)
    {
      var previous := if i == 0 then c.identity.start else Some(boundaries[i - 1]);
      if previous.Some? && !CompositeLess(previous.value, boundaries[i]) {
        assert !BoundaryFits(c, boundaries, i);
        return false;
      }
      if c.identity.end.Some? && !CompositeLess(boundaries[i], c.identity.end.value) {
        assert !BoundaryFits(c, boundaries, i);
        return false;
      }
      if HashOf(c, boundaries[i]) != c.identity.routingHash && boundaries[i].sk != [] {
        assert !BoundaryFits(c, boundaries, i);
        return false;
      }
    }
    return true;
  }
}
