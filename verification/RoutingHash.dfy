/**
 * Routing hashes: 64-bit numbers that select a hash partition by their digits, read as the fraction
 * `x / 2^64`. The root digit is in base `rootTreesN`, and each next digit is in base `hashSplitN`.
 */
module RoutingHash {
  import opened Bytes

  const TWO_32: int := 0x1_0000_0000
  const TWO_53: int := 0x20_0000_0000_0000
  const TWO_64: int := 0x1_0000_0000_0000_0000

  const HASH_BYTES := 8
  const MAX_HASH_DEPTH := 64
  const HASH_PARTITIONS_MAX := 65000

  type Hash = x: int | 0 <= x < TWO_64

  /** The topology that a route context accepts. */
  datatype Topology = Topology(rootTreesN: nat, hashSplitN: nat)

  predicate ValidTopology(t: Topology) {
    1 <= t.rootTreesN <= HASH_PARTITIONS_MAX && 2 <= t.hashSplitN <= 255
  }

  // ─── nodes ──────────────────────────────────────────────────────────────────

  /** The node count of a level. */
  function Nodes(t: Topology, depth: nat): nat {
    if depth == 0 then t.rootTreesN else Nodes(t, depth - 1) * t.hashSplitN
  }

  /** The number of the node that holds `x` at a level: `floor(x * D / 2^64)`. */
  function NodeOf(x: int, t: Topology, depth: nat): int {
    x * Nodes(t, depth) / TWO_64
  }

  function RootOf(x: int, t: Topology): int {
    NodeOf(x, t, 0)
  }

  /** The digit of level `depth >= 1`. */
  function DigitOf(x: int, t: Topology, depth: nat): int
    requires depth >= 1 && t.hashSplitN >= 1
  {
    NodeOf(x, t, depth) % t.hashSplitN
  }

  function PathOf(x: int, t: Topology, depth: nat): seq<int>
    requires t.hashSplitN >= 1
  {
    seq(depth, i requires 0 <= i < depth => DigitOf(x, t, i + 1))
  }

  /** The number of the node at a root and a path. */
  function Numer(t: Topology, root: int, path: seq<int>): int {
    if path == [] then root else Numer(t, root, path[..|path| - 1]) * t.hashSplitN + path[|path| - 1]
  }

  predicate InTopology(t: Topology, root: int, path: seq<int>) {
    0 <= root < t.rootTreesN && forall i :: 0 <= i < |path| ==> 0 <= path[i] < t.hashSplitN
  }

  // ─── the two-limb step ──────────────────────────────────────────────────────

  lemma MulMonotone(a: int, b: int, c: int)
    requires a <= b && c >= 0
    ensures a * c <= b * c
  {
  }

  /** One step of the cursor: no product reaches 2^53, and the limbs give the exact digit and rest. */
  lemma StepIsExact(hi: int, lo: int, base: int)
    requires 0 <= hi < TWO_32 && 0 <= lo < TWO_32 && 0 <= base <= HASH_PARTITIONS_MAX
    ensures var a := lo * base; var b := hi * base + a / TWO_32; var v := (hi * TWO_32 + lo) * base;
            && 0 <= a < TWO_53 && 0 <= b < TWO_53
            && b / TWO_32 == v / TWO_64
            && b % TWO_32 * TWO_32 + a % TWO_32 == v % TWO_64
            && 0 <= v / TWO_64 && (base > 0 ==> v / TWO_64 < base)
  {
    MulMonotone(lo, TWO_32 - 1, base);
    MulMonotone(hi, TWO_32 - 1, base);
    MulDistributes(hi * TWO_32, lo, base);
    assert hi * TWO_32 * base == hi * base * TWO_32;
    LimbCarry(lo * base, hi * base, (hi * TWO_32 + lo) * base);
    if base > 0 {
      MulMonotone(hi * TWO_32 + lo, TWO_64 - 1, base);
    }
  }

  lemma LimbCarry(a: int, h: int, v: int)
    requires 0 <= a < HASH_PARTITIONS_MAX * TWO_32 && 0 <= h < HASH_PARTITIONS_MAX * TWO_32 && v == h * TWO_32 + a
    ensures var b := h + a / TWO_32;
            && 0 <= b < TWO_53
            && b / TWO_32 == v / TWO_64
            && b % TWO_32 * TWO_32 + a % TWO_32 == v % TWO_64
  {
    var b := h + a / TWO_32;
    DivideUniquely(v, b / TWO_32, b % TWO_32 * TWO_32 + a % TWO_32);
  }

  lemma DivideUniquely(v: int, q: int, r: int)
    requires v == q * TWO_64 + r && 0 <= r < TWO_64
    ensures v / TWO_64 == q && v % TWO_64 == r
  {
  }

  /** The number that 8 bytes hold, most significant byte first. */
  function ValueOf(b: Bytes): int {
    if b == [] then 0 else ValueOf(b[..|b| - 1]) * 256 + b[|b| - 1]
  }

  /** The 32 bits of four bytes, most significant byte first. */
  function Limb(b0: byte, b1: byte, b2: byte, b3: byte): (limb: int)
    ensures 0 <= limb < TWO_32
  {
    var c0: int, c1: int, c2: int := b0, b1, b2;
    c0 * 0x100_0000 + c1 * 0x1_0000 + c2 * 0x100 + b3
  }

  /** The digits of a routing hash. `hi` and `lo` hold the part of the fraction that is left. */
  class DigitCursor {
    var hi: int
    var lo: int
    var root: int

    predicate Valid()
      reads this
    {
      0 <= hi < TWO_32 && 0 <= lo < TWO_32
    }

    function Value(): int
      reads this
    {
      hi * TWO_32 + lo
    }

    constructor (b: Bytes, rootTreesN: nat)
      requires |b| == HASH_BYTES && rootTreesN <= HASH_PARTITIONS_MAX
      ensures Valid()
      ensures root == ValueOf(b) * rootTreesN / TWO_64
      ensures Value() == ValueOf(b) * rootTreesN % TWO_64
    {
      hi := Limb(b[0], b[1], b[2], b[3]);
      lo := Limb(b[4], b[5], b[6], b[7]);
      new;
      hide Limb;
      ValueOfLimbs(b);
      root := Next(rootTreesN);
    }

    method Next(base: nat) returns (digit: int)
      requires Valid() && base <= HASH_PARTITIONS_MAX
      modifies this`hi, this`lo
      ensures Valid()
      ensures digit == old(Value()) * base / TWO_64
      ensures Value() == old(Value()) * base % TWO_64
      ensures base > 0 ==> 0 <= digit < base
    {
      StepIsExact(hi, lo, base);
      var a := lo * base;
      var carry := a / TWO_32;
      var b := hi * base + carry;
      digit := b / TWO_32;
      hi := b - digit * TWO_32;
      lo := a - carry * TWO_32;
    }
  }

  lemma ValueOfLimbs(b: Bytes)
    requires |b| == HASH_BYTES
    ensures ValueOf(b) == Limb(b[0], b[1], b[2], b[3]) * TWO_32 + Limb(b[4], b[5], b[6], b[7])
  {
    ValueOfLimb(b, 0);
    ValueOfLimb(b, 4);
    assert b[..8] == b;
  }

  lemma ValueOfLimb(b: Bytes, i: nat)
    requires i + 4 <= |b|
    ensures ValueOf(b[..i + 4]) == ValueOf(b[..i]) * TWO_32 + Limb(b[i], b[i + 1], b[i + 2], b[i + 3])
  {
    hide ValueOf;
    ValueOfPrefix(b, i);
    ValueOfPrefix(b, i + 1);
    ValueOfPrefix(b, i + 2);
    ValueOfPrefix(b, i + 3);
  }

  lemma ValueOfPrefix(b: Bytes, i: nat)
    requires i < |b|
    ensures ValueOf(b[..i + 1]) == ValueOf(b[..i]) * 256 + b[i]
  {
    assert b[..i + 1][..i] == b[..i];
  }

  lemma {:induction false} ValueBound(b: Bytes)
    requires |b| <= HASH_BYTES
    ensures 0 <= ValueOf(b) < Power256(|b|)
  {
    if b != [] {
      ValueBound(b[..|b| - 1]);
    }
  }

  function Power256(n: nat): nat {
    if n == 0 then 1 else Power256(n - 1) * 256
  }

  // ─── the digits are the node ────────────────────────────────────────────────

  /** One digit more: the node of the next level, and the fraction that is left. */
  lemma NextLevel(x: int, t: Topology, depth: nat)
    requires 0 <= x && t.hashSplitN >= 1
    ensures var v := x * Nodes(t, depth) % TWO_64;
            && NodeOf(x, t, depth + 1) == NodeOf(x, t, depth) * t.hashSplitN + v * t.hashSplitN / TWO_64
            && x * Nodes(t, depth + 1) % TWO_64 == v * t.hashSplitN % TWO_64
            && 0 <= v * t.hashSplitN / TWO_64 < t.hashSplitN
  {
    var k, y := t.hashSplitN, x * Nodes(t, depth);
    var q, v := y / TWO_64, y % TWO_64;
    assert x * Nodes(t, depth + 1) == y * k by {
      MulAssociates(x, Nodes(t, depth), k);
    }
    assert y * k == (q * k) * TWO_64 + v * k by {
      assert y == q * TWO_64 + v;
      MulDistributes(q * TWO_64, v, k);
      MulSwap(q, k);
    }
    var d, r := v * k / TWO_64, v * k % TWO_64;
    DivideUniquely(y * k, q * k + d, r);
    MulMonotone(v, TWO_64 - 1, k);
  }

  lemma MulAssociates(a: int, b: int, c: int)
    ensures a * (b * c) == a * b * c
  {
  }

  lemma MulDistributes(a: int, b: int, c: int)
    ensures (a + b) * c == a * c + b * c
  {
  }

  lemma MulSwap(q: int, k: int)
    ensures q * TWO_64 * k == q * k * TWO_64
  {
  }

  /** `x * D / 2^64` in steps gives the node number, whose digits are the digits of `x`. */
  lemma {:induction false} NumerOfDigits(x: int, t: Topology, depth: nat)
    requires 0 <= x < TWO_64 && ValidTopology(t)
    ensures Numer(t, RootOf(x, t), PathOf(x, t, depth)) == NodeOf(x, t, depth)
    ensures InTopology(t, RootOf(x, t), PathOf(x, t, depth))
  {
    hide NodeOf, DigitOf, Nodes;
    RootIsATree(x, t);
    if depth > 0 {
      NumerOfDigits(x, t, depth - 1);
      DigitAddsALevel(x, t, depth);
      assert PathOf(x, t, depth) == PathOf(x, t, depth - 1) + [DigitOf(x, t, depth)];
      NumerOfOneMore(t, RootOf(x, t), PathOf(x, t, depth - 1), DigitOf(x, t, depth));
    }
  }

  lemma RootIsATree(x: int, t: Topology)
    requires 0 <= x < TWO_64 && ValidTopology(t)
    ensures 0 <= RootOf(x, t) < t.rootTreesN
  {
    MulMonotone(x, TWO_64 - 1, t.rootTreesN);
    MulMonotone(0, x, t.rootTreesN);
  }

  lemma DigitAddsALevel(x: int, t: Topology, depth: nat)
    requires 0 <= x && ValidTopology(t) && depth > 0
    ensures NodeOf(x, t, depth) == NodeOf(x, t, depth - 1) * t.hashSplitN + DigitOf(x, t, depth)
    ensures 0 <= DigitOf(x, t, depth) < t.hashSplitN
  {
    NextLevel(x, t, depth - 1);
    hide NodeOf, Nodes;
    RemainderOf(NodeOf(x, t, depth - 1), t.hashSplitN, x * Nodes(t, depth - 1) % TWO_64 * t.hashSplitN / TWO_64);
  }

  lemma NumerOfOneMore(t: Topology, root: int, path: seq<int>, digit: int)
    ensures Numer(t, root, path + [digit]) == Numer(t, root, path) * t.hashSplitN + digit
  {
    assert (path + [digit])[..|path|] == path;
  }

  lemma RemainderOf(n: int, k: int, d: int)
    requires 0 <= d < k
    ensures (n * k + d) % k == d && (n * k + d) / k == n
  {
    var q, r := (n * k + d) / k, (n * k + d) % k;
    assert (q - n) * k == d - r;
    if q > n {
      MulMonotone(1, q - n, k);
    } else if q < n {
      MulMonotone(q - n, -1, k);
    }
  }

  lemma {:induction false} NumerIsInjective(t: Topology, root: int, path: seq<int>, root': int, path': seq<int>)
    requires InTopology(t, root, path) && InTopology(t, root', path') && |path| == |path'|
    requires Numer(t, root, path) == Numer(t, root', path')
    ensures root == root' && path == path'
  {
    if path != [] {
      var last := |path| - 1;
      RemainderOf(Numer(t, root, path[..last]), t.hashSplitN, path[last]);
      RemainderOf(Numer(t, root', path'[..last]), t.hashSplitN, path'[last]);
      NumerIsInjective(t, root, path[..last], root', path'[..last]);
      assert path == path[..last] + [path[last]] && path' == path'[..last] + [path'[last]];
    }
  }

  /** `routingHashDigits`. */
  method RoutingHashDigits(b: Bytes, t: Topology, depth: nat) returns (root: int, path: seq<int>)
    requires |b| == HASH_BYTES && ValidTopology(t)
    ensures root == RootOf(ValueOf(b), t)
    ensures path == PathOf(ValueOf(b), t, depth)
    ensures InTopology(t, root, path)
  {
    var x := ValueOf(b);
    ValueBound(b);
    var cursor := new DigitCursor(b, t.rootTreesN);
    root := cursor.root;
    path := [];
    for d := 0 to depth
      invariant cursor.Valid() && fresh(cursor)
      invariant cursor.Value() == x * Nodes(t, d) % TWO_64
      invariant path == PathOf(x, t, d)
    {
      NextLevel(x, t, d);
      RemainderOf(NodeOf(x, t, d), t.hashSplitN, x * Nodes(t, d) % TWO_64 * t.hashSplitN / TWO_64);
      var digit := cursor.Next(t.hashSplitN);
      path := path + [digit];
      assert path == PathOf(x, t, d + 1);
    }
    NumerOfDigits(x, t, depth);
  }

  // ─── the deepest level ──────────────────────────────────────────────────────

  lemma {:induction false} NodesGrow(t: Topology, d: nat, e: nat)
    requires ValidTopology(t) && d <= e
    ensures 1 <= Nodes(t, d) <= Nodes(t, e)
    ensures d < e ==> Nodes(t, d) < Nodes(t, e)
  {
    if e > 0 {
      if d < e {
        NodesGrow(t, d, e - 1);
        MulMonotone(2, t.hashSplitN, Nodes(t, e - 1));
      } else {
        NodesGrow(t, e - 1, e - 1);
        MulMonotone(2, t.hashSplitN, Nodes(t, e - 1));
      }
    }
  }

  /** The memo of `maxHashDepth`. `hashSplitN` is below 256, so two topologies never share a memo key. */
  class DepthMemo {
    var depths: map<nat, nat>

    ghost predicate Valid()
      reads this
    {
      forall t :: ValidTopology(t) && MemoKey(t) in depths ==> IsMaxDepth(t, depths[MemoKey(t)])
    }

    constructor ()
      ensures Valid()
    {
      depths := map[];
    }

    method MaxHashDepth(t: Topology) returns (depth: nat)
      requires Valid() && ValidTopology(t)
      modifies this
      ensures Valid() && IsMaxDepth(t, depth)
    {
      if MemoKey(t) in depths {
        return depths[MemoKey(t)];
      }
      depth := 0;
      var nodes := t.rootTreesN;
      while depth < MAX_HASH_DEPTH && nodes * t.hashSplitN <= TWO_64
        invariant depth <= MAX_HASH_DEPTH && nodes == Nodes(t, depth) && nodes <= TWO_64
        decreases MAX_HASH_DEPTH - depth
      {
        nodes := nodes * t.hashSplitN;
        depth := depth + 1;
      }
      assert Nodes(t, depth + 1) == nodes * t.hashSplitN;
      ghost var before := depths;
      depths := depths[MemoKey(t) := depth];
      forall u | ValidTopology(u) && MemoKey(u) in depths ensures IsMaxDepth(u, depths[MemoKey(u)]) {
        if MemoKey(u) == MemoKey(t) {
          MemoKeyIsInjective(t, u);
        } else {
          assert MemoKey(u) in before;
        }
      }
    }
  }

  function MemoKey(t: Topology): nat {
    t.rootTreesN * 256 + t.hashSplitN
  }

  lemma MemoKeyIsInjective(t: Topology, u: Topology)
    requires ValidTopology(t) && ValidTopology(u) && MemoKey(t) == MemoKey(u)
    ensures t == u
  {
  }

  /** The largest depth of at most 64 with at most 2^64 nodes. */
  ghost predicate IsMaxDepth(t: Topology, depth: nat) {
    && depth <= MAX_HASH_DEPTH && Nodes(t, depth) <= TWO_64
    && (depth == MAX_HASH_DEPTH || Nodes(t, depth + 1) > TWO_64)
  }

  lemma MaxDepthBoundsNodes(t: Topology, max: nat, depth: nat)
    requires ValidTopology(t) && IsMaxDepth(t, max)
    ensures depth <= max <==> depth <= MAX_HASH_DEPTH && Nodes(t, depth) <= TWO_64
  {
    if depth <= max {
      NodesGrow(t, depth, max);
    } else if max < MAX_HASH_DEPTH {
      NodesGrow(t, max + 1, depth);
    }
  }

  // ─── node intervals ─────────────────────────────────────────────────────────

  function CeilDiv(a: int, b: int): int
    requires b > 0
  {
    (a + b - 1) / b
  }

  lemma CeilDivAtMost(a: int, b: int, x: int)
    requires b > 0
    ensures CeilDiv(a, b) <= x <==> a <= x * b
  {
    var q := CeilDiv(a, b);
    assert a + b - 1 == q * b + (a + b - 1) % b;
    if q <= x {
      MulMonotone(q, x, b);
    } else {
      MulMonotone(x, q - 1, b);
    }
  }

  /** The first number of the node `numer` of `nodes`. */
  function NodeStart(numer: int, nodes: int): int
    requires nodes > 0
  {
    CeilDiv(numer * TWO_64, nodes)
  }

  /** The start of a node is the least number whose node number is not below it. */
  lemma StartIsExact(numer: int, t: Topology, depth: nat, x: int)
    requires ValidTopology(t)
    ensures Nodes(t, depth) > 0
    ensures NodeStart(numer, Nodes(t, depth)) <= x <==> numer <= NodeOf(x, t, depth)
  {
    NodesGrow(t, depth, depth);
    CeilDivAtMost(numer * TWO_64, Nodes(t, depth), x);
  }

  lemma NumerBound(t: Topology, root: int, path: seq<int>)
    requires ValidTopology(t) && InTopology(t, root, path)
    ensures 0 <= Numer(t, root, path) < Nodes(t, |path|)
  {
    if path != [] {
      var last := |path| - 1;
      NumerBound(t, root, path[..last]);
      MulMonotone(Numer(t, root, path[..last]), Nodes(t, last) - 1, t.hashSplitN);
      MulMonotone(0, Numer(t, root, path[..last]), t.hashSplitN);
    }
  }

  /** With at most 2^64 nodes each node has a number, and its start fits 8 bytes. */
  lemma StartsAscend(numer: int, nodes: int)
    requires 0 <= numer < nodes <= TWO_64
    ensures 0 <= NodeStart(numer, nodes) < NodeStart(numer + 1, nodes)
    ensures NodeStart(numer, nodes) < TWO_64
    ensures numer + 1 == nodes ==> NodeStart(numer + 1, nodes) == TWO_64
  {
    var s, e := NodeStart(numer, nodes), NodeStart(numer + 1, nodes);
    CeilDivAtMost(numer * TWO_64, nodes, -1);
    MulMonotone(0, numer, TWO_64);
    CeilDivAtMost(numer * TWO_64, nodes, e - 1);
    CeilDivAtMost((numer + 1) * TWO_64, nodes, e);
    assert (e - 1) * nodes == e * nodes - nodes;
    CeilDivAtMost(numer * TWO_64, nodes, TWO_64 - 1);
    MulMonotone(numer, nodes - 1, TWO_64);
    assert (TWO_64 - 1) * nodes == TWO_64 * nodes - nodes;
    CeilDivAtMost((numer + 1) * TWO_64, nodes, TWO_64);
    CeilDivAtMost((numer + 1) * TWO_64, nodes, TWO_64 - 1);
  }

  /** The 64 bits that `routingHashBytes` writes. */
  function Wrapped(value: int): Hash {
    value % TWO_64
  }

  datatype Interval = Interval(start: Hash, end: Option<Hash>)

  predicate InHashInterval(x: int, i: Interval) {
    i.start <= x && (i.end.Some? ==> x < i.end.value)
  }

  /** `routingHashInterval`, or nothing for a node outside the topology. A missing end is 2^64. */
  method RoutingHashInterval(t: Topology, root: int, path: seq<int>) returns (r: Option<Interval>)
    requires ValidTopology(t) && root >= 0 && forall i :: 0 <= i < |path| ==> path[i] >= 0
    ensures r.Some? <==> InTopology(t, root, path)
    ensures r.Some? && Nodes(t, |path|) <= TWO_64 ==> IsIntervalOf(t, root, path, r.value)
  {
    if root >= t.rootTreesN {
      return None;
    }
    var numer, nodes := root, t.rootTreesN;
    for d := 0 to |path|
      invariant InTopology(t, root, path[..d])
      invariant numer == Numer(t, root, path[..d]) && nodes == Nodes(t, d)
    {
      if path[d] >= t.hashSplitN {
        return None;
      }
      assert path[..d + 1][..d] == path[..d];
      numer := numer * t.hashSplitN + path[d];
      nodes := nodes * t.hashSplitN;
    }
    assert path[..|path|] == path;
    NodesGrow(t, |path|, |path|);
    NumerBound(t, root, path);
    hide CeilDiv, Wrapped;
    var start := NodeStart(numer, nodes);
    var end := NodeStart(numer + 1, nodes);
    r := Some(Interval(Wrapped(start), if numer + 1 == nodes then None else Some(Wrapped(end))));
    if nodes <= TWO_64 {
      StartsFit(numer, nodes);
    }
  }

  lemma StartsFit(numer: int, nodes: int)
    requires 0 <= numer < nodes <= TWO_64
    ensures Wrapped(NodeStart(numer, nodes)) == NodeStart(numer, nodes)
    ensures numer + 1 < nodes ==> Wrapped(NodeStart(numer + 1, nodes)) == NodeStart(numer + 1, nodes)
  {
    StartsAscend(numer, nodes);
    if numer + 1 < nodes {
      StartsAscend(numer + 1, nodes);
    }
  }

  /** The interval from the exact start of the node to the exact start of the next one. */
  ghost predicate IsIntervalOf(t: Topology, root: int, path: seq<int>, i: Interval) {
    var numer, nodes := Numer(t, root, path), Nodes(t, |path|);
    && nodes > 0
    && i.start == NodeStart(numer, nodes)
    && (if numer + 1 == nodes then i.end == None else i.end == Some(NodeStart(numer + 1, nodes)))
  }

  /** A routing hash is in the interval of a node exactly when its digits are the root and the path of the node. */
  lemma IntervalIsDigits(t: Topology, root: int, path: seq<int>, i: Interval, x: int)
    requires ValidTopology(t) && InTopology(t, root, path) && Nodes(t, |path|) <= TWO_64
    requires IsIntervalOf(t, root, path, i) && 0 <= x < TWO_64
    ensures InHashInterval(x, i) <==> RootOf(x, t) == root && PathOf(x, t, |path|) == path
  {
    var numer, nodes := Numer(t, root, path), Nodes(t, |path|);
    StartIsExact(numer, t, |path|, x);
    StartIsExact(numer + 1, t, |path|, x);
    NumerOfDigits(x, t, |path|);
    NumerBound(t, RootOf(x, t), PathOf(x, t, |path|));
    if NodeOf(x, t, |path|) == numer {
      NumerIsInjective(t, root, path, RootOf(x, t), PathOf(x, t, |path|));
    }
  }

  /** Down to the deepest level, the interval of a node is not empty. */
  lemma IntervalIsNotEmpty(t: Topology, root: int, path: seq<int>, i: Interval, max: nat)
    requires ValidTopology(t) && InTopology(t, root, path) && IsMaxDepth(t, max) && |path| <= max
    requires IsIntervalOf(t, root, path, i)
    ensures InHashInterval(i.start, i)
    ensures RootOf(i.start, t) == root && PathOf(i.start, t, |path|) == path
  {
    MaxDepthBoundsNodes(t, max, |path|);
    NumerBound(t, root, path);
    StartsAscend(Numer(t, root, path), Nodes(t, |path|));
    IntervalIsDigits(t, root, path, i, i.start);
  }

  /**
   * The children of a node tile its interval. Their numbers are consecutive, so each starts where the one
   * before it ends. The first starts at the start of the node, and the last ends at its end.
   */
  lemma ChildrenTile(t: Topology, root: int, path: seq<int>, j: nat)
    requires ValidTopology(t) && InTopology(t, root, path) && j < t.hashSplitN
    ensures Nodes(t, |path|) > 0 && Nodes(t, |path| + 1) > 0
    ensures InTopology(t, root, path + [j])
    ensures Numer(t, root, path + [j]) == Numer(t, root, path + [0]) + j
    ensures NodeStart(Numer(t, root, path + [0]), Nodes(t, |path| + 1)) == NodeStart(Numer(t, root, path), Nodes(t, |path|))
    ensures NodeStart(Numer(t, root, path + [0]) + t.hashSplitN, Nodes(t, |path| + 1)) == NodeStart(Numer(t, root, path) + 1, Nodes(t, |path|))
  {
    hide NodeStart;
    NodesGrow(t, |path|, |path| + 1);
    var numer, k, nodes := Numer(t, root, path), t.hashSplitN, Nodes(t, |path|);
    assert (path + [j])[..|path|] == path && (path + [0])[..|path|] == path;
    ScaledStart(numer, nodes, k);
    ScaledStart(numer + 1, nodes, k);
    assert (numer + 1) * k == numer * k + k;
  }

  lemma ScaledStart(numer: int, nodes: int, k: int)
    requires nodes > 0 && k > 0
    ensures nodes * k > 0 && NodeStart(numer * k, nodes * k) == NodeStart(numer, nodes)
  {
    MulMonotone(1, nodes, k);
    var s, e := NodeStart(numer, nodes), NodeStart(numer * k, nodes * k);
    ScaledAtMost(numer, nodes, k, s);
    ScaledAtMost(numer, nodes, k, e);
  }

  lemma ScaledAtMost(numer: int, nodes: int, k: int, x: int)
    requires nodes > 0 && k > 0 && nodes * k > 0
    ensures NodeStart(numer * k, nodes * k) <= x <==> NodeStart(numer, nodes) <= x
  {
    CeilDivAtMost(numer * k * TWO_64, nodes * k, x);
    CeilDivAtMost(numer * TWO_64, nodes, x);
    var a, b := numer * TWO_64, x * nodes;
    assert numer * k * TWO_64 == a * k;
    assert x * (nodes * k) == b * k by {
      MulAssociates(x, nodes, k);
    }
    if a <= b {
      MulMonotone(a, b, k);
    } else {
      MulMonotone(b + 1, a, k);
      assert (b + 1) * k == b * k + k;
    }
  }

  // ─── the byte order is the numeric order ────────────────────────────────────

  /** `compareRoutingHashes`. */
  method CompareRoutingHashes(a: Bytes, b: Bytes) returns (c: int)
    requires |a| == HASH_BYTES && |b| == HASH_BYTES
    ensures c < 0 <==> ValueOf(a) < ValueOf(b)
    ensures c == 0 <==> a == b
    ensures c > 0 <==> ValueOf(a) > ValueOf(b)
  {
    for i := 0 to HASH_BYTES
      invariant a[..i] == b[..i]
    {
      if a[i] != b[i] {
        if a[i] < b[i] {
          FirstByteDecides(a, b, i);
        } else {
          FirstByteDecides(b, a, i);
        }
        var x: int, y: int := a[i], b[i];
        return x - y;
      }
    }
    assert a == a[..HASH_BYTES] == b[..HASH_BYTES] == b;
    return 0;
  }

  lemma {:induction false} FirstByteDecides(a: Bytes, b: Bytes, i: nat)
    requires |a| == |b| && i < |a| && a[..i] == b[..i] && a[i] < b[i]
    ensures ValueOf(a) < ValueOf(b)
  {
    var last := |a| - 1;
    if i < last {
      assert a[..last][..i] == a[..i] && b[..last][..i] == b[..i];
      FirstByteDecides(a[..last], b[..last], i);
    }
  }

  /** `nextRoutingHash`: the number after it, with a carry through the bytes, or nothing after the last one. */
  method NextRoutingHash(b: Bytes) returns (r: Option<Bytes>)
    requires |b| == HASH_BYTES
    ensures r.Some? ==> |r.value| == HASH_BYTES && ValueOf(r.value) == ValueOf(b) + 1
    ensures r.None? <==> ValueOf(b) == TWO_64 - 1
  {
    var next := b;
    var i := |b| - 1;
    while i >= 0
      invariant -1 <= i < |b| && |next| == |b|
      invariant next[..i + 1] == b[..i + 1]
      invariant forall j :: i < j < |b| ==> b[j] == 0xff && next[j] == 0
    {
      if next[i] < 0xff {
        next := next[i := next[i] + 1];
        CarryIsOneMore(b, next, i);
        ValueBound(next);
        assert Power256(8) == TWO_64;
        return Some(next);
      }
      next := next[i := 0];
      i := i - 1;
    }
    AllOnes(b);
    assert Power256(8) == TWO_64;
    return None;
  }

  lemma {:induction false} CarryIsOneMore(b: Bytes, next: Bytes, i: nat)
    requires i < |b| == |next| && next[..i] == b[..i] && b[i] < 0xff && next[i] == b[i] + 1
    requires forall j :: i < j < |b| ==> b[j] == 0xff && next[j] == 0
    ensures ValueOf(next) == ValueOf(b) + 1
  {
    var last := |b| - 1;
    if i < last {
      assert next[..last][..i] == next[..i] && b[..last][..i] == b[..i];
      CarryIsOneMore(b[..last], next[..last], i);
    } else {
      assert next[..last] == b[..last];
    }
  }

  lemma {:induction false} AllOnes(b: Bytes)
    requires forall j :: 0 <= j < |b| ==> b[j] == 0xff
    ensures ValueOf(b) == Power256(|b|) - 1
  {
    if b != [] {
      AllOnes(b[..|b| - 1]);
    }
  }
}
