/** The writer of the hash split bitmap, and the round trip: a reader finds exactly the splits that were written. */
module HashBitmapEncoder {
  import opened RoutingHash
  import opened HashBitmap

  /** A split hash partition. */
  datatype Node = Node(root: int, path: seq<int>)

  predicate PathLess(a: seq<int>, b: seq<int>)
    requires |a| == |b|
  {
    a != [] && (a[0] < b[0] || (a[0] == b[0] && PathLess(a[1..], b[1..])))
  }

  /** The byte order of node keys: the depth, then the root index, then the child path. */
  predicate LevelLess(a: Node, b: Node) {
    |a.path| < |b.path| || (|a.path| == |b.path| && (a.root < b.root || (a.root == b.root && PathLess(a.path, b.path))))
  }

  function ParentOf(n: Node): Node
    requires n.path != []
  {
    Node(n.root, n.path[..|n.path| - 1])
  }

  /** What the scan gives: each split one time in level order, each inside the topology, and each ancestor with it. */
  ghost predicate ValidScan(t: Topology, nodes: seq<Node>) {
    && (forall i, j :: 0 <= i < j < |nodes| ==> LevelLess(nodes[i], nodes[j]))
    && (forall i :: 0 <= i < |nodes| ==> InTopology(t, nodes[i].root, nodes[i].path))
    && (forall i :: 0 <= i < |nodes| && nodes[i].path != [] ==> ParentOf(nodes[i]) in nodes)
  }

  ghost function IndexOf(nodes: seq<Node>, n: Node): (i: nat)
    requires n in nodes
    ensures i < |nodes| && nodes[i] == n
  {
    var i :| 0 <= i < |nodes| && nodes[i] == n;
    i
  }

  /** The position of the child `last` of the split number `parent`. */
  function ChildPlace(t: Topology, parent: nat, last: int): int {
    t.rootTreesN + t.hashSplitN * parent + last
  }

  /** The position of the node `i` of the scan. */
  ghost function Place(t: Topology, nodes: seq<Node>, i: nat): int
    requires ValidScan(t, nodes) && i < |nodes|
  {
    var n := nodes[i];
    if n.path == [] then n.root else ChildPlace(t, IndexOf(nodes, ParentOf(n)), n.path[|n.path| - 1])
  }

  lemma ChildPlacesAscend(t: Topology, p: nat, c: int, q: nat, d: int)
    requires ValidTopology(t) && 0 <= c < t.hashSplitN && 0 <= d && (p < q || (p == q && c < d))
    ensures t.rootTreesN <= ChildPlace(t, p, c) < ChildPlace(t, q, d)
  {
    MulAtMost(t.hashSplitN, 0, p);
    if p < q {
      MulAtMost(t.hashSplitN, p + 1, q);
      assert t.hashSplitN * (p + 1) == t.hashSplitN * p + t.hashSplitN;
    }
  }

  lemma ChildPlaceIsUnique(t: Topology, p: nat, c: int, q: nat, d: int)
    requires ValidTopology(t) && 0 <= c < t.hashSplitN && 0 <= d < t.hashSplitN && ChildPlace(t, p, c) == ChildPlace(t, q, d)
    ensures p == q && c == d
  {
    DivideChild(t.hashSplitN, p, c, q, d);
  }

  // ─── level order ────────────────────────────────────────────────────────────

  lemma {:induction false} PathLessIrreflexive(a: seq<int>)
    ensures !PathLess(a, a)
  {
    if a != [] {
      PathLessIrreflexive(a[1..]);
    }
  }

  lemma IndexIsUnique(t: Topology, nodes: seq<Node>, i: nat, j: nat)
    requires ValidScan(t, nodes) && i < |nodes| && j < |nodes| && nodes[i] == nodes[j]
    ensures i == j
  {
    PathLessIrreflexive(nodes[i].path);
  }

  /** The parents of two paths are in the order of the paths, and the last index decides between siblings. */
  lemma {:induction false} ParentPathOrder(a: seq<int>, b: seq<int>)
    requires |a| == |b| > 0 && PathLess(a, b)
    ensures var pa, pb := a[..|a| - 1], b[..|b| - 1];
            PathLess(pa, pb) || (pa == pb && a[|a| - 1] < b[|b| - 1])
  {
    if |a| > 1 && a[0] == b[0] {
      ParentPathOrder(a[1..], b[1..]);
      assert a[1..][..|a| - 2] == a[..|a| - 1][1..] && b[1..][..|b| - 2] == b[..|b| - 1][1..];
      assert a[..|a| - 1] == [a[0]] + a[..|a| - 1][1..] && b[..|b| - 1] == [b[0]] + b[..|b| - 1][1..];
    }
  }

  lemma {:induction false} PathLessAsymmetric(a: seq<int>, b: seq<int>)
    requires |a| == |b| && PathLess(a, b)
    ensures !PathLess(b, a)
  {
    if a[0] == b[0] {
      PathLessAsymmetric(a[1..], b[1..]);
    }
  }

  lemma LevelAsymmetric(a: Node, b: Node)
    requires LevelLess(a, b)
    ensures !LevelLess(b, a) && a != b
  {
    if |a.path| == |b.path| && a.root == b.root {
      PathLessAsymmetric(a.path, b.path);
    }
  }

  lemma ParentsOfOrdered(a: Node, b: Node)
    requires LevelLess(a, b) && a.path != [] && b.path != []
    ensures LevelLess(ParentOf(a), ParentOf(b)) || (ParentOf(a) == ParentOf(b) && a.path[|a.path| - 1] < b.path[|b.path| - 1])
  {
    if |a.path| == |b.path| && a.root == b.root {
      ParentPathOrder(a.path, b.path);
    }
  }

  lemma ParentsInOrder(t: Topology, nodes: seq<Node>, i: nat, j: nat)
    requires ValidScan(t, nodes) && i < j < |nodes| && nodes[i].path != [] && nodes[j].path != []
    ensures var p, q := IndexOf(nodes, ParentOf(nodes[i])), IndexOf(nodes, ParentOf(nodes[j]));
            p < q || (p == q && nodes[i].path[|nodes[i].path| - 1] < nodes[j].path[|nodes[j].path| - 1])
  {
    hide LevelLess;
    ParentsOfOrdered(nodes[i], nodes[j]);
    var p, q := IndexOf(nodes, ParentOf(nodes[i])), IndexOf(nodes, ParentOf(nodes[j]));
    if LevelLess(nodes[p], nodes[q]) {
      LevelAsymmetric(nodes[p], nodes[q]);
    }
  }

  lemma PlaceOfNode(t: Topology, nodes: seq<Node>, i: nat)
    requires ValidScan(t, nodes) && i < |nodes|
    ensures nodes[i].path == [] ==> Place(t, nodes, i) == nodes[i].root && 0 <= nodes[i].root < t.rootTreesN
    ensures nodes[i].path != [] ==>
      var last := nodes[i].path[|nodes[i].path| - 1];
      0 <= last < t.hashSplitN && ParentOf(nodes[i]) in nodes && Place(t, nodes, i) == ChildPlace(t, IndexOf(nodes, ParentOf(nodes[i])), last)
  {
    assert InTopology(t, nodes[i].root, nodes[i].path);
    hide ChildPlace, LevelLess;
  }

  lemma RootsAreBelowChildren(t: Topology, nodes: seq<Node>, i: nat)
    requires ValidTopology(t) && ValidScan(t, nodes) && i < |nodes|
    ensures Place(t, nodes, i) < t.rootTreesN <==> nodes[i].path == []
  {
    PlaceOfNode(t, nodes, i);
    hide ValidScan, Place;
    if nodes[i].path != [] {
      MulAtMost(t.hashSplitN, 0, IndexOf(nodes, ParentOf(nodes[i])));
    }
  }

  lemma RootsComeFirst(t: Topology, nodes: seq<Node>, i: nat, j: nat)
    requires ValidScan(t, nodes) && i < j < |nodes|
    ensures nodes[j].path == [] ==> nodes[i].path == [] && nodes[i].root < nodes[j].root
  {
    assert LevelLess(nodes[i], nodes[j]);
  }

  /** The places ascend with the scan, and stay inside the bitmap. */
  lemma PlacesAscend(t: Topology, nodes: seq<Node>, i: nat, j: nat)
    requires ValidTopology(t) && ValidScan(t, nodes) && i < j < |nodes|
    ensures Place(t, nodes, i) < Place(t, nodes, j)
  {
    RootsComeFirst(t, nodes, i, j);
    PlaceOfNode(t, nodes, i);
    PlaceOfNode(t, nodes, j);
    hide ChildPlace, LevelLess, ValidScan, Place, IndexOf, ParentOf;
    if nodes[i].path != [] {
      ParentsInOrder(t, nodes, i, j);
      var a, b := nodes[i], nodes[j];
      ChildPlacesAscend(t, IndexOf(nodes, ParentOf(a)), a.path[|a.path| - 1], IndexOf(nodes, ParentOf(b)), b.path[|b.path| - 1]);
    } else {
      RootsAreBelowChildren(t, nodes, j);
    }
  }

  lemma PlaceFits(t: Topology, nodes: seq<Node>, i: nat)
    requires ValidTopology(t) && ValidScan(t, nodes) && i < |nodes|
    ensures 0 <= Place(t, nodes, i) < t.rootTreesN + t.hashSplitN * |nodes|
    ensures Place(t, nodes, i) < t.rootTreesN <==> nodes[i].path == []
  {
    MulAtMost(t.hashSplitN, 0, |nodes|);
    if nodes[i].path != [] {
      ChildPlacesAscend(t, IndexOf(nodes, ParentOf(nodes[i])), nodes[i].path[|nodes[i].path| - 1], |nodes|, 0);
    }
  }

  // ─── the round trip ─────────────────────────────────────────────────────────

  /** The bits of exactly the places of the scan. */
  ghost predicate Encodes(t: Topology, nodes: seq<Node>, bits: Bits)
    requires ValidScan(t, nodes)
  {
    && |bits| == t.rootTreesN + t.hashSplitN * |nodes|
    && forall p :: 0 <= p < |bits| ==> (bits[p] <==> exists i :: 0 <= i < |nodes| && Place(t, nodes, i) == p)
  }

  /** No place lies between two neighbours of the scan, so the count before a place is its index. */
  lemma {:induction false} RankOfPlace(t: Topology, nodes: seq<Node>, bits: Bits, i: nat)
    requires ValidTopology(t) && ValidScan(t, nodes) && Encodes(t, nodes, bits) && i < |nodes|
    ensures 0 <= Place(t, nodes, i) < |bits| && bits[Place(t, nodes, i)]
    ensures Ones(bits, Place(t, nodes, i)) == i
  {
    hide Place, Encodes;
    PlaceFits(t, nodes, i);
    PlaceIsSet(t, nodes, bits, i);
    if i == 0 {
      NoOnesBefore(t, nodes, bits, 0, Place(t, nodes, 0), 0);
    } else {
      RankOfPlace(t, nodes, bits, i - 1);
      PlacesAscend(t, nodes, i - 1, i);
      NoOnesBefore(t, nodes, bits, Place(t, nodes, i - 1) + 1, Place(t, nodes, i), i);
    }
  }

  lemma PlaceIsSet(t: Topology, nodes: seq<Node>, bits: Bits, i: nat)
    requires ValidTopology(t) && ValidScan(t, nodes) && Encodes(t, nodes, bits) && i < |nodes|
    ensures |bits| == t.rootTreesN + t.hashSplitN * |nodes|
    ensures 0 <= Place(t, nodes, i) < |bits| && bits[Place(t, nodes, i)]
  {
    PlaceFits(t, nodes, i);
  }

  lemma NoPlaceBetween(t: Topology, nodes: seq<Node>, i: nat, j: nat)
    requires ValidTopology(t) && ValidScan(t, nodes) && i <= |nodes| && j < |nodes|
    ensures j < i ==> Place(t, nodes, j) <= Place(t, nodes, i - 1)
    ensures i <= j ==> Place(t, nodes, i) <= Place(t, nodes, j)
  {
    hide Place, ValidScan;
    if j < i - 1 {
      PlacesAscend(t, nodes, j, i - 1);
    } else if i < j {
      PlacesAscend(t, nodes, i, j);
    }
  }

  lemma SetBitIsAPlace(t: Topology, nodes: seq<Node>, bits: Bits, p: nat) returns (j: nat)
    requires ValidScan(t, nodes) && Encodes(t, nodes, bits) && p < |bits| && bits[p]
    ensures j < |nodes| && Place(t, nodes, j) == p
  {
    j :| 0 <= j < |nodes| && Place(t, nodes, j) == p;
  }

  /** The bits after place `i - 1` and before place `i` are 0. */
  lemma {:induction false} NoOnesBefore(t: Topology, nodes: seq<Node>, bits: Bits, from: nat, to: nat, i: nat)
    requires ValidTopology(t) && ValidScan(t, nodes) && Encodes(t, nodes, bits) && from <= to <= |bits| && i <= |nodes|
    requires i > 0 ==> Place(t, nodes, i - 1) < from
    requires i < |nodes| ==> to <= Place(t, nodes, i)
    ensures Ones(bits, to) == Ones(bits, from)
  {
    hide Place, ValidScan, Encodes;
    if from < to {
      NoOnesBefore(t, nodes, bits, from, to - 1, i);
      if bits[to - 1] {
        var j := SetBitIsAPlace(t, nodes, bits, to - 1);
        NoPlaceBetween(t, nodes, i, j);
        assert false;
      }
    }
  }

  lemma EncodesSize(t: Topology, nodes: seq<Node>, bits: Bits)
    requires ValidScan(t, nodes) && Encodes(t, nodes, bits)
    ensures |bits| == t.rootTreesN + t.hashSplitN * |nodes|
  {
  }

  lemma SizeMatches(t: Topology, nodes: seq<Node>, bits: Bits)
    requires ValidTopology(t) && ValidScan(t, nodes) && Encodes(t, nodes, bits)
    ensures Ones(bits, |bits|) == |nodes| && SizedByOnes(bits, t)
  {
    hide Encodes;
    hide Place, ValidScan, LevelLess;
    EncodesSize(t, nodes, bits);
    if nodes == [] {
      NoOnesBefore(t, nodes, bits, 0, |bits|, 0);
    } else {
      var last := |nodes| - 1;
      RankOfPlace(t, nodes, bits, last);
      NoOnesBefore(t, nodes, bits, Place(t, nodes, last) + 1, |bits|, |nodes|);
    }
  }

  /** A node of the scan exists in the bitmap, at its place, and is split there. */
  lemma {:induction false} NodeIsFound(t: Topology, nodes: seq<Node>, bits: Bits, n: Node)
    requires ValidTopology(t) && ValidScan(t, nodes) && Encodes(t, nodes, bits) && n in nodes
    ensures Exists(bits, t, n.root, n.path)
    ensures PosAt(bits, t, n.root, n.path) == Place(t, nodes, IndexOf(nodes, n))
    ensures Split(bits, PosAt(bits, t, n.root, n.path)) && Ones(bits, PosAt(bits, t, n.root, n.path)) == IndexOf(nodes, n)
    decreases |n.path|
  {
    RankOfPlace(t, nodes, bits, IndexOf(nodes, n));
    if n.path != [] {
      NodeIsFound(t, nodes, bits, ParentOf(n));
    }
  }

  /** A partition that the bitmap says is split is a node of the scan. */
  lemma {:induction false} FoundIsNode(t: Topology, nodes: seq<Node>, bits: Bits, n: Node)
    requires ValidTopology(t) && ValidScan(t, nodes) && Encodes(t, nodes, bits) && InTopology(t, n.root, n.path)
    requires Exists(bits, t, n.root, n.path) && Split(bits, PosAt(bits, t, n.root, n.path))
    ensures n in nodes
    decreases |n.path|
  {
    hide Encodes, Ones;
    var i := SetBitIsAPlace(t, nodes, bits, PosAt(bits, t, n.root, n.path));
    PlaceFits(t, nodes, i);
    if n.path == [] {
      assert nodes[i] == n;
    } else {
      FoundIsNode(t, nodes, bits, ParentOf(n));
      NodeIsFound(t, nodes, bits, ParentOf(n));
      SamePlaceIsSameNode(t, nodes, n, i);
    }
  }

  lemma SamePlaceIsSameNode(t: Topology, nodes: seq<Node>, n: Node, i: nat)
    requires ValidTopology(t) && ValidScan(t, nodes) && i < |nodes| && n.path != [] && ParentOf(n) in nodes && 0 <= n.path[|n.path| - 1] < t.hashSplitN
    requires Place(t, nodes, i) == ChildPlace(t, IndexOf(nodes, ParentOf(n)), n.path[|n.path| - 1])
    ensures nodes[i] == n
  {
    hide ChildPlace, LevelLess, ValidScan, Place;
    PlaceOfNode(t, nodes, i);
    PlaceFits(t, nodes, i);
    var m, last := nodes[i], n.path[|n.path| - 1];
    ChildPlacesAscend(t, IndexOf(nodes, ParentOf(n)), last, IndexOf(nodes, ParentOf(n)), last + 1);
    ChildPlaceIsUnique(t, IndexOf(nodes, ParentOf(m)), m.path[|m.path| - 1], IndexOf(nodes, ParentOf(n)), last);
    assert m.path == ParentOf(m).path + [last] && n.path == ParentOf(n).path + [last];
  }

  /** The round trip: a reader of the bitmap finds a partition split exactly when the scan held it. */
  lemma DecodedSplitsAreTheScan(t: Topology, nodes: seq<Node>, bits: Bits, n: Node)
    requires ValidTopology(t) && ValidScan(t, nodes) && Encodes(t, nodes, bits) && InTopology(t, n.root, n.path)
    ensures Exists(bits, t, n.root, n.path) && Split(bits, PosAt(bits, t, n.root, n.path)) <==> n in nodes
  {
    if n in nodes {
      NodeIsFound(t, nodes, bits, n);
    } else if Exists(bits, t, n.root, n.path) && Split(bits, PosAt(bits, t, n.root, n.path)) {
      FoundIsNode(t, nodes, bits, n);
    }
  }

  // ─── the writer ─────────────────────────────────────────────────────────────

  /** `encodeHashBitmap`: one pass over the nodes, and one pass that moves forward to the parent of each node. */
  method EncodeHashBitmap(t: Topology, nodes: seq<Node>) returns (bits: Bits)
    requires ValidTopology(t) && ValidScan(t, nodes)
    ensures Encodes(t, nodes, bits)
    ensures SizedByOnes(bits, t)
  {
    MulAtMost(t.hashSplitN, 0, |nodes|);
    bits := seq(t.rootTreesN + t.hashSplitN * |nodes|, _ => false);
    var parentIdx := -1;
    for i := 0 to |nodes|
      invariant |bits| == t.rootTreesN + t.hashSplitN * |nodes|
      invariant EncodesFirst(t, nodes, bits, i)
      invariant -1 <= parentIdx < |nodes|
      invariant forall j :: i <= j < |nodes| && nodes[j].path != [] ==> parentIdx <= IndexOf(nodes, ParentOf(nodes[j]))
    {
      var node := nodes[i];
      var pos: int;
      if node.path == [] {
        pos := node.root;
      } else {
        ghost var parentOfNode := IndexOf(nodes, ParentOf(node));
        while parentIdx == -1 || nodes[parentIdx] != ParentOf(node)
          invariant -1 <= parentIdx <= parentOfNode
          decreases parentOfNode - parentIdx
        {
          parentIdx := parentIdx + 1;
        }
        IndexIsUnique(t, nodes, parentIdx, parentOfNode);
        pos := t.rootTreesN + t.hashSplitN * parentIdx + node.path[|node.path| - 1];
        LaterParents(t, nodes, i);
      }
      PlaceFits(t, nodes, i);
      EncodesNext(t, nodes, bits, i);
      bits := bits[pos := true];
    }
    SizeMatches(t, nodes, bits);
  }

  /** The bits of the first `count` places. */
  ghost predicate EncodesFirst(t: Topology, nodes: seq<Node>, bits: Bits, count: nat)
    requires ValidScan(t, nodes) && count <= |nodes|
  {
    forall p :: 0 <= p < |bits| ==> (bits[p] <==> exists j :: 0 <= j < count && Place(t, nodes, j) == p)
  }

  lemma EncodesNext(t: Topology, nodes: seq<Node>, bits: Bits, i: nat)
    requires ValidScan(t, nodes) && i < |nodes| && EncodesFirst(t, nodes, bits, i) && 0 <= Place(t, nodes, i) < |bits|
    ensures EncodesFirst(t, nodes, bits[Place(t, nodes, i) := true], i + 1)
  {
    hide Place, ValidScan;
    var after := bits[Place(t, nodes, i) := true];
    forall p | 0 <= p < |after| ensures after[p] <==> exists j :: 0 <= j < i + 1 && Place(t, nodes, j) == p {
      if p == Place(t, nodes, i) {
        assert i < i + 1;
      } else if after[p] {
        var j :| 0 <= j < i && Place(t, nodes, j) == p;
        assert j < i + 1;
      }
    }
  }

  lemma LaterParents(t: Topology, nodes: seq<Node>, i: nat)
    requires ValidScan(t, nodes) && i < |nodes| && nodes[i].path != []
    ensures forall j :: i < j < |nodes| && nodes[j].path != [] ==> IndexOf(nodes, ParentOf(nodes[i])) <= IndexOf(nodes, ParentOf(nodes[j]))
  {
    forall j | i < j < |nodes| && nodes[j].path != []
      ensures IndexOf(nodes, ParentOf(nodes[i])) <= IndexOf(nodes, ParentOf(nodes[j]))
    {
      ParentsInOrder(t, nodes, i, j);
    }
  }
}
