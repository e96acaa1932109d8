/**
 * The learned hash topology of a router: a K-ary tree in one flat array. A block is K consecutive
 * slots, a slot holds 0 or the index of the block of that child, and the root block starts at 0.
 */
module HashArena {
  import opened Bytes
  import opened RoutingHash

  // ─── the tree in the array ──────────────────────────────────────────────────

  type Slots = seq<nat>

  /** The block that a path of child indexes leads to. */
  function Block(a: Slots, k: nat, path: seq<int>): Option<nat> {
    if path == [] then Some(0)
    else
      var parent := Block(a, k, path[..|path| - 1]);
      var child := path[|path| - 1];
      if parent.Some? && 0 <= child < k && parent.value + child < |a| && a[parent.value + child] != 0
      then Some(a[parent.value + child]) else None
  }

  /** The path is known to be split: the set of these paths is what the arena means. */
  predicate Known(a: Slots, k: nat, path: seq<int>) {
    Block(a, k, path).Some?
  }

  predicate Prefix(p: seq<int>, q: seq<int>) {
    p <= q
  }

  /** Blocks never overlap, a child block comes after its own slot, and the slots that are not used are 0. */
  ghost predicate WellFormed(a: Slots, k: nat, nextFree: nat) {
    && 2 <= k <= nextFree <= |a| && nextFree % k == 0
    && (forall s :: 0 <= s < |a| && a[s] != 0 ==> s < a[s] && a[s] % k == 0 && a[s] + k <= nextFree)
    && (forall s, r :: 0 <= s < r < |a| && a[s] != 0 ==> a[s] != a[r])
  }

  lemma MultipleIsOffset(block: int, child: int, k: int)
    requires k > 0 && block % k == 0 && 0 <= child < k
    ensures (block + child) % k == child
  {
    assert block == block / k * k;
    RemainderOf(block / k, k, child);
  }

  lemma {:induction false} BlockFits(a: Slots, k: nat, nextFree: nat, path: seq<int>)
    requires WellFormed(a, k, nextFree) && Known(a, k, path)
    ensures var b := Block(a, k, path).value; b % k == 0 && b + k <= nextFree && (b == 0 <==> path == [])
    ensures forall i :: 0 <= i < |path| ==> 0 <= path[i] < k
  {
    if path != [] {
      BlockFits(a, k, nextFree, path[..|path| - 1]);
    }
  }

  /** Slots of different blocks, or different children of one block, are different slots. */
  lemma SameSlot(b: int, c: int, b': int, c': int, k: int)
    requires k > 0 && b % k == 0 && b' % k == 0 && 0 <= c < k && 0 <= c' < k && b + c == b' + c'
    ensures b == b' && c == c'
  {
    MultipleIsOffset(b, c, k);
    MultipleIsOffset(b', c', k);
  }

  /** Different paths have different blocks. */
  lemma {:induction false} BlocksAreDistinct(a: Slots, k: nat, nextFree: nat, p: seq<int>, q: seq<int>)
    requires WellFormed(a, k, nextFree) && Known(a, k, p) && Known(a, k, q) && Block(a, k, p) == Block(a, k, q)
    ensures p == q
    decreases |p|
  {
    BlockFits(a, k, nextFree, p);
    BlockFits(a, k, nextFree, q);
    if p != [] {
      var pi, qi := p[..|p| - 1], q[..|q| - 1];
      BlockFits(a, k, nextFree, pi);
      BlockFits(a, k, nextFree, qi);
      var bp, bq := Block(a, k, pi).value, Block(a, k, qi).value;
      var sp, sq := bp + p[|p| - 1], bq + q[|q| - 1];
      assert sp == sq;
      SameSlot(bp, p[|p| - 1], bq, q[|q| - 1], k);
      BlocksAreDistinct(a, k, nextFree, pi, qi);
      assert p == pi + [p[|p| - 1]] && q == qi + [q[|q| - 1]];
    }
  }

  /** The known paths are closed under prefixes. */
  lemma {:induction false} KnownIsPrefixClosed(a: Slots, k: nat, path: seq<int>, n: nat)
    requires Known(a, k, path) && n <= |path|
    ensures Known(a, k, path[..n])
    decreases |path|
  {
    if n < |path| {
      KnownIsPrefixClosed(a, k, path[..|path| - 1], n);
      assert path[..|path| - 1][..n] == path[..n];
    } else {
      assert path[..n] == path;
    }
  }

  /** A new block makes exactly one path known, and moves no block. */
  lemma {:induction false} AddBlock(a: Slots, k: nat, nextFree: nat, path: seq<int>, child: int, p: seq<int>)
    requires WellFormed(a, k, nextFree) && Known(a, k, path) && 0 <= child < k && !Known(a, k, path + [child]) && nextFree + k <= |a|
    ensures Block(a, k, path).value + child < |a|
    ensures Block(a[Block(a, k, path).value + child := nextFree], k, p) == if p == path + [child] then Some(nextFree) else Block(a, k, p)
    decreases |p|
  {
    BlockFits(a, k, nextFree, path);
    var slot := Block(a, k, path).value + child;
    assert (path + [child])[..|path|] == path;
    if p != [] {
      var init, last := p[..|p| - 1], p[|p| - 1];
      AddBlock(a, k, nextFree, path, child, init);
      if init == path + [child] {
        assert 0 <= last < k ==> a[nextFree + last] == 0;
        assert !Known(a, k, p);
      } else if Known(a, k, init) && 0 <= last < k {
        BlockFits(a, k, nextFree, init);
        if Block(a, k, init).value + last == slot {
          SameSlot(Block(a, k, init).value, last, Block(a, k, path).value, child, k);
          BlocksAreDistinct(a, k, nextFree, init, path);
          assert p == path + [child];
        } else {
          assert p == path + [child] ==> init == path;
        }
      } else {
        assert p == path + [child] ==> init == path;
      }
    }
  }

  lemma AddKeepsShape(a: Slots, k: nat, nextFree: nat, slot: nat)
    requires WellFormed(a, k, nextFree) && slot < nextFree && nextFree + k <= |a| && a[slot] == 0
    ensures WellFormed(a[slot := nextFree], k, nextFree + k)
  {
    assert (nextFree + k) % k == 0 by {
      assert nextFree == nextFree / k * k;
      RemainderOf(nextFree / k + 1, k, 0);
      assert (nextFree / k + 1) * k == nextFree / k * k + k;
    }
  }

  /** A cleared slot forgets exactly the paths through it. */
  lemma {:induction false} ClearSlot(a: Slots, k: nat, nextFree: nat, path: seq<int>, p: seq<int>)
    requires WellFormed(a, k, nextFree) && path != [] && Known(a, k, path)
    ensures Known(a, k, path[..|path| - 1]) && Block(a, k, path[..|path| - 1]).value + path[|path| - 1] < |a|
    ensures Block(a[Block(a, k, path[..|path| - 1]).value + path[|path| - 1] := 0], k, p) == if Prefix(path, p) then None else Block(a, k, p)
    decreases |p|
  {
    var parent, child := path[..|path| - 1], path[|path| - 1];
    BlockFits(a, k, nextFree, parent);
    var slot := Block(a, k, parent).value + child;
    if p != [] {
      var init, last := p[..|p| - 1], p[|p| - 1];
      ClearSlot(a, k, nextFree, path, init);
      PrefixGrows(path, p);
      if !Prefix(path, init) && Known(a, k, init) && 0 <= last < k && Block(a, k, init).value + last == slot {
        OneSlotOnePath(a, k, nextFree, parent, child, init, last);
        assert p == init + [last] && path == parent + [child];
      }
      hide Prefix, WellFormed;
    }
  }

  /** A path is a prefix of a longer one when it is a prefix of its parent, or the path itself. */
  lemma PrefixGrows(path: seq<int>, p: seq<int>)
    requires path != [] && p != []
    ensures Prefix(path, p) <==> Prefix(path, p[..|p| - 1]) || p == path
  {
    if Prefix(path, p[..|p| - 1]) {
      assert path == p[..|p| - 1][..|path|] == p[..|path|];
    } else {
      PrefixOfLonger(path, p);
    }
  }

  lemma OneSlotOnePath(a: Slots, k: nat, nextFree: nat, p: seq<int>, c: int, q: seq<int>, d: int)
    requires WellFormed(a, k, nextFree) && Known(a, k, p) && Known(a, k, q) && 0 <= c < k && 0 <= d < k
    requires Block(a, k, p).value + c == Block(a, k, q).value + d
    ensures p == q && c == d
  {
    BlockFits(a, k, nextFree, p);
    BlockFits(a, k, nextFree, q);
    SameSlot(Block(a, k, p).value, c, Block(a, k, q).value, d, k);
    BlocksAreDistinct(a, k, nextFree, p, q);
  }

  lemma PrefixOfInit(path: seq<int>, p: seq<int>)
    requires Prefix(path, p) && |path| < |p|
    ensures Prefix(path, p[..|p| - 1])
  {
    assert path == p[..|path|] == p[..|p| - 1][..|path|];
  }

  lemma PrefixOfLonger(path: seq<int>, p: seq<int>)
    requires path != [] && p != [] && !Prefix(path, p[..|p| - 1])
    ensures Prefix(path, p) ==> p == path
  {
    if Prefix(path, p) && |path| < |p| {
      PrefixOfInit(path, p);
    }
  }

  lemma ClearKeepsShape(a: Slots, k: nat, nextFree: nat, slot: nat)
    requires WellFormed(a, k, nextFree) && slot < |a|
    ensures WellFormed(a[slot := 0], k, nextFree)
  {
  }

  /** No known path is deeper than the cap. */
  ghost predicate CappedAt(a: Slots, k: nat, cap: nat) {
    forall path :: Known(a, k, path) ==> |path| <= cap
  }

  // ─── digits below the owner ─────────────────────────────────────────────────

  /** The digits of a routing hash below a partition at the depth `owner`. */
  function Below(x: int, t: Topology, owner: nat, depth: nat): (path: seq<int>)
    requires t.hashSplitN >= 1
    ensures |path| == depth
  {
    seq(depth, i requires 0 <= i < depth => DigitOf(x, t, owner + i + 1))
  }

  /** The part of the fraction that is left after the digits down to a depth. */
  function RestAt(x: int, t: Topology, depth: nat): int {
    x * Nodes(t, depth) % TWO_64
  }

  lemma NextBelow(x: int, t: Topology, owner: nat, depth: nat)
    requires 0 <= x < TWO_64 && ValidTopology(t)
    ensures Below(x, t, owner, depth + 1) == Below(x, t, owner, depth) + [DigitOf(x, t, owner + depth + 1)]
    ensures Below(x, t, owner, depth + 1)[..depth] == Below(x, t, owner, depth)
    ensures var v := x * Nodes(t, owner + depth) % TWO_64;
            && v * t.hashSplitN / TWO_64 == DigitOf(x, t, owner + depth + 1)
            && v * t.hashSplitN % TWO_64 == x * Nodes(t, owner + depth + 1) % TWO_64
  {
    NextLevel(x, t, owner + depth);
    RemainderOf(NodeOf(x, t, owner + depth), t.hashSplitN, x * Nodes(t, owner + depth) % TWO_64 * t.hashSplitN / TWO_64);
  }

  lemma BelowPrefix(x: int, t: Topology, owner: nat, n: nat, m: nat)
    requires t.hashSplitN >= 1 && n <= m
    ensures Below(x, t, owner, m)[..n] == Below(x, t, owner, n)
  {
  }

  // ─── the class ──────────────────────────────────────────────────────────────

  datatype Snapshot = Snapshot(slots: Slots, topology: Topology, ownerDepth: nat)

  class HashTopology {
    const topology: Topology
    const ownerDepth: nat
    const maxDepth: nat
    var arena: array<nat>
    var nextFree: nat

    ghost predicate Valid()
      reads this, arena
    {
      ValidTopology(topology) && WellFormed(arena[..], topology.hashSplitN, nextFree)
    }

    /** The known paths as one set. */
    ghost predicate Knows(path: seq<int>)
      reads this, arena
    {
      Known(arena[..], topology.hashSplitN, path)
    }

    ghost predicate Capped(cap: nat)
      reads this, arena
    {
      CappedAt(arena[..], topology.hashSplitN, cap)
    }

    constructor Create(topology: Topology, ownerDepth: nat, maxDepth: nat, maxSlots: nat)
      requires ValidTopology(topology) && topology.hashSplitN <= maxSlots
      ensures Valid() && fresh(arena)
      ensures this.topology == topology && this.ownerDepth == ownerDepth && this.maxDepth == maxDepth
      ensures forall path :: Knows(path) <==> path == []
      ensures Capped(maxDepth)
    {
      this.topology := topology;
      this.ownerDepth := ownerDepth;
      this.maxDepth := maxDepth;
      arena := new nat[maxSlots](_ => 0);
      nextFree := topology.hashSplitN;
      new;
      forall path ensures Knows(path) <==> path == [] {
        NothingKnown(arena[..], topology.hashSplitN, path);
      }
    }

    /** `fromSnapshot`. The slots of the snapshot must fit the new budget. */
    constructor FromSnapshot(s: Snapshot, maxDepth: nat, maxSlots: nat)
      requires ValidTopology(s.topology) && WellFormed(s.slots, s.topology.hashSplitN, |s.slots|) && |s.slots| <= maxSlots
      ensures Valid() && fresh(arena)
      ensures topology == s.topology && ownerDepth == s.ownerDepth && this.maxDepth == maxDepth
      ensures forall path :: Knows(path) <==> Known(s.slots, s.topology.hashSplitN, path)
      ensures Capped(maxDepth) <==> CappedAt(s.slots, s.topology.hashSplitN, maxDepth)
    {
      topology := s.topology;
      ownerDepth := s.ownerDepth;
      this.maxDepth := maxDepth;
      arena := new nat[maxSlots](i requires 0 <= i => if i < |s.slots| then s.slots[i] else 0);
      nextFree := |s.slots|;
      new;
      forall path ensures Knows(path) <==> Known(s.slots, s.topology.hashSplitN, path) {
        MoreSlotsKnowTheSame(s.slots, arena[..], s.topology.hashSplitN, |s.slots|, path);
      }
    }

    method ToSnapshot() returns (s: Snapshot)
      requires Valid()
      ensures s.topology == topology && s.ownerDepth == ownerDepth
      ensures WellFormed(s.slots, s.topology.hashSplitN, |s.slots|)
      ensures forall path :: Known(s.slots, s.topology.hashSplitN, path) <==> Knows(path)
    {
      s := Snapshot(arena[..nextFree], topology, ownerDepth);
      assert forall i :: 0 <= i < |s.slots| ==> s.slots[i] == arena[..][i];
      forall path ensures Known(s.slots, s.topology.hashSplitN, path) <==> Knows(path) {
        MoreSlotsKnowTheSame(s.slots, arena[..], topology.hashSplitN, nextFree, path);
      }
    }

    /** The cursor after the digits of the owner. */
    method DigitsBelowOwner(b: Bytes) returns (cursor: DigitCursor)
      requires ValidTopology(topology) && |b| == HASH_BYTES
      ensures fresh(cursor) && cursor.Valid()
      ensures cursor.Value() == RestAt(ValueOf(b), topology, ownerDepth)
    {
      ghost var x := ValueOf(b);
      ValueBound(b);
      cursor := new DigitCursor(b, topology.rootTreesN);
      for d := 0 to ownerDepth
        invariant fresh(cursor) && cursor.Valid() && cursor.Value() == RestAt(x, topology, d)
      {
        NextLevel(x, topology, d);
        var _ := cursor.Next(topology.hashSplitN);
      }
    }

    /** One step of a walk: the slot of the next digit, which holds the block of the longer path or 0. */
    method Step(digits: DigitCursor, block: nat, ghost x: int, ghost rd: nat) returns (childIdx: int, slot: nat)
      requires Valid() && digits.Valid() && 0 <= x < TWO_64
      requires digits.Value() == RestAt(x, topology, ownerDepth + rd)
      requires Block(arena[..], topology.hashSplitN, Below(x, topology, ownerDepth, rd)) == Some(block)
      modifies digits
      ensures digits.Valid() && digits.Value() == RestAt(x, topology, ownerDepth + (rd + 1))
      ensures 0 <= childIdx < topology.hashSplitN && slot == block + childIdx < arena.Length && block <= slot < nextFree
      ensures Below(x, topology, ownerDepth, rd + 1) == Below(x, topology, ownerDepth, rd) + [childIdx]
      ensures Below(x, topology, ownerDepth, rd + 1)[..rd] == Below(x, topology, ownerDepth, rd)
      ensures Block(arena[..], topology.hashSplitN, Below(x, topology, ownerDepth, rd + 1)) == if arena[slot] != 0 then Some(arena[slot]) else None
    {
      hide Block, WellFormed, Below;
      ghost var path, k := Below(x, topology, ownerDepth, rd), topology.hashSplitN;
      BlockFits(arena[..], k, nextFree, path);
      ShapeFits(arena[..], k, nextFree);
      NextBelow(x, topology, ownerDepth, rd);
      childIdx := digits.Next(topology.hashSplitN);
      slot := block + childIdx;
      BlockOfChild(arena[..], k, path, childIdx);
    }

    /** The depth of the longest known prefix of the digits below the owner. Blocks ascend, so the walk ends. */
    method FindLeaf(b: Bytes) returns (relDepth: nat)
      requires Valid() && |b| == HASH_BYTES
      ensures Knows(Below(ValueOf(b), topology, ownerDepth, relDepth))
      ensures !Knows(Below(ValueOf(b), topology, ownerDepth, relDepth + 1))
      ensures forall cap :: Capped(cap) ==> relDepth <= cap
    {
      ghost var x := ValueOf(b);
      ValueBound(b);
      var digits := DigitsBelowOwner(b);
      var block := 0;
      relDepth := 0;
      RootBlock(arena[..], topology.hashSplitN);
      assert Below(x, topology, ownerDepth, 0) == [];
      hide Block, WellFormed, Below, RestAt;
      while true
        invariant digits.Valid() && fresh(digits) && digits.Value() == RestAt(x, topology, ownerDepth + relDepth)
        invariant Block(arena[..], topology.hashSplitN, Below(x, topology, ownerDepth, relDepth)) == Some(block)
        decreases nextFree - block
      {
        var childIdx, slot := Step(digits, block, x, relDepth);
        var ptr := arena[slot];
        if ptr == 0 {
          CapBounds(arena[..], topology.hashSplitN, Below(x, topology, ownerDepth, relDepth));
          return;
        }
        PointersAscend(arena[..], topology.hashSplitN, nextFree, slot);
        block := ptr;
        relDepth := relDepth + 1;
      }
    }

    /** A new block for the child of a known path. */
    method Allocate(block: nat, childIdx: int, ghost path: seq<int>)
      requires Valid() && nextFree + topology.hashSplitN <= arena.Length
      requires Block(arena[..], topology.hashSplitN, path) == Some(block) && 0 <= childIdx < topology.hashSplitN
      requires !Knows(path + [childIdx])
      modifies this`nextFree, arena
      ensures Valid() && Block(arena[..], topology.hashSplitN, path + [childIdx]) == Some(old(nextFree))
      ensures AddsOne(old(arena[..]), arena[..], topology.hashSplitN, path + [childIdx])
      ensures nextFree == old(nextFree) + topology.hashSplitN
    {
      ghost var before := arena[..];
      BlockFits(before, topology.hashSplitN, nextFree, path);
      AddKeepsShape(before, topology.hashSplitN, nextFree, block + childIdx);
      UnknownSlotIsEmpty(before, topology.hashSplitN, path, childIdx);
      forall p ensures Block(before[block + childIdx := nextFree], topology.hashSplitN, p)
          == if p == path + [childIdx] then Some(nextFree) else Block(before, topology.hashSplitN, p) {
        AddBlock(before, topology.hashSplitN, nextFree, path, childIdx, p);
      }
      hide Block, WellFormed;
      arena[block + childIdx] := nextFree;
      assert arena[..] == before[block + childIdx := nextFree];
      nextFree := nextFree + topology.hashSplitN;
    }

    /** One level of a hint: a known level is passed, and a new one gets a block within the two caps. */
    method Learn(digits: DigitCursor, block: nat, ghost x: int, rd: nat) returns (next: Option<nat>, added: bool)
      requires Valid() && digits.Valid() && 0 <= x < TWO_64
      requires digits.Value() == RestAt(x, topology, ownerDepth + rd)
      requires Block(arena[..], topology.hashSplitN, Below(x, topology, ownerDepth, rd)) == Some(block)
      modifies digits, this`nextFree, arena
      ensures Valid() && digits.Valid() && digits.Value() == RestAt(x, topology, ownerDepth + (rd + 1))
      ensures next.None? ==> !added && (rd + 1 > maxDepth || nextFree + topology.hashSplitN > arena.Length)
      ensures next.Some? ==> Block(arena[..], topology.hashSplitN, Below(x, topology, ownerDepth, rd + 1)) == next
      ensures !added ==> arena[..] == old(arena[..])
      ensures added ==> next.Some? && rd + 1 <= maxDepth && !old(Knows(Below(x, topology, ownerDepth, rd + 1)))
      ensures added ==> AddsOne(old(arena[..]), arena[..], topology.hashSplitN, Below(x, topology, ownerDepth, rd + 1))
    {
      hide Block, WellFormed, Below, RestAt;
      ghost var path := Below(x, topology, ownerDepth, rd);
      var childIdx, slot := Step(digits, block, x, rd);
      if arena[slot] != 0 {
        return Some(arena[slot]), false;
      }
      if rd + 1 > maxDepth || nextFree + topology.hashSplitN > arena.Length {
        return None, false;
      }
      next := Some(nextFree);
      Allocate(block, childIdx, path);
      return next, true;
    }

    /** A hint adds only prefixes of the digits of its hash, and none deeper than the cap. `reached` is where it stops. */
    method UpdateFromHint(b: Bytes, actualRelDepth: nat) returns (updated: bool, ghost reached: nat)
      requires Valid() && |b| == HASH_BYTES
      modifies this`nextFree, arena
      ensures Valid() && reached <= actualRelDepth
      ensures forall path :: Knows(path) <==> old(Knows(path)) || Prefix(path, Below(ValueOf(b), topology, ownerDepth, reached))
      ensures reached < actualRelDepth ==> reached + 1 > maxDepth || nextFree + topology.hashSplitN > arena.Length
      ensures updated ==> reached <= maxDepth
      ensures updated <==> !old(Knows(Below(ValueOf(b), topology, ownerDepth, reached)))
      ensures old(Capped(maxDepth)) ==> Capped(maxDepth)
    {
      ghost var x, t, k := ValueOf(b), topology, topology.hashSplitN;
      ValueBound(b);
      var digits := DigitsBelowOwner(b);
      var block := 0;
      updated := false;
      var rd := 0;
      ghost var before := arena[..];
      StartAdds(before, k);
      RootBlock(before, k);
      assert Below(x, t, ownerDepth, 0) == [];
      hide Block, Known, WellFormed, Below, Adds, AddsOne, Prefix, RestAt, ValidTopology, CappedAt;
      while rd < actualRelDepth
        invariant Valid() && fresh(digits) && digits.Valid() && rd <= actualRelDepth
        invariant digits.Value() == RestAt(x, t, ownerDepth + rd)
        invariant Block(arena[..], k, Below(x, t, ownerDepth, rd)) == Some(block)
        invariant Adds(before, arena[..], k, Below(x, t, ownerDepth, rd))
        invariant updated ==> rd <= maxDepth
        invariant updated <==> !Known(before, k, Below(x, t, ownerDepth, rd))
        decreases actualRelDepth - rd
      {
        ghost var current := arena[..];
        var next, added := Learn(digits, block, x, rd);
        if next.None? {
          break;
        }
        StepAdds(before, current, arena[..], t, x, ownerDepth, rd, added);
        block := next.value;
        updated := updated || added;
        rd := rd + 1;
      }
      reached := rd;
      AddsMeans(before, arena[..], k, Below(x, t, ownerDepth, rd));
      CapIsKept(before, arena[..], k, Below(x, t, ownerDepth, rd), maxDepth);
    }

    /** The block of the path of the next digits, or nothing when it is not known. */
    method Descend(digits: DigitCursor, ghost x: int, depth: nat) returns (block: Option<nat>)
      requires Valid() && digits.Valid() && 0 <= x < TWO_64
      requires digits.Value() == RestAt(x, topology, ownerDepth)
      modifies digits
      ensures digits.Valid()
      ensures block == Block(arena[..], topology.hashSplitN, Below(x, topology, ownerDepth, depth))
      ensures block.Some? ==> digits.Value() == RestAt(x, topology, ownerDepth + depth)
    {
      RootBlock(arena[..], topology.hashSplitN);
      assert Below(x, topology, ownerDepth, 0) == [];
      hide Block, WellFormed, Below, RestAt;
      var current := 0;
      for rd := 0 to depth
        invariant Valid() && digits.Valid() && digits.Value() == RestAt(x, topology, ownerDepth + rd)
        invariant Block(arena[..], topology.hashSplitN, Below(x, topology, ownerDepth, rd)) == Some(current)
      {
        var childIdx, slot := Step(digits, current, x, rd);
        if arena[slot] == 0 {
          BelowPrefix(x, topology, ownerDepth, rd + 1, depth);
          UnknownStays(arena[..], topology.hashSplitN, Below(x, topology, ownerDepth, depth), rd + 1);
          return None;
        }
        current := arena[slot];
      }
      return Some(current);
    }

    /** Clears the slot of the last index of a known path. */
    method Forget(slot: nat, ghost path: seq<int>)
      requires Valid() && path != [] && Knows(path)
      requires Knows(path[..|path| - 1]) && slot == Block(arena[..], topology.hashSplitN, path[..|path| - 1]).value + path[|path| - 1] < arena.Length
      modifies arena
      ensures Valid()
      ensures forall p :: Knows(p) <==> old(Knows(p)) && !Prefix(path, p)
      ensures forall cap :: old(Capped(cap)) ==> Capped(cap)
    {
      ghost var before := arena[..];
      ClearKeepsShape(before, topology.hashSplitN, nextFree, slot);
      forall p ensures Known(before[slot := 0], topology.hashSplitN, p) <==> Known(before, topology.hashSplitN, p) && !Prefix(path, p) {
        ClearSlot(before, topology.hashSplitN, nextFree, path, p);
      }
      hide Block, WellFormed;
      arena[slot] := 0;
      assert arena[..] == before[slot := 0];
    }

    /** Forgets the subtree at `relDepth` of the digits of the hash, and no other path. */
    method Invalidate(b: Bytes, relDepth: int) returns (changed: bool)
      requires Valid() && |b| == HASH_BYTES
      modifies arena
      ensures Valid()
      ensures changed <==> relDepth >= 1 && old(Knows(Below(ValueOf(b), topology, ownerDepth, relDepth)))
      ensures forall cap :: old(Capped(cap)) ==> Capped(cap)
      ensures forall path :: Knows(path) <==> old(Knows(path)) && !(changed && Prefix(Below(ValueOf(b), topology, ownerDepth, relDepth), path))
    {
      if relDepth < 1 {
        return false;
      }
      ghost var x := ValueOf(b);
      ghost var target := Below(x, topology, ownerDepth, relDepth);
      ValueBound(b);
      var digits := DigitsBelowOwner(b);
      hide Block, WellFormed, Below, RestAt, CappedAt, Prefix;
      var block := Descend(digits, x, relDepth - 1);
      if block.None? {
        BelowPrefix(x, topology, ownerDepth, relDepth - 1, relDepth);
        UnknownStays(arena[..], topology.hashSplitN, target, relDepth - 1);
        return false;
      }
      var childIdx, slot := Step(digits, block.value, x, relDepth - 1);
      if arena[slot] == 0 {
        return false;
      }
      Forget(slot, target);
      return true;
    }
  }

  // ─── facts that the class uses ──────────────────────────────────────────────

  lemma {:induction false} NothingKnown(a: Slots, k: nat, path: seq<int>)
    requires forall i :: 0 <= i < |a| ==> a[i] == 0
    ensures Known(a, k, path) <==> path == []
  {
  }

  lemma {:induction false} MoreSlotsKnowTheSame(a: Slots, b: Slots, k: nat, nextFree: nat, path: seq<int>)
    requires |a| == nextFree <= |b| && WellFormed(b, k, nextFree) && a == b[..nextFree]
    ensures Block(a, k, path) == Block(b, k, path)
  {
    if path != [] {
      MoreSlotsKnowTheSame(a, b, k, nextFree, path[..|path| - 1]);
    }
  }

  lemma UnknownStays(a: Slots, k: nat, path: seq<int>, n: nat)
    requires n <= |path| && !Known(a, k, path[..n])
    ensures !Known(a, k, path)
  {
    if Known(a, k, path) {
      KnownIsPrefixClosed(a, k, path, n);
    }
  }

  lemma CapBounds(a: Slots, k: nat, path: seq<int>)
    requires Known(a, k, path)
    ensures forall cap :: CappedAt(a, k, cap) ==> |path| <= cap
  {
  }

  lemma CapIsKept(before: Slots, now: Slots, k: nat, added: seq<int>, cap: nat)
    requires Adds(before, now, k, added) && (|added| <= cap || Known(before, k, added))
    ensures CappedAt(before, k, cap) ==> CappedAt(now, k, cap)
  {
  }

  lemma RootBlock(a: Slots, k: nat)
    ensures Block(a, k, []) == Some(0)
  {
  }

  lemma ShapeFits(a: Slots, k: nat, nextFree: nat)
    requires WellFormed(a, k, nextFree)
    ensures 2 <= k <= nextFree <= |a|
  {
  }

  lemma PointersAscend(a: Slots, k: nat, nextFree: nat, slot: nat)
    requires WellFormed(a, k, nextFree) && slot < |a| && a[slot] != 0
    ensures slot < a[slot] < nextFree
  {
  }

  /** The slot of a child holds its block, or 0. */
  lemma BlockOfChild(a: Slots, k: nat, path: seq<int>, child: int)
    requires Known(a, k, path) && 0 <= child < k && Block(a, k, path).value + child < |a|
    ensures Block(a, k, path + [child])
            == if a[Block(a, k, path).value + child] != 0 then Some(a[Block(a, k, path).value + child]) else None
  {
    assert (path + [child])[..|path|] == path;
  }

  lemma UnknownSlotIsEmpty(a: Slots, k: nat, path: seq<int>, child: int)
    requires Known(a, k, path) && 0 <= child < k && Block(a, k, path).value + child < |a| && !Known(a, k, path + [child])
    ensures a[Block(a, k, path).value + child] == 0
  {
    BlockOfChild(a, k, path, child);
  }

  /** The prefixes of `added` became known, and nothing else changed. */
  ghost predicate Adds(before: Slots, now: Slots, k: nat, added: seq<int>) {
    forall path :: Known(now, k, path) <==> Known(before, k, path) || Prefix(path, added)
  }

  ghost predicate AddsOne(before: Slots, now: Slots, k: nat, added: seq<int>) {
    forall path :: Known(now, k, path) <==> Known(before, k, path) || path == added
  }

  lemma AddsMeans(before: Slots, now: Slots, k: nat, added: seq<int>)
    requires Adds(before, now, k, added)
    ensures forall path :: Known(now, k, path) <==> Known(before, k, path) || Prefix(path, added)
  {
  }

  lemma StartAdds(before: Slots, k: nat)
    ensures Block(before, k, []) == Some(0) && Known(before, k, []) && Adds(before, before, k, [])
  {
  }

  lemma PrefixOfExtended(p: seq<int>, path: seq<int>, child: int)
    ensures Prefix(p, path + [child]) <==> Prefix(p, path) || p == path + [child]
  {
    var longer := path + [child];
    assert longer[..|path|] == path;
    if Prefix(p, longer) && |p| < |longer| {
      PrefixOfInit(p, longer);
    }
    if Prefix(p, path) {
      assert p == path[..|p|] == longer[..|p|];
    }
  }

  lemma KnownStep(before: Slots, now: Slots, k: nat, path: seq<int>, child: int)
    requires Adds(before, now, k, path) && Known(now, k, path + [child])
    ensures Adds(before, now, k, path + [child])
    ensures Known(before, k, path + [child]) && Known(before, k, path)
  {
    hide Block;
    var longer := path + [child];
    PrefixOfExtended(longer, path, child);
    assert Known(before, k, longer);
    KnownIsPrefixClosed(before, k, longer, |path|);
    assert longer[..|path|] == path;
    forall p ensures Known(now, k, p) <==> Known(before, k, p) || Prefix(p, longer) {
      PrefixOfExtended(p, path, child);
    }
  }

  lemma NewStep(before: Slots, current: Slots, now: Slots, k: nat, path: seq<int>, child: int)
    requires Adds(before, current, k, path) && !Known(current, k, path + [child])
    requires AddsOne(current, now, k, path + [child])
    ensures Adds(before, now, k, path + [child])
    ensures !Known(before, k, path + [child])
  {
    hide Block;
    forall p ensures Known(now, k, p) <==> Known(before, k, p) || Prefix(p, path + [child]) {
      PrefixOfExtended(p, path, child);
    }
    assert Known(current, k, path + [child]) <==> Known(before, k, path + [child]) || Prefix(path + [child], path);
  }

  /** One level more, known before or new. */
  lemma StepAdds(before: Slots, current: Slots, now: Slots, t: Topology, x: int, owner: nat, rd: nat, added: bool)
    requires 0 <= x < TWO_64 && ValidTopology(t) && Adds(before, current, t.hashSplitN, Below(x, t, owner, rd))
    requires added ==> AddsOne(current, now, t.hashSplitN, Below(x, t, owner, rd + 1)) && !Known(current, t.hashSplitN, Below(x, t, owner, rd + 1))
    requires !added ==> now == current && Known(now, t.hashSplitN, Below(x, t, owner, rd + 1))
    ensures Adds(before, now, t.hashSplitN, Below(x, t, owner, rd + 1))
    ensures Known(before, t.hashSplitN, Below(x, t, owner, rd + 1)) <==> !added
    ensures !added ==> Known(before, t.hashSplitN, Below(x, t, owner, rd))
  {
    hide Adds, AddsOne, Block, Below;
    NextBelow(x, t, owner, rd);
    if added {
      NewStep(before, current, now, t.hashSplitN, Below(x, t, owner, rd), DigitOf(x, t, owner + rd + 1));
    } else {
      KnownStep(before, now, t.hashSplitN, Below(x, t, owner, rd), DigitOf(x, t, owner + rd + 1));
    }
  }

  /**
   * A restored arena keeps the deeper paths of its snapshot, so a smaller cap does not bound it. Here a
   * snapshot with two levels is restored with the cap 1, and the leaf of the routing hash 0 is below the cap.
   */
  method RestoredArenaExceedsItsCap() returns (router: HashTopology, relDepth: nat)
    ensures router.maxDepth == 1 && router.Valid() && !router.Capped(1)
    ensures relDepth > router.maxDepth
  {
    var slots: Slots := [2, 0, 4, 0, 0, 0];
    KnownOfTwoLevels(slots);
    hide Known, WellFormed, Below, ValueOf, CappedAt;
    router := new HashTopology.FromSnapshot(Snapshot(slots, Topology(1, 2), 0), 1, 6);
    var zero: Bytes := seq(HASH_BYTES, _ => 0);
    ValueOfZeros(zero);
    relDepth := router.FindLeaf(zero);
    KnowsZeros(router, relDepth);
  }

  lemma KnownOfTwoLevels(slots: Slots)
    requires slots == [2, 0, 4, 0, 0, 0]
    ensures Known(slots, 2, [0]) && Known(slots, 2, [0, 0]) && WellFormed(slots, 2, 6)
  {
    assert [0, 0][..1] == [0] && [0][..0] == [];
    assert Block(slots, 2, [0]) == Some(2);
    assert Block(slots, 2, [0, 0]) == Some(4);
  }

  lemma ZeroPath(t: Topology)
    requires ValidTopology(t)
    ensures Below(0, t, 0, 1) == [0] && Below(0, t, 0, 2) == [0, 0]
  {
    ZeroDigit(t, 1);
    ZeroDigit(t, 2);
    hide DigitOf;
  }

  lemma ZeroDigit(t: Topology, depth: nat)
    requires t.hashSplitN >= 1 && depth > 0
    ensures DigitOf(0, t, depth) == 0
  {
    hide Nodes;
  }

  lemma {:induction false} ValueOfZeros(b: Bytes)
    requires forall i :: 0 <= i < |b| ==> b[i] == 0
    ensures ValueOf(b) == 0
  {
    if b != [] {
      ValueOfZeros(b[..|b| - 1]);
    }
  }

  lemma KnowsZeros(router: HashTopology, relDepth: nat)
    requires router.topology == Topology(1, 2) && router.ownerDepth == 0
    requires router.Knows([0]) && router.Knows([0, 0]) && !router.Knows(Below(0, router.topology, 0, relDepth + 1))
    ensures relDepth > 1 && !router.Capped(1)
  {
    ZeroPath(router.topology);
    assert |[0, 0]| > 1;
  }
}
