/**
 * The hash split bitmap of the encoded topology. Positions `0 .. R-1` are the roots, and the children of
 * the split partition at `p` are at `R + K * rank1(p) + c`.
 */
module HashBitmap {
  import opened Bytes
  import opened RoutingHash
  import opened Popcount

  const BLOCK_BITS := 512
  const BLOCK_WORDS := 16

  // ─── bitmaps ────────────────────────────────────────────────────────────────

  type Bits = seq<bool>

  predicate Split(bits: Bits, pos: int) {
    0 <= pos < |bits| && bits[pos]
  }

  /** The count of 1 bits before a position. */
  function Ones(bits: Bits, pos: nat): nat
    requires pos <= |bits|
  {
    if pos == 0 then 0 else Ones(bits, pos - 1) + if bits[pos - 1] then 1 else 0
  }

  lemma {:induction false} OnesGrow(bits: Bits, a: nat, b: nat)
    requires a <= b <= |bits|
    ensures Ones(bits, a) <= Ones(bits, b)
    ensures a < b && bits[a] ==> Ones(bits, a) < Ones(bits, b)
  {
    if a < b {
      OnesGrow(bits, a, b - 1);
    }
  }

  /** The position of a child of the split partition at `pos`. */
  function ChildAt(bits: Bits, t: Topology, pos: int, child: int): int {
    t.rootTreesN + t.hashSplitN * (if 0 <= pos <= |bits| then Ones(bits, pos) else 0) + child
  }

  /** The position that a path names, whether or not its nodes are split. */
  function PosAt(bits: Bits, t: Topology, root: int, path: seq<int>): int {
    if path == [] then root else ChildAt(bits, t, PosAt(bits, t, root, path[..|path| - 1]), path[|path| - 1])
  }

  /** Every node on the way to the path is split. */
  predicate Exists(bits: Bits, t: Topology, root: int, path: seq<int>) {
    path == [] || (Exists(bits, t, root, path[..|path| - 1]) && Split(bits, PosAt(bits, t, root, path[..|path| - 1])))
  }

  /** The bit count that the count of splits gives. An empty bitmap is a topology with no known split. */
  predicate SizedByOnes(bits: Bits, t: Topology) {
    bits == [] || |bits| == t.rootTreesN + t.hashSplitN * Ones(bits, |bits|)
  }

  lemma MulAtMost(k: int, a: int, b: int)
    requires a <= b && k >= 0
    ensures k * a <= k * b
  {
  }

  lemma LastChildFits(bits: Bits, t: Topology, pos: nat, child: int)
    requires ValidTopology(t) && SizedByOnes(bits, t) && Split(bits, pos) && 0 <= child < t.hashSplitN
    ensures t.rootTreesN <= ChildAt(bits, t, pos, child) < |bits|
  {
    var k := t.hashSplitN;
    OnesGrow(bits, pos, |bits|);
    MulAtMost(k, Ones(bits, pos) + 1, Ones(bits, |bits|));
    assert k * (Ones(bits, pos) + 1) == k * Ones(bits, pos) + k;
    MulAtMost(k, 0, Ones(bits, pos));
  }

  lemma ChildrenOfLaterNode(bits: Bits, t: Topology, parent: nat, pos: nat, last: int, child: int)
    requires ValidTopology(t) && Split(bits, parent) && Split(bits, pos) && parent < pos
    requires 0 <= last < t.hashSplitN && 0 <= child < t.hashSplitN
    ensures ChildAt(bits, t, parent, last) < ChildAt(bits, t, pos, child)
  {
    var k := t.hashSplitN;
    OnesGrow(bits, parent, pos);
    MulAtMost(k, Ones(bits, parent) + 1, Ones(bits, pos));
    assert k * (Ones(bits, parent) + 1) == k * Ones(bits, parent) + k;
  }

  /**
   * A step goes from a split partition to a later position inside the bitmap. It holds for any bitmap
   * that has the size of its splits: no cycle and no way out.
   */
  lemma {:induction false} ChildrenComeLater(bits: Bits, t: Topology, root: int, path: seq<int>, child: int)
    requires ValidTopology(t) && SizedByOnes(bits, t) && InTopology(t, root, path) && 0 <= child < t.hashSplitN
    requires Exists(bits, t, root, path)
    ensures 0 <= PosAt(bits, t, root, path)
    ensures bits != [] ==> PosAt(bits, t, root, path) < |bits|
    ensures Split(bits, PosAt(bits, t, root, path)) ==>
              PosAt(bits, t, root, path) < ChildAt(bits, t, PosAt(bits, t, root, path), child) < |bits|
  {
    hide ChildAt, Ones;
    var pos := PosAt(bits, t, root, path);
    if path == [] {
      if bits != [] {
        RootsFit(bits, t);
      }
    } else {
      ChildrenComeLater(bits, t, root, path[..|path| - 1], path[|path| - 1]);
    }
    if Split(bits, pos) {
      LastChildFits(bits, t, pos, child);
      if path != [] {
        ChildrenOfLaterNode(bits, t, PosAt(bits, t, root, path[..|path| - 1]), pos, path[|path| - 1], child);
      }
    }
  }

  lemma RootsFit(bits: Bits, t: Topology)
    requires ValidTopology(t) && SizedByOnes(bits, t) && bits != []
    ensures t.rootTreesN <= |bits|
  {
    MulAtMost(t.hashSplitN, 0, Ones(bits, |bits|));
  }

  lemma DivideChild(k: int, a: int, c: int, b: int, d: int)
    requires k > 0 && 0 <= c < k && 0 <= d < k && k * a + c == k * b + d
    ensures a == b && c == d
  {
    RemainderOf(a, k, c);
    RemainderOf(b, k, d);
  }

  /** Different partitions of the tree have different positions. */
  lemma {:induction false} PositionsAreDistinct(bits: Bits, t: Topology, root: int, path: seq<int>, root': int, path': seq<int>)
    requires ValidTopology(t) && SizedByOnes(bits, t) && InTopology(t, root, path) && InTopology(t, root', path')
    requires Exists(bits, t, root, path) && Exists(bits, t, root', path')
    requires PosAt(bits, t, root, path) == PosAt(bits, t, root', path')
    ensures root == root' && path == path'
    decreases |path|
  {
    if path == [] || path' == [] {
      RootsComeFirst(bits, t, root, path);
      RootsComeFirst(bits, t, root', path');
    } else {
      var init, last, init', last' := path[..|path| - 1], path[|path| - 1], path'[..|path'| - 1], path'[|path'| - 1];
      var p, p' := PosAt(bits, t, root, init), PosAt(bits, t, root', init');
      ChildrenComeLater(bits, t, root, init, last);
      ChildrenComeLater(bits, t, root', init', last');
      DivideChild(t.hashSplitN, Ones(bits, p), last, Ones(bits, p'), last');
      if p < p' {
        OnesGrow(bits, p, p');
      } else if p' < p {
        OnesGrow(bits, p', p);
      }
      PositionsAreDistinct(bits, t, root, init, root', init');
      assert path == init + [last] && path' == init' + [last'];
    }
  }

  lemma RootsComeFirst(bits: Bits, t: Topology, root: int, path: seq<int>)
    requires ValidTopology(t) && SizedByOnes(bits, t) && InTopology(t, root, path) && Exists(bits, t, root, path)
    ensures PosAt(bits, t, root, path) < t.rootTreesN <==> path == []
  {
    if path != [] {
      var init := path[..|path| - 1];
      ChildrenComeLater(bits, t, root, init, path[|path| - 1]);
      MulAtMost(t.hashSplitN, 0, Ones(bits, PosAt(bits, t, root, init)));
    }
  }

  // ─── the encoded view ───────────────────────────────────────────────────────

  /** The views over one hash body. */
  datatype View = View(topology: Topology, bitCount: nat, words: seq<bv32>, rank: seq<nat>)

  predicate WordBit(words: seq<bv32>, i: nat) {
    i / 32 < |words| && Bit(words[i / 32], i % 32)
  }

  function BitsOf(v: View): (bits: Bits)
    ensures |bits| == v.bitCount
  {
    seq(v.bitCount, i requires 0 <= i < v.bitCount => WordBit(v.words, i))
  }

  /** The rank section holds the count of ones before each block and at the end. */
  ghost predicate RanksBits(v: View) {
    && |v.rank| > 0
    && (forall b :: 0 <= b && b * BLOCK_BITS < v.bitCount ==> b < |v.rank| && v.rank[b] == Ones(BitsOf(v), b * BLOCK_BITS))
    && v.rank[|v.rank| - 1] == Ones(BitsOf(v), v.bitCount)
  }

  /** What a reader relies on: enough words, a correct rank section, and the bit count that it gives. */
  ghost predicate ValidView(v: View) {
    && ValidTopology(v.topology)
    && v.bitCount <= 32 * |v.words|
    && RanksBits(v)
    && SizedByOnes(BitsOf(v), v.topology)
  }

  predicate HashBit(v: View, pos: int) {
    0 <= pos < v.bitCount && pos / 32 < |v.words| && Bit(v.words[pos / 32], pos % 32)
  }

  lemma HashBitIsSplit(v: View, pos: int)
    requires v.bitCount <= 32 * |v.words|
    ensures HashBit(v, pos) <==> Split(BitsOf(v), pos)
  {
  }

  /** The bits of one word extend the count. */
  lemma {:induction false} OnesInWord(v: View, w: nat, n: nat)
    requires v.bitCount <= 32 * |v.words| && n <= 32 && 32 * w + n <= v.bitCount
    ensures w < |v.words| || n == 0
    ensures Ones(BitsOf(v), 32 * w + n) == Ones(BitsOf(v), 32 * w) + if n == 0 then 0 else CountBits(v.words[w], n)
  {
    if n > 0 {
      OnesInWord(v, w, n - 1);
      var i := 32 * w + n - 1;
      assert i / 32 == w && i % 32 == n - 1;
      assert BitsOf(v)[i] == Bit(v.words[w], n - 1);
    }
  }

  /** `hashRank1`: the block count, whole words, and the low bits of the last word. */
  method HashRank1(v: View, pos: nat) returns (count: nat)
    requires ValidView(v) && pos < v.bitCount
    ensures count == Ones(BitsOf(v), pos)
  {
    hide Ones, Popcount32, LowBits, SizedByOnes;
    var word := pos / 32;
    var block := pos / BLOCK_BITS;
    assert block * BLOCK_BITS <= pos;
    count := v.rank[block];
    var w := block * BLOCK_WORDS;
    while w < word
      invariant block * BLOCK_WORDS <= w <= word
      invariant count == Ones(BitsOf(v), 32 * w)
    {
      OnesInWord(v, w, 32);
      PopcountIsCount(v.words[w]);
      count := count + Popcount32(v.words[w]) as nat;
      w := w + 1;
    }
    var bitInWord := pos % 32;
    OnesInWord(v, word, bitInWord);
    if bitInWord != 0 {
      PopcountOfLowBits(v.words[word], bitInWord);
      count := count + Popcount32(LowBits(v.words[word], bitInWord)) as nat;
    }
  }

  /** `rankIndex`: the writer of the rank section. */
  method RankIndex(t: Topology, words: seq<bv32>, bitCount: nat) returns (rank: seq<nat>)
    requires 32 * |words| >= bitCount > 32 * (|words| - 1)
    requires forall i :: bitCount <= i < 32 * |words| ==> !WordBit(words, i)
    ensures |rank| == (|words| + BLOCK_WORDS - 1) / BLOCK_WORDS + 1
    ensures RanksBits(View(t, bitCount, words, rank))
  {
    hide Ones, BitsOf, Popcount32, RanksBits;
    ghost var whole := View(t, 32 * |words|, words, []);
    rank := [];
    var ones: nat := 0;
    assert Ones(BitsOf(whole), 0) == 0 by { NoOnesBeforeZero(BitsOf(whole)); }
    for w := 0 to |words|
      invariant |rank| == (w + BLOCK_WORDS - 1) / BLOCK_WORDS
      invariant 32 * w <= |BitsOf(whole)| && ones == Ones(BitsOf(whole), 32 * w)
      invariant forall b :: 0 <= b < |rank| ==> b * BLOCK_BITS <= 32 * w && rank[b] == Ones(BitsOf(whole), b * BLOCK_BITS)
    {
      if w % BLOCK_WORDS == 0 {
        assert |rank| * BLOCK_BITS == 32 * w;
        rank := rank + [ones];
      }
      OnesInWord(whole, w, 32);
      PopcountIsCount(words[w]);
      ones := ones + Popcount32(words[w]) as nat;
    }
    rank := rank + [ones];
    RankOfWhole(View(t, bitCount, words, rank), whole);
  }

  lemma NoOnesBeforeZero(bits: Bits)
    ensures Ones(bits, 0) == 0
  {
  }

  lemma RankOfWhole(v: View, whole: View)
    requires whole.words == v.words && whole.bitCount == 32 * |v.words| && v.bitCount <= whole.bitCount
    requires forall i :: v.bitCount <= i < 32 * |v.words| ==> !WordBit(v.words, i)
    requires |v.rank| == (|v.words| + BLOCK_WORDS - 1) / BLOCK_WORDS + 1
    requires forall b :: 0 <= b < |v.rank| - 1 ==> b * BLOCK_BITS <= whole.bitCount && v.rank[b] == Ones(BitsOf(whole), b * BLOCK_BITS)
    requires v.rank[|v.rank| - 1] == Ones(BitsOf(whole), whole.bitCount)
    ensures RanksBits(v)
  {
    hide Ones, BitsOf;
    forall b | 0 <= b && b * BLOCK_BITS < v.bitCount
      ensures b < |v.rank| && v.rank[b] == Ones(BitsOf(v), b * BLOCK_BITS)
    {
      assert b < |v.rank| - 1;
      PaddingAddsNothing(v, whole, b * BLOCK_BITS);
    }
    PaddingAddsNothing(v, whole, whole.bitCount);
  }

  /** The bits of the last word after `bitCount` are 0, so they do not count. */
  lemma {:induction false} PaddingAddsNothing(v: View, whole: View, n: nat)
    requires whole.words == v.words && whole.bitCount == 32 * |v.words| && v.bitCount <= whole.bitCount && n <= whole.bitCount
    requires forall i :: v.bitCount <= i < 32 * |v.words| ==> !WordBit(v.words, i)
    ensures Ones(BitsOf(whole), n) == Ones(BitsOf(v), if n <= v.bitCount then n else v.bitCount)
  {
    if n > 0 {
      PaddingAddsNothing(v, whole, n - 1);
    }
  }

  // ─── the walk ───────────────────────────────────────────────────────────────

  /** The walk can go as far as the path: its nodes exist, and it takes no position of the cut. */
  predicate Reaches(bits: Bits, t: Topology, cut: set<int>, root: int, path: seq<int>) {
    path == []
    || (Reaches(bits, t, cut, root, path[..|path| - 1]) && Split(bits, PosAt(bits, t, root, path[..|path| - 1])) && PosAt(bits, t, root, path) !in cut)
  }

  lemma {:induction false} ReachesExists(bits: Bits, t: Topology, cut: set<int>, root: int, path: seq<int>)
    requires Reaches(bits, t, cut, root, path)
    ensures Exists(bits, t, root, path)
  {
    if path != [] {
      ReachesExists(bits, t, cut, root, path[..|path| - 1]);
    }
  }

  /** The walk takes step `n` of the path: the partition before it is split, and the one after it is not in the cut. */
  predicate Takes(bits: Bits, t: Topology, cut: set<int>, root: int, path: seq<int>, n: nat) {
    0 < n <= |path| ==> Split(bits, PosAt(bits, t, root, path[..n - 1])) && PosAt(bits, t, root, path[..n]) !in cut
  }

  /** A path is reached exactly when the walk takes each of its steps. */
  lemma {:induction false} ReachesExactly(bits: Bits, t: Topology, cut: set<int>, root: int, path: seq<int>)
    ensures Reaches(bits, t, cut, root, path) <==> forall n: nat :: Takes(bits, t, cut, root, path, n)
  {
    if path != [] {
      var front := path[..|path| - 1];
      ReachesExactly(bits, t, cut, root, front);
      forall n: nat | n <= |front| ensures Takes(bits, t, cut, root, front, n) <==> Takes(bits, t, cut, root, path, n) {
        SamePrefix(path, n);
      }
      LastStep(bits, t, cut, root, path);
      hide PosAt, Split, Reaches;
      if forall n: nat :: Takes(bits, t, cut, root, path, n) {
        forall n: nat ensures Takes(bits, t, cut, root, front, n) {
          assert n <= |front| ==> Takes(bits, t, cut, root, path, n);
        }
      }
    }
  }

  lemma SamePrefix(path: seq<int>, n: nat)
    requires path != [] && n < |path|
    ensures path[..|path| - 1][..n] == path[..n] && (n > 0 ==> path[..|path| - 1][..n - 1] == path[..n - 1])
  {
  }

  lemma LastStep(bits: Bits, t: Topology, cut: set<int>, root: int, path: seq<int>)
    requires path != []
    ensures Reaches(bits, t, cut, root, path) <==> Reaches(bits, t, cut, root, path[..|path| - 1]) && Takes(bits, t, cut, root, path, |path|)
  {
    assert path[..|path|] == path;
    hide PosAt, Split;
  }

  /** `findLeaf`. The walk ends, because each step goes to a later position inside the bitmap. */
  method FindLeaf(v: View, b: Bytes, cut: set<int>) returns (pos: int, root: int, path: seq<int>)
    requires ValidView(v) && |b| == HASH_BYTES
    ensures root == RootOf(ValueOf(b), v.topology) && path == PathOf(ValueOf(b), v.topology, |path|)
    ensures pos == PosAt(BitsOf(v), v.topology, root, path)
    ensures Reaches(BitsOf(v), v.topology, cut, root, path)
    ensures !Reaches(BitsOf(v), v.topology, cut, root, PathOf(ValueOf(b), v.topology, |path| + 1))
    ensures path != [] ==> pos !in cut
    ensures !Split(BitsOf(v), pos) || PosAt(BitsOf(v), v.topology, root, PathOf(ValueOf(b), v.topology, |path| + 1)) in cut
  {
    var t := v.topology;
    ghost var x, bits := ValueOf(b), BitsOf(v);
    ValueBound(b);
    var digits := new DigitCursor(b, t.rootTreesN);
    root := digits.root;
    path := [];
    pos := root;
    NumerOfDigits(x, t, 0);
    while HashBit(v, pos)
      invariant digits.Valid() && fresh(digits) && digits.Value() == x * Nodes(t, |path|) % TWO_64
      invariant root == RootOf(x, t) && path == PathOf(x, t, |path|) && InTopology(t, root, path)
      invariant pos == PosAt(bits, t, root, path) && Reaches(bits, t, cut, root, path)
      invariant path != [] ==> pos !in cut
      decreases v.bitCount - pos
    {
      HashBitIsSplit(v, pos);
      NextDigit(x, t, |path|);
      NumerOfDigits(x, t, |path| + 1);
      var child := digits.Next(t.hashSplitN);
      var longer := path + [child];
      assert longer == PathOf(x, t, |path| + 1) && longer[..|path|] == path;
      ReachesExists(bits, t, cut, root, path);
      ChildrenComeLater(bits, t, root, path, child);
      var rank := HashRank1(v, pos);
      var next := t.rootTreesN + t.hashSplitN * rank + child;
      assert next == PosAt(bits, t, root, longer);
      if next in cut {
        assert !Reaches(bits, t, cut, root, longer);
        return;
      }
      pos := next;
      path := longer;
    }
    HashBitIsSplit(v, pos);
    assert PathOf(x, t, |path| + 1)[..|path|] == path;
  }

  /** The digit that the cursor gives at a level. */
  lemma NextDigit(x: int, t: Topology, depth: nat)
    requires 0 <= x < TWO_64 && ValidTopology(t)
    ensures var v := x * Nodes(t, depth) % TWO_64;
            && v * t.hashSplitN / TWO_64 == DigitOf(x, t, depth + 1)
            && v * t.hashSplitN % TWO_64 == x * Nodes(t, depth + 1) % TWO_64
    ensures PathOf(x, t, depth + 1) == PathOf(x, t, depth) + [DigitOf(x, t, depth + 1)]
  {
    NextLevel(x, t, depth);
    RemainderOf(NodeOf(x, t, depth), t.hashSplitN, x * Nodes(t, depth) % TWO_64 * t.hashSplitN / TWO_64);
  }

  /** The result is the longest prefix of the digits that the walk can reach: each shorter one is reached, and no longer one. */
  lemma {:induction false} LeafIsLongest(bits: Bits, t: Topology, cut: set<int>, x: int, leaf: nat, n: nat)
    requires ValidTopology(t)
    requires Reaches(bits, t, cut, RootOf(x, t), PathOf(x, t, leaf)) && !Reaches(bits, t, cut, RootOf(x, t), PathOf(x, t, leaf + 1))
    ensures Reaches(bits, t, cut, RootOf(x, t), PathOf(x, t, n)) <==> n <= leaf
    decreases if n <= leaf then leaf - n else n
  {
    if n < leaf {
      LeafIsLongest(bits, t, cut, x, leaf, n + 1);
      assert PathOf(x, t, n + 1)[..n] == PathOf(x, t, n);
    } else if n > leaf + 1 {
      LeafIsLongest(bits, t, cut, x, leaf, n - 1);
      assert PathOf(x, t, n)[..n - 1] == PathOf(x, t, n - 1);
    }
  }
}
