/** The layered Bloom filter of promoted keys. A key that was added is never denied, also after later layers. */
module BloomFilter {
  import opened Bytes

  // ─── bits ───────────────────────────────────────────────────────────────────

  /** `1 << j`. */
  function Mask(j: nat): bv8
    requires j < 8
  {
    if j == 0 then 1 else if j == 1 then 2 else if j == 2 then 4 else if j == 3 then 8
    else if j == 4 then 16 else if j == 5 then 32 else if j == 6 then 64 else 128
  }

  predicate HasMask(b: bv8, mask: bv8) {
    b & mask != 0
  }

  function Or(b: bv8, mask: bv8): bv8 {
    b | mask
  }

  lemma OrSetsOneBit(b: bv8, i: nat, j: nat)
    requires i < 8 && j < 8
    ensures HasMask(Or(b, Mask(i)), Mask(j)) <==> i == j || HasMask(b, Mask(j))
  {
    MasksDiffer(i, j);
    hide Mask;
    OrOfMasks(b, Mask(i), Mask(j));
  }

  predicate IsMask(m: bv8) {
    m == 1 || m == 2 || m == 4 || m == 8 || m == 16 || m == 32 || m == 64 || m == 128
  }

  lemma MasksDiffer(i: nat, j: nat)
    requires i < 8 && j < 8
    ensures IsMask(Mask(i)) && IsMask(Mask(j)) && (Mask(i) == Mask(j) <==> i == j)
  {
  }

  lemma OrOfMasks(b: bv8, x: bv8, y: bv8)
    requires IsMask(x) && IsMask(y)
    ensures HasMask(Or(b, x), y) <==> x == y || HasMask(b, y)
  {
  }

  predicate BitIsSet(bits: seq<bv8>, pos: nat) {
    pos / 8 < |bits| && HasMask(bits[pos / 8], Mask(pos % 8))
  }

  lemma SetOneBit(bits: seq<bv8>, pos: nat, other: nat)
    requires pos / 8 < |bits|
    ensures BitIsSet(bits[pos / 8 := Or(bits[pos / 8], Mask(pos % 8))], other) <==> other == pos || BitIsSet(bits, other)
  {
    if other / 8 == pos / 8 {
      OrSetsOneBit(bits[pos / 8], pos % 8, other % 8);
    }
  }

  // ─── one layer ──────────────────────────────────────────────────────────────

  /** `hash32` with a seed. */
  type Hash32 = (Bytes, nat) -> nat

  /** The bits of one layer, as a reader sees them. */
  datatype LayerBits = LayerBits(bits: seq<bv8>, k: nat, m: nat, layerIndex: nat)

  predicate ValidBits(layer: LayerBits) {
    0 < layer.m <= 8 * |layer.bits|
  }

  /** Position `i` of a key, by double hashing. */
  function Position(h: Hash32, key: Bytes, layerIndex: nat, m: nat, i: nat): (pos: nat)
    requires m > 0
    ensures pos < m
  {
    var h1, h2 := h(key, layerIndex * 2), h(key, layerIndex * 2 + 1);
    (h1 + i * (if h2 == 0 then 1 else h2)) % m
  }

  function LayerPosition(h: Hash32, layer: LayerBits, key: Bytes, i: nat): nat
    requires ValidBits(layer)
  {
    Position(h, key, layer.layerIndex, layer.m, i)
  }

  /** The bits of all the positions of the key are set. */
  predicate Has(h: Hash32, layer: LayerBits, key: Bytes)
    requires ValidBits(layer)
  {
    forall i :: 0 <= i < layer.k ==> BitIsSet(layer.bits, LayerPosition(h, layer, key, i))
  }

  /** `layerHas`. */
  method LayerHas(h: Hash32, layer: LayerBits, key: Bytes) returns (has: bool)
    requires ValidBits(layer)
    ensures has <==> Has(h, layer, key)
  {
    var h1 := h(key, layer.layerIndex * 2);
    var h2 := h(key, layer.layerIndex * 2 + 1);
    if h2 == 0 {
      h2 := 1;
    }
    for i := 0 to layer.k
      invariant forall j :: 0 <= j < i ==> BitIsSet(layer.bits, LayerPosition(h, layer, key, j))
    {
      var pos := (h1 + i * h2) % layer.m;
      assert pos == LayerPosition(h, layer, key, i);
      if !HasMask(layer.bits[pos / 8], Mask(pos % 8)) {
        return false;
      }
    }
    return true;
  }

  lemma ByteOf(pos: nat, m: nat)
    requires pos < m
    ensures pos / 8 < (m + 7) / 8
  {
  }

  /** One of the first `n` positions of the key. */
  ghost predicate IsPosition(h: Hash32, layer: LayerBits, key: Bytes, n: nat, pos: nat)
    requires ValidBits(layer)
  {
    exists i :: 0 <= i < n && pos == LayerPosition(h, layer, key, i)
  }

  lemma OneMorePosition(h: Hash32, layer: LayerBits, key: Bytes, n: nat, pos: nat)
    requires ValidBits(layer)
    ensures !IsPosition(h, layer, key, 0, pos)
    ensures IsPosition(h, layer, key, n + 1, pos) <==> IsPosition(h, layer, key, n, pos) || pos == LayerPosition(h, layer, key, n)
  {
    hide LayerPosition;
  }

  /** The bits that are set after a key was added to a layer. */
  ghost predicate AddedBits(h: Hash32, before: LayerBits, key: Bytes, after: seq<bv8>, n: nat)
    requires ValidBits(before)
  {
    && |after| == |before.bits|
    && forall pos :: BitIsSet(after, pos) <==> BitIsSet(before.bits, pos) || IsPosition(h, before, key, n, pos)
  }

  class Layer {
    const capacity: nat
    const k: nat
    const m: nat
    const layerIndex: nat
    const bits: array<bv8>
    var count: nat

    predicate Valid()
      reads this
    {
      k > 0 && m > 0 && bits.Length == (m + 7) / 8
    }

    function Bits(): LayerBits
      reads this, bits
    {
      LayerBits(bits[..], k, m, layerIndex)
    }

    /** `buildLayer`. */
    constructor (capacity: nat, k: nat, m: nat, layerIndex: nat)
      requires k > 0 && m > 0
      ensures Valid() && fresh(bits) && count == 0 && this.layerIndex == layerIndex && this.m == m && this.k == k && this.capacity == capacity
      ensures forall pos :: !BitIsSet(bits[..], pos)
    {
      this.capacity, this.k, this.m, this.layerIndex := capacity, k, m, layerIndex;
      bits := new bv8[(m + 7) / 8](_ => 0);
      count := 0;
      new;
      forall pos: nat ensures !BitIsSet(bits[..], pos) {
        NoMask(Mask(pos % 8));
      }
    }

    /** `layerAddIfAbsent`: sets the bits of the key, and counts it when one of them was clear. */
    method AddIfAbsent(h: Hash32, key: Bytes) returns (added: bool)
      requires Valid()
      modifies this`count, bits
      ensures Valid() && Has(h, Bits(), key)
      ensures added <==> !old(Has(h, Bits(), key))
      ensures AddedBits(h, old(Bits()), key, bits[..], k)
      ensures count == if added then old(count) + 1 else old(count)
      ensures !added ==> bits[..] == old(bits[..])
    {
      hide HasMask, Mask, Or, AddedBits;
      ghost var before := Bits();
      var h1 := h(key, layerIndex * 2);
      var h2 := h(key, layerIndex * 2 + 1);
      if h2 == 0 {
        h2 := 1;
      }
      var allSet := true;
      NothingAdded(h, before, key);
      for i := 0 to k
        invariant AddedBits(h, before, key, bits[..], i)
        invariant count == old(count)
        invariant allSet ==> bits[..] == before.bits
        invariant allSet <==> forall j :: 0 <= j < i ==> BitIsSet(before.bits, LayerPosition(h, before, key, j))
      {
        var pos := (h1 + i * h2) % m;
        assert pos == LayerPosition(h, before, key, i);
        ByteOf(pos, m);
        ghost var was := bits[..];
        OnePosition(h, before, key, was, i);
        if !HasMask(bits[pos / 8], Mask(pos % 8)) {
          allSet := false;
          bits[pos / 8] := Or(bits[pos / 8], Mask(pos % 8));
          assert bits[..] == was[pos / 8 := Or(was[pos / 8], Mask(pos % 8))];
        }
      }
      AddedHas(h, before, key, Bits());
      if allSet {
        return false;
      }
      count := count + 1;
      return true;
    }
  }

  lemma NoMask(mask: bv8)
    ensures !HasMask(0, mask)
  {
  }

  lemma NothingAdded(h: Hash32, before: LayerBits, key: Bytes)
    requires ValidBits(before)
    ensures AddedBits(h, before, key, before.bits, 0)
  {
    hide BitIsSet, LayerPosition;
  }

  /** One more position of the key: its bit was set already, or it is the one bit that changes. */
  lemma OnePosition(h: Hash32, before: LayerBits, key: Bytes, was: seq<bv8>, i: nat)
    requires ValidBits(before) && AddedBits(h, before, key, was, i)
    ensures var pos := LayerPosition(h, before, key, i);
            && pos / 8 < |was|
            && (HasMask(was[pos / 8], Mask(pos % 8)) ==> AddedBits(h, before, key, was, i + 1))
            && AddedBits(h, before, key, was[pos / 8 := Or(was[pos / 8], Mask(pos % 8))], i + 1)
            && (BitIsSet(before.bits, pos) ==> HasMask(was[pos / 8], Mask(pos % 8)))
            && (was == before.bits && HasMask(was[pos / 8], Mask(pos % 8)) ==> BitIsSet(before.bits, pos))
  {
    var pos := LayerPosition(h, before, key, i);
    ByteOf(pos, before.m);
    hide HasMask, Mask, Or, LayerPosition, BitIsSet, IsPosition;
    SetBitIsSet(was, pos);
    var now := was[pos / 8 := Or(was[pos / 8], Mask(pos % 8))];
    forall other: nat
      ensures IsPosition(h, before, key, i + 1, other) <==> IsPosition(h, before, key, i, other) || other == pos
      ensures BitIsSet(now, other) <==> other == pos || BitIsSet(was, other)
    {
      SetOneBit(was, pos, other);
      OneMorePosition(h, before, key, i, other);
    }
  }

  lemma SetBitIsSet(bits: seq<bv8>, pos: nat)
    requires pos / 8 < |bits|
    ensures BitIsSet(bits, pos) <==> HasMask(bits[pos / 8], Mask(pos % 8))
  {
  }

  lemma AddedHas(h: Hash32, before: LayerBits, key: Bytes, after: LayerBits)
    requires ValidBits(before) && after == before.(bits := after.bits) && AddedBits(h, before, key, after.bits, before.k)
    ensures Has(h, after, key)
  {
    forall i | 0 <= i < before.k ensures BitIsSet(after.bits, LayerPosition(h, after, key, i)) {
      assert IsPosition(h, before, key, before.k, LayerPosition(h, before, key, i));
    }
  }

  // ─── the filter ─────────────────────────────────────────────────────────────

  datatype AddResult = AlreadyPresent | Added | Full

  /** The sizes of a layer, which the source computes in floating point from the error rate. */
  datatype Shape = Shape(capacity: nat, k: nat, m: nat)

  function LayerByteSize(m: nat): nat {
    (m + 7) / 8
  }

  /** The bytes of the first `n` layers. */
  function SizeOf(shapeOf: nat -> Shape, n: nat): nat {
    if n == 0 then 0 else SizeOf(shapeOf, n - 1) + LayerByteSize(shapeOf(n - 1).m)
  }

  ghost predicate AnyHas(h: Hash32, layers: seq<LayerBits>, key: Bytes) {
    exists i :: 0 <= i < |layers| && LayerHasKey(h, layers[i], key)
  }

  ghost predicate LayerHasKey(h: Hash32, layer: LayerBits, key: Bytes) {
    ValidBits(layer) && Has(h, layer, key)
  }

  lemma MoreBitsHaveMore(h: Hash32, before: LayerBits, key: Bytes, after: LayerBits, x: Bytes)
    requires ValidBits(before) && after == before.(bits := after.bits) && AddedBits(h, before, key, after.bits, before.k)
    ensures ValidBits(after) && (Has(h, before, x) ==> Has(h, after, x))
  {
    hide BitIsSet, IsPosition;
    if Has(h, before, x) {
      AddedSize(h, before, key, after.bits);
      forall i | 0 <= i < after.k ensures BitIsSet(after.bits, LayerPosition(h, after, x, i)) {
        assert BitIsSet(before.bits, LayerPosition(h, before, x, i));
      }
    }
  }

  /** A key in the last layer: no layer loses a key. */
  lemma LastLayerGrows(h: Hash32, before: seq<LayerBits>, key: Bytes, after: seq<LayerBits>)
    requires before != [] && |after| == |before| && var n := |before| - 1;
             && (forall i :: 0 <= i < n ==> after[i] == before[i])
             && ValidBits(before[n]) && after[n] == before[n].(bits := after[n].bits)
             && AddedBits(h, before[n], key, after[n].bits, before[n].k)
    ensures AnyHas(h, after, key)
    ensures forall x :: AnyHas(h, before, x) ==> AnyHas(h, after, x)
  {
    hide Has, AddedBits;
    var n := |before| - 1;
    AddedHas(h, before[n], key, after[n]);
    AddedSize(h, before[n], key, after[n].bits);
    forall x | AnyHas(h, before, x) ensures AnyHas(h, after, x) {
      var i :| 0 <= i < |before| && LayerHasKey(h, before[i], x);
      if i == n {
        MoreBitsHaveMore(h, before[n], key, after[n], x);
      }
      assert LayerHasKey(h, after[i], x);
    }
  }

  lemma AddedSize(h: Hash32, before: LayerBits, key: Bytes, after: seq<bv8>)
    requires ValidBits(before) && AddedBits(h, before, key, after, before.k)
    ensures |after| == |before.bits|
  {
  }

  /** A new layer takes no key away. */
  lemma NewLayerKeeps(h: Hash32, layers: seq<LayerBits>, next: LayerBits)
    ensures forall x :: AnyHas(h, layers, x) ==> AnyHas(h, layers + [next], x)
  {
    hide Has;
    forall x | AnyHas(h, layers, x) ensures AnyHas(h, layers + [next], x) {
      var i :| 0 <= i < |layers| && LayerHasKey(h, layers[i], x);
      assert (layers + [next])[i] == layers[i];
    }
  }

  class BloomFilter {
    const hash32: Hash32
    const shapeOf: nat -> Shape
    const maxSizeBytes: nat
    var layers: seq<Layer>
    var usedBytes: nat
    ghost var added: set<Bytes>

    ghost function Repr(): set<object>
      reads this, layers
    {
      {this} + (set i | 0 <= i < |layers| :: layers[i] as object) + (set i | 0 <= i < |layers| :: layers[i].bits as object)
    }

    ghost predicate Shaped() {
      forall i: nat :: shapeOf(i).k > 0 && shapeOf(i).m > 0
    }

    ghost predicate Separate()
      reads this, layers
    {
      forall i, j :: 0 <= i < j < |layers| ==> layers[i] != layers[j] && layers[i].bits != layers[j].bits
    }

    ghost function AllBits(): seq<LayerBits>
      reads this, layers, set i | 0 <= i < |layers| :: layers[i].bits
    {
      seq(|layers|, i requires 0 <= i < |layers| reads this, layers, set j | 0 <= j < |layers| :: layers[j].bits => layers[i].Bits())
    }

    /** Some layer has the key. */
    ghost predicate Contains(key: Bytes)
      reads this, layers, set i | 0 <= i < |layers| :: layers[i].bits
    {
      AnyHas(hash32, AllBits(), key)
    }

    /** The layers are apart and within the size of the filter, and no key that was added is denied. */
    ghost predicate Valid()
      reads this, layers, set i | 0 <= i < |layers| :: layers[i].bits
    {
      && Shaped() && layers != [] && Separate() && usedBytes == SizeOf(shapeOf, |layers|) <= maxSizeBytes
      && (forall i :: 0 <= i < |layers| ==> LayerFits(i))
      && (forall key :: key in added ==> Contains(key))
    }

    ghost predicate LayerFits(i: nat)
      requires i < |layers|
      reads this, layers
    {
      layers[i].Valid() && layers[i].layerIndex == i && Shape(layers[i].capacity, layers[i].k, layers[i].m) == shapeOf(i)
    }

    /** `BloomFilter.create`, with room for the first layer. */
    constructor (hash32: Hash32, shapeOf: nat -> Shape, maxSizeBytes: nat)
      requires (forall i: nat :: shapeOf(i).k > 0 && shapeOf(i).m > 0) && LayerByteSize(shapeOf(0).m) <= maxSizeBytes
      ensures Valid() && fresh(Repr()) && added == {}
    {
      this.hash32, this.shapeOf, this.maxSizeBytes := hash32, shapeOf, maxSizeBytes;
      var shape := shapeOf(0);
      var first := new Layer(shape.capacity, shape.k, shape.m, 0);
      layers := [first];
      usedBytes := LayerByteSize(shape.m);
      added := {};
      new;
      assert SizeOf(shapeOf, 1) == SizeOf(shapeOf, 0) + LayerByteSize(shapeOf(0).m);
    }

    predicate LastIsFull()
      requires layers != []
      reads this, layers
    {
      layers[|layers| - 1].count >= layers[|layers| - 1].capacity
    }

    /** The part of `add` that changes the last layer. */
    method AddToLast(key: Bytes) returns (result: AddResult)
      requires Valid()
      modifies `added, layers[|layers| - 1], layers[|layers| - 1].bits
      ensures Valid() && layers == old(layers)
      ensures Contains(key) && forall x :: old(Contains(x)) ==> Contains(x)
      ensures added == old(added) + {key}
      ensures result == if old(LayerHasKey(hash32, layers[|layers| - 1].Bits(), key)) then AlreadyPresent else Added
      ensures result.AlreadyPresent? ==> AllBits() == old(AllBits())
    {
      hide Has, AddedBits, SizeOf, LayerByteSize;
      ghost var before := AllBits();
      var n := |layers| - 1;
      assert LayerFits(n);
      var addedOne := layers[n].AddIfAbsent(hash32, key);
      ghost var after := AllBits();
      forall i | 0 <= i < n ensures after[i] == before[i] {
        assert layers[i] != layers[n] && layers[i].bits != layers[n].bits;
      }
      LastLayerGrows(hash32, before, key, after);
      added := added + {key};
      assert AllBits() == after;
      forall i | 0 <= i < |layers| ensures LayerFits(i) {
        assert old(LayerFits(i));
      }
      return if addedOne then Added else AlreadyPresent;
    }

    method FirstLayersHave(key: Bytes, n: nat) returns (has: bool)
      requires Valid() && n <= |layers|
      ensures has <==> AnyHas(hash32, AllBits()[..n], key)
    {
      hide Has;
      for i := 0 to n
        invariant forall j :: 0 <= j < i ==> !LayerHasKey(hash32, AllBits()[j], key)
      {
        assert LayerFits(i);
        var here := LayerHas(hash32, layers[i].Bits(), key);
        if here {
          assert LayerHasKey(hash32, AllBits()[..n][i], key);
          return true;
        }
      }
      return false;
    }

    /** `has`: true for every key that was added. */
    method HasKey(key: Bytes) returns (has: bool)
      requires Valid()
      ensures has <==> Contains(key)
      ensures key in added ==> has
    {
      has := FirstLayersHave(key, |layers|);
      assert AllBits()[..|layers|] == AllBits();
    }

    /** `add`: the key goes into the last layer, or into a new one when that layer is at its capacity. */
    method Add(key: Bytes) returns (result: AddResult)
      requires Valid()
      modifies Repr()
      ensures Valid() && fresh(Repr() - old(Repr()))
      ensures result.AlreadyPresent? <==> old(Contains(key))
      ensures result.Full? <==> !old(Contains(key)) && old(LastIsFull()) && old(usedBytes) + LayerByteSize(shapeOf(old(|layers|)).m) > maxSizeBytes
      ensures old(LastIsFull()) <==> old(layers[|layers| - 1].count) >= old(layers)[|old(layers)| - 1].capacity
      ensures |layers| == |old(layers)| + (if result.Added? && old(LastIsFull()) then 1 else 0) && layers[..|old(layers)|] == old(layers)
      ensures !result.Full? ==> Contains(key)
      ensures forall x :: old(Contains(x)) ==> Contains(x)
      ensures !result.Added? ==> AllBits() == old(AllBits())
      ensures added == if result.Full? then old(added) else old(added) + {key}
    {
      hide Has, AddedBits, SizeOf, LayerByteSize, ValidBits, LayerHasKey, AnyHas, Separate, LayerFits, Shaped;
      ghost var before := AllBits();
      var n := |layers| - 1;
      LastOrFirst(hash32, before, key);
      var earlier := FirstLayersHave(key, n);
      if earlier {
        NoteAdded(key);
        return AlreadyPresent;
      }
      if layers[n].count < layers[n].capacity {
        result := AddToLast(key);
        return;
      }
      var here := LastHas(key);
      if here {
        NoteAdded(key);
        return AlreadyPresent;
      }
      if usedBytes + LayerByteSize(shapeOf(n + 1).m) > maxSizeBytes {
        return Full;
      }
      result := AddToNewLayer(key);
    }

    /** The part of `add` that opens a layer. */
    method AddToNewLayer(key: Bytes) returns (result: AddResult)
      requires Valid() && usedBytes + LayerByteSize(shapeOf(|layers|).m) <= maxSizeBytes
      modifies this
      ensures Valid() && fresh(Repr() - old(Repr()))
      ensures result == Added && Contains(key) && forall x :: old(Contains(x)) ==> Contains(x)
      ensures |layers| == |old(layers)| + 1 && layers[..|old(layers)|] == old(layers)
      ensures added == old(added) + {key}
    {
      hide Has, SizeOf, LayerByteSize, ValidBits, LayerHasKey, AnyHas;
      PushLayer();
      result := AddToLast(key);
    }

    method LastHas(key: Bytes) returns (has: bool)
      requires Valid()
      ensures has <==> LayerHasKey(hash32, AllBits()[|layers| - 1], key)
    {
      assert LayerFits(|layers| - 1);
      has := LayerHas(hash32, layers[|layers| - 1].Bits(), key);
    }

    /** The filter has the key already, as its own or by chance. */
    ghost method NoteAdded(key: Bytes)
      requires Valid() && Contains(key)
      modifies `added
      ensures Valid() && added == old(added) + {key} && AllBits() == old(AllBits())
    {
      hide Has, SizeOf, ValidBits, LayerHasKey;
      ghost var before := AllBits();
      added := added + {key};
      assert AllBits() == before;
      forall i | 0 <= i < |layers| ensures LayerFits(i) {
        assert old(LayerFits(i));
      }
    }

    /** The next layer, which is empty. */
    method PushLayer()
      requires Valid() && usedBytes + LayerByteSize(shapeOf(|layers|).m) <= maxSizeBytes
      modifies `layers, `usedBytes
      ensures Valid() && added == old(added) && |layers| == |old(layers)| + 1 && layers[..|old(layers)|] == old(layers)
      ensures fresh(layers[|layers| - 1]) && fresh(layers[|layers| - 1].bits)
      ensures forall x :: old(Contains(x)) ==> Contains(x)
      ensures var last := layers[|layers| - 1].Bits(); forall x :: !LayerHasKey(hash32, last, x)
    {
      hide SizeOf, LayerByteSize;
      ghost var before := AllBits();
      var n := |layers|;
      var shape := shapeOf(n);
      var next := new Layer(shape.capacity, shape.k, shape.m, n);
      EmptyLayerHasNothing(hash32, next.Bits());
      NewLayerKeeps(hash32, before, next.Bits());
      layers := layers + [next];
      usedBytes := usedBytes + LayerByteSize(shape.m);
      hide Has, ValidBits, LayerHasKey;
      assert AllBits() == before + [next.Bits()];
      OneMoreSize(shapeOf, n);
      forall i | 0 <= i < |layers| ensures LayerFits(i) {
        assert i < n ==> old(LayerFits(i));
      }
    }
  }

  lemma EmptyLayerHasNothing(h: Hash32, layer: LayerBits)
    requires layer.k > 0 && forall pos :: !BitIsSet(layer.bits, pos)
    ensures forall x :: !LayerHasKey(h, layer, x)
  {
    hide BitIsSet, Position;
    forall x | ValidBits(layer) ensures !Has(h, layer, x) {
      assert !BitIsSet(layer.bits, LayerPosition(h, layer, x, 0));
    }
  }

  lemma OneMoreSize(shapeOf: nat -> Shape, n: nat)
    ensures SizeOf(shapeOf, n + 1) == SizeOf(shapeOf, n) + LayerByteSize(shapeOf(n).m)
  {
  }

  lemma LastOrFirst(h: Hash32, layers: seq<LayerBits>, key: Bytes)
    requires layers != []
    ensures AnyHas(h, layers, key) <==> AnyHas(h, layers[..|layers| - 1], key) || LayerHasKey(h, layers[|layers| - 1], key)
  {
    hide LayerHasKey;
    var front := layers[..|layers| - 1];
    if AnyHas(h, front, key) {
      var i :| 0 <= i < |front| && LayerHasKey(h, front[i], key);
      assert layers[i] == front[i];
    }
    if AnyHas(h, layers, key) && !LayerHasKey(h, layers[|layers| - 1], key) {
      var i :| 0 <= i < |layers| && LayerHasKey(h, layers[i], key);
      assert front[i] == layers[i];
    }
  }
}
