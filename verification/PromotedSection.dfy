/** The promoted section of a hash body: sorted routing hashes, packed 8 bytes each. */
module PromotedSection {
  import opened Bytes
  import opened KeyCodec
  import opened BloomFilter
  import opened RoutingHash

  function Entry(bytes: Bytes, i: nat): Bytes
    requires (i + 1) * HASH_BYTES <= |bytes|
  {
    bytes[i * HASH_BYTES..(i + 1) * HASH_BYTES]
  }

  predicate StrictlySorted(list: seq<Bytes>) {
    forall i, j :: 0 <= i < j < |list| ==> Less(list[i], list[j])
  }

  function Entries(bytes: Bytes): seq<Bytes> {
    seq(|bytes| / HASH_BYTES, i requires 0 <= i < |bytes| / HASH_BYTES => Entry(bytes, i))
  }

  lemma {:induction false} NeighboursSort(list: seq<Bytes>, i: nat, j: nat)
    requires i < j < |list| && forall k :: 0 < k < |list| ==> Less(list[k - 1], list[k])
    ensures Less(list[i], list[j])
  {
    if i + 1 < j {
      NeighboursSort(list, i, j - 1);
      LessIsTransitive(list[i], list[j - 1], list[j]);
    }
  }

  /** `promotedRoutingHashesInOrder`: each entry against the one before it. */
  method InOrder(bytes: Bytes) returns (ordered: bool)
    requires |bytes| % HASH_BYTES == 0
    ensures ordered <==> StrictlySorted(Entries(bytes))
  {
    var cur := HASH_BYTES;
    ghost var list := Entries(bytes);
    ghost var i := 1;
    while cur < |bytes|
      invariant cur == i * HASH_BYTES && 1 <= i
      invariant |bytes| > 0 ==> i <= |list|
      invariant forall k :: 0 < k < i && k < |list| ==> Less(list[k - 1], list[k])
    {
      assert list[i - 1] == Entry(bytes, i - 1) && list[i] == Entry(bytes, i);
      var c := Compare(bytes[cur - HASH_BYTES..cur], bytes[cur..cur + HASH_BYTES]);
      if c >= 0 {
        assert !Less(list[i - 1], list[i]);
        return false;
      }
      cur := cur + HASH_BYTES;
      i := i + 1;
    }
    forall a, b | 0 <= a < b < |list| ensures Less(list[a], list[b]) {
      NeighboursSort(list, a, b);
    }
    return true;
  }

  /** The binary search of `isPromotedRoutingHash`: the answer is exact in both directions. */
  method Search(bytes: Bytes, count: nat, hash: Bytes) returns (found: bool)
    requires |bytes| == count * HASH_BYTES && |hash| == HASH_BYTES && StrictlySorted(Entries(bytes))
    ensures found <==> hash in Entries(bytes)
  {
    ghost var list := Entries(bytes);
    var a, b := 0, count;
    while a < b
      invariant 0 <= a <= b <= count == |list|
      invariant forall k :: 0 <= k < a ==> Less(list[k], hash)
      invariant forall k :: b <= k < count ==> AtMost(hash, list[k])
    {
      var mid := a + (b - a) / 2;
      assert list[mid] == Entry(bytes, mid);
      var c := Compare(Entry(bytes, mid), hash);
      if c < 0 {
        forall k | 0 <= k < mid ensures Less(list[k], hash) {
          LessIsTransitive(list[k], list[mid], hash);
        }
        a := mid + 1;
      } else {
        forall k | mid < k < count ensures AtMost(hash, list[k]) {
          if Less(list[k], hash) {
            LessIsTransitive(list[mid], list[k], hash);
            assert false;
          }
        }
        b := mid;
      }
    }
    found := a < count && Entry(bytes, a) == hash;
    if a < count {
      assert list[a] == Entry(bytes, a);
    }
    LessIrreflexive(hash);
    forall k | a < k < count ensures list[k] != hash {
      assert Less(list[a], list[k]);
    }
  }

  /** What a body knows of its promoted set: the list, or a Bloom filter of it, or that it is empty. */
  datatype PromotedView = PromotedView(promoted: Option<Bytes>, bloom: Option<LayerBits>)

  predicate ValidView(view: PromotedView) {
    && (view.promoted.Some? ==> |view.promoted.value| % HASH_BYTES == 0 && StrictlySorted(Entries(view.promoted.value)))
    && (view.bloom.Some? ==> ValidBits(view.bloom.value))
  }

  /** The view is one of this promoted set: a filter has every member, and can have other hashes. */
  ghost predicate IsViewOf(view: PromotedView, h: Hash32, members: set<Bytes>)
    requires ValidView(view)
  {
    if view.promoted.Some? then forall x :: x in members <==> x in Entries(view.promoted.value)
    else if view.bloom.Some? then forall x :: x in members ==> Has(h, view.bloom.value, x)
    else members == {}
  }

  datatype Membership = Exact | Maybe | No

  /** `isPromotedRoutingHash`: exact and no are always correct, and with a list there is no maybe. */
  method IsPromoted(view: PromotedView, h: Hash32, hash: Bytes, ghost members: set<Bytes>) returns (answer: Membership)
    requires ValidView(view) && IsViewOf(view, h, members) && |hash| == HASH_BYTES
    ensures answer == Exact ==> hash in members
    ensures answer == No ==> hash !in members
    ensures view.promoted.Some? ==> (answer == Exact <==> hash in members) && answer != Maybe
    ensures answer == Maybe <==> view.promoted.None? && view.bloom.Some? && Has(h, view.bloom.value, hash)
  {
    if view.promoted.None? {
      if view.bloom.Some? {
        var maybe := LayerHas(h, view.bloom.value, hash);
        return if maybe then Maybe else No;
      }
      return No;
    }
    var bytes := view.promoted.value;
    var found := Search(bytes, |bytes| / HASH_BYTES, hash);
    return if found then Exact else No;
  }

  predicate Ascending(list: seq<Bytes>) {
    forall i, j :: 0 <= i < j < |list| ==> AtMost(list[i], list[j])
  }

  /** `take`: a value that repeats the last one goes in one time. */
  method Take(chunks: seq<Bytes>, v: Bytes) returns (out: seq<Bytes>)
    requires StrictlySorted(chunks) && (chunks != [] ==> AtMost(chunks[|chunks| - 1], v))
    ensures StrictlySorted(out) && out != [] && out[|out| - 1] == v
    ensures forall x :: x in out <==> x in chunks || x == v
  {
    if |chunks| > 0 {
      var c := Compare(chunks[|chunks| - 1], v);
      if c == 0 {
        return chunks;
      }
      LessIsTotal(chunks[|chunks| - 1], v);
      forall i | 0 <= i < |chunks| ensures Less(chunks[i], v) {
        if i < |chunks| - 1 {
          LessIsTransitive(chunks[i], chunks[|chunks| - 1], v);
        }
      }
    }
    out := chunks + [v];
  }

  /** `mergePromotedRoutingHashes`: the union of two sorted streams, each value one time, in order. */
  method Merge(base: seq<Bytes>, added: seq<Bytes>) returns (merged: seq<Bytes>)
    requires Ascending(base) && Ascending(added)
    ensures StrictlySorted(merged)
    ensures forall x :: x in merged <==> x in base || x in added
  {
    merged := [];
    var i, j := 0, 0;
    while i < |base| || j < |added|
      invariant 0 <= i <= |base| && 0 <= j <= |added|
      invariant StrictlySorted(merged)
      invariant forall x :: x in merged <==> x in base[..i] || x in added[..j]
      invariant merged != [] && i < |base| ==> AtMost(merged[|merged| - 1], base[i])
      invariant merged != [] && j < |added| ==> AtMost(merged[|merged| - 1], added[j])
      decreases |base| - i + |added| - j
    {
      var fromBase := j == |added|;
      if i < |base| && j < |added| {
        var c := Compare(base[i], added[j]);
        fromBase := c <= 0;
        LessIsTotal(base[i], added[j]);
        LessIrreflexive(base[i]);
        if c > 0 {
          LessIsAsymmetric(added[j], base[i]);
        } else if c < 0 {
          LessIsAsymmetric(base[i], added[j]);
        }
      }
      if fromBase {
        merged := Take(merged, base[i]);
        assert base[..i + 1] == base[..i] + [base[i]];
        i := i + 1;
      } else {
        merged := Take(merged, added[j]);
        assert added[..j + 1] == added[..j] + [added[j]];
        j := j + 1;
      }
    }
    assert base[..i] == base && added[..j] == added;
  }
}
