/** The order of encoded keys, the prefix bound, and the separators that become range boundaries. */
module KeyCodec {
  import opened Bytes

  // ─── the byte order ─────────────────────────────────────────────────────────

  /** The unsigned byte order, with a proper prefix first. */
  predicate Less(a: Bytes, b: Bytes) {
    b != [] && (a == [] || a[0] < b[0] || (a[0] == b[0] && Less(a[1..], b[1..])))
  }

  predicate AtMost(a: Bytes, b: Bytes) {
    !Less(b, a)
  }

  lemma {:induction false} LessIrreflexive(a: Bytes)
    ensures !Less(a, a)
  {
    if a != [] {
      LessIrreflexive(a[1..]);
    }
  }

  lemma {:induction false} LessIsTotal(a: Bytes, b: Bytes)
    ensures Less(a, b) || a == b || Less(b, a)
  {
    if a != [] && b != [] && a[0] == b[0] {
      LessIsTotal(a[1..], b[1..]);
      assert a == [a[0]] + a[1..] && b == [b[0]] + b[1..];
    }
  }

  lemma {:induction false} LessIsTransitive(a: Bytes, b: Bytes, c: Bytes)
    requires Less(a, b) && Less(b, c)
    ensures Less(a, c)
  {
    if a != [] && a[0] == b[0] && b[0] == c[0] {
      LessIsTransitive(a[1..], b[1..], c[1..]);
    }
  }

  lemma LessIsAsymmetric(a: Bytes, b: Bytes)
    requires Less(a, b)
    ensures !Less(b, a)
  {
    if Less(b, a) {
      LessIsTransitive(a, b, a);
      LessIrreflexive(a);
    }
  }

  /** A shared prefix does not change the order. */
  lemma {:induction false} CommonPrefix(p: Bytes, a: Bytes, b: Bytes)
    ensures Less(p + a, p + b) <==> Less(a, b)
  {
    if p == [] {
      assert p + a == a && p + b == b;
    } else {
      CommonPrefix(p[1..], a, b);
      assert (p + a)[1..] == p[1..] + a && (p + b)[1..] == p[1..] + b;
    }
  }

  /** The first byte that differs decides, whatever follows. */
  lemma FirstDifference(a: Bytes, b: Bytes, i: nat)
    requires i < |a| && i < |b| && a[..i] == b[..i] && a[i] < b[i]
    ensures Less(a, b)
  {
    assert a == a[..i] + a[i..] && b == a[..i] + b[i..];
    CommonPrefix(a[..i], a[i..], b[i..]);
  }

  lemma PrefixIsAtMost(p: Bytes, k: Bytes)
    requires p <= k
    ensures AtMost(p, k) && (p != k ==> Less(p, k))
  {
    assert k == p + k[|p|..] && p == p + [];
    CommonPrefix(p, k[|p|..], []);
    CommonPrefix(p, [], k[|p|..]);
  }

  /** `compare`: the sign of the first difference, and then of the lengths. */
  method Compare(a: Bytes, b: Bytes) returns (c: int)
    ensures c < 0 <==> Less(a, b)
    ensures c == 0 <==> a == b
    ensures c > 0 <==> Less(b, a)
  {
    var minLen := if |a| <= |b| then |a| else |b|;
    for i := 0 to minLen
      invariant a[..i] == b[..i]
    {
      if a[i] != b[i] {
        if a[i] < b[i] {
          FirstDifference(a, b, i);
          LessIsAsymmetric(a, b);
        } else {
          FirstDifference(b, a, i);
          LessIsAsymmetric(b, a);
        }
        var x: int, y: int := a[i], b[i];
        return x - y;
      }
    }
    if |a| <= |b| {
      assert a == a[..minLen] == b[..minLen];
      PrefixIsAtMost(a, b);
    } else {
      assert b == b[..minLen] == a[..minLen];
      PrefixIsAtMost(b, a);
    }
    LessIrreflexive(a);
    if Less(a, b) {
      LessIsAsymmetric(a, b);
    } else if Less(b, a) {
      LessIsAsymmetric(b, a);
    }
    return |a| - |b|;
  }

  // ─── the prefix bound ───────────────────────────────────────────────────────

  /** The last byte below 0xFF goes up by one, and the bytes after it go. */
  function SuccessorOf(prefix: Bytes): Option<Bytes> {
    if prefix == [] then None
    else
      var last := |prefix| - 1;
      if prefix[last] < 0xff then Some(prefix[..last] + [prefix[last] + 1]) else SuccessorOf(prefix[..last])
  }

  method IncrementLastByte(bytes: Bytes) returns (r: Option<Bytes>)
    ensures r == SuccessorOf(bytes)
    ensures r.None? <==> forall i :: 0 <= i < |bytes| ==> bytes[i] == 0xff
  {
    var i := |bytes| - 1;
    assert bytes[..i + 1] == bytes;
    while i >= 0
      invariant -1 <= i < |bytes|
      invariant forall j :: i < j < |bytes| ==> bytes[j] == 0xff
      invariant SuccessorOf(bytes) == SuccessorOf(bytes[..i + 1])
    {
      if bytes[i] < 0xff {
        var out := bytes[..i + 1];
        out := out[i := bytes[i] + 1];
        assert bytes[..i + 1][..i] == bytes[..i] && out == bytes[..i] + [bytes[i] + 1];
        return Some(out);
      }
      assert bytes[..i + 1][..i] == bytes[..i];
      i := i - 1;
    }
    return None;
  }

  /** The keys below the successor are the keys below the prefix and the keys that have it. */
  lemma {:induction false} SuccessorIsExact(prefix: Bytes, k: Bytes)
    ensures SuccessorOf(prefix).Some? ==> (Less(k, SuccessorOf(prefix).value) <==> Less(k, prefix) || prefix <= k)
    ensures SuccessorOf(prefix).None? ==> Less(k, prefix) || prefix <= k
  {
    if prefix != [] {
      var last := |prefix| - 1;
      var p := prefix[..last];
      assert prefix == p + [prefix[last]];
      if p <= k {
        assert k == p + k[last..];
        CommonPrefix(p, k[last..], [prefix[last]]);
        if prefix[last] < 0xff {
          CommonPrefix(p, k[last..], [prefix[last] + 1]);
        }
      } else {
        PrefixDecides(p, k, [prefix[last]]);
        if prefix[last] < 0xff {
          PrefixDecides(p, k, [prefix[last] + 1]);
        }
      }
      if prefix[last] == 0xff {
        SuccessorIsExact(p, k);
      }
    }
  }

  /** A key without the prefix `p` compares with every extension of `p` as it does with `p`. */
  lemma {:induction false} PrefixDecides(p: Bytes, k: Bytes, tail: Bytes)
    requires !(p <= k)
    ensures Less(k, p + tail) <==> Less(k, p)
    ensures !(p + tail <= k)
  {
    if k != [] && k[0] == p[0] {
      assert (p + tail)[1..] == p[1..] + tail;
      assert p == [p[0]] + p[1..] && k == [k[0]] + k[1..];
      PrefixDecides(p[1..], k[1..], tail);
    }
  }

  /** `begins_with` as an interval: a key is in it exactly when it has the prefix, also for prefixes of 0xFF only. */
  lemma BeginsWithInterval(prefix: Bytes, k: Bytes)
    ensures prefix <= k <==> AtMost(prefix, k) && (SuccessorOf(prefix).Some? ==> Less(k, SuccessorOf(prefix).value))
  {
    SuccessorIsExact(prefix, k);
    if prefix <= k {
      PrefixIsAtMost(prefix, k);
    }
  }

  /** The successor is the least strict upper bound of the keys with the prefix. Without one, no key is such a bound. */
  lemma SuccessorIsLeast(prefix: Bytes, bound: Bytes)
    requires forall k :: prefix <= k ==> Less(k, bound)
    ensures SuccessorOf(prefix).Some? && AtMost(SuccessorOf(prefix).value, bound)
  {
    SuccessorIsExact(prefix, bound);
    assert prefix <= prefix;
    if Less(bound, prefix) {
      LessIsAsymmetric(prefix, bound);
    }
    if prefix <= bound {
      LessIrreflexive(bound);
    }
  }

  // ─── separators ─────────────────────────────────────────────────────────────

  /** The shortest key above `lo` and at or below `hi`. */
  method ShortestSeparator(lo: Bytes, hi: Bytes) returns (r: Bytes)
    requires Less(lo, hi)
    ensures Less(lo, r) && AtMost(r, hi)
    ensures r <= hi
    ensures forall x :: Less(lo, x) && AtMost(x, hi) ==> |r| <= |x|
  {
    var minLen := if |lo| <= |hi| then |lo| else |hi|;
    for i := 0 to minLen
      invariant lo[..i] == hi[..i]
    {
      if lo[i] != hi[i] {
        if hi[i] < lo[i] {
          FirstDifference(hi, lo, i);
          LessIsAsymmetric(lo, hi);
        }
        r := hi[..i + 1];
        FirstDifference(lo, r, i);
        PrefixIsAtMost(r, hi);
        SeparatorIsShortest(lo, hi, i);
        return;
      }
    }
    if |hi| <= |lo| {
      assert hi == hi[..minLen] == lo[..minLen];
      PrefixIsAtMost(hi, lo);
    }
    assert lo == lo[..minLen] == hi[..minLen];
    r := hi[..|lo| + 1];
    PrefixIsAtMost(lo, r);
    PrefixIsAtMost(r, hi);
    SeparatorIsShortest(lo, hi, |lo|);
  }

  /** A key between `lo` and `hi` has their common prefix and at least one byte more. */
  lemma {:induction false} SeparatorIsShortest(lo: Bytes, hi: Bytes, i: nat)
    requires i <= |lo| && i <= |hi| && lo[..i] == hi[..i]
    ensures forall x :: Less(lo, x) && AtMost(x, hi) ==> i + 1 <= |x|
  {
    forall x | Less(lo, x) && AtMost(x, hi) ensures i + 1 <= |x| {
      LessIsAsymmetric(lo, x);
      BetweenHasPrefix(lo, hi, x, i);
      if |x| <= i {
        assert x == lo[..i];
        PrefixIsAtMost(x, lo);
      }
    }
  }

  lemma {:induction false} BetweenHasPrefix(lo: Bytes, hi: Bytes, x: Bytes, i: nat)
    requires i <= |lo| && i <= |hi| && lo[..i] == hi[..i]
    requires AtMost(lo, x) && AtMost(x, hi)
    ensures lo[..i] <= x
  {
    if i > 0 {
      assert x != [] && x[0] == lo[0] == hi[0];
      assert lo[1..][..i - 1] == lo[..i][1..] == hi[..i][1..] == hi[1..][..i - 1];
      BetweenHasPrefix(lo[1..], hi[1..], x[1..], i - 1);
      assert lo[..i] == [lo[0]] + lo[1..][..i - 1];
    }
  }

  // ─── composite keys ─────────────────────────────────────────────────────────

  /** The order of a position inside one routing hash: the hash key, and then the sort key. */
  predicate CompositeLess(a: ItemKey, b: ItemKey) {
    Less(a.hk, b.hk) || (a.hk == b.hk && Less(a.sk, b.sk))
  }

  predicate CompositeAtMost(a: ItemKey, b: ItemKey) {
    !CompositeLess(b, a)
  }

  lemma CompositeIsTotalOrder(a: ItemKey, b: ItemKey, c: ItemKey)
    ensures !CompositeLess(a, a)
    ensures CompositeLess(a, b) || a == b || CompositeLess(b, a)
    ensures CompositeLess(a, b) && CompositeLess(b, c) ==> CompositeLess(a, c)
    ensures CompositeLess(a, b) ==> !CompositeLess(b, a)
  {
    LessIrreflexive(a.hk);
    LessIrreflexive(a.sk);
    LessIsTotal(a.hk, b.hk);
    LessIsTotal(a.sk, b.sk);
    if Less(a.hk, b.hk) {
      LessIsAsymmetric(a.hk, b.hk);
    }
    if Less(a.sk, b.sk) {
      LessIsAsymmetric(a.sk, b.sk);
    }
    if Less(a.hk, b.hk) && Less(b.hk, c.hk) {
      LessIsTransitive(a.hk, b.hk, c.hk);
    }
    if Less(a.sk, b.sk) && Less(b.sk, c.sk) {
      LessIsTransitive(a.sk, b.sk, c.sk);
    }
  }

  /** `compositeInInterval`: `[start, end)`, where a missing edge is unbounded. */
  predicate InComposite(key: ItemKey, start: Option<ItemKey>, end: Option<ItemKey>) {
    (start.None? || CompositeAtMost(start.value, key)) && (end.None? || CompositeLess(key, end.value))
  }

  /** A boundary above `prev` and at or below `cur`, with the shortest hash key, or the shortest sort key of one hash key. */
  method ShortestCompositeSeparator(prev: ItemKey, cur: ItemKey) returns (r: ItemKey)
    requires CompositeLess(prev, cur)
    ensures CompositeLess(prev, r) && CompositeAtMost(r, cur)
    ensures prev.hk != cur.hk ==> r.sk == [] && forall x :: Less(prev.hk, x) && AtMost(x, cur.hk) ==> |r.hk| <= |x|
    ensures prev.hk == cur.hk ==> r.hk == cur.hk && forall x :: Less(prev.sk, x) && AtMost(x, cur.sk) ==> |r.sk| <= |x|
  {
    LessIrreflexive(prev.hk);
    var c := Compare(prev.hk, cur.hk);
    if c != 0 {
      var s := ShortestSeparator(prev.hk, cur.hk);
      return ItemKey(s, []);
    }
    var s := ShortestSeparator(prev.sk, cur.sk);
    return ItemKey(cur.hk, s);
  }
}
