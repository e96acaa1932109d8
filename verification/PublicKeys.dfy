/** Keys as callers write them, text or binary, and their byte form. */
module PublicKeys {
  import opened Bytes
  import opened KeyCodec
  import opened Utf8

  datatype PublicKey = Text(points: Points) | Binary(bytes: Bytes)

  datatype EncodeResult = Encoded(bytes: Bytes) | EmptyKey | LoneSurrogate

  const BINARY_TAG: byte := 0xff

  const BYTE_ORDER_MARK: CodePoint := 0xfeff

  // ─── encode and decode ──────────────────────────────────────────────────────

  function Encode(k: PublicKey): EncodeResult {
    match k
    case Text(points) =>
      if points == [] then EmptyKey
      else if !WellFormed(points) then LoneSurrogate
      else Encoded(Utf8.Utf8(points))
    case Binary(bytes) => if bytes == [] then EmptyKey else Encoded([BINARY_TAG] + bytes)
  }

  predicate ValidKey(k: PublicKey) {
    Encode(k).Encoded?
  }

  function EncodedBytes(k: PublicKey): Bytes
    requires ValidKey(k)
  {
    Encode(k).bytes
  }

  /** `TextDecoder` without `ignoreBOM`: it removes one leading byte order mark. */
  function DecodeText(b: Bytes): Option<Points> {
    var s := FromUtf8(b);
    if s.Some? && s.value != [] && s.value[0] == BYTE_ORDER_MARK then Some(s.value[1..]) else s
  }

  function Decode(b: Bytes): Option<PublicKey> {
    if b != [] && b[0] == BINARY_TAG then Some(Binary(b[1..]))
    else
      var s := DecodeText(b);
      if s.Some? then Some(Text(s.value)) else None
  }

  lemma TextStartsBelowTag(points: Points)
    requires points != []
    ensures Utf8.Utf8(points) != [] && Utf8.Utf8(points)[0] < BINARY_TAG
  {
  }

  /** A key comes back from its bytes exactly when it is not a text that starts with a byte order mark. */
  lemma DecodeOfEncode(k: PublicKey)
    requires ValidKey(k)
    ensures Decode(EncodedBytes(k)) == Some(k) <==> !(k.Text? && k.points[0] == BYTE_ORDER_MARK)
  {
    if k.Text? {
      TextStartsBelowTag(k.points);
      FromUtf8IsInverse(k.points);
      if k.points[0] == BYTE_ORDER_MARK {
        assert |k.points[1..]| != |k.points|;
      }
    } else {
      assert ([BINARY_TAG] + k.bytes)[1..] == k.bytes;
    }
  }

  /** The text of a byte order mark and `a` decodes to `a`. */
  lemma ByteOrderMarkIsLost()
    ensures ValidKey(Text([BYTE_ORDER_MARK, 97])) && Decode(EncodedBytes(Text([BYTE_ORDER_MARK, 97]))) == Some(Text([97]))
  {
    FromUtf8IsInverse([BYTE_ORDER_MARK, 97]);
    TextStartsBelowTag([BYTE_ORDER_MARK, 97]);
  }

  /** Different keys have different bytes, and no key has the bytes of the absent key. */
  lemma EncodeIsInjective(a: PublicKey, b: PublicKey)
    requires ValidKey(a) && ValidKey(b) && EncodedBytes(a) == EncodedBytes(b)
    ensures a == b
    ensures EncodedBytes(a) != []
  {
    if a.Text? {
      TextStartsBelowTag(a.points);
      FromUtf8IsInverse(a.points);
    }
    if b.Text? {
      TextStartsBelowTag(b.points);
      FromUtf8IsInverse(b.points);
    }
    if a.Binary? && b.Binary? {
      assert ([BINARY_TAG] + a.bytes)[1..] == a.bytes && ([BINARY_TAG] + b.bytes)[1..] == b.bytes;
    }
  }

  // ─── the public successor ───────────────────────────────────────────────────

  predicate BeginsWith(k: PublicKey, prefix: PublicKey) {
    match prefix
    case Text(p) => k.Text? && p <= k.points
    case Binary(p) => k.Binary? && p <= k.bytes
  }

  function NextPoint(c: CodePoint): CodePoint
    requires c < 0x10ffff
  {
    if Surrogate(c + 1) then 0xe000 else c + 1
  }

  function PointsSuccessor(p: Points): Option<Points> {
    if p == [] then None
    else
      var last := |p| - 1;
      if p[last] < 0x10ffff then Some(p[..last] + [NextPoint(p[last])]) else PointsSuccessor(p[..last])
  }

  function PublicSuccessor(prefix: PublicKey): Option<PublicKey> {
    match prefix
    case Text(p) =>
      var r := PointsSuccessor(p);
      if r.Some? then Some(Text(r.value)) else None
    case Binary(p) =>
      var r := SuccessorOf(p);
      if r.Some? then Some(Binary(r.value)) else None
  }

  /** The loop over the code points, from the last one. */
  method FindPointsSuccessor(points: Points) returns (r: Option<Points>)
    ensures r == PointsSuccessor(points)
    ensures r.None? <==> forall i :: 0 <= i < |points| ==> points[i] == 0x10ffff
  {
    var i := |points| - 1;
    assert points[..i + 1] == points;
    while i >= 0
      invariant -1 <= i < |points|
      invariant forall j :: i < j < |points| ==> points[j] == 0x10ffff
      invariant PointsSuccessor(points) == PointsSuccessor(points[..i + 1])
    {
      assert points[..i + 1][..i] == points[..i];
      if points[i] < 0x10ffff {
        var next := points[i] + 1;
        if next >= 0xd800 && next <= 0xdfff {
          next := 0xe000;
        }
        return Some(points[..i] + [next]);
      }
      i := i - 1;
    }
    return None;
  }

  /** A string without surrogates is below the successor exactly when it is below the prefix or begins with it. */
  lemma {:induction false} PointsSuccessorIsExact(p: Points, k: Points)
    requires WellFormed(p) && WellFormed(k)
    ensures PointsSuccessor(p).Some? ==> WellFormed(PointsSuccessor(p).value) && PointsSuccessor(p).value != []
    ensures PointsSuccessor(p).Some? ==> (PointsLess(k, PointsSuccessor(p).value) <==> PointsLess(k, p) || p <= k)
    ensures PointsSuccessor(p).None? ==> PointsLess(k, p) || p <= k
  {
    if p != [] {
      var last := |p| - 1;
      var init := p[..last];
      assert p == init + [p[last]];
      if init <= k {
        assert k == init + k[last..];
        assert k[last..] != [] ==> k[last..][0] == k[last];
        PointsCommonPrefix(init, k[last..], [p[last]]);
        if p[last] < 0x10ffff {
          PointsCommonPrefix(init, k[last..], [NextPoint(p[last])]);
        }
      } else {
        PointsPrefixDecides(init, k, [p[last]]);
        if p[last] < 0x10ffff {
          PointsPrefixDecides(init, k, [NextPoint(p[last])]);
        }
      }
      if p[last] == 0x10ffff {
        PointsSuccessorIsExact(init, k);
      }
    }
  }

  lemma {:induction false} PointsCommonPrefix(p: Points, a: Points, b: Points)
    ensures PointsLess(p + a, p + b) <==> PointsLess(a, b)
  {
    if p == [] {
      assert p + a == a && p + b == b;
    } else {
      PointsCommonPrefix(p[1..], a, b);
      assert (p + a)[1..] == p[1..] + a && (p + b)[1..] == p[1..] + b;
    }
  }

  lemma {:induction false} PointsPrefixDecides(p: Points, k: Points, tail: Points)
    requires !(p <= k)
    ensures PointsLess(k, p + tail) <==> PointsLess(k, p)
    ensures !(p + tail <= k)
  {
    if k != [] && k[0] == p[0] {
      assert (p + tail)[1..] == p[1..] + tail;
      assert p == [p[0]] + p[1..] && k == [k[0]] + k[1..];
      PointsPrefixDecides(p[1..], k[1..], tail);
    }
  }

  /** The order of stored keys: the order of their bytes. */
  predicate KeyLess(a: PublicKey, b: PublicKey)
    requires ValidKey(a) && ValidKey(b)
  {
    Less(EncodedBytes(a), EncodedBytes(b))
  }

  /** Two texts sort by code points, two binary keys by bytes, and a text before a binary key. */
  lemma KeyOrder(a: PublicKey, b: PublicKey)
    requires ValidKey(a) && ValidKey(b)
    ensures KeyLess(a, b) <==>
      if a.Text? then b.Binary? || PointsLess(a.points, b.points) else b.Binary? && Less(a.bytes, b.bytes)
  {
    if a.Text? && b.Text? {
      Utf8KeepsOrder(a.points, b.points);
    } else if a.Binary? && b.Binary? {
      CommonPrefix([BINARY_TAG], a.bytes, b.bytes);
    } else if a.Text? {
      TextStartsBelowTag(a.points);
    } else {
      TextStartsBelowTag(b.points);
    }
  }

  /** The keys of the type of the prefix that sort before its successor are those before it and those that begin with it. */
  lemma PublicSuccessorIsExact(prefix: PublicKey, k: PublicKey)
    requires ValidKey(prefix) && ValidKey(k) && k.Text? == prefix.Text?
    ensures var s := PublicSuccessor(prefix);
            && (s.Some? ==> ValidKey(s.value) && s.value.Text? == prefix.Text?
                            && (KeyLess(k, s.value) <==> KeyLess(k, prefix) || BeginsWith(k, prefix)))
            && (s.None? ==> KeyLess(k, prefix) || BeginsWith(k, prefix))
  {
    KeyOrder(k, prefix);
    if prefix.Text? {
      PointsSuccessorIsExact(prefix.points, k.points);
    } else {
      SuccessorIsExact(prefix.bytes, k.bytes);
      SuccessorIsExact(prefix.bytes, []);
    }
    var s := PublicSuccessor(prefix);
    if s.Some? {
      KeyOrder(k, s.value);
    }
  }

  /** The successor is the least key of its type above every key that begins with the prefix. */
  lemma PublicSuccessorIsLeast(prefix: PublicKey, bound: PublicKey)
    requires ValidKey(prefix) && ValidKey(bound) && bound.Text? == prefix.Text?
    requires forall k :: ValidKey(k) && BeginsWith(k, prefix) ==> KeyLess(k, bound)
    ensures PublicSuccessor(prefix).Some? && ValidKey(PublicSuccessor(prefix).value)
    ensures !KeyLess(bound, PublicSuccessor(prefix).value)
  {
    assert BeginsWith(prefix, prefix);
    PublicSuccessorIsExact(prefix, bound);
    LessIsAsymmetric(EncodedBytes(prefix), EncodedBytes(bound));
    LessIrreflexive(EncodedBytes(bound));
  }

  // ─── the complement of a prefix ─────────────────────────────────────────────

  /** A sort-key condition of one sub-query. */
  datatype Condition = Below(value: PublicKey) | From(value: PublicKey)

  /** A stored sort key: absent, or a public key. The absent one is the empty byte string. */
  function StoredBytes(sk: Option<PublicKey>): Bytes
    requires sk.Some? ==> ValidKey(sk.value)
  {
    if sk.Some? then EncodedBytes(sk.value) else []
  }

  predicate Selects(c: Condition, sk: Option<PublicKey>)
    requires ValidKey(c.value) && (sk.Some? ==> ValidKey(sk.value))
  {
    if c.Below? then Less(StoredBytes(sk), EncodedBytes(c.value)) else AtMost(EncodedBytes(c.value), StoredBytes(sk))
  }

  /** `notBeginsWith` for a prefix that is not empty. */
  function NotBeginsWith(prefix: PublicKey, forward: bool): seq<Condition> {
    var s := PublicSuccessor(prefix);
    if s.None? then [Below(prefix)]
    else if forward then [Below(prefix), From(s.value)]
    else [From(s.value), Below(prefix)]
  }

  lemma SuccessorIsValid(prefix: PublicKey)
    requires ValidKey(prefix) && PublicSuccessor(prefix).Some?
    ensures ValidKey(PublicSuccessor(prefix).value) && PublicSuccessor(prefix).value.Text? == prefix.Text?
  {
    PublicSuccessorIsExact(prefix, prefix);
  }

  predicate SelectedBySome(prefix: PublicKey, forward: bool, sk: Option<PublicKey>)
    requires ValidKey(prefix) && (sk.Some? ==> ValidKey(sk.value))
  {
    var queries := NotBeginsWith(prefix, forward);
    if PublicSuccessor(prefix).Some? then
      SuccessorIsValid(prefix);
      Selects(queries[0], sk) || Selects(queries[1], sk)
    else Selects(queries[0], sk)
  }

  predicate StoredBeginsWith(sk: Option<PublicKey>, prefix: PublicKey) {
    sk.Some? && BeginsWith(sk.value, prefix)
  }

  /**
   * The sub-queries select the stored keys that do not begin with the prefix, except one family: under
   * a text of only U+10FFFF, which has no successor, the binary keys are lost.
   */
  lemma NotBeginsWithIsComplement(prefix: PublicKey, forward: bool, sk: Option<PublicKey>)
    requires ValidKey(prefix) && (sk.Some? ==> ValidKey(sk.value))
    ensures (SelectedBySome(prefix, forward, sk) <==> !StoredBeginsWith(sk, prefix))
              <==> !(prefix.Text? && PublicSuccessor(prefix).None? && sk.Some? && sk.value.Binary?)
  {
    EncodeIsInjective(prefix, prefix);
    var s := PublicSuccessor(prefix);
    if s.Some? {
      SuccessorIsValid(prefix);
      EncodeIsInjective(s.value, s.value);
    }
    if sk.Some? {
      KeyOrder(sk.value, prefix);
      KeyOrder(prefix, sk.value);
      if s.Some? {
        KeyOrder(sk.value, s.value);
      }
      if sk.value.Text? == prefix.Text? {
        PublicSuccessorIsExact(prefix, sk.value);
        if BeginsWith(sk.value, prefix) {
          BeginsIsNotBelow(prefix, sk.value);
        }
      }
    }
  }

  lemma BeginsIsNotBelow(prefix: PublicKey, k: PublicKey)
    requires ValidKey(prefix) && ValidKey(k) && BeginsWith(k, prefix)
    ensures !KeyLess(k, prefix)
  {
    if prefix.Text? {
      Utf8KeepsPrefix(prefix.points, k.points);
    } else {
      StripPrefix([BINARY_TAG], prefix.bytes, k.bytes);
    }
    PrefixIsAtMost(EncodedBytes(prefix), EncodedBytes(k));
  }

  /** A prefix has a successor unless it holds only the last code point, or only 0xFF. */
  lemma NoSuccessorFamily(prefix: PublicKey)
    ensures PublicSuccessor(prefix).None? <==>
      if prefix.Text? then forall i :: 0 <= i < |prefix.points| ==> prefix.points[i] == 0x10ffff
      else forall i :: 0 <= i < |prefix.bytes| ==> prefix.bytes[i] == 0xff
  {
    match prefix
    case Text(p) => NoPointsSuccessor(p);
    case Binary(p) => NoByteSuccessor(p);
  }

  lemma {:induction false} NoPointsSuccessor(p: Points)
    ensures PointsSuccessor(p).None? <==> forall i :: 0 <= i < |p| ==> p[i] == 0x10ffff
  {
    if p != [] && p[|p| - 1] == 0x10ffff {
      NoPointsSuccessor(p[..|p| - 1]);
    }
  }

  lemma {:induction false} NoByteSuccessor(p: Bytes)
    ensures SuccessorOf(p).None? <==> forall i :: 0 <= i < |p| ==> p[i] == 0xff
  {
    if p != [] && p[|p| - 1] == 0xff {
      NoByteSuccessor(p[..|p| - 1]);
    }
  }

  /** The keys that do not begin with U+10FFFF, without the binary key 0x61. */
  lemma BinaryKeyIsLost()
    ensures var prefix, sk := Text([0x10ffff]), Binary([0x61]);
            ValidKey(prefix) && ValidKey(sk) && !BeginsWith(sk, prefix) && !SelectedBySome(prefix, true, Some(sk))
  {
    NotBeginsWithIsComplement(Text([0x10ffff]), true, Some(Binary([0x61])));
    NoSuccessorFamily(Text([0x10ffff]));
  }

  /** The two sub-queries are in scan order: everything below the prefix sorts before everything from the successor. */
  lemma ComplementInScanOrder(prefix: PublicKey, low: Option<PublicKey>, high: Option<PublicKey>)
    requires ValidKey(prefix) && PublicSuccessor(prefix).Some?
    requires ValidKey(PublicSuccessor(prefix).value)
    requires (low.Some? ==> ValidKey(low.value)) && (high.Some? ==> ValidKey(high.value))
    requires Selects(Below(prefix), low) && Selects(From(PublicSuccessor(prefix).value), high)
    ensures Less(StoredBytes(low), StoredBytes(high))
    ensures forall forward :: NotBeginsWith(prefix, forward)
              == if forward then [Below(prefix), From(PublicSuccessor(prefix).value)] else [From(PublicSuccessor(prefix).value), Below(prefix)]
  {
    var s := PublicSuccessor(prefix).value;
    PublicSuccessorIsExact(prefix, prefix);
    assert BeginsWith(prefix, prefix);
    LessIsTransitive(StoredBytes(low), EncodedBytes(prefix), EncodedBytes(s));
    LessIsTotal(EncodedBytes(s), StoredBytes(high));
    if Less(EncodedBytes(s), StoredBytes(high)) {
      LessIsTransitive(StoredBytes(low), EncodedBytes(s), StoredBytes(high));
    }
  }
}
