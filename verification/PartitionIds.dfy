/** Partition IDs and DO names of hash and range partitions. */
module PartitionIds {
  import opened Bytes
  import opened Utf8
  import opened RangeNames
  import opened RoutingHash

  // ─── DO names ───────────────────────────────────────────────────────────────

  /** A partition of a shard group. */
  datatype Node = HashNode(root: nat, path: seq<nat>) | RangeNode(routingHash: Bytes, start: Option<ItemKey>, end: Option<ItemKey>)

  function Decimal(n: nat): Name {
    if n < 10 then [0x30 + n] else Decimal(n / 10) + [0x30 + n % 10]
  }

  function LowHexDigit(n: int): CodePoint
    requires 0 <= n < 16
  {
    if n < 10 then 0x30 + n else 0x61 + n - 10
  }

  function Hex(bytes: Bytes): Name {
    if bytes == [] then [] else [LowHexDigit(bytes[0] / 16), LowHexDigit(bytes[0] % 16)] + Hex(bytes[1..])
  }

  const MIN: Name := [TILDE, 0x6d, 0x69, 0x6e]
  const MAX: Name := [TILDE, 0x6d, 0x61, 0x78]

  /** `rangeBoundaryName`, as the components between the dots. */
  function Boundary(b64: Bytes -> Name, b: Option<ItemKey>, unbounded: Name): seq<Name> {
    if b.None? then [unbounded] else [EncodeComponent(b64, b.value.hk), EncodeComponent(b64, b.value.sk)]
  }

  function Decimals(path: seq<nat>): seq<Name> {
    if path == [] then [] else [Decimal(path[0])] + Decimals(path[1..])
  }

  /** The parts of a name after its shard group, between the dots. */
  function Parts(b64: Bytes -> Name, n: Node): (parts: seq<Name>)
    ensures parts != []
  {
    match n
    case HashNode(root, path) => [[0x68], Decimal(root)] + Decimals(path)
    case RangeNode(routingHash, start, end) => [[0x72], Hex(routingHash)] + Boundary(b64, start, MIN) + Boundary(b64, end, MAX)
  }

  function DoName(b64: Bytes -> Name, group: Name, n: Node): Name {
    group + [TILDE] + Join(Parts(b64, n))
  }

  lemma {:induction false} DecimalShape(n: nat)
    ensures Decimal(n) != [] && forall c :: c in Decimal(n) ==> 0x30 <= c <= 0x39
  {
    if n >= 10 {
      DecimalShape(n / 10);
    }
  }

  lemma {:induction false} DecimalIsInjective(a: nat, b: nat)
    requires Decimal(a) == Decimal(b)
    ensures a == b
  {
    DecimalShape(a / 10);
    DecimalShape(b / 10);
    var x, y := Decimal(a), Decimal(b);
    assert x[|x| - 1] == 0x30 + a % 10 && y[|y| - 1] == 0x30 + b % 10;
    if a >= 10 && b >= 10 {
      assert x[..|x| - 1] == Decimal(a / 10) && y[..|y| - 1] == Decimal(b / 10);
      DecimalIsInjective(a / 10, b / 10);
    }
  }

  lemma {:induction false} DecimalsAreInjective(a: seq<nat>, b: seq<nat>)
    requires Decimals(a) == Decimals(b)
    ensures a == b
  {
    if a != [] && b != [] {
      assert Decimals(a)[0] == Decimals(b)[0] && Decimals(a)[1..] == Decimals(a[1..]) && Decimals(b)[1..] == Decimals(b[1..]);
      DecimalIsInjective(a[0], b[0]);
      DecimalsAreInjective(a[1..], b[1..]);
      assert a == [a[0]] + a[1..] && b == [b[0]] + b[1..];
    }
  }

  lemma {:induction false} DecimalsAreDotFree(path: seq<nat>)
    ensures DotFree(Decimals(path))
  {
    if path != [] {
      DecimalShape(path[0]);
      DecimalsAreDotFree(path[1..]);
      forall i | 0 <= i < |Decimals(path)| ensures DOT !in Decimals(path)[i] {
        assert i > 0 ==> Decimals(path)[i] == Decimals(path[1..])[i - 1];
      }
    }
  }

  lemma {:induction false} HexShape(bytes: Bytes)
    ensures |Hex(bytes)| == 2 * |bytes| && DOT !in Hex(bytes)
  {
    if bytes != [] {
      HexShape(bytes[1..]);
    }
  }

  lemma {:induction false} HexIsInjective(a: Bytes, b: Bytes)
    requires Hex(a) == Hex(b)
    ensures a == b
  {
    HexShape(a);
    HexShape(b);
    if a != [] {
      assert Hex(a)[0] == Hex(b)[0] && Hex(a)[1] == Hex(b)[1];
      assert a[0] / 16 == b[0] / 16 && a[0] % 16 == b[0] % 16;
      assert Hex(a)[2..] == Hex(a[1..]) && Hex(b)[2..] == Hex(b[1..]);
      HexIsInjective(a[1..], b[1..]);
      assert a == [a[0]] + a[1..] && b == [b[0]] + b[1..];
    }
  }

  lemma PartsAreDotFree(b64: Bytes -> Name, n: Node)
    requires IsBase64(b64)
    ensures DotFree(Parts(b64, n))
  {
    match n
    case HashNode(root, path) =>
      DecimalShape(root);
      DecimalsAreDotFree(path);
    case RangeNode(routingHash, start, end) =>
      HexShape(routingHash);
      BoundaryIsDotFree(b64, start, MIN);
      BoundaryIsDotFree(b64, end, MAX);
  }

  lemma BoundaryIsDotFree(b64: Bytes -> Name, b: Option<ItemKey>, unbounded: Name)
    requires IsBase64(b64) && DOT !in unbounded
    ensures DotFree(Boundary(b64, b, unbounded))
  {
    if b.Some? {
      ComponentShape(b64, b.value.hk);
      ComponentShape(b64, b.value.sk);
    }
  }

  /** The components of two edges tell how many each edge has, because no component starts as a sentinel does. */
  lemma BoundariesAreInjective(b64: Bytes -> Name, s: Option<ItemKey>, e: Option<ItemKey>, s': Option<ItemKey>, e': Option<ItemKey>)
    requires IsBase64(b64)
    requires Boundary(b64, s, MIN) + Boundary(b64, e, MAX) == Boundary(b64, s', MIN) + Boundary(b64, e', MAX)
    ensures s == s' && e == e'
  {
    var x, y := Boundary(b64, s, MIN) + Boundary(b64, e, MAX), Boundary(b64, s', MIN) + Boundary(b64, e', MAX);
    assert StartsSentinel(MIN);
    assert s.None? <==> StartsSentinel(x[0]) by { FirstComponent(b64, s, e); }
    assert s'.None? <==> StartsSentinel(y[0]) by { FirstComponent(b64, s', e'); }
    assert |Boundary(b64, s, MIN)| == |Boundary(b64, s', MIN)|;
    SplitEqual(Boundary(b64, s, MIN), Boundary(b64, e, MAX), Boundary(b64, s', MIN), Boundary(b64, e', MAX));
    BoundaryIsInjective(b64, s, s', MIN);
    BoundaryIsInjective(b64, e, e', MAX);
  }

  lemma FirstComponent(b64: Bytes -> Name, s: Option<ItemKey>, e: Option<ItemKey>)
    requires IsBase64(b64)
    ensures s.None? <==> StartsSentinel((Boundary(b64, s, MIN) + Boundary(b64, e, MAX))[0])
  {
    if s.Some? {
      ComponentIsNoSentinel(b64, s.value.hk);
    }
  }

  lemma SplitEqual<T>(a: seq<T>, x: seq<T>, b: seq<T>, y: seq<T>)
    requires |a| == |b| && a + x == b + y
    ensures a == b && x == y
  {
    assert a == (a + x)[..|a|] && b == (b + y)[..|b|] && x == (a + x)[|a|..] && y == (b + y)[|b|..];
  }

  lemma BoundaryIsInjective(b64: Bytes -> Name, a: Option<ItemKey>, b: Option<ItemKey>, unbounded: Name)
    requires IsBase64(b64) && Boundary(b64, a, unbounded) == Boundary(b64, b, unbounded)
    ensures a == b
  {
    if a.Some? && b.Some? {
      assert Boundary(b64, a, unbounded)[0] == Boundary(b64, b, unbounded)[0] && Boundary(b64, a, unbounded)[1] == Boundary(b64, b, unbounded)[1];
      ComponentIsInjective(b64, a.value.hk, b.value.hk);
      ComponentIsInjective(b64, a.value.sk, b.value.sk);
    } else {
      assert |Boundary(b64, a, unbounded)| == |Boundary(b64, b, unbounded)|;
    }
  }

  lemma PartsAreInjective(b64: Bytes -> Name, a: Node, b: Node)
    requires IsBase64(b64) && Parts(b64, a) == Parts(b64, b)
    ensures a == b
  {
    assert Parts(b64, a)[0] == Parts(b64, b)[0] && Parts(b64, a)[1] == Parts(b64, b)[1];
    if a.HashNode? && b.HashNode? {
      DecimalIsInjective(a.root, b.root);
      assert Parts(b64, a)[2..] == Decimals(a.path) && Parts(b64, b)[2..] == Decimals(b.path);
      DecimalsAreInjective(a.path, b.path);
    } else if a.RangeNode? && b.RangeNode? {
      HexIsInjective(a.routingHash, b.routingHash);
      assert Parts(b64, a)[2..] == Boundary(b64, a.start, MIN) + Boundary(b64, a.end, MAX);
      assert Parts(b64, b)[2..] == Boundary(b64, b.start, MIN) + Boundary(b64, b.end, MAX);
      BoundariesAreInjective(b64, a.start, a.end, b.start, b.end);
    }
  }

  /** A DO name names one partition of one shard group. */
  lemma DoNameIsInjective(b64: Bytes -> Name, group: Name, a: Node, group': Name, b: Node)
    requires IsBase64(b64) && TILDE !in group && TILDE !in group' && DoName(b64, group, a) == DoName(b64, group', b)
    ensures group == group' && a == b
  {
    hide Parts, Join;
    SplitAtMark(group, Join(Parts(b64, a)), group', Join(Parts(b64, b)), TILDE);
    PartsAreDotFree(b64, a);
    PartsAreDotFree(b64, b);
    JoinIsInjective(Parts(b64, a), Parts(b64, b));
    PartsAreInjective(b64, a, b);
  }

  // ─── the bytes of a range ID ────────────────────────────────────────────────

  const SCHEMA_RANGE_V1: byte := 1
  const RANGE_FIRST_LEN := 9
  const TWO_32: int := 0x1_0000_0000

  function U32(v: nat): Bytes
    requires v < TWO_32
  {
    [v % 256, v / 256 % 256, v / 65536 % 256, v / 16777216 % 256]
  }

  function ReadU32(b: Bytes): nat
    requires |b| >= 4
  {
    var b0: int, b1: int, b2: int, b3: int := b[0], b[1], b[2], b[3];
    b0 + b1 * 256 + b2 * 65536 + b3 * 16777216
  }

  predicate FitsU32(b: Option<ItemKey>) {
    b.Some? ==> |b.value.hk| < TWO_32 && |b.value.sk| < TWO_32
  }

  function BoundaryBytes(b: Option<ItemKey>): Bytes
    requires FitsU32(b)
  {
    if b.None? then [] else U32(|b.value.hk|) + U32(|b.value.sk|) + b.value.hk + b.value.sk
  }

  function Flags(start: Option<ItemKey>, end: Option<ItemKey>): byte {
    (if start.Some? then 1 else 0) + (if end.Some? then 2 else 0)
  }

  function RangeBytes(routingHash: Bytes, start: Option<ItemKey>, end: Option<ItemKey>): Bytes
    requires |routingHash| == 8 && FitsU32(start) && FitsU32(end)
  {
    [SCHEMA_RANGE_V1, Flags(start, end)] + routingHash + BoundaryBytes(start) + BoundaryBytes(end)
  }

  datatype Decoded =
    | Range(routingHash: Bytes, start: Option<ItemKey>, end: Option<ItemKey>)
    | UnsupportedSchema | TooShort | InvalidFlags | BoundaryTooShort | InconsistentLength | BytesAfterBoundaries

  datatype Read = Read(boundary: ItemKey, rest: Bytes) | ShortHeader | BadLength

  /** `readBoundary`, from the bytes that are left. */
  function ReadBoundary(bytes: Bytes): Read {
    if |bytes| < 8 then ShortHeader
    else
      var hk, sk := ReadU32(bytes), ReadU32(bytes[4..]);
      if 8 + hk + sk > |bytes| then BadLength
      else Read.Read(ItemKey(bytes[8..8 + hk], bytes[8 + hk..8 + hk + sk]), bytes[8 + hk + sk..])
  }

  function ReadError(r: Read): Decoded
    requires !r.Read?
  {
    if r.ShortHeader? then BoundaryTooShort else InconsistentLength
  }

  /** `decode` of a range ID. */
  function DecodeRange(bytes: Bytes): Decoded {
    if bytes == [] || bytes[0] != SCHEMA_RANGE_V1 then UnsupportedSchema
    else if |bytes| < 1 + RANGE_FIRST_LEN then TooShort
    else if bytes[1] > 3 then InvalidFlags
    else
      var hash, second := bytes[2..10], bytes[10..];
      var first := if bytes[1] % 2 == 1 then ReadBoundary(second) else Read.Read(ItemKey([], []), second);
      if !first.Read? then ReadError(first)
      else
        var last := if bytes[1] >= 2 then ReadBoundary(first.rest) else Read.Read(ItemKey([], []), first.rest);
        if !last.Read? then ReadError(last)
        else if last.rest != [] then BytesAfterBoundaries
        else Range(hash, if bytes[1] % 2 == 1 then Some(first.boundary) else None, if bytes[1] >= 2 then Some(last.boundary) else None)
  }

  lemma U32RoundTrip(v: nat, rest: Bytes)
    requires v < TWO_32
    ensures ReadU32(U32(v) + rest) == v
  {
    var a, b, c := v / 256, v / 256 / 256, v / 256 / 256 / 256;
    assert v == 256 * a + v % 256 && a == 256 * b + a % 256 && b == 256 * c + b % 256;
    assert v / 65536 == b && v / 16777216 == c && c % 256 == c;
    var bytes := U32(v) + rest;
    assert bytes[0] == v % 256 && bytes[1] == a % 256 && bytes[2] == b % 256 && bytes[3] == c;
  }

  lemma ReadU32RoundTrip(b: Bytes)
    requires |b| >= 4
    ensures ReadU32(b) < TWO_32 && U32(ReadU32(b)) == b[..4]
  {
    DigitsOf(b[0], b[1], b[2], b[3]);
    assert b[..4] == [b[0], b[1], b[2], b[3]];
  }

  lemma LowDigit(digit: int, rest: int)
    requires 0 <= digit < 256 && 0 <= rest
    ensures (digit + rest * 256) % 256 == digit && (digit + rest * 256) / 256 == rest
  {
  }

  /** The digits of a number, from the lowest one. */
  lemma DigitsOf(b0: byte, b1: byte, b2: byte, b3: byte)
    ensures var v: int := b0 + b1 * 256 + b2 * 65536 + b3 * 16777216;
            && 0 <= v < TWO_32 && v % 256 == b0 && v / 256 % 256 == b1 && v / 65536 % 256 == b2 && v / 16777216 % 256 == b3
  {
    var c1: int := b1 + b2 * 256 + b3 * 65536;
    var c2: int := b2 + b3 * 256;
    LowDigit(b0, c1);
    LowDigit(b1, c2);
    LowDigit(b2, b3);
    var v: int := b0 + c1 * 256;
    assert v / 65536 == v / 256 / 256 && v / 16777216 == v / 256 / 256 / 256;
  }

  lemma BoundaryRoundTrip(k: ItemKey, rest: Bytes)
    requires FitsU32(Some(k))
    ensures ReadBoundary(BoundaryBytes(Some(k)) + rest) == Read.Read(k, rest)
  {
    hide U32, ReadU32;
    var h, s := |k.hk|, |k.sk|;
    var bytes := BoundaryBytes(Some(k)) + rest;
    assert |U32(h)| == 4 && |U32(s)| == 4 by { U32Length(h); U32Length(s); }
    assert bytes == U32(h) + (U32(s) + k.hk + k.sk + rest) && bytes[4..] == U32(s) + (k.hk + k.sk + rest);
    U32RoundTrip(h, U32(s) + k.hk + k.sk + rest);
    U32RoundTrip(s, k.hk + k.sk + rest);
    assert bytes[8..8 + h] == k.hk && bytes[8 + h..8 + h + s] == k.sk && bytes[8 + h + s..] == rest;
  }

  lemma U32Length(v: nat)
    requires v < TWO_32
    ensures |U32(v)| == 4
  {
  }

  /** The bytes of a range ID decode back to what was encoded. */
  lemma RangeBytesRoundTrip(routingHash: Bytes, start: Option<ItemKey>, end: Option<ItemKey>)
    requires |routingHash| == 8 && FitsU32(start) && FitsU32(end)
    ensures DecodeRange(RangeBytes(routingHash, start, end)) == Range(routingHash, start, end)
  {
    hide ReadBoundary, BoundaryBytes;
    var bytes := RangeBytes(routingHash, start, end);
    var second := BoundaryBytes(start) + BoundaryBytes(end);
    assert bytes[2..10] == routingHash && bytes[10..] == second;
    assert BoundaryBytes(None) == [] by { NoBoundaryBytes(); }
    assert BoundaryBytes(end) + [] == BoundaryBytes(end) && [] + BoundaryBytes(end) == BoundaryBytes(end);
    if start.Some? {
      BoundaryRoundTrip(start.value, BoundaryBytes(end));
    }
    if end.Some? {
      BoundaryRoundTrip(end.value, []);
    }
  }

  lemma NoBoundaryBytes()
    ensures BoundaryBytes(None) == []
  {
  }

  lemma ReadBoundaryIsCanonical(bytes: Bytes)
    requires ReadBoundary(bytes).Read?
    ensures var r := ReadBoundary(bytes); FitsU32(Some(r.boundary)) && bytes == BoundaryBytes(Some(r.boundary)) + r.rest
  {
    hide U32, ReadU32;
    ReadU32RoundTrip(bytes);
    ReadU32RoundTrip(bytes[4..]);
    var hk, sk := ReadU32(bytes), ReadU32(bytes[4..]);
    assert bytes == bytes[..4] + bytes[4..][..4] + bytes[8..8 + hk] + bytes[8 + hk..8 + hk + sk] + bytes[8 + hk + sk..];
  }

  /** Only the bytes of a range decode to it: the ID is canonical. */
  lemma DecodeRangeIsCanonical(bytes: Bytes)
    requires DecodeRange(bytes).Range?
    ensures var d := DecodeRange(bytes);
            |d.routingHash| == 8 && FitsU32(d.start) && FitsU32(d.end) && RangeBytes(d.routingHash, d.start, d.end) == bytes
  {
    hide ReadBoundary, BoundaryBytes;
    NoBoundaryBytes();
    var second := bytes[10..];
    var rest := second;
    if bytes[1] % 2 == 1 {
      ReadBoundaryIsCanonical(second);
      rest := ReadBoundary(second).rest;
    }
    if bytes[1] >= 2 {
      ReadBoundaryIsCanonical(rest);
    }
    var d := DecodeRange(bytes);
    assert second == BoundaryBytes(d.start) + BoundaryBytes(d.end);
    assert bytes == [bytes[0], bytes[1]] + bytes[2..10] + second;
  }

  function Splice(s: Bytes, offset: nat, x: Bytes): Bytes
    requires offset + |x| <= |s|
  {
    s[..offset] + x + s[offset + |x|..]
  }

  lemma SpliceTwice(s: Bytes, offset: nat, x: Bytes, y: Bytes)
    requires offset + |x| + |y| <= |s|
    ensures Splice(Splice(s, offset, x), offset + |x|, y) == Splice(s, offset, x + y)
  {
    var t := Splice(s, offset, x);
    assert t[..offset + |x|] == s[..offset] + x && t[offset + |x| + |y|..] == s[offset + |x + y|..];
    assert s[..offset] + x + y == s[..offset] + (x + y);
  }

  method WriteU32(bytes: array<byte>, offset: nat, value: nat)
    requires offset + 4 <= bytes.Length && value < TWO_32
    modifies bytes
    ensures bytes[..] == Splice(old(bytes[..]), offset, U32(value))
  {
    bytes[offset] := value % 256;
    bytes[offset + 1] := value / 256 % 256;
    bytes[offset + 2] := value / 65536 % 256;
    bytes[offset + 3] := value / 16777216 % 256;
  }

  /** `bytes.set(source, offset)`. */
  method CopyBytes(bytes: array<byte>, offset: nat, source: Bytes)
    requires offset + |source| <= bytes.Length
    modifies bytes
    ensures bytes[..] == Splice(old(bytes[..]), offset, source)
  {
    for i := 0 to |source|
      invariant forall j :: 0 <= j < bytes.Length ==>
        bytes[j] == if offset <= j < offset + i then source[j - offset] else old(bytes[j])
    {
      bytes[offset + i] := source[i];
    }
  }

  /** `writeBoundary`: the boundary at `offset`, and the offset after it. */
  method WriteBoundary(bytes: array<byte>, offset: nat, b: Option<ItemKey>) returns (next: nat)
    requires FitsU32(b) && offset + |BoundaryBytes(b)| <= bytes.Length
    modifies bytes
    ensures next == offset + |BoundaryBytes(b)|
    ensures bytes[..] == Splice(old(bytes[..]), offset, BoundaryBytes(b))
  {
    if b.None? {
      return offset;
    }
    hide U32, Splice;
    var hk, sk := b.value.hk, b.value.sk;
    U32Length(|hk|);
    U32Length(|sk|);
    ghost var s := bytes[..];
    SpliceTwice(s, offset, U32(|hk|), U32(|sk|));
    SpliceTwice(s, offset, U32(|hk|) + U32(|sk|), hk);
    SpliceTwice(s, offset, U32(|hk|) + U32(|sk|) + hk, sk);
    WriteU32(bytes, offset, |hk|);
    WriteU32(bytes, offset + 4, |sk|);
    CopyBytes(bytes, offset + 8, hk);
    CopyBytes(bytes, offset + 8 + |hk|, sk);
    return offset + 8 + |hk| + |sk|;
  }

  /** `encodeRangeBytes`, into one buffer of the exact size. */
  method EncodeRangeBytes(routingHash: Bytes, start: Option<ItemKey>, end: Option<ItemKey>) returns (bytes: array<byte>)
    requires |routingHash| == 8 && FitsU32(start) && FitsU32(end)
    ensures fresh(bytes) && bytes[..] == RangeBytes(routingHash, start, end)
  {
    var split := 1 + RANGE_FIRST_LEN;
    bytes := new byte[split + |BoundaryBytes(start)| + |BoundaryBytes(end)|](_ => 0);
    bytes[0] := SCHEMA_RANGE_V1;
    bytes[1] := Flags(start, end);
    CopyBytes(bytes, 2, routingHash);
    assert bytes[..split] == [SCHEMA_RANGE_V1, Flags(start, end)] + routingHash;
    var middle := WriteBoundary(bytes, split, start);
    var done := WriteBoundary(bytes, middle, end);
    assert done == bytes.Length;
  }

  // ─── opaque IDs ─────────────────────────────────────────────────────────────

  /** What the fields of an ID can hold: a 16-bit root, 8-bit child indexes and depth, an 8-byte routingHash, 32-bit lengths. */
  predicate Encodable(n: Node) {
    match n
    case HashNode(root, path) => root <= 0xffff && |path| <= 0xff && AreBytes(path)
    case RangeNode(routingHash, start, end) => |routingHash| == 8 && FitsU32(start) && FitsU32(end)
  }

  predicate AreBytes(s: seq<nat>) {
    forall i :: 0 <= i < |s| ==> s[i] <= 0xff
  }

  /** The bytes of a hash ID before its depth. */
  function HashHead(root: nat): Bytes
    requires root <= 0xffff
  {
    [0, root / 256, root % 256]
  }

  const SCHEMA_HASH_V1_STR: Name := [0x30, 0x30]
  const SCHEMA_RANGE_V1_STR: Name := [0x30, 0x31]

  function PartitionId(b64: Bytes -> Name, n: Node): Name
    requires Encodable(n)
  {
    match n
    case HashNode(root, path) => Hex(HashHead(root)) + Hex([|path|]) + Hex(path)
    case RangeNode(routingHash, start, end) =>
      var bytes := RangeBytes(routingHash, start, end);
      SCHEMA_RANGE_V1_STR + b64(bytes[1..1 + RANGE_FIRST_LEN]) + [DOT] + b64(bytes[1 + RANGE_FIRST_LEN..])
  }

  lemma HashHeadIsInjective(a: nat, b: nat)
    requires a <= 0xffff && b <= 0xffff && HashHead(a) == HashHead(b)
    ensures a == b
  {
    assert HashHead(a)[1] == HashHead(b)[1] && HashHead(a)[2] == HashHead(b)[2];
  }

  lemma HashIdShape(b64: Bytes -> Name, root: nat, path: seq<nat>)
    requires Encodable(HashNode(root, path))
    ensures var id := PartitionId(b64, HashNode(root, path));
            && |id| == 8 + 2 * |path| && id[..2] == SCHEMA_HASH_V1_STR
            && id[..6] == Hex(HashHead(root)) && id[6..8] == Hex([|path|]) && id[8..] == Hex(path)
  {
    HashHeadHex(root);
    HexShape([|path|]);
    HexShape(path);
    hide Hex, HashHead;
    var id := PartitionId(b64, HashNode(root, path));
    assert id == Hex(HashHead(root)) + Hex([|path|]) + Hex(path);
  }

  lemma HashHeadHex(root: nat)
    requires root <= 0xffff
    ensures |Hex(HashHead(root))| == 6 && Hex(HashHead(root))[..2] == SCHEMA_HASH_V1_STR
  {
    HexShape(HashHead(root));
    assert Hex(HashHead(root))[0] == LowHexDigit(0) && Hex(HashHead(root))[1] == LowHexDigit(0);
  }

  lemma RangeIdShape(b64: Bytes -> Name, n: Node)
    requires Encodable(n) && n.RangeNode?
    ensures |PartitionId(b64, n)| >= 2 && PartitionId(b64, n)[..2] == SCHEMA_RANGE_V1_STR
  {
  }

  /** An ID names one partition, of a hash tree or of a range tree. */
  lemma PartitionIdIsInjective(b64: Bytes -> Name, a: Node, b: Node)
    requires IsBase64(b64) && Encodable(a) && Encodable(b) && PartitionId(b64, a) == PartitionId(b64, b)
    ensures a == b
  {
    hide PartitionId, Hex, HashHead;
    match (a, b)
    case (HashNode(root, path), HashNode(root', path')) =>
      HashIdShape(b64, root, path);
      HashIdShape(b64, root', path');
      HexIsInjective(HashHead(root), HashHead(root'));
      HashHeadIsInjective(root, root');
      HexIsInjective(path, path');
    case (RangeNode(_, _, _), RangeNode(_, _, _)) =>
      RangeIdIsInjective(b64, a, b);
    case (HashNode(root, path), RangeNode(_, _, _)) =>
      HashIdShape(b64, root, path);
      RangeIdShape(b64, b);
    case (RangeNode(_, _, _), HashNode(root, path)) =>
      HashIdShape(b64, root, path);
      RangeIdShape(b64, a);
  }

  lemma RangeIdIsInjective(b64: Bytes -> Name, a: Node, b: Node)
    requires IsBase64(b64) && Encodable(a) && Encodable(b) && a.RangeNode? && b.RangeNode? && PartitionId(b64, a) == PartitionId(b64, b)
    ensures a == b
  {
    hide RangeBytes;
    RangeBytesLength(a.routingHash, a.start, a.end);
    RangeBytesLength(b.routingHash, b.start, b.end);
    var x, y := RangeBytes(a.routingHash, a.start, a.end), RangeBytes(b.routingHash, b.start, b.end);
    var split := 1 + RANGE_FIRST_LEN;
    assert PartitionId(b64, a)[2..] == b64(x[1..split]) + [DOT] + b64(x[split..]);
    assert PartitionId(b64, b)[2..] == b64(y[1..split]) + [DOT] + b64(y[split..]);
    SplitAtMark(b64(x[1..split]), b64(x[split..]), b64(y[1..split]), b64(y[split..]), DOT);
    assert x == [x[0]] + x[1..split] + x[split..] && y == [y[0]] + y[1..split] + y[split..];
    RangeBytesRoundTrip(a.routingHash, a.start, a.end);
    RangeBytesRoundTrip(b.routingHash, b.start, b.end);
  }

  lemma RangeBytesLength(routingHash: Bytes, start: Option<ItemKey>, end: Option<ItemKey>)
    requires |routingHash| == 8 && FitsU32(start) && FitsU32(end)
    ensures var r := RangeBytes(routingHash, start, end); |r| >= 1 + RANGE_FIRST_LEN && r[0] == SCHEMA_RANGE_V1
  {
  }

  // ─── the IDs of hash partitions, made as text ───────────────────────────────

  lemma {:induction false} JoinOfAppend(parts: seq<Name>, last: Name)
    requires parts != []
    ensures Join(parts + [last]) == Join(parts) + [DOT] + last
  {
    if |parts| == 1 {
      assert (parts + [last])[1..] == [last];
    } else {
      assert (parts + [last])[1..] == parts[1..] + [last];
      JoinOfAppend(parts[1..], last);
    }
  }

  lemma {:induction false} DecimalsOfAppend(path: seq<nat>, idx: nat)
    ensures Decimals(path + [idx]) == Decimals(path) + [Decimal(idx)]
  {
    if path == [] {
      assert path + [idx] == [idx];
    } else {
      assert (path + [idx])[1..] == path[1..] + [idx];
      DecimalsOfAppend(path[1..], idx);
    }
  }

  lemma {:induction false} HexOfAppend(a: Bytes, b: byte)
    ensures Hex(a + [b]) == Hex(a) + Hex([b])
  {
    if a == [] {
      assert a + [b] == [b];
    } else {
      assert (a + [b])[1..] == a[1..] + [b];
      HexOfAppend(a[1..], b);
    }
  }

  /** The name of a child adds one component to the name of its parent. */
  lemma ChildName(b64: Bytes -> Name, group: Name, root: nat, path: seq<nat>, idx: nat)
    ensures DoName(b64, group, HashNode(root, path + [idx])) == DoName(b64, group, HashNode(root, path)) + [DOT] + Decimal(idx)
  {
    hide Join, Decimals, Decimal;
    DecimalsOfAppend(path, idx);
    var parts := Parts(b64, HashNode(root, path));
    assert Parts(b64, HashNode(root, path + [idx])) == parts + [Decimal(idx)];
    JoinOfAppend(parts, Decimal(idx));
  }

  lemma RootName(b64: Bytes -> Name, group: Name, root: nat)
    ensures DoName(b64, group, HashNode(root, [])) == group + [TILDE, 0x68, DOT] + Decimal(root)
  {
    var parts := Parts(b64, HashNode(root, []));
    assert parts == [[0x68], Decimal(root)] && parts[1..] == [Decimal(root)];
    assert Join(parts) == [0x68] + [DOT] + Decimal(root);
  }

  /** The name and the ID of a hash partition. */
  datatype Ref = Ref(doName: Name, partitionId: Name)

  function RefOf(b64: Bytes -> Name, group: Name, n: Node): Ref
    requires Encodable(n)
  {
    Ref(DoName(b64, group, n), PartitionId(b64, n))
  }

  /** The loop that `hashId` and `hashDescendantId` share: each child index adds to the name and to the ID. */
  method AddChildIdxs(doName: Name, id: Name, childIdxs: seq<nat>, ghost b64: Bytes -> Name, ghost group: Name, ghost root: nat, ghost path: seq<nat>)
    returns (r: Option<Ref>)
    requires root <= 0xffff && AreBytes(path) && |path| + |childIdxs| <= 0xff
    requires doName == DoName(b64, group, HashNode(root, path))
    requires id == Hex(HashHead(root)) + Hex([|path| + |childIdxs|]) + Hex(path)
    ensures r.Some? <==> AreBytes(childIdxs)
    ensures r.Some? ==> r.value == RefOf(b64, group, HashNode(root, path + childIdxs))
  {
    hide DoName, Hex, HashHead, Decimal;
    var name, childId := doName, id;
    ghost var head := Hex(HashHead(root)) + Hex([|path| + |childIdxs|]);
    assert path + childIdxs[..0] == path;
    for i := 0 to |childIdxs|
      invariant AreBytes(childIdxs[..i])
      invariant name == DoName(b64, group, HashNode(root, path + childIdxs[..i]))
      invariant childId == head + Hex(path + childIdxs[..i])
    {
      var idx := childIdxs[i];
      if idx > 0xff {
        return None;
      }
      var before := path + childIdxs[..i];
      assert path + childIdxs[..i + 1] == before + [idx];
      ChildName(b64, group, root, before, idx);
      HexOfAppend(before, idx);
      name := name + [DOT] + Decimal(idx);
      childId := childId + Hex([idx]);
    }
    assert childIdxs[..|childIdxs|] == childIdxs;
    return Some(Ref(name, childId));
  }

  /** `hashId`. */
  method HashId(group: Name, root: nat, childIdxs: seq<nat>, ghost b64: Bytes -> Name) returns (r: Option<Ref>)
    ensures r.Some? <==> Encodable(HashNode(root, childIdxs))
    ensures r.Some? <==> root < 0x1_0000 && |childIdxs| < 0x100 && forall i :: 0 <= i < |childIdxs| ==> childIdxs[i] < 0x100
    ensures r.Some? ==> r.value == RefOf(b64, group, HashNode(root, childIdxs))
  {
    hide Hex;
    if root > 0xffff || |childIdxs| > 0xff {
      return None;
    }
    RootName(b64, group, root);
    NoHex();
    assert [] + childIdxs == childIdxs;
    r := AddChildIdxs(group + [TILDE, 0x68, DOT] + Decimal(root), Hex(HashHead(root)) + Hex([|childIdxs|]), childIdxs, b64, group, root, []);
  }

  lemma NoHex()
    ensures Hex([]) == []
  {
  }

  /**
   * `hashDescendantId`, with the depth limit of the topology. It decodes nothing: it replaces the depth
   * of the parent ID, and adds to the name and to the ID of the parent.
   */
  method HashDescendantId(parent: Ref, limit: nat, childIdxs: seq<nat>, ghost b64: Bytes -> Name, ghost group: Name, ghost n: Node)
    returns (r: Option<Ref>)
    requires limit <= MAX_HASH_DEPTH
    requires Encodable(n) && parent == RefOf(b64, group, n)
    ensures r.Some? <==> n.HashNode? && |n.path| + |childIdxs| <= limit && AreBytes(childIdxs)
    ensures r.Some? ==> r.value == RefOf(b64, group, HashNode(n.root, n.path + childIdxs))
  {
    hide DoName, Hex, HashHead, PartitionId;
    if n.HashNode? {
      HashIdShape(b64, n.root, n.path);
    } else {
      RangeIdShape(b64, n);
    }
    var id := parent.partitionId;
    if id[..2] != SCHEMA_HASH_V1_STR || |id| % 2 != 0 || |id| < 8 || (|id| - 8) / 2 > 0xff || id[6..8] != Hex([(|id| - 8) / 2]) {
      return None;
    }
    var depth := (|id| - 8) / 2 + |childIdxs|;
    if depth > limit {
      return None;
    }
    r := AddChildIdxs(parent.doName, id[..6] + Hex([depth]) + id[8..], childIdxs, b64, group, n.root, n.path);
  }
}
