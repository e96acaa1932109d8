/** UTF-8, section 3 of RFC 3629, and its byte order. */
module Utf8 {
  import opened Bytes
  import opened KeyCodec

  /** A code point, with the surrogates: a string that is not well-formed UTF-16 has one of these alone. */
  type CodePoint = x: int | 0 <= x <= 0x10ffff

  type Points = seq<CodePoint>

  predicate Surrogate(c: CodePoint) {
    0xd800 <= c <= 0xdfff
  }

  predicate WellFormed(s: Points) {
    forall i :: 0 <= i < |s| ==> !Surrogate(s[i])
  }

  /** The bytes of one code point: a lead byte, and six bits in each byte after it. */
  function Utf8Of(c: CodePoint): (r: Bytes)
    ensures 1 <= |r| <= 4
    ensures r[0] < 0xf5
  {
    if c < 0x80 then [c]
    else if c < 0x800 then [0xc0 + c / 64, 0x80 + c % 64]
    else if c < 0x10000 then [0xe0 + c / 64 / 64, 0x80 + c / 64 % 64, 0x80 + c % 64]
    else [0xf0 + c / 64 / 64 / 64, 0x80 + c / 64 / 64 % 64, 0x80 + c / 64 % 64, 0x80 + c % 64]
  }

  function Utf8(s: Points): Bytes {
    if s == [] then [] else Utf8Of(s[0]) + Utf8(s[1..])
  }

  // ─── the byte order is the code-point order ─────────────────────────────────

  predicate PointsLess(a: Points, b: Points) {
    b != [] && (a == [] || a[0] < b[0] || (a[0] == b[0] && PointsLess(a[1..], b[1..])))
  }

  /** `x` and `y` differ at a byte of both, and `x` has the lower one there. */
  ghost predicate Decided(x: Bytes, y: Bytes) {
    exists i :: 0 <= i < |x| && i < |y| && x[..i] == y[..i] && x[i] < y[i]
  }

  lemma DecidedAt(x: Bytes, y: Bytes, i: nat)
    requires i < |x| && i < |y| && x[i] < y[i] && forall j :: 0 <= j < i ==> x[j] == y[j]
    ensures Decided(x, y)
  {
    assert x[..i] == y[..i];
  }

  lemma SameLengthDecides(a: CodePoint, b: CodePoint)
    requires a < b && |Utf8Of(a)| == |Utf8Of(b)|
    ensures Decided(Utf8Of(a), Utf8Of(b))
  {
    var x, y := Utf8Of(a), Utf8Of(b);
    if x[0] != y[0] {
      DecidedAt(x, y, 0);
    } else if x[1] != y[1] {
      DecidedAt(x, y, 1);
    } else if x[2] != y[2] {
      DecidedAt(x, y, 2);
    } else {
      DecidedAt(x, y, 3);
    }
  }

  lemma PointDecides(a: CodePoint, b: CodePoint)
    requires a < b
    ensures Decided(Utf8Of(a), Utf8Of(b))
  {
    if |Utf8Of(a)| == |Utf8Of(b)| {
      SameLengthDecides(a, b);
    } else {
      DecidedAt(Utf8Of(a), Utf8Of(b), 0);
    }
  }

  lemma DecidedTails(x: Bytes, y: Bytes, s: Bytes, t: Bytes)
    requires Decided(x, y)
    ensures Less(x + s, y + t) && !(x + s <= y + t) && !(y + t <= x + s)
  {
    var i :| 0 <= i < |x| && i < |y| && x[..i] == y[..i] && x[i] < y[i];
    assert (x + s)[..i] == x[..i] && (y + t)[..i] == y[..i] && (x + s)[i] == x[i] && (y + t)[i] == y[i];
    FirstDifference(x + s, y + t, i);
  }

  /** Encoded strings sort in code-point order. */
  lemma {:induction false} Utf8KeepsOrder(a: Points, b: Points)
    ensures Less(Utf8(a), Utf8(b)) <==> PointsLess(a, b)
  {
    if a != [] && b != [] {
      if a[0] == b[0] {
        CommonPrefix(Utf8Of(a[0]), Utf8(a[1..]), Utf8(b[1..]));
        Utf8KeepsOrder(a[1..], b[1..]);
      } else if a[0] < b[0] {
        PointDecides(a[0], b[0]);
        DecidedTails(Utf8Of(a[0]), Utf8Of(b[0]), Utf8(a[1..]), Utf8(b[1..]));
      } else {
        PointDecides(b[0], a[0]);
        DecidedTails(Utf8Of(b[0]), Utf8Of(a[0]), Utf8(b[1..]), Utf8(a[1..]));
        LessIsAsymmetric(Utf8(b), Utf8(a));
      }
    }
  }

  /** An encoded string begins with another one exactly when the string does. */
  lemma {:induction false} Utf8KeepsPrefix(p: Points, s: Points)
    ensures Utf8(p) <= Utf8(s) <==> p <= s
  {
    if p != [] && s != [] {
      var x, y := Utf8Of(p[0]), Utf8Of(s[0]);
      if p[0] == s[0] {
        Utf8KeepsPrefix(p[1..], s[1..]);
        StripPrefix(x, Utf8(p[1..]), Utf8(s[1..]));
        assert p == [p[0]] + p[1..] && s == [s[0]] + s[1..];
        StripPrefix([p[0]], p[1..], s[1..]);
      } else if p[0] < s[0] {
        PointDecides(p[0], s[0]);
        DecidedTails(x, y, Utf8(p[1..]), Utf8(s[1..]));
      } else {
        PointDecides(s[0], p[0]);
        DecidedTails(y, x, Utf8(s[1..]), Utf8(p[1..]));
      }
    }
  }

  lemma StripPrefix<T>(x: seq<T>, a: seq<T>, b: seq<T>)
    ensures x + a <= x + b <==> a <= b
  {
    assert (x + a)[|x|..] == a && (x + b)[|x|..] == b;
    if x + a <= x + b {
      assert a == (x + b)[..|x + a|][|x|..] == b[..|a|];
    }
    if a <= b {
      assert x + b == (x + a) + b[|a|..];
    }
  }

  lemma {:induction false} Utf8OfAppend(a: Points, b: Points)
    ensures Utf8(a + b) == Utf8(a) + Utf8(b)
  {
    if a == [] {
      assert a + b == b;
    } else {
      assert (a + b)[0] == a[0] && (a + b)[1..] == a[1..] + b;
      Utf8OfAppend(a[1..], b);
    }
  }

  // ─── decoding ───────────────────────────────────────────────────────────────

  /** The value that the lead byte and the bytes after it give. */
  function LeadPoint(b: Bytes): int
    requires b != []
  {
    var b0: int := b[0];
    if b0 < 0x80 then b0
    else if b0 < 0xe0 then if |b| < 2 then -1 else TwoBytes(b0, b[1])
    else if b0 < 0xf0 then if |b| < 3 then -1 else ThreeBytes(b0, b[1], b[2])
    else if |b| < 4 then -1 else FourBytes(b0, b[1], b[2], b[3])
  }

  function TwoBytes(b0: int, b1: int): int {
    (b0 - 0xc0) * 64 + (b1 - 0x80)
  }

  function ThreeBytes(b0: int, b1: int, b2: int): int {
    ((b0 - 0xe0) * 64 + (b1 - 0x80)) * 64 + (b2 - 0x80)
  }

  function FourBytes(b0: int, b1: int, b2: int, b3: int): int {
    (((b0 - 0xf0) * 64 + (b1 - 0x80)) * 64 + (b2 - 0x80)) * 64 + (b3 - 0x80)
  }

  /** The code point that `b` begins with. Only its exact bytes are accepted. */
  function FirstPoint(b: Bytes): (r: Option<CodePoint>)
    ensures r.Some? ==> Utf8Of(r.value) <= b && !Surrogate(r.value)
  {
    if b == [] then None
    else
      var c := LeadPoint(b);
      if 0 <= c <= 0x10ffff && !Surrogate(c) && Utf8Of(c) <= b then Some(c) else None
  }

  /** The string of valid UTF-8, and nothing for any other bytes. */
  function FromUtf8(b: Bytes): Option<Points>
    decreases |b|
  {
    if b == [] then Some([])
    else
      var c := FirstPoint(b);
      if c.None? then None
      else
        var rest := FromUtf8(b[|Utf8Of(c.value)|..]);
        if rest.None? then None else Some([c.value] + rest.value)
  }

  lemma LeadPointOfUtf8(c: CodePoint, b: Bytes)
    requires Utf8Of(c) <= b
    ensures LeadPoint(b) == c
  {
    var r := Utf8Of(c);
    assert forall i :: 0 <= i < |r| ==> b[i] == r[i];
  }

  lemma FirstPointOfUtf8(c: CodePoint, tail: Bytes)
    requires !Surrogate(c)
    ensures FirstPoint(Utf8Of(c) + tail) == Some(c)
  {
    LeadPointOfUtf8(c, Utf8Of(c) + tail);
  }

  lemma DecodeOfEncoded(c: CodePoint, tail: Bytes)
    requires !Surrogate(c) && FromUtf8(tail).Some?
    ensures FromUtf8(Utf8Of(c) + tail) == Some([c] + FromUtf8(tail).value)
  {
    FirstPointOfUtf8(c, tail);
    hide Utf8Of, FirstPoint;
    assert (Utf8Of(c) + tail)[|Utf8Of(c)|..] == tail;
  }

  lemma EncodeStep(c: CodePoint, rest: Points)
    ensures Utf8([c] + rest) == Utf8Of(c) + Utf8(rest)
  {
    hide Utf8Of;
    assert ([c] + rest)[1..] == rest;
  }

  lemma NothingBothWays()
    ensures Utf8([]) == [] && FromUtf8([]) == Some([])
  {
  }

  lemma {:induction false} FromUtf8IsInverse(s: Points)
    requires WellFormed(s)
    ensures FromUtf8(Utf8(s)) == Some(s)
  {
    hide FromUtf8, Utf8, Utf8Of;
    if s == [] {
      NothingBothWays();
    } else {
      FromUtf8IsInverse(s[1..]);
      assert s == [s[0]] + s[1..];
      EncodeStep(s[0], s[1..]);
      DecodeOfEncoded(s[0], Utf8(s[1..]));
    }
  }

  lemma DecodeStep(b: Bytes) returns (c: CodePoint, rest: Points)
    requires b != [] && FromUtf8(b).Some?
    ensures !Surrogate(c) && Utf8Of(c) <= b && FromUtf8(b[|Utf8Of(c)|..]) == Some(rest) && FromUtf8(b).value == [c] + rest
  {
    hide Utf8Of, FirstPoint;
    c := FirstPoint(b).value;
    rest := FromUtf8(b[|Utf8Of(c)|..]).value;
  }

  /** The decoder accepts only what the encoder makes. */
  lemma {:induction false} Utf8IsInverse(b: Bytes)
    requires FromUtf8(b).Some?
    ensures WellFormed(FromUtf8(b).value) && Utf8(FromUtf8(b).value) == b
    decreases |b|
  {
    hide FromUtf8, Utf8, Utf8Of;
    if b == [] {
      NothingBothWays();
    } else {
      var c, rest := DecodeStep(b);
      var tail := b[|Utf8Of(c)|..];
      Utf8IsInverse(tail);
      EncodeStep(c, rest);
      assert b == Utf8Of(c) + tail;
    }
  }
}
