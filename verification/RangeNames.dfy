/** The names of range and hash partitions: one name for each partition, and one partition for each name. */
module RangeNames {
  import opened Bytes
  import opened Utf8

  type Name = seq<CodePoint>

  const DOT: CodePoint := 0x2e
  const TILDE: CodePoint := 0x7e
  const PERCENT: CodePoint := 0x25

  // ─── the tail that a cut leaves ─────────────────────────────────────────────

  predicate IsContinuation(b: byte) {
    0x80 <= b < 0xc0
  }

  /** The length of the character that a lead byte starts, and 1 for a byte that starts none. */
  function LeadLength(b: byte): nat {
    if 0xc0 <= b <= 0xdf then 2 else if 0xe0 <= b <= 0xef then 3 else if 0xf0 <= b <= 0xf7 then 4 else 1
  }

  /** `incompleteTailStart`: the walk back over at most three bytes. */
  method IncompleteTailStart(bytes: Bytes) returns (start: nat)
    ensures start == TailStart(bytes)
  {
    var i := |bytes| - 1;
    while i >= (if |bytes| > 3 then |bytes| - 3 else 0)
      invariant -1 <= i < |bytes| && |bytes| - 4 <= i
      invariant TailStart(bytes) == TailFrom(bytes, i)
    {
      if !IsContinuation(bytes[i]) {
        return if |bytes| - i < LeadLength(bytes[i]) then i else |bytes|;
      }
      i := i - 1;
    }
    return |bytes|;
  }

  function TailFrom(bytes: Bytes, i: int): (start: nat)
    requires -1 <= i < |bytes|
    ensures start <= |bytes|
    decreases i + 1
  {
    if i < 0 || i < |bytes| - 3 then |bytes|
    else if IsContinuation(bytes[i]) then TailFrom(bytes, i - 1)
    else if |bytes| - i < LeadLength(bytes[i]) then i
    else |bytes|
  }

  function TailStart(bytes: Bytes): (start: nat)
    ensures start <= |bytes|
  {
    TailFrom(bytes, |bytes| - 1)
  }

  lemma Utf8OfShape(c: CodePoint)
    ensures LeadLength(Utf8Of(c)[0]) == |Utf8Of(c)| && !IsContinuation(Utf8Of(c)[0])
    ensures forall i :: 0 < i < |Utf8Of(c)| ==> IsContinuation(Utf8Of(c)[i])
  {
  }

  /** Continuation bytes at the end are walked over, back to `i`. */
  lemma {:induction false} WalkBack(bytes: Bytes, i: int, from: int)
    requires 0 <= i <= from < |bytes| && |bytes| - 3 <= i
    requires forall j :: i < j <= from ==> IsContinuation(bytes[j])
    ensures TailFrom(bytes, from) == TailFrom(bytes, i)
    decreases from - i
  {
    if i < from {
      WalkBack(bytes, i, from - 1);
    }
  }

  /** A part of a character at the end is the tail. */
  lemma PartIsTail(before: Bytes, c: CodePoint, n: nat)
    requires 0 < n < |Utf8Of(c)|
    ensures TailStart(before + Utf8Of(c)[..n]) == |before|
  {
    Utf8OfShape(c);
    var bytes := before + Utf8Of(c)[..n];
    forall j | |before| < j < |bytes| ensures IsContinuation(bytes[j]) {
      assert bytes[j] == Utf8Of(c)[j - |before|];
    }
    assert bytes[|before|] == Utf8Of(c)[0];
    WalkBack(bytes, |before|, |bytes| - 1);
  }

  /** A whole character at the end leaves no tail. */
  lemma WholeHasNoTail(before: Bytes, c: CodePoint)
    ensures TailStart(before + Utf8Of(c)) == |before + Utf8Of(c)|
  {
    Utf8OfShape(c);
    var bytes := before + Utf8Of(c);
    forall j | |before| < j < |bytes| ensures IsContinuation(bytes[j]) {
      assert bytes[j] == Utf8Of(c)[j - |before|];
    }
    assert bytes[|before|] == Utf8Of(c)[0];
    if |Utf8Of(c)| <= 3 {
      WalkBack(bytes, |before|, |bytes| - 1);
    } else {
      WalkBack(bytes, |before| + 1, |bytes| - 1);
    }
  }

  /** Where a cut at byte `n` of an encoded string falls: after `k` characters, and inside the next one or at its start. */
  lemma {:induction false} CutPoint(s: Points, n: nat) returns (k: nat, m: nat)
    requires n <= |Utf8.Utf8(s)|
    ensures k <= |s| && (k < |s| ==> m < |Utf8Of(s[k])|) && (k == |s| ==> m == 0)
    ensures Utf8.Utf8(s)[..n] == Utf8.Utf8(s[..k]) + (if k < |s| then Utf8Of(s[k])[..m] else [])
  {
    hide Utf8Of;
    if s == [] {
      k, m := 0, 0;
    } else if n < |Utf8Of(s[0])| {
      k, m := 0, n;
    } else {
      k, m := CutPoint(s[1..], n - |Utf8Of(s[0])|);
      CutShifts(s, n, k, m);
      k := k + 1;
    }
  }

  lemma CutShifts(s: Points, n: nat, k: nat, m: nat)
    requires s != [] && |Utf8Of(s[0])| <= n <= |Utf8.Utf8(s)| && k <= |s| - 1 && (k < |s| - 1 ==> m <= |Utf8Of(s[k + 1])|)
    requires Utf8.Utf8(s[1..])[..n - |Utf8Of(s[0])|] == Utf8.Utf8(s[1..][..k]) + (if k < |s| - 1 then Utf8Of(s[k + 1])[..m] else [])
    ensures Utf8.Utf8(s)[..n] == Utf8.Utf8(s[..k + 1]) + (if k + 1 < |s| then Utf8Of(s[k + 1])[..m] else [])
  {
    var head, rest := Utf8Of(s[0]), Utf8.Utf8(s[1..]);
    assert s[..k + 1][0] == s[0] && s[..k + 1][1..] == s[1..][..k];
    assert Utf8.Utf8(s) == head + rest && Utf8.Utf8(s[..k + 1]) == head + Utf8.Utf8(s[1..][..k]);
    hide Utf8Of, Utf8.Utf8;
    TakeOfAppend(head, rest, n);
    AppendAssociates(head, Utf8.Utf8(s[1..][..k]), if k + 1 < |s| then Utf8Of(s[k + 1])[..m] else []);
  }

  lemma TakeOfAppend<T>(a: seq<T>, b: seq<T>, n: nat)
    requires |a| <= n <= |a| + |b|
    ensures (a + b)[..n] == a + b[..n - |a|]
  {
  }

  lemma AppendAssociates<T>(a: seq<T>, b: seq<T>, c: seq<T>)
    ensures a + (b + c) == (a + b) + c
  {
  }

  lemma WholeStringHasNoTail(s: Points)
    ensures TailStart(Utf8.Utf8(s)) == |Utf8.Utf8(s)|
  {
    if s != [] {
      var last := s[|s| - 1];
      assert s == s[..|s| - 1] + [last];
      Utf8OfAppend(s[..|s| - 1], [last]);
      assert Utf8.Utf8([last]) == Utf8Of(last) + Utf8.Utf8([]) == Utf8Of(last);
      WholeHasNoTail(Utf8.Utf8(s[..|s| - 1]), last);
    }
  }

  /** A valid UTF-8 string that is cut at any byte is valid before its tail, and the tail has at most three bytes. */
  lemma CutLeavesValidText(s: Points, n: nat)
    requires WellFormed(s) && n <= |Utf8.Utf8(s)|
    ensures var bytes := Utf8.Utf8(s)[..n];
            && FromUtf8(bytes[..TailStart(bytes)]).Some? && FromUtf8(bytes[..TailStart(bytes)]).value <= s
            && |bytes| - TailStart(bytes) <= 3
  {
    hide Utf8Of, TailStart;
    var k, m := CutPoint(s, n);
    var bytes, text := Utf8.Utf8(s)[..n], Utf8.Utf8(s[..k]);
    FromUtf8IsInverse(s[..k]);
    if k < |s| && m > 0 {
      PartIsTail(text, s[k], m);
      assert bytes[..|text|] == text;
      Utf8OfIsShort(s[k]);
    } else {
      assert bytes == text;
      WholeStringHasNoTail(s[..k]);
      assert bytes[..|bytes|] == bytes;
    }
  }

  lemma Utf8OfIsShort(c: CodePoint)
    ensures |Utf8Of(c)| <= 4
  {
  }

  // ─── components ─────────────────────────────────────────────────────────────

  /** The escape set of the text form. */
  predicate IsEscaped(c: CodePoint) {
    || c <= 0x20 || c == 0x22 || c == PERCENT || c == DOT || c == 0x5c || 0x7e <= c < 0xa0
    || 0x200b <= c <= 0x200f || c == 0x2028 || c == 0x2029 || 0x202a <= c <= 0x202e || 0x2066 <= c <= 0x2069 || c == 0xfeff
  }

  function HexDigit(n: int): CodePoint
    requires 0 <= n < 16
  {
    if n < 10 then 0x30 + n else 0x41 + n - 10
  }

  function HexValue(c: CodePoint): int {
    if 0x30 <= c <= 0x39 then c - 0x30 else if 0x41 <= c <= 0x46 then c - 0x41 + 10 else 0
  }

  function PercentHex(b: byte): Name {
    [PERCENT, HexDigit(b / 16), HexDigit(b % 16)]
  }

  function PercentAll(bytes: Bytes): Name {
    if bytes == [] then [] else PercentHex(bytes[0]) + PercentAll(bytes[1..])
  }

  /** `escapeText`: each code unit of the set becomes the escapes of its UTF-8 bytes. */
  function EscapeText(text: Points): Name {
    if text == [] then []
    else (if IsEscaped(text[0]) then PercentAll(Utf8Of(text[0])) else [text[0]]) + EscapeText(text[1..])
  }

  /** An encoding of bytes as text without the dot and the tilde, one text for each byte string. */
  ghost predicate IsBase64(b64: Bytes -> Name) {
    && (forall a, b :: b64(a) == b64(b) ==> a == b)
    && (forall a, c :: c in b64(a) ==> c != DOT && c != TILDE)
  }

  function BinaryComponent(b64: Bytes -> Name, bytes: Bytes): Name {
    [TILDE, 0x62] + b64(bytes)
  }

  /** `encodeRangeComponent`. */
  function EncodeComponent(b64: Bytes -> Name, bytes: Bytes): Name {
    if bytes != [] && bytes[0] == 0xff then BinaryComponent(b64, bytes)
    else
      var tail := TailStart(bytes);
      var text := FromUtf8(bytes[..tail]);
      if text.None? then BinaryComponent(b64, bytes) else EscapeText(text.value) + PercentAll(bytes[tail..])
  }

  lemma {:induction false} EscapeOfAppend(a: Points, b: Points)
    ensures EscapeText(a + b) == EscapeText(a) + EscapeText(b)
  {
    if a == [] {
      assert a + b == b;
    } else {
      assert (a + b)[1..] == a[1..] + b;
      EscapeOfAppend(a[1..], b);
    }
  }

  lemma {:induction false} EscapeOfPlain(a: Points)
    requires forall i :: 0 <= i < |a| ==> !IsEscaped(a[i])
    ensures EscapeText(a) == a
  {
    if a != [] {
      EscapeOfPlain(a[1..]);
      assert a == [a[0]] + a[1..];
    }
  }

  /** The loop of `escapeText`: the text between two escapes goes in as one slice. */
  method Escape(text: Points) returns (out: Name)
    ensures out == EscapeText(text)
  {
    out := [];
    var last := 0;
    for i := 0 to |text|
      invariant 0 <= last <= i
      invariant out == EscapeText(text[..last])
      invariant forall j :: last <= j < i ==> !IsEscaped(text[j])
    {
      if IsEscaped(text[i]) {
        EscapeSlice(text, last, i);
        out := out + text[last..i] + PercentAll(Utf8Of(text[i]));
        last := i + 1;
      }
    }
    EscapeOfPlain(text[last..]);
    EscapeOfAppend(text[..last], text[last..]);
    assert text == text[..last] + text[last..];
    out := out + text[last..];
  }

  lemma EscapeSlice(text: Points, last: nat, i: nat)
    requires last <= i < |text| && IsEscaped(text[i]) && forall j :: last <= j < i ==> !IsEscaped(text[j])
    ensures EscapeText(text[..i + 1]) == EscapeText(text[..last]) + text[last..i] + PercentAll(Utf8Of(text[i]))
  {
    hide IsEscaped, Utf8Of;
    EscapeOfPlain(text[last..i]);
    EscapeOfAppend(text[..last], text[last..i]);
    assert text[..i] == text[..last] + text[last..i] && text[..i + 1] == text[..i] + [text[i]];
    EscapeOfAppend(text[..i], [text[i]]);
    assert EscapeText([text[i]]) == PercentAll(Utf8Of(text[i])) + EscapeText([]) == PercentAll(Utf8Of(text[i]));
  }

  /** A cut text key has the text form: its whole characters, and then its last bytes as escapes. */
  lemma CutKeyIsText(b64: Bytes -> Name, s: Points, n: nat)
    requires WellFormed(s) && n <= |Utf8.Utf8(s)|
    ensures var bytes := Utf8.Utf8(s)[..n]; var tail := TailStart(bytes);
            FromUtf8(bytes[..tail]).Some? && EncodeComponent(b64, bytes) == EscapeText(FromUtf8(bytes[..tail]).value) + PercentAll(bytes[tail..])
  {
    hide TailStart;
    CutLeavesValidText(s, n);
  }

  // ─── the left inverse ───────────────────────────────────────────────────────

  /** The bytes of a text form: an escape gives one byte, and any other code point its UTF-8 bytes. */
  function Unescape(name: Name): Bytes {
    if name == [] then []
    else if name[0] == PERCENT && |name| >= 3 then
      var b := HexValue(name[1]) * 16 + HexValue(name[2]);
      [b] + Unescape(name[3..])
    else Utf8Of(name[0]) + Unescape(name[1..])
  }

  ghost function DecodeComponent(b64: Bytes -> Name, name: Name): Bytes {
    if name != [] && name[0] == TILDE then
      if exists bytes :: BinaryComponent(b64, bytes) == name then
        var bytes :| BinaryComponent(b64, bytes) == name;
        bytes
      else []
    else Unescape(name)
  }

  lemma UnescapeHex(b: byte, tail: Name)
    ensures Unescape(PercentHex(b) + tail) == [b] + Unescape(tail)
  {
    HexRoundTrip(b);
    hide HexDigit, HexValue;
    var name := PercentHex(b) + tail;
    assert name[3..] == tail && name[0] == PERCENT && name[1] == HexDigit(b / 16) && name[2] == HexDigit(b % 16);
  }

  lemma PercentAllStep(bytes: Bytes)
    ensures PercentAll(bytes) == if bytes == [] then [] else PercentHex(bytes[0]) + PercentAll(bytes[1..])
  {
  }

  lemma {:induction false} UnescapePercent(bytes: Bytes, rest: Name)
    ensures Unescape(PercentAll(bytes) + rest) == bytes + Unescape(rest)
  {
    hide Unescape, PercentAll, PercentHex;
    PercentAllStep(bytes);
    if bytes == [] {
      assert [] + rest == rest && [] + Unescape(rest) == Unescape(rest);
    } else {
      UnescapePercent(bytes[1..], rest);
      var tail := PercentAll(bytes[1..]) + rest;
      assert PercentAll(bytes) + rest == PercentHex(bytes[0]) + tail;
      UnescapeHex(bytes[0], tail);
      assert [bytes[0]] + (bytes[1..] + Unescape(rest)) == bytes + Unescape(rest);
    }
  }

  lemma HexRoundTrip(b: byte)
    ensures HexValue(HexDigit(b / 16)) * 16 + HexValue(HexDigit(b % 16)) == b
  {
  }

  lemma UnescapePlain(c: CodePoint, rest: Name)
    requires c != PERCENT
    ensures Unescape([c] + rest) == Utf8Of(c) + Unescape(rest)
  {
    assert ([c] + rest)[1..] == rest;
  }

  lemma {:induction false} UnescapeText(text: Points, rest: Name)
    ensures Unescape(EscapeText(text) + rest) == Utf8.Utf8(text) + Unescape(rest)
  {
    if text == [] {
      assert EscapeText(text) + rest == rest;
    } else {
      var c, tail := text[0], EscapeText(text[1..]) + rest;
      UnescapeText(text[1..], rest);
      var head := if IsEscaped(c) then PercentAll(Utf8Of(c)) else [c];
      assert EscapeText(text) == head + EscapeText(text[1..]) && Utf8.Utf8(text) == Utf8Of(c) + Utf8.Utf8(text[1..]);
      AppendAssociates(head, EscapeText(text[1..]), rest);
      UnescapeOne(c, tail);
      AppendAssociates(Utf8Of(c), Utf8.Utf8(text[1..]), Unescape(rest));
    }
  }

  lemma UnescapeOne(c: CodePoint, tail: Name)
    ensures Unescape((if IsEscaped(c) then PercentAll(Utf8Of(c)) else [c]) + tail) == Utf8Of(c) + Unescape(tail)
  {
    if IsEscaped(c) {
      UnescapePercent(Utf8Of(c), tail);
    } else {
      PercentIsEscaped(c);
      UnescapePlain(c, tail);
    }
  }

  lemma PercentIsEscaped(c: CodePoint)
    ensures !IsEscaped(c) ==> c != PERCENT
  {
  }

  lemma {:induction false} PercentHasNoSeparator(bytes: Bytes)
    ensures forall c :: c in PercentAll(bytes) ==> c != DOT && c != TILDE
  {
    if bytes != [] {
      PercentHasNoSeparator(bytes[1..]);
    }
  }

  lemma {:induction false} EscapeHasNoSeparator(text: Points)
    ensures forall c :: c in EscapeText(text) ==> c != DOT && c != TILDE
  {
    if text != [] {
      EscapeHasNoSeparator(text[1..]);
      PercentHasNoSeparator(Utf8Of(text[0]));
    }
  }

  /** A component has no dot, and a tilde only as the first character of the binary form. */
  lemma ComponentShape(b64: Bytes -> Name, bytes: Bytes)
    requires IsBase64(b64)
    ensures DOT !in EncodeComponent(b64, bytes)
    ensures EncodeComponent(b64, bytes) != [] && EncodeComponent(b64, bytes)[0] == TILDE ==> EncodeComponent(b64, bytes) == BinaryComponent(b64, bytes)
  {
    var tail := TailStart(bytes);
    var text := FromUtf8(bytes[..tail]);
    PercentHasNoSeparator(bytes[tail..]);
    if text.Some? {
      EscapeHasNoSeparator(text.value);
    }
  }

  /** The component gives its bytes back, so it is injective. */
  lemma ComponentRoundTrip(b64: Bytes -> Name, bytes: Bytes)
    requires IsBase64(b64)
    ensures DecodeComponent(b64, EncodeComponent(b64, bytes)) == bytes
  {
    var name := EncodeComponent(b64, bytes);
    if name == BinaryComponent(b64, bytes) {
      BinaryRoundTrip(b64, bytes);
    } else {
      ComponentShape(b64, bytes);
      TextRoundTrip(b64, bytes);
    }
  }

  lemma BinaryRoundTrip(b64: Bytes -> Name, bytes: Bytes)
    requires IsBase64(b64)
    ensures DecodeComponent(b64, BinaryComponent(b64, bytes)) == bytes
  {
    var name := BinaryComponent(b64, bytes);
    var found := DecodeComponent(b64, name);
    assert BinaryComponent(b64, found) == name;
    assert BinaryComponent(b64, found)[2..] == b64(found) && name[2..] == b64(bytes);
  }

  lemma TextRoundTrip(b64: Bytes -> Name, bytes: Bytes)
    requires EncodeComponent(b64, bytes) != BinaryComponent(b64, bytes)
    ensures Unescape(EncodeComponent(b64, bytes)) == bytes
  {
    var tail := TailStart(bytes);
    hide TailStart, FromUtf8, EscapeText, PercentAll, Unescape, BinaryComponent, Utf8.Utf8;
    var text := FromUtf8(bytes[..tail]).value;
    Utf8IsInverse(bytes[..tail]);
    assert PercentAll(bytes[tail..]) + [] == PercentAll(bytes[tail..]);
    UnescapeText(text, PercentAll(bytes[tail..]));
    UnescapePercent(bytes[tail..], []);
    assert Unescape([]) == [] by { UnescapeNothing(); }
    assert bytes == bytes[..tail] + bytes[tail..];
  }

  lemma UnescapeNothing()
    ensures Unescape([]) == []
  {
  }

  lemma ComponentIsInjective(b64: Bytes -> Name, a: Bytes, b: Bytes)
    requires IsBase64(b64) && EncodeComponent(b64, a) == EncodeComponent(b64, b)
    ensures a == b
  {
    ComponentRoundTrip(b64, a);
    ComponentRoundTrip(b64, b);
  }

  /** The name starts as `~min` and `~max` do. */
  predicate StartsSentinel(name: Name) {
    |name| >= 2 && name[0] == TILDE && name[1] == 0x6d
  }

  lemma ComponentIsNoSentinel(b64: Bytes -> Name, bytes: Bytes)
    requires IsBase64(b64)
    ensures !StartsSentinel(EncodeComponent(b64, bytes))
  {
    ComponentShape(b64, bytes);
  }

  // ─── joined names ───────────────────────────────────────────────────────────

  function Join(parts: seq<Name>): Name
    requires parts != []
  {
    if |parts| == 1 then parts[0] else parts[0] + [DOT] + Join(parts[1..])
  }

  predicate DotFree(parts: seq<Name>) {
    forall i :: 0 <= i < |parts| ==> DOT !in parts[i]
  }

  function FirstMark(name: Name, mark: CodePoint): nat {
    if name == [] || name[0] == mark then 0 else 1 + FirstMark(name[1..], mark)
  }

  lemma {:induction false} FirstMarkEnds(a: Name, x: Name, mark: CodePoint)
    requires mark !in a
    ensures FirstMark(a + [mark] + x, mark) == |a|
  {
    if a != [] {
      assert (a + [mark] + x)[1..] == a[1..] + [mark] + x;
      FirstMarkEnds(a[1..], x, mark);
    }
  }

  /** The first mark ends the first part. */
  lemma SplitAtMark(a: Name, x: Name, b: Name, y: Name, mark: CodePoint)
    requires a + [mark] + x == b + [mark] + y && mark !in a && mark !in b
    ensures a == b && x == y
  {
    FirstMarkEnds(a, x, mark);
    FirstMarkEnds(b, y, mark);
    var n := a + [mark] + x;
    assert a == n[..|a|] == b && x == n[|a| + 1..] == y;
  }

  lemma JoinHasDot(parts: seq<Name>)
    requires parts != [] && DotFree(parts)
    ensures DOT in Join(parts) <==> |parts| > 1
  {
    if |parts| > 1 {
      assert Join(parts)[|parts[0]|] == DOT;
    }
  }

  lemma {:induction false} JoinIsInjective(a: seq<Name>, b: seq<Name>)
    requires a != [] && b != [] && DotFree(a) && DotFree(b) && Join(a) == Join(b)
    ensures a == b
  {
    JoinHasDot(a);
    JoinHasDot(b);
    if |a| > 1 {
      SplitAtMark(a[0], Join(a[1..]), b[0], Join(b[1..]), DOT);
      JoinIsInjective(a[1..], b[1..]);
      assert a == [a[0]] + a[1..] && b == [b[0]] + b[1..];
    }
  }
}
