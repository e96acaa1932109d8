/** The count of the 1 bits of a 32-bit word, with masks and one multiplication. */
module Popcount {
  /** `v >>> n`. */
  function ShiftRight(v: bv32, n: nat): bv32 {
    if n == 0 then v else ShiftRight(v, n - 1) >> 1
  }

  predicate LowBit(v: bv32) {
    v & 1 == 1
  }

  predicate Bit(v: bv32, i: nat) {
    LowBit(ShiftRight(v, i))
  }

  /** The count of 1 bits below bit `n`, one bit after the other. */
  function CountBits(v: bv32, n: nat): nat {
    if n == 0 then 0 else CountBits(v, n - 1) + if Bit(v, n - 1) then 1 else 0
  }

  /** The pairs, the groups of four, and the bytes of `v` hold their own counts, and a product adds the bytes. */
  function Pairs(v: bv32): bv32 {
    v - ((v >> 1) & 0x55555555)
  }

  function Quads(v: bv32): bv32 {
    (v & 0x33333333) + ((v >> 2) & 0x33333333)
  }

  function ByteCounts(v: bv32): bv32 {
    (v + (v >> 4)) & 0x0f0f0f0f
  }

  function TopOfProduct(v: bv32): bv32 {
    ((v * 0x01010101) >> 24) & 0xff
  }

  function Popcount32(v: bv32): bv32 {
    TopOfProduct(ByteCounts(Quads(Pairs(v))))
  }

  // ─── the bytes ──────────────────────────────────────────────────────────────

  /** The count of the 1 bits of the lowest byte. */
  function LowByteSum(v: bv32): bv32 {
    (v & 1) + ((v >> 1) & 1) + ((v >> 2) & 1) + ((v >> 3) & 1) + ((v >> 4) & 1) + ((v >> 5) & 1) + ((v >> 6) & 1) + ((v >> 7) & 1)
  }

  function ByteAt(v: bv32, shift: bv6): bv32
    requires shift <= 24
  {
    (v >> shift) & 0xff
  }

  function Plus(x: bv32, y: bv32): bv32 {
    x + y
  }

  lemma ByteZero(v: bv32)
    ensures ByteAt(ByteCounts(Quads(Pairs(v))), 0) == LowByteSum(v)
  {
  }

  lemma ByteOne(v: bv32)
    ensures ByteAt(ByteCounts(Quads(Pairs(v))), 8) == LowByteSum(v >> 8)
  {
  }

  lemma ByteTwo(v: bv32)
    ensures ByteAt(ByteCounts(Quads(Pairs(v))), 16) == LowByteSum(v >> 16)
  {
  }

  lemma ByteThree(v: bv32)
    ensures ByteAt(ByteCounts(Quads(Pairs(v))), 24) == LowByteSum(v >> 24)
  {
  }

  lemma SumIsSmall(v: bv32)
    ensures LowByteSum(v) <= 8
  {
  }

  predicate HighHalvesEmpty(v: bv32) {
    v & 0xf0f0f0f0 == 0
  }

  lemma ByteCountsAreLow(v: bv32)
    ensures HighHalvesEmpty(ByteCounts(v))
  {
  }

  /** The top byte of the product is the sum of the bytes. */
  lemma ProductAddsBytes(b: bv32)
    requires HighHalvesEmpty(b) && ByteAt(b, 0) <= 8 && ByteAt(b, 8) <= 8 && ByteAt(b, 16) <= 8 && ByteAt(b, 24) <= 8
    ensures TopOfProduct(b) == Plus(Plus(Plus(ByteAt(b, 0), ByteAt(b, 8)), ByteAt(b, 16)), ByteAt(b, 24))
  {
  }

  lemma PopcountIsByteSums(v: bv32)
    ensures Popcount32(v) == ByteSums(v, v >> 8, v >> 16, v >> 24)
  {
    hide LowByteSum, Pairs, Quads, ByteCounts, ByteAt, Plus, TopOfProduct, HighHalvesEmpty;
    ByteZero(v);
    ByteOne(v);
    ByteTwo(v);
    ByteThree(v);
    SumIsSmall(v);
    SumIsSmall(v >> 8);
    SumIsSmall(v >> 16);
    SumIsSmall(v >> 24);
    ByteCountsAreLow(Quads(Pairs(v)));
    ProductAddsBytes(ByteCounts(Quads(Pairs(v))));
  }

  // ─── the bits ───────────────────────────────────────────────────────────────

  lemma {:induction false} ShiftAgain(v: bv32, a: nat, b: nat)
    ensures ShiftRight(ShiftRight(v, a), b) == ShiftRight(v, a + b)
  {
    if b > 0 {
      ShiftAgain(v, a, b - 1);
    }
  }

  function Half(v: bv32): bv32 {
    v >> 1
  }

  lemma ShiftIsHalf(v: bv32, n: nat)
    ensures ShiftRight(v, 0) == v
    ensures n > 0 ==> ShiftRight(v, n) == Half(ShiftRight(v, n - 1))
  {
  }

  lemma HalfOfShift(v: bv32)
    ensures Half(v) == v >> 1 && Half(v >> 1) == v >> 2 && Half(v >> 2) == v >> 3 && Half(v >> 3) == v >> 4
    ensures Half(v >> 4) == v >> 5 && Half(v >> 5) == v >> 6 && Half(v >> 6) == v >> 7 && Half(v >> 7) == v >> 8
  {
  }

  lemma LowShifts(v: bv32)
    ensures ShiftRight(v, 1) == v >> 1 && ShiftRight(v, 2) == v >> 2 && ShiftRight(v, 3) == v >> 3 && ShiftRight(v, 4) == v >> 4
    ensures ShiftRight(v, 5) == v >> 5 && ShiftRight(v, 6) == v >> 6 && ShiftRight(v, 7) == v >> 7 && ShiftRight(v, 8) == v >> 8
  {
    hide ShiftRight, Half;
    HalfOfShift(v);
    ShiftIsHalf(v, 1);
    ShiftIsHalf(v, 2);
    ShiftIsHalf(v, 3);
    ShiftIsHalf(v, 4);
    ShiftIsHalf(v, 5);
    ShiftIsHalf(v, 6);
    ShiftIsHalf(v, 7);
    ShiftIsHalf(v, 8);
  }

  function BitOf(v: bv32): nat {
    if v & 1 == 1 then 1 else 0
  }

  lemma AddBit(x: bv32, v: bv32)
    requires x < 100
    ensures (x + (v & 1)) as nat == x as nat + BitOf(v)
  {
  }

  /** The sum of the bits of the low byte as a number. */
  lemma LowByteSumIsCount(v: bv32)
    ensures LowByteSum(v) as nat == CountBits(v, 8)
  {
    hide CountBits;
    AddBit(0, v);
    AddBit(v & 1, v >> 1);
    AddBit((v & 1) + ((v >> 1) & 1), v >> 2);
    AddBit((v & 1) + ((v >> 1) & 1) + ((v >> 2) & 1), v >> 3);
    AddBit((v & 1) + ((v >> 1) & 1) + ((v >> 2) & 1) + ((v >> 3) & 1), v >> 4);
    AddBit((v & 1) + ((v >> 1) & 1) + ((v >> 2) & 1) + ((v >> 3) & 1) + ((v >> 4) & 1), v >> 5);
    AddBit((v & 1) + ((v >> 1) & 1) + ((v >> 2) & 1) + ((v >> 3) & 1) + ((v >> 4) & 1) + ((v >> 5) & 1), v >> 6);
    AddBit((v & 1) + ((v >> 1) & 1) + ((v >> 2) & 1) + ((v >> 3) & 1) + ((v >> 4) & 1) + ((v >> 5) & 1) + ((v >> 6) & 1), v >> 7);
    CountOfByte(v);
  }

  lemma CountNext(v: bv32, n: nat, s: bv32)
    requires ShiftRight(v, n) == s
    ensures CountBits(v, n + 1) == CountBits(v, n) + BitOf(s)
  {
  }

  lemma CountOfByte(v: bv32)
    ensures CountBits(v, 8) == BitOf(v) + BitOf(v >> 1) + BitOf(v >> 2) + BitOf(v >> 3) + BitOf(v >> 4) + BitOf(v >> 5) + BitOf(v >> 6) + BitOf(v >> 7)
  {
    assert CountBits(v, 0) == 0;
    hide ShiftRight, CountBits, BitOf;
    ShiftIsHalf(v, 0);
    LowShifts(v);
    CountNext(v, 0, v);
    CountNext(v, 1, v >> 1);
    CountNext(v, 2, v >> 2);
    CountNext(v, 3, v >> 3);
    CountNext(v, 4, v >> 4);
    CountNext(v, 5, v >> 5);
    CountNext(v, 6, v >> 6);
    CountNext(v, 7, v >> 7);
  }

  lemma {:induction false} CountSplits(v: bv32, a: nat, b: nat)
    ensures CountBits(v, a + b) == CountBits(v, a) + CountBits(ShiftRight(v, a), b)
  {
    if b > 0 {
      CountSplits(v, a, b - 1);
      ShiftAgain(v, a, b - 1);
    }
  }

  lemma ShiftsByBytes(v: bv32)
    ensures ShiftRight(v, 8) == v >> 8 && ShiftRight(v, 16) == v >> 16 && ShiftRight(v, 24) == v >> 24
  {
    hide ShiftRight;
    LowShifts(v);
    ShiftAgain(v, 8, 8);
    LowShifts(v >> 8);
    ShiftAgain(v, 16, 8);
    LowShifts(v >> 16);
  }

  lemma PlusSmall(x: bv32, y: bv32)
    requires x <= 24 && y <= 8
    ensures Plus(x, y) as nat == x as nat + y as nat
  {
  }

  lemma PlusTwo(a: bv32, b: bv32)
    requires a <= 8 && b <= 8
    ensures Plus(a, b) <= 24
  {
  }

  lemma PlusThree(a: bv32, b: bv32, c: bv32)
    requires a <= 8 && b <= 8 && c <= 8
    ensures Plus(Plus(a, b), c) <= 24
  {
  }

  lemma PlusFour(a: bv32, b: bv32, c: bv32, d: bv32)
    requires a <= 8 && b <= 8 && c <= 8 && d <= 8
    ensures Plus(Plus(Plus(a, b), c), d) as nat == a as nat + b as nat + c as nat + d as nat
  {
    assert a <= 24;
    hide Plus;
    PlusSmall(a, b);
    PlusTwo(a, b);
    PlusSmall(Plus(a, b), c);
    PlusThree(a, b, c);
    PlusSmall(Plus(Plus(a, b), c), d);
  }

  lemma CountOfWord(v: bv32)
    ensures CountBits(v, 32) == CountBits(v, 8) + CountBits(v >> 8, 8) + CountBits(v >> 16, 8) + CountBits(v >> 24, 8)
  {
    hide CountBits, ShiftRight;
    ShiftsByBytes(v);
    CountSplits(v, 8, 8);
    CountSplits(v, 16, 8);
    CountSplits(v, 24, 8);
  }

  function ByteSums(v0: bv32, v1: bv32, v2: bv32, v3: bv32): bv32 {
    Plus(Plus(Plus(LowByteSum(v0), LowByteSum(v1)), LowByteSum(v2)), LowByteSum(v3))
  }

  lemma ByteSumsAreCounts(v0: bv32, v1: bv32, v2: bv32, v3: bv32)
    ensures ByteSums(v0, v1, v2, v3) as nat == CountBits(v0, 8) + CountBits(v1, 8) + CountBits(v2, 8) + CountBits(v3, 8)
  {
    hide LowByteSum, CountBits, Plus;
    SumIsSmall(v0);
    SumIsSmall(v1);
    SumIsSmall(v2);
    SumIsSmall(v3);
    LowByteSumIsCount(v0);
    LowByteSumIsCount(v1);
    LowByteSumIsCount(v2);
    LowByteSumIsCount(v3);
    PlusFour(LowByteSum(v0), LowByteSum(v1), LowByteSum(v2), LowByteSum(v3));
  }

  /** `popcount32` counts the 1 bits. */
  lemma PopcountIsCount(v: bv32)
    ensures Popcount32(v) as nat == CountBits(v, 32)
  {
    hide Popcount32, ByteSums, CountBits;
    PopcountIsByteSums(v);
    CountOfWord(v);
    ByteSumsAreCounts(v, v >> 8, v >> 16, v >> 24);
  }

  // ─── the bits below a position ──────────────────────────────────────────────

  function And(x: bv32, y: bv32): bv32 {
    x & y
  }

  const ALL_ONES: bv32 := 0xffffffff

  /** `v & (0xffffffff >>> (32 - n))`. */
  function LowBits(v: bv32, n: nat): bv32
    requires n <= 32
  {
    And(v, ShiftRight(ALL_ONES, 32 - n))
  }

  lemma AndHalf(x: bv32, y: bv32)
    ensures Half(And(x, y)) == And(Half(x), Half(y))
  {
  }

  lemma {:induction false} ShiftOfAnd(x: bv32, y: bv32, n: nat)
    ensures ShiftRight(And(x, y), n) == And(ShiftRight(x, n), ShiftRight(y, n))
  {
    hide ShiftRight, And, Half;
    ShiftIsHalf(And(x, y), n);
    ShiftIsHalf(x, n);
    ShiftIsHalf(y, n);
    if n > 0 {
      ShiftOfAnd(x, y, n - 1);
      AndHalf(ShiftRight(x, n - 1), ShiftRight(y, n - 1));
    }
  }

  lemma OnesInByte(v: bv32, i: nat)
    requires v & 0xff == 0xff && i < 8
    ensures Bit(v, i)
  {
    hide ShiftRight;
    ShiftIsHalf(v, 0);
    LowShifts(v);
  }

  lemma AllOnesBit(k: nat)
    ensures Bit(ALL_ONES, k) <==> k < 32
  {
    ShiftsByBytes(ALL_ONES);
    if k < 32 {
      var base := k / 8 * 8;
      assert base == 0 || base == 8 || base == 16 || base == 24;
      assert ShiftRight(ALL_ONES, 0) == ALL_ONES;
      OnesInByte(ShiftRight(ALL_ONES, base), k - base);
      ShiftAgain(ALL_ONES, base, k - base);
    } else {
      ShiftAgain(ALL_ONES, 24, 8);
      LowShifts(ALL_ONES >> 24);
      ShiftAgain(ALL_ONES, 32, k - 32);
      ZeroStays(k - 32);
    }
  }

  lemma {:induction false} ZeroStays(n: nat)
    ensures ShiftRight(0, n) == 0
  {
    if n > 0 {
      ZeroStays(n - 1);
    }
  }

  lemma AndBit(x: bv32, y: bv32)
    ensures LowBit(And(x, y)) <==> LowBit(x) && LowBit(y)
  {
  }

  lemma LowBitsBit(v: bv32, n: nat, i: nat)
    requires n <= 32
    ensures Bit(LowBits(v, n), i) <==> i < n && Bit(v, i)
  {
    hide ShiftRight, And, LowBit;
    ShiftOfAnd(v, ShiftRight(ALL_ONES, 32 - n), i);
    ShiftAgain(ALL_ONES, 32 - n, i);
    AllOnesBit(32 - n + i);
    AndBit(ShiftRight(v, i), ShiftRight(ALL_ONES, 32 - n + i));
  }

  lemma {:induction false} CountOfLowBits(v: bv32, n: nat, m: nat)
    requires n <= 32
    ensures CountBits(LowBits(v, n), m) == CountBits(v, if m < n then m else n)
  {
    if m > 0 {
      CountOfLowBits(v, n, m - 1);
      LowBitsBit(v, n, m - 1);
    }
  }

  /** The population count of the masked word is the count of the 1 bits below `n`. */
  lemma PopcountOfLowBits(v: bv32, n: nat)
    requires n <= 32
    ensures Popcount32(LowBits(v, n)) as nat == CountBits(v, n)
  {
    PopcountIsCount(LowBits(v, n));
    CountOfLowBits(v, n, 32);
  }
}
