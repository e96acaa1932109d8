/** Sort-key intervals, the ranges of child partitions, and the cursors of a scan. */
module SkIntervals {
  import opened Bytes
  import opened KeyCodec

  datatype Bound = Bound(value: Bytes, inclusive: bool)

  /** A sort-key interval. A missing end is unbounded. */
  datatype SkInterval = SkInterval(lower: Option<Bound>, upper: Option<Bound>)

  predicate AboveLower(sk: Bytes, lower: Option<Bound>) {
    lower.Some? ==> Less(lower.value.value, sk) || (lower.value.inclusive && lower.value.value == sk)
  }

  predicate BelowUpper(sk: Bytes, upper: Option<Bound>) {
    upper.Some? ==> Less(sk, upper.value.value) || (upper.value.inclusive && upper.value.value == sk)
  }

  predicate InInterval(sk: Bytes, interval: SkInterval) {
    AboveLower(sk, interval.lower) && BelowUpper(sk, interval.upper)
  }

  /** The range `[start, end)` of a child. The empty start is the unbounded one. */
  datatype Segment = Segment(start: Bytes, end: Option<Bytes>)

  predicate InSegment(sk: Bytes, s: Segment) {
    AtMost(s.start, sk) && (s.end.Some? ==> Less(sk, s.end.value))
  }

  datatype Direction = Asc | Desc

  datatype Cursor = Cursor(sk: Bytes, inclusive: bool)

  /** The scan still owes the key after the cursor. */
  predicate After(sk: Bytes, cursor: Option<Cursor>, d: Direction) {
    cursor.Some? ==> (cursor.value.inclusive && sk == cursor.value.sk) || (if d.Asc? then Less(cursor.value.sk, sk) else Less(sk, cursor.value.sk))
  }

  // ─── the functions of the scan ──────────────────────────────────────────────

  predicate RangeIntersects(child: Segment, interval: SkInterval) {
    && (interval.upper.Some? ==> Less(child.start, interval.upper.value.value) || (interval.upper.value.value == child.start && interval.upper.value.inclusive))
    && (interval.lower.Some? && child.end.Some? ==> Less(interval.lower.value.value, child.end.value))
  }

  function ClipToChildRange(interval: SkInterval, child: Segment): SkInterval {
    var lower := if interval.lower.None? || Less(interval.lower.value.value, child.start) then Some(Bound(child.start, true)) else interval.lower;
    var upper :=
      if child.end.None? then interval.upper
      else if interval.upper.None? then Some(Bound(child.end.value, false))
      else if Less(interval.upper.value.value, child.end.value)
              || (interval.upper.value.value == child.end.value && !interval.upper.value.inclusive) then interval.upper
      else Some(Bound(child.end.value, false));
    SkInterval(lower, upper)
  }

  predicate IsChildFullyBeforeCursor(child: Segment, cursor: Cursor, d: Direction) {
    if d.Asc? then child.end.Some? && AtMost(child.end.value, cursor.sk)
    else Less(cursor.sk, child.start) || (child.start == cursor.sk && !cursor.inclusive)
  }

  predicate CursorFallsInChild(child: Segment, cursor: Cursor) {
    InSegment(cursor.sk, child)
  }

  function MakeBoundaryCursor(child: Segment, d: Direction): Cursor {
    if d.Asc? then Cursor(if child.end.Some? then child.end.value else [], true) else Cursor(child.start, false)
  }

  // ─── what they mean ─────────────────────────────────────────────────────────

  /** The four orders of two keys that the proofs below use. */
  lemma Order(a: Bytes, b: Bytes, c: Bytes)
    ensures Less(a, b) || a == b || Less(b, a)
    ensures Less(a, b) && Less(b, c) ==> Less(a, c)
    ensures Less(a, b) ==> !Less(b, a)
    ensures !Less(a, a)
  {
    LessIsTotal(a, b);
    LessIrreflexive(a);
    if Less(a, b) {
      LessIsAsymmetric(a, b);
      if Less(b, c) {
        LessIsTransitive(a, b, c);
      }
    }
  }

  /** A child that does not intersect the interval holds no key of it. */
  lemma IntersectionIsComplete(child: Segment, interval: SkInterval, sk: Bytes)
    requires InSegment(sk, child) && InInterval(sk, interval)
    ensures RangeIntersects(child, interval)
  {
    if interval.upper.Some? {
      Order(child.start, sk, interval.upper.value.value);
      Order(child.start, interval.upper.value.value, sk);
    }
    if interval.lower.Some? && child.end.Some? {
      Order(interval.lower.value.value, sk, child.end.value);
    }
  }

  /**
   * A child that is not empty intersects the interval exactly when one of its keys is below the upper bound,
   * and one is at or above the lower one.
   */
  lemma IntersectsExactly(child: Segment, interval: SkInterval)
    requires child.end.Some? ==> Less(child.start, child.end.value)
    ensures RangeIntersects(child, interval)
            <==> (exists sk :: InSegment(sk, child) && BelowUpper(sk, interval.upper))
                 && (interval.lower.Some? ==> exists sk :: InSegment(sk, child) && AtMost(interval.lower.value.value, sk))
  {
    LessIrreflexive(child.start);
    assert InSegment(child.start, child);
    if sk :| InSegment(sk, child) && BelowUpper(sk, interval.upper) && interval.upper.Some? {
      Order(child.start, sk, interval.upper.value.value);
      Order(child.start, interval.upper.value.value, sk);
    }
    if interval.lower.Some? {
      var l := interval.lower.value.value;
      Order(l, child.start, l);
      LessIrreflexive(l);
      if sk :| InSegment(sk, child) && AtMost(l, sk) && child.end.Some? {
        Order(l, sk, child.end.value);
        Order(sk, l, child.end.value);
      }
      var least := if Less(child.start, l) then l else child.start;
      if child.end.Some? ==> Less(l, child.end.value) {
        if Less(child.start, l) { LessIsAsymmetric(child.start, l); }
        assert InSegment(least, child) && AtMost(l, least);
      }
    }
  }

  /** A child that is not empty is fully before the cursor exactly when each of its keys is, as a position. */
  lemma FullyBeforeExactly(child: Segment, cursor: Cursor, d: Direction)
    requires child.end.Some? ==> Less(child.start, child.end.value)
    ensures IsChildFullyBeforeCursor(child, cursor, d)
            <==> forall sk :: InSegment(sk, child) ==> if d.Asc? then Less(sk, cursor.sk) else !After(sk, Some(cursor), d)
  {
    LessIrreflexive(child.start);
    assert InSegment(child.start, child);
    if IsChildFullyBeforeCursor(child, cursor, d) {
      forall sk | InSegment(sk, child) ensures if d.Asc? then Less(sk, cursor.sk) else !After(sk, Some(cursor), d) {
        FullyBeforeOwesNothing(child, cursor, d, sk);
        if d.Asc? {
          Order(sk, child.end.value, cursor.sk);
          Order(cursor.sk, child.end.value, sk);
        }
      }
    } else {
      Order(cursor.sk, child.start, cursor.sk);
      LessIrreflexive(cursor.sk);
      var kept := if d.Asc? && Less(child.start, cursor.sk) then cursor.sk else child.start;
      if Less(child.start, cursor.sk) { LessIsAsymmetric(child.start, cursor.sk); }
      assert InSegment(kept, child);
    }
  }

  /** The clipped interval selects exactly the keys of the interval inside the child. */
  lemma ClipIsExact(interval: SkInterval, child: Segment, sk: Bytes)
    ensures InInterval(sk, ClipToChildRange(interval, child)) <==> InInterval(sk, interval) && InSegment(sk, child)
  {
    Order(child.start, sk, sk);
    if interval.lower.Some? {
      Order(interval.lower.value.value, child.start, sk);
      Order(child.start, interval.lower.value.value, sk);
      Order(sk, child.start, interval.lower.value.value);
    }
    if child.end.Some? && interval.upper.Some? {
      Order(sk, interval.upper.value.value, child.end.value);
      Order(sk, child.end.value, interval.upper.value.value);
      Order(interval.upper.value.value, child.end.value, sk);
    }
  }

  /** A child that is fully before the cursor owes no key any more. */
  lemma FullyBeforeOwesNothing(child: Segment, cursor: Cursor, d: Direction, sk: Bytes)
    requires IsChildFullyBeforeCursor(child, cursor, d) && InSegment(sk, child)
    ensures !After(sk, Some(cursor), d)
  {
    if d.Asc? {
      Order(sk, child.end.value, cursor.sk);
      Order(cursor.sk, sk, child.end.value);
      Order(cursor.sk, child.end.value, sk);
    } else {
      Order(cursor.sk, child.start, sk);
      Order(sk, cursor.sk, child.start);
      Order(child.start, sk, cursor.sk);
    }
  }

  /** A cursor outside a child that is not before it can be dropped: the whole child is still owed. */
  lemma CursorBeforeChildOwesAll(child: Segment, cursor: Cursor, d: Direction, sk: Bytes)
    requires !IsChildFullyBeforeCursor(child, cursor, d) && !CursorFallsInChild(child, cursor) && InSegment(sk, child)
    ensures After(sk, Some(cursor), d)
  {
    Order(cursor.sk, child.start, sk);
    Order(child.start, cursor.sk, sk);
    Order(child.start, sk, cursor.sk);
    if child.end.Some? {
      Order(sk, child.end.value, cursor.sk);
      Order(cursor.sk, child.end.value, sk);
    }
  }

  /** The boundary cursor after a child with an end: the child owes nothing, and everything beyond it is owed. */
  lemma BoundaryCursorIsExact(child: Segment, d: Direction, sk: Bytes)
    requires d.Asc? ==> child.end.Some?
    ensures After(sk, Some(MakeBoundaryCursor(child, d)), d) <==>
      if d.Asc? then AtMost(child.end.value, sk) else Less(sk, child.start)
  {
    if d.Asc? {
      Order(child.end.value, sk, sk);
      Order(sk, child.end.value, sk);
    }
  }

  // ─── conditions ─────────────────────────────────────────────────────────────

  /** A sort-key condition with encoded keys. An empty prefix stays empty. */
  datatype Condition =
    | Eq(value: Bytes)
    | Gt(value: Bytes)
    | Gte(value: Bytes)
    | Lt(value: Bytes)
    | Lte(value: Bytes)
    | Between(low: Bytes, high: Bytes)
    | BeginsWith(prefix: Bytes)
    | Range(lower: Option<Bound>, upper: Option<Bound>)

  predicate Satisfies(sk: Bytes, c: Condition) {
    match c
    case Eq(v) => sk == v
    case Gt(v) => Less(v, sk)
    case Gte(v) => AtMost(v, sk)
    case Lt(v) => Less(sk, v)
    case Lte(v) => AtMost(sk, v)
    case Between(low, high) => AtMost(low, sk) && AtMost(sk, high)
    case BeginsWith(prefix) => prefix <= sk
    case Range(lower, upper) => AboveLower(sk, lower) && BelowUpper(sk, upper)
  }

  /** `normalizeSkInterval`: nothing for a condition that no key satisfies. */
  function NormalizeSkInterval(c: Option<Condition>): Option<SkInterval> {
    match c
    case None => Some(SkInterval(Some(Bound([], true)), None))
    case Some(Eq(v)) => Some(SkInterval(Some(Bound(v, true)), Some(Bound(v, true))))
    case Some(Gt(v)) => Some(SkInterval(Some(Bound(v, false)), None))
    case Some(Gte(v)) => Some(SkInterval(Some(Bound(v, true)), None))
    case Some(Lt(v)) => Some(SkInterval(None, Some(Bound(v, false))))
    case Some(Lte(v)) => Some(SkInterval(None, Some(Bound(v, true))))
    case Some(Between(low, high)) => if Less(high, low) then None else Some(SkInterval(Some(Bound(low, true)), Some(Bound(high, true))))
    case Some(BeginsWith(prefix)) =>
      if prefix == [] then Some(SkInterval(Some(Bound([], true)), None))
      else
        var s := SuccessorOf(prefix);
        Some(SkInterval(Some(Bound(prefix, true)), if s.Some? then Some(Bound(s.value, false)) else None))
    case Some(Range(lower, upper)) =>
      if lower.Some? && upper.Some? && (Less(upper.value.value, lower.value.value)
          || (lower.value.value == upper.value.value && (!lower.value.inclusive || !upper.value.inclusive)))
      then None else Some(SkInterval(lower, upper))
  }

  /**
   * The interval of a condition selects exactly the keys that satisfy it, and no interval means that none
   * does. Without a condition it selects every key.
   */
  lemma NormalizeIsExact(condition: Option<Condition>, sk: Bytes)
    ensures condition.None? || Satisfies(sk, condition.value)
            <==> NormalizeSkInterval(condition).Some? && InInterval(sk, NormalizeSkInterval(condition).value)
  {
    Order([], sk, sk);
    if condition.Some? {
      ConditionIsExact(condition.value, sk);
    }
  }

  lemma ConditionIsExact(c: Condition, sk: Bytes)
    ensures Satisfies(sk, c) <==> NormalizeSkInterval(Some(c)).Some? && InInterval(sk, NormalizeSkInterval(Some(c)).value)
  {
    match c {
      case Eq(v) => Order(v, sk, v); Order(sk, v, sk);
      case Gte(v) => Order(v, sk, v); Order(sk, v, sk);
      case Lte(v) => Order(v, sk, v); Order(sk, v, sk);
      case Between(low, high) =>
        Order(low, sk, high);
        Order(sk, low, sk);
        Order(sk, high, low);
        Order(high, low, sk);
        Order(high, sk, low);
      case BeginsWith(prefix) =>
        BeginsWithInterval(prefix, sk);
        Order(prefix, sk, prefix);
        Order(sk, prefix, sk);
        Order([], sk, sk);
      case Range(lower, upper) =>
        if lower.Some? && upper.Some? {
          Order(lower.value.value, sk, upper.value.value);
          Order(upper.value.value, lower.value.value, sk);
          Order(lower.value.value, upper.value.value, sk);
          Order(sk, upper.value.value, lower.value.value);
        }
      case _ =>
    }
  }
}
