/**
 * The timestamp order of the two-phase transactions is a serial order: conflicting applies follow it at
 * each partition, the stores hold what it leaves, and a committed read shows the state after a prefix.
 */
module SerialOrder {
  import opened Bytes
  import opened Participant
  import opened Coordinator
  import opened TransactionSystem
  import opened TransactionSafety
  import opened TwoPhaseCommit
  import opened WriteOrder

  // ─── watched runs ───────────────────────────────────────────────────────────

  /** A run from `s0` ends in `s`, and the monitor of the run holds `m`. */
  ghost predicate Watched(s0: System, s: System, m: Monitor) {
    exists actions :: Initial(s0) && Run(s0, actions) == s && Watch(s0, START, actions) == m
  }

  lemma {:induction false} WatchOfAppend(s: System, m: Monitor, actions: seq<Action>, a: Action)
    ensures Watch(s, m, actions + [a]) == Observe(Watch(s, m, actions), EventOf(Run(s, actions), a))
    decreases |actions|
  {
    hide Next, EventOf, Observe;
    if actions == [] {
      assert [] + [a] == [a] && [a][1..] == [];
    } else {
      assert (actions + [a])[1..] == actions[1..] + [a];
      WatchOfAppend(Next(s, actions[0]), Observe(m, EventOf(s, actions[0])), actions[1..], a);
    }
  }

  lemma WatchedNext(s0: System, s: System, m: Monitor, a: Action)
    requires Watched(s0, s, m)
    ensures Watched(s0, Next(s, a), Observe(m, EventOf(s, a)))
  {
    hide Next, EventOf, Observe, Initial, Run, Watch;
    var actions :| Initial(s0) && Run(s0, actions) == s && Watch(s0, START, actions) == m;
    RunOfAppend(s0, actions, a);
    WatchOfAppend(s0, START, actions, a);
    assert Run(s0, actions + [a]) == Next(s, a);
  }

  lemma ReachableIsWatched(s: System) returns (s0: System, m: Monitor)
    requires Reachable(s)
    ensures Watched(s0, s, m)
  {
    hide Initial, Run, Watch;
    var init, actions :| Initial(init) && s == Run(init, actions);
    s0, m := init, Watch(init, START, actions);
  }

  lemma WatchedIsReachable(s0: System, s: System, m: Monitor)
    requires Watched(s0, s, m)
    ensures Reachable(s)
  {
    hide Initial, Run, Watch;
  }

  lemma {:induction false} RunKeepsOrder(s: System, m: Monitor, actions: seq<Action>)
    requires Inv(s) && OrderInv(s, m)
    ensures OrderInv(Run(s, actions), Watch(s, m, actions))
    decreases |actions|
  {
    if actions != [] {
      var a := actions[0];
      NextKeeps(s, a);
      NextKeepsOrder(s, a, m);
      hide Inv, OrderInv, Next, EventOf, Observe;
      RunKeepsOrder(Next(s, a), Observe(m, EventOf(s, a)), actions[1..]);
    }
  }

  lemma WatchedOrder(s0: System, s: System, m: Monitor)
    requires Watched(s0, s, m)
    ensures Inv(s) && OrderInv(s, m)
  {
    hide Initial, Run, Watch, Inv, OrderInv, Reachable;
    WatchedIsReachable(s0, s, m);
    ReachableInv(s);
    var actions :| Initial(s0) && Run(s0, actions) == s && Watch(s0, START, actions) == m;
    InitialInv(s0);
    StartsInOrder(s0);
    RunKeepsOrder(s0, START, actions);
  }

  // ─── conflicting applies ────────────────────────────────────────────────────

  /**
   * In every run, an apply of a transaction is above the stamp of every earlier put and delete of its keys,
   * also of the writes outside the protocol, and above every earlier operation of the keys that it writes.
   */
  lemma AppliesFollowTimestamps(s0: System, s: System, m: Monitor, a: Action)
    requires Watched(s0, s, m)
    ensures InTimestampOrder(m, EventOf(s, a))
  {
    hide Watched, Next, EventOf, Observe, InTimestampOrder;
    WatchedOrder(s0, s, m);
    NextKeepsOrder(s, a, m);
  }

  /** The transactions have operations on one key of the partition, and one of them writes it. */
  ghost predicate Conflict(a: Plan, b: Plan, p: PartId, k: ItemKey) {
    && k in KeysOf(a.ops, p) && k in KeysOf(b.ops, p)
    && (k in WrittenKeys(a.ops, p) || k in WrittenKeys(b.ops, p))
  }

  lemma NewApplyIsAnEvent(s: System, a: Action, tx: TxId, p: PartId)
    requires LockInv(s) && Next(s, a).applied[(tx, p)] > s.applied[(tx, p)]
    ensures Applies(s, a) && tx in s.plans && EventOf(s, a) == ApplyEvent(s, tx, p) && Next(s, a).plans == s.plans
  {
    hide LockInv, Next, EventOf, Applies, LockGroup, ApplyFrom;
    EventKinds(s, a);
    if Applies(s, a) {
      var t, q := ApplyStep(s, a);
    } else if EventOf(s, a).Nothing? {
      QuietStep(s, a);
      assert false;
    } else {
      PlainStep(s, a);
      assert false;
    }
  }

  /** What applies after a conflicting transaction has a later timestamp. */
  lemma ConflictsFollowTimestamps(s: System, a: Action, tx: TxId, t: TxId, p: PartId, k: ItemKey)
    requires Reachable(s) && Next(s, a).applied[(tx, p)] > s.applied[(tx, p)]
    requires t != tx && AppliedAt(s, t, p) && t in s.plans && tx in s.plans && Conflict(s.plans[tx], s.plans[t], p, k)
    ensures s.plans[t].ts < s.plans[tx].ts
  {
    hide Reachable, Next, EventOf, Applies, Watched;
    var s0, m := ReachableIsWatched(s);
    WatchedOrder(s0, s, m);
    hide StampsAbsorbed, LocksAbove, KeysOf, WrittenKeys;
    NewApplyIsAnEvent(s, a, tx, p);
    AppliesFollowTimestamps(s0, s, m, a);
    assert IsSeen(s, m, t, p);
    if k in WrittenKeys(s.plans[tx].ops, p) {
      assert Above(s.plans[tx].ts, m.read, (p, k)) && AtLeast(m.read, (p, k), s.plans[t].ts);
    } else {
      assert Above(s.plans[tx].ts, m.write, (p, k)) && AtLeast(m.write, (p, k), s.plans[t].ts);
    }
  }

  lemma AppliedStays(s: System, a: Action, t: TxId, p: PartId)
    requires Inv(s) && AppliedAt(s, t, p)
    ensures AppliedAt(Next(s, a), t, p) && t in s.plans && t in Next(s, a).plans && Next(s, a).plans[t] == s.plans[t]
  {
    hide Inv, Next, EventOf, Applies, LockGroup, ApplyFrom, LockInv;
    assert LockInv(s) && t in s.plans by { InvParts(s, t, p); }
    EventKinds(s, a);
    if Applies(s, a) {
      var tx, q := ApplyStep(s, a);
    } else if EventOf(s, a).Nothing? {
      QuietStep(s, a);
    } else {
      PlainStep(s, a);
    }
  }

  lemma InvParts(s: System, t: TxId, p: PartId)
    requires Inv(s)
    ensures LockInv(s) && (AppliedAt(s, t, p) ==> t in s.plans)
  {
  }

  /** Over any run: of two conflicting transactions at a partition, the one that applied first is older. */
  lemma {:induction false} AppliedBeforeIsOlder(s: System, actions: seq<Action>, t: TxId, u: TxId, p: PartId, k: ItemKey)
    requires Reachable(s) && AppliedAt(s, t, p) && !AppliedAt(s, u, p) && AppliedAt(Run(s, actions), u, p)
    requires var plans := Run(s, actions).plans; t in plans && u in plans && Conflict(plans[u], plans[t], p, k)
    ensures Run(s, actions).plans[t].ts < Run(s, actions).plans[u].ts
    decreases |actions|
  {
    hide Reachable, Next, Conflict;
    if actions != [] {
      var a, s1 := actions[0], Next(s, actions[0]);
      ReachableInv(s);
      ReachableNext(s, a);
      hide Inv;
      AppliedStays(s, a, t, p);
      if AppliedAt(s1, u, p) {
        assert Inv(s);
        assert LockInv(s) by { InvParts(s, t, p); }
        NewApplyIsAnEvent(s, a, u, p);
        AppliedPlansStay(s1, actions[1..], t, p);
        AppliedPlansStay(s1, actions[1..], u, p);
        ConflictsFollowTimestamps(s, a, u, t, p, k);
      } else {
        AppliedBeforeIsOlder(s1, actions[1..], t, u, p, k);
      }
    }
  }

  lemma {:induction false} AppliedPlansStay(s: System, actions: seq<Action>, t: TxId, p: PartId)
    requires Reachable(s) && AppliedAt(s, t, p)
    ensures AppliedAt(Run(s, actions), t, p)
    ensures t in s.plans && t in Run(s, actions).plans && Run(s, actions).plans[t] == s.plans[t]
    decreases |actions|
  {
    hide Reachable, Next, Inv;
    ReachableInv(s);
    InvParts(s, t, p);
    if actions != [] {
      AppliedStays(s, actions[0], t, p);
      ReachableNext(s, actions[0]);
      AppliedPlansStay(Next(s, actions[0]), actions[1..], t, p);
    }
  }

  // ─── what the stores hold ───────────────────────────────────────────────────

  /** The transaction applied a put or a delete of the key at the partition. */
  ghost predicate IsWriter(s: System, t: TxId, p: PartId, k: ItemKey) {
    AppliedAt(s, t, p) && t in s.plans && k in WrittenKeys(s.plans[t].ops, p)
  }

  ghost predicate IsLastWriter(s: System, t: TxId, p: PartId, k: ItemKey) {
    IsWriter(s, t, p, k) && forall u :: IsWriter(s, u, p, k) && u != t ==> s.plans[u].ts < s.plans[t].ts
  }

  /** The key holds the effect of its youngest writer, or what it held at the start. */
  ghost predicate SlotHolds(s0: System, s: System, m: Monitor, p: PartId, k: ItemKey)
    requires p in s.parts
  {
    if (p, k) in m.last then
      var t := m.last[(p, k)];
      IsLastWriter(s, t, p, k) && ValueOf(s.parts[p].store, k) == EffectOf(s.plans[t].ops, p, k)
    else
      p in s0.parts && ValueOf(s.parts[p].store, k) == ValueOf(s0.parts[p].store, k) && forall u :: !IsWriter(s, u, p, k)
  }

  ghost predicate ContentInv(s0: System, s: System, m: Monitor) {
    forall p, k {:trigger SlotHolds(s0, s, m, p, k)} :: p in s.parts && (p, k) !in m.plain ==> SlotHolds(s0, s, m, p, k)
  }

  /** A step that changes neither the value of the key nor its writers. */
  lemma SlotStays(s0: System, s: System, s': System, m: Monitor, m': Monitor, p: PartId, k: ItemKey)
    requires p in s.parts && p in s'.parts && SlotHolds(s0, s, m, p, k)
    requires At2(m'.last, (p, k)) == At2(m.last, (p, k))
    requires ValueOf(s'.parts[p].store, k) == ValueOf(s.parts[p].store, k)
    requires forall u :: IsWriter(s', u, p, k) <==> IsWriter(s, u, p, k)
    requires forall u :: IsWriter(s, u, p, k) ==> u in s.plans && u in s'.plans && s'.plans[u] == s.plans[u]
    ensures SlotHolds(s0, s', m', p, k)
  {
    hide ValueOf, IsWriter;
  }

  function At2(m: map<Slot, TxId>, slot: Slot): Option<TxId> {
    if slot in m then Some(m[slot]) else None
  }

  lemma LastAfter(m: Monitor, e: Event, slot: Slot)
    requires e.Stamps?
    ensures At2(Observe(m, e).last, slot) == if e.tx.Some? && slot.0 == e.p && slot.1 in e.writes then e.tx else At2(m.last, slot)
  {
    assert slot in Slots(e.p, e.writes) <==> slot.0 == e.p && slot.1 in e.writes;
    hide Raise;
  }

  /** The value that an apply leaves of each key. */
  lemma ApplyLeaves(s: System, s': System, tx: TxId, p: PartId, k: ItemKey)
    requires IsApply(s, s', tx, p)
    ensures p in s'.parts
    ensures ValueOf(s'.parts[p].store, k) == if k in WrittenKeys(s.plans[tx].ops, p) then EffectOf(s.plans[tx].ops, p, k) else ValueOf(s.parts[p].store, k)
  {
    var plan, part := s.plans[tx], s.parts[p];
    hide ApplyFrom, ValueOf, EffectFrom;
    WrittenAreKeys(plan.ops, p);
    if k in KeysOf(plan.ops, p) {
      assert part.locks[k].ops == OpsOf(plan.ops, p, k);
      ApplyValue(part.store, part.locks, plan.ops, p, 0, plan.ts, k);
      EffectIsOfTheWrites(plan.ops, p, k, 0, ValueOf(part.store, k), None);
    } else {
      UnlockedValue(part.store, part.locks, plan.ops, p, 0, plan.ts, k);
    }
  }

  /** The writers of a key after an apply. */
  lemma WritersAfterApply(s: System, s': System, tx: TxId, p: PartId, q: PartId, k: ItemKey)
    requires IsApply(s, s', tx, p)
    ensures forall u :: IsWriter(s', u, q, k) <==> IsWriter(s, u, q, k) || (u == tx && q == p && k in WrittenKeys(s.plans[tx].ops, p))
  {
    hide ApplyFrom, LockGroup, WrittenKeys, KeysOf, LockedKeys;
  }

  lemma ApplyKeepsContent(s0: System, s: System, s': System, m: Monitor, tx: TxId, p: PartId)
    requires IsApply(s, s', tx, p) && ContentInv(s0, s, m) && AppliesSeen(s, m) && InTimestampOrder(m, ApplyEvent(s, tx, p))
    ensures ContentInv(s0, s', Observe(m, ApplyEvent(s, tx, p)))
  {
    var e := ApplyEvent(s, tx, p);
    var m' := Observe(m, e);
    forall q, k {:trigger SlotHolds(s0, s', m', q, k)} | q in s'.parts && (q, k) !in m'.plain ensures SlotHolds(s0, s', m', q, k) {
      LastAfter(m, e, (q, k));
      WritersAfterApply(s, s', tx, p, q, k);
      if q == p {
        ApplyLeaves(s, s', tx, p, k);
      }
      assert SlotHolds(s0, s, m, q, k);
      hide ApplyFrom, LockGroup, ValueOf, EffectOf, SlotHolds;
      if q == p && k in e.writes {
        YoungestWriter(s, s', m, tx, p, k);
        WrittenSlot(s0, s', m', tx, p, k);
      } else {
        SlotStays(s0, s, s', m, m', q, k);
      }
    }
  }

  lemma WrittenSlot(s0: System, s: System, m: Monitor, t: TxId, p: PartId, k: ItemKey)
    requires p in s.parts && At2(m.last, (p, k)) == Some(t) && IsLastWriter(s, t, p, k)
    requires ValueOf(s.parts[p].store, k) == EffectOf(s.plans[t].ops, p, k)
    ensures SlotHolds(s0, s, m, p, k)
  {
  }

  lemma YoungestWriter(s: System, s': System, m: Monitor, tx: TxId, p: PartId, k: ItemKey)
    requires IsApply(s, s', tx, p) && AppliesSeen(s, m) && InTimestampOrder(m, ApplyEvent(s, tx, p)) && k in WrittenKeys(s.plans[tx].ops, p)
    ensures IsLastWriter(s', tx, p, k)
  {
    WritersAfterApply(s, s', tx, p, p, k);
    WrittenAreKeys(s.plans[tx].ops, p);
    hide ApplyFrom, LockGroup, KeysOf, WrittenKeys;
    forall u | IsWriter(s', u, p, k) && u != tx ensures s'.plans[u].ts < s'.plans[tx].ts {
      assert IsWriter(s, u, p, k) && IsSeen(s, m, u, p);
      assert AtLeast(m.write, (p, k), s.plans[u].ts) && Above(s.plans[tx].ts, m.write, (p, k));
    }
  }

  lemma QuietKeepsContent(s0: System, s: System, s': System, m: Monitor)
    requires IsQuiet(s, s') && ContentInv(s0, s, m) && AppliesSeen(s, m)
    ensures ContentInv(s0, s', m)
  {
    hide IsNewLock, IsSeen, ValueOf, WrittenKeys;
    forall q, k {:trigger SlotHolds(s0, s', m, q, k)} | q in s'.parts && (q, k) !in m.plain ensures SlotHolds(s0, s', m, q, k) {
      assert SlotHolds(s0, s, m, q, k);
      forall u ensures IsWriter(s', u, q, k) <==> IsWriter(s, u, q, k) {
        assert AppliedAt(s', u, q) <==> AppliedAt(s, u, q);
      }
      SlotStays(s0, s, s', m, m, q, k);
    }
  }

  lemma PlainLeaves(s: System, a: Action, k: ItemKey)
    requires IsPlain(s, Next(s, a), EventOf(s, a)) && k !in EventOf(s, a).writes
    ensures ValueOf(Next(s, a).parts[EventOf(s, a).p].store, k) == ValueOf(s.parts[EventOf(s, a).p].store, k)
  {
    hide ApplyAll, ApplyFrom, ApplyOp, CommitLocal, ValueOf;
    if a.SingleShot? {
      var store, locks := s.parts[a.p].store, WholeLocks(a.ops, a.p);
      AllIsFrom(store, a.ops, a.p, 0, a.ts);
      if k in KeysOf(a.ops, a.p) {
        ApplyValue(store, locks, a.ops, a.p, 0, a.ts, k);
        EffectIsOfTheWrites(a.ops, a.p, k, 0, ValueOf(store, k), None);
      } else {
        UnlockedValue(store, locks, a.ops, a.p, 0, a.ts, k);
      }
    } else {
      OpValue(s.parts[a.p].store, a.key, Delete, a.ts, k);
    }
  }

  lemma PlainKeepsContent(s0: System, s: System, a: Action, m: Monitor)
    requires IsPlain(s, Next(s, a), EventOf(s, a)) && ContentInv(s0, s, m)
    ensures ContentInv(s0, Next(s, a), Observe(m, EventOf(s, a)))
  {
    var e, s' := EventOf(s, a), Next(s, a);
    var m' := Observe(m, e);
    hide Next, EventOf, ValueOf, WrittenKeys;
    forall q, k {:trigger SlotHolds(s0, s', m', q, k)} | q in s'.parts && (q, k) !in m'.plain ensures SlotHolds(s0, s', m', q, k) {
      LastAfter(m, e, (q, k));
      assert (q, k) !in m.plain && SlotHolds(s0, s, m, q, k);
      if q == e.p {
        assert (q, k) !in Slots(e.p, e.writes);
        PlainLeaves(s, a, k);
      }
      SlotStays(s0, s, s', m, m', q, k);
    }
  }

  lemma NextKeepsContent(s0: System, s: System, a: Action, m: Monitor)
    requires LockInv(s) && OrderInv(s, m) && ContentInv(s0, s, m)
    ensures ContentInv(s0, Next(s, a), Observe(m, EventOf(s, a)))
  {
    NextKeepsOrder(s, a, m);
    hide LockInv, StampsAbsorbed, LocksAbove, AppliesSeen, Next, EventOf, Applies, IsApply, IsPlain, IsQuiet, InTimestampOrder, ContentInv;
    EventKinds(s, a);
    if Applies(s, a) {
      var tx, p := ApplyStep(s, a);
      ApplyKeepsContent(s0, s, Next(s, a), m, tx, p);
    } else if EventOf(s, a).Nothing? {
      QuietStep(s, a);
      QuietKeepsContent(s0, s, Next(s, a), m);
    } else {
      PlainStep(s, a);
      PlainKeepsContent(s0, s, a, m);
    }
  }

  lemma {:induction false} RunKeepsContent(s0: System, s: System, m: Monitor, actions: seq<Action>)
    requires Inv(s) && OrderInv(s, m) && ContentInv(s0, s, m)
    ensures ContentInv(s0, Run(s, actions), Watch(s, m, actions))
    decreases |actions|
  {
    if actions != [] {
      var a := actions[0];
      NextKeeps(s, a);
      NextKeepsOrder(s, a, m);
      assert LockInv(s) by { InvParts(s, 0, 0); }
      hide Inv, OrderInv, Next, EventOf, Observe, ContentInv, LockInv;
      NextKeepsContent(s0, s, a, m);
      RunKeepsContent(s0, Next(s, a), Observe(m, EventOf(s, a)), actions[1..]);
    }
  }

  lemma WatchedContent(s0: System, s: System, m: Monitor)
    requires Watched(s0, s, m)
    ensures ContentInv(s0, s, m)
  {
    hide Run, Watch, Inv, OrderInv;
    var actions :| Initial(s0) && Run(s0, actions) == s && Watch(s0, START, actions) == m;
    InitialInv(s0);
    StartsInOrder(s0);
    RunKeepsContent(s0, s0, START, actions);
  }

  /**
   * The state of a key after the transactions in timestamp order: where nothing else wrote the key, it holds
   * the effect of its applied writer with the highest timestamp, or what it held at the start.
   */
  lemma StoresFollowTimestamps(s0: System, s: System, m: Monitor, p: PartId, k: ItemKey)
    requires Watched(s0, s, m) && p in s.parts && (p, k) !in m.plain
    ensures forall t :: IsWriter(s, t, p, k) && (forall u :: IsWriter(s, u, p, k) ==> s.plans[u].ts <= s.plans[t].ts) ==>
              ValueOf(s.parts[p].store, k) == EffectOf(s.plans[t].ops, p, k)
    ensures (forall u :: !IsWriter(s, u, p, k)) ==> p in s0.parts && ValueOf(s.parts[p].store, k) == ValueOf(s0.parts[p].store, k)
  {
    hide Watched, IsWriter, ValueOf, EffectOf;
    WatchedContent(s0, s, m);
    assert SlotHolds(s0, s, m, p, k);
  }

  // ─── locks exclude ──────────────────────────────────────────────────────────

  ghost predicate Touches(e: Event, p: PartId, k: ItemKey) {
    e.Stamps? && e.p == p && k in e.keys
  }

  /** While a transaction locks a key, nothing else applies to the key, changes its value, or takes the lock. */
  lemma LocksExclude(s: System, a: Action, p: PartId, k: ItemKey)
    requires Reachable(s) && p in s.parts && k in s.parts[p].locks
    ensures p in Next(s, a).parts
    ensures Touches(EventOf(s, a), p, k) ==> EventOf(s, a).tx == Some(s.parts[p].locks[k].tx)
    ensures !Touches(EventOf(s, a), p, k) ==> ValueOf(Next(s, a).parts[p].store, k) == ValueOf(s.parts[p].store, k)
    ensures k in Next(s, a).parts[p].locks ==> Next(s, a).parts[p].locks[k] == s.parts[p].locks[k]
  {
    hide *;
    ReachableInv(s);
    InvParts(s, 0, p);
    EventKinds(s, a);
    if Applies(s, a) {
      var tx, q := ApplyStep(s, a);
      ApplyExcludes(s, Next(s, a), tx, q, p, k);
    } else if EventOf(s, a).Nothing? {
      QuietStep(s, a);
      QuietExcludes(s, Next(s, a), p, k);
      NothingTouches(EventOf(s, a), p, k);
    } else {
      PlainStep(s, a);
      PlainExcludes(s, a, p, k);
    }
  }

  lemma NothingTouches(e: Event, p: PartId, k: ItemKey)
    requires e.Nothing?
    ensures !Touches(e, p, k)
  {
  }

  lemma ApplyExcludes(s: System, s': System, tx: TxId, q: PartId, p: PartId, k: ItemKey)
    requires IsApply(s, s', tx, q) && p in s.parts && k in s.parts[p].locks
    ensures p in s'.parts
    ensures Touches(ApplyEvent(s, tx, q), p, k) ==> ApplyEvent(s, tx, q).tx == Some(s.parts[p].locks[k].tx)
    ensures !Touches(ApplyEvent(s, tx, q), p, k) ==> ValueOf(s'.parts[p].store, k) == ValueOf(s.parts[p].store, k)
    ensures k in s'.parts[p].locks ==> s'.parts[p].locks[k] == s.parts[p].locks[k]
  {
    ApplyLeaves(s, s', tx, q, k);
    WrittenAreKeys(s.plans[tx].ops, q);
    hide ApplyFrom, LockGroup, ValueOf, KeysOf, WrittenKeys, EffectOf;
  }

  lemma QuietExcludes(s: System, s': System, p: PartId, k: ItemKey)
    requires IsQuiet(s, s') && p in s.parts && k in s.parts[p].locks
    ensures p in s'.parts && s'.parts[p].store == s.parts[p].store
    ensures k in s'.parts[p].locks ==> s'.parts[p].locks[k] == s.parts[p].locks[k]
  {
    hide CanLock, KeysOf;
  }

  lemma PlainExcludes(s: System, a: Action, p: PartId, k: ItemKey)
    requires IsPlain(s, Next(s, a), EventOf(s, a)) && p in s.parts && k in s.parts[p].locks
    ensures p in Next(s, a).parts && !Touches(EventOf(s, a), p, k)
    ensures ValueOf(Next(s, a).parts[p].store, k) == ValueOf(s.parts[p].store, k)
    ensures Next(s, a).parts[p].locks == s.parts[p].locks
  {
    hide Next, EventOf, ValueOf;
    if p == EventOf(s, a).p {
      PlainLeaves(s, a, k);
    }
  }
}
