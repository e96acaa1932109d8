/**
 * The order of the writes of two-phase transactions. A monitor watches each apply and each plain write,
 * and keeps for each key at a partition the highest stamps and the last transaction that wrote it.
 */
module WriteOrder {
  import opened Bytes
  import opened Participant
  import opened Coordinator
  import opened TransactionSystem
  import opened TransactionSafety
  import opened TwoPhaseCommit

  type Slot = (PartId, ItemKey)

  // ─── what happened to a key ─────────────────────────────────────────────────

  /** The keys of the puts and deletes among the operations of participant `p`. */
  function WrittenKeys(ops: seq<PlannedOp>, p: PartId): set<ItemKey> {
    set i | 0 <= i < |ops| && ops[i].participant == p && !ops[i].op.Check? :: ops[i].key
  }

  /** One apply: of a transaction, or of a single-partition transaction or a delete, which have no ID. */
  datatype Event = Nothing | Stamps(p: PartId, tx: Option<TxId>, keys: set<ItemKey>, writes: set<ItemKey>, ts: int)

  /** A commit request or a commit answer to a stale lock that applies. */
  predicate Applies(s: System, a: Action) {
    match a
    case DeliverCommit(tx, p) => Enabled(s, a) && CommitLocal(s.parts[p], tx, s.plans[tx].ts, s.plans[tx].ops, p).Applied?
    case ApplyRecovery(tx, p, answer) =>
      Enabled(s, a) && answer.IsCommitted? && CommitLocal(s.parts[p], tx, s.plans[tx].ts, s.plans[tx].ops, p).Applied?
    case _ => false
  }

  function ApplyEvent(s: System, tx: TxId, p: PartId): Event
    requires tx in s.plans
  {
    Stamps(p, Some(tx), KeysOf(s.plans[tx].ops, p), WrittenKeys(s.plans[tx].ops, p), s.plans[tx].ts)
  }

  function EventOf(s: System, a: Action): Event {
    match a
    case DeliverCommit(tx, p) => if Applies(s, a) then ApplyEvent(s, tx, p) else Nothing
    case ApplyRecovery(tx, p, _) => if Applies(s, a) then ApplyEvent(s, tx, p) else Nothing
    case SingleShot(p, ops, ts) => if Enabled(s, a) then Stamps(p, None, KeysOf(ops, p), WrittenKeys(ops, p), ts) else Nothing
    case DeleteItem(p, key, ts) =>
      if Enabled(s, a) && key in s.parts[p].store.items then Stamps(p, None, {key}, {key}, ts) else Nothing
    case _ => Nothing
  }

  // ─── the monitor ────────────────────────────────────────────────────────────

  /**
   * The highest stamp of the puts and deletes of each key, the highest stamp of all its operations, the last
   * transaction that wrote it, and the keys that something else wrote.
   */
  datatype Monitor = Monitor(write: map<Slot, int>, read: map<Slot, int>, last: map<Slot, TxId>, plain: set<Slot>)

  const START := Monitor(map[], map[], map[], {})

  function Slots(p: PartId, keys: set<ItemKey>): set<Slot> {
    set k | k in keys :: (p, k)
  }

  function Raise(m: map<Slot, int>, p: PartId, keys: set<ItemKey>, ts: int): map<Slot, int> {
    map slot | slot in m.Keys + Slots(p, keys) ::
      if slot !in m then ts else if slot in Slots(p, keys) then Max(m[slot], ts) else m[slot]
  }

  function Observe(m: Monitor, e: Event): Monitor {
    match e
    case Nothing => m
    case Stamps(p, tx, keys, writes, ts) =>
      Monitor(Raise(m.write, p, writes, ts), Raise(m.read, p, keys, ts),
              if tx.Some? then map slot | slot in m.last.Keys + Slots(p, writes) :: if slot in Slots(p, writes) then tx.value else m.last[slot] else m.last,
              if tx.Some? then m.plain else m.plain + Slots(p, writes))
  }

  function Watch(s: System, m: Monitor, actions: seq<Action>): Monitor
    decreases |actions|
  {
    if actions == [] then m else Watch(Next(s, actions[0]), Observe(m, EventOf(s, actions[0])), actions[1..])
  }

  predicate Above(ts: int, m: map<Slot, int>, slot: Slot) {
    slot in m ==> m[slot] < ts
  }

  /**
   * An apply of a transaction is above every earlier put and delete of its keys, and above every earlier
   * operation of the keys that it writes.
   */
  predicate InTimestampOrder(m: Monitor, e: Event) {
    e.Stamps? && e.tx.Some? ==>
      && (forall k :: k in e.keys ==> Above(e.ts, m.write, (e.p, k)))
      && (forall k :: k in e.writes ==> Above(e.ts, m.read, (e.p, k)))
  }

  // ─── the marks of a store ───────────────────────────────────────────────────

  /** The stamp that a check orders against. */
  function WriteMark(s: Store, key: ItemKey): int {
    if key in s.items then s.items[key].writeTs else s.maxDeleteTs
  }

  /** The store absorbed the stamps: `w` of the writes of a key, `r` of all its operations. */
  predicate Absorbs(s: Store, key: ItemKey, w: Option<int>, r: Option<int>) {
    && (r.Some? ==> r.value <= Stamp(s, key))
    && (w.Some? ==> w.value <= WriteMark(s, key) && r.Some? && w.value <= r.value)
  }

  function Raised(o: Option<int>, ts: int): Option<int> {
    if o.Some? then Some(Max(o.value, ts)) else Some(ts)
  }

  lemma OpAbsorbs(s: Store, key: ItemKey, op: Operation, ts: int, k: ItemKey, w: Option<int>, r: Option<int>)
    requires Absorbs(s, k, w, r)
    ensures Absorbs(ApplyOp(s, key, op, ts), k, if k == key && !op.Check? then Raised(w, ts) else w, if k == key then Raised(r, ts) else r)
  {
  }

  /** An operation on the key is still to come. */
  predicate Visits(locks: map<ItemKey, Lock>, ops: seq<PlannedOp>, p: PartId, i: nat, k: ItemKey) {
    k in locks && exists j :: i <= j < |ops| && ops[j].participant == p && ops[j].key == k && j in locks[k].ops
  }

  predicate VisitsToWrite(locks: map<ItemKey, Lock>, ops: seq<PlannedOp>, p: PartId, i: nat, k: ItemKey) {
    k in locks && exists j :: i <= j < |ops| && ops[j].participant == p && ops[j].key == k && j in locks[k].ops && !locks[k].ops[j].Check?
  }

  predicate VisitsNow(locks: map<ItemKey, Lock>, ops: seq<PlannedOp>, p: PartId, i: nat, k: ItemKey)
    requires i < |ops|
  {
    ops[i].participant == p && ops[i].key == k && k in locks && i in locks[k].ops
  }

  lemma VisitsFrom(locks: map<ItemKey, Lock>, ops: seq<PlannedOp>, p: PartId, i: nat, k: ItemKey)
    requires i < |ops|
    ensures Visits(locks, ops, p, i, k) <==> VisitsNow(locks, ops, p, i, k) || Visits(locks, ops, p, i + 1, k)
    ensures VisitsToWrite(locks, ops, p, i, k)
            <==> (VisitsNow(locks, ops, p, i, k) && !locks[k].ops[i].Check?) || VisitsToWrite(locks, ops, p, i + 1, k)
  {
  }

  lemma {:induction false} ApplyAbsorbs(s: Store, locks: map<ItemKey, Lock>, ops: seq<PlannedOp>, p: PartId, i: nat, ts: int, k: ItemKey, w: Option<int>, r: Option<int>)
    requires i <= |ops| && Absorbs(s, k, w, r)
    ensures Absorbs(ApplyFrom(s, locks, ops, p, i, ts), k, if VisitsToWrite(locks, ops, p, i, k) then Raised(w, ts) else w,
                    if Visits(locks, ops, p, i, k) then Raised(r, ts) else r)
    decreases |ops| - i
  {
    if i < |ops| {
      VisitsFrom(locks, ops, p, i, k);
      hide Visits, VisitsToWrite, ApplyOp, Absorbs;
      var key := ops[i].key;
      if VisitsNow(locks, ops, p, i, key) {
        OpAbsorbs(s, key, locks[key].ops[i], ts, k, w, r);
        ApplyAbsorbs(ApplyOp(s, key, locks[key].ops[i], ts), locks, ops, p, i + 1, ts, k,
                     if k == key && !locks[key].ops[i].Check? then Raised(w, ts) else w, if k == key then Raised(r, ts) else r);
      } else {
        ApplyAbsorbs(s, locks, ops, p, i + 1, ts, k, w, r);
      }
    }
  }

  // ─── the effect of a transaction on a key ───────────────────────────────────

  function ValueOf(s: Store, key: ItemKey): Option<Bytes> {
    if key in s.items then Some(s.items[key].value) else None
  }

  function Effect(op: Operation, before: Option<Bytes>): Option<Bytes> {
    match op
    case Put(value) => Some(value)
    case Delete => None
    case Check => before
  }

  /** What the operations from `i` on leave of the key: the effect of the last write. */
  function EffectFrom(ops: seq<PlannedOp>, p: PartId, key: ItemKey, i: nat, before: Option<Bytes>): Option<Bytes>
    requires i <= |ops|
    decreases |ops| - i
  {
    if i == |ops| then before
    else EffectFrom(ops, p, key, i + 1, if ops[i].participant == p && ops[i].key == key then Effect(ops[i].op, before) else before)
  }

  /** The effect of a transaction on a key that it writes. */
  function EffectOf(ops: seq<PlannedOp>, p: PartId, key: ItemKey): Option<Bytes> {
    EffectFrom(ops, p, key, 0, None)
  }

  lemma {:induction false} EffectIsOfTheWrites(ops: seq<PlannedOp>, p: PartId, key: ItemKey, i: nat, a: Option<Bytes>, b: Option<Bytes>)
    requires i <= |ops|
    ensures (exists j :: i <= j < |ops| && ops[j].participant == p && ops[j].key == key && !ops[j].op.Check?) ==>
              EffectFrom(ops, p, key, i, a) == EffectFrom(ops, p, key, i, b)
    ensures (forall j :: i <= j < |ops| && ops[j].participant == p && ops[j].key == key ==> ops[j].op.Check?) ==> EffectFrom(ops, p, key, i, a) == a
    decreases |ops| - i
  {
    if i < |ops| {
      var own := ops[i].participant == p && ops[i].key == key;
      EffectIsOfTheWrites(ops, p, key, i + 1, if own then Effect(ops[i].op, a) else a, if own then Effect(ops[i].op, b) else b);
    }
  }

  lemma OpValue(s: Store, key: ItemKey, op: Operation, ts: int, k: ItemKey)
    ensures ValueOf(ApplyOp(s, key, op, ts), k) == if k == key then Effect(op, ValueOf(s, k)) else ValueOf(s, k)
  {
  }

  /** The apply of a locked key leaves the effect of its operations. */
  lemma {:induction false} ApplyValue(s: Store, locks: map<ItemKey, Lock>, ops: seq<PlannedOp>, p: PartId, i: nat, ts: int, k: ItemKey)
    requires i <= |ops| && k in locks && locks[k].ops == OpsOf(ops, p, k)
    ensures ValueOf(ApplyFrom(s, locks, ops, p, i, ts), k) == EffectFrom(ops, p, k, i, ValueOf(s, k))
    decreases |ops| - i
  {
    if i < |ops| {
      var key := ops[i].key;
      var s' := s;
      if ops[i].participant == p && key in locks && i in locks[key].ops {
        OpValue(s, key, locks[key].ops[i], ts, k);
        s' := ApplyOp(s, key, locks[key].ops[i], ts);
      }
      hide ApplyOp, ValueOf, Effect;
      ApplyValue(s', locks, ops, p, i + 1, ts, k);
    }
  }

  lemma {:induction false} UnlockedValue(s: Store, locks: map<ItemKey, Lock>, ops: seq<PlannedOp>, p: PartId, i: nat, ts: int, k: ItemKey)
    requires i <= |ops| && k !in KeysOf(ops, p)
    ensures ValueOf(ApplyFrom(s, locks, ops, p, i, ts), k) == ValueOf(s, k)
    decreases |ops| - i
  {
    if i < |ops| {
      var key := ops[i].key;
      if ops[i].participant == p && key in locks && i in locks[key].ops {
        OpValue(s, key, locks[key].ops[i], ts, k);
        UnlockedValue(ApplyOp(s, key, locks[key].ops[i], ts), locks, ops, p, i + 1, ts, k);
      } else {
        UnlockedValue(s, locks, ops, p, i + 1, ts, k);
      }
    }
  }

  // ─── the steps, as the monitor sees them ────────────────────────────────────

  /** An apply of `tx` at `p`. */
  ghost predicate IsApply(s: System, s': System, tx: TxId, p: PartId) {
    && tx in s.plans && p in s.parts && LockGroup(s, p, tx)
    && LockedKeys(s.parts[p], tx) == KeysOf(s.plans[tx].ops, p)
    && s'.plans == s.plans && s'.applied == s.applied + multiset{(tx, p)}
    && s'.parts == s.parts[p := Partition(ApplyFrom(s.parts[p].store, s.parts[p].locks, s.plans[tx].ops, p, 0, s.plans[tx].ts),
                                          s.parts[p].locks - LockedKeys(s.parts[p], tx), s.parts[p].guarded)]
  }

  lemma ApplyIsCommit(s: System, tx: TxId, p: PartId)
    requires LockInv(s) && tx in s.plans && p in s.parts && CommitLocal(s.parts[p], tx, s.plans[tx].ts, s.plans[tx].ops, p).Applied?
    ensures IsApply(s, CommitAt(s, tx, p), tx, p)
  {
    CommitFindsItsRows(s, tx, p);
    hide ApplyFrom, LockGroup, LockInv;
  }

  lemma ApplyStep(s: System, a: Action) returns (tx: TxId, p: PartId)
    requires LockInv(s) && Applies(s, a)
    ensures IsApply(s, Next(s, a), tx, p) && EventOf(s, a) == ApplyEvent(s, tx, p)
  {
    tx, p := a.tx, a.p;
    ApplyIsCommit(s, tx, p);
    hide IsApply, CommitAt, LockInv;
    ApplyNext(s, a);
  }

  lemma ApplyNext(s: System, a: Action)
    requires Applies(s, a)
    ensures a.tx in s.plans && a.p in s.parts && EventOf(s, a) == ApplyEvent(s, a.tx, a.p)
    ensures Next(s, a).(net := {}) == CommitAt(s, a.tx, a.p).(net := {})
  {
    hide ApplyFrom, KeysOf, WrittenKeys;
    if a.ApplyRecovery? {
      assert LockedKeys(s.parts[a.p], a.tx) != {};
    }
  }

  /** A write outside the protocol: no lock of its keys is held, and only the store of `p` changes. */
  ghost predicate IsPlain(s: System, s': System, e: Event) {
    && e.Stamps? && e.tx.None? && e.p in s.parts
    && e.keys !! s.parts[e.p].locks.Keys && e.writes <= e.keys
    && s'.plans == s.plans && s'.applied == s.applied
    && e.p in s'.parts && s'.parts == s.parts[e.p := s.parts[e.p].(store := s'.parts[e.p].store)]
  }

  lemma PlainStep(s: System, a: Action)
    requires EventOf(s, a).Stamps? && EventOf(s, a).tx.None?
    ensures IsPlain(s, Next(s, a), EventOf(s, a))
  {
    hide ApplyAll, ApplyOp, PlainDelete;
  }

  /** No store and no apply changes. A lock that appears is one of an accepted prepare. */
  ghost predicate IsQuiet(s: System, s': System) {
    && s'.parts.Keys == s.parts.Keys && s'.applied == s.applied
    && (forall t :: t in s.plans ==> t in s'.plans && s'.plans[t] == s.plans[t])
    && (forall p :: p in s.parts ==> s'.parts[p].store == s.parts[p].store)
    && (forall p, k {:trigger s'.parts[p].locks[k]} :: p in s.parts && k in s'.parts[p].locks ==>
          (k in s.parts[p].locks && s'.parts[p].locks[k] == s.parts[p].locks[k]) || IsNewLock(s, p, k, s'.parts[p].locks[k]))
  }

  ghost predicate IsNewLock(s: System, p: PartId, k: ItemKey, l: Lock)
    requires p in s.parts
  {
    && l.tx in s.plans && k !in s.parts[p].locks
    && CanLock(s.parts[p], l.tx, s.plans[l.tx].ts, s.plans[l.tx].ops, p)
    && k in KeysOf(s.plans[l.tx].ops, p) && l.ts == s.plans[l.tx].ts && l.ops == OpsOf(s.plans[l.tx].ops, p, k)
  }

  lemma QuietStep(s: System, a: Action)
    requires LockInv(s) && EventOf(s, a).Nothing?
    ensures IsQuiet(s, Next(s, a))
  {
    hide IsNewLock, LockInv, ApplyAll;
    if !ParticipantStep(a) {
      CoordinatorKeepsParts(s, a);
      forall t | t in s.plans ensures t in Next(s, a).plans && Next(s, a).plans[t] == s.plans[t] {
        PlansStay(s, a, t);
      }
      hide Next, EventOf;
    } else if Enabled(s, a) {
      hide CommitLocal, ChecksAlreadyStamped, OverAge;
      match a {
        case DeliverPrepare(tx, p, refuse) => PrepareIsQuiet(s, tx, p, refuse);
        case DeliverCommit(tx, p) => QuietCommit(s, tx, p);
        case ApplyRecovery(tx, p, answer) => QuietRecovery(s, tx, p, answer);
        case DeliverCancel(tx, p) => QuietCancel(s, tx, p, KeysOf(s.plans[tx].ops, p));
        case SingleShot(p, ops, ts) =>
        case DeleteItem(p, key, ts) => SamePartition(s, p);
      }
    }
  }

  lemma SamePartition(s: System, p: PartId)
    requires p in s.parts
    ensures WithPart(s, p, s.parts[p]) == s
  {
    assert s.parts[p := s.parts[p]] == s.parts;
  }

  lemma PrepareIsQuiet(s: System, tx: TxId, p: PartId, refuse: bool)
    requires tx in s.plans && p in s.parts
    ensures IsQuiet(s, DoDeliverPrepare(s, tx, p, refuse))
  {
    hide CanLock, KeysOf, OpsOf;
  }

  lemma QuietCommit(s: System, tx: TxId, p: PartId)
    requires LockInv(s) && tx in s.plans && p in s.parts && !CommitLocal(s.parts[p], tx, s.plans[tx].ts, s.plans[tx].ops, p).Applied?
    ensures IsQuiet(s, DoDeliverCommit(s, tx, p)) && CommitAt(s, tx, p) == s
  {
    hide CommitLocal, LockInv, IsNewLock;
  }

  lemma QuietCancel(s: System, tx: TxId, p: PartId, keys: set<ItemKey>)
    requires p in s.parts
    ensures IsQuiet(s, CancelAt(s, tx, p, keys)) && IsQuiet(s, Send(CancelAt(s, tx, p, keys), CancelAck(tx, p)))
  {
    hide IsNewLock;
  }

  lemma QuietRecovery(s: System, tx: TxId, p: PartId, answer: RecoverAnswer)
    requires LockInv(s) && tx in s.plans && p in s.parts
    requires answer.IsCommitted? ==> !CommitLocal(s.parts[p], tx, s.plans[tx].ts, s.plans[tx].ops, p).Applied?
    ensures IsQuiet(s, DoApplyRecovery(s, tx, p, answer))
  {
    QuietCancel(s, tx, p, LockedKeys(s.parts[p], tx));
    if answer.IsCommitted? {
      QuietCommit(s, tx, p);
    }
    hide CommitLocal, LockInv, IsNewLock, CancelAt, ChecksAlreadyStamped, OverAge, CommitAt;
  }

  /** Every step is an apply, a plain write, or quiet. */
  lemma EventKinds(s: System, a: Action)
    ensures EventOf(s, a).Nothing? || (EventOf(s, a).Stamps? && (EventOf(s, a).tx.Some? <==> Applies(s, a)))
    ensures EventOf(s, a).Nothing? ==> !Applies(s, a)
  {
    hide CommitLocal, KeysOf, WrittenKeys;
  }

  // ─── what the monitor knows ─────────────────────────────────────────────────

  function At(m: map<Slot, int>, slot: Slot): Option<int> {
    if slot in m then Some(m[slot]) else None
  }

  lemma RaiseAt(m: map<Slot, int>, p: PartId, keys: set<ItemKey>, ts: int, slot: Slot)
    ensures At(Raise(m, p, keys, ts), slot) == if slot.0 == p && slot.1 in keys then Raised(At(m, slot), ts) else At(m, slot)
  {
    assert slot in Slots(p, keys) <==> slot.0 == p && slot.1 in keys;
  }

  /** The stores absorbed every stamp. */
  ghost predicate StampsAbsorbed(s: System, m: Monitor) {
    forall p, k {:trigger At(m.read, (p, k))} :: p in s.parts ==> Absorbs(s.parts[p].store, k, At(m.write, (p, k)), At(m.read, (p, k)))
  }

  predicate HasWrite(l: Lock) {
    exists i :: i in l.ops && !l.ops[i].Check?
  }

  predicate LockIsAbove(m: Monitor, p: PartId, k: ItemKey, l: Lock) {
    Above(l.ts, m.write, (p, k)) && (HasWrite(l) ==> Above(l.ts, m.read, (p, k)))
  }

  /** A lock is above what happened to its key, and while it is held nothing else happens to the key. */
  ghost predicate LocksAbove(s: System, m: Monitor) {
    forall p, k :: p in s.parts && k in s.parts[p].locks ==> LockIsAbove(m, p, k, s.parts[p].locks[k])
  }

  predicate AtLeast(m: map<Slot, int>, slot: Slot, ts: int) {
    slot in m && m[slot] >= ts
  }

  ghost predicate IsSeen(s: System, m: Monitor, t: TxId, p: PartId)
    requires t in s.plans
  {
    && (forall k :: k in KeysOf(s.plans[t].ops, p) ==> AtLeast(m.read, (p, k), s.plans[t].ts))
    && (forall k :: k in WrittenKeys(s.plans[t].ops, p) ==> AtLeast(m.write, (p, k), s.plans[t].ts))
  }

  /** Every apply was seen. */
  ghost predicate AppliesSeen(s: System, m: Monitor) {
    forall t, p :: AppliedAt(s, t, p) ==> t in s.plans && IsSeen(s, m, t, p)
  }

  ghost predicate OrderInv(s: System, m: Monitor) {
    StampsAbsorbed(s, m) && LocksAbove(s, m) && AppliesSeen(s, m)
  }

  lemma WrittenAreKeys(ops: seq<PlannedOp>, p: PartId)
    ensures WrittenKeys(ops, p) <= KeysOf(ops, p)
  {
  }

  // applies

  /** The lock rows of a transaction hold its operations, so its apply is above what the monitor saw. */
  lemma ApplyIsInOrder(s: System, s': System, m: Monitor, tx: TxId, p: PartId)
    requires IsApply(s, s', tx, p) && LocksAbove(s, m)
    ensures InTimestampOrder(m, ApplyEvent(s, tx, p))
  {
    var plan, locks := s.plans[tx], s.parts[p].locks;
    hide ApplyFrom;
    forall k | k in KeysOf(plan.ops, p) ensures k in locks && locks[k].ts == plan.ts && LockIsAbove(m, p, k, locks[k]) && locks[k].ops == OpsOf(plan.ops, p, k) {
    }
    forall k | k in WrittenKeys(plan.ops, p) ensures Above(plan.ts, m.read, (p, k)) {
      var i :| 0 <= i < |plan.ops| && plan.ops[i].participant == p && !plan.ops[i].op.Check? && plan.ops[i].key == k;
      assert k in KeysOf(plan.ops, p);
      assert i in locks[k].ops && !locks[k].ops[i].Check?;
    }
  }

  lemma ApplyVisits(s: System, s': System, tx: TxId, p: PartId, k: ItemKey)
    requires IsApply(s, s', tx, p)
    ensures Visits(s.parts[p].locks, s.plans[tx].ops, p, 0, k) <==> k in KeysOf(s.plans[tx].ops, p)
    ensures VisitsToWrite(s.parts[p].locks, s.plans[tx].ops, p, 0, k) <==> k in WrittenKeys(s.plans[tx].ops, p)
  {
    hide ApplyFrom;
    var plan, locks := s.plans[tx], s.parts[p].locks;
    WrittenAreKeys(plan.ops, p);
    if k in KeysOf(plan.ops, p) {
      assert locks[k].ops == OpsOf(plan.ops, p, k);
      var i :| 0 <= i < |plan.ops| && plan.ops[i].participant == p && plan.ops[i].key == k;
      assert i in locks[k].ops;
    }
    if k in WrittenKeys(plan.ops, p) {
      var i :| 0 <= i < |plan.ops| && plan.ops[i].participant == p && !plan.ops[i].op.Check? && plan.ops[i].key == k;
      assert i in locks[k].ops && !locks[k].ops[i].Check?;
    }
  }

  lemma ApplyKeepsAbsorbed(s: System, s': System, m: Monitor, tx: TxId, p: PartId)
    requires IsApply(s, s', tx, p) && StampsAbsorbed(s, m)
    ensures StampsAbsorbed(s', Observe(m, ApplyEvent(s, tx, p)))
  {
    var plan, m' := s.plans[tx], Observe(m, ApplyEvent(s, tx, p));
    forall q, k {:trigger At(m'.read, (q, k))} | q in s'.parts ensures Absorbs(s'.parts[q].store, k, At(m'.write, (q, k)), At(m'.read, (q, k))) {
      RaiseAt(m.read, p, KeysOf(plan.ops, p), plan.ts, (q, k));
      RaiseAt(m.write, p, WrittenKeys(plan.ops, p), plan.ts, (q, k));
      hide Raise, Absorbs, At, KeysOf, WrittenKeys, LockGroup;
      assert Absorbs(s.parts[q].store, k, At(m.write, (q, k)), At(m.read, (q, k)));
      if q == p {
        ApplyVisits(s, s', tx, p, k);
        ApplyAbsorbs(s.parts[p].store, s.parts[p].locks, plan.ops, p, 0, plan.ts, k, At(m.write, (p, k)), At(m.read, (p, k)));
      }
    }
  }

  /** The keys of the event are locked by nobody else, so a lock that stays is above as before. */
  lemma StillAbove(m: Monitor, e: Event, p: PartId, k: ItemKey, l: Lock)
    requires LockIsAbove(m, p, k, l) && e.Stamps? && (p != e.p || k !in e.keys) && e.writes <= e.keys
    ensures LockIsAbove(Observe(m, e), p, k, l)
  {
    RaiseAt(m.read, e.p, e.keys, e.ts, (p, k));
    RaiseAt(m.write, e.p, e.writes, e.ts, (p, k));
    hide Raise;
  }

  lemma ApplyKeepsLocks(s: System, s': System, m: Monitor, tx: TxId, p: PartId)
    requires IsApply(s, s', tx, p) && LocksAbove(s, m)
    ensures LocksAbove(s', Observe(m, ApplyEvent(s, tx, p)))
  {
    hide ApplyFrom, LockIsAbove, LockGroup, LocksMatch;
    WrittenAreKeys(s.plans[tx].ops, p);
    forall q, k | q in s'.parts && k in s'.parts[q].locks ensures LockIsAbove(Observe(m, ApplyEvent(s, tx, p)), q, k, s'.parts[q].locks[k]) {
      assert LockIsAbove(m, q, k, s.parts[q].locks[k]);
      StillAbove(m, ApplyEvent(s, tx, p), q, k, s.parts[q].locks[k]);
    }
  }

  lemma SeenStaysSeen(s: System, s': System, m: Monitor, e: Event, t: TxId, p: PartId)
    requires t in s.plans && IsSeen(s, m, t, p) && t in s'.plans && s'.plans[t] == s.plans[t]
    ensures IsSeen(s', Observe(m, e), t, p)
  {
    if e.Stamps? {
      forall k | k in KeysOf(s.plans[t].ops, p) ensures AtLeast(Observe(m, e).read, (p, k), s.plans[t].ts) {
        RaiseAt(m.read, e.p, e.keys, e.ts, (p, k));
      }
      forall k | k in WrittenKeys(s.plans[t].ops, p) ensures AtLeast(Observe(m, e).write, (p, k), s.plans[t].ts) {
        RaiseAt(m.write, e.p, e.writes, e.ts, (p, k));
      }
    }
  }

  lemma ApplyIsSeen(s: System, s': System, m: Monitor, tx: TxId, p: PartId)
    requires IsApply(s, s', tx, p) && AppliesSeen(s, m)
    ensures AppliesSeen(s', Observe(m, ApplyEvent(s, tx, p)))
  {
    hide ApplyFrom, LockGroup, IsSeen;
    var m' := Observe(m, ApplyEvent(s, tx, p));
    forall t, q | AppliedAt(s', t, q) ensures t in s'.plans && IsSeen(s', m', t, q) {
      if t == tx && q == p {
        OwnApplyIsSeen(s, s', m, tx, p);
      } else {
        assert AppliedAt(s, t, q);
        SeenStaysSeen(s, s', m, ApplyEvent(s, tx, p), t, q);
      }
    }
  }

  lemma OwnApplyIsSeen(s: System, s': System, m: Monitor, tx: TxId, p: PartId)
    requires tx in s.plans && s'.plans == s.plans
    ensures IsSeen(s', Observe(m, ApplyEvent(s, tx, p)), tx, p)
  {
    var plan, m' := s.plans[tx], Observe(m, ApplyEvent(s, tx, p));
    forall k | k in KeysOf(plan.ops, p) ensures AtLeast(m'.read, (p, k), plan.ts) {
      RaiseAt(m.read, p, KeysOf(plan.ops, p), plan.ts, (p, k));
    }
    forall k | k in WrittenKeys(plan.ops, p) ensures AtLeast(m'.write, (p, k), plan.ts) {
      RaiseAt(m.write, p, WrittenKeys(plan.ops, p), plan.ts, (p, k));
    }
  }

  lemma ApplyKeepsOrder(s: System, s': System, m: Monitor, tx: TxId, p: PartId)
    requires IsApply(s, s', tx, p) && OrderInv(s, m)
    ensures OrderInv(s', Observe(m, ApplyEvent(s, tx, p)))
  {
    hide IsApply, StampsAbsorbed, LocksAbove, AppliesSeen, Observe;
    ApplyKeepsAbsorbed(s, s', m, tx, p);
    ApplyKeepsLocks(s, s', m, tx, p);
    ApplyIsSeen(s, s', m, tx, p);
  }

  // quiet steps

  /** The watermark of a key is at least what the monitor saw of it. */
  lemma NewLockIsAbove(s: System, m: Monitor, p: PartId, k: ItemKey, l: Lock)
    requires StampsAbsorbed(s, m) && p in s.parts && IsNewLock(s, p, k, l)
    ensures LockIsAbove(m, p, k, l)
  {
    var ops, store := s.plans[l.tx].ops, s.parts[p].store;
    assert Absorbs(store, k, At(m.write, (p, k)), At(m.read, (p, k)));
    var i :| 0 <= i < |ops| && ops[i].participant == p && ops[i].key == k;
    assert l.ts > Watermark(store, k, ops[i].op);
    if HasWrite(l) {
      var j :| j in l.ops && !l.ops[j].Check?;
      assert ops[j].key == k && l.ts > Watermark(store, k, ops[j].op);
    }
  }

  lemma QuietKeepsOrder(s: System, s': System, m: Monitor)
    requires IsQuiet(s, s') && OrderInv(s, m)
    ensures OrderInv(s', m)
  {
    hide LockIsAbove, IsNewLock, Absorbs;
    forall p, k | p in s'.parts && k in s'.parts[p].locks ensures LockIsAbove(m, p, k, s'.parts[p].locks[k]) {
      if k in s.parts[p].locks && s'.parts[p].locks[k] == s.parts[p].locks[k] {
        assert LockIsAbove(m, p, k, s.parts[p].locks[k]);
      } else {
        NewLockIsAbove(s, m, p, k, s'.parts[p].locks[k]);
      }
    }
    hide IsSeen;
    forall t, q | AppliedAt(s', t, q) ensures t in s'.plans && IsSeen(s', m, t, q) {
      assert AppliedAt(s, t, q);
      SeenStaysSeen(s, s', m, Nothing, t, q);
    }
  }

  // plain writes

  function WholeLocks(ops: seq<PlannedOp>, p: PartId): map<ItemKey, Lock> {
    map k | k in KeysOf(ops, p) :: Lock(0, 0, 0, OpsOf(ops, p, k))
  }

  /** A single-partition transaction applies all its operations, as if it locked each of its keys. */
  lemma {:induction false} AllIsFrom(store: Store, ops: seq<PlannedOp>, p: PartId, i: nat, ts: int)
    requires i <= |ops|
    ensures ApplyAll(store, ops, p, i, ts) == ApplyFrom(store, WholeLocks(ops, p), ops, p, i, ts)
    decreases |ops| - i
  {
    if i < |ops| {
      if ops[i].participant == p {
        assert ops[i].key in KeysOf(ops, p);
        AllIsFrom(ApplyOp(store, ops[i].key, ops[i].op, ts), ops, p, i + 1, ts);
      } else {
        AllIsFrom(store, ops, p, i + 1, ts);
      }
    }
  }

  lemma WholeVisits(ops: seq<PlannedOp>, p: PartId, k: ItemKey)
    ensures Visits(WholeLocks(ops, p), ops, p, 0, k) <==> k in KeysOf(ops, p)
    ensures VisitsToWrite(WholeLocks(ops, p), ops, p, 0, k) <==> k in WrittenKeys(ops, p)
  {
    var locks := WholeLocks(ops, p);
    WrittenAreKeys(ops, p);
    if k in KeysOf(ops, p) {
      var i :| 0 <= i < |ops| && ops[i].participant == p && ops[i].key == k;
      assert i in locks[k].ops;
    }
    if k in WrittenKeys(ops, p) {
      var i :| 0 <= i < |ops| && ops[i].participant == p && !ops[i].op.Check? && ops[i].key == k;
      assert i in locks[k].ops && !locks[k].ops[i].Check?;
    }
  }

  lemma PlainAbsorbs(s: System, a: Action, k: ItemKey, w: Option<int>, r: Option<int>)
    requires var e := EventOf(s, a); IsPlain(s, Next(s, a), e) && Absorbs(s.parts[e.p].store, k, w, r)
    ensures var e := EventOf(s, a);
            Absorbs(Next(s, a).parts[e.p].store, k, if k in e.writes then Raised(w, e.ts) else w, if k in e.keys then Raised(r, e.ts) else r)
  {
    hide Absorbs, ApplyAll, ApplyFrom, ApplyOp, CommitLocal, KeysOf, WrittenKeys;
    if a.SingleShot? {
      AllIsFrom(s.parts[a.p].store, a.ops, a.p, 0, a.ts);
      WholeVisits(a.ops, a.p, k);
      ApplyAbsorbs(s.parts[a.p].store, WholeLocks(a.ops, a.p), a.ops, a.p, 0, a.ts, k, w, r);
    } else {
      OpAbsorbs(s.parts[a.p].store, a.key, Delete, a.ts, k, w, r);
    }
  }

  lemma PlainKeepsAbsorbed(s: System, a: Action, m: Monitor)
    requires IsPlain(s, Next(s, a), EventOf(s, a)) && StampsAbsorbed(s, m)
    ensures StampsAbsorbed(Next(s, a), Observe(m, EventOf(s, a)))
  {
    var e, s' := EventOf(s, a), Next(s, a);
    hide Next, EventOf, Absorbs, Raise, At;
    var m' := Observe(m, e);
    forall q, k {:trigger At(m'.read, (q, k))} | q in s'.parts ensures Absorbs(s'.parts[q].store, k, At(m'.write, (q, k)), At(m'.read, (q, k))) {
      RaiseAt(m.read, e.p, e.keys, e.ts, (q, k));
      RaiseAt(m.write, e.p, e.writes, e.ts, (q, k));
      assert Absorbs(s.parts[q].store, k, At(m.write, (q, k)), At(m.read, (q, k)));
      if q == e.p {
        PlainAbsorbs(s, a, k, At(m.write, (q, k)), At(m.read, (q, k)));
      }
    }
  }

  lemma PlainKeepsOrder(s: System, a: Action, m: Monitor)
    requires IsPlain(s, Next(s, a), EventOf(s, a)) && OrderInv(s, m)
    ensures OrderInv(Next(s, a), Observe(m, EventOf(s, a)))
  {
    var e, s' := EventOf(s, a), Next(s, a);
    PlainKeepsAbsorbed(s, a, m);
    hide Next, EventOf, StampsAbsorbed, LockIsAbove, IsSeen, Observe;
    forall p, k | p in s'.parts && k in s'.parts[p].locks ensures LockIsAbove(Observe(m, e), p, k, s'.parts[p].locks[k]) {
      assert LockIsAbove(m, p, k, s.parts[p].locks[k]);
      StillAbove(m, e, p, k, s.parts[p].locks[k]);
    }
    forall t, q | AppliedAt(s', t, q) ensures t in s'.plans && IsSeen(s', Observe(m, e), t, q) {
      assert AppliedAt(s, t, q);
      SeenStaysSeen(s, s', m, e, t, q);
    }
  }

  // every step

  lemma NextKeepsOrder(s: System, a: Action, m: Monitor)
    requires LockInv(s) && OrderInv(s, m)
    ensures OrderInv(Next(s, a), Observe(m, EventOf(s, a))) && InTimestampOrder(m, EventOf(s, a))
  {
    hide LockInv, OrderInv, Next, EventOf, Applies, IsApply, IsPlain, IsQuiet, InTimestampOrder;
    EventKinds(s, a);
    if Applies(s, a) {
      var tx, p := ApplyStep(s, a);
      ApplyKeepsOrder(s, Next(s, a), m, tx, p);
      assert LocksAbove(s, m) by { OrderGivesLocks(s, m); }
      ApplyIsInOrder(s, Next(s, a), m, tx, p);
    } else if EventOf(s, a).Nothing? {
      QuietStep(s, a);
      QuietKeepsOrder(s, Next(s, a), m);
      NothingIsInOrder(m, EventOf(s, a));
    } else {
      PlainStep(s, a);
      PlainKeepsOrder(s, a, m);
      NothingIsInOrder(m, EventOf(s, a));
    }
  }

  lemma OrderGivesLocks(s: System, m: Monitor)
    requires OrderInv(s, m)
    ensures LocksAbove(s, m)
  {
  }

  lemma NothingIsInOrder(m: Monitor, e: Event)
    requires e.Nothing? || e.tx.None?
    ensures InTimestampOrder(m, e) && (e.Nothing? ==> Observe(m, e) == m)
  {
  }

  lemma StartsInOrder(s: System)
    requires Initial(s)
    ensures OrderInv(s, START)
  {
  }

  // ─── the writes without a lock ──────────────────────────────────────────────

  lemma {:induction false} ApplyAllLeaves(store: Store, ops: seq<PlannedOp>, p: PartId, i: nat, ts: int, key: ItemKey)
    requires i <= |ops|
    ensures ValueOf(ApplyAll(store, ops, p, i, ts), key) == EffectFrom(ops, p, key, i, ValueOf(store, key))
    ensures (exists j :: i <= j < |ops| && ops[j].participant == p && ops[j].key == key) ==> Stamp(ApplyAll(store, ops, p, i, ts), key) >= ts
    decreases |ops| - i
  {
    if i < |ops| {
      var next := if ops[i].participant == p then ApplyOp(store, ops[i].key, ops[i].op, ts) else store;
      ApplyOpAdvances(store, ops[i].key, ops[i].op, ts, key);
      ApplyAllLeaves(next, ops, p, i + 1, ts, key);
      ApplyAllAdvances(next, ops, p, i + 1, ts, key);
    }
  }

  /**
   * A single-partition write leaves on each key what its operations leave in order, and stamps each key that
   * it names. No other partition, no lock and no row of the ledger changes.
   */
  lemma SingleShotIsApplied(s: System, p: PartId, ops: seq<PlannedOp>, ts: int, key: ItemKey)
    requires p in s.parts && forall i :: 0 <= i < |ops| && ops[i].participant == p ==> ops[i].key !in s.parts[p].locks
    ensures var s' := Next(s, SingleShot(p, ops, ts));
            && p in s'.parts && s' == s.(parts := s.parts[p := s.parts[p].(store := s'.parts[p].store)])
            && ValueOf(s'.parts[p].store, key) == EffectFrom(ops, p, key, 0, ValueOf(s.parts[p].store, key))
            && (key in KeysOf(ops, p) ==> Stamp(s'.parts[p].store, key) >= ts)
  {
    ApplyAllLeaves(s.parts[p].store, ops, p, 0, ts, key);
    hide ApplyAll, EffectFrom, ValueOf, Stamp;
  }

  /** A delete removes the row of an unlocked key and no other one. Where there is no row it changes nothing. */
  lemma DeleteIsApplied(s: System, p: PartId, key: ItemKey, ts: int)
    requires p in s.parts && key !in s.parts[p].locks
    ensures var s' := Next(s, DeleteItem(p, key, ts));
            && p in s'.parts && s' == s.(parts := s.parts[p := s.parts[p].(store := s'.parts[p].store)])
            && s'.parts[p].store.items == s.parts[p].store.items - {key}
            && (key in s.parts[p].store.items ==> Stamp(s'.parts[p].store, key) >= ts)
            && (key !in s.parts[p].store.items ==> s' == s)
  {
    if key !in s.parts[p].store.items {
      assert s.parts[p].store.items - {key} == s.parts[p].store.items;
      assert s.parts[p := s.parts[p]] == s.parts;
    }
  }
}
