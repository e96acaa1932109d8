/**
 * One partition as a participant of write transactions: the item store with its version and timestamp
 * stamps, the lock rows, and the prepare, commit and cancel handlers.
 */
module Participant {
  import opened Bytes

  type TxId = nat
  type PartId = nat

  /** An update locks the row that it computed at prepare time, so a commit applies it as a put. */
  datatype Operation = Put(value: Bytes) | Delete | Check

  /** The operation at index `i` of a request has `opIndex` `i`. */
  datatype PlannedOp = PlannedOp(participant: PartId, key: ItemKey, op: Operation)

  datatype Row = Row(version: nat, value: Bytes, readTs: int, writeTs: int)

  /** The `items` table with the one row of `deletion_metadata`. */
  datatype Store = Store(items: map<ItemKey, Row>, maxDeletedV: nat, maxDeleteTs: int)

  /** A lock row: the transaction, its timestamp, and the operations of the key by `opIndex`. */
  datatype Lock = Lock(tx: TxId, ts: int, createdAt: int, ops: map<nat, Operation>)

  /** `guarded` holds the transactions that the lock-age guard keeps for an operator. */
  datatype Partition = Partition(store: Store, locks: map<ItemKey, Lock>, guarded: set<TxId>)

  // ─── the item store ─────────────────────────────────────────────────────────

  /** One store write of one operation of a transaction at `ts`. */
  function ApplyOp(s: Store, key: ItemKey, op: Operation, ts: int): Store {
    match op
    case Put(value) =>
      if key in s.items then
        var r := s.items[key];
        s.(items := s.items[key := Row(r.version + 1, value, Max(r.readTs, ts), Max(r.writeTs, ts))])
      else
        var stamp := Max(ts, s.maxDeleteTs);
        s.(items := s.items[key := Row(s.maxDeletedV + 1, value, stamp, stamp)])
    case Delete =>
      if key in s.items then
        var r := s.items[key];
        Store(s.items - {key}, Max(s.maxDeletedV, r.version + 1), Max(s.maxDeleteTs, Max(ts, r.readTs)))
      else
        s.(maxDeleteTs := Max(s.maxDeleteTs, ts))
    case Check =>
      if key in s.items then
        var r := s.items[key];
        s.(items := s.items[key := r.(readTs := Max(r.readTs, ts))])
      else
        s.(maxDeleteTs := Max(s.maxDeleteTs, ts))
  }

  /** The stamp that orders `key` after everything that has read or written it. */
  function Stamp(s: Store, key: ItemKey): int {
    if key in s.items then s.items[key].readTs else s.maxDeleteTs
  }

  /** The content of a key, without its order stamps: the version and the value, or its absence. */
  function Content(s: Store, key: ItemKey): Option<(nat, Bytes)> {
    if key in s.items then Some((s.items[key].version, s.items[key].value)) else None
  }

  /** What a transactional read compares: `v` of a found item, and `max_deleted_v` of an absent one. */
  function Revision(s: Store, key: ItemKey): nat {
    if key in s.items then s.items[key].version else s.maxDeletedV
  }

  /** The stamp that orders a check: what has written `key`. */
  function WriteStamp(s: Store, key: ItemKey): int {
    if key in s.items then s.items[key].writeTs else s.maxDeleteTs
  }

  /**
   * One write raises the stamp of its key to `ts` and lowers no stamp. It never lowers a revision, and a key
   * whose content changes gets a higher one. The stamp is the least that is at or above `ts` and the stamps
   * that the key had, where a removed row takes the place of all removed rows. A put takes the next revision,
   * and a check leaves the write stamp of a row and every row of another key.
   */
  lemma ApplyOpAdvances(s: Store, key: ItemKey, op: Operation, ts: int, other: ItemKey)
    ensures Stamp(ApplyOp(s, key, op, ts), key) >= ts
    ensures Stamp(ApplyOp(s, key, op, ts), other) >= Stamp(s, other)
    ensures Revision(ApplyOp(s, key, op, ts), other) >= Revision(s, other)
    ensures Content(ApplyOp(s, key, op, ts), other) == Content(s, other)
            || Revision(ApplyOp(s, key, op, ts), other) > Revision(s, other)
    ensures other != key ==> Content(ApplyOp(s, key, op, ts), other) == Content(s, other)
    ensures op.Put? ==> Revision(ApplyOp(s, key, op, ts), key) > Revision(s, key)
    ensures op.Check? ==> Content(ApplyOp(s, key, op, ts), other) == Content(s, other)
    ensures Stamp(ApplyOp(s, key, op, ts), key)
            == Max(Max(Stamp(s, key), ts), if op.Delete? then s.maxDeleteTs else Stamp(s, key))
    ensures op.Put? ==> Revision(ApplyOp(s, key, op, ts), key) == Revision(s, key) + 1
    ensures key in s.items && op.Check? ==> WriteStamp(ApplyOp(s, key, op, ts), key) == WriteStamp(s, key)
    ensures key in s.items && op.Put? ==> WriteStamp(ApplyOp(s, key, op, ts), key) == Max(WriteStamp(s, key), ts)
    ensures other != key && other in s.items ==> other in ApplyOp(s, key, op, ts).items && ApplyOp(s, key, op, ts).items[other] == s.items[other]
    ensures op.Put? ==> ApplyOp(s, key, op, ts).maxDeletedV == s.maxDeletedV && ApplyOp(s, key, op, ts).maxDeleteTs == s.maxDeleteTs
  {
  }

  // ─── prepare ────────────────────────────────────────────────────────────────

  /** The operations of `key` among the operations of participant `p`, by `opIndex`. */
  function OpsOf(ops: seq<PlannedOp>, p: PartId, key: ItemKey): map<nat, Operation> {
    map i: nat | i < |ops| && ops[i].participant == p && ops[i].key == key :: ops[i].op
  }

  function KeysOf(ops: seq<PlannedOp>, p: PartId): set<ItemKey> {
    set i | 0 <= i < |ops| && ops[i].participant == p :: ops[i].key
  }

  function ParticipantsOf(ops: seq<PlannedOp>): set<PartId> {
    set i | 0 <= i < |ops| :: ops[i].participant
  }

  predicate OnlyChecks(ops: seq<PlannedOp>, p: PartId) {
    forall i :: 0 <= i < |ops| && ops[i].participant == p ==> ops[i].op.Check?
  }

  /** The watermark that a transaction timestamp must be above: a check orders only against writes. */
  function Watermark(s: Store, key: ItemKey, op: Operation): int {
    if key !in s.items then s.maxDeleteTs
    else if op.Check? then s.items[key].writeTs
    else s.items[key].readTs
  }

  /** The locks and the order timestamps that decide a prepare. A key that the transaction already locks passes. */
  predicate CanLock(part: Partition, tx: TxId, ts: int, ops: seq<PlannedOp>, p: PartId) {
    forall i :: 0 <= i < |ops| && ops[i].participant == p ==>
      if ops[i].key in part.locks then part.locks[ops[i].key].tx == tx
      else ts > Watermark(part.store, ops[i].key, ops[i].op)
  }

  /** The lock block of an accepted prepare: one row for each key that the transaction does not lock yet. */
  function WriteLocks(part: Partition, tx: TxId, ts: int, ops: seq<PlannedOp>, p: PartId, now: int): Partition {
    part.(locks := map k | k in part.locks.Keys + KeysOf(ops, p) ::
      if k in part.locks then part.locks[k] else Lock(tx, ts, now, OpsOf(ops, p, k)))
  }

  // ─── commit and cancel ──────────────────────────────────────────────────────

  /** The rows of the transaction in `pending_transactions`. */
  function LockedKeys(part: Partition, tx: TxId): set<ItemKey> {
    set k | k in part.locks && part.locks[k].tx == tx
  }

  /** Applies the operations of the lock rows from `opIndex` `i` on, in `opIndex` order. */
  function ApplyFrom(s: Store, locks: map<ItemKey, Lock>, ops: seq<PlannedOp>, p: PartId, i: nat, ts: int): Store
    requires i <= |ops|
    decreases |ops| - i
  {
    if i == |ops| then s
    else
      var k := ops[i].key;
      var s' := if ops[i].participant == p && k in locks && i in locks[k].ops
                then ApplyOp(s, k, locks[k].ops[i], ts) else s;
      ApplyFrom(s', locks, ops, p, i + 1, ts)
  }

  datatype CommitAnswer = NoLocalWork | Applied(after: Partition) | KeysetMismatch

  /** `commitLocal`: no row left is the idempotent success, and rows that do not match the request are an error. */
  function CommitLocal(part: Partition, tx: TxId, ts: int, ops: seq<PlannedOp>, p: PartId): CommitAnswer {
    var owned := LockedKeys(part, tx);
    if owned == {} then NoLocalWork
    else if owned != KeysOf(ops, p) || (exists k :: k in owned && part.locks[k].ts != ts) then KeysetMismatch
    else Applied(part.(store := ApplyFrom(part.store, part.locks, ops, p, 0, ts), locks := part.locks - owned))
  }

  /** `cancelLocal`: releases the locks of the transaction under `keys`. */
  function CancelLocal(part: Partition, tx: TxId, keys: set<ItemKey>): Partition {
    part.(locks := part.locks - (LockedKeys(part, tx) * keys))
  }

  /** `hasPendingWrite` of a transactional read: a lock of only checks does not hide a value. */
  predicate HasPendingWrite(part: Partition, key: ItemKey) {
    key in part.locks && exists i :: i in part.locks[key].ops && !part.locks[key].ops[i].Check?
  }

  // ─── facts about apply ──────────────────────────────────────────────────────

  /** The lock rows of `tx` at `p` are the ones that its prepare writes. */
  predicate LocksMatch(locks: map<ItemKey, Lock>, tx: TxId, ts: int, ops: seq<PlannedOp>, p: PartId) {
    && (forall k :: k in KeysOf(ops, p) ==> k in locks && locks[k].tx == tx)
    && (forall k :: k in locks && locks[k].tx == tx ==> k in KeysOf(ops, p) && locks[k].ts == ts && locks[k].ops == OpsOf(ops, p, k))
  }

  /** Apply lowers no stamp and no revision, leaves the other keys alone, and stamps each key that it visits. */
  lemma {:induction false} ApplyFromAdvances(s: Store, locks: map<ItemKey, Lock>, ops: seq<PlannedOp>, p: PartId, i: nat, ts: int,
                                             key: ItemKey)
    requires i <= |ops|
    ensures var s' := ApplyFrom(s, locks, ops, p, i, ts);
            && Stamp(s', key) >= Stamp(s, key)
            && Revision(s', key) >= Revision(s, key)
            && (Content(s', key) == Content(s, key) || Revision(s', key) > Revision(s, key))
    ensures forall j {:trigger ops[j]} :: i <= j < |ops| && ops[j].participant == p && ops[j].key == key && key in locks && j in locks[key].ops ==>
              Stamp(ApplyFrom(s, locks, ops, p, i, ts), key) >= ts
    ensures key !in locks ==> Content(ApplyFrom(s, locks, ops, p, i, ts), key) == Content(s, key)
    decreases |ops| - i
  {
    if i < |ops| {
      var k := ops[i].key;
      var s' := s;
      if ops[i].participant == p && k in locks && i in locks[k].ops {
        ApplyOpAdvances(s, k, locks[k].ops[i], ts, key);
        s' := ApplyOp(s, k, locks[k].ops[i], ts);
      }
      ApplyFromAdvances(s', locks, ops, p, i + 1, ts, key);
    }
  }

  /** A second apply of checks that are already stamped changes nothing. */
  lemma {:induction false} RepeatedChecksChangeNothing(s: Store, locks: map<ItemKey, Lock>, ops: seq<PlannedOp>, p: PartId, i: nat, ts: int)
    requires i <= |ops|
    requires forall j, k :: k in locks && j in locks[k].ops && 0 <= j < |ops| && ops[j].participant == p && ops[j].key == k ==>
      locks[k].ops[j].Check? && Stamp(s, k) >= ts
    ensures ApplyFrom(s, locks, ops, p, i, ts) == s
    decreases |ops| - i
  {
    if i < |ops| {
      var k := ops[i].key;
      if ops[i].participant == p && k in locks && i in locks[k].ops {
        assert locks[k].ops[i].Check? && Stamp(s, k) >= ts;
        assert ApplyOp(s, k, Check, ts) == s by {
          if k in s.items {
            assert s.items[k := s.items[k]] == s.items;
          }
        }
      }
      RepeatedChecksChangeNothing(s, locks, ops, p, i + 1, ts);
    }
  }
}
