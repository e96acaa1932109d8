/**
 * How often a participant applies one transaction. A late prepare of checks can pass, and then a repeated
 * commit finds new locks and applies again. This module says exactly when.
 */
module RepeatedChecks {
  import opened Bytes
  import opened Participant
  import opened Coordinator
  import opened TransactionSystem
  import opened TransactionSafety
  import opened TwoPhaseCommit

  // ─── one more round at one participant ──────────────────────────────────────

  /** Each operation at the participant is a check of an item that is present, not locked, and written before the transaction. */
  predicate ChecksPass(part: Partition, ts: int, ops: seq<PlannedOp>, p: PartId) {
    forall i :: 0 <= i < |ops| && ops[i].participant == p ==>
      && ops[i].op.Check? && ops[i].key !in part.locks
      && ops[i].key in part.store.items && part.store.items[ops[i].key].writeTs < ts
  }

  /** A late prepare and then a repeated commit. */
  function Round(s: System, tx: TxId, p: PartId): System {
    Next(Next(s, DeliverPrepare(tx, p, false)), DeliverCommit(tx, p))
  }

  /** The participant applied the transaction and holds no lock of it, and its requests are still on the way. */
  ghost predicate Settled(s: System, tx: TxId, p: PartId) {
    && Reachable(s) && PartOf(s, tx, p) && p in s.parts && AppliedAt(s, tx, p)
    && LockedKeys(s.parts[p], tx) == {}
    && PrepareRequest(tx, p) in s.net && CommitRequest(tx, p) in s.net
  }

  /** After an apply, the watermarks refuse a prepare unless each of its operations is a check that passes. */
  lemma CanLockAgain(s: System, tx: TxId, p: PartId)
    requires Settled(s, tx, p)
    ensures CanLock(s.parts[p], tx, s.plans[tx].ts, s.plans[tx].ops, p) <==> ChecksPass(s.parts[p], s.plans[tx].ts, s.plans[tx].ops, p)
  {
    hide Reachable;
    ReachableInv(s);
    assert Stamped(s, tx, p) by { hide LockInv, GuardInv, TokensInv, NetInv, PlanInv, CommitInv, LedgerInv; }
    hide Inv;
    var part, plan := s.parts[p], s.plans[tx];
    if CanLock(part, tx, plan.ts, plan.ops, p) {
      forall i | 0 <= i < |plan.ops| && plan.ops[i].participant == p
        ensures plan.ops[i].op.Check? && plan.ops[i].key !in part.locks
        ensures plan.ops[i].key in part.store.items && part.store.items[plan.ops[i].key].writeTs < plan.ts
      {
        var k := plan.ops[i].key;
        assert k in KeysOf(plan.ops, p) && k !in LockedKeys(part, tx);
      }
    }
  }

  lemma LatePrepare(s: System, tx: TxId, p: PartId)
    requires tx in s.plans && p in s.parts && PrepareRequest(tx, p) in s.net
    ensures var s', plan := Next(s, DeliverPrepare(tx, p, false)), s.plans[tx];
            && s'.plans == s.plans && s'.applied == s.applied && s.net <= s'.net && p in s'.parts
            && s'.parts[p] == if CanLock(s.parts[p], tx, plan.ts, plan.ops, p) then WriteLocks(s.parts[p], tx, plan.ts, plan.ops, p, s.now) else s.parts[p]
  {
    hide CanLock, WriteLocks;
  }

  lemma CommitCounts(s: System, tx: TxId, p: PartId)
    requires LockInv(s) && tx in s.plans && p in s.parts && CommitRequest(tx, p) in s.net
    ensures var s', plan := Next(s, DeliverCommit(tx, p)), s.plans[tx];
            && s'.plans == s.plans && s.net <= s'.net && p in s'.parts
            && s'.applied[(tx, p)] == s.applied[(tx, p)] + (if LockedKeys(s.parts[p], tx) == {} then 0 else 1)
            && s'.parts[p] == (if LockedKeys(s.parts[p], tx) == {} then s.parts[p]
                               else Partition(ApplyFrom(s.parts[p].store, s.parts[p].locks, plan.ops, p, 0, plan.ts),
                                              s.parts[p].locks - LockedKeys(s.parts[p], tx), s.parts[p].guarded))
  {
    hide Next, ApplyFrom, LockedKeys, KeysOf, LockInv;
    DeliverCommitIs(s, tx, p);
    CommitFindsItsRows(s, tx, p);
  }

  lemma DeliverCommitIs(s: System, tx: TxId, p: PartId)
    requires CommitRequest(tx, p) in s.net && tx in s.plans && p in s.parts
    ensures Next(s, DeliverCommit(tx, p)) == DoDeliverCommit(s, tx, p)
  {
    hide DoDeliverCommit;
  }

  /** A prepare that locks, and then a commit, apply one more time; a refused one leaves nothing to apply. */
  lemma RoundApplies(s: System, tx: TxId, p: PartId)
    requires Settled(s, tx, p)
    ensures Reachable(Round(s, tx, p))
    ensures Round(s, tx, p).applied[(tx, p)]
            == s.applied[(tx, p)] + if CanLock(s.parts[p], tx, s.plans[tx].ts, s.plans[tx].ops, p) then 1 else 0
  {
    hide Reachable, Next, CanLock, WriteLocks, ApplyFrom, LockedKeys, ParticipantsOf;
    var s1, plan := Next(s, DeliverPrepare(tx, p, false)), s.plans[tx];
    ReachableNext(s, DeliverPrepare(tx, p, false));
    ReachableNext(s1, DeliverCommit(tx, p));
    LatePrepare(s, tx, p);
    ReachableLocks(s1);
    CommitCounts(s1, tx, p);
    if CanLock(s.parts[p], tx, plan.ts, plan.ops, p) {
      LockedAfterPrepare(s.parts[p], tx, plan.ts, plan.ops, p, s.now);
    }
  }

  lemma ReachableLocks(s: System)
    requires Reachable(s)
    ensures LockInv(s)
  {
    hide Reachable, LockInv, AppliedInv, GuardInv, TokensInv, NetInv, PlanInv, CommitInv, LedgerInv;
    ReachableInv(s);
  }

  lemma LockedAfterPrepare(part: Partition, tx: TxId, ts: int, ops: seq<PlannedOp>, p: PartId, now: int)
    requires p in ParticipantsOf(ops) && LockedKeys(part, tx) == {} && CanLock(part, tx, ts, ops, p)
    ensures LockedKeys(WriteLocks(part, tx, ts, ops, p, now), tx) != {}
  {
    var i :| 0 <= i < |ops| && ops[i].participant == p;
    var k := ops[i].key;
    assert k in KeysOf(ops, p) && k !in LockedKeys(part, tx);
    assert k in LockedKeys(WriteLocks(part, tx, ts, ops, p, now), tx);
  }

  /**
   * Exactly when a round applies once more: each operation at the participant is a check, and its item is
   * present, not locked by another transaction, and not written at or after the transaction.
   */
  lemma AppliesAgain(s: System, tx: TxId, p: PartId)
    requires Settled(s, tx, p)
    ensures Round(s, tx, p).applied[(tx, p)] == s.applied[(tx, p)] + 1 <==> ChecksPass(s.parts[p], s.plans[tx].ts, s.plans[tx].ops, p)
    ensures !ChecksPass(s.parts[p], s.plans[tx].ts, s.plans[tx].ops, p) ==> Round(s, tx, p).applied[(tx, p)] == s.applied[(tx, p)]
  {
    CanLockAgain(s, tx, p);
    RoundApplies(s, tx, p);
  }

  // ─── any number of rounds ───────────────────────────────────────────────────

  /** What a check leaves alone: which items are present, and when each was written. */
  predicate SameWrites(a: Store, b: Store) {
    a.items.Keys == b.items.Keys && forall k :: k in a.items ==> a.items[k].writeTs == b.items[k].writeTs
  }

  lemma {:induction false} ChecksKeepWrites(s: Store, locks: map<ItemKey, Lock>, ops: seq<PlannedOp>, p: PartId, i: nat, ts: int)
    requires i <= |ops|
    requires forall j :: 0 <= j < |ops| && ops[j].participant == p && ops[j].key in locks && j in locks[ops[j].key].ops ==>
      locks[ops[j].key].ops[j].Check? && ops[j].key in s.items
    ensures SameWrites(s, ApplyFrom(s, locks, ops, p, i, ts))
    decreases |ops| - i
  {
    if i < |ops| {
      var k := ops[i].key;
      var s' := if ops[i].participant == p && k in locks && i in locks[k].ops then ApplyOp(s, k, locks[k].ops[i], ts) else s;
      assert SameWrites(s, s');
      ChecksKeepWrites(s', locks, ops, p, i + 1, ts);
    }
  }

  /** The locks of the checks, and what is left of the locks after the apply. */
  lemma CheckedLocks(part: Partition, tx: TxId, ts: int, ops: seq<PlannedOp>, p: PartId, now: int)
    requires ChecksPass(part, ts, ops, p) && LockedKeys(part, tx) == {}
    ensures CanLock(part, tx, ts, ops, p)
    ensures var locks := WriteLocks(part, tx, ts, ops, p, now).locks;
            && LockedKeys(WriteLocks(part, tx, ts, ops, p, now), tx) == KeysOf(ops, p)
            && locks - KeysOf(ops, p) == part.locks
            && (forall j :: 0 <= j < |ops| && ops[j].participant == p && ops[j].key in locks && j in locks[ops[j].key].ops ==>
                  locks[ops[j].key].ops[j].Check?)
  {
    var locked := WriteLocks(part, tx, ts, ops, p, now);
    assert forall k :: k in KeysOf(ops, p) ==> k !in part.locks;
    assert forall k :: k in part.locks ==> part.locks[k].tx != tx by {
      forall k | k in part.locks ensures part.locks[k].tx != tx {
        assert k !in LockedKeys(part, tx);
      }
    }
    forall j | 0 <= j < |ops| && ops[j].participant == p ensures locked.locks[ops[j].key].ops == OpsOf(ops, p, ops[j].key) && ops[j].op.Check? {
      assert ops[j].key in KeysOf(ops, p);
    }
  }

  /** The apply of checks keeps what a later prepare of them looks at. */
  lemma AppliedChecksPass(part: Partition, tx: TxId, ts: int, ops: seq<PlannedOp>, p: PartId, now: int)
    requires ChecksPass(part, ts, ops, p) && LockedKeys(part, tx) == {}
    ensures var locked := WriteLocks(part, tx, ts, ops, p, now);
            var after := Partition(ApplyFrom(part.store, locked.locks, ops, p, 0, ts), locked.locks - LockedKeys(locked, tx), part.guarded);
            ChecksPass(after, ts, ops, p) && LockedKeys(after, tx) == {}
  {
    CheckedLocks(part, tx, ts, ops, p, now);
    var locked := WriteLocks(part, tx, ts, ops, p, now);
    ChecksKeepWrites(part.store, locked.locks, ops, p, 0, ts);
    hide WriteLocks, ApplyFrom, KeysOf;
    assert locked.locks - LockedKeys(locked, tx) == part.locks;
  }

  /** A round of checks that pass ends where another one can start. */
  lemma RoundGoesOn(s: System, tx: TxId, p: PartId)
    requires Settled(s, tx, p) && ChecksPass(s.parts[p], s.plans[tx].ts, s.plans[tx].ops, p)
    ensures var s' := Round(s, tx, p);
            && s'.plans == s.plans && Settled(s', tx, p) && ChecksPass(s'.parts[p], s'.plans[tx].ts, s'.plans[tx].ops, p)
            && s'.applied[(tx, p)] == s.applied[(tx, p)] + 1
  {
    var plan := s.plans[tx];
    AppliesAgain(s, tx, p);
    RoundApplies(s, tx, p);
    var s1 := Next(s, DeliverPrepare(tx, p, false));
    assert PartOf(s, tx, p) && p in ParticipantsOf(plan.ops);
    hide Reachable, Next, CanLock, WriteLocks, ApplyFrom, LockedKeys, ParticipantsOf, ChecksPass, KeysOf;
    ReachableNext(s, DeliverPrepare(tx, p, false));
    LatePrepare(s, tx, p);
    ReachableLocks(s1);
    CommitCounts(s1, tx, p);
    CheckedLocks(s.parts[p], tx, plan.ts, plan.ops, p, s.now);
    LockedAfterPrepare(s.parts[p], tx, plan.ts, plan.ops, p, s.now);
    AppliedChecksPass(s.parts[p], tx, plan.ts, plan.ops, p, s.now);
  }

  lemma {:induction false} ManyRounds(s: System, tx: TxId, p: PartId, n: nat) returns (s': System)
    requires Settled(s, tx, p) && ChecksPass(s.parts[p], s.plans[tx].ts, s.plans[tx].ops, p)
    ensures Settled(s', tx, p) && s'.plans == s.plans && s'.applied[(tx, p)] == s.applied[(tx, p)] + n
    decreases n
  {
    s' := s;
    if n > 0 {
      hide Settled, ChecksPass, Round;
      RoundGoesOn(s, tx, p);
      s' := ManyRounds(Round(s, tx, p), tx, p, n - 1);
    }
  }

  // ─── a first commit of any plan ─────────────────────────────────────────────

  /** A partition that holds an old row for each key of the plan. */
  function OldRows(plan: Plan, q: PartId): Partition {
    Partition(Store(map k | k in KeysOf(plan.ops, q) :: Row(1, [], plan.ts - 1, plan.ts - 1), 0, plan.ts - 1), map[], {})
  }

  lemma OldRowsCanLock(plan: Plan, tx: TxId, q: PartId)
    ensures CanLock(OldRows(plan, q), tx, plan.ts, plan.ops, q) && LockedKeys(OldRows(plan, q), tx) == {}
    ensures OnlyChecks(plan.ops, q) ==> ChecksPass(OldRows(plan, q), plan.ts, plan.ops, q)
  {
    forall i | 0 <= i < |plan.ops| && plan.ops[i].participant == q ensures plan.ops[i].key in KeysOf(plan.ops, q) {
    }
  }

  /** The participants of `done` have locked and their accepts are stored. */
  ghost predicate Prepared(s: System, tx: TxId, plan: Plan, done: set<PartId>) {
    var all := ParticipantsOf(plan.ops);
    && Reachable(s) && tx in s.plans && s.plans[tx] == plan && s.now == 0 && s.parts.Keys == all
    && tx in s.ledger && s.ledger[tx].state.Preparing? && s.ledger[tx].participants.Keys == all
    && (forall q :: q in all ==> PrepareRequest(tx, q) in s.net && s.applied[(tx, q)] == 0)
    && (forall q :: q in all && q in done ==>
          s.ledger[tx].participants[q] == NEW_PARTICIPANT.(prepare := Accepted) && s.parts[q] == WriteLocks(OldRows(plan, q), tx, plan.ts, plan.ops, q, 0))
    && (forall q :: q in all && q !in done ==> s.ledger[tx].participants[q] == NEW_PARTICIPANT && s.parts[q] == OldRows(plan, q))
  }

  lemma StartOf(tx: TxId, plan: Plan) returns (s: System)
    requires plan.ops != []
    ensures Prepared(s, tx, plan, {})
  {
    var all := ParticipantsOf(plan.ops);
    var s0 := System(0, map[], map q | q in all :: OldRows(plan, q), {}, map[], map[], multiset{});
    assert Reachable(s0) by {
      assert Run(s0, []) == s0;
    }
    hide Reachable, ParticipantsOf, OldRows, Run;
    ReachableNext(s0, Insert(tx, plan));
    var s1 := Next(s0, Insert(tx, plan));
    assert s1.ledger == map[tx := NewRow(plan.token, plan.fingerprint, 0, all)];
    hide NewRow;
    StartedRow(s1.ledger[tx]);
    s := SendStep(s1, tx);
  }

  lemma SendStep(s: System, tx: TxId) returns (s': System)
    requires Reachable(s) && tx in s.ledger && tx in s.plans && s.ledger[tx].state.Created?
    ensures Reachable(s') && s' == s.(ledger := s.ledger[tx := StartPreparing(s.ledger[tx])], net := s'.net)
    ensures forall q :: q in ParticipantsOf(s.plans[tx].ops) ==> PrepareRequest(tx, q) in s'.net
  {
    hide Reachable, ParticipantsOf;
    ReachableNext(s, SendPrepares(tx));
    s' := Next(s, SendPrepares(tx));
  }

  lemma StartedRow(row: TxRow)
    ensures StartPreparing(row).participants == row.participants && (row.state.Created? ==> StartPreparing(row).state.Preparing?)
  {
  }

  lemma AnswerStep(s: System, tx: TxId, q: PartId) returns (s': System)
    requires Reachable(s) && tx in s.ledger && s.ledger[tx].state.Preparing? && q in s.ledger[tx].participants
    requires s.ledger[tx].participants[q] == NEW_PARTICIPANT && PrepareAnswer(tx, q, true) in s.net
    ensures Reachable(s') && s' == s.(ledger := s.ledger[tx := SetParticipant(s.ledger[tx], q, NEW_PARTICIPANT.(prepare := Accepted))])
  {
    hide Reachable;
    ReachableNext(s, RecordAnswer(tx, q, true));
    s' := Next(s, RecordAnswer(tx, q, true));
  }

  lemma PrepareStep(s: System, tx: TxId, q: PartId) returns (s': System)
    requires Reachable(s) && tx in s.plans && q in s.parts && PrepareRequest(tx, q) in s.net
    requires CanLock(s.parts[q], tx, s.plans[tx].ts, s.plans[tx].ops, q)
    ensures Reachable(s') && PrepareAnswer(tx, q, true) in s'.net
    ensures s' == s.(parts := s.parts[q := WriteLocks(s.parts[q], tx, s.plans[tx].ts, s.plans[tx].ops, q, s.now)], net := s'.net) && s.net <= s'.net
  {
    hide Reachable, CanLock, WriteLocks;
    ReachableNext(s, DeliverPrepare(tx, q, false));
    s' := Next(s, DeliverPrepare(tx, q, false));
  }

  lemma PrepareOne(s: System, tx: TxId, plan: Plan, done: set<PartId>, q: PartId) returns (s': System)
    requires Prepared(s, tx, plan, done) && q in ParticipantsOf(plan.ops) && q !in done
    ensures Prepared(s', tx, plan, done + {q})
  {
    hide Reachable, ParticipantsOf, OldRows, CanLock, WriteLocks;
    OldRowsCanLock(plan, tx, q);
    var s1 := PrepareStep(s, tx, q);
    s' := AnswerStep(s1, tx, q);
  }

  lemma {:induction false} PrepareAll(s: System, tx: TxId, plan: Plan, done: set<PartId>) returns (s': System)
    requires Prepared(s, tx, plan, done) && done <= ParticipantsOf(plan.ops)
    ensures Prepared(s', tx, plan, ParticipantsOf(plan.ops))
    decreases ParticipantsOf(plan.ops) - done
  {
    s' := s;
    var all := ParticipantsOf(plan.ops);
    var rest := all - done;
    if rest == {} {
      assert all == done + rest;
    } else {
      var q :| q in rest;
      var s1 := PrepareOne(s, tx, plan, done, q);
      hide Prepared;
      s' := PrepareAll(s1, tx, plan, done + {q});
    }
  }

  /** With every accept stored, the transaction commits, and the request of one participant goes out. */
  lemma RequestCommit(s: System, tx: TxId, plan: Plan, p: PartId) returns (s': System)
    requires Prepared(s, tx, plan, ParticipantsOf(plan.ops)) && p in ParticipantsOf(plan.ops)
    ensures Reachable(s') && s'.plans == s.plans && s'.parts == s.parts && s'.applied == s.applied && s.net <= s'.net && CommitRequest(tx, p) in s'.net
  {
    hide Reachable, ParticipantsOf, OldRows, WriteLocks;
    assert AllAccepted(s.ledger[tx]);
    hide AllAccepted;
    ReachableNext(s, DecideCommit(tx));
    var s1 := Next(s, DecideCommit(tx));
    assert s1.ledger[tx] == s.ledger[tx].(state := Committing);
    ReachableNext(s1, SendCommit(tx, p));
    s' := Next(s1, SendCommit(tx, p));
  }

  /** A participant that only checks applies its part of any plan for the first time. */
  lemma FirstApply(tx: TxId, plan: Plan, p: PartId) returns (s: System)
    requires p in ParticipantsOf(plan.ops) && OnlyChecks(plan.ops, p)
    ensures Settled(s, tx, p) && s.plans[tx] == plan && s.applied[(tx, p)] == 1
    ensures ChecksPass(s.parts[p], plan.ts, plan.ops, p)
  {
    var s0 := StartOf(tx, plan);
    var s1 := PrepareAll(s0, tx, plan, {});
    var s2 := RequestCommit(s1, tx, plan, p);
    OldRowsCanLock(plan, tx, p);
    hide Reachable, OldRows, WriteLocks, LockedKeys, ParticipantsOf, ChecksPass, OnlyChecks;
    s := CommitLocked(s2, tx, plan, p, OldRows(plan, p));
  }

  /** The commit of checks that are locked on `part`. */
  lemma CommitLocked(s: System, tx: TxId, plan: Plan, p: PartId, part: Partition) returns (s': System)
    requires Reachable(s) && tx in s.plans && s.plans[tx] == plan && PartOf(s, tx, p) && p in s.parts && s.applied[(tx, p)] == 0
    requires PrepareRequest(tx, p) in s.net && CommitRequest(tx, p) in s.net
    requires s.parts[p] == WriteLocks(part, tx, plan.ts, plan.ops, p, 0)
    requires ChecksPass(part, plan.ts, plan.ops, p) && LockedKeys(part, tx) == {}
    ensures Settled(s', tx, p) && s'.plans == s.plans && s'.applied[(tx, p)] == 1 && ChecksPass(s'.parts[p], plan.ts, plan.ops, p)
  {
    assert p in ParticipantsOf(plan.ops);
    hide Reachable, Next, CanLock, WriteLocks, ApplyFrom, LockedKeys, ParticipantsOf, ChecksPass, KeysOf;
    CheckedLocks(part, tx, plan.ts, plan.ops, p, 0);
    LockedAfterPrepare(part, tx, plan.ts, plan.ops, p, 0);
    AppliedChecksPass(part, tx, plan.ts, plan.ops, p, 0);
    ReachableLocks(s);
    CommitCounts(s, tx, p);
    ReachableNext(s, DeliverCommit(tx, p));
    s' := Next(s, DeliverCommit(tx, p));
  }

  // ─── exactly the participants with only checks ──────────────────────────────

  /** There is a run after which the participant has applied the transaction `n` times. */
  ghost predicate CanApply(tx: TxId, plan: Plan, p: PartId, n: nat) {
    exists s: System :: Reachable(s) && tx in s.plans && s.plans[tx] == plan && s.applied[(tx, p)] == n
  }

  /**
   * "Exactly one time" holds for exactly the participants that write. A participant that only checks can
   * apply any plan any number of times, and one with a write applies it at most one time in every run.
   */
  lemma AppliesTwiceExactlyForChecks(tx: TxId, plan: Plan, p: PartId, n: nat)
    requires p in ParticipantsOf(plan.ops) && n > 1
    ensures CanApply(tx, plan, p, n) <==> OnlyChecks(plan.ops, p)
  {
    hide Reachable, ParticipantsOf, OnlyChecks, ChecksPass;
    if OnlyChecks(plan.ops, p) {
      var s1 := FirstApply(tx, plan, p);
      var s := ManyRounds(s1, tx, p, n - 1);
      assert Reachable(s) && s.plans[tx] == plan && s.applied[(tx, p)] == n;
    } else if CanApply(tx, plan, p, n) {
      var s: System :| Reachable(s) && tx in s.plans && s.plans[tx] == plan && s.applied[(tx, p)] == n;
      AllOrNothing(s, tx, p);
    }
  }

  /** One check of one item, applied two times. */
  lemma ChecksCanApplyTwice()
    ensures CanApply(7, Plan("token", 0, 5, [PlannedOp(1, ItemKey([1], []), Check)]), 1, 2)
  {
    var ops := [PlannedOp(1, ItemKey([1], []), Check)];
    assert ops[0].participant == 1;
    AppliesTwiceExactlyForChecks(7, Plan("token", 0, 5, ops), 1, 2);
  }
}
