/** What decides a prepare at a participant, and what the ledger does with the answers and the errors that come back. */
module PrepareAnswers {
  import opened Bytes
  import opened Participant
  import opened Coordinator
  import opened TransactionSystem
  import opened TransactionSafety
  import opened TwoPhaseCommit

  // ─── the answer of a participant ────────────────────────────────────────────

  /**
   * No lock and no committed stamp is in the way of the operation: its key is locked by the transaction
   * itself, or nobody locks it and the transaction is above what ordered the key before. An absent item
   * orders by the deletion watermark, a check by the last write, and a write by the last read.
   */
  predicate OpPasses(part: Partition, tx: TxId, ts: int, o: PlannedOp) {
    || (o.key in part.locks && part.locks[o.key].tx == tx)
    || (o.key !in part.locks && o.key !in part.store.items && part.store.maxDeleteTs < ts)
    || (o.key !in part.locks && o.key in part.store.items && o.op == Check && part.store.items[o.key].writeTs < ts)
    || (o.key !in part.locks && o.key in part.store.items && o.op != Check && part.store.items[o.key].readTs < ts)
  }

  predicate AllPass(part: Partition, tx: TxId, plan: Plan, p: PartId) {
    forall i :: 0 <= i < |plan.ops| && plan.ops[i].participant == p ==> OpPasses(part, tx, plan.ts, plan.ops[i])
  }

  /** The keys of the request are locked by the transaction: as before, or with a new row. Every other lock stays. */
  ghost predicate LocksTheKeys(s: System, s': System, tx: TxId, p: PartId)
    requires tx in s.plans && p in s.parts && p in s'.parts
  {
    var keys := set i | 0 <= i < |s.plans[tx].ops| && s.plans[tx].ops[i].participant == p :: s.plans[tx].ops[i].key;
    && s'.parts == s.parts[p := s.parts[p].(locks := s'.parts[p].locks)]
    && s'.parts[p].locks.Keys == s.parts[p].locks.Keys + keys
    && (forall k :: k in s.parts[p].locks ==> s'.parts[p].locks[k] == s.parts[p].locks[k])
    && (forall k :: k in keys ==> s'.parts[p].locks[k].tx == tx)
    && (forall k :: k in keys && k !in s.parts[p].locks ==> s'.parts[p].locks[k].ts == s.plans[tx].ts && s'.parts[p].locks[k].createdAt == s.now)
  }

  /**
   * A prepare whose conditions hold is accepted exactly when each of its operations passes. Then it locks
   * all its keys, and else it changes nothing. One that fails a condition is refused.
   */
  lemma PrepareIsDecided(s: System, tx: TxId, p: PartId, refuse: bool)
    requires PrepareRequest(tx, p) in s.net && tx in s.plans && p in s.parts
    ensures var s' := Next(s, DeliverPrepare(tx, p, refuse));
            var accepted := !refuse && AllPass(s.parts[p], tx, s.plans[tx], p);
            && s'.net == s.net + {PrepareAnswer(tx, p, accepted)}
            && (accepted ==> p in s'.parts && LocksTheKeys(s, s', tx, p))
            && (!accepted ==> s'.parts == s.parts)
            && s'.ledger == s.ledger && s'.plans == s.plans && s'.applied == s.applied
  {
    var plan, part := s.plans[tx], s.parts[p];
    PassingIsLocking(part, tx, plan, p);
    hide CanLock, AllPass;
  }

  lemma PassingIsLocking(part: Partition, tx: TxId, plan: Plan, p: PartId)
    ensures AllPass(part, tx, plan, p) <==> CanLock(part, tx, plan.ts, plan.ops, p)
    ensures CanLock(part, tx, plan.ts, plan.ops, p) ==> forall k :: k in KeysOf(plan.ops, p) && k in part.locks ==> part.locks[k].tx == tx
  {
    if CanLock(part, tx, plan.ts, plan.ops, p) {
      forall k | k in KeysOf(plan.ops, p) && k in part.locks ensures part.locks[k].tx == tx {
        var i :| 0 <= i < |plan.ops| && plan.ops[i].participant == p && plan.ops[i].key == k;
      }
    }
  }

  /** A new item: its key is absent and unlocked, and the transaction is above the deletion watermark. */
  lemma InsertIsAccepted(s: System, tx: TxId, p: PartId, key: ItemKey, value: Bytes)
    requires PrepareRequest(tx, p) in s.net && tx in s.plans && p in s.parts && s.plans[tx].ops == [PlannedOp(p, key, Put(value))]
    requires key !in s.parts[p].locks && key !in s.parts[p].store.items && s.parts[p].store.maxDeleteTs < s.plans[tx].ts
    ensures var s' := Next(s, DeliverPrepare(tx, p, false));
            PrepareAnswer(tx, p, true) in s'.net && p in s'.parts && key in s'.parts[p].locks && s'.parts[p].locks[key].tx == tx
  {
    PrepareIsDecided(s, tx, p, false);
    assert s.plans[tx].ops[0] == PlannedOp(p, key, Put(value));
    hide Next, OpPasses;
    assert AllPass(s.parts[p], tx, s.plans[tx], p) by {
      forall i | 0 <= i < |s.plans[tx].ops| ensures OpPasses(s.parts[p], tx, s.plans[tx].ts, s.plans[tx].ops[i]) {
        NewItemPasses(s.parts[p], tx, s.plans[tx].ts, p, key, value);
      }
    }
  }

  lemma NewItemPasses(part: Partition, tx: TxId, ts: int, p: PartId, key: ItemKey, value: Bytes)
    requires key !in part.locks && key !in part.store.items && part.store.maxDeleteTs < ts
    ensures OpPasses(part, tx, ts, PlannedOp(p, key, Put(value)))
  {
  }

  // ─── the recovery of a stale lock ───────────────────────────────────────────

  /** The lock row holds a write, or a check that is not stamped at or above the transaction yet. */
  predicate HoldsWork(part: Partition, k: ItemKey)
    requires k in part.locks
  {
    || (exists i :: i in part.locks[k].ops && part.locks[k].ops[i] != Check)
    || (if k in part.store.items then part.store.items[k].readTs else part.store.maxDeleteTs) < part.locks[k].ts
  }

  /** The guard keeps the locks: one is older than ten minutes, and one holds work. */
  predicate KeepsForOperator(part: Partition, tx: TxId, now: int) {
    && (exists k :: k in part.locks && part.locks[k].tx == tx && now - part.locks[k].createdAt > 10 * 60 * 1000)
    && (exists k :: k in part.locks && part.locks[k].tx == tx && HoldsWork(part, k))
  }

  /** Every lock of the transaction is released, and nothing else changes. */
  ghost predicate Releases(part: Partition, after: Partition, tx: TxId) {
    && after == part.(locks := after.locks)
    && (forall k :: k in after.locks <==> k in part.locks && part.locks[k].tx != tx)
    && (forall k :: k in after.locks ==> after.locks[k] == part.locks[k])
  }

  /**
   * What a participant with locks of the transaction does with each answer of the ledger. A cancelled
   * transaction loses its locks. So does an unknown one, unless the guard keeps them for an operator. An
   * answer that the transaction is still driven changes nothing.
   */
  lemma RecoveryIsDecided(s: System, tx: TxId, p: PartId, answer: RecoverAnswer)
    requires RecoverReply(tx, answer) in s.net && tx in s.plans && p in s.parts
    requires exists k :: k in s.parts[p].locks && s.parts[p].locks[k].tx == tx
    ensures var s' := Next(s, ApplyRecovery(tx, p, answer));
            && p in s'.parts && s'.net == s.net && s'.ledger == s.ledger
            && (answer == IsDriving ==> s' == s)
            && (answer == IsCancelled ==> s' == s.(parts := s.parts[p := s'.parts[p]]) && Releases(s.parts[p], s'.parts[p], tx))
            && (answer == IsNotFound ==> s' == s.(parts := s.parts[p := s'.parts[p]]))
            && (answer == IsNotFound && KeepsForOperator(s.parts[p], tx, s.now) ==> s'.parts[p] == s.parts[p].(guarded := s.parts[p].guarded + {tx}))
            && (answer == IsNotFound && !KeepsForOperator(s.parts[p], tx, s.now) ==> Releases(s.parts[p], s'.parts[p], tx))
  {
    hide Next, Releases, KeepsForOperator, OverAge, ChecksAlreadyStamped, CommitLocal;
    var part := s.parts[p];
    var key :| key in part.locks && part.locks[key].tx == tx;
    assert key in LockedKeys(part, tx);
    RecoveryIs(s, tx, p, answer);
    CancelIsRelease(part, tx);
    GuardIsKeeping(part, tx, s.now);
  }

  lemma RecoveryIs(s: System, tx: TxId, p: PartId, answer: RecoverAnswer)
    requires RecoverReply(tx, answer) in s.net && tx in s.plans && p in s.parts
    ensures Next(s, ApplyRecovery(tx, p, answer)) == DoApplyRecovery(s, tx, p, answer)
  {
    hide DoApplyRecovery;
  }

  lemma CancelIsRelease(part: Partition, tx: TxId)
    ensures Releases(part, CancelLocal(part, tx, LockedKeys(part, tx)), tx)
  {
  }

  lemma GuardIsKeeping(part: Partition, tx: TxId, now: int)
    ensures KeepsForOperator(part, tx, now) <==> OverAge(part, tx, now) && !ChecksAlreadyStamped(part, tx)
  {
    if k :| k in part.locks && part.locks[k].tx == tx && now - part.locks[k].createdAt > 10 * 60 * 1000 {
      assert k in LockedKeys(part, tx);
    }
    if k :| k in part.locks && part.locks[k].tx == tx && HoldsWork(part, k) {
      assert k in LockedKeys(part, tx);
    }
  }

  // ─── fatal errors ───────────────────────────────────────────────────────────

  /** The participant has no answer, and an error that no retry clears. */
  predicate HasFatalError(row: TxRow, p: PartId) {
    p in row.participants && row.participants[p].prepare == Unanswered && row.participants[p].error == Fatal
  }

  /** What the ledger says of a transaction with a fatal error: it never commits. */
  ghost predicate FatalHolds(s: System, tx: TxId, p: PartId) {
    && !Commits(s, tx)
    && (tx in s.ledger ==> (HasFatalError(s.ledger[tx], p) || s.ledger[tx].state == Cancelled)
                           && s.ledger[tx].state != Committing && s.ledger[tx].state != Committed)
  }

  lemma RowKeepsFatal(s: System, a: Action, tx: TxId, p: PartId)
    requires tx in s.ledger && (HasFatalError(s.ledger[tx], p) || s.ledger[tx].state == Cancelled)
    requires s.ledger[tx].state != Committing && s.ledger[tx].state != Committed
    ensures var row := RowAfter(s, a, tx); (HasFatalError(row, p) || row.state == Cancelled) && row.state != Committing && row.state != Committed
  {
  }

  lemma FatalSticksForAStep(s: System, a: Action, tx: TxId, p: PartId)
    requires Reachable(s) && tx in s.plans && FatalHolds(s, tx, p)
    ensures tx in Next(s, a).plans && FatalHolds(Next(s, a), tx, p)
  {
    hide Reachable, Next, HasFatalError;
    PlanIsKept(s, a, tx);
    ReachableNext(s, a);
    ReachableInv(s);
    ReachableInv(Next(s, a));
    LedgerMovesForward(s, a, tx);
    hide Inv, RowMovesForward;
    if tx in Next(s, a).ledger {
      if ParticipantStep(a) {
        ParticipantsKeepTheLedger(s, a);
      } else {
        CoordinatorMovesOneRow(s, a, tx);
        RowKeepsFatal(s, a, tx, p);
      }
    }
    NoCommitWithoutRow(s, a, tx, p);
  }

  /** A commit decision is the entry to COMMITTING. */
  lemma NoCommitWithoutRow(s: System, a: Action, tx: TxId, p: PartId)
    requires Inv(Next(s, a)) && Inv(s) && !Commits(s, tx) && tx in s.plans
    requires tx in s.ledger ==> s.ledger[tx].state != Committing && s.ledger[tx].state != Committed
    requires tx in Next(s, a).ledger ==> Next(s, a).ledger[tx].state != Committing && Next(s, a).ledger[tx].state != Committed
    requires tx in s.decisions ==> tx in Next(s, a).decisions && Next(s, a).decisions[tx] == s.decisions[tx]
    ensures !Commits(Next(s, a), tx)
  {
    if Commits(Next(s, a), tx) {
      hide NetInv, AppliedInv, LockInv, GuardInv, TokensInv, CommitInv, PlanInv, Next;
      assert tx !in s.decisions && tx in s.ledger;
      if tx in Next(s, a).ledger {
        RowFacts(Next(s, a), tx);
      } else {
        SweptIsDecided(s, a, tx);
      }
      assert false;
    }
  }

  lemma SweptIsDecided(s: System, a: Action, tx: TxId)
    requires LedgerInv(s) && tx in s.ledger && tx !in Next(s, a).ledger
    ensures tx in s.decisions
  {
    RowFacts(s, tx);
    hide LedgerInv;
    if ParticipantStep(a) {
      ParticipantsKeepTheLedger(s, a);
    } else {
      CoordinatorMovesOneRow(s, a, tx);
    }
    hide Next;
    assert Expired(s.ledger[tx], s.now);
  }

  /**
   * Over any run: a participant that has no answer and a fatal error keeps both until the row is terminal
   * or gone, and the transaction never enters COMMITTING, whatever a concurrent drive stores.
   */
  lemma {:induction false} FatalErrorsStick(s: System, actions: seq<Action>, tx: TxId, p: PartId)
    requires Reachable(s) && tx in s.plans && FatalHolds(s, tx, p)
    ensures FatalHolds(Run(s, actions), tx, p)
    decreases |actions|
  {
    hide Reachable, Next, FatalHolds;
    if actions != [] {
      FatalSticksForAStep(s, actions[0], tx, p);
      ReachableNext(s, actions[0]);
      FatalErrorsStick(Next(s, actions[0]), actions[1..], tx, p);
    }
  }

  /** A stored fatal error is such a state: the ledger holds no commit decision beside it. */
  lemma FatalErrorHolds(s: System, tx: TxId, p: PartId)
    requires Reachable(s) && tx in s.ledger && HasFatalError(s.ledger[tx], p)
    ensures tx in s.plans && FatalHolds(s, tx, p)
  {
    ReachableInv(s);
    RowFacts(s, tx);
    hide Reachable, Inv;
  }
}
