/** The safety claims of the transaction protocol, over every run from an empty ledger. */
module TwoPhaseCommit {
  import opened Bytes
  import opened Participant
  import opened Coordinator
  import opened TransactionSystem
  import opened TransactionSafety

  lemma NextKeeps(s: System, a: Action)
    requires Inv(s)
    ensures Inv(Next(s, a))
  {
    if Enabled(s, a) {
      NextEnabledKeeps(s, a);
    }
  }

  lemma NextEnabledKeeps(s: System, a: Action)
    requires Inv(s) && Enabled(s, a)
    ensures Inv(Next(s, a))
  {
    hide LockInv, AppliedInv, GuardInv, TokensInv, LedgerInv, PlanInv, CommitInv, NetInv, DoInsert, DoSendPrepares, DoDeliverPrepare, DoDecide,
         DoDeliverCommit, CancelAt, DoApplyRecovery, DoStore, ApplyAll, PlainDelete, StoreAnswer, StoreError, StoreCommitted, StoreCancelled, Complete;
    match a {
      case Tick(ms) => TickKeeps(s, ms);
      case Insert(tx, plan) => InsertKeeps(s, tx, plan);
      case SendPrepares(tx) => SendPreparesKeeps(s, tx);
      case DeliverPrepare(tx, p, refuse) => DeliverPrepareKeeps(s, tx, p, refuse);
      case RecordAnswer(tx, p, accepted) => RecordAnswerKeeps(s, tx, p, accepted);
      case RecordError(tx, p, error) => RecordErrorKeeps(s, tx, p, error);
      case DecideCommit(tx) => DecideKeeps(s, tx, true);
      case DecideCancel(tx) => DecideKeeps(s, tx, false);
      case SendCommit(tx, p) => RowFacts(s, tx); SendKeeps(s, CommitRequest(tx, p));
      case DeliverCommit(tx, p) => DeliverCommitKeeps(s, tx, p);
      case RecordCommitted(tx, confirmed) => RecordCommittedKeeps(s, tx, confirmed);
      case FinishCommit(tx) => FinishCommitKeeps(s, tx);
      case SendCancel(tx, p) => RowFacts(s, tx); SendKeeps(s, CancelRequest(tx, p));
      case DeliverCancel(tx, p) => DeliverCancelKeeps(s, tx, p);
      case RecordCancelled(tx, p) => RecordCancelledKeeps(s, tx, p);
      case FinishCancel(tx) => FinishCancelKeeps(s, tx);
      case Sweep(tx) => SweepKeeps(s, tx);
      case AnswerRecovery(tx) => RecoverAnswerHolds(s, tx); SendKeeps(s, RecoverReply(tx, Recover(s.ledger, tx)));
      case ApplyRecovery(tx, p, answer) => ApplyRecoveryKeeps(s, tx, p, answer);
      case SingleShot(p, ops, ts) => SingleShotKeeps(s, p, ops, ts);
      case DeleteItem(p, key, ts) => DeleteItemKeeps(s, p, key, ts);
    }
  }

  lemma TickKeeps(s: System, ms: nat)
    requires Inv(s)
    ensures Inv(s.(now := s.now + ms))
  {
    hide LockInv, AppliedInv, GuardInv, TokensInv, LedgerInv, PlanInv, CommitInv, NetInv;
    RowsStayKeep(s, s.(now := s.now + ms));
  }

  lemma DeliverCancelKeeps(s: System, tx: TxId, p: PartId)
    requires Inv(s) && CancelRequest(tx, p) in s.net && tx in s.plans && p in s.parts
    ensures Inv(Send(CancelAt(s, tx, p, KeysOf(s.plans[tx].ops, p)), CancelAck(tx, p)))
  {
    assert MessageInv(s, CancelRequest(tx, p)) by {
      hide LockInv, AppliedInv, GuardInv, TokensInv, LedgerInv, PlanInv, CommitInv;
    }
    hide LockInv, AppliedInv, GuardInv, TokensInv, LedgerInv, PlanInv, CommitInv, NetInv;
    CancelAtKeeps(s, tx, p, KeysOf(s.plans[tx].ops, p));
    SendKeeps(CancelAt(s, tx, p, KeysOf(s.plans[tx].ops, p)), CancelAck(tx, p));
  }

  lemma SingleShotKeeps(s: System, p: PartId, ops: seq<PlannedOp>, ts: int)
    requires Inv(s) && p in s.parts
    ensures Inv(DoStore(s, p, ApplyAll(s.parts[p].store, ops, p, 0, ts)))
  {
    hide Inv;
    forall k ensures Stamp(ApplyAll(s.parts[p].store, ops, p, 0, ts), k) >= Stamp(s.parts[p].store, k) {
      ApplyAllAdvances(s.parts[p].store, ops, p, 0, ts, k);
    }
    StoreStepKeeps(s, p, ApplyAll(s.parts[p].store, ops, p, 0, ts));
  }

  lemma DeleteItemKeeps(s: System, p: PartId, key: ItemKey, ts: int)
    requires Inv(s) && p in s.parts
    ensures Inv(DoStore(s, p, PlainDelete(s.parts[p].store, key, ts)))
  {
    hide Inv;
    forall k ensures Stamp(PlainDelete(s.parts[p].store, key, ts), k) >= Stamp(s.parts[p].store, k) {
      ApplyOpAdvances(s.parts[p].store, key, Delete, ts, k);
    }
    StoreStepKeeps(s, p, PlainDelete(s.parts[p].store, key, ts));
  }

  /** Every state of every run keeps the invariant. */
  lemma {:induction false} RunKeeps(s: System, actions: seq<Action>)
    requires Inv(s)
    ensures Inv(Run(s, actions))
    decreases |actions|
  {
    hide Inv;
    if actions != [] {
      NextKeeps(s, actions[0]);
      RunKeeps(Next(s, actions[0]), actions[1..]);
    }
  }

  ghost predicate Reachable(s: System) {
    exists s0, actions :: Initial(s0) && s == Run(s0, actions)
  }

  lemma ReachableInv(s: System)
    requires Reachable(s)
    ensures Inv(s)
  {
    hide Inv, Run, Initial;
    var s0, actions :| Initial(s0) && s == Run(s0, actions);
    InitialInv(s0);
    RunKeeps(s0, actions);
  }

  lemma {:induction false} RunOfAppend(s: System, actions: seq<Action>, a: Action)
    ensures Run(s, actions + [a]) == Next(Run(s, actions), a)
    decreases |actions|
  {
    hide Next;
    if actions == [] {
      assert [] + [a] == [a] && [a][1..] == [];
    } else {
      assert (actions + [a])[1..] == actions[1..] + [a];
      RunOfAppend(Next(s, actions[0]), actions[1..], a);
    }
  }

  lemma ReachableNext(s: System, a: Action)
    requires Reachable(s)
    ensures Reachable(Next(s, a))
  {
    hide Next, Initial, Run;
    var s0, actions :| Initial(s0) && s == Run(s0, actions);
    RunOfAppend(s0, actions, a);
  }

  // ─── the main theorems ──────────────────────────────────────────────────────

  /** No transaction has a commit sent to one participant and a cancel sent to any participant. */
  lemma NeverCommitsAndCancels(s: System, tx: TxId, p: PartId, q: PartId)
    requires Reachable(s)
    ensures !(CommitRequest(tx, p) in s.net && CancelRequest(tx, q) in s.net)
  {
    hide Reachable;
    ReachableInv(s);
    if CommitRequest(tx, p) in s.net {
      assert MessageInv(s, CommitRequest(tx, p));
    }
    if CancelRequest(tx, q) in s.net {
      assert MessageInv(s, CancelRequest(tx, q));
    }
  }

  /**
   * A transaction applies on all its participants or on none. A participant applies only a transaction
   * that decided commit, and a finished commit has applied everywhere. A participant that holds a write
   * of the transaction applies it exactly one time.
   */
  lemma AllOrNothing(s: System, tx: TxId, p: PartId)
    requires Reachable(s)
    ensures AppliedAt(s, tx, p) ==> Commits(s, tx)
    ensures tx in s.ledger && (s.ledger[tx].state.Cancelling? || s.ledger[tx].state.Cancelled?) ==> !AppliedAt(s, tx, p)
    ensures tx in s.ledger && s.ledger[tx].state.Committed? && PartOf(s, tx, p) ==> AppliedAt(s, tx, p)
    ensures PartOf(s, tx, p) && !OnlyChecks(s.plans[tx].ops, p) ==> s.applied[(tx, p)] <= 1
    ensures PartOf(s, tx, p) && !OnlyChecks(s.plans[tx].ops, p) && tx in s.ledger && s.ledger[tx].state.Committed? ==> s.applied[(tx, p)] == 1
  {
    hide Reachable;
    ReachableInv(s);
    hide LockInv, GuardInv, TokensInv, NetInv, PlanInv;
    if tx in s.ledger {
      RowFacts(s, tx);
      CommitFacts(s, tx);
    }
  }

  /**
   * `not_found` is the answer for a transaction that the ledger swept. No participant owes its commit
   * any more: a committed one has applied everywhere, a lock that is left holds only checks that the
   * item already records, and the lock-age guard never keeps it.
   */
  lemma NotFoundOwesNothing(s: System, tx: TxId, p: PartId)
    requires Reachable(s) && tx in s.plans && Recover(s.ledger, tx).IsNotFound?
    ensures Commits(s, tx) || Cancels(s, tx)
    ensures Commits(s, tx) && PartOf(s, tx, p) ==> AppliedAt(s, tx, p)
    ensures Commits(s, tx) && p in s.parts ==> ChecksAlreadyStamped(s.parts[p], tx) && tx !in s.parts[p].guarded
  {
    hide Reachable;
    ReachableInv(s);
    CommitFacts(s, tx);
    if p in s.parts && tx in s.parts[p].guarded {
      assert Cancels(s, tx);
    }
    if Commits(s, tx) && p in s.parts && LockedKeys(s.parts[p], tx) != {} {
      NotFoundIsSettled(s, tx, p);
    }
  }

  /** The two defect checks of the fan-outs never fire: `runCommit` finds accepts and no cancel, `runCancel` no commit. */
  lemma FanOutChecksHold(s: System, tx: TxId, p: PartId)
    requires Reachable(s) && tx in s.ledger && p in s.ledger[tx].participants
    ensures s.ledger[tx].state.Committing? ==> s.ledger[tx].participants[p].prepare.Accepted? && !s.ledger[tx].participants[p].cancelStored
    ensures s.ledger[tx].state.Cancelling? ==> !s.ledger[tx].participants[p].commitStored
  {
    hide Reachable;
    ReachableInv(s);
    RowFacts(s, tx);
    if s.ledger[tx].participants[p].cancelStored {
      assert MessageInv(s, CancelAck(tx, p));
    }
    if s.ledger[tx].participants[p].commitStored {
      assert MessageInv(s, CommitAck(tx, p));
    }
  }

  /** A commit request never meets lock rows that differ from its keys. */
  lemma CommitKeysAlwaysMatch(s: System, tx: TxId, p: PartId)
    requires Reachable(s) && tx in s.plans && p in s.parts
    ensures !CommitLocal(s.parts[p], tx, s.plans[tx].ts, s.plans[tx].ops, p).KeysetMismatch?
  {
    hide Reachable;
    ReachableInv(s);
    CommitFindsItsRows(s, tx, p);
  }

  /** A commit that a participant repeats changes no item. */
  lemma RepeatedCommitChangesNothing(s: System, tx: TxId, p: PartId)
    requires Reachable(s) && tx in s.plans && p in s.parts && AppliedAt(s, tx, p)
    ensures CommitAt(s, tx, p).parts[p].store == s.parts[p].store
  {
    hide Reachable;
    ReachableInv(s);
    CommitFindsItsRows(s, tx, p);
    var plan := s.plans[tx];
    if CommitLocal(s.parts[p], tx, plan.ts, plan.ops, p).Applied? {
      assert LockGroup(s, p, tx);
      assert OnlyChecks(plan.ops, p) && Stamped(s, tx, p);
      forall j, k | k in s.parts[p].locks && j in s.parts[p].locks[k].ops && 0 <= j < |plan.ops| && plan.ops[j].participant == p && plan.ops[j].key == k
        ensures s.parts[p].locks[k].ops[j].Check? && Stamp(s.parts[p].store, k) >= plan.ts
      {
        assert k in KeysOf(plan.ops, p);
      }
      RepeatedChecksChangeNothing(s.parts[p].store, s.parts[p].locks, plan.ops, p, 0, plan.ts);
    }
  }

  /** One token names at most one transaction of the ledger. */
  lemma OneTransactionPerToken(s: System, a: TxId, b: TxId)
    requires Reachable(s) && a in s.ledger && b in s.ledger && s.ledger[a].token == s.ledger[b].token
    ensures a == b
  {
    hide Reachable;
    ReachableInv(s);
  }

  predicate IsOlderThan(stamp: Option<int>, ms: nat, now: int) {
    stamp.Some? && now - stamp.value > ms
  }

  lemma ExpiredIsOld(row: TxRow, now: int)
    ensures Expired(row, now) <==> IsOlderThan(row.completedAt, 10 * 60 * 1000, now)
  {
  }

  /**
   * One step moves a transaction only along CREATED, PREPARING, and one branch. A row appears only at
   * CREATED, and goes only when it is terminal and its whole window has passed. The first stored
   * answer of a participant stays until the terminal state, and a decision never changes.
   */
  lemma LedgerMovesForward(s: System, a: Action, tx: TxId)
    requires Reachable(s)
    ensures tx in s.ledger && tx in Next(s, a).ledger ==> RowMovesForward(s.ledger[tx], Next(s, a).ledger[tx])
    ensures tx in s.plans && tx !in s.ledger ==> tx !in Next(s, a).ledger
    ensures tx !in s.ledger && tx in Next(s, a).ledger ==> Next(s, a).ledger[tx].state.Created?
    ensures tx in s.ledger && tx !in Next(s, a).ledger ==>
              Terminal(s.ledger[tx].state) && IsOlderThan(s.ledger[tx].completedAt, 10 * 60 * 1000, s.now)
    ensures tx in s.decisions ==> tx in Next(s, a).decisions && Next(s, a).decisions[tx] == s.decisions[tx]
  {
    hide Reachable, LockInv, AppliedInv, GuardInv, TokensInv, CommitInv, NetInv, LedgerInv, PlanInv;
    ReachableInv(s);
    if tx in s.ledger && Expired(s.ledger[tx], s.now) {
      ExpiredIsTerminal(s, tx);
      ExpiredIsOld(s.ledger[tx], s.now);
    }
    LedgerIsKnown(s, tx);
    hide Next, Enabled, Expired, RowMovesForward;
    if ParticipantStep(a) {
      ParticipantsKeepTheLedger(s, a);
    } else {
      CoordinatorMovesOneRow(s, a, tx);
      if tx in s.decisions {
        DecisionsStay(s, a, tx);
      }
    }
    if tx in s.ledger {
      RowAfterMovesForward(s, a, tx);
      SameRowMovesForward(s.ledger[tx]);
    }
  }

  /** Over any run, a row of the ledger has moved only forward, or it is gone and never comes back. A decision stays. */
  lemma {:induction false} RowsMoveForwardInRuns(s: System, actions: seq<Action>, tx: TxId)
    requires Reachable(s) && tx in s.ledger
    ensures tx in Run(s, actions).ledger ==> RowMovesForward(s.ledger[tx], Run(s, actions).ledger[tx])
    ensures forall n {:trigger actions[..n]} :: 0 <= n <= |actions| && tx !in Run(s, actions[..n]).ledger ==> tx !in Run(s, actions).ledger
    ensures tx in s.decisions ==> tx in Run(s, actions).decisions && Run(s, actions).decisions[tx] == s.decisions[tx]
    decreases |actions|
  {
    hide Reachable, Next, RowMovesForward;
    SameRowMovesForward(s.ledger[tx]);
    DecisionsStayInRuns(s, actions, tx);
    if actions != [] {
      var s1 := Next(s, actions[0]);
      LedgerMovesForward(s, actions[0], tx);
      ReachableNext(s, actions[0]);
      if tx in s1.ledger {
        RowsMoveForwardInRuns(s1, actions[1..], tx);
        if tx in Run(s1, actions[1..]).ledger {
          RowMovesAreTransitive(s.ledger[tx], s1.ledger[tx], Run(s1, actions[1..]).ledger[tx]);
        }
        forall n {:trigger actions[..n]} | 0 <= n <= |actions| && tx !in Run(s, actions[..n]).ledger ensures tx !in Run(s, actions).ledger {
          assert n > 0 ==> actions[..n][0] == actions[0] && actions[..n][1..] == actions[1..][..n - 1];
        }
      } else {
        PlanIsKept(s, actions[0], tx);
        GoneStaysGone(s1, actions[1..], tx);
      }
    }
  }

  lemma {:induction false} DecisionsStayInRuns(s: System, actions: seq<Action>, tx: TxId)
    requires Reachable(s)
    ensures tx in s.decisions ==> tx in Run(s, actions).decisions && Run(s, actions).decisions[tx] == s.decisions[tx]
    decreases |actions|
  {
    hide Reachable, Next, RowMovesForward;
    if actions != [] {
      LedgerMovesForward(s, actions[0], tx);
      ReachableNext(s, actions[0]);
      DecisionsStayInRuns(Next(s, actions[0]), actions[1..], tx);
    }
  }

  lemma RowMovesAreTransitive(a: TxRow, b: TxRow, c: TxRow)
    requires RowMovesForward(a, b) && RowMovesForward(b, c)
    ensures RowMovesForward(a, c)
  {
    FollowsIsTransitive(a.state, b.state, c.state);
  }

  lemma PlanIsKept(s: System, a: Action, tx: TxId)
    requires Reachable(s) && (tx in s.ledger || tx in s.plans)
    ensures tx in Next(s, a).plans
  {
    hide Reachable;
    ReachableInv(s);
    hide LockInv, AppliedInv, GuardInv, TokensInv, CommitInv, NetInv;
    LedgerIsKnown(s, tx);
    hide Next, Enabled, PlanInv, LedgerInv;
    if ParticipantStep(a) {
      ParticipantsKeepTheLedger(s, a);
    } else {
      PlansStay(s, a, tx);
    }
  }

  lemma {:induction false} GoneStaysGone(s: System, actions: seq<Action>, tx: TxId)
    requires Reachable(s) && tx in s.plans && tx !in s.ledger
    ensures tx !in Run(s, actions).ledger
    decreases |actions|
  {
    hide Reachable, Next;
    if actions != [] {
      LedgerMovesForward(s, actions[0], tx);
      PlanIsKept(s, actions[0], tx);
      ReachableNext(s, actions[0]);
      GoneStaysGone(Next(s, actions[0]), actions[1..], tx);
    }
  }

  lemma LedgerIsKnown(s: System, tx: TxId)
    requires LedgerInv(s) && PlanInv(s)
    ensures tx in s.ledger || tx in s.decisions ==> tx in s.plans
    ensures tx in s.ledger && !(s.ledger[tx].state.Created? || s.ledger[tx].state.Preparing?) ==> tx in s.decisions
    ensures tx in s.ledger && (s.ledger[tx].state.Created? || s.ledger[tx].state.Preparing?) ==> tx !in s.decisions
  {
  }

  /** The one change that an action can make to the row of `tx`. */
  function RowAfter(s: System, a: Action, tx: TxId): TxRow
    requires tx in s.ledger
  {
    var row := s.ledger[tx];
    match a
    case SendPrepares(t) => if t == tx then StartPreparing(row) else row
    case RecordAnswer(t, p, accepted) => if t == tx then StoreAnswer(row, p, if accepted then Accepted else Rejected) else row
    case RecordError(t, p, error) => if t == tx then StoreError(row, p, error) else row
    case DecideCommit(t) => if t == tx then MarkCommitting(row) else row
    case DecideCancel(t) => if t == tx then MarkCancelling(row) else row
    case RecordCommitted(t, confirmed) => if t == tx then StoreCommitted(row, confirmed) else row
    case FinishCommit(t) => if t == tx then Complete(row, true, s.now) else row
    case RecordCancelled(t, p) => if t == tx then StoreCancelled(row, p) else row
    case FinishCancel(t) => if t == tx then Complete(row, false, s.now) else row
    case _ => row
  }

  predicate ParticipantStep(a: Action) {
    a.DeliverPrepare? || a.DeliverCommit? || a.DeliverCancel? || a.ApplyRecovery? || a.SingleShot? || a.DeleteItem?
  }

  /** The rows of the coordinators, what they decided, and what was planned. */
  predicate SameLedger(s: System, s': System) {
    s'.ledger == s.ledger && s'.decisions == s.decisions && s'.plans == s.plans
  }

  lemma CommitKeepsTheLedger(s: System, tx: TxId, p: PartId)
    requires tx in s.plans && p in s.parts
    ensures SameLedger(s, CommitAt(s, tx, p))
  {
    hide CommitLocal;
  }

  lemma RecoveryKeepsTheLedger(s: System, tx: TxId, p: PartId, answer: RecoverAnswer)
    requires tx in s.plans && p in s.parts
    ensures SameLedger(s, DoApplyRecovery(s, tx, p, answer))
  {
    hide CommitAt, CancelLocal, ChecksAlreadyStamped, OverAge, LockedKeys;
    CommitKeepsTheLedger(s, tx, p);
  }

  lemma PrepareKeepsTheLedger(s: System, tx: TxId, p: PartId, refuse: bool)
    requires tx in s.plans && p in s.parts
    ensures SameLedger(s, DoDeliverPrepare(s, tx, p, refuse))
  {
    hide CanLock, WriteLocks;
  }

  lemma ParticipantsKeepTheLedger(s: System, a: Action)
    requires ParticipantStep(a)
    ensures Next(s, a).ledger == s.ledger && Next(s, a).decisions == s.decisions && Next(s, a).plans == s.plans
  {
    hide CommitLocal, CommitAt, CancelLocal, DoApplyRecovery, DoDeliverPrepare, ApplyAll, PlainDelete, KeysOf;
    if Enabled(s, a) {
      match a {
        case DeliverPrepare(tx, p, refuse) => PrepareKeepsTheLedger(s, tx, p, refuse);
        case DeliverCommit(tx, p) => CommitKeepsTheLedger(s, tx, p);
        case ApplyRecovery(tx, p, answer) => RecoveryKeepsTheLedger(s, tx, p, answer);
        case _ =>
      }
    }
  }

  lemma CoordinatorMovesOneRow(s: System, a: Action, tx: TxId)
    requires !ParticipantStep(a)
    ensures tx in s.ledger && tx in Next(s, a).ledger && tx in s.plans ==>
              Next(s, a).ledger[tx] == s.ledger[tx] || (Enabled(s, a) && Next(s, a).ledger[tx] == RowAfter(s, a, tx))
    ensures tx in s.ledger && tx !in Next(s, a).ledger ==> Expired(s.ledger[tx], s.now)
    ensures tx !in s.ledger && tx in Next(s, a).ledger ==> tx !in s.plans && Next(s, a).ledger[tx].state.Created?
  {
    hide ParticipantsOf, KeysOf, TokenUsed, StartPreparing, StoreAnswer, StoreError, StoreCommitted, StoreCancelled, Complete, Expired, AllAccepted;
  }

  lemma DecisionsStay(s: System, a: Action, tx: TxId)
    requires !ParticipantStep(a) && tx in s.decisions && (tx in s.ledger ==> !s.ledger[tx].state.Preparing?)
    ensures tx in Next(s, a).decisions && Next(s, a).decisions[tx] == s.decisions[tx]
  {
    hide ParticipantsOf, KeysOf, TokenUsed, StartPreparing, StoreAnswer, StoreError, StoreCommitted, StoreCancelled, Complete, Expired, AllAccepted;
  }

  lemma SameRowMovesForward(row: TxRow)
    ensures RowMovesForward(row, row)
  {
  }

  lemma RowAfterMovesForward(s: System, a: Action, tx: TxId)
    requires tx in s.ledger
    ensures RowMovesForward(s.ledger[tx], RowAfter(s, a, tx))
  {
  }

  ghost predicate RowMovesForward(row: TxRow, row': TxRow) {
    && Follows(row.state, row'.state) && row'.participants.Keys <= row.participants.Keys
    && (forall p :: p in row.participants && p in row'.participants && !row.participants[p].prepare.Unanswered?
         ==> row'.participants[p].prepare == row.participants[p].prepare)
  }

  /** Only a participant changes a partition. */
  lemma CoordinatorKeepsParts(s: System, a: Action)
    requires !ParticipantStep(a)
    ensures Next(s, a).parts == s.parts && Next(s, a).applied == s.applied
  {
    hide ParticipantsOf, KeysOf, TokenUsed, StartPreparing, StoreAnswer, StoreError, StoreCommitted, StoreCancelled, Complete, Expired, AllAccepted;
  }

  lemma PlansStay(s: System, a: Action, tx: TxId)
    requires !ParticipantStep(a) && tx in s.plans
    ensures tx in Next(s, a).plans && Next(s, a).plans[tx] == s.plans[tx]
  {
    hide ParticipantsOf, KeysOf, TokenUsed, StartPreparing, StoreAnswer, StoreError, StoreCommitted, StoreCancelled, Complete, Expired, AllAccepted;
  }

  /** The ledger enters COMMITTING only when the first stored answer of every participant is an accept. */
  lemma CommitNeedsEveryAccept(s: System, a: Action, tx: TxId)
    requires Reachable(s) && tx in s.ledger && s.ledger[tx].state.Preparing?
    requires tx in Next(s, a).ledger && Next(s, a).ledger[tx].state.Committing?
    ensures a == DecideCommit(tx)
    ensures forall p :: PartOf(s, tx, p) ==> p in s.ledger[tx].participants && s.ledger[tx].participants[p].prepare.Accepted?
  {
    hide Reachable, LockInv, AppliedInv, GuardInv, TokensInv, CommitInv, NetInv, LedgerInv, PlanInv;
    ReachableInv(s);
    RowFacts(s, tx);
    hide Next;
    if ParticipantStep(a) {
      ParticipantsKeepTheLedger(s, a);
    } else {
      CoordinatorMovesOneRow(s, a, tx);
    }
  }
}
