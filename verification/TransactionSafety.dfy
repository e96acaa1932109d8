/** What every reachable state of the transaction system keeps, and what follows for a transaction. */
module TransactionSafety {
  import opened Bytes
  import opened Participant
  import opened Coordinator
  import opened TransactionSystem

  // ─── the invariant ──────────────────────────────────────────────────────────

  ghost predicate Commits(s: System, tx: TxId) {
    tx in s.decisions && s.decisions[tx]
  }

  ghost predicate Cancels(s: System, tx: TxId) {
    tx in s.decisions && !s.decisions[tx]
  }

  /** The ledger holds no row of the transaction any more, or a terminal one. */
  ghost predicate Done(s: System, tx: TxId) {
    tx in s.ledger ==> Terminal(s.ledger[tx].state)
  }

  ghost predicate PartOf(s: System, tx: TxId, p: PartId) {
    tx in s.plans && p in ParticipantsOf(s.plans[tx].ops)
  }

  ghost predicate AppliedAt(s: System, tx: TxId, p: PartId) {
    (tx, p) in s.applied
  }

  ghost predicate HoldsAll(s: System, tx: TxId, p: PartId) {
    tx in s.plans && p in s.parts && forall k :: k in KeysOf(s.plans[tx].ops, p) ==> k in s.parts[p].locks && s.parts[p].locks[k].tx == tx
  }

  ghost predicate PlanInv(s: System) {
    && (forall tx :: tx in s.decisions ==> tx in s.plans)
    && (forall tx :: tx in s.plans ==> ParticipantsOf(s.plans[tx].ops) <= s.parts.Keys)
  }

  ghost predicate RowShape(plan: Plan, row: TxRow) {
    && row.token == plan.token
    && row.participants.Keys == (if Terminal(row.state) then {} else ParticipantsOf(plan.ops))
    && (row.completedAt.Some? <==> Terminal(row.state))
  }

  /** The row agrees with the decision, and what it stores came in a message. */
  ghost predicate RowInv(s: System, tx: TxId, row: TxRow) {
    && (row.state.Created? || row.state.Preparing? <==> tx !in s.decisions)
    && (row.state.Committing? || row.state.Committed? <==> Commits(s, tx))
    && (row.state.Committing? ==> AllAccepted(row))
    && (forall p :: p in row.participants && row.participants[p].prepare.Accepted? ==> PrepareAnswer(tx, p, true) in s.net)
    && (forall p :: p in row.participants && row.participants[p].commitStored ==> CommitAck(tx, p) in s.net)
    && (forall p :: p in row.participants && row.participants[p].cancelStored ==> CancelAck(tx, p) in s.net)
  }

  ghost predicate LedgerInv(s: System) {
    && (forall tx :: tx in s.ledger ==> tx in s.plans && RowShape(s.plans[tx], s.ledger[tx]))
    && (forall tx :: tx in s.ledger ==> RowInv(s, tx, s.ledger[tx]))
    && (forall tx :: tx in s.plans && tx !in s.ledger ==> tx in s.decisions)
  }

  ghost predicate TokensInv(s: System) {
    forall a, b :: a in s.ledger && b in s.ledger && s.ledger[a].token == s.ledger[b].token ==> a == b
  }

  /** Every participant of a commit decision answered with an accept, and of a finished one has applied. */
  ghost predicate CommitInv(s: System) {
    && (forall tx :: Commits(s, tx) ==> AllAccept(s, tx))
    && (forall tx :: Commits(s, tx) && Done(s, tx) ==> AllApplied(s, tx))
  }

  ghost predicate AllAccept(s: System, tx: TxId) {
    forall p :: PartOf(s, tx, p) ==> PrepareAnswer(tx, p, true) in s.net
  }

  ghost predicate AllApplied(s: System, tx: TxId) {
    forall p :: PartOf(s, tx, p) ==> AppliedAt(s, tx, p)
  }

  ghost predicate MessageInv(s: System, m: Message) {
    match m
    case PrepareRequest(tx, p) => PartOf(s, tx, p) && (tx in s.ledger ==> !s.ledger[tx].state.Created?)
    case PrepareAnswer(tx, p, accepted) => PartOf(s, tx, p) && (accepted && !Cancels(s, tx) ==> AppliedAt(s, tx, p) || HoldsAll(s, tx, p))
    case CommitRequest(tx, p) => PartOf(s, tx, p) && Commits(s, tx)
    case CommitAck(tx, p) => PartOf(s, tx, p) && Commits(s, tx) && AppliedAt(s, tx, p)
    case CancelRequest(tx, p) => PartOf(s, tx, p) && Cancels(s, tx)
    case CancelAck(tx, p) => PartOf(s, tx, p) && Cancels(s, tx)
    case RecoverReply(tx, answer) =>
      && tx in s.plans
      && (answer.IsCommitted? ==> Commits(s, tx) && Done(s, tx))
      && (answer.IsCancelled? ==> Cancels(s, tx) && Done(s, tx))
      && (answer.IsNotFound? ==> tx !in s.ledger)
  }

  ghost predicate NetInv(s: System) {
    forall m :: m in s.net ==> MessageInv(s, m)
  }

  ghost predicate Stamped(s: System, tx: TxId, p: PartId)
    requires tx in s.plans && p in s.parts
  {
    forall k :: k in KeysOf(s.plans[tx].ops, p) ==> Stamp(s.parts[p].store, k) >= s.plans[tx].ts
  }

  /** An applied transaction committed, its keys are stamped, and a participant that wrote applied one time. */
  ghost predicate AppliedInv(s: System) {
    forall tx, p :: AppliedAt(s, tx, p) ==>
      && PartOf(s, tx, p) && Commits(s, tx) && p in s.parts
      && Stamped(s, tx, p)
      && (s.applied[(tx, p)] > 1 ==> OnlyChecks(s.plans[tx].ops, p))
  }

  /** The locks of one transaction at one partition: all that its prepare writes. After the apply, only checks lock again. */
  ghost predicate LockGroup(s: System, p: PartId, tx: TxId)
    requires p in s.parts
  {
    && PartOf(s, tx, p)
    && PrepareRequest(tx, p) in s.net
    && LocksMatch(s.parts[p].locks, tx, s.plans[tx].ts, s.plans[tx].ops, p)
    && (AppliedAt(s, tx, p) ==> OnlyChecks(s.plans[tx].ops, p))
  }

  ghost predicate LockInv(s: System) {
    forall p, k :: p in s.parts && k in s.parts[p].locks ==> LockGroup(s, p, s.parts[p].locks[k].tx)
  }

  ghost predicate GuardInv(s: System) {
    forall p, tx :: p in s.parts && tx in s.parts[p].guarded ==> Cancels(s, tx)
  }

  ghost predicate Inv(s: System) {
    PlanInv(s) && LedgerInv(s) && TokensInv(s) && CommitInv(s) && NetInv(s) && AppliedInv(s) && LockInv(s) && GuardInv(s)
  }

  lemma InitialInv(s: System)
    requires Initial(s)
    ensures Inv(s)
  {
  }

  // ─── the coordinator steps ──────────────────────────────────────────────────

  /** A step of a coordinator: it changes no partition, sends messages, and moves rows forward. */
  ghost predicate Extends(s: System, s': System) {
    && s'.parts == s.parts && s'.applied == s.applied
    && s.net <= s'.net
    && (forall tx :: tx in s.plans ==> tx in s'.plans && s'.plans[tx] == s.plans[tx])
    && (forall tx :: tx in s.decisions ==> tx in s'.decisions && s'.decisions[tx] == s.decisions[tx])
    && (forall tx :: tx in s.plans && tx in s'.ledger ==> tx in s.ledger && Follows(s.ledger[tx].state, s'.ledger[tx].state))
  }

  lemma ExtendsKeepsPartitions(s: System, s': System)
    requires AppliedInv(s) && LockInv(s) && GuardInv(s) && Extends(s, s')
    ensures AppliedInv(s') && LockInv(s') && GuardInv(s')
  {
    forall p, k | p in s'.parts && k in s'.parts[p].locks
      ensures LockGroup(s', p, s'.parts[p].locks[k].tx)
    {
      assert LockGroup(s, p, s.parts[p].locks[k].tx);
    }
    forall tx, p | AppliedAt(s', tx, p)
      ensures Stamped(s', tx, p)
    {
      assert AppliedAt(s, tx, p) && Stamped(s, tx, p);
    }
    forall p, tx | p in s'.parts && tx in s'.parts[p].guarded ensures Cancels(s', tx) {
      assert p in s.parts && tx in s.parts[p].guarded;
      assert Cancels(s, tx);
    }
  }

  lemma ExtendsKeepsMessage(s: System, s': System, m: Message)
    requires Extends(s, s') && MessageInv(s, m)
    ensures MessageInv(s', m)
  {
  }

  lemma AllStays(s: System, s': System, tx: TxId)
    requires Extends(s, s') && tx in s.plans
    ensures AllAccept(s, tx) ==> AllAccept(s', tx)
    ensures AllApplied(s, tx) ==> AllApplied(s', tx)
  {
    forall p | PartOf(s', tx, p) ensures PartOf(s, tx, p) {
    }
  }

  /** What a coordinator step owes: its own row, its new messages, and the finished commits. */
  lemma CoordinatorStepKeeps(s: System, s': System)
    requires Inv(s) && Extends(s, s')
    requires PlanInv(s') && LedgerInv(s') && TokensInv(s') && CommitInv(s')
    requires forall m :: m in s'.net && m !in s.net ==> MessageInv(s', m)
    ensures Inv(s')
  {
    ExtendsKeepsPartitions(s, s');
    forall m | m in s'.net ensures MessageInv(s', m) {
      if m in s.net {
        ExtendsKeepsMessage(s, s', m);
      }
    }
  }

  /** One row of `s` changes, and the history grows only for it. */
  ghost predicate OneRow(s: System, s': System, tx: TxId, row: TxRow) {
    && Extends(s, s') && tx in s.ledger && s'.plans == s.plans
    && s'.ledger == s.ledger[tx := row]
    && row.token == s.ledger[tx].token
    && (forall t :: t in s'.decisions && t != tx ==> t in s.decisions)
  }

  lemma OneRowKeepsTokens(s: System, s': System, tx: TxId, row: TxRow)
    requires TokensInv(s) && OneRow(s, s', tx, row)
    ensures TokensInv(s')
  {
    forall a, b | a in s'.ledger && b in s'.ledger && s'.ledger[a].token == s'.ledger[b].token ensures a == b {
      assert s.ledger[a].token == s.ledger[b].token;
    }
  }

  lemma RowStays(s: System, s': System, tx: TxId, row: TxRow)
    requires RowInv(s, tx, row) && Extends(s, s') && (tx in s'.decisions ==> tx in s.decisions)
    ensures RowInv(s', tx, row)
  {
  }

  lemma OneRowKeepsPlans(s: System, s': System, tx: TxId, row: TxRow)
    requires PlanInv(s) && tx in s.plans && OneRow(s, s', tx, row)
    ensures PlanInv(s')
  {
  }

  lemma OneRowKeepsLedger(s: System, s': System, tx: TxId, row: TxRow)
    requires LedgerInv(s) && OneRow(s, s', tx, row)
    requires RowShape(s.plans[tx], row) && RowInv(s', tx, row)
    ensures LedgerInv(s')
  {
    hide RowInv, RowShape;
    forall t | t in s'.ledger
      ensures t in s'.plans && RowShape(s'.plans[t], s'.ledger[t]) && RowInv(s', t, s'.ledger[t])
    {
      if t == tx {
        assert s'.ledger[t] == row;
      } else {
        assert s'.ledger[t] == s.ledger[t];
        RowStays(s, s', t, s.ledger[t]);
      }
    }
  }

  lemma OneRowKeepsCommits(s: System, s': System, tx: TxId, row: TxRow)
    requires CommitInv(s) && PlanInv(s) && tx in s.plans && OneRow(s, s', tx, row)
    requires Commits(s', tx) ==> AllAccept(s, tx)
    requires Commits(s', tx) && Terminal(row.state) ==> AllApplied(s, tx)
    ensures CommitInv(s')
  {
    forall t | Commits(s', t)
      ensures AllAccept(s', t) && (Done(s', t) ==> AllApplied(s', t))
    {
      AllStays(s, s', t);
      if t != tx {
        assert Commits(s, t) && (Done(s', t) ==> Done(s, t));
      }
    }
  }

  /** One row moves: what the step owes is the invariant of that row, its commit facts, and its new messages. */
  lemma OneRowKeeps(s: System, s': System, tx: TxId, row: TxRow)
    requires Inv(s) && OneRow(s, s', tx, row)
    requires RowShape(s.plans[tx], row) && RowInv(s', tx, row)
    requires Commits(s', tx) ==> AllAccept(s, tx)
    requires Commits(s', tx) && Terminal(row.state) ==> AllApplied(s, tx)
    requires forall m :: m in s'.net && m !in s.net ==> MessageInv(s', m)
    ensures Inv(s')
  {
    OneRowKeepsTokens(s, s', tx, row);
    OneRowKeepsPlans(s, s', tx, row);
    OneRowKeepsLedger(s, s', tx, row);
    OneRowKeepsCommits(s, s', tx, row);
    CoordinatorStepKeeps(s, s');
  }

  // ─── each coordinator step ──────────────────────────────────────────────────

  /** A step that moves no row: it inserts one, sweeps a terminal one, or only sends. */
  ghost predicate RowsStay(s: System, s': System) {
    && Extends(s, s') && s'.decisions == s.decisions
    && (forall tx :: tx in s'.ledger && tx in s.ledger ==> s'.ledger[tx] == s.ledger[tx])
    && (forall tx :: tx in s.ledger && tx !in s'.ledger ==> Terminal(s.ledger[tx].state))
    && (forall tx :: tx in s'.plans && tx !in s.plans ==> tx in s'.ledger)
    && (forall tx :: tx in s'.ledger && tx !in s.ledger ==>
      && tx in s'.plans && tx !in s.plans && ParticipantsOf(s'.plans[tx].ops) <= s.parts.Keys
      && s'.ledger[tx] == NewRow(s'.plans[tx].token, s'.plans[tx].fingerprint, s.now, ParticipantsOf(s'.plans[tx].ops))
      && !TokenUsed(s.ledger, s'.plans[tx].token))
    && (forall a, b :: a in s'.ledger && a !in s.ledger && b in s'.ledger && b !in s.ledger ==> a == b)
  }

  lemma RowsStayKeepLedger(s: System, s': System)
    requires LedgerInv(s) && PlanInv(s) && RowsStay(s, s')
    ensures LedgerInv(s')
  {
    forall tx | tx in s'.ledger
      ensures tx in s'.plans && RowShape(s'.plans[tx], s'.ledger[tx]) && RowInv(s', tx, s'.ledger[tx])
    {
      if tx in s.ledger {
        StayedRowFits(s, s', tx);
      } else {
        NewRowFits(s, s', tx);
      }
    }
    forall tx | tx in s'.plans && tx !in s'.ledger ensures tx in s'.decisions {
      SweptRowIsDecided(s, s', tx);
    }
    hide RowInv, RowShape, RowsStay, PlanInv;
  }

  lemma StayedRowFits(s: System, s': System, tx: TxId)
    requires LedgerInv(s) && RowsStay(s, s') && tx in s'.ledger && tx in s.ledger
    ensures tx in s'.plans && RowShape(s'.plans[tx], s'.ledger[tx]) && RowInv(s', tx, s'.ledger[tx])
  {
    hide RowInv, RowShape;
    RowStays(s, s', tx, s.ledger[tx]);
  }

  lemma NewRowFits(s: System, s': System, tx: TxId)
    requires PlanInv(s) && RowsStay(s, s') && tx in s'.ledger && tx !in s.ledger
    ensures tx in s'.plans && RowShape(s'.plans[tx], s'.ledger[tx]) && RowInv(s', tx, s'.ledger[tx])
  {
  }

  lemma SweptRowIsDecided(s: System, s': System, tx: TxId)
    requires LedgerInv(s) && RowsStay(s, s') && tx in s'.plans && tx !in s'.ledger
    ensures tx in s'.decisions
  {
    hide RowShape;
    if tx in s.ledger {
      assert RowInv(s, tx, s.ledger[tx]);
    }
  }

  lemma RowsStayKeepTokens(s: System, s': System)
    requires LedgerInv(s) && TokensInv(s) && RowsStay(s, s')
    ensures TokensInv(s')
  {
    forall a, b | a in s'.ledger && b in s'.ledger && s'.ledger[a].token == s'.ledger[b].token ensures a == b {
      if a in s.ledger && b in s.ledger {
        assert s.ledger[a].token == s.ledger[b].token;
      }
    }
  }

  lemma RowsStayKeepCommits(s: System, s': System)
    requires CommitInv(s) && PlanInv(s) && RowsStay(s, s')
    ensures CommitInv(s')
  {
    forall tx | Commits(s', tx)
      ensures AllAccept(s', tx) && (Done(s', tx) ==> AllApplied(s', tx))
    {
      AllStays(s, s', tx);
      assert Commits(s, tx) && (Done(s', tx) ==> Done(s, tx));
    }
  }

  lemma RowsStayKeep(s: System, s': System)
    requires Inv(s) && RowsStay(s, s')
    requires forall m :: m in s'.net && m !in s.net ==> MessageInv(s', m)
    ensures Inv(s')
  {
    hide LockInv, AppliedInv, GuardInv, NetInv;
    RowsStayKeepLedger(s, s');
    RowsStayKeepTokens(s, s');
    RowsStayKeepCommits(s, s');
    CoordinatorStepKeeps(s, s');
  }

  lemma InsertKeeps(s: System, tx: TxId, plan: Plan)
    requires Inv(s) && tx !in s.plans && !TokenUsed(s.ledger, plan.token) && ParticipantsOf(plan.ops) <= s.parts.Keys
    ensures Inv(DoInsert(s, tx, plan))
  {
    hide LockInv, AppliedInv, GuardInv, NetInv, TokensInv, CommitInv, LedgerInv, PlanInv;
    NewIdIsFree(s, tx);
    RowsStayKeep(s, DoInsert(s, tx, plan));
  }

  lemma NewIdIsFree(s: System, tx: TxId)
    requires LedgerInv(s) && PlanInv(s) && tx !in s.plans
    ensures tx !in s.ledger && tx !in s.decisions
  {
  }

  lemma SendKeeps(s: System, m: Message)
    requires Inv(s) && MessageInv(s, m)
    ensures Inv(Send(s, m))
  {
    hide LockInv, AppliedInv, GuardInv, NetInv, TokensInv, CommitInv, LedgerInv, PlanInv;
    RowsStayKeep(s, Send(s, m));
  }

  lemma ExpiredIsTerminal(s: System, tx: TxId)
    requires LedgerInv(s) && tx in s.ledger && Expired(s.ledger[tx], s.now)
    ensures Terminal(s.ledger[tx].state)
  {
  }

  lemma SweepKeeps(s: System, tx: TxId)
    requires Inv(s) && tx in s.ledger && Expired(s.ledger[tx], s.now)
    ensures Inv(s.(ledger := s.ledger - {tx}))
  {
    hide LockInv, AppliedInv, GuardInv, NetInv, TokensInv, CommitInv, LedgerInv, PlanInv;
    ExpiredIsTerminal(s, tx);
    RowsStayKeep(s, s.(ledger := s.ledger - {tx}));
  }

  // ─── the steps that move one row ────────────────────────────────────────────

  lemma RowFacts(s: System, tx: TxId)
    requires LedgerInv(s) && tx in s.ledger
    ensures tx in s.plans && RowShape(s.plans[tx], s.ledger[tx]) && RowInv(s, tx, s.ledger[tx])
  {
  }

  lemma CommitFacts(s: System, tx: TxId)
    requires CommitInv(s)
    ensures Commits(s, tx) ==> AllAccept(s, tx)
    ensures Commits(s, tx) && Done(s, tx) ==> AllApplied(s, tx)
  {
  }

  lemma SendPreparesKeeps(s: System, tx: TxId)
    requires Inv(s) && tx in s.ledger && tx in s.plans
    ensures Inv(DoSendPrepares(s, tx))
  {
    hide LockInv, AppliedInv, GuardInv, TokensInv, LedgerInv, PlanInv, CommitInv, NetInv;
    RowFacts(s, tx);
    CommitFacts(s, tx);
    OneRowKeeps(s, DoSendPrepares(s, tx), tx, StartPreparing(s.ledger[tx]));
  }

  /** The row stores more of what arrived, and its state stays. */
  lemma RecordKeeps(s: System, tx: TxId, row: TxRow)
    requires Inv(s) && tx in s.ledger && tx in s.plans
    requires RowShape(s.plans[tx], row) && RowInv(s, tx, row) && row.state == s.ledger[tx].state
    ensures Inv(WithRow(s, tx, row))
  {
    hide LockInv, AppliedInv, GuardInv, TokensInv, LedgerInv, PlanInv, CommitInv, NetInv;
    RowFacts(s, tx);
    CommitFacts(s, tx);
    RowStays(s, WithRow(s, tx, row), tx, row);
    OneRowKeeps(s, WithRow(s, tx, row), tx, row);
  }

  lemma RecordAnswerKeeps(s: System, tx: TxId, p: PartId, accepted: bool)
    requires Inv(s) && tx in s.ledger && PrepareAnswer(tx, p, accepted) in s.net
    ensures Inv(WithRow(s, tx, StoreAnswer(s.ledger[tx], p, if accepted then Accepted else Rejected)))
  {
    hide LockInv, AppliedInv, GuardInv, TokensInv, LedgerInv, PlanInv, CommitInv, NetInv;
    RowFacts(s, tx);
    RecordKeeps(s, tx, StoreAnswer(s.ledger[tx], p, if accepted then Accepted else Rejected));
  }

  lemma RecordErrorKeeps(s: System, tx: TxId, p: PartId, error: PrepareError)
    requires Inv(s) && tx in s.ledger
    ensures Inv(WithRow(s, tx, StoreError(s.ledger[tx], p, error)))
  {
    hide LockInv, AppliedInv, GuardInv, TokensInv, LedgerInv, PlanInv, CommitInv, NetInv;
    RowFacts(s, tx);
    RecordKeeps(s, tx, StoreError(s.ledger[tx], p, error));
  }

  lemma RecordCommittedKeeps(s: System, tx: TxId, confirmed: set<PartId>)
    requires Inv(s) && tx in s.ledger && forall p :: p in confirmed ==> CommitAck(tx, p) in s.net
    ensures Inv(WithRow(s, tx, StoreCommitted(s.ledger[tx], confirmed)))
  {
    hide LockInv, AppliedInv, GuardInv, TokensInv, LedgerInv, PlanInv, CommitInv, NetInv;
    RowFacts(s, tx);
    RecordKeeps(s, tx, StoreCommitted(s.ledger[tx], confirmed));
  }

  lemma RecordCancelledKeeps(s: System, tx: TxId, p: PartId)
    requires Inv(s) && tx in s.ledger && CancelAck(tx, p) in s.net
    ensures Inv(WithRow(s, tx, StoreCancelled(s.ledger[tx], p)))
  {
    hide LockInv, AppliedInv, GuardInv, TokensInv, LedgerInv, PlanInv, CommitInv, NetInv;
    RowFacts(s, tx);
    RecordKeeps(s, tx, StoreCancelled(s.ledger[tx], p));
  }

  /** The decision is the step that reads the stored answers: a commit needs an accept of every participant. */
  lemma DecideKeeps(s: System, tx: TxId, commit: bool)
    requires Inv(s) && tx in s.ledger
    ensures Inv(DoDecide(s, tx, commit))
  {
    hide LockInv, AppliedInv, GuardInv, TokensInv, LedgerInv, PlanInv, CommitInv, NetInv;
    RowFacts(s, tx);
    CommitFacts(s, tx);
    if commit {
      DecisionFitsRow(s, tx, true, MarkCommitting(s.ledger[tx]));
    } else {
      DecisionFitsRow(s, tx, false, MarkCancelling(s.ledger[tx]));
    }
    hide RowInv, RowShape, AllAccept, AllApplied, MessageInv;
    OneRowKeeps(s, DoDecide(s, tx, commit), tx, if commit then MarkCommitting(s.ledger[tx]) else MarkCancelling(s.ledger[tx]));
  }

  /** A decision that changes nothing, or the first decision of a row that is prepared. */
  lemma DecisionFitsRow(s: System, tx: TxId, commit: bool, row: TxRow)
    requires LedgerInv(s) && tx in s.ledger && (Commits(s, tx) ==> AllAccept(s, tx)) && (Commits(s, tx) && Done(s, tx) ==> AllApplied(s, tx))
    requires row == if commit then MarkCommitting(s.ledger[tx]) else MarkCancelling(s.ledger[tx])
    ensures var s' := DoDecide(s, tx, commit);
            && OneRow(s, s', tx, row) && RowShape(s.plans[tx], row) && RowInv(s', tx, row)
            && (Commits(s', tx) ==> AllAccept(s, tx)) && (Commits(s', tx) && Terminal(row.state) ==> AllApplied(s, tx)) && s'.net == s.net
  {
    RowFacts(s, tx);
    hide LedgerInv, AllApplied, AllAccepted;
    if row == s.ledger[tx] {
      assert s.ledger[tx := row] == s.ledger;
      assert DoDecide(s, tx, commit) == s;
    } else {
      hide AllAccept;
      DecisionMovesRow(s, tx, commit, row);
    }
  }

  lemma DecisionMovesRow(s: System, tx: TxId, commit: bool, row: TxRow)
    requires tx in s.ledger && tx in s.plans && RowShape(s.plans[tx], s.ledger[tx]) && RowInv(s, tx, s.ledger[tx])
    requires row == (if commit then MarkCommitting(s.ledger[tx]) else MarkCancelling(s.ledger[tx])) && row != s.ledger[tx]
    ensures var s' := DoDecide(s, tx, commit);
            && OneRow(s, s', tx, row) && RowShape(s.plans[tx], row) && RowInv(s', tx, row) && !Terminal(row.state)
            && (Commits(s', tx) ==> commit && AllAccept(s, tx)) && s'.net == s.net
  {
    var held := s.ledger[tx];
    assert held.state.Preparing? && row == held.(state := if commit then Committing else Cancelling);
    assert tx !in s.decisions;
    if commit {
      AcceptsAreMessages(s, tx);
    }
    var s' := DoDecide(s, tx, commit);
    assert s' == s.(ledger := s.ledger[tx := row], decisions := s.decisions[tx := commit]);
    hide DoDecide, AllAccept, ParticipantsOf, MarkCommitting, MarkCancelling;
    FirstDecisionFits(s, tx, commit, row);
    hide RowInv, RowShape, Extends;
  }

  lemma FirstDecisionFits(s: System, tx: TxId, commit: bool, row: TxRow)
    requires tx in s.ledger && tx in s.plans && s.ledger[tx].state.Preparing? && tx !in s.decisions
    requires row == s.ledger[tx].(state := if commit then Committing else Cancelling) && (commit ==> AllAccepted(s.ledger[tx]))
    requires RowShape(s.plans[tx], s.ledger[tx]) && RowInv(s, tx, s.ledger[tx])
    ensures var s' := s.(ledger := s.ledger[tx := row], decisions := s.decisions[tx := commit]);
            OneRow(s, s', tx, row) && RowShape(s.plans[tx], row) && RowInv(s', tx, row)
  {
    hide ParticipantsOf;
    if commit {
      assert AllAccepted(row);
    }
    hide AllAccepted;
  }

  lemma AcceptsAreMessages(s: System, tx: TxId)
    requires tx in s.ledger && tx in s.plans && RowShape(s.plans[tx], s.ledger[tx]) && RowInv(s, tx, s.ledger[tx])
    requires s.ledger[tx].state.Preparing? && AllAccepted(s.ledger[tx])
    ensures AllAccept(s, tx)
  {
  }

  lemma AckFacts(s: System, tx: TxId)
    requires NetInv(s)
    ensures forall p :: CommitAck(tx, p) in s.net ==> AppliedAt(s, tx, p)
  {
    forall p | CommitAck(tx, p) in s.net ensures AppliedAt(s, tx, p) {
      assert MessageInv(s, CommitAck(tx, p));
    }
  }

  /** The completion of a commit is the step that needs every confirmation: each one says that its participant applied. */
  lemma FinishCommitKeeps(s: System, tx: TxId)
    requires Inv(s) && tx in s.ledger
    requires forall p :: p in s.ledger[tx].participants ==> s.ledger[tx].participants[p].commitStored || CommitAck(tx, p) in s.net
    ensures Inv(WithRow(s, tx, Complete(s.ledger[tx], true, s.now)))
  {
    hide LockInv, AppliedInv, GuardInv, TokensInv, LedgerInv, PlanInv, CommitInv, NetInv;
    RowFacts(s, tx);
    CommitFacts(s, tx);
    AckFacts(s, tx);
    OneRowKeeps(s, WithRow(s, tx, Complete(s.ledger[tx], true, s.now)), tx, Complete(s.ledger[tx], true, s.now));
  }

  lemma FinishCancelKeeps(s: System, tx: TxId)
    requires Inv(s) && tx in s.ledger
    ensures Inv(WithRow(s, tx, Complete(s.ledger[tx], false, s.now)))
  {
    hide LockInv, AppliedInv, GuardInv, TokensInv, LedgerInv, PlanInv, CommitInv, NetInv;
    RowFacts(s, tx);
    CommitFacts(s, tx);
    OneRowKeeps(s, WithRow(s, tx, Complete(s.ledger[tx], false, s.now)), tx, Complete(s.ledger[tx], false, s.now));
  }

  // ─── the participant steps ──────────────────────────────────────────────────

  ghost predicate StampsRise(a: Store, b: Store) {
    forall k :: Stamp(b, k) >= Stamp(a, k)
  }

  /** A step of partition `p`: the coordinators stay, and messages and applies only grow. */
  ghost predicate PartStep(s: System, s': System, p: PartId) {
    && s'.plans == s.plans && s'.decisions == s.decisions && s'.ledger == s.ledger
    && s.net <= s'.net && s.applied <= s'.applied
    && p in s.parts && p in s'.parts && s'.parts == s.parts[p := s'.parts[p]]
    && StampsRise(s.parts[p].store, s'.parts[p].store)
  }

  /** Only a cancel decision or an apply releases the locks of a transaction. */
  ghost predicate LocksHeld(s: System, s': System, p: PartId) {
    forall tx :: HoldsAll(s, tx, p) && !Cancels(s, tx) ==> HoldsAll(s', tx, p) || AppliedAt(s', tx, p)
  }

  lemma PartStepKeepsLedger(s: System, s': System, p: PartId)
    requires PlanInv(s) && LedgerInv(s) && TokensInv(s) && PartStep(s, s', p)
    ensures PlanInv(s') && LedgerInv(s') && TokensInv(s')
  {
    assert PlanInv(s') by {
      assert s'.parts.Keys == s.parts.Keys;
    }
    forall tx | tx in s'.ledger ensures RowInv(s', tx, s'.ledger[tx]) {
      RowFacts(s, tx);
    }
    forall a, b | a in s'.ledger && b in s'.ledger && s'.ledger[a].token == s'.ledger[b].token ensures a == b {
      assert s.ledger[a].token == s.ledger[b].token;
    }
  }

  lemma PartStepKeepsCommits(s: System, s': System, p: PartId)
    requires CommitInv(s) && PartStep(s, s', p)
    ensures CommitInv(s')
  {
    forall tx | Commits(s', tx) ensures AllAccept(s', tx) && (Done(s', tx) ==> AllApplied(s', tx)) {
      CommitFacts(s, tx);
      forall q | PartOf(s', tx, q) ensures PartOf(s, tx, q) {
      }
    }
  }

  lemma PartStepKeepsMessage(s: System, s': System, p: PartId, m: Message)
    requires MessageInv(s, m) && PartStep(s, s', p) && LocksHeld(s, s', p)
    ensures MessageInv(s', m)
  {
    if m.PrepareAnswer? && m.accepted && !Cancels(s, m.tx) && !AppliedAt(s, m.tx, m.p) {
      assert HoldsAll(s, m.tx, m.p);
      assert HoldsAll(s', m.tx, m.p) || AppliedAt(s', m.tx, m.p);
    }
  }

  lemma PartStepKeepsApplied(s: System, s': System, p: PartId)
    requires AppliedInv(s) && PartStep(s, s', p) && s'.applied == s.applied
    ensures AppliedInv(s')
  {
    forall tx, q | AppliedAt(s', tx, q) ensures q in s'.parts && tx in s'.plans && Stamped(s', tx, q) {
      assert AppliedAt(s, tx, q);
    }
  }

  /** What a participant step owes: its locks, its applies, its guard, and its new messages. */
  lemma PartStepKeeps(s: System, s': System, p: PartId)
    requires Inv(s) && PartStep(s, s', p) && LocksHeld(s, s', p)
    requires AppliedInv(s') && LockInv(s') && GuardInv(s')
    requires forall m :: m in s'.net && m !in s.net ==> MessageInv(s', m)
    ensures Inv(s')
  {
    hide LockInv, AppliedInv, GuardInv, TokensInv, LedgerInv, PlanInv, CommitInv;
    PartStepKeepsLedger(s, s', p);
    PartStepKeepsCommits(s, s', p);
    forall m | m in s'.net ensures MessageInv(s', m) {
      if m in s.net {
        assert MessageInv(s, m);
        PartStepKeepsMessage(s, s', p, m);
      }
    }
  }

  // a write outside the protocol

  lemma {:induction false} ApplyAllAdvances(store: Store, ops: seq<PlannedOp>, p: PartId, i: nat, ts: int, key: ItemKey)
    requires i <= |ops|
    ensures var after := ApplyAll(store, ops, p, i, ts);
            && Stamp(after, key) >= Stamp(store, key)
            && Revision(after, key) >= Revision(store, key)
            && (Content(after, key) == Content(store, key) || Revision(after, key) > Revision(store, key))
            && (key !in KeysOf(ops, p) ==> Content(after, key) == Content(store, key))
    decreases |ops| - i
  {
    if i < |ops| {
      if ops[i].participant == p {
        ApplyOpAdvances(store, ops[i].key, ops[i].op, ts, key);
        assert ops[i].key in KeysOf(ops, p);
        ApplyAllAdvances(ApplyOp(store, ops[i].key, ops[i].op, ts), ops, p, i + 1, ts, key);
      } else {
        ApplyAllAdvances(store, ops, p, i + 1, ts, key);
      }
    }
  }

  lemma StoreStepLocks(s: System, p: PartId, store: Store)
    requires p in s.parts && LockInv(s) && GuardInv(s)
    ensures LockInv(DoStore(s, p, store)) && GuardInv(DoStore(s, p, store))
    ensures LocksHeld(s, DoStore(s, p, store), p)
  {
    var s' := DoStore(s, p, store);
    forall q, k | q in s'.parts && k in s'.parts[q].locks ensures LockGroup(s', q, s'.parts[q].locks[k].tx) {
      assert LockGroup(s, q, s.parts[q].locks[k].tx);
    }
    forall q, tx | q in s'.parts && tx in s'.parts[q].guarded ensures Cancels(s', tx) {
      assert q in s.parts && tx in s.parts[q].guarded;
      assert Cancels(s, tx);
    }
  }

  lemma StoreStepKeeps(s: System, p: PartId, store: Store)
    requires Inv(s) && p in s.parts && StampsRise(s.parts[p].store, store)
    ensures Inv(DoStore(s, p, store))
  {
    hide LockInv, AppliedInv, GuardInv, TokensInv, LedgerInv, PlanInv, CommitInv, NetInv;
    StoreStepLocks(s, p, store);
    PartStepKeepsApplied(s, DoStore(s, p, store), p);
    PartStepKeeps(s, DoStore(s, p, store), p);
  }

  // prepare

  /** The lock block writes a whole lock group. A participant that already applied a write refuses. */
  lemma PrepareGroup(s: System, tx: TxId, p: PartId)
    requires LockInv(s) && AppliedInv(s) && PartOf(s, tx, p) && p in s.parts && PrepareRequest(tx, p) in s.net
    requires CanLock(s.parts[p], tx, s.plans[tx].ts, s.plans[tx].ops, p)
    ensures var plan := s.plans[tx];
            LocksMatch(WriteLocks(s.parts[p], tx, plan.ts, plan.ops, p, s.now).locks, tx, plan.ts, plan.ops, p)
    ensures AppliedAt(s, tx, p) ==> OnlyChecks(s.plans[tx].ops, p)
  {
    var plan := s.plans[tx];
    var part := s.parts[p];
    var locks' := WriteLocks(part, tx, plan.ts, plan.ops, p, s.now).locks;
    forall k | k in KeysOf(plan.ops, p) ensures k in locks' && locks'[k].tx == tx {
      var i :| 0 <= i < |plan.ops| && plan.ops[i].participant == p && plan.ops[i].key == k;
    }
    forall k | k in locks' && locks'[k].tx == tx
      ensures k in KeysOf(plan.ops, p) && locks'[k].ts == plan.ts && locks'[k].ops == OpsOf(plan.ops, p, k)
    {
      if k in part.locks {
        assert LockGroup(s, p, tx);
      }
    }
    if AppliedAt(s, tx, p) {
      forall i | 0 <= i < |plan.ops| && plan.ops[i].participant == p ensures plan.ops[i].op.Check? {
        var k := plan.ops[i].key;
        assert k in KeysOf(plan.ops, p);
        if k in part.locks {
          assert LockGroup(s, p, tx);
        } else {
          assert Stamped(s, tx, p);
        }
      }
    }
  }

  /** The rows of one transaction are the same in two lock tables. */
  ghost predicate SameRows(locks: map<ItemKey, Lock>, locks': map<ItemKey, Lock>, tx: TxId) {
    && (forall k :: k in locks && locks[k].tx == tx ==> k in locks' && locks'[k] == locks[k])
    && (forall k :: k in locks' && locks'[k].tx == tx ==> k in locks && locks[k] == locks'[k])
  }

  lemma GroupStays(s: System, s': System, q: PartId, tx: TxId)
    requires q in s.parts && q in s'.parts && LockGroup(s, q, tx) && SameRows(s.parts[q].locks, s'.parts[q].locks, tx)
    requires s'.plans == s.plans && s.net <= s'.net && (AppliedAt(s', tx, q) ==> AppliedAt(s, tx, q))
    ensures LockGroup(s', q, tx)
  {
  }

  /** The lock rows of every transaction except `tx` at `p` stay, and the group of `tx` is whole or gone. */
  lemma OtherGroupsStay(s: System, s': System, p: PartId, tx: TxId)
    requires LockInv(s) && GuardInv(s) && p in s.parts && p in s'.parts && s'.parts == s.parts[p := s'.parts[p]]
    requires s'.plans == s.plans && s.net <= s'.net && s'.decisions == s.decisions
    requires forall t, q :: AppliedAt(s', t, q) && (t != tx || q != p) ==> AppliedAt(s, t, q)
    requires forall t :: t != tx ==> SameRows(s.parts[p].locks, s'.parts[p].locks, t)
    requires s'.parts[p].guarded == s.parts[p].guarded
    requires (exists k :: k in s'.parts[p].locks && s'.parts[p].locks[k].tx == tx) ==> LockGroup(s', p, tx)
    ensures LockInv(s') && GuardInv(s')
  {
    forall q, k | q in s'.parts && k in s'.parts[q].locks ensures LockGroup(s', q, s'.parts[q].locks[k].tx) {
      var t := s'.parts[q].locks[k].tx;
      if q != p || t != tx {
        if q == p {
          assert SameRows(s.parts[p].locks, s'.parts[p].locks, t);
        }
        assert k in s.parts[q].locks && s.parts[q].locks[k].tx == t;
        assert LockGroup(s, q, t);
        GroupStays(s, s', q, t);
      }
    }
    forall q, t | q in s'.parts && t in s'.parts[q].guarded ensures Cancels(s', t) {
      assert q in s.parts && t in s.parts[q].guarded;
      assert Cancels(s, t);
    }
  }

  lemma PrepareLocks(s: System, s': System, tx: TxId, p: PartId)
    requires LockInv(s) && GuardInv(s) && p in s.parts && PartOf(s, tx, p) && PrepareRequest(tx, p) in s.net
    requires CanLock(s.parts[p], tx, s.plans[tx].ts, s.plans[tx].ops, p)
    requires LocksMatch(WriteLocks(s.parts[p], tx, s.plans[tx].ts, s.plans[tx].ops, p, s.now).locks, tx, s.plans[tx].ts, s.plans[tx].ops, p)
    requires AppliedAt(s, tx, p) ==> OnlyChecks(s.plans[tx].ops, p)
    requires s' == WithPart(s, p, WriteLocks(s.parts[p], tx, s.plans[tx].ts, s.plans[tx].ops, p, s.now))
    ensures LockInv(s') && GuardInv(s') && LocksHeld(s, s', p)
  {
    hide LockInv, GuardInv, LocksMatch, OnlyChecks;
    OtherGroupsStay(s, s', p, tx);
  }

  lemma DeliverPrepareKeeps(s: System, tx: TxId, p: PartId, refuse: bool)
    requires Inv(s) && PrepareRequest(tx, p) in s.net && tx in s.plans && p in s.parts
    ensures Inv(DoDeliverPrepare(s, tx, p, refuse))
  {
    assert MessageInv(s, PrepareRequest(tx, p)) by {
      hide LockInv, AppliedInv, GuardInv, TokensInv, LedgerInv, PlanInv, CommitInv;
    }
    hide LockInv, AppliedInv, GuardInv, TokensInv, LedgerInv, PlanInv, CommitInv, NetInv, LocksMatch, OnlyChecks, StampsRise;
    var plan := s.plans[tx];
    if refuse || !CanLock(s.parts[p], tx, plan.ts, plan.ops, p) {
      SendKeeps(s, PrepareAnswer(tx, p, false));
    } else {
      var s1 := WithPart(s, p, WriteLocks(s.parts[p], tx, plan.ts, plan.ops, p, s.now));
      PrepareGroup(s, tx, p);
      PrepareLocks(s, s1, tx, p);
      StampsStay(s.parts[p].store);
      PartStepKeepsApplied(s, s1, p);
      PartStepKeeps(s, s1, p);
      MatchHolds(s1, tx, p);
      SendKeeps(s1, PrepareAnswer(tx, p, true));
    }
  }

  lemma StampsStay(store: Store)
    ensures StampsRise(store, store)
  {
  }

  lemma MatchHolds(s: System, tx: TxId, p: PartId)
    requires tx in s.plans && p in s.parts && LocksMatch(s.parts[p].locks, tx, s.plans[tx].ts, s.plans[tx].ops, p)
    ensures HoldsAll(s, tx, p)
  {
  }

  // commit

  /** While a transaction locks anything at a partition, its commit finds exactly the rows of its prepare. */
  lemma CommitFindsItsRows(s: System, tx: TxId, p: PartId)
    requires LockInv(s) && tx in s.plans && p in s.parts
    ensures !CommitLocal(s.parts[p], tx, s.plans[tx].ts, s.plans[tx].ops, p).KeysetMismatch?
    ensures CommitLocal(s.parts[p], tx, s.plans[tx].ts, s.plans[tx].ops, p).Applied? ==> LockGroup(s, p, tx)
  {
    var owned := LockedKeys(s.parts[p], tx);
    if owned != {} {
      var k :| k in owned;
      assert LockGroup(s, p, s.parts[p].locks[k].tx);
      assert owned == KeysOf(s.plans[tx].ops, p);
    }
  }

  lemma AppliedStamps(s: System, tx: TxId, p: PartId)
    requires p in s.parts && LockGroup(s, p, tx)
    ensures var plan := s.plans[tx];
            var after := ApplyFrom(s.parts[p].store, s.parts[p].locks, plan.ops, p, 0, plan.ts);
            StampsRise(s.parts[p].store, after) && forall k :: k in KeysOf(plan.ops, p) ==> Stamp(after, k) >= plan.ts
  {
    var plan := s.plans[tx];
    var part := s.parts[p];
    var after := ApplyFrom(part.store, part.locks, plan.ops, p, 0, plan.ts);
    forall k ensures Stamp(after, k) >= Stamp(part.store, k) {
      ApplyFromAdvances(part.store, part.locks, plan.ops, p, 0, plan.ts, k);
    }
    forall k | k in KeysOf(plan.ops, p) ensures Stamp(after, k) >= plan.ts {
      ApplyFromAdvances(part.store, part.locks, plan.ops, p, 0, plan.ts, k);
      var i :| 0 <= i < |plan.ops| && plan.ops[i].participant == p && plan.ops[i].key == k;
      assert i in part.locks[k].ops;
      assert plan.ops[i].key == k;
    }
  }

  lemma CommitApplies(s: System, tx: TxId, p: PartId)
    requires AppliedInv(s) && LockInv(s) && Commits(s, tx) && tx in s.plans && p in s.parts
    requires CommitLocal(s.parts[p], tx, s.plans[tx].ts, s.plans[tx].ops, p).Applied?
    ensures PartStep(s, CommitAt(s, tx, p), p) && AppliedInv(CommitAt(s, tx, p))
  {
    CommitFindsItsRows(s, tx, p);
    AppliedStamps(s, tx, p);
    CommitIsPartStep(s, tx, p);
    hide LockInv, LockGroup, ApplyFrom, CommitLocal, StampsRise;
    var s' := CommitAt(s, tx, p);
    forall t, q | AppliedAt(s', t, q)
      ensures PartOf(s', t, q) && Commits(s', t) && q in s'.parts && Stamped(s', t, q)
      ensures s'.applied[(t, q)] > 1 ==> OnlyChecks(s'.plans[t].ops, q)
    {
      StillApplied(s, s', tx, p, t, q);
    }
  }

  /** The step of an apply: what it changes, and which stamps it leaves. */
  lemma CommitIsPartStep(s: System, tx: TxId, p: PartId)
    requires tx in s.plans && p in s.parts && LockGroup(s, p, tx)
    requires CommitLocal(s.parts[p], tx, s.plans[tx].ts, s.plans[tx].ops, p).Applied?
    ensures var s' := CommitAt(s, tx, p);
            && PartStep(s, s', p) && s'.applied == s.applied + multiset{(tx, p)}
            && (forall k :: k in KeysOf(s.plans[tx].ops, p) ==> Stamp(s'.parts[p].store, k) >= s.plans[tx].ts)
            && StampsRise(s.parts[p].store, s'.parts[p].store)
  {
    AppliedStamps(s, tx, p);
    hide LockGroup, ApplyFrom, StampsRise, KeysOf;
  }

  lemma StillApplied(s: System, s': System, tx: TxId, p: PartId, t: TxId, q: PartId)
    requires AppliedInv(s) && PartStep(s, s', p) && s'.applied == s.applied + multiset{(tx, p)} && AppliedAt(s', t, q)
    requires LockGroup(s, p, tx) && Commits(s, tx) && StampsRise(s.parts[p].store, s'.parts[p].store)
    requires p in s'.parts && forall k :: k in KeysOf(s.plans[tx].ops, p) ==> Stamp(s'.parts[p].store, k) >= s.plans[tx].ts
    ensures PartOf(s', t, q) && Commits(s', t) && q in s'.parts && Stamped(s', t, q)
    ensures s'.applied[(t, q)] > 1 ==> OnlyChecks(s'.plans[t].ops, q)
  {
    hide KeysOf, LocksMatch;
    if t != tx || q != p {
      assert AppliedAt(s, t, q);
      assert Stamped(s, t, q);
    } else if s'.applied[(t, q)] > 1 {
      assert AppliedAt(s, tx, p);
    }
  }

  lemma CommitLocks(s: System, tx: TxId, p: PartId)
    requires LockInv(s) && GuardInv(s) && tx in s.plans && p in s.parts
    requires CommitLocal(s.parts[p], tx, s.plans[tx].ts, s.plans[tx].ops, p).Applied?
    ensures LockInv(CommitAt(s, tx, p)) && GuardInv(CommitAt(s, tx, p)) && LocksHeld(s, CommitAt(s, tx, p), p)
  {
    hide LockInv, GuardInv, LockGroup, ApplyFrom;
    var s' := CommitAt(s, tx, p);
    assert s'.parts[p].locks == s.parts[p].locks - LockedKeys(s.parts[p], tx);
    assert forall t :: t != tx ==> SameRows(s.parts[p].locks, s'.parts[p].locks, t);
    assert AppliedAt(s', tx, p);
    OtherGroupsStay(s, s', p, tx);
    forall t | HoldsAll(s, t, p) && !AppliedAt(s', t, p) ensures HoldsAll(s', t, p) {
      assert t != tx;
    }
  }

  lemma CommitAtKeeps(s: System, tx: TxId, p: PartId)
    requires Inv(s) && Commits(s, tx) && tx in s.plans && p in s.parts
    ensures Inv(CommitAt(s, tx, p))
  {
    hide LockInv, AppliedInv, GuardInv, TokensInv, LedgerInv, PlanInv, CommitInv, NetInv, StampsRise, LocksHeld;
    if CommitLocal(s.parts[p], tx, s.plans[tx].ts, s.plans[tx].ops, p).Applied? {
      CommitApplies(s, tx, p);
      CommitLocks(s, tx, p);
      PartStepKeeps(s, CommitAt(s, tx, p), p);
    }
  }

  /** A commit that finds no row is a repeat: the participant accepted and no cancel released its locks. */
  lemma CommitMeansApplied(s: System, tx: TxId, p: PartId)
    requires NetInv(s) && CommitInv(s) && LockInv(s) && Commits(s, tx) && PartOf(s, tx, p) && p in s.parts
    ensures AppliedAt(CommitAt(s, tx, p), tx, p)
  {
    CommitFacts(s, tx);
    assert AllAccept(s, tx);
    assert MessageInv(s, PrepareAnswer(tx, p, true));
    CommitFindsItsRows(s, tx, p);
    if !AppliedAt(s, tx, p) {
      var i :| 0 <= i < |s.plans[tx].ops| && s.plans[tx].ops[i].participant == p;
      var k := s.plans[tx].ops[i].key;
      assert k in KeysOf(s.plans[tx].ops, p);
      assert k in LockedKeys(s.parts[p], tx);
    }
  }

  lemma DeliverCommitKeeps(s: System, tx: TxId, p: PartId)
    requires Inv(s) && CommitRequest(tx, p) in s.net && tx in s.plans && p in s.parts
    ensures Inv(DoDeliverCommit(s, tx, p))
  {
    assert MessageInv(s, CommitRequest(tx, p)) by {
      hide LockInv, AppliedInv, GuardInv, TokensInv, LedgerInv, PlanInv, CommitInv;
    }
    hide LockInv, AppliedInv, GuardInv, TokensInv, LedgerInv, PlanInv, CommitInv, NetInv;
    CommitFindsItsRows(s, tx, p);
    CommitMeansApplied(s, tx, p);
    CommitAtKeeps(s, tx, p);
    SendKeeps(CommitAt(s, tx, p), CommitAck(tx, p));
  }

  // cancel and recovery

  /** Releases all locks of a transaction that cancelled, or that has already applied here. */
  lemma CancelAtKeeps(s: System, tx: TxId, p: PartId, keys: set<ItemKey>)
    requires Inv(s) && tx in s.plans && p in s.parts
    requires keys == LockedKeys(s.parts[p], tx) || keys == KeysOf(s.plans[tx].ops, p)
    requires Cancels(s, tx) || AppliedAt(s, tx, p)
    ensures Inv(CancelAt(s, tx, p, keys))
  {
    hide LockInv, AppliedInv, GuardInv, TokensInv, LedgerInv, PlanInv, CommitInv, NetInv, LocksHeld, StampsRise;
    var s' := CancelAt(s, tx, p, keys);
    CancelReleasesAll(s, tx, p, keys);
    CancelLocks(s, tx, p, keys);
    StampsStay(s.parts[p].store);
    PartStepKeepsApplied(s, s', p);
    PartStepKeeps(s, s', p);
  }

  lemma CancelReleasesAll(s: System, tx: TxId, p: PartId, keys: set<ItemKey>)
    requires LockInv(s) && tx in s.plans && p in s.parts
    requires keys == LockedKeys(s.parts[p], tx) || keys == KeysOf(s.plans[tx].ops, p)
    ensures LockedKeys(s.parts[p], tx) <= keys
  {
    forall k | k in LockedKeys(s.parts[p], tx) ensures k in keys {
      assert LockGroup(s, p, s.parts[p].locks[k].tx);
    }
  }

  lemma CancelLocks(s: System, tx: TxId, p: PartId, keys: set<ItemKey>)
    requires LockInv(s) && GuardInv(s) && tx in s.plans && p in s.parts
    requires LockedKeys(s.parts[p], tx) <= keys
    requires Cancels(s, tx) || AppliedAt(s, tx, p)
    ensures LockInv(CancelAt(s, tx, p, keys)) && GuardInv(CancelAt(s, tx, p, keys)) && LocksHeld(s, CancelAt(s, tx, p, keys), p)
  {
    var s' := CancelAt(s, tx, p, keys);
    assert forall t :: t != tx ==> SameRows(s.parts[p].locks, s'.parts[p].locks, t);
    OtherGroupsStay(s, s', p, tx);
  }

  lemma GuardKeeps(s: System, tx: TxId, p: PartId)
    requires Inv(s) && p in s.parts && Cancels(s, tx)
    ensures Inv(WithPart(s, p, s.parts[p].(guarded := s.parts[p].guarded + {tx})))
  {
    hide AppliedInv, TokensInv, LedgerInv, PlanInv, CommitInv, NetInv, StampsRise;
    var s' := WithPart(s, p, s.parts[p].(guarded := s.parts[p].guarded + {tx}));
    assert LockInv(s') by {
      forall q, k | q in s'.parts && k in s'.parts[q].locks ensures LockGroup(s', q, s'.parts[q].locks[k].tx) {
        assert k in s.parts[q].locks;
        GroupStays(s, s', q, s.parts[q].locks[k].tx);
      }
    }
    assert GuardInv(s') by {
      forall q, t | q in s'.parts && t in s'.parts[q].guarded ensures Cancels(s', t) {
        assert t == tx || t in s.parts[q].guarded;
        assert t == tx || Cancels(s, t);
      }
    }
    StampsStay(s.parts[p].store);
    PartStepKeepsApplied(s, s', p);
    PartStepKeeps(s, s', p);
  }

  /**
   * `not_found` is the answer for a transaction that the ledger swept. If it committed, it has applied
   * here, and only a late prepare of stamped checks can still hold a lock.
   */
  lemma NotFoundIsSettled(s: System, tx: TxId, p: PartId)
    requires PlanInv(s) && LedgerInv(s) && CommitInv(s) && AppliedInv(s) && LockInv(s)
    requires tx in s.plans && tx !in s.ledger && p in s.parts && LockedKeys(s.parts[p], tx) != {}
    ensures Cancels(s, tx) || AppliedAt(s, tx, p)
    ensures !Cancels(s, tx) ==> ChecksAlreadyStamped(s.parts[p], tx)
  {
    var part := s.parts[p];
    var k0 :| k0 in LockedKeys(part, tx);
    assert LockGroup(s, p, part.locks[k0].tx);
    CommitFacts(s, tx);
    if !Cancels(s, tx) {
      assert tx in s.decisions && Commits(s, tx);
      assert AllApplied(s, tx) && AppliedAt(s, tx, p);
      assert Stamped(s, tx, p);
    }
  }

  lemma RecoverFacts(s: System, tx: TxId, answer: RecoverAnswer)
    requires NetInv(s) && RecoverReply(tx, answer) in s.net
    ensures MessageInv(s, RecoverReply(tx, answer))
  {
  }

  lemma ApplyRecoveryKeeps(s: System, tx: TxId, p: PartId, answer: RecoverAnswer)
    requires Inv(s) && RecoverReply(tx, answer) in s.net && tx in s.plans && p in s.parts
    ensures Inv(DoApplyRecovery(s, tx, p, answer))
  {
    hide LockInv, AppliedInv, GuardInv, TokensInv, LedgerInv, PlanInv, CommitInv, NetInv;
    RecoverFacts(s, tx, answer);
    var part := s.parts[p];
    if LockedKeys(part, tx) != {} {
      match answer {
        case IsCommitted => CommitAtKeeps(s, tx, p);
        case IsCancelled => CancelAtKeeps(s, tx, p, LockedKeys(part, tx));
        case IsDriving =>
        case IsNotFound =>
          NotFoundIsSettled(s, tx, p);
          if OverAge(part, tx, s.now) && !ChecksAlreadyStamped(part, tx) {
            GuardKeeps(s, tx, p);
          } else {
            CancelAtKeeps(s, tx, p, LockedKeys(part, tx));
          }
      }
    }
  }

  lemma RecoverAnswerHolds(s: System, tx: TxId)
    requires LedgerInv(s) && tx in s.plans
    ensures MessageInv(s, RecoverReply(tx, Recover(s.ledger, tx)))
  {
    if tx in s.ledger {
      RowFacts(s, tx);
    }
  }
}
