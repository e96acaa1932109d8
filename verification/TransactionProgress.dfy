/**
 * What a transaction can always reach. From every reachable state, however messages were lost, every
 * transaction of the ledger can be finished and every lock resolved, and one without a conflict can commit.
 */
module TransactionProgress {
  import opened Bytes
  import opened Participant
  import opened Coordinator
  import opened TransactionSystem
  import opened TransactionSafety
  import opened TwoPhaseCommit
  import opened WriteOrder
  import opened SerialOrder
  import opened PrepareAnswers

  // ─── continuations ──────────────────────────────────────────────────────────

  /** Some continuation of the run of `s` ends in `s'`. */
  ghost predicate Leads(s: System, s': System) {
    exists actions :: Run(s, actions) == s'
  }

  lemma {:induction false} RunSplits(s: System, a: seq<Action>, b: seq<Action>)
    ensures Run(s, a + b) == Run(Run(s, a), b)
    decreases |a|
  {
    hide Next;
    if a == [] {
      assert a + b == b;
    } else {
      assert (a + b)[0] == a[0] && (a + b)[1..] == a[1..] + b;
      RunSplits(Next(s, a[0]), a[1..], b);
    }
  }

  lemma LeadsNowhere(s: System)
    ensures Leads(s, s)
  {
    assert Run(s, []) == s;
  }

  lemma LeadsOn(s: System, a: System, b: System)
    requires Leads(s, a) && Leads(a, b)
    ensures Leads(s, b)
  {
    hide Run;
    var first :| Run(s, first) == a;
    var second :| Run(a, second) == b;
    RunSplits(s, first, second);
  }

  /** One step, and what it leads to. */
  lemma Step(s: System, a: Action)
    requires Reachable(s)
    ensures Reachable(Next(s, a)) && Leads(s, Next(s, a))
  {
    ReachableNext(s, a);
    hide Next, Reachable;
    assert [a][1..] == [];
    assert Run(s, [a]) == Run(Next(s, a), []);
  }

  // ─── commits ────────────────────────────────────────────────────────────────

  /** What the steps of one commit or cancel leave alone: other plans and rows, and messages stay. */
  ghost predicate KeepsRest(s: System, s': System, tx: TxId) {
    && Reachable(s') && Leads(s, s')
    && s'.plans == s.plans && s'.parts.Keys == s.parts.Keys && s.net <= s'.net && tx in s'.ledger
  }

  lemma KeepsOn(s: System, a: System, b: System, tx: TxId)
    requires KeepsRest(s, a, tx) && KeepsRest(a, b, tx)
    ensures KeepsRest(s, b, tx)
  {
    hide Leads, Reachable;
    LeadsOn(s, a, b);
  }

  lemma SendCommitStep(s: System, tx: TxId, p: PartId) returns (s': System)
    requires Reachable(s) && tx in s.ledger && s.ledger[tx].state.Committing? && p in s.ledger[tx].participants && !s.ledger[tx].participants[p].commitStored
    ensures KeepsRest(s, s', tx) && s' == Send(s, CommitRequest(tx, p))
  {
    Step(s, SendCommit(tx, p));
    s' := Next(s, SendCommit(tx, p));
    hide Reachable, Leads;
  }

  /** The commit of one participant: its apply, if it still locks, and its confirmation. */
  lemma DeliverCommitStep(s: System, tx: TxId, p: PartId) returns (s': System)
    requires Reachable(s) && CommitRequest(tx, p) in s.net && tx in s.plans && p in s.parts && tx in s.ledger
    ensures KeepsRest(s, s', tx) && s'.ledger == s.ledger && CommitAck(tx, p) in s'.net
    ensures forall q :: q in s.parts && q != p ==> s'.parts[q] == s.parts[q]
    ensures if LockedKeys(s.parts[p], tx) == {} then s'.parts == s.parts && s'.applied == s.applied else IsApply(s, s', tx, p)
  {
    hide *;
    Step(s, DeliverCommit(tx, p));
    s' := Next(s, DeliverCommit(tx, p));
    ReachableInv(s);
    InvParts(s, tx, p);
    CommitFindsItsRows(s, tx, p);
    CommitDelivered(s, tx, p);
    CommitAtRest(s, tx, p);
    if CommitLocal(s.parts[p], tx, s.plans[tx].ts, s.plans[tx].ops, p).Applied? {
      ApplyIsCommit(s, tx, p);
      AppliedEnds(s, tx, p, s');
    }
    KeepsRestIs(s, s', tx);
  }

  lemma KeepsRestIs(s: System, s': System, tx: TxId)
    requires Reachable(s') && Leads(s, s') && s'.plans == s.plans && s'.parts.Keys == s.parts.Keys && s.net <= s'.net && tx in s'.ledger
    ensures KeepsRest(s, s', tx)
  {
  }

  /** A commit request that finds its rows is confirmed, with the apply before it when it finds any. */
  lemma CommitDelivered(s: System, tx: TxId, p: PartId)
    requires CommitRequest(tx, p) in s.net && tx in s.plans && p in s.parts
    requires !CommitLocal(s.parts[p], tx, s.plans[tx].ts, s.plans[tx].ops, p).KeysetMismatch?
    ensures Next(s, DeliverCommit(tx, p)) == Send(CommitAt(s, tx, p), CommitAck(tx, p))
    ensures CommitLocal(s.parts[p], tx, s.plans[tx].ts, s.plans[tx].ops, p).Applied? <==> LockedKeys(s.parts[p], tx) != {}
    ensures LockedKeys(s.parts[p], tx) == {} ==> CommitAt(s, tx, p) == s
    ensures Send(CommitAt(s, tx, p), CommitAck(tx, p)).parts == CommitAt(s, tx, p).parts
    ensures Send(CommitAt(s, tx, p), CommitAck(tx, p)) == CommitAt(s, tx, p).(net := CommitAt(s, tx, p).net + {CommitAck(tx, p)})
  {
    hide ApplyFrom, LockedKeys, KeysOf;
  }

  lemma CommitAtRest(s: System, tx: TxId, p: PartId)
    requires tx in s.plans && p in s.parts
    ensures var s' := CommitAt(s, tx, p); s'.plans == s.plans && s'.ledger == s.ledger && s'.net == s.net && s'.parts.Keys == s.parts.Keys
    ensures forall q :: q in s.parts && q != p ==> CommitAt(s, tx, p).parts[q] == s.parts[q]
  {
    hide CommitLocal;
  }

  lemma AppliedEnds(s: System, tx: TxId, p: PartId, s': System)
    requires tx in s.plans && p in s.parts && CommitLocal(s.parts[p], tx, s.plans[tx].ts, s.plans[tx].ops, p).Applied?
    requires IsApply(s, CommitAt(s, tx, p), tx, p) && s' == Send(CommitAt(s, tx, p), CommitAck(tx, p))
    ensures IsApply(s, s', tx, p) && LockedKeys(s.parts[p], tx) != {}
  {
    hide ApplyFrom, LockGroup;
  }

  /** The participant holds what the transaction leaves of each key that it writes there. */
  ghost predicate HoldsEffect(s: System, tx: TxId, p: PartId) {
    tx in s.plans && p in s.parts && forall k :: k in WrittenKeys(s.plans[tx].ops, p) ==> ValueOf(s.parts[p].store, k) == EffectOf(s.plans[tx].ops, p, k)
  }

  lemma ApplyHoldsEffect(s: System, s': System, tx: TxId, p: PartId)
    requires IsApply(s, s', tx, p)
    ensures HoldsEffect(s', tx, p) && AppliedAt(s', tx, p) && forall t, q :: (t != tx || q != p) ==> (AppliedAt(s', t, q) <==> AppliedAt(s, t, q))
  {
    forall k | k in WrittenKeys(s.plans[tx].ops, p) ensures ValueOf(s'.parts[p].store, k) == EffectOf(s.plans[tx].ops, p, k) {
      ApplyLeaves(s, s', tx, p, k);
    }
    hide ApplyFrom, LockGroup, ValueOf, EffectOf, WrittenKeys, KeysOf, LockedKeys;
  }

  lemma StoredIsAcked(s: System, tx: TxId, p: PartId)
    requires Reachable(s) && tx in s.ledger && p in s.ledger[tx].participants
    ensures tx in s.plans && PartOf(s, tx, p) && p in s.parts
    ensures s.ledger[tx].participants[p].commitStored ==> CommitAck(tx, p) in s.net
    ensures s.ledger[tx].state.Committing? ==> Commits(s, tx)
  {
    ReachableInv(s);
    hide Reachable, NetInv, AppliedInv, LockInv, GuardInv, TokensInv, CommitInv;
    RowFacts(s, tx);
  }

  lemma UnlockedHasApplied(s: System, tx: TxId, p: PartId)
    requires Reachable(s) && Commits(s, tx) && PartOf(s, tx, p) && p in s.parts && LockedKeys(s.parts[p], tx) == {}
    ensures AppliedAt(s, tx, p)
  {
    ReachableInv(s);
    hide Reachable, LedgerInv, AppliedInv, GuardInv, TokensInv, PlanInv;
    CommitMeansApplied(s, tx, p);
    hide CommitInv, NetInv, LockInv;
  }

  lemma AckMeansApplied(s: System, tx: TxId, p: PartId)
    requires Reachable(s) && CommitAck(tx, p) in s.net
    ensures AppliedAt(s, tx, p)
  {
    ReachableInv(s);
    hide Reachable, LedgerInv, AppliedInv, GuardInv, TokensInv, PlanInv, CommitInv, LockInv;
    AckFacts(s, tx);
  }

  /** One participant of a committing transaction confirms. If it had not applied, it does now. */
  lemma AckCommit(s: System, tx: TxId, p: PartId) returns (s': System)
    requires Reachable(s) && tx in s.ledger && s.ledger[tx].state.Committing? && p in s.ledger[tx].participants
    ensures KeepsRest(s, s', tx) && s'.ledger == s.ledger && CommitAck(tx, p) in s'.net
    ensures forall q :: q in s.parts && q != p ==> s'.parts[q] == s.parts[q]
    ensures forall q :: q != p ==> (AppliedAt(s', tx, q) <==> AppliedAt(s, tx, q))
    ensures !AppliedAt(s, tx, p) ==> HoldsEffect(s', tx, p)
  {
    hide *;
    StoredIsAcked(s, tx, p);
    if s.ledger[tx].participants[p].commitStored {
      s' := s;
      LeadsNowhere(s);
      KeepsRestIs(s, s, tx);
      AckMeansApplied(s, tx, p);
    } else {
      var s1 := SendCommitStep(s, tx, p);
      SentSame(s, CommitRequest(tx, p));
      KeepsRestMeans(s, s1, tx);
      s' := DeliverCommitStep(s1, tx, p);
      KeepsOn(s, s1, s', tx);
      if LockedKeys(s1.parts[p], tx) == {} {
        StoredIsAcked(s1, tx, p);
        UnlockedHasApplied(s1, tx, p);
        SameApplies(s, s1);
        SameApplies(s1, s');
      } else {
        ApplyHoldsEffect(s1, s', tx, p);
        SameApplies(s, s1);
      }
    }
  }

  lemma SameApplies(s: System, s': System)
    requires s'.applied == s.applied
    ensures forall t, q :: AppliedAt(s', t, q) <==> AppliedAt(s, t, q)
  {
  }

  lemma KeepsRestMeans(s: System, s': System, tx: TxId)
    requires KeepsRest(s, s', tx)
    ensures Reachable(s') && Leads(s, s') && s'.plans == s.plans && s'.parts.Keys == s.parts.Keys && s.net <= s'.net && tx in s'.ledger
  {
  }

  lemma SentSame(s: System, m: Message)
    ensures Send(s, m) == s.(net := s.net + {m})
  {
  }

  lemma {:induction false} AckAll(s: System, tx: TxId, rest: set<PartId>) returns (s': System)
    requires Reachable(s) && tx in s.ledger && s.ledger[tx].state.Committing? && rest <= s.ledger[tx].participants.Keys
    ensures KeepsRest(s, s', tx) && s'.ledger == s.ledger
    ensures forall p :: p in rest ==> CommitAck(tx, p) in s'.net
    ensures forall q :: q in s.parts && q !in rest ==> s'.parts[q] == s.parts[q]
    ensures forall p :: p in rest && !AppliedAt(s, tx, p) ==> HoldsEffect(s', tx, p)
    decreases rest
  {
    hide *;
    if rest == {} {
      s' := s;
      LeadsNowhere(s);
      KeepsRestIs(s, s, tx);
    } else {
      var p :| p in rest;
      StoredIsAcked(s, tx, p);
      var s1 := AckCommit(s, tx, p);
      KeepsRestMeans(s, s1, tx);
      s' := AckAll(s1, tx, rest - {p});
      KeepsRestMeans(s1, s', tx);
      KeepsOn(s, s1, s', tx);
      forall r | r in rest && !AppliedAt(s, tx, r) ensures HoldsEffect(s', tx, r) {
        if r == p {
          EffectStays(s1, s', tx, p);
        }
      }
    }
  }

  lemma EffectStays(s: System, s': System, tx: TxId, p: PartId)
    requires HoldsEffect(s, tx, p) && s'.plans == s.plans && p in s'.parts && s'.parts[p] == s.parts[p]
    ensures HoldsEffect(s', tx, p)
  {
    hide ValueOf, EffectOf, WrittenKeys;
  }

  lemma FinishCommitStep(s: System, tx: TxId) returns (s': System)
    requires Reachable(s) && tx in s.ledger && s.ledger[tx].state.Committing?
    requires forall p :: p in s.ledger[tx].participants ==> CommitAck(tx, p) in s.net
    ensures KeepsRest(s, s', tx) && s'.ledger[tx].state == Committed && s'.parts == s.parts
  {
    Step(s, FinishCommit(tx));
    s' := Next(s, FinishCommit(tx));
    hide Reachable, Leads;
  }

  /** A committing transaction can be finished, and then it holds its effect at each participant that had not applied. */
  lemma CommitIsFinished(s: System, tx: TxId) returns (s': System)
    requires Reachable(s) && tx in s.ledger && s.ledger[tx].state.Committing?
    ensures KeepsRest(s, s', tx) && s'.ledger[tx].state == Committed
    ensures forall p :: p in s.ledger[tx].participants && !AppliedAt(s, tx, p) ==> HoldsEffect(s', tx, p)
  {
    hide *;
    var s1 := AckAll(s, tx, s.ledger[tx].participants.Keys);
    KeepsRestMeans(s, s1, tx);
    s' := FinishCommitStep(s1, tx);
    KeepsRestMeans(s1, s', tx);
    KeepsOn(s, s1, s', tx);
    forall p | p in s.ledger[tx].participants && !AppliedAt(s, tx, p) ensures HoldsEffect(s', tx, p) {
      StoredIsAcked(s, tx, p);
      EffectStays(s1, s', tx, p);
    }
  }

  // ─── cancels ────────────────────────────────────────────────────────────────

  /** The row of a cancel: Cancelling, with the same participants, and no stored confirmation is lost. */
  ghost predicate StillCancelling(s: System, s': System, tx: TxId) {
    && tx in s.ledger && tx in s'.ledger && s'.ledger[tx].state == Cancelling
    && s'.ledger[tx].participants.Keys == s.ledger[tx].participants.Keys
    && forall q :: q in s.ledger[tx].participants && s.ledger[tx].participants[q].cancelStored ==> s'.ledger[tx].participants[q].cancelStored
  }

  lemma SendCancelStep(s: System, tx: TxId, p: PartId) returns (s': System)
    requires Reachable(s) && tx in s.ledger && s.ledger[tx].state.Cancelling? && p in s.ledger[tx].participants && !s.ledger[tx].participants[p].cancelStored
    ensures KeepsRest(s, s', tx) && s'.ledger == s.ledger && CancelRequest(tx, p) in s'.net
  {
    Step(s, SendCancel(tx, p));
    s' := Next(s, SendCancel(tx, p));
    hide Reachable, Leads;
  }

  lemma DeliverCancelStep(s: System, tx: TxId, p: PartId) returns (s': System)
    requires Reachable(s) && CancelRequest(tx, p) in s.net && tx in s.plans && p in s.parts && tx in s.ledger
    ensures KeepsRest(s, s', tx) && s'.ledger == s.ledger && CancelAck(tx, p) in s'.net
  {
    Step(s, DeliverCancel(tx, p));
    s' := Next(s, DeliverCancel(tx, p));
    hide Reachable, Leads, CancelLocal, KeysOf;
  }

  lemma RecordCancelStep(s: System, tx: TxId, p: PartId) returns (s': System)
    requires Reachable(s) && tx in s.ledger && s.ledger[tx].state.Cancelling? && p in s.ledger[tx].participants && CancelAck(tx, p) in s.net
    ensures KeepsRest(s, s', tx) && StillCancelling(s, s', tx) && s'.ledger[tx].participants[p].cancelStored
  {
    Step(s, RecordCancelled(tx, p));
    s' := Next(s, RecordCancelled(tx, p));
    hide Reachable, Leads;
  }

  lemma SameRowStays(s: System, s': System, tx: TxId)
    requires tx in s.ledger && s.ledger[tx].state == Cancelling && s'.ledger == s.ledger
    ensures StillCancelling(s, s', tx)
  {
  }

  lemma CancelOne(s: System, tx: TxId, p: PartId) returns (s': System)
    requires Reachable(s) && tx in s.ledger && s.ledger[tx].state.Cancelling? && p in s.ledger[tx].participants
    ensures KeepsRest(s, s', tx) && StillCancelling(s, s', tx) && p in s'.ledger[tx].participants && s'.ledger[tx].participants[p].cancelStored
  {
    hide *;
    StoredIsAcked(s, tx, p);
    if s.ledger[tx].participants[p].cancelStored {
      s' := s;
      LeadsNowhere(s);
      KeepsRestIs(s, s, tx);
      SameRowStays(s, s, tx);
    } else {
      var s1 := SendCancelStep(s, tx, p);
      KeepsRestMeans(s, s1, tx);
      var s2 := DeliverCancelStep(s1, tx, p);
      KeepsRestMeans(s1, s2, tx);
      s' := RecordCancelStep(s2, tx, p);
      KeepsOn(s, s1, s2, tx);
      KeepsOn(s, s2, s', tx);
      SameRowCancels(s, s2, s', tx);
    }
  }

  lemma SameRowCancels(s: System, a: System, b: System, tx: TxId)
    requires a.ledger == s.ledger && StillCancelling(a, b, tx)
    ensures StillCancelling(s, b, tx) && b.ledger[tx].participants.Keys == s.ledger[tx].participants.Keys
  {
  }

  lemma {:induction false} CancelAll(s: System, tx: TxId, rest: set<PartId>) returns (s': System)
    requires Reachable(s) && tx in s.ledger && s.ledger[tx].state.Cancelling? && rest <= s.ledger[tx].participants.Keys
    ensures KeepsRest(s, s', tx) && StillCancelling(s, s', tx)
    ensures forall p :: p in rest ==> p in s'.ledger[tx].participants && s'.ledger[tx].participants[p].cancelStored
    decreases rest
  {
    hide Reachable, Leads, KeepsRest;
    if rest == {} {
      s' := s;
      LeadsNowhere(s);
      KeepsRestIs(s, s, tx);
    } else {
      var p :| p in rest;
      var s1 := CancelOne(s, tx, p);
      KeepsRestMeans(s, s1, tx);
      s' := CancelAll(s1, tx, rest - {p});
      KeepsRestMeans(s1, s', tx);
      KeepsOn(s, s1, s', tx);
    }
  }

  lemma FinishCancelStep(s: System, tx: TxId) returns (s': System)
    requires Reachable(s) && tx in s.ledger && s.ledger[tx].state.Cancelling?
    requires forall p :: p in s.ledger[tx].participants ==> s.ledger[tx].participants[p].cancelStored
    ensures KeepsRest(s, s', tx) && s'.ledger[tx].state == Cancelled
  {
    Step(s, FinishCancel(tx));
    s' := Next(s, FinishCancel(tx));
    hide Reachable, Leads;
  }

  lemma CancelIsFinished(s: System, tx: TxId) returns (s': System)
    requires Reachable(s) && tx in s.ledger && s.ledger[tx].state.Cancelling?
    ensures KeepsRest(s, s', tx) && s'.ledger[tx].state == Cancelled
  {
    hide Reachable, Leads, KeepsRest;
    var s1 := CancelAll(s, tx, s.ledger[tx].participants.Keys);
    KeepsRestMeans(s, s1, tx);
    s' := FinishCancelStep(s1, tx);
    KeepsOn(s, s1, s', tx);
  }

  // ─── every transaction can be finished ──────────────────────────────────────

  lemma LedgerHasPlan(s: System, tx: TxId)
    requires Reachable(s) && tx in s.ledger
    ensures tx in s.plans
  {
    ReachableInv(s);
    hide Reachable, NetInv, AppliedInv, LockInv, GuardInv, TokensInv, CommitInv;
    RowFacts(s, tx);
  }

  /** The prepare requests, again or for the first time. */
  lemma SendStep(s: System, tx: TxId) returns (s': System)
    requires Reachable(s) && tx in s.ledger && tx in s.plans && (s.ledger[tx].state == Created || s.ledger[tx].state == Preparing)
    ensures KeepsRest(s, s', tx) && s'.ledger[tx].state == Preparing && s'.ledger[tx].participants == s.ledger[tx].participants
    ensures s'.parts == s.parts && s'.applied == s.applied
    ensures forall p :: p in ParticipantsOf(s.plans[tx].ops) ==> PrepareRequest(tx, p) in s'.net
  {
    Step(s, SendPrepares(tx));
    s' := Next(s, SendPrepares(tx));
    hide Reachable, Leads, ParticipantsOf;
  }

  lemma CancelStep(s: System, tx: TxId) returns (s': System)
    requires Reachable(s) && tx in s.ledger && s.ledger[tx].state.Preparing?
    ensures KeepsRest(s, s', tx) && s'.ledger[tx].state == Cancelling
  {
    Step(s, DecideCancel(tx));
    s' := Next(s, DecideCancel(tx));
    hide Reachable, Leads;
  }

  /** The row of each transaction of the ledger can become terminal. */
  lemma CanBecomeTerminal(s: System, tx: TxId) returns (s': System)
    requires Reachable(s) && tx in s.ledger
    ensures KeepsRest(s, s', tx) && Terminal(s'.ledger[tx].state)
  {
    hide Reachable, Leads, KeepsRest;
    LeadsNowhere(s);
    KeepsRestIs(s, s, tx);
    s' := s;
    if s'.ledger[tx].state.Created? {
      LedgerHasPlan(s', tx);
      var s1 := SendStep(s', tx);
      KeepsRestMeans(s', s1, tx);
      KeepsOn(s, s', s1, tx);
      s' := s1;
    }
    if s'.ledger[tx].state.Preparing? {
      var s1 := CancelStep(s', tx);
      KeepsRestMeans(s', s1, tx);
      KeepsOn(s, s', s1, tx);
      s' := s1;
    }
    if s'.ledger[tx].state.Cancelling? {
      var s1 := CancelIsFinished(s', tx);
      KeepsOn(s, s', s1, tx);
      s' := s1;
    } else if s'.ledger[tx].state.Committing? {
      var s1 := CommitIsFinished(s', tx);
      KeepsOn(s, s', s1, tx);
      s' := s1;
    }
  }

  // ─── every lock can be resolved ─────────────────────────────────────────────

  lemma AnswerStep(s: System, tx: TxId) returns (s': System)
    requires Reachable(s) && tx in s.plans
    ensures Reachable(s') && Leads(s, s') && s' == Send(s, RecoverReply(tx, Recover(s.ledger, tx)))
  {
    Step(s, AnswerRecovery(tx));
    s' := Next(s, AnswerRecovery(tx));
    hide Reachable, Leads;
  }

  lemma RecoverStep(s: System, tx: TxId, p: PartId, answer: RecoverAnswer) returns (s': System)
    requires Reachable(s) && tx in s.plans && p in s.parts && RecoverReply(tx, answer) in s.net
    ensures Reachable(s') && Leads(s, s') && s' == DoApplyRecovery(s, tx, p, answer)
  {
    Step(s, ApplyRecovery(tx, p, answer));
    s' := Next(s, ApplyRecovery(tx, p, answer));
    hide Reachable, Leads, DoApplyRecovery;
  }

  /** An answer of the ledger other than `driving` releases the locks, or the lock-age guard keeps them. */
  lemma RecoveryReleases(s: System, tx: TxId, p: PartId, answer: RecoverAnswer)
    requires LockInv(s) && tx in s.plans && p in s.parts && !answer.IsDriving?
    ensures var s' := DoApplyRecovery(s, tx, p, answer);
            && s'.plans == s.plans && s'.ledger == s.ledger && s'.net == s.net && s'.parts.Keys == s.parts.Keys
            && (forall q :: q in s.parts && q != p ==> s'.parts[q] == s.parts[q])
            && (LockedKeys(s'.parts[p], tx) == {} || (answer.IsNotFound? && OverAge(s.parts[p], tx, s.now) && !ChecksAlreadyStamped(s.parts[p], tx) && tx in s'.parts[p].guarded))
  {
    CommitFindsItsRows(s, tx, p);
    CommitReleases(s, tx, p);
    CancelReleases(s, tx, p);
    hide CommitLocal, CommitAt, CancelAt, ChecksAlreadyStamped, OverAge, LockInv, LockedKeys;
  }

  lemma CommitReleases(s: System, tx: TxId, p: PartId)
    requires LockInv(s) && tx in s.plans && p in s.parts
    ensures var s' := CommitAt(s, tx, p);
            && s'.plans == s.plans && s'.ledger == s.ledger && s'.net == s.net && s'.parts.Keys == s.parts.Keys
            && (forall q :: q in s.parts && q != p ==> s'.parts[q] == s.parts[q]) && LockedKeys(s'.parts[p], tx) == {}
  {
    CommitFindsItsRows(s, tx, p);
    hide ApplyFrom, LockGroup, LockInv, KeysOf;
  }

  lemma CancelReleases(s: System, tx: TxId, p: PartId)
    requires p in s.parts
    ensures var s' := CancelAt(s, tx, p, LockedKeys(s.parts[p], tx));
            && s'.plans == s.plans && s'.ledger == s.ledger && s'.net == s.net && s'.parts.Keys == s.parts.Keys
            && (forall q :: q in s.parts && q != p ==> s'.parts[q] == s.parts[q]) && LockedKeys(s'.parts[p], tx) == {}
  {
  }

  /** The recovery of one participant, for a transaction that the ledger does not drive any more. */
  lemma RecoverOne(s: System, tx: TxId, p: PartId) returns (s': System)
    requires Reachable(s) && tx in s.plans && p in s.parts && Done(s, tx)
    ensures Reachable(s') && Leads(s, s') && s'.plans == s.plans && s'.ledger == s.ledger && s'.parts.Keys == s.parts.Keys
    ensures forall q :: q in s.parts && q != p ==> s'.parts[q] == s.parts[q]
    ensures LockedKeys(s'.parts[p], tx) == {} || (tx !in s.ledger && OverAge(s.parts[p], tx, s.now) && !ChecksAlreadyStamped(s.parts[p], tx) && tx in s'.parts[p].guarded)
  {
    var answer := Recover(s.ledger, tx);
    hide *;
    var s1 := AnswerStep(s, tx);
    SentSame(s, RecoverReply(tx, answer));
    NotDriving(s, tx);
    s' := RecoverStep(s1, tx, p, answer);
    LeadsOn(s, s1, s');
    ReachableInv(s1);
    InvParts(s1, tx, p);
    RecoveryReleases(s1, tx, p, answer);
  }

  lemma NotDriving(s: System, tx: TxId)
    requires Done(s, tx)
    ensures !Recover(s.ledger, tx).IsDriving? && (Recover(s.ledger, tx).IsNotFound? ==> tx !in s.ledger)
  {
  }

  lemma {:induction false} RecoverAll(s: System, tx: TxId, rest: set<PartId>) returns (s': System)
    requires Reachable(s) && tx in s.plans && tx in s.ledger && Done(s, tx) && rest <= s.parts.Keys
    ensures Reachable(s') && Leads(s, s') && s'.plans == s.plans && s'.ledger == s.ledger && s'.parts.Keys == s.parts.Keys
    ensures forall q :: q in s.parts && q !in rest ==> s'.parts[q] == s.parts[q]
    ensures forall p :: p in rest ==> LockedKeys(s'.parts[p], tx) == {}
    decreases rest
  {
    hide Reachable, Leads, LockedKeys, OverAge, ChecksAlreadyStamped;
    if rest == {} {
      s' := s;
      LeadsNowhere(s);
    } else {
      var p :| p in rest;
      var s1 := RecoverOne(s, tx, p);
      s' := RecoverAll(s1, tx, rest - {p});
      LeadsOn(s, s1, s');
    }
  }

  /**
   * No state is a dead end. From every reachable state each transaction of the ledger can be finished: its
   * row becomes terminal, no participant locks anything for it, and a committed one has applied everywhere.
   */
  lemma CanAlwaysFinish(s: System, tx: TxId) returns (s': System)
    requires Reachable(s) && tx in s.ledger
    ensures Reachable(s') && Leads(s, s') && s'.parts.Keys == s.parts.Keys && tx in s'.ledger && Terminal(s'.ledger[tx].state)
    ensures forall p :: p in s'.parts ==> LockedKeys(s'.parts[p], tx) == {}
    ensures s'.ledger[tx].state == Committed ==> forall p :: PartOf(s', tx, p) ==> AppliedAt(s', tx, p)
  {
    hide Reachable, Leads, KeepsRest, LockedKeys;
    var s1 := CanBecomeTerminal(s, tx);
    KeepsRestMeans(s, s1, tx);
    LedgerHasPlan(s1, tx);
    s' := RecoverAll(s1, tx, s1.parts.Keys);
    LeadsOn(s, s1, s');
    forall p | PartOf(s', tx, p) && s'.ledger[tx].state == Committed ensures AppliedAt(s', tx, p) {
      AllOrNothing(s', tx, p);
    }
  }

  lemma LockHasPlan(s: System, p: PartId, k: ItemKey)
    requires Reachable(s) && p in s.parts && k in s.parts[p].locks
    ensures s.parts[p].locks[k].tx in s.plans
  {
    ReachableInv(s);
    InvParts(s, 0, p);
    hide Reachable, Inv;
    assert LockGroup(s, p, s.parts[p].locks[k].tx);
  }

  /**
   * Every lock can be resolved: released, or kept for an operator. The guard keeps only locks of a cancelled
   * transaction that the ledger forgot, and that are older than the idempotency window.
   */
  lemma EveryLockResolves(s: System, p: PartId, k: ItemKey) returns (s': System)
    requires Reachable(s) && p in s.parts && k in s.parts[p].locks
    ensures var tx := s.parts[p].locks[k].tx;
            && Reachable(s') && Leads(s, s') && p in s'.parts
            && (LockedKeys(s'.parts[p], tx) == {} || (tx !in s.ledger && Cancels(s', tx) && OverAge(s.parts[p], tx, s.now) && tx in s'.parts[p].guarded))
  {
    var tx := s.parts[p].locks[k].tx;
    LockHasPlan(s, p, k);
    hide *;
    if tx in s.ledger {
      s' := CanAlwaysFinish(s, tx);
    } else {
      assert Done(s, tx) by { GoneIsDone(s, tx); }
      s' := RecoverOne(s, tx, p);
      if tx in s'.parts[p].guarded {
        GuardedCancels(s', tx, p);
      }
    }
  }

  lemma GoneIsDone(s: System, tx: TxId)
    requires tx !in s.ledger
    ensures Done(s, tx)
  {
  }

  lemma GuardedCancels(s: System, tx: TxId, p: PartId)
    requires Reachable(s) && p in s.parts && tx in s.parts[p].guarded
    ensures Cancels(s, tx)
  {
    ReachableInv(s);
    hide Reachable, LockInv, AppliedInv, NetInv, LedgerInv, CommitInv, PlanInv, TokensInv;
  }

  // ─── a transaction without a conflict can commit ────────────────────────────

  /** The participant stores no answer and no fatal error yet, and none of its operations has a conflict. */
  ghost predicate CanAccept(s: System, tx: TxId, p: PartId)
    requires tx in s.ledger && tx in s.plans
  {
    && p in s.ledger[tx].participants && s.ledger[tx].participants[p].prepare == Unanswered && s.ledger[tx].participants[p].error != Fatal
    && p in s.parts && AllPass(s.parts[p], tx, s.plans[tx], p)
  }

  /** Each participant of `rest` can still accept, and each other one has. */
  ghost predicate Preparable(s: System, tx: TxId, rest: set<PartId>) {
    && Reachable(s) && tx in s.ledger && tx in s.plans && s.ledger[tx].state == Preparing
    && rest <= s.ledger[tx].participants.Keys
    && (forall p :: p in rest ==> CanAccept(s, tx, p) && PrepareRequest(tx, p) in s.net)
    && (forall p :: p in s.ledger[tx].participants && p !in rest ==> s.ledger[tx].participants[p].prepare == Accepted)
  }

  lemma AcceptStep(s: System, tx: TxId, p: PartId) returns (s': System)
    requires Reachable(s) && tx in s.ledger && tx in s.plans && CanAccept(s, tx, p) && PrepareRequest(tx, p) in s.net
    ensures KeepsRest(s, s', tx) && s'.ledger == s.ledger && s'.applied == s.applied && PrepareAnswer(tx, p, true) in s'.net
    ensures forall q :: q in s.parts && q != p ==> s'.parts[q] == s.parts[q]
  {
    Step(s, DeliverPrepare(tx, p, false));
    PrepareIsDecided(s, tx, p, false);
    s' := Next(s, DeliverPrepare(tx, p, false));
    hide Reachable, Leads, Next, AllPass;
  }

  lemma RecordAcceptStep(s: System, tx: TxId, p: PartId) returns (s': System)
    requires Reachable(s) && tx in s.ledger && s.ledger[tx].state == Preparing && p in s.ledger[tx].participants && PrepareAnswer(tx, p, true) in s.net
    requires s.ledger[tx].participants[p].prepare == Unanswered && s.ledger[tx].participants[p].error != Fatal
    ensures KeepsRest(s, s', tx) && s'.parts == s.parts && s'.applied == s.applied && s'.net == s.net
    ensures s'.ledger[tx] == s.ledger[tx].(participants := s.ledger[tx].participants[p := s.ledger[tx].participants[p].(prepare := Accepted)])
  {
    Step(s, RecordAnswer(tx, p, true));
    s' := Next(s, RecordAnswer(tx, p, true));
    hide Reachable, Leads;
  }

  lemma PrepareOne(s: System, tx: TxId, rest: set<PartId>, p: PartId) returns (s': System)
    requires Preparable(s, tx, rest) && p in rest
    ensures KeepsRest(s, s', tx) && Preparable(s', tx, rest - {p}) && s'.applied == s.applied
    ensures s'.ledger[tx].participants.Keys == s.ledger[tx].participants.Keys
  {
    hide Reachable, Leads, KeepsRest, AllPass;
    var s1 := AcceptStep(s, tx, p);
    KeepsRestMeans(s, s1, tx);
    s' := RecordAcceptStep(s1, tx, p);
    KeepsRestMeans(s1, s', tx);
    KeepsOn(s, s1, s', tx);
  }

  lemma {:induction false} PrepareAll(s: System, tx: TxId, rest: set<PartId>) returns (s': System)
    requires Preparable(s, tx, rest)
    ensures KeepsRest(s, s', tx) && Preparable(s', tx, {}) && s'.applied == s.applied
    ensures s'.ledger[tx].participants.Keys == s.ledger[tx].participants.Keys
    decreases rest
  {
    hide Reachable, Leads, KeepsRest, CanAccept;
    if rest == {} {
      s' := s;
      LeadsNowhere(s);
      KeepsRestIs(s, s, tx);
    } else {
      var p :| p in rest;
      var s1 := PrepareOne(s, tx, rest, p);
      KeepsRestMeans(s, s1, tx);
      s' := PrepareAll(s1, tx, rest - {p});
      KeepsOn(s, s1, s', tx);
    }
  }

  lemma CommitStep(s: System, tx: TxId) returns (s': System)
    requires Reachable(s) && tx in s.ledger && s.ledger[tx].state == Preparing
    requires forall p :: p in s.ledger[tx].participants ==> s.ledger[tx].participants[p].prepare == Accepted
    ensures KeepsRest(s, s', tx) && s'.ledger[tx].state == Committing && s'.ledger[tx].participants == s.ledger[tx].participants && s'.applied == s.applied
  {
    Step(s, DecideCommit(tx));
    s' := Next(s, DecideCommit(tx));
    hide Reachable, Leads;
  }

  lemma UndecidedFacts(s: System, tx: TxId)
    requires Reachable(s) && tx in s.ledger && (s.ledger[tx].state == Created || s.ledger[tx].state == Preparing)
    ensures tx in s.plans && s.ledger[tx].participants.Keys == ParticipantsOf(s.plans[tx].ops)
    ensures forall p :: !AppliedAt(s, tx, p)
  {
    ReachableInv(s);
    hide Reachable, NetInv, LockInv, GuardInv, TokensInv, CommitInv, PlanInv;
    RowFacts(s, tx);
    hide LedgerInv, Stamped;
  }

  /**
   * A transaction that meets no conflict can commit. If no participant stores an answer or a fatal error,
   * and no operation meets a lock of another transaction or a stamp at or above the timestamp, then a
   * continuation commits it, and every participant then holds its effect on each key that it writes.
   */
  lemma CanCommit(s: System, tx: TxId) returns (s': System)
    requires Reachable(s) && tx in s.ledger && tx in s.plans && (s.ledger[tx].state == Created || s.ledger[tx].state == Preparing)
    requires forall p :: p in ParticipantsOf(s.plans[tx].ops) ==> CanAccept(s, tx, p)
    ensures Reachable(s') && Leads(s, s') && tx in s'.ledger && s'.ledger[tx].state == Committed && s'.plans == s.plans
    ensures forall p :: PartOf(s', tx, p) ==> AppliedAt(s', tx, p) && HoldsEffect(s', tx, p)
  {
    hide Reachable, Leads, KeepsRest, HoldsEffect, AllPass;
    UndecidedFacts(s, tx);
    var s1 := SendStep(s, tx);
    KeepsRestMeans(s, s1, tx);
    var s2 := PrepareAll(s1, tx, s1.ledger[tx].participants.Keys);
    KeepsRestMeans(s1, s2, tx);
    hide CanAccept;
    var s3 := CommitStep(s2, tx);
    KeepsRestMeans(s2, s3, tx);
    s' := CommitIsFinished(s3, tx);
    KeepsRestMeans(s3, s', tx);
    LeadsOn(s, s1, s2);
    LeadsOn(s, s2, s3);
    LeadsOn(s, s3, s');
    SameApplies(s, s3);
    forall p | PartOf(s', tx, p) ensures AppliedAt(s', tx, p) && HoldsEffect(s', tx, p) {
      AllOrNothing(s', tx, p);
      assert p in s3.ledger[tx].participants && !AppliedAt(s3, tx, p);
    }
  }
}
