/**
 * Every coordinator drive and every participant together, as one transition system. Messages stay in
 * `net` for ever, so each one can be lost (never delivered), late, or delivered many times. A drive that
 * runs beside others, or that a restart ends, knows only durable rows and delivered messages, so each of
 * its storage transactions is one action that any drive can take at any time.
 */
module TransactionSystem {
  import opened Bytes
  import opened Participant
  import opened Coordinator

  /** What `initiateWrite` fixed for a transaction: the requests of every drive carry these values. */
  datatype Plan = Plan(token: string, fingerprint: nat, ts: int, ops: seq<PlannedOp>)

  datatype Message =
    | PrepareRequest(tx: TxId, p: PartId)
    | PrepareAnswer(tx: TxId, p: PartId, accepted: bool)
    | CommitRequest(tx: TxId, p: PartId)
    | CommitAck(tx: TxId, p: PartId)
    | CancelRequest(tx: TxId, p: PartId)
    | CancelAck(tx: TxId, p: PartId)
    | RecoverReply(tx: TxId, answer: RecoverAnswer)

  /** `plans`, `decisions` and `applied` are the history of the run: no action reads the last two. */
  datatype System = System(
    now: int,
    ledger: Ledger,
    parts: map<PartId, Partition>,
    net: set<Message>,
    plans: map<TxId, Plan>,
    decisions: map<TxId, bool>,
    applied: multiset<(TxId, PartId)>)

  datatype Action =
    | Tick(ms: nat)
    | Insert(tx: TxId, plan: Plan)
    | SendPrepares(tx: TxId)
    | DeliverPrepare(tx: TxId, p: PartId, refuse: bool)
    | RecordAnswer(tx: TxId, p: PartId, accepted: bool)
    | RecordError(tx: TxId, p: PartId, error: PrepareError)
    | DecideCommit(tx: TxId)
    | DecideCancel(tx: TxId)
    | SendCommit(tx: TxId, p: PartId)
    | DeliverCommit(tx: TxId, p: PartId)
    | RecordCommitted(tx: TxId, confirmed: set<PartId>)
    | FinishCommit(tx: TxId)
    | SendCancel(tx: TxId, p: PartId)
    | DeliverCancel(tx: TxId, p: PartId)
    | RecordCancelled(tx: TxId, p: PartId)
    | FinishCancel(tx: TxId)
    | Sweep(tx: TxId)
    | AnswerRecovery(tx: TxId)
    | ApplyRecovery(tx: TxId, p: PartId, answer: RecoverAnswer)
    | SingleShot(p: PartId, ops: seq<PlannedOp>, ts: int)
    | DeleteItem(p: PartId, key: ItemKey, ts: int)

  predicate Terminal(state: TcState) {
    state.Committed? || state.Cancelled?
  }

  function WithRow(s: System, tx: TxId, row: TxRow): System {
    s.(ledger := s.ledger[tx := row])
  }

  function WithPart(s: System, p: PartId, part: Partition): System {
    s.(parts := s.parts[p := part])
  }

  function Send(s: System, m: Message): System {
    s.(net := s.net + {m})
  }

  // ─── the coordinator ────────────────────────────────────────────────────────

  predicate Enabled(s: System, a: Action) {
    match a
    case Tick(_) => true
    case Insert(tx, plan) =>
      tx !in s.plans && !TokenUsed(s.ledger, plan.token) && plan.ops != [] && ParticipantsOf(plan.ops) <= s.parts.Keys
    case SendPrepares(tx) => tx in s.ledger && tx in s.plans
    case DeliverPrepare(tx, p, _) => PrepareRequest(tx, p) in s.net && tx in s.plans && p in s.parts
    case RecordAnswer(tx, p, accepted) => tx in s.ledger && PrepareAnswer(tx, p, accepted) in s.net
    case RecordError(tx, _, error) => tx in s.ledger && !error.NoError?
    case DecideCommit(tx) => tx in s.ledger
    case DecideCancel(tx) => tx in s.ledger
    case SendCommit(tx, p) => tx in s.ledger && s.ledger[tx].state.Committing? && p in s.ledger[tx].participants && !s.ledger[tx].participants[p].commitStored
    case DeliverCommit(tx, p) => CommitRequest(tx, p) in s.net && tx in s.plans && p in s.parts
    case RecordCommitted(tx, confirmed) => tx in s.ledger && forall p :: p in confirmed ==> CommitAck(tx, p) in s.net
    case FinishCommit(tx) =>
      tx in s.ledger && forall p :: p in s.ledger[tx].participants ==> s.ledger[tx].participants[p].commitStored || CommitAck(tx, p) in s.net
    case SendCancel(tx, p) => tx in s.ledger && s.ledger[tx].state.Cancelling? && p in s.ledger[tx].participants && !s.ledger[tx].participants[p].cancelStored
    case DeliverCancel(tx, p) => CancelRequest(tx, p) in s.net && tx in s.plans && p in s.parts
    case RecordCancelled(tx, p) => tx in s.ledger && CancelAck(tx, p) in s.net
    case FinishCancel(tx) =>
      tx in s.ledger && forall p :: p in s.ledger[tx].participants ==> s.ledger[tx].participants[p].commitStored || s.ledger[tx].participants[p].cancelStored
    case Sweep(tx) => tx in s.ledger && Expired(s.ledger[tx], s.now)
    case AnswerRecovery(tx) => tx in s.plans
    case ApplyRecovery(tx, p, answer) => RecoverReply(tx, answer) in s.net && tx in s.plans && p in s.parts
    case SingleShot(p, ops, _) => p in s.parts && KeysOf(ops, p) !! s.parts[p].locks.Keys
    case DeleteItem(p, key, _) => p in s.parts && key !in s.parts[p].locks
  }

  function DoInsert(s: System, tx: TxId, plan: Plan): System {
    s.(ledger := s.ledger[tx := NewRow(plan.token, plan.fingerprint, s.now, ParticipantsOf(plan.ops))], plans := s.plans[tx := plan])
  }

  function DoSendPrepares(s: System, tx: TxId): System
    requires tx in s.ledger && tx in s.plans
  {
    var s' := WithRow(s, tx, StartPreparing(s.ledger[tx]));
    if s'.ledger[tx].state.Preparing?
    then s'.(net := s.net + set p | p in ParticipantsOf(s.plans[tx].ops) :: PrepareRequest(tx, p))
    else s'
  }

  function DoDecide(s: System, tx: TxId, commit: bool): System
    requires tx in s.ledger
  {
    var row := if commit then MarkCommitting(s.ledger[tx]) else MarkCancelling(s.ledger[tx]);
    var s' := WithRow(s, tx, row);
    if row.state != s.ledger[tx].state then s'.(decisions := s.decisions[tx := commit]) else s'
  }

  // ─── the participant ────────────────────────────────────────────────────────

  /** `refuse` stands for a failed condition, a size limit, or the clock skew check. */
  function DoDeliverPrepare(s: System, tx: TxId, p: PartId, refuse: bool): System
    requires tx in s.plans && p in s.parts
  {
    var plan := s.plans[tx];
    if refuse || !CanLock(s.parts[p], tx, plan.ts, plan.ops, p) then Send(s, PrepareAnswer(tx, p, false))
    else Send(WithPart(s, p, WriteLocks(s.parts[p], tx, plan.ts, plan.ops, p, s.now)), PrepareAnswer(tx, p, true))
  }

  /** `commitLocal`, with the record of an apply in the history. */
  function CommitAt(s: System, tx: TxId, p: PartId): System
    requires tx in s.plans && p in s.parts
  {
    match CommitLocal(s.parts[p], tx, s.plans[tx].ts, s.plans[tx].ops, p)
    case Applied(after) => WithPart(s, p, after).(applied := s.applied + multiset{(tx, p)})
    case _ => s
  }

  function DoDeliverCommit(s: System, tx: TxId, p: PartId): System
    requires tx in s.plans && p in s.parts
  {
    if CommitLocal(s.parts[p], tx, s.plans[tx].ts, s.plans[tx].ops, p).KeysetMismatch? then s
    else Send(CommitAt(s, tx, p), CommitAck(tx, p))
  }

  function CancelAt(s: System, tx: TxId, p: PartId, keys: set<ItemKey>): System
    requires p in s.parts
  {
    WithPart(s, p, CancelLocal(s.parts[p], tx, keys))
  }

  /** Each lock row holds only checks, and the item is already stamped at or above the transaction. */
  predicate ChecksAlreadyStamped(part: Partition, tx: TxId) {
    forall k :: k in LockedKeys(part, tx) ==>
      (forall i :: i in part.locks[k].ops ==> part.locks[k].ops[i].Check?) && Stamp(part.store, k) >= part.locks[k].ts
  }

  /** The age of the oldest lock of the transaction is above the idempotency window. */
  predicate OverAge(part: Partition, tx: TxId, now: int) {
    exists k :: k in LockedKeys(part, tx) && now - part.locks[k].createdAt > IDEMPOTENCY_WINDOW_MS
  }

  /** The participant side of `recoverStaleTransactions`, with an answer that can be old. */
  function DoApplyRecovery(s: System, tx: TxId, p: PartId, answer: RecoverAnswer): System
    requires tx in s.plans && p in s.parts
  {
    var part := s.parts[p];
    var owned := LockedKeys(part, tx);
    if owned == {} then s
    else match answer
      case IsCommitted => CommitAt(s, tx, p)
      case IsCancelled => CancelAt(s, tx, p, owned)
      case IsDriving => s
      case IsNotFound =>
        if OverAge(part, tx, s.now) && !ChecksAlreadyStamped(part, tx)
        then WithPart(s, p, part.(guarded := part.guarded + {tx}))
        else CancelAt(s, tx, p, owned)
  }

  /** The writes of a single-partition transaction or of a put: no lock, one storage transaction. */
  function ApplyAll(store: Store, ops: seq<PlannedOp>, p: PartId, i: nat, ts: int): Store
    requires i <= |ops|
    decreases |ops| - i
  {
    if i == |ops| then store
    else ApplyAll(if ops[i].participant == p then ApplyOp(store, ops[i].key, ops[i].op, ts) else store, ops, p, i + 1, ts)
  }

  function DoStore(s: System, p: PartId, store: Store): System
    requires p in s.parts
  {
    WithPart(s, p, s.parts[p].(store := store))
  }

  /** `apiDeleteItem`: a delete of an absent row changes nothing. */
  function PlainDelete(store: Store, key: ItemKey, ts: int): Store {
    if key in store.items then ApplyOp(store, key, Delete, ts) else store
  }

  // ─── runs ───────────────────────────────────────────────────────────────────

  function Next(s: System, a: Action): System {
    if !Enabled(s, a) then s
    else match a
      case Tick(ms) => s.(now := s.now + ms)
      case Insert(tx, plan) => DoInsert(s, tx, plan)
      case SendPrepares(tx) => DoSendPrepares(s, tx)
      case DeliverPrepare(tx, p, refuse) => DoDeliverPrepare(s, tx, p, refuse)
      case RecordAnswer(tx, p, accepted) => WithRow(s, tx, StoreAnswer(s.ledger[tx], p, if accepted then Accepted else Rejected))
      case RecordError(tx, p, error) => WithRow(s, tx, StoreError(s.ledger[tx], p, error))
      case DecideCommit(tx) => DoDecide(s, tx, true)
      case DecideCancel(tx) => DoDecide(s, tx, false)
      case SendCommit(tx, p) => Send(s, CommitRequest(tx, p))
      case DeliverCommit(tx, p) => DoDeliverCommit(s, tx, p)
      case RecordCommitted(tx, confirmed) => WithRow(s, tx, StoreCommitted(s.ledger[tx], confirmed))
      case FinishCommit(tx) => WithRow(s, tx, Complete(s.ledger[tx], true, s.now))
      case SendCancel(tx, p) => Send(s, CancelRequest(tx, p))
      case DeliverCancel(tx, p) => Send(CancelAt(s, tx, p, KeysOf(s.plans[tx].ops, p)), CancelAck(tx, p))
      case RecordCancelled(tx, p) => WithRow(s, tx, StoreCancelled(s.ledger[tx], p))
      case FinishCancel(tx) => WithRow(s, tx, Complete(s.ledger[tx], false, s.now))
      case Sweep(tx) => s.(ledger := s.ledger - {tx})
      case AnswerRecovery(tx) => Send(s, RecoverReply(tx, Recover(s.ledger, tx)))
      case ApplyRecovery(tx, p, answer) => DoApplyRecovery(s, tx, p, answer)
      case SingleShot(p, ops, ts) => DoStore(s, p, ApplyAll(s.parts[p].store, ops, p, 0, ts))
      case DeleteItem(p, key, ts) => DoStore(s, p, PlainDelete(s.parts[p].store, key, ts))
  }

  function Run(s: System, actions: seq<Action>): System
    decreases |actions|
  {
    if actions == [] then s else Run(Next(s, actions[0]), actions[1..])
  }

  /** An empty ledger over partitions with any rows and no lock. */
  predicate Initial(s: System) {
    && s.ledger == map[] && s.net == {} && s.plans == map[] && s.decisions == map[] && s.applied == multiset{}
    && forall p :: p in s.parts ==> s.parts[p].locks == map[] && s.parts[p].guarded == {}
  }
}
