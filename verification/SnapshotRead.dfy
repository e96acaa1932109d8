/**
 * The two-phase read of a read transaction. Each phase reads every requested key at its own instant, a
 * state of the run of the transaction system. A committed answer gives values that all keys held together.
 */
module SnapshotRead {
  import opened Bytes
  import opened Participant
  import opened Coordinator
  import opened TransactionSystem
  import opened TransactionSafety
  import opened TwoPhaseCommit
  import KeyPairMap

  /** The answer of a participant for one key. */
  datatype Reply =
    | Found(key: ItemKey, version: nat, value: Bytes, hasPendingWrite: bool)
    | Absent(key: ItemKey, maxDeletedV: nat, hasPendingWrite: bool)

  /** `readForTransactionLocal` for one key. */
  function ReadAt(part: Partition, key: ItemKey): Reply {
    if key in part.store.items
    then Found(key, part.store.items[key].version, part.store.items[key].value, HasPendingWrite(part, key))
    else Absent(key, part.store.maxDeletedV, HasPendingWrite(part, key))
  }

  predicate SameCommittedState(a: Reply, b: Reply) {
    a.Found? == b.Found? && if a.Found? then a.version == b.version else a.maxDeletedV == b.maxDeletedV
  }

  /** The content that a reply shows to the caller. */
  function Shown(r: Reply): Option<(nat, Bytes)> {
    if r.Found? then Some((r.version, r.value)) else None
  }

  // ─── the reader ─────────────────────────────────────────────────────────────

  datatype Phase = Failed | Answered(replies: seq<Reply>)

  datatype Outcome = CallFailed | PendingWrite | DroppedKey(missing: ItemKey) | ReadConflict(changed: ItemKey) | Committed(items: seq<Reply>)

  /** The reply that a phase has for a key: a later one replaces an earlier one. */
  function ReplyFor(replies: seq<Reply>, key: ItemKey): Option<Reply> {
    if replies == [] then None
    else if replies[|replies| - 1].key == key then Some(replies[|replies| - 1])
    else ReplyFor(replies[..|replies| - 1], key)
  }

  lemma {:induction false} ReplyForIsAReply(replies: seq<Reply>, key: ItemKey)
    ensures ReplyFor(replies, key).Some? ==> ReplyFor(replies, key).value in replies && ReplyFor(replies, key).value.key == key
    ensures ReplyFor(replies, key).None? ==> forall r :: r in replies ==> r.key != key
  {
    if replies != [] {
      ReplyForIsAReply(replies[..|replies| - 1], key);
    }
  }

  predicate AnyPending(replies: seq<Reply>) {
    exists r :: r in replies && r.hasPendingWrite
  }

  /** Both phases answered without a pending write, and agree on every requested key. */
  predicate Agrees(request: seq<ItemKey>, phase1: Phase, phase2: Phase) {
    && phase1.Answered? && phase2.Answered?
    && !AnyPending(phase1.replies) && !AnyPending(phase2.replies)
    && forall i :: 0 <= i < |request| ==> KeyAgrees(request[i], phase1.replies, phase2.replies)
  }

  predicate KeyAgrees(key: ItemKey, replies1: seq<Reply>, replies2: seq<Reply>) {
    && ReplyFor(replies1, key).Some? && ReplyFor(replies2, key).Some?
    && SameCommittedState(ReplyFor(replies1, key).value, ReplyFor(replies2, key).value)
  }

  predicate Changed(key: ItemKey, replies1: seq<Reply>, replies2: seq<Reply>) {
    && ReplyFor(replies1, key).Some? && ReplyFor(replies2, key).Some?
    && !SameCommittedState(ReplyFor(replies1, key).value, ReplyFor(replies2, key).value)
  }

  /** The first requested key that the phases do not agree on, if any, and what they disagree about. */
  ghost predicate FirstDisagreement(request: seq<ItemKey>, replies1: seq<Reply>, replies2: seq<Reply>, outcome: Outcome) {
    exists i :: 0 <= i < |request|
      && (forall j :: 0 <= j < i ==> KeyAgrees(request[j], replies1, replies2))
      && (outcome == DroppedKey(request[i]) <==> ReplyFor(replies1, request[i]).None? || ReplyFor(replies2, request[i]).None?)
      && (outcome == ReadConflict(request[i]) <==> Changed(request[i], replies1, replies2))
      && (outcome == DroppedKey(request[i]) || outcome == ReadConflict(request[i]))
  }

  method HasPending(replies: seq<Reply>) returns (pending: bool)
    ensures pending <==> AnyPending(replies)
  {
    for i := 0 to |replies|
      invariant forall j :: 0 <= j < i ==> !replies[j].hasPendingWrite
    {
      if replies[i].hasPendingWrite {
        return true;
      }
    }
    return false;
  }

  /** `byKey` of one phase. */
  method IndexByKey(hash: ItemKey -> nat, replies: seq<Reply>) returns (byKey: KeyPairMap.Table<Reply>)
    ensures byKey.Valid() && fresh(byKey.Repr())
    ensures forall k :: KeyPairMap.Lookup(byKey.Values(), k) == ReplyFor(replies, k)
  {
    byKey := new KeyPairMap.Table(hash);
    for i := 0 to |replies|
      invariant byKey.Valid() && fresh(byKey.Repr())
      invariant forall k :: KeyPairMap.Lookup(byKey.Values(), k) == ReplyFor(replies[..i], k)
    {
      ghost var before := byKey.Values();
      byKey.Set(replies[i].key, replies[i]);
      forall k ensures KeyPairMap.Lookup(byKey.Values(), k) == ReplyFor(replies[..i + 1], k) {
        KeyPairMap.UpdateIsMapUpdate(before, replies[i].key, replies[i], k);
        assert replies[..i + 1][..i] == replies[..i];
      }
    }
    assert replies[..|replies|] == replies;
  }

  /** Walks the request, so the items are positional to it, and pairs the two phases by key. */
  method PairPhases(hash: ItemKey -> nat, request: seq<ItemKey>, replies1: seq<Reply>, replies2: seq<Reply>) returns (outcome: Outcome)
    ensures outcome.Committed? || outcome.DroppedKey? || outcome.ReadConflict?
    ensures outcome.Committed? <==> forall i :: 0 <= i < |request| ==> KeyAgrees(request[i], replies1, replies2)
    ensures outcome.Committed? ==> |outcome.items| == |request|
    ensures outcome.Committed? ==> forall i :: 0 <= i < |request| ==> Some(outcome.items[i]) == ReplyFor(replies1, request[i])
    ensures !outcome.Committed? ==> FirstDisagreement(request, replies1, replies2, outcome)
  {
    hide KeyPairMap.Table.Valid, KeyPairMap.Lookup, KeyPairMap.Table.Values, ReplyFor;
    var byKey1 := IndexByKey(hash, replies1);
    var byKey2 := IndexByKey(hash, replies2);
    var items: seq<Reply> := [];
    for i := 0 to |request|
      invariant |items| == i
      invariant byKey1.Valid() && byKey2.Valid()
      invariant forall k :: KeyPairMap.Lookup(byKey1.Values(), k) == ReplyFor(replies1, k)
      invariant forall k :: KeyPairMap.Lookup(byKey2.Values(), k) == ReplyFor(replies2, k)
      invariant forall j :: 0 <= j < i ==> Some(items[j]) == ReplyFor(replies1, request[j])
      invariant forall j :: 0 <= j < i ==> KeyAgrees(request[j], replies1, replies2)
    {
      var p1 := byKey1.Get(request[i]);
      var p2 := byKey2.Get(request[i]);
      if p1.None? || p2.None? {
        return DroppedKey(request[i]);
      }
      if !SameCommittedState(p1.value, p2.value) {
        return ReadConflict(request[i]);
      }
      items := items + [p1.value];
    }
    return Outcome.Committed(items);
  }

  /** The part of `#readTransaction` after the fan-outs. The items are positional to the request. */
  method ReadTransaction(hash: ItemKey -> nat, request: seq<ItemKey>, phase1: Phase, phase2: Phase) returns (outcome: Outcome)
    ensures outcome.Committed? <==> Agrees(request, phase1, phase2)
    ensures outcome.Committed? ==> |outcome.items| == |request|
    ensures outcome.Committed? ==> forall i :: 0 <= i < |request| ==> Some(outcome.items[i]) == ReplyFor(phase1.replies, request[i])
    ensures outcome.CallFailed? <==> phase1.Failed? || (!AnyPending(phase1.replies) && phase2.Failed?)
    ensures outcome.PendingWrite? <==> phase1.Answered? && (AnyPending(phase1.replies) || (phase2.Answered? && AnyPending(phase2.replies)))
    ensures outcome.DroppedKey? || outcome.ReadConflict? ==>
      phase1.Answered? && phase2.Answered? && FirstDisagreement(request, phase1.replies, phase2.replies, outcome)
  {
    if phase1.Failed? {
      return CallFailed;
    }
    var pending1 := HasPending(phase1.replies);
    if pending1 {
      return PendingWrite;
    }
    if phase2.Failed? {
      return CallFailed;
    }
    var pending2 := HasPending(phase2.replies);
    if pending2 {
      return PendingWrite;
    }
    outcome := PairPhases(hash, request, phase1.replies, phase2.replies);
  }

  // ─── the run that the phases read ───────────────────────────────────────────

  /** Consecutive states of one run, from any reachable state. */
  ghost predicate IsRun(trace: seq<System>, actions: seq<Action>) {
    && |trace| == |actions| + 1
    && Reachable(trace[0])
    && forall i :: 0 <= i < |actions| ==> trace[i + 1] == Next(trace[i], actions[i])
  }

  /** A store later than another: revisions do not fall, and a changed content has a higher one. */
  ghost predicate Later(a: Store, b: Store, key: ItemKey) {
    && Revision(b, key) >= Revision(a, key)
    && (Content(b, key) == Content(a, key) || Revision(b, key) > Revision(a, key))
  }

  lemma NextIsLater(s: System, a: Action, p: PartId, key: ItemKey)
    requires p in s.parts
    ensures p in Next(s, a).parts && Later(s.parts[p].store, Next(s, a).parts[p].store, key)
  {
    hide ApplyFrom, ApplyAll, ApplyOp, ParticipantsOf, KeysOf, CanLock, OverAge, ChecksAlreadyStamped, LockedKeys, CommitLocal, CommitAt, DoApplyRecovery, DoDeliverPrepare, Revision, Content;
    if !ParticipantStep(a) {
      CoordinatorKeepsParts(s, a);
    } else if Enabled(s, a) {
      match a {
        case DeliverCommit(tx, q) => CommitIsLater(s, tx, q, p, key);
        case ApplyRecovery(tx, q, answer) => RecoveryIsLater(s, tx, q, answer, p, key);
        case SingleShot(q, ops, ts) => ApplyAllAdvances(s.parts[q].store, ops, q, 0, ts, key);
        case DeleteItem(q, k, ts) => ApplyOpAdvances(s.parts[q].store, k, Delete, ts, key);
        case DeliverPrepare(tx, q, refuse) => PrepareKeepsStores(s, tx, q, refuse, p);
        case DeliverCancel(tx, q) => CancelKeepsStores(s, q, CancelLocal(s.parts[q], tx, KeysOf(s.plans[tx].ops, q)), p);
      }
    }
  }

  lemma PrepareKeepsStores(s: System, tx: TxId, q: PartId, refuse: bool, p: PartId)
    requires tx in s.plans && q in s.parts && p in s.parts
    ensures p in DoDeliverPrepare(s, tx, q, refuse).parts && DoDeliverPrepare(s, tx, q, refuse).parts[p].store == s.parts[p].store
  {
    hide CanLock, KeysOf, ParticipantsOf;
  }

  lemma CancelKeepsStores(s: System, q: PartId, part: Partition, p: PartId)
    requires q in s.parts && p in s.parts && part.store == s.parts[q].store
    ensures p in WithPart(s, q, part).parts && WithPart(s, q, part).parts[p].store == s.parts[p].store
  {
  }

  lemma RecoveryIsLater(s: System, tx: TxId, q: PartId, answer: RecoverAnswer, p: PartId, key: ItemKey)
    requires tx in s.plans && q in s.parts && p in s.parts
    ensures p in DoApplyRecovery(s, tx, q, answer).parts && Later(s.parts[p].store, DoApplyRecovery(s, tx, q, answer).parts[p].store, key)
  {
    hide CommitAt, OverAge, ChecksAlreadyStamped, Revision, Content;
    CommitIsLater(s, tx, q, p, key);
  }

  lemma CommitIsLater(s: System, tx: TxId, q: PartId, p: PartId, key: ItemKey)
    requires tx in s.plans && q in s.parts && p in s.parts
    ensures p in CommitAt(s, tx, q).parts && Later(s.parts[p].store, CommitAt(s, tx, q).parts[p].store, key)
  {
    ApplyFromAdvances(s.parts[q].store, s.parts[q].locks, s.plans[tx].ops, q, 0, s.plans[tx].ts, key);
  }

  lemma {:induction false} RunIsLater(trace: seq<System>, actions: seq<Action>, from: nat, to: nat, p: PartId, key: ItemKey)
    requires IsRun(trace, actions) && from <= to < |trace| && p in trace[from].parts
    ensures p in trace[to].parts && Later(trace[from].parts[p].store, trace[to].parts[p].store, key)
  {
    hide Next, Reachable, Revision, Content;
    if from < to {
      RunIsLater(trace, actions, from, to - 1, p, key);
      NextIsLater(trace[to - 1], actions[to - 1], p, key);
    }
  }

  lemma {:induction false} RunInv(trace: seq<System>, actions: seq<Action>, i: nat)
    requires IsRun(trace, actions) && i < |trace|
    ensures Inv(trace[i])
  {
    hide Inv, Next, Reachable;
    if i == 0 {
      ReachableInv(trace[0]);
    } else {
      RunInv(trace, actions, i - 1);
      NextKeeps(trace[i - 1], actions[i - 1]);
    }
  }

  /** Each reply was read from the partition of its key at some instant of the run in `[from, to]`. */
  ghost predicate ReadBetween(trace: seq<System>, owner: ItemKey -> PartId, replies: seq<Reply>, from: nat, to: nat)
    requires from <= to < |trace|
  {
    forall r :: r in replies ==> exists t :: from <= t <= to && IsReadAt(trace[t], owner, r)
  }

  ghost predicate IsReadAt(s: System, owner: ItemKey -> PartId, r: Reply) {
    owner(r.key) in s.parts && r == ReadAt(s.parts[owner(r.key)], r.key)
  }

  function ContentAt(s: System, owner: ItemKey -> PartId, key: ItemKey): Option<(nat, Bytes)> {
    if owner(key) in s.parts then Content(s.parts[owner(key)].store, key) else None
  }

  /** Two reads of one key that agree give its content at every instant between them. */
  lemma AgreeingReadsAreStable(trace: seq<System>, actions: seq<Action>, owner: ItemKey -> PartId, t1: nat, at: nat, t2: nat, r1: Reply, r2: Reply)
    requires IsRun(trace, actions) && t1 <= at <= t2 < |trace| && r1.key == r2.key
    requires IsReadAt(trace[t1], owner, r1) && IsReadAt(trace[t2], owner, r2) && SameCommittedState(r1, r2)
    ensures owner(r1.key) in trace[at].parts
    ensures ContentAt(trace[t1], owner, r1.key) == ContentAt(trace[at], owner, r1.key) == ContentAt(trace[t2], owner, r1.key) == Shown(r1)
    ensures Revision(trace[at].parts[owner(r1.key)].store, r1.key) == Revision(trace[t2].parts[owner(r1.key)].store, r1.key)
  {
    RunIsLater(trace, actions, t1, at, owner(r1.key), r1.key);
    RunIsLater(trace, actions, at, t2, owner(r1.key), r1.key);
  }

  /**
   * A committed read: the instant `at` is after every read of the first phase and before every read of
   * the second one, and the phases agree.
   */
  ghost predicate CommittedRead(trace: seq<System>, actions: seq<Action>, owner: ItemKey -> PartId, request: seq<ItemKey>, replies1: seq<Reply>, replies2: seq<Reply>, at: nat)
  {
    && IsRun(trace, actions) && at < |trace|
    && ReadBetween(trace, owner, replies1, 0, at)
    && ReadBetween(trace, owner, replies2, at, |trace| - 1)
    && Agrees(request, Answered(replies1), Answered(replies2))
  }

  /** The two reads of a requested key. */
  lemma RequestedReads(trace: seq<System>, actions: seq<Action>, owner: ItemKey -> PartId, request: seq<ItemKey>, replies1: seq<Reply>, replies2: seq<Reply>, at: nat, i: nat)
    returns (t1: nat, t2: nat, r1: Reply, r2: Reply)
    requires CommittedRead(trace, actions, owner, request, replies1, replies2, at) && i < |request|
    ensures t1 <= at <= t2 < |trace| && r1.key == r2.key == request[i]
    ensures ReplyFor(replies1, request[i]) == Some(r1) && ReplyFor(replies2, request[i]) == Some(r2)
    ensures IsReadAt(trace[t1], owner, r1) && IsReadAt(trace[t2], owner, r2)
    ensures SameCommittedState(r1, r2) && !r1.hasPendingWrite && !r2.hasPendingWrite
  {
    assert KeyAgrees(request[i], replies1, replies2);
    r1, r2 := ReplyFor(replies1, request[i]).value, ReplyFor(replies2, request[i]).value;
    ReplyForIsAReply(replies1, request[i]);
    ReplyForIsAReply(replies2, request[i]);
    t1 :| 0 <= t1 <= at && IsReadAt(trace[t1], owner, r1);
    t2 :| at <= t2 <= |trace| - 1 && IsReadAt(trace[t2], owner, r2);
  }

  // ─── the main theorems ──────────────────────────────────────────────────────

  /** The reply for the key shows the content that the key has in the state. */
  ghost predicate ShowsAt(s: System, owner: ItemKey -> PartId, replies: seq<Reply>, key: ItemKey) {
    ReplyFor(replies, key).Some? && Shown(ReplyFor(replies, key).value) == ContentAt(s, owner, key)
  }

  /** The items of a committed read are the contents of all requested keys together at one instant. */
  lemma CommittedReadIsASnapshot(trace: seq<System>, actions: seq<Action>, owner: ItemKey -> PartId, request: seq<ItemKey>, replies1: seq<Reply>, replies2: seq<Reply>, at: nat)
    requires CommittedRead(trace, actions, owner, request, replies1, replies2, at)
    ensures forall i :: 0 <= i < |request| ==> ShowsAt(trace[at], owner, replies1, request[i])
  {
    forall i | 0 <= i < |request|
      ensures ShowsAt(trace[at], owner, replies1, request[i])
    {
      var t1, t2, r1, r2 := RequestedReads(trace, actions, owner, request, replies1, replies2, at, i);
      AgreeingReadsAreStable(trace, actions, owner, t1, at, t2, r1, r2);
    }
  }

  /** The key has the same row in both states, and while it has none the partition removes no row. */
  ghost predicate Undisturbed(a: System, b: System, owner: ItemKey -> PartId, key: ItemKey) {
    && owner(key) in a.parts && owner(key) in b.parts
    && ContentAt(a, owner, key) == ContentAt(b, owner, key)
    && (ContentAt(a, owner, key).None? ==> a.parts[owner(key)].store.maxDeletedV == b.parts[owner(key)].store.maxDeletedV)
  }

  /** Two reads of a key agree exactly when nothing disturbed the key between them. */
  lemma ReadsAgreeExactly(trace: seq<System>, actions: seq<Action>, owner: ItemKey -> PartId, t1: nat, t2: nat, r1: Reply, r2: Reply)
    requires IsRun(trace, actions) && t1 <= t2 < |trace| && r1.key == r2.key
    requires IsReadAt(trace[t1], owner, r1) && IsReadAt(trace[t2], owner, r2)
    ensures SameCommittedState(r1, r2) <==> forall t :: t1 <= t <= t2 ==> Undisturbed(trace[t1], trace[t], owner, r1.key)
  {
    if SameCommittedState(r1, r2) {
      forall t | t1 <= t <= t2 ensures Undisturbed(trace[t1], trace[t], owner, r1.key) {
        AgreeingReadsAreStable(trace, actions, owner, t1, t, t2, r1, r2);
      }
    } else {
      assert !Undisturbed(trace[t1], trace[t2], owner, r1.key);
    }
  }

  /** A read whose keys are not disturbed, and that meets no pending write, commits. */
  lemma UndisturbedReadCommits(trace: seq<System>, actions: seq<Action>, owner: ItemKey -> PartId, request: seq<ItemKey>, replies1: seq<Reply>, replies2: seq<Reply>, at: nat)
    requires IsRun(trace, actions) && at < |trace|
    requires ReadBetween(trace, owner, replies1, 0, at) && ReadBetween(trace, owner, replies2, at, |trace| - 1)
    requires forall i :: 0 <= i < |request| ==> (exists r :: r in replies1 && r.key == request[i]) && (exists r :: r in replies2 && r.key == request[i])
    requires forall r :: r in replies1 + replies2 ==> !r.hasPendingWrite
    requires forall i, t, u :: 0 <= i < |request| && 0 <= t <= u < |trace| ==> Undisturbed(trace[t], trace[u], owner, request[i])
    ensures Agrees(request, Answered(replies1), Answered(replies2))
  {
    forall r | r in replies1 || r in replies2 ensures !r.hasPendingWrite {
      assert r in replies1 + replies2;
    }
    forall i | 0 <= i < |request| ensures KeyAgrees(request[i], replies1, replies2) {
      ReplyForIsAReply(replies1, request[i]);
      ReplyForIsAReply(replies2, request[i]);
      var r1, r2 := ReplyFor(replies1, request[i]).value, ReplyFor(replies2, request[i]).value;
      var t1: nat :| t1 <= at && IsReadAt(trace[t1], owner, r1);
      var t2: nat :| at <= t2 <= |trace| - 1 && IsReadAt(trace[t2], owner, r2);
      ReadsAgreeExactly(trace, actions, owner, t1, t2, r1, r2);
    }
  }

  /** The transaction writes the key at its owner: it has an operation on it that is not a check. */
  ghost predicate Writes(plan: Plan, owner: ItemKey -> PartId, key: ItemKey) {
    exists j :: 0 <= j < |plan.ops| && plan.ops[j].participant == owner(key) && plan.ops[j].key == key && !plan.ops[j].op.Check?
  }

  ghost predicate Puts(plan: Plan, owner: ItemKey -> PartId, key: ItemKey) {
    exists j :: 0 <= j < |plan.ops| && plan.ops[j].participant == owner(key) && plan.ops[j].key == key && plan.ops[j].op.Put?
  }

  /** A commit decision reaches every written key as an apply or as a lock that a read reports. */
  lemma CommittedWriteIsSeen(s: System, owner: ItemKey -> PartId, tx: TxId, key: ItemKey)
    requires Inv(s) && Commits(s, tx) && tx in s.plans && Writes(s.plans[tx], owner, key)
    ensures owner(key) in s.parts && (AppliedAt(s, tx, owner(key)) || HasPendingWrite(s.parts[owner(key)], key))
  {
    hide PlanInv, LedgerInv, CommitInv, NetInv, AppliedInv, LockInv, GuardInv, TokensInv, HasPendingWrite;
    var p := owner(key);
    CommitReachesEveryPart(s, tx, p, key);
    if !AppliedAt(s, tx, p) {
      LockedWriteIsPending(s, owner, tx, key);
    }
  }

  /** A read reports a pending write of a key exactly when a transaction locks the key to write it: a lock of checks hides no value. */
  lemma PendingIsAWrite(s: System, p: PartId, key: ItemKey)
    requires Inv(s) && p in s.parts
    ensures ReadAt(s.parts[p], key).hasPendingWrite
            <==> key in s.parts[p].locks && s.parts[p].locks[key].tx in s.plans
                 && exists j :: 0 <= j < |s.plans[s.parts[p].locks[key].tx].ops| && IsWriteOf(s.plans[s.parts[p].locks[key].tx].ops[j], p, key)
  {
    hide PlanInv, LedgerInv, CommitInv, NetInv, AppliedInv, GuardInv, TokensInv;
    if key in s.parts[p].locks {
      var l := s.parts[p].locks[key];
      assert LockGroup(s, p, l.tx);
      assert l.ops == OpsOf(s.plans[l.tx].ops, p, key);
      forall j | 0 <= j < |s.plans[l.tx].ops| && IsWriteOf(s.plans[l.tx].ops[j], p, key) ensures j in l.ops && !l.ops[j].Check? {
      }
    }
  }

  predicate IsWriteOf(o: PlannedOp, p: PartId, key: ItemKey) {
    o.participant == p && o.key == key && o.op != Check
  }

  lemma CommitReachesEveryPart(s: System, tx: TxId, p: PartId, key: ItemKey)
    requires PlanInv(s) && CommitInv(s) && NetInv(s) && Commits(s, tx) && tx in s.plans
    requires key in KeysOf(s.plans[tx].ops, p) || p in ParticipantsOf(s.plans[tx].ops)
    ensures p in ParticipantsOf(s.plans[tx].ops) && p in s.parts
    ensures AppliedAt(s, tx, p) || HoldsAll(s, tx, p)
  {
    hide NetInv, CommitInv, MessageInv, HoldsAll;
    assert PartOf(s, tx, p);
    AcceptIsKept(s, tx, p);
  }

  lemma AcceptIsKept(s: System, tx: TxId, p: PartId)
    requires CommitInv(s) && NetInv(s) && Commits(s, tx) && PartOf(s, tx, p)
    ensures AppliedAt(s, tx, p) || HoldsAll(s, tx, p)
  {
    assert AllAccept(s, tx);
    assert MessageInv(s, PrepareAnswer(tx, p, true));
  }

  lemma LockedWriteIsPending(s: System, owner: ItemKey -> PartId, tx: TxId, key: ItemKey)
    requires LockInv(s) && tx in s.plans && Writes(s.plans[tx], owner, key)
    requires owner(key) in s.parts && HoldsAll(s, tx, owner(key))
    ensures HasPendingWrite(s.parts[owner(key)], key)
  {
    var p := owner(key);
    var j :| 0 <= j < |s.plans[tx].ops| && s.plans[tx].ops[j].participant == p && s.plans[tx].ops[j].key == key && !s.plans[tx].ops[j].op.Check?;
    assert key in KeysOf(s.plans[tx].ops, p);
    assert LockGroup(s, p, s.parts[p].locks[key].tx);
    assert s.parts[p].locks[key].ops == OpsOf(s.plans[tx].ops, p, key);
    assert j in s.parts[p].locks[key].ops;
  }

  lemma {:induction false} DecisionStays(trace: seq<System>, actions: seq<Action>, from: nat, to: nat, tx: TxId)
    requires IsRun(trace, actions) && from <= to < |trace| && Commits(trace[from], tx) && tx in trace[from].plans
    ensures Commits(trace[to], tx) && tx in trace[to].plans && trace[to].plans[tx] == trace[from].plans[tx]
  {
    hide Inv, Next, Reachable;
    if from < to {
      DecisionStays(trace, actions, from, to - 1, tx);
      RunInv(trace, actions, to - 1);
      StepKeepsDecision(trace[to - 1], actions[to - 1], tx);
    }
  }

  lemma StepKeepsDecision(s: System, a: Action, tx: TxId)
    requires Inv(s) && Commits(s, tx) && tx in s.plans
    ensures Commits(Next(s, a), tx) && tx in Next(s, a).plans && Next(s, a).plans[tx] == s.plans[tx]
  {
    hide PlanInv, CommitInv, NetInv, AppliedInv, LockInv, GuardInv, TokensInv, Next;
    if ParticipantStep(a) {
      ParticipantsKeepTheLedger(s, a);
    } else {
      assert tx in s.ledger ==> RowInv(s, tx, s.ledger[tx]);
      DecisionsStay(s, a, tx);
      PlansStay(s, a, tx);
    }
  }

  /**
   * No torn write. When a transaction has applied at one participant at the instant of the snapshot,
   * each requested key that it writes shows its content from a state in which the transaction has
   * applied there too. Otherwise no requested key shows anything of it.
   */
  lemma NoTornWrite(trace: seq<System>, actions: seq<Action>, owner: ItemKey -> PartId, request: seq<ItemKey>, replies1: seq<Reply>, replies2: seq<Reply>, at: nat,
                    tx: TxId, p: PartId)
    requires CommittedRead(trace, actions, owner, request, replies1, replies2, at)
    requires AppliedAt(trace[at], tx, p)
    ensures tx in trace[at].plans
    ensures forall i :: 0 <= i < |request| && Writes(trace[at].plans[tx], owner, request[i]) ==>
              exists u :: at <= u < |trace| && AppliedAt(trace[u], tx, owner(request[i])) && ShowsAt(trace[u], owner, replies1, request[i])
  {
    RunInv(trace, actions, at);
    assert Commits(trace[at], tx) && tx in trace[at].plans;
    forall i | 0 <= i < |request| && Writes(trace[at].plans[tx], owner, request[i])
      ensures exists u :: at <= u < |trace| && AppliedAt(trace[u], tx, owner(request[i])) && ShowsAt(trace[u], owner, replies1, request[i])
    {
      var t1, t2, r1, r2 := RequestedReads(trace, actions, owner, request, replies1, replies2, at, i);
      AgreeingReadsAreStable(trace, actions, owner, t1, at, t2, r1, r2);
      DecisionStays(trace, actions, at, t2, tx);
      RunInv(trace, actions, t2);
      CommittedWriteIsSeen(trace[t2], owner, tx, request[i]);
      assert AppliedAt(trace[t2], tx, owner(request[i]));
    }
  }

  /** An apply that puts a key raises its revision. */
  lemma {:induction false} PutRaisesRevision(s: Store, locks: map<ItemKey, Lock>, ops: seq<PlannedOp>, p: PartId, i: nat, j: nat, ts: int)
    requires i <= j < |ops| && ops[j].participant == p
    requires ops[j].key in locks && j in locks[ops[j].key].ops && locks[ops[j].key].ops[j].Put?
    ensures Revision(ApplyFrom(s, locks, ops, p, i, ts), ops[j].key) > Revision(s, ops[j].key)
    decreases j - i
  {
    var k, key := ops[i].key, ops[j].key;
    var s' := s;
    if ops[i].participant == p && k in locks && i in locks[k].ops {
      ApplyOpAdvances(s, k, locks[k].ops[i], ts, key);
      s' := ApplyOp(s, k, locks[k].ops[i], ts);
    }
    if i < j {
      PutRaisesRevision(s', locks, ops, p, i + 1, j, ts);
    } else {
      ApplyFromAdvances(s', locks, ops, p, i + 1, ts, key);
    }
  }

  /** The step that applies a put raises the revision of the key. */
  lemma ApplyStepRaises(s: System, a: Action, owner: ItemKey -> PartId, tx: TxId, key: ItemKey)
    requires Inv(s) && tx in s.plans && Puts(s.plans[tx], owner, key) && owner(key) in s.parts
    requires !AppliedAt(s, tx, owner(key)) && AppliedAt(Next(s, a), tx, owner(key))
    ensures owner(key) in Next(s, a).parts
    ensures Revision(Next(s, a).parts[owner(key)].store, key) > Revision(s.parts[owner(key)].store, key)
  {
    hide Inv, Next, CommitLocal, LockInv, ApplyFrom, Revision;
    assert LockInv(s) by { LockInvHolds(s); }
    var p := owner(key);
    NewApplyIsACommit(s, a, tx, p);
    CommitFindsItsRows(s, tx, p);
    CommitRaises(s, tx, p, key);
  }

  lemma LockInvHolds(s: System)
    requires Inv(s)
    ensures LockInv(s)
  {
  }

  lemma CommitRaises(s: System, tx: TxId, p: PartId, key: ItemKey)
    requires tx in s.plans && p in s.parts && CommitLocal(s.parts[p], tx, s.plans[tx].ts, s.plans[tx].ops, p).Applied?
    requires LockGroup(s, p, tx)
    requires exists j :: 0 <= j < |s.plans[tx].ops| && s.plans[tx].ops[j].participant == p && s.plans[tx].ops[j].key == key && s.plans[tx].ops[j].op.Put?
    ensures Revision(CommitLocal(s.parts[p], tx, s.plans[tx].ts, s.plans[tx].ops, p).after.store, key) > Revision(s.parts[p].store, key)
  {
    hide Revision, ApplyFrom;
    var plan := s.plans[tx];
    var j :| 0 <= j < |plan.ops| && plan.ops[j].participant == p && plan.ops[j].key == key && plan.ops[j].op.Put?;
    assert LocksMatch(s.parts[p].locks, tx, plan.ts, plan.ops, p);
    assert key in KeysOf(plan.ops, p);
    PutRaisesRevision(s.parts[p].store, s.parts[p].locks, plan.ops, p, 0, j, plan.ts);
  }

  lemma NewApplyIsACommit(s: System, a: Action, tx: TxId, p: PartId)
    requires tx in s.plans && p in s.parts && !AppliedAt(s, tx, p) && AppliedAt(Next(s, a), tx, p)
    ensures CommitLocal(s.parts[p], tx, s.plans[tx].ts, s.plans[tx].ops, p).Applied?
    ensures p in Next(s, a).parts && Next(s, a).parts[p] == CommitLocal(s.parts[p], tx, s.plans[tx].ts, s.plans[tx].ops, p).after
  {
    hide ParticipantsOf, KeysOf, TokenUsed, StartPreparing, StoreAnswer, StoreError, StoreCommitted,
         StoreCancelled, Complete, Expired, AllAccepted, CommitLocal, ApplyAll, ApplyOp;
  }

  lemma {:induction false} ApplyBetweenRaises(trace: seq<System>, actions: seq<Action>, owner: ItemKey -> PartId, from: nat, to: nat, tx: TxId, key: ItemKey)
    requires IsRun(trace, actions) && from < to < |trace| && owner(key) in trace[from].parts
    requires Commits(trace[from], tx) && tx in trace[from].plans && Puts(trace[from].plans[tx], owner, key)
    requires !AppliedAt(trace[from], tx, owner(key)) && AppliedAt(trace[to], tx, owner(key))
    ensures owner(key) in trace[to].parts
    ensures Revision(trace[to].parts[owner(key)].store, key) > Revision(trace[from].parts[owner(key)].store, key)
  {
    hide Inv, Next, Reachable, Puts, Revision, Content;
    RunIsLater(trace, actions, from, to - 1, owner(key), key);
    RunInv(trace, actions, to - 1);
    DecisionStays(trace, actions, from, to - 1, tx);
    if AppliedAt(trace[to - 1], tx, owner(key)) {
      ApplyBetweenRaises(trace, actions, owner, from, to - 1, tx, key);
      NextIsLater(trace[to - 1], actions[to - 1], owner(key), key);
    } else {
      ApplyStepRaises(trace[to - 1], actions[to - 1], owner, tx, key);
    }
  }

  /** The puts of a transaction on requested keys have all applied at the instant of the snapshot, or none has. */
  lemma PutsAreAllOrNothing(trace: seq<System>, actions: seq<Action>, owner: ItemKey -> PartId, request: seq<ItemKey>, replies1: seq<Reply>, replies2: seq<Reply>, at: nat,
                            tx: TxId, i: nat, j: nat)
    requires CommittedRead(trace, actions, owner, request, replies1, replies2, at)
    requires tx in trace[at].plans && i < |request| && j < |request|
    requires Puts(trace[at].plans[tx], owner, request[i]) && Puts(trace[at].plans[tx], owner, request[j])
    ensures AppliedAt(trace[at], tx, owner(request[i])) == AppliedAt(trace[at], tx, owner(request[j]))
  {
    if AppliedAt(trace[at], tx, owner(request[i])) {
      AppliedPutIsShared(trace, actions, owner, request, replies1, replies2, at, tx, owner(request[i]), j);
    }
    if AppliedAt(trace[at], tx, owner(request[j])) {
      AppliedPutIsShared(trace, actions, owner, request, replies1, replies2, at, tx, owner(request[j]), i);
    }
  }

  lemma AppliedPutIsShared(trace: seq<System>, actions: seq<Action>, owner: ItemKey -> PartId, request: seq<ItemKey>, replies1: seq<Reply>, replies2: seq<Reply>, at: nat,
                           tx: TxId, p: PartId, i: nat)
    requires CommittedRead(trace, actions, owner, request, replies1, replies2, at)
    requires AppliedAt(trace[at], tx, p) && tx in trace[at].plans && i < |request| && Puts(trace[at].plans[tx], owner, request[i])
    ensures AppliedAt(trace[at], tx, owner(request[i]))
  {
    var t1, t2, r1, r2 := RequestedReads(trace, actions, owner, request, replies1, replies2, at, i);
    AgreeingReadsAreStable(trace, actions, owner, t1, at, t2, r1, r2);
    RunInv(trace, actions, at);
    assert Commits(trace[at], tx);
    DecisionStays(trace, actions, at, t2, tx);
    RunInv(trace, actions, t2);
    CommittedWriteIsSeen(trace[t2], owner, tx, request[i]);
    if !AppliedAt(trace[at], tx, owner(request[i])) && at < t2 {
      ApplyBetweenRaises(trace, actions, owner, at, t2, tx, request[i]);
    }
  }
}
