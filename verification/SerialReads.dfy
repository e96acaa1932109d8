/**
 * A committed read in the serial order of the writes: it shows, for all its keys together, the state after
 * the transactions that had applied anywhere at one instant, one after the other in timestamp order.
 */
module SerialReads {
  import opened Bytes
  import opened Participant
  import opened Coordinator
  import opened TransactionSystem
  import opened TransactionSafety
  import opened TwoPhaseCommit
  import opened WriteOrder
  import opened SerialOrder
  import opened SnapshotRead

  /** A run of the reader with its monitor: `ms[i]` is what the monitor holds in `trace[i]`. */
  ghost predicate WatchedTrace(s0: System, trace: seq<System>, actions: seq<Action>, ms: seq<Monitor>) {
    && IsRun(trace, actions) && |ms| == |trace|
    && Watched(s0, trace[0], ms[0])
    && forall i :: 0 <= i < |actions| ==> ms[i + 1] == Observe(ms[i], EventOf(trace[i], actions[i]))
  }

  lemma {:induction false} EachIsWatched(s0: System, trace: seq<System>, actions: seq<Action>, ms: seq<Monitor>, i: nat)
    requires WatchedTrace(s0, trace, actions, ms) && i < |trace|
    ensures Watched(s0, trace[i], ms[i]) && Reachable(trace[i]) && Inv(trace[i])
  {
    hide Watched, Next, EventOf, Observe, Reachable, Inv;
    if i > 0 {
      EachIsWatched(s0, trace, actions, ms, i - 1);
      WatchedNext(s0, trace[i - 1], ms[i - 1], actions[i - 1]);
    }
    WatchedIsReachable(s0, trace[i], ms[i]);
    ReachableInv(trace[i]);
  }

  lemma {:induction false} PlainGrows(s0: System, trace: seq<System>, actions: seq<Action>, ms: seq<Monitor>, i: nat, j: nat)
    requires WatchedTrace(s0, trace, actions, ms) && i <= j < |ms|
    ensures ms[i].plain <= ms[j].plain
  {
    hide Watched, EventOf, Reachable, Raise, Next;
    if i < j {
      PlainGrows(s0, trace, actions, ms, i, j - 1);
      assert ms[j] == Observe(ms[j - 1], EventOf(trace[j - 1], actions[j - 1]));
    }
  }

  // ─── the prefix ─────────────────────────────────────────────────────────────

  ghost predicate AppliedSomewhere(s: System, t: TxId) {
    exists p :: AppliedAt(s, t, p)
  }

  /** A transaction of the prefix that writes the key. */
  ghost predicate PrefixWrites(s: System, owner: ItemKey -> PartId, t: TxId, key: ItemKey) {
    AppliedSomewhere(s, t) && t in s.plans && key in WrittenKeys(s.plans[t].ops, owner(key))
  }

  ghost predicate IsYoungest(s: System, owner: ItemKey -> PartId, t: TxId, key: ItemKey) {
    PrefixWrites(s, owner, t, key) && forall u :: PrefixWrites(s, owner, u, key) ==> s.plans[u].ts <= s.plans[t].ts
  }

  function ShownValue(replies: seq<Reply>, key: ItemKey): Option<Bytes> {
    var r := ReplyFor(replies, key);
    if r.Some? && r.value.Found? then Some(r.value.value) else None
  }

  /** The state holds the value that the read shows. */
  ghost predicate HoldsShown(s: System, owner: ItemKey -> PartId, replies: seq<Reply>, key: ItemKey) {
    owner(key) in s.parts && ShownValue(replies, key) == ValueOf(s.parts[owner(key)].store, key)
  }

  lemma ShownIsContent(s: System, owner: ItemKey -> PartId, replies: seq<Reply>, key: ItemKey)
    requires ShowsAt(s, owner, replies, key) && owner(key) in s.parts
    ensures ShownValue(replies, key) == ValueOf(s.parts[owner(key)].store, key)
  {
  }

  lemma WrittenIsWrites(plan: Plan, owner: ItemKey -> PartId, key: ItemKey)
    ensures key in WrittenKeys(plan.ops, owner(key)) <==> Writes(plan, owner, key)
  {
  }

  lemma {:induction false} FirstApplied(trace: seq<System>, from: nat, to: nat, t: TxId, p: PartId) returns (u: nat)
    requires from <= to < |trace| && !AppliedAt(trace[from], t, p) && AppliedAt(trace[to], t, p)
    ensures from < u <= to && !AppliedAt(trace[u - 1], t, p) && AppliedAt(trace[u], t, p)
  {
    if AppliedAt(trace[to - 1], t, p) {
      u := FirstApplied(trace, from, to - 1, t, p);
    } else {
      u := to;
    }
  }

  /** The transaction that applies in a step is the youngest writer of its keys after it. */
  lemma NewWriterIsYoungest(s: System, a: Action, t: TxId, p: PartId, k: ItemKey)
    requires Reachable(s) && !AppliedAt(s, t, p) && AppliedAt(Next(s, a), t, p) && t in s.plans && k in WrittenKeys(s.plans[t].ops, p)
    ensures t in Next(s, a).plans && IsLastWriter(Next(s, a), t, p, k)
  {
    hide Reachable, Next, EventOf, Applies, LockInv, WrittenKeys, KeysOf, LockGroup, ApplyFrom;
    ReachableInv(s);
    InvParts(s, t, p);
    hide Inv;
    NewApplyIsAnEvent(s, a, t, p);
    var tx, q := ApplyStep(s, a);
    WrittenAreKeys(s.plans[t].ops, p);
    forall u | IsWriter(Next(s, a), u, p, k) && u != t ensures Next(s, a).plans[u].ts < Next(s, a).plans[t].ts {
      WrittenAreKeys(s.plans[u].ops, p);
      assert AppliedAt(s, u, p) && Conflict(s.plans[t], s.plans[u], p, k);
      ConflictsFollowTimestamps(s, a, t, u, p, k);
    }
  }

  // ─── the prefix is closed ───────────────────────────────────────────────────

  /**
   * While a transaction of the prefix has not applied at a partition it locks its keys there, so nothing
   * else applies to them: what comes before it on a key is in the prefix too.
   */
  lemma {:induction false} PrefixIsClosed(s0: System, trace: seq<System>, actions: seq<Action>, ms: seq<Monitor>, at: nat, u: nat, t: TxId, w: TxId, p: PartId, k: ItemKey)
    requires WatchedTrace(s0, trace, actions, ms) && IsRun(trace, actions) && at <= u < |trace|
    requires AppliedSomewhere(trace[at], t) && t in trace[at].plans && k in KeysOf(trace[at].plans[t].ops, p)
    requires !AppliedAt(trace[u], t, p) && AppliedAt(trace[u], w, p) && w in trace[u].plans && k in KeysOf(trace[u].plans[w].ops, p)
    ensures AppliedAt(trace[at], w, p)
  {
    hide *;
    if at < u {
      EachIsWatched(s0, trace, actions, ms, at);
      EachIsWatched(s0, trace, actions, ms, u - 1);
      TraceStep(trace, actions, u);
      CommittedInPrefix(trace[at], t);
      DecisionStays(trace, actions, at, u - 1, t);
      LockedKeyStays(trace[u - 1], actions[u - 1], t, w, p, k);
      PrefixIsClosed(s0, trace, actions, ms, at, u - 1, t, w, p, k);
    }
  }

  lemma CommittedInPrefix(s: System, t: TxId)
    requires Inv(s) && AppliedSomewhere(s, t)
    ensures Commits(s, t)
  {
    var q :| AppliedAt(s, t, q);
    AppliedCommits(s, t, q);
  }

  /** A committed transaction that has not applied keeps others from its keys. */
  lemma LockedKeyStays(s: System, a: Action, t: TxId, w: TxId, p: PartId, k: ItemKey)
    requires Inv(s) && Commits(s, t) && t in s.plans && k in KeysOf(s.plans[t].ops, p)
    requires !AppliedAt(Next(s, a), t, p) && AppliedAt(Next(s, a), w, p)
    requires w in Next(s, a).plans && k in KeysOf(Next(s, a).plans[w].ops, p)
    ensures AppliedAt(s, w, p) && w in s.plans && Next(s, a).plans[w] == s.plans[w] && !AppliedAt(s, t, p)
  {
    hide Next, EventOf, Applies, KeysOf, WrittenKeys;
    if AppliedAt(s, t, p) {
      AppliedStays(s, a, t, p);
    }
    if AppliedAt(s, w, p) {
      AppliedStays(s, a, w, p);
    } else {
      InvParts(s, w, p);
      NewApplyIsAnEvent(s, a, w, p);
      CommitReachesEveryPart(s, t, p, k);
      hide Inv, LockInv;
      var tx, q := ApplyStep(s, a);
      assert false;
    }
  }

  /** A transaction that finished before the read is in its prefix at every participant. */
  lemma {:induction false} FinishedIsInPrefix(s0: System, trace: seq<System>, actions: seq<Action>, ms: seq<Monitor>, at: nat, t: TxId, p: PartId)
    requires WatchedTrace(s0, trace, actions, ms) && IsRun(trace, actions) && at < |trace|
    requires t in trace[0].ledger && trace[0].ledger[t].state.Committed? && PartOf(trace[0], t, p)
    ensures AppliedAt(trace[at], t, p)
  {
    hide *;
    if at == 0 {
      EachIsWatched(s0, trace, actions, ms, 0);
      AllOrNothing(trace[0], t, p);
    } else {
      FinishedIsInPrefix(s0, trace, actions, ms, at - 1, t, p);
      EachIsWatched(s0, trace, actions, ms, at - 1);
      TraceStep(trace, actions, at);
      AppliedStays(trace[at - 1], actions[at - 1], t, p);
    }
  }

  // ─── the theorem ────────────────────────────────────────────────────────────

  /**
   * A committed read is serializable. The transactions that had applied anywhere at the instant `at` are a
   * prefix of the serial order, and each requested key that nothing else wrote shows the effect of the
   * youngest of them that writes it, or what the key held at the start when none of them does.
   */
  lemma CommittedReadIsSerial(s0: System, trace: seq<System>, actions: seq<Action>, ms: seq<Monitor>, owner: ItemKey -> PartId,
                              request: seq<ItemKey>, replies1: seq<Reply>, replies2: seq<Reply>, at: nat, i: nat)
    requires CommittedRead(trace, actions, owner, request, replies1, replies2, at) && WatchedTrace(s0, trace, actions, ms)
    requires i < |request| && (owner(request[i]), request[i]) !in ms[|ms| - 1].plain
    ensures forall t :: IsYoungest(trace[at], owner, t, request[i]) ==>
              ShownValue(replies1, request[i]) == EffectOf(trace[at].plans[t].ops, owner(request[i]), request[i])
    ensures (forall t :: !PrefixWrites(trace[at], owner, t, request[i])) ==>
              owner(request[i]) in s0.parts && ShownValue(replies1, request[i]) == ValueOf(s0.parts[owner(request[i])].store, request[i])
  {
    SameLength(s0, trace, actions, ms, owner, request, replies1, replies2, at);
    hide CommittedRead, WatchedTrace, Watched, ShownValue, ValueOf, EffectOf, IsRun, WrittenKeys, AppliedSomewhere;
    forall t | IsYoungest(trace[at], owner, t, request[i])
      ensures ShownValue(replies1, request[i]) == EffectOf(trace[at].plans[t].ops, owner(request[i]), request[i])
    {
      YoungestIsShown(s0, trace, actions, ms, owner, request, replies1, replies2, at, i, t);
    }
    if forall t :: !PrefixWrites(trace[at], owner, t, request[i]) {
      StartIsShown(s0, trace, actions, ms, owner, request, replies1, replies2, at, i);
    }
  }

  lemma ReadValueAt(s0: System, trace: seq<System>, actions: seq<Action>, ms: seq<Monitor>, owner: ItemKey -> PartId,
                    request: seq<ItemKey>, replies1: seq<Reply>, replies2: seq<Reply>, at: nat, i: nat) returns (t2: nat)
    requires CommittedRead(trace, actions, owner, request, replies1, replies2, at) && WatchedTrace(s0, trace, actions, ms) && i < |request|
    ensures at <= t2 < |trace| && owner(request[i]) in trace[t2].parts && !HasPendingWrite(trace[t2].parts[owner(request[i])], request[i])
    ensures forall u :: at <= u <= t2 ==> HoldsShown(trace[u], owner, replies1, request[i])
  {
    hide WatchedTrace, HasPendingWrite, ReadBetween;
    var t1, late, r1, r2 := RequestedReads(trace, actions, owner, request, replies1, replies2, at, i);
    t2 := late;
    hide Agrees;
    forall u | at <= u <= t2
      ensures HoldsShown(trace[u], owner, replies1, request[i])
    {
      AgreeingReadsAreStable(trace, actions, owner, t1, u, t2, r1, r2);
      assert ShowsAt(trace[u], owner, replies1, request[i]);
      ShownIsContent(trace[u], owner, replies1, request[i]);
    }
  }

  lemma StartIsShown(s0: System, trace: seq<System>, actions: seq<Action>, ms: seq<Monitor>, owner: ItemKey -> PartId,
                     request: seq<ItemKey>, replies1: seq<Reply>, replies2: seq<Reply>, at: nat, i: nat)
    requires CommittedRead(trace, actions, owner, request, replies1, replies2, at) && WatchedTrace(s0, trace, actions, ms)
    requires i < |request| && (owner(request[i]), request[i]) !in ms[|ms| - 1].plain
    requires forall t :: !PrefixWrites(trace[at], owner, t, request[i])
    ensures owner(request[i]) in s0.parts && ShownValue(replies1, request[i]) == ValueOf(s0.parts[owner(request[i])].store, request[i])
  {
    var p, k := owner(request[i]), request[i];
    var _ := ReadValueAt(s0, trace, actions, ms, owner, request, replies1, replies2, at, i);
    SameLength(s0, trace, actions, ms, owner, request, replies1, replies2, at);
    PlainGrows(s0, trace, actions, ms, at, |ms| - 1);
    EachIsWatched(s0, trace, actions, ms, at);
    hide CommittedRead, WatchedTrace, Watched, Inv, Reachable, ValueOf, ShownValue, WrittenKeys;
    StoresFollowTimestamps(s0, trace[at], ms[at], p, k);
    forall u ensures !IsWriter(trace[at], u, p, k) {
      assert !PrefixWrites(trace[at], owner, u, k);
    }
  }

  lemma SameLength(s0: System, trace: seq<System>, actions: seq<Action>, ms: seq<Monitor>, owner: ItemKey -> PartId,
                   request: seq<ItemKey>, replies1: seq<Reply>, replies2: seq<Reply>, at: nat)
    requires CommittedRead(trace, actions, owner, request, replies1, replies2, at) && WatchedTrace(s0, trace, actions, ms)
    ensures |ms| == |trace| && at < |trace| && IsRun(trace, actions)
  {
    hide IsRun, Agrees, ReadBetween, Watched;
  }

  lemma YoungestIsShown(s0: System, trace: seq<System>, actions: seq<Action>, ms: seq<Monitor>, owner: ItemKey -> PartId,
                        request: seq<ItemKey>, replies1: seq<Reply>, replies2: seq<Reply>, at: nat, i: nat, t: TxId)
    requires CommittedRead(trace, actions, owner, request, replies1, replies2, at) && WatchedTrace(s0, trace, actions, ms)
    requires i < |request| && (owner(request[i]), request[i]) !in ms[|ms| - 1].plain
    requires IsYoungest(trace[at], owner, t, request[i])
    ensures ShownValue(replies1, request[i]) == EffectOf(trace[at].plans[t].ops, owner(request[i]), request[i])
  {
    SameLength(s0, trace, actions, ms, owner, request, replies1, replies2, at);
    var t2 := ReadValueAt(s0, trace, actions, ms, owner, request, replies1, replies2, at, i);
    hide CommittedRead, WatchedTrace, HasPendingWrite, HoldsShown, EffectOf, WrittenKeys, IsRun, IsWriter, ShownValue, IsYoungestWriter;
    PrefixApplies(s0, trace, actions, ms, owner, at, t2, t, request[i]);
    if AppliedAt(trace[at], t, owner(request[i])) {
      EarlyWriter(trace[at], owner, t, request[i]);
      WriterIsShown(s0, trace, actions, ms, owner, replies1, request[i], at, t);
    } else {
      LateIsShown(s0, trace, actions, ms, owner, replies1, request[i], at, t2, t);
    }
  }

  /** A writer of the prefix that applied to the key only after the instant: the value did not change since. */
  lemma LateIsShown(s0: System, trace: seq<System>, actions: seq<Action>, ms: seq<Monitor>, owner: ItemKey -> PartId,
                    replies: seq<Reply>, k: ItemKey, at: nat, t2: nat, t: TxId)
    requires WatchedTrace(s0, trace, actions, ms) && at <= t2 < |ms| == |trace| && IsRun(trace, actions) && (owner(k), k) !in ms[|ms| - 1].plain
    requires forall u :: at <= u <= t2 ==> HoldsShown(trace[u], owner, replies, k)
    requires t in trace[at].plans && Commits(trace[at], t) && k in WrittenKeys(trace[at].plans[t].ops, owner(k))
    requires !AppliedAt(trace[at], t, owner(k)) && AppliedAt(trace[t2], t, owner(k))
    ensures ShownValue(replies, k) == EffectOf(trace[at].plans[t].ops, owner(k), k)
  {
    hide *;
    var u := FirstApplied(trace, at, t2, t, owner(k));
    EachIsWatched(s0, trace, actions, ms, u - 1);
    LateApply(trace, actions, at, u, t, owner(k), k);
    WriterIsShown(s0, trace, actions, ms, owner, replies, k, u, t);
  }

  lemma EarlyWriter(s: System, owner: ItemKey -> PartId, t: TxId, k: ItemKey)
    requires IsYoungest(s, owner, t, k) && AppliedAt(s, t, owner(k))
    ensures IsYoungestWriter(s, t, owner(k), k)
  {
    forall u | IsWriter(s, u, owner(k), k) ensures PrefixWrites(s, owner, u, k) {
    }
  }

  ghost predicate IsYoungestWriter(s: System, t: TxId, p: PartId, k: ItemKey) {
    IsWriter(s, t, p, k) && forall u :: IsWriter(s, u, p, k) ==> s.plans[u].ts <= s.plans[t].ts
  }

  /** A state that holds what is shown, and in which the transaction is the youngest writer of the key. */
  lemma WriterIsShown(s0: System, trace: seq<System>, actions: seq<Action>, ms: seq<Monitor>, owner: ItemKey -> PartId,
                      replies: seq<Reply>, k: ItemKey, u: nat, t: TxId)
    requires WatchedTrace(s0, trace, actions, ms) && u < |ms| == |trace| && (owner(k), k) !in ms[|ms| - 1].plain
    requires HoldsShown(trace[u], owner, replies, k) && IsYoungestWriter(trace[u], t, owner(k), k)
    ensures t in trace[u].plans && ShownValue(replies, k) == EffectOf(trace[u].plans[t].ops, owner(k), k)
  {
    PlainGrows(s0, trace, actions, ms, u, |ms| - 1);
    EachIsWatched(s0, trace, actions, ms, u);
    hide WatchedTrace, Watched, Inv, Reachable, EffectOf, ValueOf, ShownValue, WrittenKeys;
    StoresFollowTimestamps(s0, trace[u], ms[u], owner(k), k);
  }

  /** A transaction that had applied anywhere has applied wherever a later read finds no pending write. */
  lemma PrefixApplies(s0: System, trace: seq<System>, actions: seq<Action>, ms: seq<Monitor>, owner: ItemKey -> PartId, at: nat, t2: nat, t: TxId, k: ItemKey)
    requires WatchedTrace(s0, trace, actions, ms) && at <= t2 < |trace| && PrefixWrites(trace[at], owner, t, k)
    requires owner(k) in trace[t2].parts && !HasPendingWrite(trace[t2].parts[owner(k)], k)
    ensures AppliedAt(trace[t2], t, owner(k)) && Commits(trace[at], t)
  {
    EachIsWatched(s0, trace, actions, ms, at);
    EachIsWatched(s0, trace, actions, ms, t2);
    var q :| AppliedAt(trace[at], t, q);
    assert Commits(trace[at], t) by { AppliedCommits(trace[at], t, q); }
    hide Inv, Watched, Reachable, HasPendingWrite, WrittenKeys;
    DecisionStays(trace, actions, at, t2, t);
    WrittenIsWrites(trace[t2].plans[t], owner, k);
    CommittedWriteIsSeen(trace[t2], owner, t, k);
  }

  lemma AppliedCommits(s: System, t: TxId, q: PartId)
    requires Inv(s) && AppliedAt(s, t, q)
    ensures Commits(s, t)
  {
  }

  /** The step in which a committed transaction applies leaves it as the youngest writer of its keys. */
  lemma LateApply(trace: seq<System>, actions: seq<Action>, at: nat, u: nat, t: TxId, p: PartId, k: ItemKey)
    requires IsRun(trace, actions) && at < u < |trace| && Reachable(trace[u - 1])
    requires t in trace[at].plans && Commits(trace[at], t) && k in WrittenKeys(trace[at].plans[t].ops, p)
    requires !AppliedAt(trace[u - 1], t, p) && AppliedAt(trace[u], t, p)
    ensures t in trace[u].plans && trace[u].plans[t] == trace[at].plans[t] && IsYoungestWriter(trace[u], t, p, k)
  {
    hide *;
    TraceStep(trace, actions, u);
    DecisionStays(trace, actions, at, u - 1, t);
    DecisionStays(trace, actions, at, u, t);
    LateStep(trace[u - 1], actions[u - 1], t, p, k);
  }

  lemma LateStep(s: System, a: Action, t: TxId, p: PartId, k: ItemKey)
    requires Reachable(s) && !AppliedAt(s, t, p) && AppliedAt(Next(s, a), t, p) && t in s.plans && k in WrittenKeys(s.plans[t].ops, p)
    ensures t in Next(s, a).plans && IsYoungestWriter(Next(s, a), t, p, k)
  {
    hide *;
    NewWriterIsYoungest(s, a, t, p, k);
    LastIsYoungest(Next(s, a), t, p, k);
  }

  lemma TraceStep(trace: seq<System>, actions: seq<Action>, u: nat)
    requires IsRun(trace, actions) && 0 < u < |trace|
    ensures u - 1 < |actions| && trace[u] == Next(trace[u - 1], actions[u - 1])
  {
    hide Next, Reachable;
  }

  lemma LastIsYoungest(s: System, t: TxId, p: PartId, k: ItemKey)
    requires IsLastWriter(s, t, p, k)
    ensures IsYoungestWriter(s, t, p, k)
  {
    hide WrittenKeys;
  }
}
