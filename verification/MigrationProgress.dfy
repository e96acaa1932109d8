/**
 * What a repartition can always reach. From every reachable state, however messages were lost, a planned
 * repartition can be completed, with every target active.
 */
module MigrationProgress {
  import opened Bytes
  import opened RoutingHash
  import opened RepartitionSlices
  import opened RepartitionSystem
  import opened RepartitionSafety
  import opened RepartitionSteps
  import opened OnlineMigration

  // ─── acknowledgements ───────────────────────────────────────────────────────

  predicate IsAcknowledged(r: Repartitions, tid: TargetId) {
    IsTarget(r, tid) && r[tid.rep].targets[tid.index].acknowledged
  }

  /** A row in cutover waits for a target. */
  ghost predicate WaitsForTarget(rep: Repartition) {
    rep.state == Cutover ==> exists i :: 0 <= i < |rep.targets| && !rep.targets[i].acknowledged
  }

  /** What the source knows of the acknowledgements that it answered. */
  ghost predicate AcksInv(s: System) {
    && (forall id :: id in s.reps ==> WaitsForTarget(s.reps[id]))
    && (forall tid :: TargetAcksInv(s, tid))
  }

  ghost predicate TargetAcksInv(s: System, tid: TargetId) {
    AckOk(tid) in s.net || (tid in s.targets && s.targets[tid].state == Active) ==> IsAcknowledged(s.reps, tid)
  }

  lemma PlannedHasNoMark(c: Config, s: System, tid: TargetId)
    requires c.topology.hashSplitN >= 1 && Inv(c, s) && IsAcknowledged(s.reps, tid)
    ensures CutOver(s.reps[tid.rep].state)
  {
    hide RepsInv, NetInv, OwnedData, SourceData, CopySoFar, CompleteCopy;
    assert MarkOk(s, tid, s.reps[tid.rep].targets[tid.index]);
    TargetInvHolds(c, s, tid);
  }

  /** The one change that an action can make to a row. */
  function RowAfter(c: Config, s: System, a: Action, id: nat): Repartition
    requires c.topology.hashSplitN >= 1 && id in s.reps && Enabled(c, s, a)
  {
    var rep := s.reps[id];
    match a
    case Plan(i, boundaries) => if i == id then PlanRow(c, rep, boundaries) else rep
    case SendInit(tid) => if tid.rep == id then StartInit(rep, tid.index) else rep
    case RecordInitOk(tid) => if tid.rep == id then RecordInit(rep, tid.index) else rep
    case CutOverNow(i) => if i == id then CutOverRow(rep) else rep
    case DeliverAck(tid) => if tid.rep == id then AcceptAck(rep, tid.index) else rep
    case CleanUp(i, _, done) => if i == id then CleanUpRow(rep, done) else rep
    case _ => rep
  }

  lemma OneRowChanges(c: Config, s: System, a: Action, id: nat)
    requires c.topology.hashSplitN >= 1 && id in s.reps
    ensures id in Next(c, s, a).reps && Next(c, s, a).reps[id] == if Enabled(c, s, a) then RowAfter(c, s, a, id) else s.reps[id]
  {
    hide PlanRow, StartInit, RecordInit, CutOverRow, AcceptAck, CleanUpRow, KindFits, PageIsAcceptable, BuildBody, SourceServes, TargetServes, CanQueue,
         PageEndFits, Reclaimable, AllInitialized, ApplyPage;
  }

  lemma RowKeepsMarks(c: Config, s: System, a: Action, tid: TargetId)
    requires c.topology.hashSplitN >= 1 && IsAcknowledged(s.reps, tid) && Enabled(c, s, a)
    requires s.reps[tid.rep].state == Queued ==> s.reps[tid.rep].targets == []
    ensures var row := RowAfter(c, s, a, tid.rep); tid.index < |row.targets| && row.targets[tid.index].acknowledged
  {
    hide KindFits, PageIsAcceptable, BuildBody, PlanSlices, SourceServes, TargetServes, CanQueue, PageEndFits, Reclaimable, AllInitialized,
         PlannedTargets, AllAcknowledged;
  }

  /** The marks of the targets stay. */
  lemma MarksStay(c: Config, s: System, a: Action, tid: TargetId)
    requires c.topology.hashSplitN >= 1 && RepsInv(c, s.reps) && IsAcknowledged(s.reps, tid)
    ensures IsAcknowledged(Next(c, s, a).reps, tid)
  {
    assert RepartitionOk(c, s.reps[tid.rep]);
    hide RepsInv, Tiles, KindFits, Slices, Next, Enabled;
    OneRowChanges(c, s, a, tid.rep);
    if Enabled(c, s, a) {
      RowKeepsMarks(c, s, a, tid);
    }
  }

  /** A row that reaches or keeps cutover waits for a target. */
  lemma StillWaits(c: Config, s: System, a: Action, id: nat)
    requires c.topology.hashSplitN >= 1 && Inv(c, s) && AcksInv(s) && id in Next(c, s, a).reps
    ensures WaitsForTarget(Next(c, s, a).reps[id])
  {
    if a.CutOverNow? && a.id == id && Enabled(c, s, a) {
      assert |s.reps[id].targets| > 0;
      if s.reps[id].targets[0].acknowledged {
        assert IsAcknowledged(s.reps, TargetId(id, 0));
        PlannedHasNoMark(c, s, TargetId(id, 0));
      }
      hide Inv, AcksInv;
    } else {
      hide Inv;
      WaitsOtherwise(c, s, a, id);
    }
  }

  lemma WaitsOtherwise(c: Config, s: System, a: Action, id: nat)
    requires c.topology.hashSplitN >= 1 && id in Next(c, s, a).reps && (id in s.reps ==> WaitsForTarget(s.reps[id]))
    requires !(a.CutOverNow? && a.id == id && Enabled(c, s, a))
    ensures WaitsForTarget(Next(c, s, a).reps[id])
  {
    hide KindFits, PageIsAcceptable, BuildBody, PlanSlices, SourceServes, TargetServes, CanQueue,
         PageEndFits, Reclaimable, AllInitialized, ApplyPage, PlannedTargets;
    if a.DeliverAck? && a.tid.rep == id && Enabled(c, s, a) {
      AckWaits(s.reps[a.tid.rep], a.tid.index);
    } else if a.SendInit? && a.tid.rep == id && Enabled(c, s, a) {
      InitWaits(s.reps[a.tid.rep], a.tid.index);
    } else if a.RecordInitOk? && a.tid.rep == id && Enabled(c, s, a) {
      InitWaits(s.reps[a.tid.rep], a.tid.index);
    }
  }

  lemma AckWaits(rep: Repartition, i: nat)
    requires i < |rep.targets| && WaitsForTarget(rep)
    ensures WaitsForTarget(AcceptAck(rep, i))
  {
  }

  lemma InitWaits(rep: Repartition, i: nat)
    requires i < |rep.targets| && WaitsForTarget(rep)
    ensures WaitsForTarget(StartInit(rep, i)) && WaitsForTarget(RecordInit(rep, i))
  {
    if rep.state == Cutover {
      var j :| 0 <= j < |rep.targets| && !rep.targets[j].acknowledged;
      assert !StartInit(rep, i).targets[j].acknowledged && !RecordInit(rep, i).targets[j].acknowledged;
    }
  }

  /** An answer to an acknowledgement is sent only with the mark. */
  lemma AnswersAreMarked(c: Config, s: System, a: Action, tid: TargetId)
    requires c.topology.hashSplitN >= 1 && Inv(c, s) && AckOk(tid) in Next(c, s, a).net && AckOk(tid) !in s.net
    ensures IsAcknowledged(Next(c, s, a).reps, tid)
  {
    hide Inv, Next, Enabled, IsAcknowledged, AcceptAck;
    NewAnswer(c, s, a, tid);
    if Finished(s.reps[tid.rep].state) {
      FinishedIsMarked(c, s, tid);
    }
    AckMarksTarget(s.reps, tid);
  }

  lemma NewAnswer(c: Config, s: System, a: Action, tid: TargetId)
    requires c.topology.hashSplitN >= 1 && AckOk(tid) in Next(c, s, a).net && AckOk(tid) !in s.net
    ensures IsTarget(s.reps, tid) && CutOver(s.reps[tid.rep].state)
    ensures Next(c, s, a).reps == s.reps[tid.rep := AcceptAck(s.reps[tid.rep], tid.index)]
  {
    hide KindFits, PageIsAcceptable, BuildBody, PlanSlices, SourceServes, TargetServes, CanQueue,
         PageEndFits, Reclaimable, AllInitialized, ApplyPage, PlannedTargets, AcceptAck;
  }

  lemma FinishedIsMarked(c: Config, s: System, tid: TargetId)
    requires c.topology.hashSplitN >= 1 && Inv(c, s) && IsTarget(s.reps, tid) && Finished(s.reps[tid.rep].state)
    ensures IsAcknowledged(s.reps, tid)
  {
    hide Tiles, NetInv, OwnedData, SourceData, TargetsInv;
    assert RepartitionOk(c, s.reps[tid.rep]);
  }

  lemma AckMarksTarget(r: Repartitions, tid: TargetId)
    requires IsTarget(r, tid) && CutOver(r[tid.rep].state) && (Finished(r[tid.rep].state) ==> IsAcknowledged(r, tid))
    ensures IsAcknowledged(r[tid.rep := AcceptAck(r[tid.rep], tid.index)], tid)
  {
  }

  /** A target becomes active on an answer. */
  lemma NewActive(c: Config, s: System, a: Action, tid: TargetId)
    requires c.topology.hashSplitN >= 1 && tid in Next(c, s, a).targets && Next(c, s, a).targets[tid].state == Active
    ensures AckOk(tid) in s.net || (tid in s.targets && s.targets[tid].state == Active)
  {
    hide KindFits, PageIsAcceptable, BuildBody, PlanRow, StartInit, RecordInit, CutOverRow, AcceptAck, CleanUpRow, SourceServes, TargetServes, CanQueue,
         PageEndFits, Reclaimable, AllInitialized;
  }

  lemma NextKeepsAcks(c: Config, s: System, a: Action)
    requires c.topology.hashSplitN >= 1 && Inv(c, s) && AcksInv(s)
    ensures AcksInv(Next(c, s, a))
  {
    var s' := Next(c, s, a);
    hide Inv, Next, TargetAcksInv, WaitsForTarget;
    forall id | id in s'.reps ensures WaitsForTarget(s'.reps[id]) {
      StillWaits(c, s, a, id);
    }
    forall tid ensures TargetAcksInv(s', tid) {
      assert TargetAcksInv(s, tid);
      TargetAcksStay(c, s, a, tid);
    }
  }

  lemma TargetAcksStay(c: Config, s: System, a: Action, tid: TargetId)
    requires c.topology.hashSplitN >= 1 && Inv(c, s) && TargetAcksInv(s, tid)
    ensures TargetAcksInv(Next(c, s, a), tid)
  {
    hide Inv, RepsInv, Next, IsAcknowledged;
    RepsHold(c, s);
    if AckOk(tid) in Next(c, s, a).net && AckOk(tid) !in s.net {
      AnswersAreMarked(c, s, a, tid);
    } else if AckOk(tid) in s.net {
      MarksStay(c, s, a, tid);
    } else if tid in Next(c, s, a).targets && Next(c, s, a).targets[tid].state == Active {
      NewActive(c, s, a, tid);
      MarksStay(c, s, a, tid);
    }
  }

  lemma {:induction false} RunKeepsAcks(c: Config, s: System, actions: seq<Action>)
    requires c.topology.hashSplitN >= 1 && ValidConfig(c) && Inv(c, s) && AcksInv(s)
    ensures AcksInv(Run(c, s, actions))
    decreases |actions|
  {
    hide Inv, AcksInv, Next;
    if actions != [] {
      NextKeeps(c, s, actions[0]);
      NextKeepsAcks(c, s, actions[0]);
      RunKeepsAcks(c, Next(c, s, actions[0]), actions[1..]);
    }
  }

  lemma ReachableAcks(c: Config, s: System)
    requires Reachable(c, s)
    ensures Inv(c, s) && AcksInv(s)
  {
    ReachableInv(c, s);
    hide Inv, Run;
    var s0, actions :| Initial(c, s0) && s == Run(c, s0, actions);
    InitialInv(c, s0);
    RunKeepsAcks(c, s0, actions);
  }

  /** In every reachable state a row in cutover waits for a target: the last mark completes it. */
  lemma CutoverWaits(c: Config, s: System, id: nat)
    requires Reachable(c, s) && id in s.reps && s.reps[id].state == Cutover
    ensures exists i :: 0 <= i < |s.reps[id].targets| && !s.reps[id].targets[i].acknowledged
  {
    ReachableAcks(c, s);
    hide Inv, Reachable;
    assert WaitsForTarget(s.reps[id]);
  }

  // ─── the rows after a cleanup ───────────────────────────────────────────────

  /** A cleaned source holds nothing that its cleanup reclaims. */
  ghost predicate CleanedInv(c: Config, s: System) {
    forall id :: id in s.reps && s.reps[id].state == Cleaned ==> NothingLeft(c, s.reps[id].kind, s.rows)
  }

  /** The source gets a new row only by a write that it serves. */
  lemma NewRowsAreServed(c: Config, s: System, a: Action, k: RowKey)
    requires c.topology.hashSplitN >= 1 && k in Next(c, s, a).rows && k !in s.rows
    ensures SourceServes(c, s.reps, k.key)
  {
    hide PlanRow, StartInit, RecordInit, CutOverRow, AcceptAck, CleanUpRow, KindFits, PageIsAcceptable, BuildBody, TargetServes, CanQueue,
         PageEndFits, AllInitialized, ApplyPage, SourceServes, Reclaimable, NothingLeft;
  }

  /** No step gives a row back to a cleaned source: it serves no key that the cleanup took. */
  lemma RowsStayReclaimed(c: Config, s: System, a: Action, id: nat)
    requires c.topology.hashSplitN >= 1 && ValidConfig(c) && Inv(c, s) && id in s.reps && s.reps[id].state == Cleaned && NothingLeft(c, s.reps[id].kind, s.rows)
    ensures NothingLeft(c, s.reps[id].kind, Next(c, s, a).rows)
  {
    RepsHold(c, s);
    hide Inv, RepsInv, Next, SourceServes, Reclaimable;
    forall k | k in Next(c, s, a).rows ensures !Reclaimable(c, s.reps[id].kind, k) {
      if k !in s.rows && Reclaimable(c, s.reps[id].kind, k) {
        ReclaimedRowIsFree(c, s.reps, id, k);
        NewRowsAreServed(c, s, a, k);
        assert false;
      }
    }
  }

  /** The step that cleans a source leaves nothing to reclaim. */
  lemma CleaningLeavesNothing(c: Config, s: System, a: Action, id: nat)
    requires c.topology.hashSplitN >= 1 && id in s.reps && s.reps[id].state != Cleaned && Next(c, s, a).reps[id].state == Cleaned
    ensures NothingLeft(c, s.reps[id].kind, Next(c, s, a).rows) && Next(c, s, a).reps[id].kind == s.reps[id].kind
  {
    hide PageIsAcceptable, BuildBody, KindFits, TargetServes, SourceServes, CanQueue, PageEndFits, ApplyPage, Reclaimable;
  }

  lemma NextKeepsCleaned(c: Config, s: System, a: Action)
    requires c.topology.hashSplitN >= 1 && ValidConfig(c) && Inv(c, s) && CleanedInv(c, s)
    ensures CleanedInv(c, Next(c, s, a))
  {
    hide Inv, Next, NothingLeft;
    forall id | id in Next(c, s, a).reps && Next(c, s, a).reps[id].state == Cleaned ensures NothingLeft(c, Next(c, s, a).reps[id].kind, Next(c, s, a).rows) {
      if id !in s.reps {
        NewRowIsQueued(c, s, a, id);
      } else if s.reps[id].state == Cleaned {
        RowsStayReclaimed(c, s, a, id);
        KindStays(c, s, a, id);
      } else {
        CleaningLeavesNothing(c, s, a, id);
      }
    }
  }

  lemma NewRowIsQueued(c: Config, s: System, a: Action, id: nat)
    requires c.topology.hashSplitN >= 1 && id !in s.reps && id in Next(c, s, a).reps
    ensures Next(c, s, a).reps[id].state == Queued
  {
    hide PageIsAcceptable, BuildBody, KindFits, TargetServes, SourceServes, CanQueue, PageEndFits, ApplyPage, Reclaimable;
  }

  lemma KindStays(c: Config, s: System, a: Action, id: nat)
    requires c.topology.hashSplitN >= 1 && id in s.reps
    ensures Next(c, s, a).reps[id].kind == s.reps[id].kind
  {
    OneRowChanges(c, s, a, id);
    hide Next, Enabled;
  }

  lemma {:induction false} RunKeepsCleaned(c: Config, s: System, actions: seq<Action>)
    requires c.topology.hashSplitN >= 1 && ValidConfig(c) && Inv(c, s) && CleanedInv(c, s)
    ensures CleanedInv(c, Run(c, s, actions))
    decreases |actions|
  {
    hide Inv, CleanedInv, Next;
    if actions != [] {
      NextKeeps(c, s, actions[0]);
      NextKeepsCleaned(c, s, actions[0]);
      RunKeepsCleaned(c, Next(c, s, actions[0]), actions[1..]);
    }
  }

  /**
   * The reclaim is complete and final: in every reachable state a cleaned promotion has left no row of its
   * hash at the source, and a cleaned split no copy of a lock.
   */
  lemma CleanedHoldsNothing(c: Config, s: System, id: nat, k: RowKey)
    requires Reachable(c, s) && id in s.reps && s.reps[id].state == Cleaned && k in s.rows
    ensures if s.reps[id].kind.KeyPromotion? then HashOf(c, k.key) != s.reps[id].kind.promoted else k.stream == Items
  {
    hide Inv, Run;
    var s0, actions :| Initial(c, s0) && s == Run(c, s0, actions);
    InitialInv(c, s0);
    RunKeepsCleaned(c, s0, actions);
    assert NothingLeft(c, s.reps[id].kind, s.rows);
  }

  // ─── continuations ──────────────────────────────────────────────────────────

  /** Some continuation of the run of `s` ends in `s'`. */
  ghost predicate Leads(c: Config, s: System, s': System)
    requires c.topology.hashSplitN >= 1
  {
    exists actions :: Run(c, s, actions) == s'
  }

  lemma {:induction false} RunSplits(c: Config, s: System, a: seq<Action>, b: seq<Action>)
    requires c.topology.hashSplitN >= 1
    ensures Run(c, s, a + b) == Run(c, Run(c, s, a), b)
    decreases |a|
  {
    hide Next;
    if a == [] {
      assert a + b == b;
    } else {
      assert (a + b)[0] == a[0] && (a + b)[1..] == a[1..] + b;
      RunSplits(c, Next(c, s, a[0]), a[1..], b);
    }
  }

  lemma LeadsNowhere(c: Config, s: System)
    requires c.topology.hashSplitN >= 1
    ensures Leads(c, s, s)
  {
    assert Run(c, s, []) == s;
  }

  lemma LeadsOn(c: Config, s: System, a: System, b: System)
    requires c.topology.hashSplitN >= 1 && Leads(c, s, a) && Leads(c, a, b)
    ensures Leads(c, s, b)
  {
    hide Run;
    var first :| Run(c, s, first) == a;
    var second :| Run(c, a, second) == b;
    RunSplits(c, s, first, second);
  }

  lemma Step(c: Config, s: System, a: Action)
    requires Reachable(c, s)
    ensures c.topology.hashSplitN >= 1 && Reachable(c, Next(c, s, a)) && Leads(c, s, Next(c, s, a))
  {
    hide Next, Initial;
    assert [a][1..] == [];
    assert Run(c, s, [a]) == Run(c, Next(c, s, a), []);
    hide Run;
    var s0, actions :| Initial(c, s0) && s == Run(c, s0, actions);
    RunSplits(c, s0, actions, [a]);
  }

  // ─── one target ─────────────────────────────────────────────────────────────

  /** What the steps for one target leave: the other rows, the plan, and the messages. */
  ghost predicate KeepsRest(c: Config, s: System, s': System, id: nat) {
    && c.topology.hashSplitN >= 1 && Reachable(c, s') && Leads(c, s, s') && s.net <= s'.net
    && id in s.reps && id in s'.reps && s'.reps[id].kind == s.reps[id].kind && |s'.reps[id].targets| == |s.reps[id].targets|
    && (forall i :: 0 <= i < |s.reps[id].targets| ==> s'.reps[id].targets[i].slice == s.reps[id].targets[i].slice)
  }

  lemma KeepsRestMeans(c: Config, s: System, s': System, id: nat)
    requires KeepsRest(c, s, s', id)
    ensures c.topology.hashSplitN >= 1 && Reachable(c, s') && Leads(c, s, s') && s.net <= s'.net
    ensures id in s.reps && id in s'.reps && s'.reps[id].kind == s.reps[id].kind && |s'.reps[id].targets| == |s.reps[id].targets|
  {
  }

  lemma KeepsOn(c: Config, s: System, a: System, b: System, id: nat)
    requires KeepsRest(c, s, a, id) && KeepsRest(c, a, b, id)
    ensures KeepsRest(c, s, b, id)
  {
    hide Leads, Reachable;
    LeadsOn(c, s, a, b);
  }

  lemma KeepsItself(c: Config, s: System, id: nat)
    requires Reachable(c, s) && c.topology.hashSplitN >= 1 && id in s.reps
    ensures KeepsRest(c, s, s, id)
  {
    LeadsNowhere(c, s);
    hide Reachable, Leads;
  }

  lemma ValidSplit(c: Config, s: System)
    requires Reachable(c, s)
    ensures c.topology.hashSplitN >= 1
  {
  }

  lemma SendInitStep(c: Config, s: System, tid: TargetId) returns (s': System)
    requires Reachable(c, s) && IsTarget(s.reps, tid) && s.reps[tid.rep].state == Planned
    ensures KeepsRest(c, s, s', tid.rep) && s'.targets == s.targets && InitRequest(tid, TargetSlice(s.reps, tid)) in s'.net
    ensures s'.reps[tid.rep].state == Planned && SameMarksBut(s.reps[tid.rep], s'.reps[tid.rep], tid.index)
  {
    Step(c, s, SendInit(tid));
    s' := Next(c, s, SendInit(tid));
    hide Reachable, Leads;
  }

  /** Every other target that is initialized stays so. */
  predicate SameMarksBut(a: Repartition, b: Repartition, i: nat) {
    && |a.targets| == |b.targets|
    && forall j :: 0 <= j < |a.targets| && j != i ==> b.targets[j] == a.targets[j]
  }

  lemma DeliverInitStep(c: Config, s: System, tid: TargetId) returns (s': System)
    requires Reachable(c, s) && IsTarget(s.reps, tid) && InitRequest(tid, TargetSlice(s.reps, tid)) in s.net
    ensures KeepsRest(c, s, s', tid.rep) && s'.reps == s.reps && InitOk(tid) in s'.net
  {
    Step(c, s, DeliverInit(tid, TargetSlice(s.reps, tid)));
    s' := Next(c, s, DeliverInit(tid, TargetSlice(s.reps, tid)));
    if tid in s.targets {
      ReachableInv(c, s);
      hide Inv, Reachable, Leads;
      TargetHasItsSlice(c, s, tid);
    }
    hide Reachable, Leads;
  }

  lemma RecordInitStep(c: Config, s: System, tid: TargetId) returns (s': System)
    requires Reachable(c, s) && IsTarget(s.reps, tid) && InitOk(tid) in s.net
    ensures KeepsRest(c, s, s', tid.rep) && s'.reps[tid.rep].state == s.reps[tid.rep].state && SameMarksBut(s.reps[tid.rep], s'.reps[tid.rep], tid.index)
    ensures s'.reps[tid.rep].targets[tid.index].initialization == Initialized
  {
    Step(c, s, RecordInitOk(tid));
    s' := Next(c, s, RecordInitOk(tid));
    hide Reachable, Leads;
  }

  /** A target of a planned repartition can be initialized, again or for the first time. */
  lemma InitOne(c: Config, s: System, tid: TargetId) returns (s': System)
    requires Reachable(c, s) && IsTarget(s.reps, tid) && s.reps[tid.rep].state == Planned
    ensures KeepsRest(c, s, s', tid.rep) && s'.reps[tid.rep].state == Planned && SameMarksBut(s.reps[tid.rep], s'.reps[tid.rep], tid.index)
    ensures s'.reps[tid.rep].targets[tid.index].initialization == Initialized
  {
    hide Reachable, Leads, KeepsRest;
    var s1 := SendInitStep(c, s, tid);
    KeepsRestMeans(c, s, s1, tid.rep);
    SlicesStay(c, s, s1, tid);
    var s2 := DeliverInitStep(c, s1, tid);
    KeepsRestMeans(c, s1, s2, tid.rep);
    s' := RecordInitStep(c, s2, tid);
    KeepsRestMeans(c, s2, s', tid.rep);
    KeepsOn(c, s, s1, s2, tid.rep);
    KeepsOn(c, s, s2, s', tid.rep);
  }

  lemma SlicesStay(c: Config, s: System, s': System, tid: TargetId)
    requires KeepsRest(c, s, s', tid.rep) && IsTarget(s.reps, tid)
    ensures IsTarget(s'.reps, tid) && TargetSlice(s'.reps, tid) == TargetSlice(s.reps, tid)
  {
  }

  lemma {:induction false} InitAll(c: Config, s: System, id: nat, n: nat) returns (s': System)
    requires Reachable(c, s) && id in s.reps && s.reps[id].state == Planned && n <= |s.reps[id].targets|
    ensures KeepsRest(c, s, s', id) && s'.reps[id].state == Planned
    ensures forall i :: 0 <= i < n ==> s'.reps[id].targets[i].initialization == Initialized
    decreases n
  {
    hide Reachable, Leads, KeepsRest;
    ValidSplit(c, s);
    if n == 0 {
      s' := s;
      KeepsItself(c, s, id);
    } else {
      var s1 := InitAll(c, s, id, n - 1);
      KeepsRestMeans(c, s, s1, id);
      s' := InitOne(c, s1, TargetId(id, n - 1));
      KeepsRestMeans(c, s1, s', id);
      KeepsOn(c, s, s1, s', id);
    }
  }

  lemma CutOverStep(c: Config, s: System, id: nat) returns (s': System)
    requires Reachable(c, s) && id in s.reps && s.reps[id].state == Planned && |s.reps[id].targets| > 0
    requires forall i :: 0 <= i < |s.reps[id].targets| ==> s.reps[id].targets[i].initialization == Initialized
    ensures KeepsRest(c, s, s', id) && s'.reps[id].state == Cutover
  {
    Step(c, s, CutOverNow(id));
    s' := Next(c, s, CutOverNow(id));
    hide Reachable, Leads;
  }

  lemma PlannedHasTargets(c: Config, s: System, id: nat)
    requires Reachable(c, s) && id in s.reps && !s.reps[id].state.Queued?
    ensures |s.reps[id].targets| > 0
  {
    ReachableInv(c, s);
    hide Reachable, NetInv, OwnedData, SourceData, TargetsInv, MarksInv, Arbitrated;
    assert RepartitionOk(c, s.reps[id]);
    assert |Slices(s.reps[id])| == |s.reps[id].targets|;
  }

  // ─── an import ──────────────────────────────────────────────────────────────

  /** The end of the whole stream of a cursor. */
  function EndOfStream(cursor: Option<Cursor>): Option<Cursor> {
    match Requested(cursor)
    case OverridesAt(_) => Some(HostAt(StartOf(Items)))
    case HostAt(at) => if StreamOf(at).Items? then Some(HostAt(StartOf(Locks))) else None
  }

  /** The streams that are left. */
  function Stage(cursor: Option<Cursor>): nat {
    match Requested(cursor)
    case OverridesAt(_) => 2
    case HostAt(at) => if StreamOf(at).Items? then 1 else 0
  }

  ghost predicate Importable(s: System, tid: TargetId) {
    IsTarget(s.reps, tid) && s.reps[tid.rep].state == Cutover && tid in s.targets && IsImporting(s.targets[tid])
  }

  /** Every other target stays as it is. */
  ghost predicate OthersStay(s: System, s': System, tid: TargetId) {
    forall o :: o in s.targets && o != tid ==> o in s'.targets && s'.targets[o] == s.targets[o]
  }

  lemma PullStep(c: Config, s: System, tid: TargetId) returns (s': System)
    requires Reachable(c, s) && Importable(s, tid)
    ensures KeepsRest(c, s, s', tid.rep) && s'.reps == s.reps && s'.targets == s.targets && PullRequest(tid, s.targets[tid].cursor) in s'.net
  {
    Step(c, s, SendPull(tid));
    s' := Next(c, s, SendPull(tid));
    hide Reachable, Leads;
  }

  lemma ServeStep(c: Config, s: System, tid: TargetId) returns (s': System, body: Body)
    requires Reachable(c, s) && Importable(s, tid) && PullRequest(tid, s.targets[tid].cursor) in s.net
    ensures KeepsRest(c, s, s', tid.rep) && s'.reps == s.reps && s'.targets == s.targets
    ensures Page(tid, s.targets[tid].cursor, body, EndOfStream(s.targets[tid].cursor)) in s'.net
  {
    var cursor := s.targets[tid].cursor;
    Step(c, s, ServePage(tid, cursor, EndOfStream(cursor)));
    s' := Next(c, s, ServePage(tid, cursor, EndOfStream(cursor)));
    body := BuildBody(c, s, tid, cursor, EndOfStream(cursor));
    hide Reachable, Leads, BuildBody;
  }

  lemma ApplyStep(c: Config, s: System, tid: TargetId, body: Body) returns (s': System)
    requires Reachable(c, s) && Importable(s, tid) && Page(tid, s.targets[tid].cursor, body, EndOfStream(s.targets[tid].cursor)) in s.net
    ensures KeepsRest(c, s, s', tid.rep) && s'.reps == s.reps && OthersStay(s, s', tid) && tid in s'.targets
    ensures if EndOfStream(s.targets[tid].cursor).None? then s'.targets[tid].state == Imported
            else IsImporting(s'.targets[tid]) && s'.targets[tid].cursor == EndOfStream(s.targets[tid].cursor)
  {
    var cursor := s.targets[tid].cursor;
    var next := EndOfStream(cursor);
    SourceMessagesAreAccepted(c, s, tid, cursor, body, next, s.targets[tid].slice);
    Step(c, s, DeliverPage(tid, cursor, body, next));
    s' := Next(c, s, DeliverPage(tid, cursor, body, next));
    hide Reachable, Leads, PageIsAcceptable;
  }

  /** One page takes the rest of a stream. */
  lemma OneStream(c: Config, s: System, tid: TargetId) returns (s': System)
    requires Reachable(c, s) && Importable(s, tid)
    ensures KeepsRest(c, s, s', tid.rep) && s'.reps == s.reps && OthersStay(s, s', tid) && tid in s'.targets
    ensures s'.targets[tid].state == Imported || (IsImporting(s'.targets[tid]) && Stage(s'.targets[tid].cursor) < Stage(s.targets[tid].cursor))
  {
    hide Reachable, Leads, KeepsRest;
    var s1 := PullStep(c, s, tid);
    KeepsRestMeans(c, s, s1, tid.rep);
    var s2, body := ServeStep(c, s1, tid);
    KeepsRestMeans(c, s1, s2, tid.rep);
    s' := ApplyStep(c, s2, tid, body);
    KeepsOn(c, s, s1, s2, tid.rep);
    KeepsOn(c, s, s2, s', tid.rep);
  }

  /** An import of a source in cutover can be finished. */
  lemma {:induction false} ImportAll(c: Config, s: System, tid: TargetId) returns (s': System)
    requires Reachable(c, s) && Importable(s, tid)
    ensures KeepsRest(c, s, s', tid.rep) && s'.reps == s.reps && OthersStay(s, s', tid) && tid in s'.targets && s'.targets[tid].state == Imported
    decreases Stage(s.targets[tid].cursor)
  {
    hide Reachable, Leads, KeepsRest;
    var s1 := OneStream(c, s, tid);
    KeepsRestMeans(c, s, s1, tid.rep);
    if s1.targets[tid].state == Imported {
      s' := s1;
    } else {
      s' := ImportAll(c, s1, tid);
      KeepsOn(c, s, s1, s', tid.rep);
    }
  }

  // ─── acknowledgements and completion ────────────────────────────────────────

  lemma SendAckStep(c: Config, s: System, tid: TargetId) returns (s': System)
    requires Reachable(c, s) && IsTarget(s.reps, tid) && tid in s.targets && s.targets[tid].state == Imported
    ensures KeepsRest(c, s, s', tid.rep) && s'.reps == s.reps && s'.targets == s.targets && Ack(tid) in s'.net
  {
    Step(c, s, SendAck(tid));
    s' := Next(c, s, SendAck(tid));
    hide Reachable, Leads;
  }

  lemma DeliverAckStep(c: Config, s: System, tid: TargetId) returns (s': System)
    requires Reachable(c, s) && IsTarget(s.reps, tid) && CutOver(s.reps[tid.rep].state) && Ack(tid) in s.net
    ensures KeepsRest(c, s, s', tid.rep) && CutOver(s'.reps[tid.rep].state) && s'.targets == s.targets && AckOk(tid) in s'.net
  {
    Step(c, s, DeliverAck(tid));
    s' := Next(c, s, DeliverAck(tid));
    hide Reachable, Leads, AllAcknowledged;
  }

  lemma RecordAckStep(c: Config, s: System, tid: TargetId) returns (s': System)
    requires Reachable(c, s) && IsTarget(s.reps, tid) && tid in s.targets && s.targets[tid].state == Imported && AckOk(tid) in s.net
    ensures KeepsRest(c, s, s', tid.rep) && s'.reps == s.reps && OthersStay(s, s', tid) && tid in s'.targets && s'.targets[tid].state == Active
  {
    Step(c, s, RecordAckOk(tid));
    s' := Next(c, s, RecordAckOk(tid));
    hide Reachable, Leads;
  }

  lemma ImportedBecomesActive(c: Config, s: System, tid: TargetId) returns (s': System)
    requires Reachable(c, s) && IsTarget(s.reps, tid) && CutOver(s.reps[tid.rep].state) && tid in s.targets && s.targets[tid].state == Imported
    ensures KeepsRest(c, s, s', tid.rep) && CutOver(s'.reps[tid.rep].state) && OthersStay(s, s', tid) && tid in s'.targets && s'.targets[tid].state == Active
  {
    hide Reachable, Leads, KeepsRest;
    var s1 := SendAckStep(c, s, tid);
    KeepsRestMeans(c, s, s1, tid.rep);
    var s2 := DeliverAckStep(c, s1, tid);
    KeepsRestMeans(c, s1, s2, tid.rep);
    s' := RecordAckStep(c, s2, tid);
    KeepsRestMeans(c, s2, s', tid.rep);
    KeepsOn(c, s, s1, s2, tid.rep);
    KeepsOn(c, s, s2, s', tid.rep);
  }

  lemma ImportsAfterCutOver(c: Config, s: System, tid: TargetId)
    requires Reachable(c, s) && IsTarget(s.reps, tid) && CutOver(s.reps[tid.rep].state)
    ensures tid in s.targets && (IsImporting(s.targets[tid]) ==> s.reps[tid.rep].state == Cutover)
  {
    ReachableInv(c, s);
    hide Inv, Reachable;
    CutOverHasTargets(c, s, tid);
    if Finished(s.reps[tid.rep].state) {
      FinishedHasCopies(c, s, tid);
    }
  }

  /** A target of a source that cut over can become active. */
  lemma TargetBecomesActive(c: Config, s: System, tid: TargetId) returns (s': System)
    requires Reachable(c, s) && IsTarget(s.reps, tid) && CutOver(s.reps[tid.rep].state)
    ensures KeepsRest(c, s, s', tid.rep) && CutOver(s'.reps[tid.rep].state) && OthersStay(s, s', tid) && tid in s'.targets && s'.targets[tid].state == Active
  {
    hide Reachable, Leads, KeepsRest;
    ValidSplit(c, s);
    ImportsAfterCutOver(c, s, tid);
    s' := s;
    KeepsItself(c, s, tid.rep);
    if IsImporting(s'.targets[tid]) {
      s' := ImportAll(c, s', tid);
      KeepsRestMeans(c, s, s', tid.rep);
    }
    if s'.targets[tid].state == Imported {
      var s1 := ImportedBecomesActive(c, s', tid);
      KeepsRestMeans(c, s', s1, tid.rep);
      KeepsOn(c, s, s', s1, tid.rep);
      s' := s1;
    }
  }

  ghost predicate IsActive(s: System, tid: TargetId) {
    tid in s.targets && s.targets[tid].state == Active
  }

  lemma {:induction false} AllBecomeActive(c: Config, s: System, id: nat, n: nat) returns (s': System)
    requires Reachable(c, s) && id in s.reps && CutOver(s.reps[id].state) && n <= |s.reps[id].targets|
    ensures KeepsRest(c, s, s', id) && CutOver(s'.reps[id].state)
    ensures forall i :: 0 <= i < n ==> IsActive(s', TargetId(id, i))
    decreases n
  {
    hide Reachable, Leads, KeepsRest;
    ValidSplit(c, s);
    if n == 0 {
      s' := s;
      KeepsItself(c, s, id);
    } else {
      var s1 := AllBecomeActive(c, s, id, n - 1);
      KeepsRestMeans(c, s, s1, id);
      s' := TargetBecomesActive(c, s1, TargetId(id, n - 1));
      KeepsRestMeans(c, s1, s', id);
      KeepsOn(c, s, s1, s', id);
    }
  }

  /** With every target active, the last mark has completed the row. */
  lemma ActiveMeansFinished(c: Config, s: System, id: nat)
    requires Reachable(c, s) && id in s.reps && CutOver(s.reps[id].state)
    requires forall i :: 0 <= i < |s.reps[id].targets| ==> IsActive(s, TargetId(id, i))
    ensures Finished(s.reps[id].state)
  {
    hide Inv, Reachable;
    ReachableAcks(c, s);
    forall i | 0 <= i < |s.reps[id].targets| ensures s.reps[id].targets[i].acknowledged {
      assert IsActive(s, TargetId(id, i)) && TargetAcksInv(s, TargetId(id, i)) && IsAcknowledged(s.reps, TargetId(id, i));
    }
    assert WaitsForTarget(s.reps[id]);
  }

  lemma PlanStep(c: Config, s: System, id: nat) returns (s': System)
    requires Reachable(c, s) && id in s.reps && s.reps[id].state == Queued && s.reps[id].kind != RangeSplit
    ensures c.topology.hashSplitN >= 1 && Reachable(c, s') && Leads(c, s, s') && id in s'.reps
    ensures s'.reps[id].state == Planned && s'.reps[id].kind == s.reps[id].kind
  {
    ReachableInv(c, s);
    RepsHold(c, s);
    assert RepartitionOk(c, s.reps[id]);
    hide Inv, RepsInv, RepartitionOk;
    Step(c, s, Plan(id, []));
    s' := Next(c, s, Plan(id, []));
    hide Reachable, Leads;
  }

  lemma CleanStep(c: Config, s: System, id: nat) returns (s': System)
    requires Reachable(c, s) && id in s.reps && s.reps[id].state == Completed
    ensures KeepsRest(c, s, s', id) && s'.reps[id].state == Cleaned && s'.targets == s.targets
  {
    var reclaimed := set k | k in s.rows && Reclaimable(c, s.reps[id].kind, k);
    Step(c, s, CleanUp(id, reclaimed, true));
    s' := Next(c, s, CleanUp(id, reclaimed, true));
    hide Reachable, Leads;
  }

  lemma CutOverToCleaned(c: Config, s: System, id: nat) returns (s': System)
    requires Reachable(c, s) && id in s.reps && CutOver(s.reps[id].state)
    ensures KeepsRest(c, s, s', id) && s'.reps[id].state == Cleaned
    ensures forall i :: 0 <= i < |s'.reps[id].targets| ==> IsActive(s', TargetId(id, i))
  {
    hide Reachable, Leads, KeepsRest;
    s' := AllBecomeActive(c, s, id, |s.reps[id].targets|);
    KeepsRestMeans(c, s, s', id);
    ActiveMeansFinished(c, s', id);
    if s'.reps[id].state == Completed {
      var s1 := CleanStep(c, s', id);
      KeepsRestMeans(c, s', s1, id);
      KeepsOn(c, s, s', s1, id);
      s' := s1;
    }
  }

  /**
   * No repartition is stuck. From every reachable state a planned repartition, or a queued one that needs no
   * boundaries of the host, can be completed and cleaned, with every target active.
   */
  lemma CanAlwaysComplete(c: Config, s: System, id: nat) returns (s': System)
    requires Reachable(c, s) && id in s.reps && (s.reps[id].state == Queued ==> s.reps[id].kind != RangeSplit)
    ensures c.topology.hashSplitN >= 1 && Reachable(c, s') && Leads(c, s, s')
    ensures id in s'.reps && s'.reps[id].kind == s.reps[id].kind && s'.reps[id].state == Cleaned && |s'.reps[id].targets| > 0
    ensures forall i :: 0 <= i < |s'.reps[id].targets| ==> IsActive(s', TargetId(id, i))
  {
    hide Reachable, Leads, KeepsRest;
    ValidSplit(c, s);
    LeadsNowhere(c, s);
    s' := s;
    if s'.reps[id].state == Queued {
      s' := PlanStep(c, s', id);
    }
    PlannedHasTargets(c, s', id);
    if s'.reps[id].state == Planned {
      var s1 := InitAll(c, s', id, |s'.reps[id].targets|);
      KeepsRestMeans(c, s', s1, id);
      var s2 := CutOverStep(c, s1, id);
      KeepsRestMeans(c, s1, s2, id);
      LeadsOn(c, s, s', s1);
      LeadsOn(c, s, s1, s2);
      s' := s2;
    }
    var s3 := CutOverToCleaned(c, s', id);
    KeepsRestMeans(c, s', s3, id);
    LeadsOn(c, s, s', s3);
    s' := s3;
  }
}
