/** The safety claims of splits, promotions and migration, over every run of one source and its targets. */
module OnlineMigration {
  import opened Bytes
  import opened KeyCodec
  import opened RoutingHash
  import opened RepartitionSlices
  import opened RepartitionSystem
  import opened RepartitionSafety
  import opened RepartitionSteps

  lemma {:induction false} RunKeeps(c: Config, s: System, actions: seq<Action>)
    requires c.topology.hashSplitN >= 1 && ValidConfig(c) && Inv(c, s)
    ensures Inv(c, Run(c, s, actions))
    decreases |actions|
  {
    hide Inv, Next;
    if actions != [] {
      NextKeeps(c, s, actions[0]);
      RunKeeps(c, Next(c, s, actions[0]), actions[1..]);
    }
  }

  ghost predicate Reachable(c: Config, s: System) {
    ValidConfig(c) && exists s0, actions :: Initial(c, s0) && s == Run(c, s0, actions)
  }

  lemma ReachableInv(c: Config, s: System)
    requires Reachable(c, s)
    ensures Inv(c, s)
  {
    hide Inv, Run, Initial;
    var s0, actions :| Initial(c, s0) && s == Run(c, s0, actions);
    InitialInv(c, s0);
    RunKeeps(c, s0, actions);
  }

  // ─── ownership ──────────────────────────────────────────────────────────────

  /** Each key of the source has exactly one owner: the source before its cutover, and exactly one target after it. */
  lemma ExactlyOneOwner(c: Config, s: System, key: ItemKey)
    requires Reachable(c, s) && InScope(c, key) && HashOf(c, key) !in c.adopted
    ensures SourceServes(c, s.reps, key) <==> forall tid :: !OwnsAt(c, s.reps, tid, key)
    ensures forall a, b :: OwnsAt(c, s.reps, a, key) && OwnsAt(c, s.reps, b, key) ==> a == b
  {
    ReachableInv(c, s);
    hide Inv, OwnsAt, SourceServes, Reachable;
    assert RepsInv(c, s.reps) by { RepsHold(c, s); }
    hide RepsInv;
    var owner := OwnerExists(c, s.reps, key);
    forall a, b | OwnsAt(c, s.reps, a, key) && OwnsAt(c, s.reps, b, key) ensures a == b {
      OwnersAreDisjoint(c, s.reps, a, b, key);
    }
    forall tid | OwnsAt(c, s.reps, tid, key) ensures !SourceServes(c, s.reps, key) {
      OwnersAreDisjoint(c, s.reps, tid, tid, key);
    }
  }

  lemma RepsHold(c: Config, s: System)
    requires c.topology.hashSplitN >= 1 && Inv(c, s)
    ensures RepsInv(c, s.reps)
  {
  }

  /** The slices of a plan are disjoint and cover what it moves, and each target imports the slice that the source stored. */
  lemma SlicesTile(c: Config, s: System, id: nat)
    requires Reachable(c, s) && id in s.reps && !s.reps[id].state.Queued?
    ensures Tiles(c, s.reps[id].kind, Slices(s.reps[id]))
    ensures forall tid :: tid in s.targets && tid.rep == id ==> IsTarget(s.reps, tid) && s.targets[tid].slice == TargetSlice(s.reps, tid)
  {
    ReachableInv(c, s);
    hide Reachable, Tiles, SourceData, OwnedData, NetInv, MarksInv;
    assert RepartitionOk(c, s.reps[id]);
    forall tid | tid in s.targets && tid.rep == id
      ensures IsTarget(s.reps, tid) && s.targets[tid].slice == TargetSlice(s.reps, tid)
    {
      TargetInvHolds(c, s, tid);
    }
  }

  /** No split is beside an unfinished promotion, and no hash is promoted twice. */
  lemma ArbitrationHolds(c: Config, s: System, a: nat, b: nat)
    requires Reachable(c, s) && a in s.reps && b in s.reps
    ensures IsSplit(s.reps[a].kind) && s.reps[b].kind.KeyPromotion? ==> Finished(s.reps[b].state)
    ensures IsSplit(s.reps[a].kind) && IsSplit(s.reps[b].kind) ==> a == b
    ensures s.reps[a].kind.KeyPromotion? && s.reps[a].kind == s.reps[b].kind ==> a == b
    ensures s.reps[a].kind.KeyPromotion? ==> s.reps[a].kind.promoted !in c.adopted
  {
    ReachableInv(c, s);
    hide Reachable, Tiles, SourceData, OwnedData, NetInv, MarksInv, TargetsInv;
    assert RepartitionOk(c, s.reps[a]) && RepartitionOk(c, s.reps[b]);
  }

  // ─── no row lost ────────────────────────────────────────────────────────────

  /** A partition that accepts a request for a row is its owner and holds its value in the table. */
  lemma ServedRowIsTheTable(c: Config, s: System, k: RowKey)
    requires Reachable(c, s)
    ensures SourceServes(c, s.reps, k.key) ==> Get(s.rows, k) == Get(s.table, k)
    ensures forall tid :: tid in s.targets && TargetServes(c, s.targets[tid], k.key) ==>
              OwnsAt(c, s.reps, tid, k.key) && Get(s.targets[tid].rows, k) == Get(s.table, k)
  {
    ReachableInv(c, s);
    hide Reachable, RepsInv, NetInv, MarksInv, TargetsInv, OwnsAt, SourceServes, TargetServes;
    assert SourceServes(c, s.reps, k.key) ==> Get(s.rows, k) == Get(s.table, k);
    forall tid | tid in s.targets && TargetServes(c, s.targets[tid], k.key)
      ensures OwnsAt(c, s.reps, tid, k.key) && Get(s.targets[tid].rows, k) == Get(s.table, k)
    {
      ServingTargetOwns(c, s, tid, k.key);
      OwnsAtIsTarget(c, s.reps, tid, k.key);
      assert OwnedRow(s, tid, k);
    }
  }

  /** A finished repartition has only complete targets. */
  lemma FinishedHasCopies(c: Config, s: System, tid: TargetId)
    requires c.topology.hashSplitN >= 1 && Inv(c, s) && IsTarget(s.reps, tid) && Finished(s.reps[tid.rep].state)
    ensures HasCopy(s, tid)
  {
    hide Tiles, SourceData, OwnedData, NetInv, TargetsInv;
    assert RepartitionOk(c, s.reps[tid.rep]);
    assert MarkOk(s, tid, s.reps[tid.rep].targets[tid.index]);
  }

  lemma CutOverHasTargets(c: Config, s: System, tid: TargetId)
    requires c.topology.hashSplitN >= 1 && Inv(c, s) && IsTarget(s.reps, tid) && CutOver(s.reps[tid.rep].state)
    ensures tid in s.targets
  {
    hide Tiles, SourceData, OwnedData, NetInv, TargetsInv;
    assert RepartitionOk(c, s.reps[tid.rep]);
    assert MarkOk(s, tid, s.reps[tid.rep].targets[tid.index]);
  }

  /**
   * Every row can be read. The owner has the value of the table, or it is a target that still imports:
   * then its source has not finished, so it refuses no read of the slice, and its rows are the table.
   */
  lemma EveryRowIsReadable(c: Config, s: System, k: RowKey)
    requires Reachable(c, s) && InScope(c, k.key) && HashOf(c, k.key) !in c.adopted
    ensures (SourceServes(c, s.reps, k.key) && Get(s.rows, k) == Get(s.table, k))
            || exists tid :: tid in s.targets && OwnsAt(c, s.reps, tid, k.key) &&
                 if IsImporting(s.targets[tid]) then s.reps[tid.rep].state.Cutover? && Get(s.rows, k) == Get(s.table, k)
                 else TargetServes(c, s.targets[tid], k.key) && Get(s.targets[tid].rows, k) == Get(s.table, k)
  {
    ReachableInv(c, s);
    hide Reachable, Inv, OwnsAt, SourceServes, TargetServes;
    ServedRowIsTheTable(c, s, k);
    if !SourceServes(c, s.reps, k.key) {
      assert RepsInv(c, s.reps) by { RepsHold(c, s); }
      var tid := OwnerExists(c, s.reps, k.key);
      OwnsAtIsTarget(c, s.reps, tid, k.key);
      CutOverHasTargets(c, s, tid);
      OwnerAnswers(c, s, tid, k);
    }
  }

  lemma OwnerAnswers(c: Config, s: System, tid: TargetId, k: RowKey)
    requires c.topology.hashSplitN >= 1 && Inv(c, s) && OwnsAt(c, s.reps, tid, k.key) && tid in s.targets
    ensures IsImporting(s.targets[tid]) ==> s.reps[tid.rep].state.Cutover? && Get(s.rows, k) == Get(s.table, k)
    ensures !IsImporting(s.targets[tid]) ==> TargetServes(c, s.targets[tid], k.key) && Get(s.targets[tid].rows, k) == Get(s.table, k)
  {
    hide RepsInv, NetInv, MarksInv, SourceData, CompleteCopy, CopySoFar;
    if Finished(s.reps[tid.rep].state) {
      FinishedHasCopies(c, s, tid);
    }
    assert OwnedRow(s, tid, k);
    TargetInvHolds(c, s, tid);
    if !IsImporting(s.targets[tid]) {
      AdoptedIsNotOwned(c, s, tid, k.key);
    }
  }

  lemma AdoptedIsNotOwned(c: Config, s: System, tid: TargetId, key: ItemKey)
    requires c.topology.hashSplitN >= 1 && tid in s.targets && TargetInv(c, s, tid, s.targets[tid]) && HasCopy(s, tid)
    requires OwnsAt(c, s.reps, tid, key)
    ensures HashOf(c, key) !in s.targets[tid].overrides
  {
    TerminalIsInHashes(c, s.reps, HashOf(c, key));
  }

  // ─── imports ────────────────────────────────────────────────────────────────

  /** A target that reaches `imported` holds exactly the rows of its slice as of the cutover. */
  lemma ImportedIsTheSlice(c: Config, s: System, a: Action, tid: TargetId)
    requires Reachable(c, s) && tid in s.targets && IsImporting(s.targets[tid])
    requires tid in Next(c, s, a).targets && !IsImporting(Next(c, s, a).targets[tid])
    ensures tid.rep in s.snaps
    ensures forall k: RowKey :: Get(Next(c, s, a).targets[tid].rows, k) == if OwnsAt(c, s.reps, tid, k.key) then Get(s.snaps[tid.rep], k) else None
    ensures forall h :: h in Next(c, s, a).targets[tid].overrides <==> IsTarget(s.reps, tid) && Adopts(c, s.reps, tid, h)
  {
    ReachableInv(c, s);
    hide Reachable, Inv;
    OnlyPagesImport(c, s, a, tid);
    var t := s.targets[tid];
    MessageHolds(c, s, Page(tid, t.cursor, a.body, a.next));
    LastPageFacts(c, s, tid, t, a.body);
  }

  lemma OnlyPagesImport(c: Config, s: System, a: Action, tid: TargetId)
    requires c.topology.hashSplitN >= 1 && tid in s.targets && IsImporting(s.targets[tid])
    requires tid in Next(c, s, a).targets && !IsImporting(Next(c, s, a).targets[tid])
    ensures a.DeliverPage? && a.tid == tid && a.next == None && a.cursor == s.targets[tid].cursor
    ensures Page(tid, s.targets[tid].cursor, a.body, None) in s.net
    ensures Next(c, s, a).targets[tid] == ApplyPage(s.targets[tid], s.targets[tid].cursor, a.body, None)
  {
    hide PageIsAcceptable, BuildBody, PlanRow, StartInit, RecordInit, CutOverRow, AcceptAck, CleanUpRow, SourceServes, TargetServes, CanQueue, KindFits,
         PageEndFits, Reclaimable, AllInitialized;
  }

  lemma LastPageFacts(c: Config, s: System, tid: TargetId, t: Target, body: Body)
    requires c.topology.hashSplitN >= 1 && Inv(c, s) && tid in s.targets && t == s.targets[tid] && IsImporting(t)
    requires PageInv(c, s, tid, t.cursor, body, None)
    ensures tid.rep in s.snaps && IsTarget(s.reps, tid)
    ensures forall k: RowKey :: Get(ApplyPage(t, t.cursor, body, None).rows, k) == if OwnsAt(c, s.reps, tid, k.key) then Get(s.snaps[tid.rep], k) else None
    ensures forall h :: h in ApplyPage(t, t.cursor, body, None).overrides <==> Adopts(c, s.reps, tid, h)
  {
    hide OwnsAt, Adopts, RepsInv, NetInv, MarksInv, SourceData, OwnedData, PageInv, ApplyPage;
    TargetInvHolds(c, s, tid);
    PageIsAfterCutOver(c, s, tid, t.cursor, body, None);
    LastPageCompletesCopy(c, s, tid, t, body);
  }

  function ImportRank(s: ImportState): nat {
    match s
    case AwaitingData => 0
    case Importing => 1
    case Imported => 2
    case Active => 3
  }

  /** The states of the source rows and of the imports only move forward, and a plan and a slice never change. */
  lemma StatesMoveForward(c: Config, s: System, a: Action, id: nat, tid: TargetId)
    requires Reachable(c, s)
    ensures id in s.reps ==> id in Next(c, s, a).reps && Next(c, s, a).reps[id].kind == s.reps[id].kind
    ensures id in s.reps ==> Rank(Next(c, s, a).reps[id].state) >= Rank(s.reps[id].state)
    ensures tid in s.targets ==> tid in Next(c, s, a).targets && Next(c, s, a).targets[tid].slice == s.targets[tid].slice
    ensures tid in s.targets ==> ImportRank(Next(c, s, a).targets[tid].state) >= ImportRank(s.targets[tid].state)
  {
    ReachableInv(c, s);
    if tid in s.targets {
      TargetInvHolds(c, s, tid);
      CursorMeansImporting(c, s, tid);
    }
    hide Reachable, Inv;
    if id in s.reps {
      SourceMovesForward(c, s, a, id);
    }
    if tid in s.targets {
      TargetMovesForward(c, s, a, tid);
    }
  }

  lemma CursorMeansImporting(c: Config, s: System, tid: TargetId)
    requires c.topology.hashSplitN >= 1 && tid in s.targets && TargetInv(c, s, tid, s.targets[tid])
    ensures s.targets[tid].cursor.Some? <==> s.targets[tid].state.Importing?
  {
  }

  lemma SourceMovesForward(c: Config, s: System, a: Action, id: nat)
    requires c.topology.hashSplitN >= 1 && id in s.reps
    ensures id in Next(c, s, a).reps && Next(c, s, a).reps[id].kind == s.reps[id].kind
    ensures Rank(Next(c, s, a).reps[id].state) >= Rank(s.reps[id].state)
  {
    hide PageIsAcceptable, BuildBody, PlanSlices, SourceServes, TargetServes, CanQueue, KindFits,
         PageEndFits, Reclaimable, AllInitialized, ApplyPage, PlannedTargets, AllAcknowledged;
  }

  lemma TargetMovesForward(c: Config, s: System, a: Action, tid: TargetId)
    requires c.topology.hashSplitN >= 1 && tid in s.targets
    ensures tid in Next(c, s, a).targets && Next(c, s, a).targets[tid].slice == s.targets[tid].slice
    ensures ImportRank(Next(c, s, a).targets[tid].state) >= ImportRank(s.targets[tid].state)
  {
    hide PageIsAcceptable, BuildBody, PlanRow, StartInit, RecordInit, CutOverRow, AcceptAck, CleanUpRow, SourceServes, TargetServes, CanQueue, KindFits,
         PageEndFits, Reclaimable, AllInitialized;
  }

  /** The source completes, and reclaims rows, only when every target of the repartition has its complete copy. */
  lemma CompletionMeansCopied(c: Config, s: System, id: nat, i: nat)
    requires Reachable(c, s) && id in s.reps && Finished(s.reps[id].state) && i < |s.reps[id].targets|
    ensures HasCopy(s, TargetId(id, i))
  {
    ReachableInv(c, s);
    FinishedHasCopies(c, s, TargetId(id, i));
  }

  lemma ReclaimNeedsCompletion(c: Config, s: System, a: Action, k: RowKey)
    requires Reachable(c, s) && a.CleanUp? && k in s.rows && k !in Next(c, s, a).rows
    ensures a.id in s.reps && forall i :: 0 <= i < |s.reps[a.id].targets| ==> HasCopy(s, TargetId(a.id, i))
    ensures !SourceServes(c, s.reps, k.key)
  {
    ReachableInv(c, s);
    assert a.id in s.reps && s.reps[a.id].state.Completed? && Reclaimable(c, s.reps[a.id].kind, k);
    hide Reachable;
    forall i | 0 <= i < |s.reps[a.id].targets| ensures HasCopy(s, TargetId(a.id, i)) {
      CompletionMeansCopied(c, s, a.id, i);
    }
    hide Inv;
    RepsHold(c, s);
    ReclaimedRowIsFree(c, s.reps, a.id, k);
  }

  // ─── pages ──────────────────────────────────────────────────────────────────

  predicate CursorLess(c: Config, a: Option<Cursor>, b: Option<Cursor>) {
    match (Requested(a), Requested(b))
    case (OverridesAt(x), OverridesAt(y)) => y.Some? && HashAfter(x, y.value)
    case (OverridesAt(_), HostAt(_)) => true
    case (HostAt(_), OverridesAt(_)) => false
    case (HostAt(p), HostAt(q)) => PositionLess(c, p, q)
  }

  /** The import has moved past the cursor. */
  predicate Beyond(c: Config, t: Target, cursor: Option<Cursor>) {
    !IsImporting(t) || CursorLess(c, cursor, t.cursor)
  }

  lemma CursorLessIsAnOrder(c: Config, a: Option<Cursor>, b: Option<Cursor>, d: Option<Cursor>)
    ensures !CursorLess(c, a, a)
    ensures CursorLess(c, a, b) && CursorLess(c, b, d) ==> CursorLess(c, a, d)
  {
    match (Requested(a), Requested(b), Requested(d)) {
      case (HostAt(p), HostAt(q), HostAt(r)) => PositionLessIsAnOrder(c, p, q, r);
      case (HostAt(p), _, _) => PositionLessIsAnOrder(c, p, p, p);
      case _ =>
    }
  }

  lemma PositionLessIsAnOrder(c: Config, p: Position, q: Position, r: Position)
    ensures !PositionLess(c, p, p)
    ensures PositionLess(c, p, q) && PositionLess(c, q, r) ==> PositionLess(c, p, r)
  {
    if p.After? {
      CompositeIsTotalOrder(p.row.key, p.row.key, p.row.key);
      if q.After? && r.After? && RowLess(c, p.row, q.row) && RowLess(c, q.row, r.row) {
        RowLessIsTransitive(c, p.row, q.row, r.row);
      }
    }
  }

  lemma PageEndIsLater(c: Config, r: Repartitions, tid: TargetId, cursor: Option<Cursor>, next: Option<Cursor>)
    requires IsTarget(r, tid) && PageEndFits(c, r, tid, cursor, next) && next.Some?
    ensures CursorLess(c, cursor, next)
  {
  }

  /** A step moves an import only past its cursor. */
  lemma CursorMovesForward(c: Config, s: System, a: Action, tid: TargetId, cursor: Option<Cursor>)
    requires c.topology.hashSplitN >= 1 && Inv(c, s) && tid in s.targets && Beyond(c, s.targets[tid], cursor)
    ensures tid in Next(c, s, a).targets && Beyond(c, Next(c, s, a).targets[tid], cursor)
  {
    TargetChangesByPage(c, s, a, tid);
    TargetMovesForward(c, s, a, tid);
    if Next(c, s, a).targets[tid].cursor != s.targets[tid].cursor {
      MessageHolds(c, s, Page(tid, s.targets[tid].cursor, a.body, a.next));
      if a.next.Some? {
        PageEndIsLater(c, s.reps, tid, s.targets[tid].cursor, a.next);
        CursorLessIsAnOrder(c, cursor, s.targets[tid].cursor, a.next);
      }
    }
  }

  lemma TargetChangesByPage(c: Config, s: System, a: Action, tid: TargetId)
    requires c.topology.hashSplitN >= 1 && tid in s.targets
    ensures tid in Next(c, s, a).targets
    ensures Next(c, s, a).targets[tid].cursor != s.targets[tid].cursor ==>
              && a.DeliverPage? && a.tid == tid && a.cursor == s.targets[tid].cursor && Page(tid, a.cursor, a.body, a.next) in s.net
              && Next(c, s, a).targets[tid] == ApplyPage(s.targets[tid], a.cursor, a.body, a.next)
    ensures IsImporting(Next(c, s, a).targets[tid]) ==> IsImporting(s.targets[tid])
  {
    hide PageIsAcceptable, BuildBody, PlanRow, StartInit, RecordInit, CutOverRow, AcceptAck, CleanUpRow, SourceServes, TargetServes, CanQueue, KindFits,
         PageEndFits, Reclaimable, AllInitialized;
  }

  lemma {:induction false} StaysBeyond(c: Config, s: System, actions: seq<Action>, tid: TargetId, cursor: Option<Cursor>)
    requires c.topology.hashSplitN >= 1 && ValidConfig(c) && Inv(c, s) && tid in s.targets && Beyond(c, s.targets[tid], cursor)
    ensures tid in Run(c, s, actions).targets && Beyond(c, Run(c, s, actions).targets[tid], cursor)
    decreases |actions|
  {
    hide Inv, Next, Beyond;
    if actions != [] {
      CursorMovesForward(c, s, actions[0], tid, cursor);
      NextKeeps(c, s, actions[0]);
      StaysBeyond(c, Next(c, s, actions[0]), actions[1..], tid, cursor);
    }
  }

  lemma PageMovesCursor(c: Config, s: System, tid: TargetId, cursor: Option<Cursor>, body: Body, next: Option<Cursor>)
    requires c.topology.hashSplitN >= 1 && Inv(c, s) && tid in s.targets && IsImporting(s.targets[tid]) && s.targets[tid].cursor == cursor
    requires Enabled(c, s, DeliverPage(tid, cursor, body, next))
    ensures var s' := Next(c, s, DeliverPage(tid, cursor, body, next)); tid in s'.targets && Beyond(c, s'.targets[tid], cursor)
  {
    MessageHolds(c, s, Page(tid, cursor, body, next));
    hide Inv, CursorLess;
    if next.Some? {
      PageEndIsLater(c, s.reps, tid, cursor, next);
    }
  }

  /**
   * A page that a target applied, or another page for the same cursor, never applies again, in no
   * continuation of the run. So no second run of the import brings back a row that was deleted.
   */
  lemma PageAppliesOnce(c: Config, s: System, tid: TargetId, cursor: Option<Cursor>, body: Body, next: Option<Cursor>, actions: seq<Action>,
                        body': Body, next': Option<Cursor>)
    requires Reachable(c, s) && tid in s.targets && IsImporting(s.targets[tid]) && s.targets[tid].cursor == cursor
    requires Enabled(c, s, DeliverPage(tid, cursor, body, next))
    ensures var later := Run(c, Next(c, s, DeliverPage(tid, cursor, body, next)), actions);
            tid in later.targets && ApplyPage(later.targets[tid], cursor, body', next') == later.targets[tid]
  {
    var a := DeliverPage(tid, cursor, body, next);
    ReachableInv(c, s);
    var s' := Next(c, s, a);
    PageMovesCursor(c, s, tid, cursor, body, next);
    NextKeeps(c, s, a);
    hide Reachable, Inv, Next, Enabled;
    StaysBeyond(c, s', actions, tid, cursor);
    CursorLessIsAnOrder(c, cursor, cursor, cursor);
  }

  /**
   * The checks of a target alone, for a page of any sender: an accepted page moves the cursor forward, adds
   * nothing outside the slice and nothing that the cursor has passed, takes no row away and replaces none.
   * A host page ends the import only from the last stream.
   */
  lemma AcceptedPageIsSafe(c: Config, t: Target, body: Body, next: Option<Cursor>)
    requires c.topology.hashSplitN >= 1 && IsImporting(t) && PageIsAcceptable(c, t.slice, t.cursor, body, next)
    ensures var t' := ApplyPage(t, t.cursor, body, next);
            && t'.cursor == next && t'.slice == t.slice
            && (next.Some? ==> CursorLess(c, t.cursor, next))
            && (next.None? && Requested(t.cursor).HostAt? ==> StreamOf(Requested(t.cursor).at) == Locks)
            && (forall h :: h in t'.overrides && h !in t.overrides ==> SliceHasHash(c, t.slice, h))
            && (forall k :: k in t'.rows && k !in t.rows ==> SliceHas(c, t.slice, k.key) && (k.stream == Items ==> !RowPassed(c, t.cursor, k)))
            && (forall k :: k in t.rows ==> k in t'.rows && t'.rows[k] == t.rows[k])
  {
    hide SliceHas, SliceHasHash, PositionLess, PositionPassed;
  }

  /** The checks of a target refuse no page and no init request of its source. */
  lemma SourceMessagesAreAccepted(c: Config, s: System, tid: TargetId, cursor: Option<Cursor>, body: Body, next: Option<Cursor>, slice: Slice)
    requires Reachable(c, s) && tid in s.targets
    ensures Page(tid, cursor, body, next) in s.net ==> PageIsAcceptable(c, s.targets[tid].slice, cursor, body, next)
    ensures InitRequest(tid, slice) in s.net ==> s.targets[tid].slice == slice
  {
    ReachableInv(c, s);
    hide Reachable, Inv;
    if InitRequest(tid, slice) in s.net {
      MessageHolds(c, s, InitRequest(tid, slice));
      TargetHasItsSlice(c, s, tid);
    }
    if Page(tid, cursor, body, next) in s.net {
      MessageHolds(c, s, Page(tid, cursor, body, next));
      TargetHasItsSlice(c, s, tid);
      PageRowsAreInSlice(c, s, tid, cursor, body, next);
    }
  }

  lemma TargetHasItsSlice(c: Config, s: System, tid: TargetId)
    requires c.topology.hashSplitN >= 1 && Inv(c, s) && tid in s.targets
    ensures IsTarget(s.reps, tid) && s.targets[tid].slice == TargetSlice(s.reps, tid)
  {
    TargetInvHolds(c, s, tid);
  }

  lemma PageRowsAreInSlice(c: Config, s: System, tid: TargetId, cursor: Option<Cursor>, body: Body, next: Option<Cursor>)
    requires c.topology.hashSplitN >= 1 && PageInv(c, s, tid, cursor, body, next)
    ensures PageIsAcceptable(c, TargetSlice(s.reps, tid), cursor, body, next)
  {
    if body.Host? {
      forall k | k in body.rows
        ensures SliceHas(c, TargetSlice(s.reps, tid), k.key) && PageHasRow(c, cursor, next, k)
      {
        assert CopiedRow(c, s, tid, body.rows, PageHasRow(c, cursor, next, k), k);
      }
    }
  }
}
