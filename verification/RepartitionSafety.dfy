/** What every reachable state of a repartition keeps. */
module RepartitionSafety {
  import opened Bytes
  import opened RoutingHash
  import opened RepartitionSlices
  import opened RepartitionSystem

  // ─── rows and arbitration ───────────────────────────────────────────────────

  function Slices(rep: Repartition): seq<Slice> {
    seq(|rep.targets|, i requires 0 <= i < |rep.targets| => rep.targets[i].slice)
  }

  ghost predicate RepartitionOk(c: Config, rep: Repartition)
    requires c.topology.hashSplitN >= 1
  {
    && KindFits(c, rep.kind)
    && (if rep.state.Queued? then rep.targets == [] else Tiles(c, rep.kind, Slices(rep)))
    && (CutOver(rep.state) ==> AllInitialized(rep))
    && (Finished(rep.state) ==> AllAcknowledged(rep))
  }

  /** One split at most, one promotion of a hash, and no split beside an unfinished promotion. */
  ghost predicate Arbitrated(c: Config, r: Repartitions) {
    && (forall a, b :: a in r && b in r && IsSplit(r[a].kind) && IsSplit(r[b].kind) ==> a == b)
    && (forall a, b :: a in r && b in r && r[a].kind.KeyPromotion? && r[a].kind == r[b].kind ==> a == b)
    && (forall a :: a in r && r[a].kind.KeyPromotion? ==> r[a].kind.promoted !in c.adopted)
    && (forall a, b :: a in r && b in r && r[a].kind.HashSplit? && r[b].kind.KeyPromotion? ==> Finished(r[b].state))
  }

  ghost predicate RepsInv(c: Config, r: Repartitions)
    requires c.topology.hashSplitN >= 1
  {
    (forall id :: id in r ==> RepartitionOk(c, r[id])) && Arbitrated(c, r)
  }

  // ─── ownership ──────────────────────────────────────────────────────────────

  /** The target that the source names as the owner of the key. */
  ghost predicate OwnsAt(c: Config, r: Repartitions, tid: TargetId, key: ItemKey)
    requires c.topology.hashSplitN >= 1
  {
    IsTarget(r, tid) && CutOver(r[tid.rep].state) && InScope(c, key) && Belongs(c, r, tid, key)
  }

  lemma SliceAt(c: Config, r: Repartitions, tid: TargetId)
    requires c.topology.hashSplitN >= 1 && RepsInv(c, r) && IsTarget(r, tid)
    ensures Tiles(c, r[tid.rep].kind, Slices(r[tid.rep])) && Slices(r[tid.rep])[tid.index] == TargetSlice(r, tid)
  {
    assert RepartitionOk(c, r[tid.rep]);
  }

  /** A promotion that has cut over gives its key to its one target. */
  lemma PromotionOwns(c: Config, r: Repartitions, tid: TargetId, key: ItemKey)
    requires c.topology.hashSplitN >= 1 && RepsInv(c, r) && IsTarget(r, tid) && r[tid.rep].kind.KeyPromotion?
    ensures tid.index == 0 && (SliceHas(c, TargetSlice(r, tid), key) <==> HashOf(c, key) == r[tid.rep].kind.promoted)
  {
    SliceAt(c, r, tid);
    assert |Slices(r[tid.rep])| == 1;
  }

  /** No two targets own one key, and the source serves no key that a target owns. */
  lemma OwnersAreDisjoint(c: Config, r: Repartitions, tid: TargetId, other: TargetId, key: ItemKey)
    requires c.topology.hashSplitN >= 1 && RepsInv(c, r) && OwnsAt(c, r, tid, key)
    ensures OwnsAt(c, r, other, key) ==> other == tid
    ensures !SourceServes(c, r, key)
  {
    SliceAt(c, r, tid);
    if r[tid.rep].kind.KeyPromotion? {
      PromotionOwns(c, r, tid, key);
      assert IsPromotionOf(r[tid.rep], HashOf(c, key));
    }
    if OwnsAt(c, r, other, key) {
      SliceAt(c, r, other);
      if r[other.rep].kind.KeyPromotion? {
        PromotionOwns(c, r, other, key);
        assert IsPromotionOf(r[other.rep], HashOf(c, key));
      }
      assert tid.rep == other.rep by {
        assert RepartitionOk(c, r[tid.rep]) && RepartitionOk(c, r[other.rep]);
      }
      assert tid.index == other.index by {
        var slices := Slices(r[tid.rep]);
        assert SliceHas(c, slices[tid.index], key) && SliceHas(c, slices[other.index], key);
      }
    }
  }

  /** Every key of the scope that was not promoted before has an owner. */
  lemma OwnerExists(c: Config, r: Repartitions, key: ItemKey)
    returns (tid: TargetId)
    requires c.topology.hashSplitN >= 1 && RepsInv(c, r) && InScope(c, key) && HashOf(c, key) !in c.adopted
    ensures SourceServes(c, r, key) || OwnsAt(c, r, tid, key)
  {
    var h := HashOf(c, key);
    if OwnedByRangeTree(c, r, h) {
      var id :| id in r && IsPromotionOf(r[id], h) && CutOver(r[id].state);
      tid := TargetId(id, 0);
      assert RepartitionOk(c, r[id]);
      SliceAt(c, r, tid);
      assert SliceHas(c, Slices(r[id])[0], key);
    } else if RouterRole(r) {
      var id :| id in r && IsSplit(r[id].kind) && CutOver(r[id].state);
      assert RepartitionOk(c, r[id]) && Moves(c, r[id].kind, key);
      var i :| 0 <= i < |Slices(r[id])| && SliceHas(c, Slices(r[id])[i], key);
      tid := TargetId(id, i);
      assert !HasTerminalOverride(c, r, h);
    } else {
      tid := TargetId(0, 0);
    }
  }

  // ─── data ───────────────────────────────────────────────────────────────────

  ghost predicate SourceData(c: Config, s: System)
    requires c.topology.hashSplitN >= 1
  {
    && (forall k :: k in s.rows ==> InScope(c, k.key))
    && (forall k: RowKey {:trigger Get(s.rows, k)} :: SourceServes(c, s.reps, k.key) ==> Get(s.rows, k) == Get(s.table, k))
  }

  ghost predicate SnapsInv(s: System) {
    forall id :: id in s.snaps <==> id in s.reps && CutOver(s.reps[id].state)
  }

  ghost predicate HasCopy(s: System, tid: TargetId) {
    tid in s.targets && !IsImporting(s.targets[tid])
  }

  /** What holds for a row that the target owns: the copy is the table, or the table is still the rows of the cutover. */
  ghost predicate OwnedRow(s: System, tid: TargetId, k: RowKey)
    requires tid.rep in s.reps
  {
    && tid.rep in s.snaps
    && (if HasCopy(s, tid) then Get(s.targets[tid].rows, k) == Get(s.table, k) else Get(s.snaps[tid.rep], k) == Get(s.table, k))
    && (s.reps[tid.rep].state.Cutover? ==> Get(s.rows, k) == Get(s.snaps[tid.rep], k))
  }

  ghost predicate OwnedData(c: Config, s: System)
    requires c.topology.hashSplitN >= 1
  {
    forall tid: TargetId, k: RowKey {:trigger OwnedRow(s, tid, k)} :: OwnsAt(c, s.reps, tid, k.key) ==> OwnedRow(s, tid, k)
  }

  /** The part of the rows of the cutover that the target owns and the cursor has passed. */
  ghost predicate CopiedRow(c: Config, s: System, tid: TargetId, rows: Rows, passed: bool, k: RowKey)
    requires c.topology.hashSplitN >= 1
  {
    Get(rows, k) == if OwnsAt(c, s.reps, tid, k.key) && tid.rep in s.snaps && passed then Get(s.snaps[tid.rep], k) else None
  }

  ghost predicate CopySoFar(c: Config, s: System, tid: TargetId, t: Target)
    requires c.topology.hashSplitN >= 1 && IsTarget(s.reps, tid)
  {
    && (forall k :: CopiedRow(c, s, tid, t.rows, RowPassed(c, t.cursor, k), k))
    && (forall h :: h in t.overrides <==> Adopts(c, s.reps, tid, h) && HashPassed(t.cursor, h))
  }

  ghost predicate CompleteCopy(c: Config, s: System, tid: TargetId, t: Target)
    requires c.topology.hashSplitN >= 1 && IsTarget(s.reps, tid)
  {
    && (forall k :: k in t.rows ==> OwnsAt(c, s.reps, tid, k.key))
    && (forall h :: h in t.overrides <==> Adopts(c, s.reps, tid, h))
  }

  ghost predicate TargetInv(c: Config, s: System, tid: TargetId, t: Target)
    requires c.topology.hashSplitN >= 1
  {
    && IsTarget(s.reps, tid) && t.slice == TargetSlice(s.reps, tid)
    && (t.cursor.Some? <==> t.state.Importing?)
    && (!t.state.AwaitingData? ==> CutOver(s.reps[tid.rep].state))
    && (if IsImporting(t) then CopySoFar(c, s, tid, t) else CompleteCopy(c, s, tid, t))
  }

  ghost predicate TargetsInv(c: Config, s: System)
    requires c.topology.hashSplitN >= 1
  {
    forall tid :: tid in s.targets ==> TargetInv(c, s, tid, s.targets[tid])
  }

  /** What a stored mark of the source says of its target. */
  ghost predicate MarksInv(s: System) {
    forall tid :: IsTarget(s.reps, tid) ==> MarkOk(s, tid, s.reps[tid.rep].targets[tid.index])
  }

  ghost predicate MarkOk(s: System, tid: TargetId, mark: TargetRow) {
    && (mark.initialization.Initialized? ==> tid in s.targets)
    && (mark.acknowledged ==> HasCopy(s, tid))
  }

  // ─── messages ───────────────────────────────────────────────────────────────

  /** A page holds exactly what the target owns between its two cursors, as of the cutover. */
  ghost predicate PageInv(c: Config, s: System, tid: TargetId, cursor: Option<Cursor>, body: Body, next: Option<Cursor>)
    requires c.topology.hashSplitN >= 1
  {
    && IsTarget(s.reps, tid) && CutOver(s.reps[tid.rep].state)
    && PageEndFits(c, s.reps, tid, cursor, next)
    && (match Requested(cursor)
        case OverridesAt(_) => body.Overrides? && forall h :: h in body.hashes <==> Adopts(c, s.reps, tid, h) && !HashPassed(cursor, h) && HashPassed(next, h)
        case HostAt(_) => body.Host? && forall k :: CopiedRow(c, s, tid, body.rows, PageHasRow(c, cursor, next, k), k))
  }

  predicate PageHasRow(c: Config, cursor: Option<Cursor>, next: Option<Cursor>, k: RowKey) {
    !RowPassed(c, cursor, k) && (next.Some? ==> RowPassed(c, next, k))
  }

  ghost predicate MessageInv(c: Config, s: System, m: Message)
    requires c.topology.hashSplitN >= 1
  {
    match m
    case InitRequest(tid, slice) => IsTarget(s.reps, tid) && slice == TargetSlice(s.reps, tid)
    case InitOk(tid) => tid in s.targets
    case PullRequest(tid, cursor) => tid in s.targets
    case Page(tid, cursor, body, next) => PageInv(c, s, tid, cursor, body, next)
    case Ack(tid) => HasCopy(s, tid)
    case AckOk(tid) => HasCopy(s, tid)
  }

  ghost predicate NetInv(c: Config, s: System)
    requires c.topology.hashSplitN >= 1
  {
    forall m :: m in s.net ==> MessageInv(c, s, m)
  }

  ghost predicate Inv(c: Config, s: System)
    requires c.topology.hashSplitN >= 1
  {
    && RepsInv(c, s.reps) && SnapsInv(s) && SourceData(c, s) && OwnedData(c, s)
    && TargetsInv(c, s) && MarksInv(s) && NetInv(c, s)
  }

  lemma InitialInv(c: Config, s: System)
    requires c.topology.hashSplitN >= 1 && Initial(c, s)
    ensures Inv(c, s)
  {
  }

  // ─── steps of the source rows ───────────────────────────────────────────────

  /** A change of the rows that gives nothing away: ownership, slices and adopted promotions stay. */
  ghost predicate SameOwnership(c: Config, r: Repartitions, r': Repartitions)
    requires c.topology.hashSplitN >= 1
  {
    && (forall id :: id in r ==> id in r' && (CutOver(r'[id].state) <==> CutOver(r[id].state)))
    && (forall id :: id in r' && id !in r ==> !CutOver(r'[id].state))
    && (forall id :: id in r && r'[id].state.Cutover? ==> r[id].state.Cutover?)
    && (forall tid :: IsTarget(r, tid) ==> IsTarget(r', tid) && TargetSlice(r', tid) == TargetSlice(r, tid) && r'[tid.rep].kind == r[tid.rep].kind)
    && (forall tid, key :: OwnsAt(c, r', tid, key) <==> OwnsAt(c, r, tid, key))
    && (forall tid, h :: IsTarget(r, tid) ==> (Adopts(c, r', tid, h) <==> Adopts(c, r, tid, h)))
    && (forall key :: SourceServes(c, r', key) <==> SourceServes(c, r, key))
  }

  /** One row of the source moves forward without a cutover. */
  ghost predicate QuietStep(r: Repartitions, r': Repartitions, id: nat) {
    && id in r' && r' == r[id := r'[id]]
    && (id in r ==>
          && r'[id].kind == r[id].kind
          && (CutOver(r'[id].state) <==> CutOver(r[id].state))
          && (Finished(r[id].state) ==> Finished(r'[id].state))
          && (r'[id].state.Cutover? ==> r[id].state.Cutover?)
          && (r[id].targets != [] ==> Slices(r'[id]) == Slices(r[id])))
    && (id !in r ==> r'[id].state.Queued?)
  }

  lemma TerminalIsInHashes(c: Config, r: Repartitions, h: Hash)
    ensures h in TerminalHashes(c, r) <==> HasTerminalOverride(c, r, h)
  {
  }

  lemma QuietSlices(r: Repartitions, r': Repartitions, id: nat, tid: TargetId)
    requires QuietStep(r, r', id) && IsTarget(r, tid)
    ensures IsTarget(r', tid) && TargetSlice(r', tid) == TargetSlice(r, tid) && r'[tid.rep].kind == r[tid.rep].kind
  {
    if tid.rep == id {
      assert |Slices(r'[id])| == |Slices(r[id])|;
      assert Slices(r'[id])[tid.index] == Slices(r[id])[tid.index];
    }
  }

  /** Beside a hash split, no promotion is left that could finish. */
  lemma QuietTerminals(c: Config, r: Repartitions, r': Repartitions, id: nat, split: nat, h: Hash)
    requires Arbitrated(c, r) && QuietStep(r, r', id) && split in r && r[split].kind.HashSplit?
    ensures HasTerminalOverride(c, r', h) <==> HasTerminalOverride(c, r, h)
  {
    if HasTerminalOverride(c, r, h) && h !in c.adopted {
      var p :| p in r && IsPromotionOf(r[p], h) && Finished(r[p].state);
      assert p in r' && IsPromotionOf(r'[p], h) && Finished(r'[p].state);
    }
    if HasTerminalOverride(c, r', h) && h !in c.adopted {
      var p :| p in r' && IsPromotionOf(r'[p], h) && Finished(r'[p].state);
      assert p in r && IsPromotionOf(r[p], h) && Finished(r[p].state);
    }
  }

  lemma QuietServes(c: Config, r: Repartitions, r': Repartitions, id: nat, key: ItemKey)
    requires c.topology.hashSplitN >= 1 && QuietStep(r, r', id)
    ensures SourceServes(c, r', key) <==> SourceServes(c, r, key)
  {
    var h := HashOf(c, key);
    if RouterRole(r) {
      var p :| p in r && IsSplit(r[p].kind) && CutOver(r[p].state);
      assert p in r' && IsSplit(r'[p].kind) && CutOver(r'[p].state);
    }
    if RouterRole(r') {
      var p :| p in r' && IsSplit(r'[p].kind) && CutOver(r'[p].state);
      assert p in r && IsSplit(r[p].kind) && CutOver(r[p].state);
    }
    if OwnedByRangeTree(c, r, h) && h !in c.adopted {
      var p :| p in r && IsPromotionOf(r[p], h) && CutOver(r[p].state);
      assert p in r' && IsPromotionOf(r'[p], h) && CutOver(r'[p].state);
    }
    if OwnedByRangeTree(c, r', h) && h !in c.adopted {
      var p :| p in r' && IsPromotionOf(r'[p], h) && CutOver(r'[p].state);
      assert p in r && IsPromotionOf(r[p], h) && CutOver(r[p].state);
    }
  }

  lemma QuietOwns(c: Config, r: Repartitions, r': Repartitions, id: nat, tid: TargetId, key: ItemKey)
    requires c.topology.hashSplitN >= 1 && RepsInv(c, r) && QuietStep(r, r', id)
    requires id in r && CutOver(r[id].state) ==> r[id].targets != []
    ensures OwnsAt(c, r', tid, key) <==> OwnsAt(c, r, tid, key)
  {
    if IsTarget(r, tid) {
      QuietSlices(r, r', id, tid);
      if r[tid.rep].kind.HashSplit? {
        QuietTerminals(c, r, r', id, tid.rep, HashOf(c, key));
      }
    }
  }

  lemma QuietAdopts(c: Config, r: Repartitions, r': Repartitions, id: nat, tid: TargetId, h: Hash)
    requires c.topology.hashSplitN >= 1 && RepsInv(c, r) && QuietStep(r, r', id) && IsTarget(r, tid)
    ensures IsTarget(r', tid) && (Adopts(c, r', tid, h) <==> Adopts(c, r, tid, h))
  {
    QuietSlices(r, r', id, tid);
    TerminalIsInHashes(c, r, h);
    TerminalIsInHashes(c, r', h);
    if r[tid.rep].kind.HashSplit? {
      QuietTerminals(c, r, r', id, tid.rep, h);
    }
  }

  lemma QuietKeepsOwnership(c: Config, r: Repartitions, r': Repartitions, id: nat)
    requires c.topology.hashSplitN >= 1 && RepsInv(c, r) && QuietStep(r, r', id)
    ensures SameOwnership(c, r, r')
  {
    if id in r && CutOver(r[id].state) {
      assert RepartitionOk(c, r[id]);
    }
    forall tid, key ensures OwnsAt(c, r', tid, key) <==> OwnsAt(c, r, tid, key) {
      QuietOwns(c, r, r', id, tid, key);
    }
    forall key ensures SourceServes(c, r', key) <==> SourceServes(c, r, key) {
      QuietServes(c, r, r', id, key);
    }
    forall tid | IsTarget(r, tid)
      ensures IsTarget(r', tid) && TargetSlice(r', tid) == TargetSlice(r, tid) && r'[tid.rep].kind == r[tid.rep].kind
      ensures forall h :: Adopts(c, r', tid, h) <==> Adopts(c, r, tid, h)
    {
      QuietSlices(r, r', id, tid);
      forall h ensures Adopts(c, r', tid, h) <==> Adopts(c, r, tid, h) {
        QuietAdopts(c, r, r', id, tid, h);
      }
    }
  }

  // ─── a step that changes only rows of the source and messages ───────────────

  lemma QuietKeepsSourceData(c: Config, s: System, s': System)
    requires c.topology.hashSplitN >= 1 && SourceData(c, s) && SameOwnership(c, s.reps, s'.reps)
    requires s'.rows == s.rows && s'.table == s.table
    ensures SourceData(c, s')
  {
    forall k: RowKey | SourceServes(c, s'.reps, k.key) ensures Get(s'.rows, k) == Get(s'.table, k) {
      assert SourceServes(c, s.reps, k.key);
      assert Get(s.rows, k) == Get(s.table, k);
    }
  }

  lemma QuietKeepsOwnedData(c: Config, s: System, s': System)
    requires c.topology.hashSplitN >= 1 && OwnedData(c, s) && SameOwnership(c, s.reps, s'.reps)
    requires s'.rows == s.rows && s'.table == s.table && s'.targets == s.targets && s'.snaps == s.snaps
    ensures OwnedData(c, s')
  {
    forall tid: TargetId, k: RowKey | OwnsAt(c, s'.reps, tid, k.key) ensures OwnedRow(s', tid, k) {
      assert OwnsAt(c, s.reps, tid, k.key);
      assert OwnedRow(s, tid, k);
    }
  }

  lemma QuietKeepsTarget(c: Config, s: System, s': System, tid: TargetId, t: Target)
    requires c.topology.hashSplitN >= 1 && TargetInv(c, s, tid, t) && SameOwnership(c, s.reps, s'.reps) && s'.snaps == s.snaps
    ensures TargetInv(c, s', tid, t)
  {
    hide OwnsAt, Adopts;
    assert IsTarget(s.reps, tid);
    if IsImporting(t) {
      forall k ensures CopiedRow(c, s', tid, t.rows, RowPassed(c, t.cursor, k), k) {
        assert CopiedRow(c, s, tid, t.rows, RowPassed(c, t.cursor, k), k);
      }
    }
  }

  lemma QuietKeepsMessage(c: Config, s: System, s': System, m: Message)
    requires c.topology.hashSplitN >= 1 && MessageInv(c, s, m) && SameOwnership(c, s.reps, s'.reps)
    requires s'.snaps == s.snaps && s'.targets == s.targets
    ensures MessageInv(c, s', m)
  {
    if m.Page? {
      QuietKeepsPage(c, s, s', m.tid, m.cursor, m.body, m.next);
    }
  }

  lemma QuietKeepsPage(c: Config, s: System, s': System, tid: TargetId, cursor: Option<Cursor>, body: Body, next: Option<Cursor>)
    requires c.topology.hashSplitN >= 1 && PageInv(c, s, tid, cursor, body, next) && SameOwnership(c, s.reps, s'.reps)
    requires s'.snaps == s.snaps
    ensures PageInv(c, s', tid, cursor, body, next)
  {
    hide OwnsAt, Adopts;
    assert IsTarget(s.reps, tid);
    if body.Host? {
      forall k ensures CopiedRow(c, s', tid, body.rows, PageHasRow(c, cursor, next, k), k) {
        assert CopiedRow(c, s, tid, body.rows, PageHasRow(c, cursor, next, k), k);
      }
    }
  }

  lemma QuietKeeps(c: Config, s: System, s': System)
    requires c.topology.hashSplitN >= 1 && Inv(c, s) && SameOwnership(c, s.reps, s'.reps)
    requires s'.rows == s.rows && s'.table == s.table && s'.targets == s.targets && s'.snaps == s.snaps
    requires RepsInv(c, s'.reps) && MarksInv(s')
    requires forall m :: m in s'.net && m !in s.net ==> MessageInv(c, s', m)
    ensures Inv(c, s')
  {
    hide RepsInv, MarksInv, OwnsAt, Adopts, SourceServes, TargetInv, MessageInv;
    QuietKeepsSourceData(c, s, s');
    QuietKeepsOwnedData(c, s, s');
    forall tid | tid in s'.targets ensures TargetInv(c, s', tid, s'.targets[tid]) {
      QuietKeepsTarget(c, s, s', tid, s.targets[tid]);
    }
    forall m | m in s'.net ensures MessageInv(c, s', m) {
      if m in s.net {
        QuietKeepsMessage(c, s, s', m);
      }
    }
  }

  /** The invariant of the rows after one row moved: what the step owes is its own row. */
  lemma OneRowKeepsReps(c: Config, r: Repartitions, r': Repartitions, id: nat)
    requires c.topology.hashSplitN >= 1 && RepsInv(c, r) && QuietStep(r, r', id) && id in r
    requires RepartitionOk(c, r'[id])
    ensures RepsInv(c, r')
  {
    forall i | i in r' ensures RepartitionOk(c, r'[i]) {
      if i != id {
        assert RepartitionOk(c, r[i]);
      }
    }
  }

  lemma QueueKeeps(c: Config, s: System, id: nat, kind: Kind)
    requires c.topology.hashSplitN >= 1 && Inv(c, s) && id !in s.reps && CanQueue(c, s.reps, kind)
    ensures Inv(c, WithRep(s, id, Repartition(kind, Queued, [])))
  {
    var s' := WithRep(s, id, Repartition(kind, Queued, []));
    assert RepsInv(c, s'.reps) by {
      forall i | i in s'.reps ensures RepartitionOk(c, s'.reps[i]) {
        if i != id {
          assert RepartitionOk(c, s.reps[i]);
        }
      }
      QueueKeepsArbitration(c, s.reps, id, kind);
    }
    assert MarksInv(s') by {
      forall tid | IsTarget(s'.reps, tid) ensures IsTarget(s.reps, tid) {
      }
    }
    QuietKeepsOwnership(c, s.reps, s'.reps, id);
    QuietKeeps(c, s, s');
  }

  lemma QueueKeepsArbitration(c: Config, r: Repartitions, id: nat, kind: Kind)
    requires Arbitrated(c, r) && id !in r && CanQueue(c, r, kind)
    ensures Arbitrated(c, r[id := Repartition(kind, Queued, [])])
  {
    forall a | a in r && kind.KeyPromotion? ensures r[a].kind != kind {
      assert !HasRouteOverride(c, r, kind.promoted);
      assert !IsPromotionOf(r[a], kind.promoted);
    }
  }

  lemma SlicesOfPlan(slices: seq<Slice>)
    ensures forall rep: Repartition :: rep.targets == PlannedTargets(slices) ==> Slices(rep) == slices
  {
  }

  lemma PlanRowOk(c: Config, rep: Repartition, boundaries: seq<ItemKey>)
    requires c.topology.hashSplitN >= 1 && ValidConfig(c) && RepartitionOk(c, rep)
    ensures RepartitionOk(c, PlanRow(c, rep, boundaries))
    ensures RowMoves(rep, PlanRow(c, rep, boundaries))
    ensures PlanRow(c, rep, boundaries) == rep
            || forall i :: 0 <= i < |PlanRow(c, rep, boundaries).targets| ==> IsUnmarked(PlanRow(c, rep, boundaries).targets[i])
  {
    if rep.state.Queued? && PlanSlices(c, rep.kind, boundaries).Some? {
      PlanTiles(c, rep.kind, boundaries);
      SlicesOfPlan(PlanSlices(c, rep.kind, boundaries).value);
    }
  }

  predicate IsUnmarked(mark: TargetRow) {
    mark.initialization.Pending? && !mark.acknowledged
  }

  lemma PlanKeeps(c: Config, s: System, id: nat, boundaries: seq<ItemKey>)
    requires c.topology.hashSplitN >= 1 && ValidConfig(c) && Inv(c, s) && id in s.reps && KindFits(c, s.reps[id].kind)
    ensures Inv(c, WithRep(s, id, PlanRow(c, s.reps[id], boundaries)))
  {
    hide PlanRow, RepartitionOk, RowMoves, Arbitrated, TargetsInv, NetInv, SourceData, OwnedData, SnapsInv;
    PlanRowOk(c, s.reps[id], boundaries);
    var rep' := PlanRow(c, s.reps[id], boundaries);
    forall i | 0 <= i < |rep'.targets| ensures MarkOk(s, TargetId(id, i), rep'.targets[i]) {
      if rep' == s.reps[id] {
        assert IsTarget(s.reps, TargetId(id, i));
      }
    }
    RowStepKeeps(c, s, WithRep(s, id, rep'), id, {});
  }

  /** A row step without a cutover. */
  ghost predicate RowMoves(rep: Repartition, rep': Repartition) {
    && rep'.kind == rep.kind
    && (CutOver(rep'.state) <==> CutOver(rep.state))
    && (Finished(rep.state) ==> Finished(rep'.state))
    && (rep'.state.Cutover? ==> rep.state.Cutover?)
    && (rep.targets != [] ==> Slices(rep') == Slices(rep))
  }

  lemma RowStepMarks(s: System, s': System, id: nat)
    requires MarksInv(s) && id in s.reps && id in s'.reps && s'.reps == s.reps[id := s'.reps[id]] && s'.targets == s.targets
    requires forall i :: 0 <= i < |s'.reps[id].targets| ==> MarkOk(s, TargetId(id, i), s'.reps[id].targets[i])
    ensures MarksInv(s')
  {
    forall tid | IsTarget(s'.reps, tid) ensures MarkOk(s', tid, s'.reps[tid.rep].targets[tid.index]) {
      if tid.rep == id {
        assert tid == TargetId(id, tid.index);
        assert MarkOk(s, TargetId(id, tid.index), s'.reps[id].targets[tid.index]);
      } else {
        assert IsTarget(s.reps, tid);
      }
    }
  }

  /** One row of the source moves without a cutover, and messages are sent about targets that it has. */
  lemma RowStepKeeps(c: Config, s: System, s': System, id: nat, sent: set<Message>)
    requires c.topology.hashSplitN >= 1 && Inv(c, s) && id in s.reps && id in s'.reps
    requires s'.reps == s.reps[id := s'.reps[id]] && RowMoves(s.reps[id], s'.reps[id]) && RepartitionOk(c, s'.reps[id])
    requires s' == s.(reps := s'.reps, net := s.net + sent)
    requires forall i :: 0 <= i < |s'.reps[id].targets| ==> MarkOk(s, TargetId(id, i), s'.reps[id].targets[i])
    requires forall m :: m in sent ==> MessageInv(c, s', m)
    ensures Inv(c, s')
  {
    assert QuietStep(s.reps, s'.reps, id);
    hide RepsInv, MarksInv, MessageInv, SameOwnership, QuietStep, RowMoves, RepartitionOk, MarkOk, TargetsInv, NetInv, SourceData, OwnedData, SnapsInv;
    RowStepMarks(s, s', id);
    OneRowKeepsReps(c, s.reps, s'.reps, id);
    QuietKeepsOwnership(c, s.reps, s'.reps, id);
    QuietKeeps(c, s, s');
  }
}
