/** Each step of a repartition keeps the invariant. */
module RepartitionSteps {
  import opened Bytes
  import opened KeyCodec
  import opened RoutingHash
  import opened RepartitionSlices
  import opened RepartitionSystem
  import opened RepartitionSafety

  // ─── the source ─────────────────────────────────────────────────────────────

  lemma SetTargetKeepsSlices(rep: Repartition, i: nat, mark: TargetRow)
    requires i < |rep.targets| && mark.slice == rep.targets[i].slice
    ensures Slices(SetTarget(rep, i, mark)) == Slices(rep)
  {
  }

  /** A row keeps its shape, and only the mark of target `i` can say more. */
  ghost predicate MarksOnly(c: Config, rep: Repartition, rep': Repartition, i: nat)
    requires c.topology.hashSplitN >= 1
  {
    && RepartitionOk(c, rep') && RowMoves(rep, rep')
    && |rep'.targets| == |rep.targets|
    && forall j :: 0 <= j < |rep.targets| ==> j == i || rep'.targets[j] == rep.targets[j]
  }

  lemma StartInitRow(c: Config, rep: Repartition, i: nat)
    requires c.topology.hashSplitN >= 1 && RepartitionOk(c, rep) && i < |rep.targets| && rep.state.Planned?
    ensures MarksOnly(c, rep, StartInit(rep, i), i)
    ensures StartInit(rep, i).targets[i] == rep.targets[i] || StartInit(rep, i).targets[i] == rep.targets[i].(initialization := Initializing)
    ensures StartInit(rep, i).targets[i].slice == rep.targets[i].slice
  {
    hide Tiles;
    SetTargetKeepsSlices(rep, i, rep.targets[i].(initialization := Initializing));
  }

  lemma RecordInitRow(c: Config, rep: Repartition, i: nat)
    requires c.topology.hashSplitN >= 1 && RepartitionOk(c, rep) && i < |rep.targets|
    ensures MarksOnly(c, rep, RecordInit(rep, i), i)
    ensures RecordInit(rep, i).targets[i] == rep.targets[i].(initialization := Initialized)
  {
    hide Tiles;
    SetTargetKeepsSlices(rep, i, rep.targets[i].(initialization := Initialized));
  }

  lemma AcceptAckRow(c: Config, rep: Repartition, i: nat)
    requires c.topology.hashSplitN >= 1 && RepartitionOk(c, rep) && i < |rep.targets| && CutOver(rep.state)
    ensures MarksOnly(c, rep, AcceptAck(rep, i), i)
    ensures AcceptAck(rep, i).targets[i] == rep.targets[i] || AcceptAck(rep, i).targets[i] == rep.targets[i].(acknowledged := true)
  {
    hide Tiles;
    SetTargetKeepsSlices(rep, i, rep.targets[i].(acknowledged := true));
    var marked := SetTarget(rep, i, rep.targets[i].(acknowledged := true));
    assert Slices(marked.(state := Completed)) == Slices(marked);
  }

  lemma CleanUpRowOk(c: Config, rep: Repartition, done: bool)
    requires c.topology.hashSplitN >= 1 && RepartitionOk(c, rep)
    ensures MarksOnly(c, rep, CleanUpRow(rep, done), 0) && CleanUpRow(rep, done).targets == rep.targets
  {
    hide Tiles;
    assert Slices(CleanUpRow(rep, done)) == Slices(rep);
  }

  lemma MarkStepKeeps(c: Config, s: System, tid: TargetId, rep': Repartition, sent: set<Message>)
    requires c.topology.hashSplitN >= 1 && Inv(c, s) && IsTarget(s.reps, tid) && MarksOnly(c, s.reps[tid.rep], rep', tid.index)
    requires MarkOk(s, tid, rep'.targets[tid.index])
    requires forall m :: m in sent ==> MessageInv(c, WithRep(s, tid.rep, rep').(net := s.net + sent), m)
    ensures Inv(c, WithRep(s, tid.rep, rep').(net := s.net + sent))
  {
    hide RepartitionOk, RowMoves, TargetsInv, NetInv, SourceData, OwnedData, SnapsInv, RepsInv, MarkOk, MessageInv;
    forall i | 0 <= i < |rep'.targets| ensures MarkOk(s, TargetId(tid.rep, i), rep'.targets[i]) {
      assert IsTarget(s.reps, TargetId(tid.rep, i));
      assert TargetId(tid.rep, tid.index) == tid;
    }
    RowStepKeeps(c, s, WithRep(s, tid.rep, rep').(net := s.net + sent), tid.rep, sent);
  }

  lemma RepartitionHolds(c: Config, s: System, id: nat)
    requires c.topology.hashSplitN >= 1 && Inv(c, s) && id in s.reps
    ensures RepartitionOk(c, s.reps[id])
    ensures forall i :: 0 <= i < |s.reps[id].targets| ==> MarkOk(s, TargetId(id, i), s.reps[id].targets[i])
  {
    hide TargetsInv, NetInv, SourceData, OwnedData, SnapsInv, RepartitionOk, MarkOk;
    forall i | 0 <= i < |s.reps[id].targets| ensures MarkOk(s, TargetId(id, i), s.reps[id].targets[i]) {
      assert IsTarget(s.reps, TargetId(id, i));
    }
  }

  lemma MessageHolds(c: Config, s: System, m: Message)
    requires c.topology.hashSplitN >= 1 && Inv(c, s) && m in s.net
    ensures MessageInv(c, s, m)
  {
  }

  lemma SendInitKeeps(c: Config, s: System, tid: TargetId)
    requires c.topology.hashSplitN >= 1 && Inv(c, s) && IsTarget(s.reps, tid) && s.reps[tid.rep].state.Planned?
    ensures Inv(c, Send(WithRep(s, tid.rep, StartInit(s.reps[tid.rep], tid.index)), InitRequest(tid, TargetSlice(s.reps, tid))))
  {
    hide Inv, RepartitionOk, RowMoves, StartInit;
    RepartitionHolds(c, s, tid.rep);
    StartInitRow(c, s.reps[tid.rep], tid.index);
    assert MarkOk(s, TargetId(tid.rep, tid.index), s.reps[tid.rep].targets[tid.index]);
    MarkStepKeeps(c, s, tid, StartInit(s.reps[tid.rep], tid.index), {InitRequest(tid, TargetSlice(s.reps, tid))});
  }

  lemma RecordInitKeeps(c: Config, s: System, tid: TargetId)
    requires c.topology.hashSplitN >= 1 && Inv(c, s) && IsTarget(s.reps, tid) && InitOk(tid) in s.net
    ensures Inv(c, WithRep(s, tid.rep, RecordInit(s.reps[tid.rep], tid.index)))
  {
    hide Inv, RepartitionOk, RowMoves, RecordInit;
    RepartitionHolds(c, s, tid.rep);
    MessageHolds(c, s, InitOk(tid));
    RecordInitRow(c, s.reps[tid.rep], tid.index);
    assert MarkOk(s, TargetId(tid.rep, tid.index), s.reps[tid.rep].targets[tid.index]);
    assert s.net + {} == s.net;
    MarkStepKeeps(c, s, tid, RecordInit(s.reps[tid.rep], tid.index), {});
  }

  lemma DeliverAckKeeps(c: Config, s: System, tid: TargetId)
    requires c.topology.hashSplitN >= 1 && Inv(c, s) && IsTarget(s.reps, tid) && Ack(tid) in s.net && CutOver(s.reps[tid.rep].state)
    ensures Inv(c, Send(WithRep(s, tid.rep, AcceptAck(s.reps[tid.rep], tid.index)), AckOk(tid)))
  {
    hide Inv, RepartitionOk, RowMoves, AcceptAck;
    RepartitionHolds(c, s, tid.rep);
    MessageHolds(c, s, Ack(tid));
    AcceptAckRow(c, s.reps[tid.rep], tid.index);
    assert MarkOk(s, TargetId(tid.rep, tid.index), s.reps[tid.rep].targets[tid.index]);
    MarkStepKeeps(c, s, tid, AcceptAck(s.reps[tid.rep], tid.index), {AckOk(tid)});
  }

  /** A cleanup step takes no row that the source serves or that a target still copies. */
  lemma ReclaimedRowIsFree(c: Config, r: Repartitions, id: nat, k: RowKey)
    requires c.topology.hashSplitN >= 1 && ValidConfig(c) && RepsInv(c, r) && id in r && Finished(r[id].state) && Reclaimable(c, r[id].kind, k)
    ensures !SourceServes(c, r, k.key)
    ensures forall tid :: OwnsAt(c, r, tid, k.key) ==> Finished(r[tid.rep].state)
  {
    var rep := r[id];
    assert RepartitionOk(c, rep);
    if rep.kind.KeyPromotion? {
      var own := TargetId(id, 0);
      assert IsPromotionOf(rep, HashOf(c, k.key));
      PromotionOwns(c, r, own, k.key);
      forall tid | OwnsAt(c, r, tid, k.key) ensures Finished(r[tid.rep].state) {
        OwnersAreDisjoint(c, r, own, tid, k.key);
      }
    } else {
      assert RouterRole(r);
      forall tid | OwnsAt(c, r, tid, k.key) ensures Finished(r[tid.rep].state) {
        assert RepartitionOk(c, r[tid.rep]);
      }
    }
  }

  lemma OwnsAtIsTarget(c: Config, r: Repartitions, tid: TargetId, key: ItemKey)
    requires c.topology.hashSplitN >= 1 && OwnsAt(c, r, tid, key)
    ensures IsTarget(r, tid) && CutOver(r[tid.rep].state)
  {
  }

  lemma ReclaimKeeps(c: Config, s: System, id: nat, reclaimed: set<RowKey>)
    requires c.topology.hashSplitN >= 1 && ValidConfig(c) && Inv(c, s) && id in s.reps && s.reps[id].state.Completed?
    requires forall k :: k in reclaimed ==> Reclaimable(c, s.reps[id].kind, k)
    ensures Inv(c, s.(rows := s.rows - reclaimed))
  {
    hide RepsInv, TargetInv, MessageInv, OwnsAt, SourceServes, Reclaimable;
    var s' := s.(rows := s.rows - reclaimed);
    forall k: RowKey | SourceServes(c, s'.reps, k.key) ensures Get(s'.rows, k) == Get(s'.table, k) {
      if k in reclaimed {
        ReclaimedRowIsFree(c, s.reps, id, k);
        assert false;
      }
      assert Get(s.rows, k) == Get(s.table, k);
    }
    forall tid: TargetId, k: RowKey | OwnsAt(c, s'.reps, tid, k.key)
      ensures tid.rep in s'.reps && OwnedRow(s', tid, k)
    {
      OwnsAtIsTarget(c, s.reps, tid, k.key);
      assert OwnedRow(s, tid, k);
      if k in reclaimed {
        ReclaimedRowIsFree(c, s.reps, id, k);
      }
    }
    forall tid | tid in s'.targets ensures TargetInv(c, s', tid, s'.targets[tid]) {
      assert TargetInv(c, s, tid, s.targets[tid]);
      TargetInvIgnoresRows(c, s, s', tid, s.targets[tid]);
    }
    forall m | m in s'.net ensures MessageInv(c, s', m) {
      assert MessageInv(c, s, m);
      MessageInvIgnoresRows(c, s, s', m);
    }
  }

  lemma TargetInvIgnoresRows(c: Config, s: System, s': System, tid: TargetId, t: Target)
    requires c.topology.hashSplitN >= 1 && TargetInv(c, s, tid, t) && s'.reps == s.reps && s'.snaps == s.snaps
    ensures TargetInv(c, s', tid, t)
  {
    hide OwnsAt, Adopts, RowPassed;
    if IsImporting(t) {
      forall k ensures CopiedRow(c, s', tid, t.rows, RowPassed(c, t.cursor, k), k) {
        assert CopiedRow(c, s, tid, t.rows, RowPassed(c, t.cursor, k), k);
      }
    }
  }

  /** Messages say nothing of the rows and the table, and only that a target exists or has its copy. */
  lemma MessageInvIgnoresRows(c: Config, s: System, s': System, m: Message)
    requires c.topology.hashSplitN >= 1 && MessageInv(c, s, m) && s'.reps == s.reps && s'.snaps == s.snaps
    requires forall tid :: tid in s.targets ==> tid in s'.targets
    requires forall tid :: HasCopy(s, tid) ==> HasCopy(s', tid)
    ensures MessageInv(c, s', m)
  {
    hide OwnsAt, Adopts, RowPassed, PageHasRow, PageEndFits;
    if m.Page? && m.body.Host? {
      forall k ensures CopiedRow(c, s', m.tid, m.body.rows, PageHasRow(c, m.cursor, m.next, k), k) {
        assert PageInv(c, s, m.tid, m.cursor, m.body, m.next);
        if Requested(m.cursor).HostAt? {
          assert CopiedRow(c, s, m.tid, m.body.rows, PageHasRow(c, m.cursor, m.next, k), k);
        }
      }
    }
  }

  lemma CleanUpKeeps(c: Config, s: System, id: nat, reclaimed: set<RowKey>, done: bool)
    requires c.topology.hashSplitN >= 1 && ValidConfig(c) && Inv(c, s) && id in s.reps && s.reps[id].state.Completed?
    requires forall k :: k in reclaimed ==> Reclaimable(c, s.reps[id].kind, k)
    ensures Inv(c, WithRep(s, id, CleanUpRow(s.reps[id], done)).(rows := s.rows - reclaimed))
  {
    var s1 := s.(rows := s.rows - reclaimed);
    ReclaimKeeps(c, s, id, reclaimed);
    hide Inv, RepartitionOk, RowMoves, CleanUpRow;
    RepartitionHolds(c, s1, id);
    CleanUpRowOk(c, s.reps[id], done);
    assert s1.net + {} == s1.net;
    RowStepKeeps(c, s1, WithRep(s1, id, CleanUpRow(s.reps[id], done)), id, {});
  }

  // ─── the cutover ────────────────────────────────────────────────────────────

  /** What the cutover changes: the targets of `id` own their slices, and the source serves none of their keys. */
  ghost predicate CutsOver(r: Repartitions, r': Repartitions, id: nat) {
    && id in r && r[id].state.Planned? && AllInitialized(r[id])
    && r' == r[id := r[id].(state := Cutover)]
  }

  lemma CutOverTerminals(c: Config, r: Repartitions, r': Repartitions, id: nat, h: Hash)
    requires CutsOver(r, r', id)
    ensures HasTerminalOverride(c, r', h) <==> HasTerminalOverride(c, r, h)
    ensures TerminalHashes(c, r') == TerminalHashes(c, r)
  {
    if HasTerminalOverride(c, r, h) && h !in c.adopted {
      var p :| p in r && IsPromotionOf(r[p], h) && Finished(r[p].state);
      assert p in r' && IsPromotionOf(r'[p], h) && Finished(r'[p].state);
    }
    if HasTerminalOverride(c, r', h) && h !in c.adopted {
      var p :| p in r' && IsPromotionOf(r'[p], h) && Finished(r'[p].state);
      assert p in r && IsPromotionOf(r[p], h) && Finished(r[p].state);
    }
    forall g ensures g in TerminalHashes(c, r') <==> g in TerminalHashes(c, r) {
      CutOverHashes(c, r, r', id, g);
    }
  }

  lemma CutOverHashes(c: Config, r: Repartitions, r': Repartitions, id: nat, h: Hash)
    requires CutsOver(r, r', id)
    ensures h in TerminalHashes(c, r') <==> h in TerminalHashes(c, r)
  {
    if h in TerminalHashes(c, r) && h !in c.adopted {
      var p :| p in r && r[p].kind.KeyPromotion? && Finished(r[p].state) && r[p].kind.promoted == h;
      assert p in r' && r'[p].kind.KeyPromotion? && Finished(r'[p].state) && r'[p].kind.promoted == h;
    }
    if h in TerminalHashes(c, r') && h !in c.adopted {
      var p :| p in r' && r'[p].kind.KeyPromotion? && Finished(r'[p].state) && r'[p].kind.promoted == h;
      assert p in r && r[p].kind.KeyPromotion? && Finished(r[p].state) && r[p].kind.promoted == h;
    }
  }

  lemma CutOverOwns(c: Config, r: Repartitions, r': Repartitions, id: nat, tid: TargetId, key: ItemKey)
    requires c.topology.hashSplitN >= 1 && CutsOver(r, r', id)
    ensures tid.rep != id ==> (OwnsAt(c, r', tid, key) <==> OwnsAt(c, r, tid, key))
    ensures tid.rep == id ==> !OwnsAt(c, r, tid, key)
  {
    CutOverTerminals(c, r, r', id, HashOf(c, key));
  }

  /** Before its own cutover, no split beside it and no promotion of its keys has cut over. */
  lemma NothingCutOverBeside(c: Config, r: Repartitions, id: nat, h: Hash)
    requires c.topology.hashSplitN >= 1 && ValidConfig(c) && RepsInv(c, r) && id in r && r[id].state.Planned?
    requires r[id].kind.KeyPromotion? ==> h == r[id].kind.promoted
    requires r[id].kind.HashSplit? ==> !HasTerminalOverride(c, r, h)
    ensures !RouterRole(r) && !OwnedByRangeTree(c, r, h)
  {
    assert RepartitionOk(c, r[id]);
    forall p | p in r && IsSplit(r[p].kind) ensures !CutOver(r[p].state) {
      assert RepartitionOk(c, r[p]);
    }
    forall p | p in r && IsPromotionOf(r[p], h) ensures !CutOver(r[p].state) {
      assert RepartitionOk(c, r[p]);
    }
  }

  /** The source served the keys that it gives away, so its rows of them are the table. */
  lemma CutOverTakesServedKeys(c: Config, r: Repartitions, r': Repartitions, id: nat, tid: TargetId, key: ItemKey)
    requires c.topology.hashSplitN >= 1 && ValidConfig(c) && RepsInv(c, r) && CutsOver(r, r', id)
    requires tid.rep == id && OwnsAt(c, r', tid, key)
    ensures SourceServes(c, r, key)
  {
    CutOverTerminals(c, r, r', id, HashOf(c, key));
    if r[id].kind.KeyPromotion? {
      PromotionOwns(c, r, tid, key);
    }
    NothingCutOverBeside(c, r, id, HashOf(c, key));
  }

  lemma CutOverRoles(c: Config, r: Repartitions, r': Repartitions, id: nat, h: Hash)
    requires CutsOver(r, r', id)
    ensures RouterRole(r) ==> RouterRole(r')
    ensures OwnedByRangeTree(c, r, h) ==> OwnedByRangeTree(c, r', h)
  {
    if RouterRole(r) {
      var p :| p in r && IsSplit(r[p].kind) && CutOver(r[p].state);
      assert p in r' && IsSplit(r'[p].kind) && CutOver(r'[p].state);
    }
    if OwnedByRangeTree(c, r, h) && h !in c.adopted {
      var p :| p in r && IsPromotionOf(r[p], h) && CutOver(r[p].state);
      assert p in r' && IsPromotionOf(r'[p], h) && CutOver(r'[p].state);
    }
  }

  lemma CutOverServes(c: Config, r: Repartitions, r': Repartitions, id: nat, key: ItemKey)
    requires c.topology.hashSplitN >= 1 && CutsOver(r, r', id) && SourceServes(c, r', key)
    ensures SourceServes(c, r, key)
  {
    CutOverRoles(c, r, r', id, HashOf(c, key));
  }

  lemma CutOverKeepsReps(c: Config, r: Repartitions, r': Repartitions, id: nat)
    requires c.topology.hashSplitN >= 1 && RepsInv(c, r) && CutsOver(r, r', id)
    ensures RepsInv(c, r')
  {
    assert Slices(r'[id]) == Slices(r[id]);
    forall i | i in r' ensures RepartitionOk(c, r'[i]) {
      assert RepartitionOk(c, r[i]);
    }
  }

  lemma CutOverKeepsData(c: Config, s: System, s': System, id: nat)
    requires c.topology.hashSplitN >= 1 && ValidConfig(c) && RepsInv(c, s.reps) && SourceData(c, s) && OwnedData(c, s) && SnapsInv(s) && TargetsInv(c, s)
    requires CutsOver(s.reps, s'.reps, id) && s' == s.(reps := s'.reps, snaps := s.snaps[id := s.rows])
    ensures SourceData(c, s') && OwnedData(c, s') && SnapsInv(s')
  {
    hide RepsInv, OwnsAt, SourceServes, TargetInv;
    forall k: RowKey | SourceServes(c, s'.reps, k.key) ensures Get(s'.rows, k) == Get(s'.table, k) {
      CutOverServes(c, s.reps, s'.reps, id, k.key);
      assert Get(s.rows, k) == Get(s.table, k);
    }
    forall tid: TargetId, k: RowKey | OwnsAt(c, s'.reps, tid, k.key)
      ensures tid.rep in s'.reps && OwnedRow(s', tid, k)
    {
      CutOverOwns(c, s.reps, s'.reps, id, tid, k.key);
      if tid.rep == id {
        CutOverTakesServedKeys(c, s.reps, s'.reps, id, tid, k.key);
        assert Get(s.rows, k) == Get(s.table, k);
        assert !HasCopy(s, tid) by {
          if tid in s.targets {
            NoCopyBeforeCutOver(c, s, tid);
          }
        }
      } else {
        OwnsAtIsTarget(c, s.reps, tid, k.key);
        assert OwnedRow(s, tid, k);
      }
    }
  }

  lemma NoCopyBeforeCutOver(c: Config, s: System, tid: TargetId)
    requires c.topology.hashSplitN >= 1 && TargetsInv(c, s) && tid in s.targets && tid.rep in s.reps && !CutOver(s.reps[tid.rep].state)
    ensures s.targets[tid].state.AwaitingData? && s.targets[tid].cursor.None?
  {
    assert TargetInv(c, s, tid, s.targets[tid]);
  }

  lemma CutOverKeepsTarget(c: Config, s: System, s': System, id: nat, tid: TargetId)
    requires c.topology.hashSplitN >= 1 && TargetsInv(c, s) && SnapsInv(s) && tid in s.targets
    requires CutsOver(s.reps, s'.reps, id) && s' == s.(reps := s'.reps, snaps := s.snaps[id := s.rows])
    ensures TargetInv(c, s', tid, s.targets[tid])
  {
    hide OwnsAt, SnapsInv, TargetsInv, RowPassed;
    assert TargetInv(c, s, tid, s.targets[tid]) by { TargetInvHolds(c, s, tid); }
    var t := s.targets[tid];
    if tid.rep == id {
      NoCopyBeforeCutOver(c, s, tid);
    }
    assert !(id in s.snaps) by { NoSnapBeforeCutOver(s, id); }
    forall k ensures OwnsAt(c, s'.reps, tid, k) <==> OwnsAt(c, s.reps, tid, k) || (tid.rep == id && OwnsAt(c, s'.reps, tid, k)) {
      CutOverOwns(c, s.reps, s'.reps, id, tid, k);
    }
    forall h ensures Adopts(c, s'.reps, tid, h) <==> Adopts(c, s.reps, tid, h) {
      CutOverTerminals(c, s.reps, s'.reps, id, h);
    }
    if IsImporting(t) {
      forall k ensures CopiedRow(c, s', tid, t.rows, RowPassed(c, t.cursor, k), k) {
        assert CopiedRow(c, s, tid, t.rows, RowPassed(c, t.cursor, k), k);
        CutOverOwns(c, s.reps, s'.reps, id, tid, k.key);
        if tid.rep == id {
          NothingPassedAtStart(c, k);
        }
      }
    }
  }

  lemma NothingPassedAtStart(c: Config, k: RowKey)
    ensures !RowPassed(c, None, k)
  {
  }

  lemma TargetInvHolds(c: Config, s: System, tid: TargetId)
    requires c.topology.hashSplitN >= 1 && TargetsInv(c, s) && tid in s.targets
    ensures TargetInv(c, s, tid, s.targets[tid])
  {
  }

  lemma NoSnapBeforeCutOver(s: System, id: nat)
    requires SnapsInv(s) && id in s.reps && !CutOver(s.reps[id].state)
    ensures id !in s.snaps
  {
  }

  lemma CutOverKeepsMessage(c: Config, s: System, s': System, id: nat, m: Message)
    requires c.topology.hashSplitN >= 1 && MessageInv(c, s, m) && SnapsInv(s)
    requires CutsOver(s.reps, s'.reps, id) && s' == s.(reps := s'.reps, snaps := s.snaps[id := s.rows])
    ensures MessageInv(c, s', m)
  {
    if m.Page? {
      var tid := m.tid;
      assert PageInv(c, s, tid, m.cursor, m.body, m.next) && tid.rep != id;
      forall h ensures Adopts(c, s'.reps, tid, h) <==> Adopts(c, s.reps, tid, h) {
        CutOverTerminals(c, s.reps, s'.reps, id, h);
      }
      hide OwnsAt, Adopts, RowPassed, PageHasRow;
      if m.body.Host? {
        forall k ensures CopiedRow(c, s', tid, m.body.rows, PageHasRow(c, m.cursor, m.next, k), k) {
          CutOverOwns(c, s.reps, s'.reps, id, tid, k.key);
          if Requested(m.cursor).HostAt? {
            assert CopiedRow(c, s, tid, m.body.rows, PageHasRow(c, m.cursor, m.next, k), k);
          }
        }
      }
    }
  }

  lemma CutOverKeeps(c: Config, s: System, id: nat)
    requires c.topology.hashSplitN >= 1 && ValidConfig(c) && Inv(c, s) && id in s.reps && s.reps[id].state.Planned? && AllInitialized(s.reps[id])
    ensures Inv(c, WithRep(s, id, CutOverRow(s.reps[id])).(snaps := s.snaps[id := s.rows]))
  {
    var s' := WithRep(s, id, CutOverRow(s.reps[id])).(snaps := s.snaps[id := s.rows]);
    assert CutsOver(s.reps, s'.reps, id);
    hide CutsOver, RepsInv, SnapsInv, SourceData, OwnedData, TargetInv, MessageInv, MarkOk;
    CutOverKeepsReps(c, s.reps, s'.reps, id);
    CutOverKeepsData(c, s, s', id);
    forall tid | tid in s'.targets ensures TargetInv(c, s', tid, s'.targets[tid]) {
      CutOverKeepsTarget(c, s, s', id, tid);
    }
    forall m | m in s'.net ensures MessageInv(c, s', m) {
      CutOverKeepsMessage(c, s, s', id, m);
    }
    assert MarksInv(s') by {
      CutOverKeepsMarks(s, s', id);
    }
  }

  lemma CutOverKeepsMarks(s: System, s': System, id: nat)
    requires MarksInv(s) && CutsOver(s.reps, s'.reps, id) && s'.targets == s.targets
    ensures MarksInv(s')
  {
    forall tid | IsTarget(s'.reps, tid) ensures MarkOk(s', tid, s'.reps[tid.rep].targets[tid.index]) {
      assert IsTarget(s.reps, tid);
      assert MarkOk(s, tid, s.reps[tid.rep].targets[tid.index]);
    }
  }

  // ─── the target ─────────────────────────────────────────────────────────────

  /** One target changes: what the step owes is its own record, its owned rows, and its messages. */
  lemma TargetStepKeeps(c: Config, s: System, s': System, tid: TargetId, t: Target, sent: set<Message>)
    requires c.topology.hashSplitN >= 1 && Inv(c, s) && s' == WithTarget(s, tid, t).(net := s.net + sent)
    requires TargetInv(c, s', tid, t)
    requires HasCopy(s, tid) ==> !IsImporting(t) && t.rows == s.targets[tid].rows
    requires !IsImporting(t) && !HasCopy(s, tid) ==> forall k: RowKey :: OwnsAt(c, s.reps, tid, k.key) && tid.rep in s.snaps ==> Get(t.rows, k) == Get(s.snaps[tid.rep], k)
    requires forall m :: m in sent ==> MessageInv(c, s', m)
    ensures Inv(c, s')
  {
    hide RepsInv, TargetInv, MessageInv, OwnsAt, SourceServes;
    assert forall other :: HasCopy(s, other) ==> HasCopy(s', other);
    assert OwnedData(c, s') by {
      forall other: TargetId, k: RowKey | OwnsAt(c, s'.reps, other, k.key)
        ensures other.rep in s'.reps && OwnedRow(s', other, k)
      {
        OwnsAtIsTarget(c, s.reps, other, k.key);
        assert OwnedRow(s, other, k);
      }
    }
    forall other | other in s'.targets ensures TargetInv(c, s', other, s'.targets[other]) {
      if other != tid {
        TargetInvHolds(c, s, other);
        TargetInvIgnoresRows(c, s, s', other, s.targets[other]);
      }
    }
    forall m | m in s'.net ensures MessageInv(c, s', m) {
      if m in s.net {
        MessageInvIgnoresRows(c, s, s', m);
      }
    }
    assert MarksInv(s') by {
      forall other | IsTarget(s'.reps, other) ensures MarkOk(s', other, s'.reps[other.rep].targets[other.index]) {
        assert MarkOk(s, other, s.reps[other.rep].targets[other.index]);
      }
    }
  }

  lemma SendKeeps(c: Config, s: System, m: Message)
    requires c.topology.hashSplitN >= 1 && Inv(c, s) && MessageInv(c, s, m)
    ensures Inv(c, Send(s, m))
  {
    hide RepsInv, TargetInv, MessageInv, OwnsAt, SourceServes;
    var s' := Send(s, m);
    assert SameOwnership(c, s.reps, s'.reps) by {
      hide OwnsAt, Adopts, SourceServes;
    }
    MessageInvIgnoresRows(c, s, s', m);
    assert MarksInv(s') by {
      forall other | IsTarget(s'.reps, other) ensures MarkOk(s', other, s'.reps[other.rep].targets[other.index]) {
        assert MarkOk(s, other, s.reps[other.rep].targets[other.index]);
      }
    }
    hide Inv, SameOwnership;
    QuietKeeps(c, s, s');
  }

  lemma NewTargetInv(c: Config, s: System, tid: TargetId)
    requires c.topology.hashSplitN >= 1 && IsTarget(s.reps, tid)
    ensures TargetInv(c, s, tid, Target(AwaitingData, TargetSlice(s.reps, tid), None, map[], {}))
  {
  }

  lemma DeliverInitKeeps(c: Config, s: System, tid: TargetId, slice: Slice)
    requires c.topology.hashSplitN >= 1 && Inv(c, s) && InitRequest(tid, slice) in s.net
    ensures Inv(c, DoDeliverInit(s, tid, slice))
  {
    MessageHolds(c, s, InitRequest(tid, slice));
    hide Inv, TargetInv;
    if tid !in s.targets {
      var t := Target(AwaitingData, slice, None, map[], {});
      var s' := Send(WithTarget(s, tid, t), InitOk(tid));
      NewTargetInv(c, s', tid);
      TargetStepKeeps(c, s, s', tid, t, {InitOk(tid)});
    } else if s.targets[tid].slice == slice {
      SendKeeps(c, s, InitOk(tid));
    }
  }

  /** Between the two cursors of a page no row and no hash is passed by the first cursor only. */
  lemma PassedGrows(c: Config, r: Repartitions, tid: TargetId, cursor: Option<Cursor>, next: Option<Cursor>, k: RowKey, h: Hash)
    requires IsTarget(r, tid) && PageEndFits(c, r, tid, cursor, next) && next.Some?
    ensures RowPassed(c, cursor, k) ==> RowPassed(c, next, k)
    ensures HashPassed(cursor, h) ==> HashPassed(next, h)
    ensures Requested(cursor).OverridesAt? ==> !RowPassed(c, next, k)
    ensures Requested(cursor).HostAt? ==> next.value.HostAt?
  {
    if Requested(cursor).HostAt? && Requested(cursor).at.After? && next.value.at.After? && RowLess(c, next.value.at.row, k) {
      RowLessIsTransitive(c, Requested(cursor).at.row, next.value.at.row, k);
    }
  }

  lemma RowLessIsTransitive(c: Config, a: RowKey, b: RowKey, k: RowKey)
    requires RowLess(c, a, b) && RowLess(c, b, k)
    ensures RowLess(c, a, k)
  {
    CompositeIsTotalOrder(a.key, b.key, k.key);
  }

  /** The page from `cursor` to `next` completes the copy up to `next`. */
  lemma PageExtendsCopy(c: Config, s: System, tid: TargetId, t: Target, body: Body, next: Option<Cursor>)
    requires c.topology.hashSplitN >= 1 && IsTarget(s.reps, tid) && CopySoFar(c, s, tid, t)
    requires PageInv(c, s, tid, t.cursor, body, next) && next.Some? && IsImporting(t)
    ensures CopySoFar(c, s, tid, ApplyPage(t, t.cursor, body, next))
  {
    hide OwnsAt, Adopts, RowPassed, HashPassed, PageEndFits;
    var t' := ApplyPage(t, t.cursor, body, next);
    forall k ensures CopiedRow(c, s, tid, t'.rows, RowPassed(c, t'.cursor, k), k) {
      assert CopiedRow(c, s, tid, t.rows, RowPassed(c, t.cursor, k), k);
      PassedGrows(c, s.reps, tid, t.cursor, next, k, 0);
      if body.Host? {
        assert CopiedRow(c, s, tid, body.rows, PageHasRow(c, t.cursor, next, k), k);
      } else {
        OverridesPassNoRow(c, t.cursor, k);
      }
    }
    forall h ensures h in t'.overrides <==> Adopts(c, s.reps, tid, h) && HashPassed(t'.cursor, h) {
      PassedGrows(c, s.reps, tid, t.cursor, next, RowKey(Items, ItemKey([], [])), h);
      if body.Host? {
        HostPassesHashes(t.cursor, h);
        HostPassesHashes(next, h);
      }
    }
  }

  lemma OverridesPassNoRow(c: Config, cursor: Option<Cursor>, k: RowKey)
    requires Requested(cursor).OverridesAt?
    ensures !RowPassed(c, cursor, k)
  {
  }

  lemma HostPassesHashes(cursor: Option<Cursor>, h: Hash)
    requires Requested(cursor).HostAt?
    ensures HashPassed(cursor, h)
  {
  }

  /** The last page leaves exactly the rows of the cutover that the target owns, and all promotions that it adopts. */
  lemma LastPageCompletesCopy(c: Config, s: System, tid: TargetId, t: Target, body: Body)
    requires c.topology.hashSplitN >= 1 && IsTarget(s.reps, tid) && CopySoFar(c, s, tid, t)
    requires PageInv(c, s, tid, t.cursor, body, None) && IsImporting(t) && tid.rep in s.snaps
    ensures var t' := ApplyPage(t, t.cursor, body, None);
            && CompleteCopy(c, s, tid, t')
            && forall k: RowKey :: Get(t'.rows, k) == if OwnsAt(c, s.reps, tid, k.key) then Get(s.snaps[tid.rep], k) else None
  {
    hide OwnsAt, Adopts, RowPassed, HashPassed;
    var t' := ApplyPage(t, t.cursor, body, None);
    forall k: RowKey ensures Get(t'.rows, k) == if OwnsAt(c, s.reps, tid, k.key) then Get(s.snaps[tid.rep], k) else None {
      assert CopiedRow(c, s, tid, t.rows, RowPassed(c, t.cursor, k), k);
      assert CopiedRow(c, s, tid, body.rows, PageHasRow(c, t.cursor, None, k), k);
    }
    forall k | k in t'.rows ensures OwnsAt(c, s.reps, tid, k.key) {
      assert Get(t'.rows, k).Some?;
    }
    forall h ensures h in t'.overrides <==> Adopts(c, s.reps, tid, h) {
      HostPassesHashes(t.cursor, h);
    }
  }

  /** The copy of a target after a page of its cursor. */
  lemma AppliedPageFits(c: Config, s: System, tid: TargetId, t: Target, body: Body, next: Option<Cursor>)
    requires c.topology.hashSplitN >= 1 && TargetInv(c, s, tid, t) && IsImporting(t)
    requires PageInv(c, s, tid, t.cursor, body, next) && CutOver(s.reps[tid.rep].state) && tid.rep in s.snaps
    ensures var t' := ApplyPage(t, t.cursor, body, next);
            && TargetInv(c, WithTarget(s, tid, t'), tid, t')
            && (next.None? ==> forall k: RowKey :: OwnsAt(c, s.reps, tid, k.key) ==> Get(t'.rows, k) == Get(s.snaps[tid.rep], k))
  {
    hide OwnsAt, Adopts, RowPassed, HashPassed, CopySoFar, CompleteCopy, PageInv, CutOver, TargetSlice;
    var t' := ApplyPage(t, t.cursor, body, next);
    if next.Some? {
      PageExtendsCopy(c, s, tid, t, body, next);
    } else {
      LastPageCompletesCopy(c, s, tid, t, body);
    }
    CopyIgnoresTargets(c, s, WithTarget(s, tid, t'), tid, t');
  }

  lemma AppliedPageKeeps(c: Config, s: System, tid: TargetId, body: Body, next: Option<Cursor>)
    requires c.topology.hashSplitN >= 1 && Inv(c, s) && tid in s.targets && IsImporting(s.targets[tid])
    requires TargetInv(c, s, tid, s.targets[tid]) && PageInv(c, s, tid, s.targets[tid].cursor, body, next)
    requires CutOver(s.reps[tid.rep].state) && tid.rep in s.snaps
    ensures Inv(c, WithTarget(s, tid, ApplyPage(s.targets[tid], s.targets[tid].cursor, body, next)))
  {
    var t := s.targets[tid];
    var t' := ApplyPage(t, t.cursor, body, next);
    assert !IsImporting(t') ==> next.None?;
    AppliedPageFits(c, s, tid, t, body, next);
    hide Inv, OwnsAt, TargetInv, PageInv, CutOver, IsTarget, ApplyPage, Get, WithTarget;
    TargetMoveKeeps(c, s, tid, t');
  }

  /** A target that moves and sends nothing. */
  lemma TargetMoveKeeps(c: Config, s: System, tid: TargetId, t: Target)
    requires c.topology.hashSplitN >= 1 && Inv(c, s) && tid in s.targets && IsImporting(s.targets[tid])
    requires TargetInv(c, WithTarget(s, tid, t), tid, t)
    requires !IsImporting(t) ==> forall k: RowKey :: OwnsAt(c, s.reps, tid, k.key) ==> tid.rep in s.snaps && Get(t.rows, k) == Get(s.snaps[tid.rep], k)
    ensures Inv(c, WithTarget(s, tid, t))
  {
    hide Inv, OwnsAt, TargetInv, Get, MessageInv;
    var s' := WithTarget(s, tid, t);
    assert s.net + {} == s.net;
    TargetStepKeeps(c, s, s', tid, t, {});
  }

  lemma SameTarget(s: System, tid: TargetId)
    requires tid in s.targets
    ensures WithTarget(s, tid, s.targets[tid]) == s
  {
    assert s.targets[tid := s.targets[tid]] == s.targets;
  }

  lemma DeliverPageKeeps(c: Config, s: System, tid: TargetId, cursor: Option<Cursor>, body: Body, next: Option<Cursor>)
    requires c.topology.hashSplitN >= 1 && Inv(c, s) && Page(tid, cursor, body, next) in s.net && tid in s.targets
    ensures Inv(c, WithTarget(s, tid, ApplyPage(s.targets[tid], cursor, body, next)))
  {
    MessageHolds(c, s, Page(tid, cursor, body, next));
    assert TargetInv(c, s, tid, s.targets[tid]) && SnapsInv(s);
    hide Inv, TargetInv, SnapsInv, PageInv, WithTarget, CutOver, IsTarget;
    if !IsImporting(s.targets[tid]) || s.targets[tid].cursor != cursor {
      SameTarget(s, tid);
    } else {
      hide ApplyPage;
      PageIsAfterCutOver(c, s, tid, cursor, body, next);
      AppliedPageKeeps(c, s, tid, body, next);
    }
  }

  lemma PageIsAfterCutOver(c: Config, s: System, tid: TargetId, cursor: Option<Cursor>, body: Body, next: Option<Cursor>)
    requires c.topology.hashSplitN >= 1 && SnapsInv(s) && PageInv(c, s, tid, cursor, body, next)
    ensures IsTarget(s.reps, tid) && CutOver(s.reps[tid.rep].state) && tid.rep in s.snaps
  {
  }

  lemma CopyIgnoresTargets(c: Config, s: System, s': System, tid: TargetId, t: Target)
    requires c.topology.hashSplitN >= 1 && IsTarget(s.reps, tid) && s'.reps == s.reps && s'.snaps == s.snaps
    ensures CopySoFar(c, s, tid, t) ==> CopySoFar(c, s', tid, t)
    ensures CompleteCopy(c, s, tid, t) ==> CompleteCopy(c, s', tid, t)
  {
    hide OwnsAt, Adopts, RowPassed, HashPassed;
    if CopySoFar(c, s, tid, t) {
      forall k ensures CopiedRow(c, s', tid, t.rows, RowPassed(c, t.cursor, k), k) {
        assert CopiedRow(c, s, tid, t.rows, RowPassed(c, t.cursor, k), k);
      }
    }
  }

  /** While a row is in cutover, the source still holds the rows of the cutover for its targets. */
  lemma ServedPageHolds(c: Config, s: System, tid: TargetId, cursor: Option<Cursor>, next: Option<Cursor>)
    requires c.topology.hashSplitN >= 1 && Inv(c, s) && IsTarget(s.reps, tid) && s.reps[tid.rep].state.Cutover?
    requires PageEndFits(c, s.reps, tid, cursor, next)
    ensures PageInv(c, s, tid, cursor, BuildBody(c, s, tid, cursor, next), next)
  {
    hide RepsInv, TargetsInv, MarksInv, NetInv, OwnedRow, Adopts, RowPassed, HashPassed, PageEndFits;
    var body := BuildBody(c, s, tid, cursor, next);
    if Requested(cursor).OverridesAt? {
      forall h ensures h in body.hashes <==> Adopts(c, s.reps, tid, h) && !HashPassed(cursor, h) && HashPassed(next, h) {
        AdoptedIsTerminal(c, s.reps, tid, h);
      }
    } else {
      forall k ensures CopiedRow(c, s, tid, body.rows, PageHasRow(c, cursor, next, k), k) {
        if OwnsAt(c, s.reps, tid, k.key) {
          assert OwnedRow(s, tid, k);
          FrozenRow(s, tid, k);
        }
      }
    }
  }

  lemma AdoptedIsTerminal(c: Config, r: Repartitions, tid: TargetId, h: Hash)
    requires c.topology.hashSplitN >= 1 && IsTarget(r, tid)
    ensures Adopts(c, r, tid, h) ==> h in TerminalHashes(c, r)
  {
  }

  lemma FrozenRow(s: System, tid: TargetId, k: RowKey)
    requires tid.rep in s.reps && s.reps[tid.rep].state.Cutover? && OwnedRow(s, tid, k)
    ensures tid.rep in s.snaps && Get(s.rows, k) == Get(s.snaps[tid.rep], k)
  {
  }

  lemma ServePageKeeps(c: Config, s: System, tid: TargetId, cursor: Option<Cursor>, next: Option<Cursor>)
    requires c.topology.hashSplitN >= 1 && Inv(c, s) && IsTarget(s.reps, tid) && s.reps[tid.rep].state.Cutover?
    requires PageEndFits(c, s.reps, tid, cursor, next)
    ensures Inv(c, Send(s, Page(tid, cursor, BuildBody(c, s, tid, cursor, next), next)))
  {
    hide Inv;
    ServedPageHolds(c, s, tid, cursor, next);
    SendKeeps(c, s, Page(tid, cursor, BuildBody(c, s, tid, cursor, next), next));
  }

  lemma RecordAckKeeps(c: Config, s: System, tid: TargetId)
    requires c.topology.hashSplitN >= 1 && Inv(c, s) && tid in s.targets && s.targets[tid].state.Imported?
    ensures Inv(c, WithTarget(s, tid, s.targets[tid].(state := Active)))
  {
    var t := s.targets[tid].(state := Active);
    var s' := WithTarget(s, tid, t);
    TargetInvHolds(c, s, tid);
    assert s'.net == s.net + {};
    assert TargetInv(c, s', tid, t) by {
      hide OwnsAt, Adopts;
      assert CompleteCopy(c, s, tid, s.targets[tid]);
    }
    hide Inv, TargetInv, OwnsAt;
    TargetStepKeeps(c, s, s', tid, t, {});
  }

  // ─── writes ─────────────────────────────────────────────────────────────────

  lemma GetOfPut(rows: Rows, k: RowKey, v: Option<Bytes>, other: RowKey)
    ensures Get(Put(rows, k, v), other) == if other == k then v else Get(rows, other)
  {
  }

  lemma WriteAtSourceKeeps(c: Config, s: System, k: RowKey, v: Option<Bytes>)
    requires c.topology.hashSplitN >= 1 && Inv(c, s) && SourceServes(c, s.reps, k.key)
    ensures Inv(c, s.(rows := Put(s.rows, k, v), table := Put(s.table, k, v)))
  {
    hide RepsInv, TargetInv, MessageInv, OwnsAt, Put, Get;
    var s' := s.(rows := Put(s.rows, k, v), table := Put(s.table, k, v));
    forall j: RowKey | SourceServes(c, s'.reps, j.key) ensures Get(s'.rows, j) == Get(s'.table, j) {
      GetOfPut(s.rows, k, v, j);
      GetOfPut(s.table, k, v, j);
      assert Get(s.rows, j) == Get(s.table, j);
    }
    forall j | j in s'.rows ensures InScope(c, j.key) {
      PutKeys(s.rows, k, v, j);
    }
    forall tid: TargetId, j: RowKey | OwnsAt(c, s'.reps, tid, j.key)
      ensures tid.rep in s'.reps && OwnedRow(s', tid, j)
    {
      OwnsAtIsTarget(c, s.reps, tid, j.key);
      assert OwnedRow(s, tid, j);
      OwnersAreDisjoint(c, s.reps, tid, tid, j.key);
      GetOfPut(s.rows, k, v, j);
      GetOfPut(s.table, k, v, j);
    }
    forall tid | tid in s'.targets ensures TargetInv(c, s', tid, s'.targets[tid]) {
      TargetInvHolds(c, s, tid);
      TargetInvIgnoresRows(c, s, s', tid, s.targets[tid]);
    }
    forall m | m in s'.net ensures MessageInv(c, s', m) {
      MessageHolds(c, s, m);
      MessageInvIgnoresRows(c, s, s', m);
    }
    assert MarksInv(s') by {
      WritesKeepMarks(s, s');
    }
  }

  lemma PutKeys(rows: Rows, k: RowKey, v: Option<Bytes>, j: RowKey)
    ensures j in Put(rows, k, v) ==> j == k || j in rows
  {
  }

  lemma WritesKeepMarks(s: System, s': System)
    requires MarksInv(s) && s'.reps == s.reps
    requires forall tid :: tid in s.targets ==> tid in s'.targets && (IsImporting(s'.targets[tid]) <==> IsImporting(s.targets[tid]))
    ensures MarksInv(s')
  {
    forall tid | IsTarget(s'.reps, tid) ensures MarkOk(s', tid, s'.reps[tid.rep].targets[tid.index]) {
      assert MarkOk(s, tid, s.reps[tid.rep].targets[tid.index]);
    }
  }

  /** A target that serves a key is the owner that the source names. */
  lemma ServingTargetOwns(c: Config, s: System, tid: TargetId, key: ItemKey)
    requires c.topology.hashSplitN >= 1 && TargetsInv(c, s) && tid in s.targets && TargetServes(c, s.targets[tid], key)
    ensures OwnsAt(c, s.reps, tid, key) && HasCopy(s, tid)
  {
    TargetInvHolds(c, s, tid);
    TerminalIsInHashes(c, s.reps, HashOf(c, key));
  }

  function WrittenAtTarget(s: System, tid: TargetId, k: RowKey, v: Option<Bytes>): System
    requires tid in s.targets
  {
    WithTarget(s, tid, s.targets[tid].(rows := Put(s.targets[tid].rows, k, v))).(table := Put(s.table, k, v))
  }

  lemma WriteAtTargetSourceData(c: Config, s: System, tid: TargetId, k: RowKey, v: Option<Bytes>)
    requires c.topology.hashSplitN >= 1 && RepsInv(c, s.reps) && SourceData(c, s) && tid in s.targets && OwnsAt(c, s.reps, tid, k.key)
    ensures SourceData(c, WrittenAtTarget(s, tid, k, v))
  {
    hide RepsInv, OwnsAt, Put, Get, SourceServes;
    var s' := WrittenAtTarget(s, tid, k, v);
    OwnersAreDisjoint(c, s.reps, tid, tid, k.key);
    forall j: RowKey | SourceServes(c, s'.reps, j.key) ensures Get(s'.rows, j) == Get(s'.table, j) {
      GetOfPut(s.table, k, v, j);
      assert Get(s.rows, j) == Get(s.table, j);
    }
  }

  lemma WriteAtTargetOwnedData(c: Config, s: System, tid: TargetId, k: RowKey, v: Option<Bytes>)
    requires c.topology.hashSplitN >= 1 && RepsInv(c, s.reps) && OwnedData(c, s) && HasCopy(s, tid) && OwnsAt(c, s.reps, tid, k.key)
    ensures OwnedData(c, WrittenAtTarget(s, tid, k, v))
  {
    hide RepsInv, OwnsAt, Put, Get;
    var s' := WrittenAtTarget(s, tid, k, v);
    forall other: TargetId, j: RowKey | OwnsAt(c, s'.reps, other, j.key)
      ensures other.rep in s'.reps && OwnedRow(s', other, j)
    {
      OwnsAtIsTarget(c, s.reps, other, j.key);
      assert OwnedRow(s, other, j);
      OwnersAreDisjoint(c, s.reps, tid, other, k.key);
      GetOfPut(s.targets[tid].rows, k, v, j);
      GetOfPut(s.table, k, v, j);
    }
  }

  lemma WriteAtTargetKeeps(c: Config, s: System, tid: TargetId, k: RowKey, v: Option<Bytes>)
    requires c.topology.hashSplitN >= 1 && Inv(c, s) && tid in s.targets && TargetServes(c, s.targets[tid], k.key)
    ensures Inv(c, WrittenAtTarget(s, tid, k, v))
  {
    ServingTargetOwns(c, s, tid, k.key);
    WriteAtTargetSourceData(c, s, tid, k, v);
    WriteAtTargetOwnedData(c, s, tid, k, v);
    var s' := WrittenAtTarget(s, tid, k, v);
    hide RepsInv, TargetsInv, NetInv, MarksInv, SnapsInv, OwnsAt, Put, SourceData, OwnedData, TargetServes, SourceServes;
    WriteAtTargetTargets(c, s, tid, k, v);
    NetIgnoresRows(c, s, s');
    WritesKeepMarks(s, s');
    SnapsIgnoreRows(s, s');
  }

  lemma SnapsIgnoreRows(s: System, s': System)
    requires SnapsInv(s) && s'.reps == s.reps && s'.snaps == s.snaps
    ensures SnapsInv(s')
  {
  }

  lemma NetIgnoresRows(c: Config, s: System, s': System)
    requires c.topology.hashSplitN >= 1 && NetInv(c, s) && s'.reps == s.reps && s'.snaps == s.snaps && s'.net == s.net
    requires forall tid :: tid in s.targets ==> tid in s'.targets && (IsImporting(s'.targets[tid]) <==> IsImporting(s.targets[tid]))
    ensures NetInv(c, s')
  {
    hide MessageInv;
    forall m | m in s'.net ensures MessageInv(c, s', m) {
      MessageInvIgnoresRows(c, s, s', m);
    }
  }

  lemma WriteAtTargetTargets(c: Config, s: System, tid: TargetId, k: RowKey, v: Option<Bytes>)
    requires c.topology.hashSplitN >= 1 && TargetsInv(c, s) && HasCopy(s, tid) && OwnsAt(c, s.reps, tid, k.key)
    ensures TargetsInv(c, WrittenAtTarget(s, tid, k, v))
  {
    hide TargetInv, OwnsAt, Put;
    var s' := WrittenAtTarget(s, tid, k, v);
    forall other | other in s'.targets ensures TargetInv(c, s', other, s'.targets[other]) {
      if other == tid {
        WrittenTargetInv(c, s, s', tid, k, v);
      } else {
        TargetInvIgnoresRows(c, s, s', other, s.targets[other]);
      }
    }
  }

  lemma WrittenTargetInv(c: Config, s: System, s': System, tid: TargetId, k: RowKey, v: Option<Bytes>)
    requires c.topology.hashSplitN >= 1 && tid in s.targets && TargetInv(c, s, tid, s.targets[tid]) && HasCopy(s, tid)
    requires OwnsAt(c, s.reps, tid, k.key) && s'.reps == s.reps && s'.snaps == s.snaps
    ensures TargetInv(c, s', tid, s.targets[tid].(rows := Put(s.targets[tid].rows, k, v)))
  {
    hide OwnsAt, Adopts;
    forall j | j in Put(s.targets[tid].rows, k, v) ensures OwnsAt(c, s.reps, tid, j.key) {
      PutKeys(s.targets[tid].rows, k, v, j);
    }
  }

  // ─── every step ─────────────────────────────────────────────────────────────

  lemma NextKeeps(c: Config, s: System, a: Action)
    requires c.topology.hashSplitN >= 1 && ValidConfig(c) && Inv(c, s)
    ensures Inv(c, Next(c, s, a))
  {
    if Enabled(c, s, a) {
      NextEnabledKeeps(c, s, a);
    }
  }

  lemma NextEnabledKeeps(c: Config, s: System, a: Action)
    requires c.topology.hashSplitN >= 1 && ValidConfig(c) && Inv(c, s) && Enabled(c, s, a)
    ensures Inv(c, Next(c, s, a))
  {
    hide Inv, BuildBody, PlanRow, StartInit, RecordInit, CutOverRow, AcceptAck, CleanUpRow, ApplyPage, Put, DoDeliverInit,
         SourceServes, TargetServes, CanQueue, KindFits, AllInitialized, PageEndFits, PageIsAcceptable, Reclaimable;
    match a {
      case Queue(id, kind) => QueueKeeps(c, s, id, kind);
      case Plan(id, boundaries) => PlanKeeps(c, s, id, boundaries);
      case SendInit(tid) => SendInitKeeps(c, s, tid);
      case DeliverInit(tid, slice) => DeliverInitKeeps(c, s, tid, slice);
      case RecordInitOk(tid) => RecordInitKeeps(c, s, tid);
      case CutOverNow(id) => CutOverKeeps(c, s, id);
      case SendPull(tid) => SendKeeps(c, s, PullRequest(tid, s.targets[tid].cursor));
      case ServePage(tid, cursor, next) => ServePageKeeps(c, s, tid, cursor, next);
      case DeliverPage(tid, cursor, body, next) => DeliverPageKeeps(c, s, tid, cursor, body, next);
      case SendAck(tid) => SendKeeps(c, s, Ack(tid));
      case DeliverAck(tid) => DeliverAckKeeps(c, s, tid);
      case RecordAckOk(tid) =>
        if s.targets[tid].state.Imported? { RecordAckKeeps(c, s, tid); }
      case CleanUp(id, reclaimed, done) => CleanUpKeeps(c, s, id, reclaimed, done);
      case WriteAtSource(k, v) => WriteAtSourceKeeps(c, s, k, v);
      case WriteAtTarget(tid, k, v) => WriteAtTargetKeeps(c, s, tid, k, v);
    }
  }
}
