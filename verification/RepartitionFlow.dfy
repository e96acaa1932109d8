/**
 * The two halves of the flow as objects over their durable rows. Each method is one storage
 * transaction, and leaves the rows that the step of the transition system leaves.
 */
module RepartitionFlow {
  import opened Bytes
  import opened RoutingHash
  import opened RepartitionSlices
  import opened RepartitionSystem

  /** The target is marked and no other row of the repartition changed, and it is completed exactly when every target is marked. */
  predicate IsMarked(before: Repartition, after: Repartition, i: nat) {
    && |after.targets| == |before.targets| && after.kind == before.kind && i < |before.targets|
    && (forall j :: 0 <= j < |before.targets| && j != i ==> after.targets[j] == before.targets[j])
    && after.targets[i] == TargetRow(before.targets[i].slice, before.targets[i].initialization, true)
    && (if forall j :: 0 <= j < |after.targets| ==> after.targets[j].acknowledged then after.state == Completed else after.state == before.state)
  }

  lemma AckMarks(reps: Repartitions, tid: TargetId)
    ensures IsTarget(reps, tid) && reps[tid.rep].state == Cutover ==>
              IsMarked(reps[tid.rep], RepartitionSystem.AcceptAck(reps[tid.rep], tid.index), tid.index)
    ensures IsTarget(reps, tid) && reps[tid.rep].state != Cutover ==> RepartitionSystem.AcceptAck(reps[tid.rep], tid.index) == reps[tid.rep]
  {
  }

  /** The row is planned with the slices of its plan, and no target is called or marked yet. */
  predicate IsPlannedWith(c: Config, before: Repartition, after: Repartition, boundaries: seq<ItemKey>)
    requires KindFits(c, before.kind)
  {
    var slices := PlanSlices(c, before.kind, boundaries);
    && slices.Some? && after.kind == before.kind && after.state == Planned && |after.targets| == |slices.value|
    && forall i :: 0 <= i < |after.targets| ==> after.targets[i] == TargetRow(slices.value[i], Pending, false)
  }

  class RepartitionSource {
    const config: Config
    var reps: Repartitions

    constructor (config: Config)
      ensures this.config == config && reps == map[]
    {
      this.config := config;
      reps := map[];
    }

    /** `queue`: arbitration and the insert in one transaction. */
    method Queue(id: nat, kind: Kind) returns (queued: bool)
      requires id !in reps
      modifies this
      ensures queued <==> CanQueue(config, old(reps), kind)
      ensures queued <==>
        && (forall other :: other in old(reps) ==> old(reps)[other].kind.KeyPromotion?)
        && (kind.RangeSplit? <==> config.identity.RangeNode?)
        && (kind.HashSplit? ==> forall other :: other in old(reps) ==> old(reps)[other].state == Completed || old(reps)[other].state == Cleaned)
        && (kind.KeyPromotion? ==> kind.promoted !in config.adopted && forall other :: other in old(reps) ==> old(reps)[other].kind != kind)
      ensures reps == if queued then old(reps)[id := Repartition(kind, Queued, [])] else old(reps)
    {
      if exists other :: other in reps && IsSplit(reps[other].kind) {
        return false;
      }
      match kind {
        case HashSplit =>
          if !config.identity.HashNode? || HasUnfinishedPromotion(reps) {
            return false;
          }
        case RangeSplit =>
          if !config.identity.RangeNode? {
            return false;
          }
        case KeyPromotion(h) =>
          if !config.identity.HashNode? || HasRouteOverride(config, reps, h) {
            return false;
          }
      }
      reps := reps[id := Repartition(kind, Queued, [])];
      return true;
    }

    /** The slices of the plan, one target after the other. A refused boundary list gives none. */
    method MakeSlices(kind: Kind, boundaries: seq<ItemKey>, childCount: nat) returns (slices: Option<seq<Slice>>)
      requires KindFits(config, kind) && childCount >= 2
      ensures slices.Some? ==> slices == PlanSlices(config, kind, boundaries)
      ensures slices.None? <==> kind.RangeSplit? && !(|boundaries| == childCount - 1 && BoundariesFit(config, boundaries))
    {
      match kind {
        case HashSplit =>
          var made: seq<Slice> := [];
          for i := 0 to config.topology.hashSplitN
            invariant |made| == i && forall j :: 0 <= j < i ==> made[j] == HashChild(j, |config.identity.path| + 1)
          {
            made := made + [HashChild(i, |config.identity.path| + 1)];
          }
          assert made == PlanSlices(config, kind, boundaries).value;
          return Some(made);
        case RangeSplit =>
          var ok := CheckBoundaries(config, boundaries, childCount);
          if !ok {
            return None;
          }
          var made: seq<Slice> := [];
          for i := 0 to |boundaries| + 1
            invariant |made| == i && forall j :: 0 <= j < i ==> made[j] == RangeSlices(config, boundaries)[j]
          {
            var start := if i == 0 then config.identity.start else Some(boundaries[i - 1]);
            var end := if i == |boundaries| then config.identity.end else Some(boundaries[i]);
            made := made + [RangeSlice(config.identity.routingHash, start, end)];
          }
          assert made == RangeSlices(config, boundaries);
          return Some(made);
        case KeyPromotion(h) => return Some([PromotedHash(h)]);
      }
    }

    /** `#plan`. */
    method Plan(id: nat, boundaries: seq<ItemKey>, childCount: nat) returns (planned: bool)
      requires id in reps && KindFits(config, reps[id].kind) && childCount >= 2
      modifies this
      ensures planned ==> reps == old(reps)[id := PlanRow(config, old(reps)[id], boundaries)]
      ensures !planned ==> reps == old(reps)
      ensures planned ==> IsPlannedWith(config, old(reps)[id], reps[id], boundaries)
      ensures planned <==> old(reps)[id].state.Queued?
                           && (old(reps)[id].kind.RangeSplit? ==> |boundaries| == childCount - 1 && BoundariesFit(config, boundaries))
    {
      if !reps[id].state.Queued? {
        return false;
      }
      var slices := MakeSlices(reps[id].kind, boundaries, childCount);
      if slices.None? {
        return false;
      }
      var targets: seq<TargetRow> := [];
      for i := 0 to |slices.value|
        invariant targets == PlannedTargets(slices.value[..i])
      {
        targets := targets + [TargetRow(slices.value[i], Pending, false)];
        assert targets == PlannedTargets(slices.value[..i + 1]);
      }
      assert slices.value[..|slices.value|] == slices.value;
      reps := reps[id := reps[id].(state := Planned, targets := targets)];
      return true;
    }

    /** The transaction before the calls of `#initializeTargets`: every due target that is pending moves. */
    method MarkInitializing(id: nat, due: seq<nat>)
      requires id in reps && forall i :: 0 <= i < |due| ==> due[i] < |reps[id].targets|
      modifies this
      ensures reps.Keys == old(reps).Keys && forall other :: other in reps && other != id ==> reps[other] == old(reps)[other]
      ensures reps[id] == old(reps)[id].(targets := reps[id].targets) && |reps[id].targets| == |old(reps)[id].targets|
      ensures forall j :: 0 <= j < |reps[id].targets| ==>
        reps[id].targets[j] == if j in due then StartInit(old(reps)[id], j).targets[j] else old(reps)[id].targets[j]
      ensures forall j :: 0 <= j < |reps[id].targets| ==>
        && reps[id].targets[j] == old(reps)[id].targets[j].(initialization := reps[id].targets[j].initialization)
        && (if j in due && old(reps)[id].targets[j].initialization == Pending then reps[id].targets[j].initialization == Initializing
            else reps[id].targets[j] == old(reps)[id].targets[j])
    {
      var rep := reps[id];
      for i := 0 to |due|
        invariant rep == reps[id].(targets := rep.targets) && |rep.targets| == |reps[id].targets|
        invariant forall j :: 0 <= j < |rep.targets| ==>
          rep.targets[j] == if j in due[..i] then StartInit(reps[id], j).targets[j] else reps[id].targets[j]
      {
        if rep.targets[due[i]].initialization.Pending? {
          rep := SetTarget(rep, due[i], rep.targets[due[i]].(initialization := Initializing));
        }
      }
      assert due[..|due|] == due;
      reps := reps[id := rep];
    }

    /** `#cutover`, when the host hook allows it. */
    method CutOver(id: nat, allowed: bool) returns (moved: bool)
      requires id in reps
      modifies this
      ensures moved <==> allowed && old(reps)[id].state.Planned? && AllInitialized(old(reps)[id])
      ensures reps == if moved then old(reps)[id := CutOverRow(old(reps)[id])] else old(reps)
      ensures moved <==> allowed && old(reps)[id].state == Planned && old(reps)[id].targets != []
                         && forall i :: 0 <= i < |old(reps)[id].targets| ==> old(reps)[id].targets[i].initialization == Initialized
      ensures reps == if moved then old(reps)[id := old(reps)[id].(state := Cutover)] else old(reps)
    {
      var rep := reps[id];
      if !rep.state.Planned? {
        return false;
      }
      var initialized := 0;
      for i := 0 to |rep.targets|
        invariant initialized <= i
        invariant initialized == i <==> forall j :: 0 <= j < i ==> rep.targets[j].initialization.Initialized?
      {
        if rep.targets[i].initialization.Initialized? {
          initialized := initialized + 1;
        }
      }
      if |rep.targets| == 0 || initialized != |rep.targets| || !allowed {
        return false;
      }
      reps := reps[id := rep.(state := Cutover)];
      return true;
    }

    /** `acceptAck`. An unknown target changes nothing, and a row before its cutover is an error. */
    method AcceptAck(tid: TargetId) returns (known: bool, accepted: bool)
      modifies this
      ensures known <==> IsTarget(old(reps), tid)
      ensures accepted <==> known && RepartitionSystem.CutOver(old(reps)[tid.rep].state)
      ensures reps == if accepted then old(reps)[tid.rep := RepartitionSystem.AcceptAck(old(reps)[tid.rep], tid.index)] else old(reps)
      ensures accepted && old(reps)[tid.rep].state == Cutover ==>
        && reps.Keys == old(reps).Keys && (forall id :: id in reps && id != tid.rep ==> reps[id] == old(reps)[id])
        && IsMarked(old(reps)[tid.rep], reps[tid.rep], tid.index)
      ensures accepted && old(reps)[tid.rep].state != Cutover ==> reps == old(reps)
    {
      AckMarks(reps, tid);
      if tid.rep !in reps || tid.index >= |reps[tid.rep].targets| {
        return false, false;
      }
      var rep := reps[tid.rep];
      if rep.state.Queued? || rep.state.Planned? {
        return true, false;
      }
      if !rep.state.Cutover? {
        assert reps[tid.rep := rep] == reps;
        return true, true;
      }
      rep := rep.(targets := rep.targets[tid.index := rep.targets[tid.index].(acknowledged := true)]);
      var acknowledged := 0;
      for i := 0 to |rep.targets|
        invariant acknowledged <= i
        invariant acknowledged == i <==> forall j :: 0 <= j < i ==> rep.targets[j].acknowledged
      {
        if rep.targets[i].acknowledged {
          acknowledged := acknowledged + 1;
        }
      }
      if acknowledged == |rep.targets| {
        rep := rep.(state := Completed);
      }
      reps := reps[tid.rep := rep];
      return true, true;
    }
  }

  /** The ID and the Durable Object name of a partition. */
  datatype PartitionRef = PartitionRef(partitionId: nat, doName: nat)

  /** The repartition of an import and its source. */
  datatype Origin = Origin(repartitionId: nat, source: PartitionRef)

  /** The cursor moves, the last page completes the import, and the page adds its overrides, or its rows that are absent. */
  ghost predicate Applied(before: Target, after: Target, body: Body, next: Option<Cursor>) {
    && after.cursor == next && after.slice == before.slice
    && (after.state == if next == None then Imported else Importing)
    && (body.Overrides? ==> after.rows == before.rows && forall h :: h in after.overrides <==> h in before.overrides || h in body.hashes)
    && (body.Host? ==> after.overrides == before.overrides)
    && (body.Host? ==> forall k :: Get(after.rows, k) == if Get(before.rows, k) != None then Get(before.rows, k) else Get(body.rows, k))
  }

  /** A partition that can be a target. Only a target of an import has a record, and with it an origin. */
  class RepartitionTarget {
    const config: Config
    var hasIdentity: bool
    var origin: Option<Origin>
    var record: Option<Target>

    predicate Valid()
      reads this
    {
      (record.Some? <==> origin.Some?) && (record.Some? ==> hasIdentity)
    }

    constructor (config: Config, hasIdentity: bool)
      ensures Valid() && this.config == config && this.hasIdentity == hasIdentity && record.None?
    {
      this.config := config;
      this.hasIdentity := hasIdentity;
      record, origin := None, None;
    }

    /**
     * `initAsTarget`: the first call gives a partition with no identity its record, and an equal call
     * confirms it. A call of another repartition, from another source, for another slice, or to a partition
     * that is no target is a conflict, and changes nothing.
     */
    method InitAsTarget(repartitionId: nat, source: PartitionRef, slice: Slice) returns (confirmed: bool)
      requires Valid()
      modifies this
      ensures Valid()
      ensures confirmed <==> if old(record).Some? then old(origin) == Some(Origin(repartitionId, source)) && old(record).value.slice == slice else !old(hasIdentity)
      ensures confirmed ==> hasIdentity && origin == Some(Origin(repartitionId, source)) && record.Some? && record.value.slice == slice
      ensures record == if confirmed && old(record).None? then Some(Target(AwaitingData, slice, None, map[], {})) else old(record)
      ensures !confirmed ==> hasIdentity == old(hasIdentity) && origin == old(origin)
    {
      if record.Some? {
        if origin.value.repartitionId != repartitionId || origin.value.source != source || record.value.slice != slice {
          return false;
        }
        origin := Some(origin.value.(source := source));
        return true;
      }
      if hasIdentity {
        return false;
      }
      hasIdentity := true;
      origin := Some(Origin(repartitionId, source));
      record := Some(Target(AwaitingData, slice, None, map[], {}));
      return true;
    }

    /** The row inserts of a host page: a row that is present stays. */
    method InsertAbsent(rows: Rows, page: Rows) returns (all: Rows)
      ensures all == page + rows
    {
      all := rows;
      var rest := page.Keys;
      while rest != {}
        invariant rest <= page.Keys && rows.Keys <= all.Keys <= rows.Keys + page.Keys
        invariant forall k :: k in page && k !in rest ==> k in all
        invariant forall k :: k in all ==> all[k] == if k in rows then rows[k] else page[k]
        decreases rest
      {
        var k :| k in rest;
        if k !in all {
          all := all[k := page[k]];
        }
        rest := rest - {k};
      }
    }

    /**
     * The page transaction of `importOnePage`, for a page that was requested with `cursor`. It applies
     * only to an unfinished import whose cursor has not moved.
     */
    method ApplyRequestedPage(cursor: Option<Cursor>, body: Body, next: Option<Cursor>) returns (applied: bool)
      requires Valid() && record.Some?
      modifies this
      ensures Valid() && hasIdentity == old(hasIdentity) && origin == old(origin)
      ensures applied <==> IsImporting(old(record).value) && old(record).value.cursor == cursor
      ensures record == Some(ApplyPage(old(record).value, cursor, body, next))
      ensures if applied then Applied(old(record).value, record.value, body, next) else record == old(record)
    {
      var current := record.value;
      if current.state.Imported? || current.state.Active? || current.cursor != cursor {
        return false;
      }
      match body {
        case Overrides(hashes) => current := current.(overrides := current.overrides + hashes);
        case Host(rows) =>
          var all := InsertAbsent(current.rows, rows);
          current := current.(rows := all);
      }
      record := Some(current.(state := if next.None? then Imported else Importing, cursor := next));
      return true;
    }
  }
}
