/**
 * One repartition source and its targets as a transition system. Messages stay in `net` for ever, so
 * each can be lost, late, or delivered many times, also by a second import run or after a restart:
 * every durable change is one step, and what a step knows beyond the durable rows came in a message.
 */
module RepartitionSystem {
  import opened Bytes
  import opened KeyCodec
  import opened RoutingHash
  import opened RepartitionSlices

  // ─── rows ───────────────────────────────────────────────────────────────────

  /** The committed items move first, and then the locks of the transactions in flight. */
  datatype Stream = Items | Locks

  datatype RowKey = RowKey(stream: Stream, key: ItemKey)

  type Rows = map<RowKey, Bytes>

  function Get(rows: Rows, k: RowKey): Option<Bytes> {
    if k in rows then Some(rows[k]) else None
  }

  function Put(rows: Rows, k: RowKey, v: Option<Bytes>): Rows {
    if v.Some? then rows[k := v.value] else rows - {k}
  }

  /** The order of the migration streams: by stream, and then in the storage order of a partition. */
  predicate RowLess(c: Config, a: RowKey, b: RowKey) {
    if a.stream != b.stream then a.stream.Items?
    else HashOf(c, a.key) < HashOf(c, b.key) || (HashOf(c, a.key) == HashOf(c, b.key) && CompositeLess(a.key, b.key))
  }

  // ─── the source ─────────────────────────────────────────────────────────────

  datatype SourceState = Queued | Planned | Cutover | Completed | Cleaned

  datatype Initialization = Pending | Initializing | Initialized

  datatype TargetRow = TargetRow(slice: Slice, initialization: Initialization, acknowledged: bool)

  datatype Repartition = Repartition(kind: Kind, state: SourceState, targets: seq<TargetRow>)

  /** `fokos_repartitions` with its targets, by id. */
  type Repartitions = map<nat, Repartition>

  datatype TargetId = TargetId(rep: nat, index: nat)

  function Rank(s: SourceState): nat {
    match s
    case Queued => 0
    case Planned => 1
    case Cutover => 2
    case Completed => 3
    case Cleaned => 4
  }

  /** The source has given the moved keys away. */
  predicate CutOver(s: SourceState) {
    Rank(s) >= 2
  }

  predicate Finished(s: SourceState) {
    Rank(s) >= 3
  }

  predicate HasSplit(r: Repartitions) {
    exists id :: id in r && IsSplit(r[id].kind)
  }

  predicate IsPromotionOf(rep: Repartition, h: Hash) {
    rep.kind == KeyPromotion(h)
  }

  predicate HasUnfinishedPromotion(r: Repartitions) {
    exists id :: id in r && r[id].kind.KeyPromotion? && !Finished(r[id].state)
  }

  predicate HasRouteOverride(c: Config, r: Repartitions, h: Hash) {
    h in c.adopted || exists id :: id in r && IsPromotionOf(r[id], h)
  }

  predicate OwnedByRangeTree(c: Config, r: Repartitions, h: Hash) {
    h in c.adopted || exists id :: id in r && IsPromotionOf(r[id], h) && CutOver(r[id].state)
  }

  predicate HasTerminalOverride(c: Config, r: Repartitions, h: Hash) {
    h in c.adopted || exists id :: id in r && IsPromotionOf(r[id], h) && Finished(r[id].state)
  }

  function TerminalHashes(c: Config, r: Repartitions): set<Hash> {
    c.adopted + set id | id in r && r[id].kind.KeyPromotion? && Finished(r[id].state) :: r[id].kind.promoted
  }

  predicate RouterRole(r: Repartitions) {
    exists id :: id in r && IsSplit(r[id].kind) && CutOver(r[id].state)
  }

  /** The arbitration of `queue`. */
  predicate CanQueue(c: Config, r: Repartitions, kind: Kind) {
    && !HasSplit(r) && KindFits(c, kind)
    && (kind.HashSplit? ==> !HasUnfinishedPromotion(r))
    && (kind.KeyPromotion? ==> !HasRouteOverride(c, r, kind.promoted))
  }

  predicate AllInitialized(rep: Repartition) {
    rep.targets != [] && forall i :: 0 <= i < |rep.targets| ==> rep.targets[i].initialization.Initialized?
  }

  predicate AllAcknowledged(rep: Repartition) {
    forall i :: 0 <= i < |rep.targets| ==> rep.targets[i].acknowledged
  }

  function SetTarget(rep: Repartition, i: nat, t: TargetRow): Repartition
    requires i < |rep.targets|
  {
    rep.(targets := rep.targets[i := t])
  }

  function PlannedTargets(slices: seq<Slice>): seq<TargetRow> {
    seq(|slices|, i requires 0 <= i < |slices| => TargetRow(slices[i], Pending, false))
  }

  /** `#plan`: the slices of the targets, from a queued row only. Refused boundaries defer the row. */
  function PlanRow(c: Config, rep: Repartition, boundaries: seq<ItemKey>): Repartition
    requires KindFits(c, rep.kind)
  {
    var slices := PlanSlices(c, rep.kind, boundaries);
    if rep.state.Queued? && slices.Some? then rep.(state := Planned, targets := PlannedTargets(slices.value)) else rep
  }

  /** `#initializeTargets` before the call to one target. */
  function StartInit(rep: Repartition, i: nat): Repartition
    requires i < |rep.targets|
  {
    if rep.targets[i].initialization.Pending? then SetTarget(rep, i, rep.targets[i].(initialization := Initializing)) else rep
  }

  function RecordInit(rep: Repartition, i: nat): Repartition
    requires i < |rep.targets|
  {
    SetTarget(rep, i, rep.targets[i].(initialization := Initialized))
  }

  function CutOverRow(rep: Repartition): Repartition {
    if rep.state.Planned? && AllInitialized(rep) then rep.(state := Cutover) else rep
  }

  /** `acceptAck`: marks the target only in `cutover`, and completes with the last mark. */
  function AcceptAck(rep: Repartition, i: nat): Repartition
    requires i < |rep.targets|
  {
    if !rep.state.Cutover? then rep
    else
      var marked := SetTarget(rep, i, rep.targets[i].(acknowledged := true));
      if AllAcknowledged(marked) then marked.(state := Completed) else marked
  }

  function CleanUpRow(rep: Repartition, done: bool): Repartition {
    if rep.state.Completed? && done then rep.(state := Cleaned) else rep
  }

  /** What a cleanup step can reclaim: the rows of a promoted hash, or the lock copies of a split source. */
  predicate Reclaimable(c: Config, kind: Kind, k: RowKey) {
    if kind.KeyPromotion? then HashOf(c, k.key) == kind.promoted else k.stream.Locks?
  }

  /** A cleanup step is the last one only when it leaves nothing of that. */
  predicate NothingLeft(c: Config, kind: Kind, rows: Rows) {
    forall k :: k in rows ==> !Reclaimable(c, kind, k)
  }

  // ─── the target ─────────────────────────────────────────────────────────────

  datatype ImportState = AwaitingData | Importing | Imported | Active

  /** A position in the streams of the host: a stream from its start, or after one of its rows. */
  datatype Position = StartOf(stream: Stream) | After(row: RowKey)

  /** Where an import is: after a hash of the overrides phase, or in the host phase. */
  datatype Cursor = OverridesAt(hash: Option<Hash>) | HostAt(at: Position)

  function StreamOf(p: Position): Stream {
    if p.StartOf? then p.stream else p.row.stream
  }

  predicate PositionLess(c: Config, p: Position, q: Position) {
    if StreamOf(p) != StreamOf(q) then StreamOf(p).Items?
    else q.After? && (p.StartOf? || RowLess(c, p.row, q.row))
  }

  predicate PositionPassed(c: Config, p: Position, k: RowKey) {
    if p.StartOf? then p.stream.Locks? && k.stream.Items? else !RowLess(c, p.row, k)
  }

  predicate HashAfter(at: Option<Hash>, h: Hash) {
    at.Some? ==> h > at.value
  }

  /** A target: its import record, its rows, and the promotions that it adopted. */
  datatype Target = Target(state: ImportState, slice: Slice, cursor: Option<Cursor>, rows: Rows, overrides: set<Hash>)

  predicate IsImporting(t: Target) {
    t.state.AwaitingData? || t.state.Importing?
  }

  datatype Body = Overrides(hashes: set<Hash>) | Host(rows: Rows)

  function Requested(cursor: Option<Cursor>): Cursor {
    if cursor.Some? then cursor.value else OverridesAt(None)
  }

  /** The hashes that the cursor has passed. */
  predicate HashPassed(cursor: Option<Cursor>, h: Hash) {
    match Requested(cursor)
    case OverridesAt(at) => at.Some? && h <= at.value
    case HostAt(_) => true
  }

  /** The rows that the cursor has passed. */
  predicate RowPassed(c: Config, cursor: Option<Cursor>, k: RowKey) {
    match Requested(cursor)
    case OverridesAt(_) => false
    case HostAt(at) => PositionPassed(c, at, k)
  }

  /** The checks of `importOnePage` before its transaction. */
  predicate PageIsAcceptable(c: Config, slice: Slice, cursor: Option<Cursor>, body: Body, next: Option<Cursor>)
    requires c.topology.hashSplitN >= 1
  {
    match Requested(cursor)
    case OverridesAt(at) =>
      && body.Overrides?
      && (next.Some? && next.value.OverridesAt? ==> next.value.hash.Some? && HashAfter(at, next.value.hash.value))
      && (forall h :: h in body.hashes ==> SliceHasHash(c, slice, h))
    case HostAt(at) =>
      && body.Host?
      && (next.None? ==> StreamOf(at).Locks?)
      && (next.Some? ==> next.value.HostAt? && PositionLess(c, at, next.value.at))
      && (forall k :: k in body.rows ==> k.stream == StreamOf(at) && SliceHas(c, slice, k.key) && (k.stream.Items? ==> !PositionPassed(c, at, k)))
  }

  /** The page transaction: the cursor must be the requested one, and the import not finished. */
  function ApplyPage(t: Target, cursor: Option<Cursor>, body: Body, next: Option<Cursor>): Target {
    if !IsImporting(t) || t.cursor != cursor then t
    else
      var moved := t.(state := if next.None? then Imported else Importing, cursor := next);
      match body
      case Overrides(hashes) => moved.(overrides := t.overrides + hashes)
      case Host(rows) => moved.(rows := rows + t.rows)
  }

  // ─── the system ─────────────────────────────────────────────────────────────

  datatype Message =
    | InitRequest(tid: TargetId, slice: Slice)
    | InitOk(tid: TargetId)
    | PullRequest(tid: TargetId, cursor: Option<Cursor>)
    | Page(tid: TargetId, cursor: Option<Cursor>, body: Body, next: Option<Cursor>)
    | Ack(tid: TargetId)
    | AckOk(tid: TargetId)

  /**
   * `table` is the table that the clients see: every accepted write changes it. `snaps` holds the source
   * rows at the cutover of each repartition. Both are the history of the run, and no step reads them.
   */
  datatype System = System(
    reps: Repartitions,
    rows: Rows,
    targets: map<TargetId, Target>,
    net: set<Message>,
    table: Rows,
    snaps: map<nat, Rows>)

  datatype Action =
    | Queue(id: nat, kind: Kind)
    | Plan(id: nat, boundaries: seq<ItemKey>)
    | SendInit(tid: TargetId)
    | DeliverInit(tid: TargetId, slice: Slice)
    | RecordInitOk(tid: TargetId)
    | CutOverNow(id: nat)
    | SendPull(tid: TargetId)
    | ServePage(tid: TargetId, cursor: Option<Cursor>, upTo: Option<Cursor>)
    | DeliverPage(tid: TargetId, cursor: Option<Cursor>, body: Body, next: Option<Cursor>)
    | SendAck(tid: TargetId)
    | DeliverAck(tid: TargetId)
    | RecordAckOk(tid: TargetId)
    | CleanUp(id: nat, reclaimed: set<RowKey>, done: bool)
    | WriteAtSource(k: RowKey, v: Option<Bytes>)
    | WriteAtTarget(tid: TargetId, k: RowKey, v: Option<Bytes>)

  predicate IsTarget(r: Repartitions, tid: TargetId) {
    tid.rep in r && tid.index < |r[tid.rep].targets|
  }

  function TargetSlice(r: Repartitions, tid: TargetId): Slice
    requires IsTarget(r, tid)
  {
    r[tid.rep].targets[tid.index].slice
  }

  /** The source accepts a write of a key that it has not given away. */
  predicate SourceServes(c: Config, r: Repartitions, key: ItemKey)
    requires c.topology.hashSplitN >= 1
  {
    InScope(c, key) && !RouterRole(r) && !OwnedByRangeTree(c, r, HashOf(c, key))
  }

  /** A target accepts a write of a key of its slice once its copy is complete, unless it adopted a promotion of the key. */
  predicate TargetServes(c: Config, t: Target, key: ItemKey)
    requires c.topology.hashSplitN >= 1
  {
    !IsImporting(t) && InScope(c, key) && SliceHas(c, t.slice, key) && HashOf(c, key) !in t.overrides
  }

  /** `belongsToTarget`: a hash child gets no copy of a key that a range tree owns. */
  predicate Belongs(c: Config, r: Repartitions, tid: TargetId, key: ItemKey)
    requires c.topology.hashSplitN >= 1 && IsTarget(r, tid)
  {
    SliceHas(c, TargetSlice(r, tid), key) && !(r[tid.rep].kind.HashSplit? && HasTerminalOverride(c, r, HashOf(c, key)))
  }

  /** The promotions that a hash child adopts. */
  predicate Adopts(c: Config, r: Repartitions, tid: TargetId, h: Hash)
    requires c.topology.hashSplitN >= 1 && IsTarget(r, tid)
  {
    r[tid.rep].kind.HashSplit? && h in TerminalHashes(c, r) && SliceHasHash(c, TargetSlice(r, tid), h)
  }

  /** The end of a page: a later position of its stream, the start of the next stream, or the end of the import. */
  predicate PageEndFits(c: Config, r: Repartitions, tid: TargetId, cursor: Option<Cursor>, next: Option<Cursor>)
    requires IsTarget(r, tid)
  {
    match Requested(cursor)
    case OverridesAt(at) =>
      || next == Some(HostAt(StartOf(Items)))
      || (r[tid.rep].kind.HashSplit? && next.Some? && next.value.OverridesAt? && next.value.hash.Some? && HashAfter(at, next.value.hash.value))
    case HostAt(at) =>
      || next == (if StreamOf(at).Items? then Some(HostAt(StartOf(Locks))) else None)
      || (next.Some? && next.value.HostAt? && next.value.at.After? && next.value.at.row.stream == StreamOf(at) && PositionLess(c, at, next.value.at))
  }

  /** The page that `servePage` builds from the source rows of this moment. Its budgets decide `next`. */
  function BuildBody(c: Config, s: System, tid: TargetId, cursor: Option<Cursor>, next: Option<Cursor>): Body
    requires c.topology.hashSplitN >= 1 && IsTarget(s.reps, tid)
  {
    match Requested(cursor)
    case OverridesAt(_) =>
      Overrides(set h | h in TerminalHashes(c, s.reps) && Adopts(c, s.reps, tid, h) && !HashPassed(cursor, h) && HashPassed(next, h))
    case HostAt(_) =>
      Host(map k | k in s.rows && Belongs(c, s.reps, tid, k.key) && !RowPassed(c, cursor, k) && (next.Some? ==> RowPassed(c, next, k)) :: s.rows[k])
  }

  predicate Enabled(c: Config, s: System, a: Action)
    requires c.topology.hashSplitN >= 1
  {
    match a
    case Queue(id, kind) => id !in s.reps && CanQueue(c, s.reps, kind)
    case Plan(id, _) => id in s.reps && KindFits(c, s.reps[id].kind)
    case SendInit(tid) => IsTarget(s.reps, tid) && s.reps[tid.rep].state.Planned?
    case DeliverInit(tid, slice) => InitRequest(tid, slice) in s.net
    case RecordInitOk(tid) => InitOk(tid) in s.net && IsTarget(s.reps, tid)
    case CutOverNow(id) => id in s.reps && s.reps[id].state.Planned? && AllInitialized(s.reps[id])
    case SendPull(tid) => tid in s.targets && IsImporting(s.targets[tid])
    case ServePage(tid, cursor, next) =>
      && PullRequest(tid, cursor) in s.net && IsTarget(s.reps, tid) && s.reps[tid.rep].state.Cutover?
      && PageEndFits(c, s.reps, tid, cursor, next)
    case DeliverPage(tid, cursor, body, next) =>
      && Page(tid, cursor, body, next) in s.net && tid in s.targets
      && PageIsAcceptable(c, s.targets[tid].slice, cursor, body, next)
    case SendAck(tid) => tid in s.targets && s.targets[tid].state.Imported?
    case DeliverAck(tid) => Ack(tid) in s.net && IsTarget(s.reps, tid) && CutOver(s.reps[tid.rep].state)
    case RecordAckOk(tid) => AckOk(tid) in s.net && tid in s.targets
    case CleanUp(id, reclaimed, done) =>
      && id in s.reps && s.reps[id].state.Completed?
      && (forall k :: k in reclaimed ==> Reclaimable(c, s.reps[id].kind, k))
      && (done ==> NothingLeft(c, s.reps[id].kind, s.rows - reclaimed))
    case WriteAtSource(k, _) => SourceServes(c, s.reps, k.key)
    case WriteAtTarget(tid, k, _) => tid in s.targets && TargetServes(c, s.targets[tid], k.key)
  }

  function WithRep(s: System, id: nat, rep: Repartition): System {
    s.(reps := s.reps[id := rep])
  }

  function WithTarget(s: System, tid: TargetId, t: Target): System {
    s.(targets := s.targets[tid := t])
  }

  function Send(s: System, m: Message): System {
    s.(net := s.net + {m})
  }

  /** `initAsTarget`: the first call creates the import record, an equal one confirms it, and another slice is an error. */
  function DoDeliverInit(s: System, tid: TargetId, slice: Slice): System {
    if tid in s.targets then if s.targets[tid].slice == slice then Send(s, InitOk(tid)) else s
    else Send(WithTarget(s, tid, Target(AwaitingData, slice, None, map[], {})), InitOk(tid))
  }

  function Next(c: Config, s: System, a: Action): System
    requires c.topology.hashSplitN >= 1
  {
    if !Enabled(c, s, a) then s
    else match a
      case Queue(id, kind) => WithRep(s, id, Repartition(kind, Queued, []))
      case Plan(id, boundaries) => WithRep(s, id, PlanRow(c, s.reps[id], boundaries))
      case SendInit(tid) => Send(WithRep(s, tid.rep, StartInit(s.reps[tid.rep], tid.index)), InitRequest(tid, TargetSlice(s.reps, tid)))
      case DeliverInit(tid, slice) => DoDeliverInit(s, tid, slice)
      case RecordInitOk(tid) => WithRep(s, tid.rep, RecordInit(s.reps[tid.rep], tid.index))
      case CutOverNow(id) => WithRep(s, id, CutOverRow(s.reps[id])).(snaps := s.snaps[id := s.rows])
      case SendPull(tid) => Send(s, PullRequest(tid, s.targets[tid].cursor))
      case ServePage(tid, cursor, next) => Send(s, Page(tid, cursor, BuildBody(c, s, tid, cursor, next), next))
      case DeliverPage(tid, cursor, body, next) => WithTarget(s, tid, ApplyPage(s.targets[tid], cursor, body, next))
      case SendAck(tid) => Send(s, Ack(tid))
      case DeliverAck(tid) => Send(WithRep(s, tid.rep, AcceptAck(s.reps[tid.rep], tid.index)), AckOk(tid))
      case RecordAckOk(tid) => if s.targets[tid].state.Imported? then WithTarget(s, tid, s.targets[tid].(state := Active)) else s
      case CleanUp(id, reclaimed, done) => WithRep(s, id, CleanUpRow(s.reps[id], done)).(rows := s.rows - reclaimed)
      case WriteAtSource(k, v) => s.(rows := Put(s.rows, k, v), table := Put(s.table, k, v))
      case WriteAtTarget(tid, k, v) =>
        WithTarget(s, tid, s.targets[tid].(rows := Put(s.targets[tid].rows, k, v))).(table := Put(s.table, k, v))
  }

  function Run(c: Config, s: System, actions: seq<Action>): System
    requires c.topology.hashSplitN >= 1
    decreases |actions|
  {
    if actions == [] then s else Run(c, Next(c, s, actions[0]), actions[1..])
  }

  /** A source that has queued nothing and holds rows of its own keys. */
  predicate Initial(c: Config, s: System)
    requires c.topology.hashSplitN >= 1
  {
    && s.reps == map[] && s.targets == map[] && s.net == {} && s.snaps == map[]
    && s.table == s.rows
    && forall k :: k in s.rows ==> InScope(c, k.key)
  }
}
