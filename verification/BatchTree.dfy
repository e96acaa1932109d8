/** The answer of a batch through a tree of nodes, each of which merges its parts and can trim what it answers. */
module BatchTree {
  import opened Bytes
  import opened BatchAnswers
  import opened BatchResponse

  /**
   * A leaf is the answer of a handler. A node merges its own part and the answers that it got. `limit` is
   * the byte limit of a read. A lost part is an error that stopped the operations of one call, and `ran`
   * is what ran below that call although no answer of it arrived.
   */
  datatype Tree =
    | Leaf(answer: Answer)
    | LostCall(opIndexes: seq<nat>, local: bool, error: Error, ran: seq<Tree>)
    | Node(self: Actor, parts: seq<Tree>, limit: Option<nat>)

  function DropFailures(dropped: seq<Entry>): seq<Failure> {
    seq(|dropped|, i requires 0 <= i < |dropped| =>
      Failure(Unprocessed, ResponseTooLarge, Some(dropped[i].partitionIndex), [dropped[i].opIndex]))
  }

  /** The answer after the trim: each dropped item becomes unprocessed. */
  function Trim(a: Answer, limit: int): Answer {
    var found := SortByOp(a.found);
    a.(found := Kept(found, limit), failed := a.failed + DropFailures(Dropped(found, limit)))
  }

  function PartOf(t: Tree, write: bool): Part
    decreases t, 1
  {
    match t
    case Leaf(answer) => Answered(answer)
    case LostCall(opIndexes, local, error, _) => Lost(opIndexes, local, error)
    case Node(_, _, _) => Answered(NodeAnswer(t, write))
  }

  function PartsOf(ts: seq<Tree>, write: bool): seq<Part>
    decreases ts
  {
    if ts == [] then [] else PartsOf(ts[..|ts| - 1], write) + [PartOf(ts[|ts| - 1], write)]
  }

  function NodeAnswer(t: Tree, write: bool): Answer
    requires t.Node?
    decreases t, 0
  {
    var merged := Merge(EMPTY, PartsOf(t.parts, write), write, t.self);
    if t.limit.Some? then Trim(merged, Min(t.limit.value, MAX_BATCH_GET_RESPONSE_BYTES)) else merged
  }

  /** The handlers answer inside their own lists. */
  predicate LeavesInRange(t: Tree) {
    match t
    case Leaf(answer) => InRange(answer)
    case LostCall(_, _, _, _) => true
    case Node(_, parts, _) => forall i :: 0 <= i < |parts| ==> LeavesInRange(parts[i])
  }

  // ─── what the leaves said, and what the trims changed ───────────────────────

  /** The outcomes of the handlers and of the lost calls, before any trim. `above` is the node that lost the call. */
  function Said(t: Tree, write: bool, above: Actor): seq<Named>
    decreases t, 1
  {
    match t
    case Leaf(answer) => Names(answer)
    case LostCall(_, _, _, _) => PartNames(PartOf(t, write), write, above)
    case Node(self, parts, _) => AllSaid(parts, write, self)
  }

  function AllSaid(ts: seq<Tree>, write: bool, above: Actor): seq<Named>
    decreases ts
  {
    if ts == [] then [] else AllSaid(ts[..|ts| - 1], write, above) + Said(ts[|ts| - 1], write, above)
  }

  /** The items that the trims of a tree dropped, as the nodes found them. */
  function TrimmedAway(t: Tree, write: bool): seq<Named>
    decreases t, 1
  {
    if !t.Node? then []
    else
      var merged := Merge(EMPTY, PartsOf(t.parts, write), write, t.self);
      AllTrimmedAway(t.parts, write)
      + (if t.limit.None? then []
         else NameEntries(Dropped(SortByOp(merged.found), Min(t.limit.value, MAX_BATCH_GET_RESPONSE_BYTES)), true, merged.partitions))
  }

  function AllTrimmedAway(ts: seq<Tree>, write: bool): seq<Named>
    decreases ts
  {
    if ts == [] then [] else AllTrimmedAway(ts[..|ts| - 1], write) + TrimmedAway(ts[|ts| - 1], write)
  }

  /** The same operations and partitions, with no room for the items. */
  function TooLarge(s: seq<Named>): seq<Named> {
    seq(|s|, i requires 0 <= i < |s| => s[i].(kind := Stopped(Unprocessed, ResponseTooLarge)))
  }

  // ─── one trim ───────────────────────────────────────────────────────────────

  lemma {:induction false} DropFailuresAreTooLarge(dropped: seq<Entry>, partitions: seq<Actor>)
    ensures NameFailures(DropFailures(dropped), partitions) == TooLarge(NameEntries(dropped, true, partitions))
  {
    if dropped != [] {
      var front := dropped[..|dropped| - 1];
      DropFailuresAreTooLarge(front, partitions);
      assert DropFailures(dropped)[..|dropped| - 1] == DropFailures(front);
    }
  }

  function Map<A, B>(s: seq<A>, f: A -> B): seq<B> {
    seq(|s|, i requires 0 <= i < |s| => f(s[i]))
  }

  lemma OneFewer<A>(a: seq<A>, b: seq<A>) returns (k: nat)
    requires a != [] && multiset(a) == multiset(b)
    ensures k < |b| && b[k] == a[|a| - 1] && multiset(a[..|a| - 1]) == multiset(b[..k] + b[k + 1..])
  {
    var x := a[|a| - 1];
    assert x in multiset(b);
    k :| 0 <= k < |b| && b[k] == x;
    assert a == a[..|a| - 1] + [x];
    OneOut(b, k);
    CancelSame(multiset(a[..|a| - 1]), multiset(b[..k] + b[k + 1..]), multiset{x});
  }

  lemma OneOut<A>(b: seq<A>, k: nat)
    requires k < |b|
    ensures multiset(b) == multiset(b[..k] + b[k + 1..]) + multiset{b[k]}
  {
    assert b == b[..k] + ([b[k]] + b[k + 1..]);
  }

  lemma CancelSame<A>(a: multiset<A>, b: multiset<A>, c: multiset<A>)
    requires a + c == b + c
    ensures a == b
  {
    assert a == (a + c) - c && b == (b + c) - c;
  }

  lemma SumOfEqual<A>(a: multiset<A>, t: multiset<A>, s: multiset<A>, x: multiset<A>, a': multiset<A>, t': multiset<A>, s': multiset<A>, x': multiset<A>)
    requires a + t == s + x && a' + t' == s' + x'
    ensures (a + a') + (t + t') == (s + s') + (x + x')
  {
    forall e ensures ((a + a') + (t + t'))[e] == ((s + s') + (x + x'))[e] {
      assert (a + t)[e] == (s + x)[e] && (a' + t')[e] == (s' + x')[e];
    }
  }

  lemma ChainOfEqual<A>(m: multiset<A>, t: multiset<A>, s: multiset<A>, x: multiset<A>, n: multiset<A>, t': multiset<A>, x': multiset<A>)
    requires m + t == s + x && n + t' == m + x'
    ensures n + (t + t') == s + (x + x')
  {
    forall e ensures (n + (t + t'))[e] == (s + (x + x'))[e] {
      assert (m + t)[e] == (s + x)[e] && (n + t')[e] == (m + x')[e];
    }
  }

  lemma {:induction false} MapOfSame<A, B>(a: seq<A>, b: seq<A>, f: A -> B)
    requires multiset(a) == multiset(b)
    ensures multiset(Map(a, f)) == multiset(Map(b, f))
  {
    if a == [] {
      assert |multiset(b)| == |b|;
    } else {
      var k := OneFewer(a, b);
      var x, front, low, high := a[|a| - 1], a[..|a| - 1], b[..k], b[k + 1..];
      MapOfSame(front, low + high, f);
      assert Map(a, f) == Map(front, f) + [f(x)];
      assert Map(b, f) == Map(low, f) + ([f(x)] + Map(high, f));
      assert Map(low + high, f) == Map(low, f) + Map(high, f);
    }
  }

  lemma NamesOfSameEntries(a: seq<Entry>, b: seq<Entry>, partitions: seq<Actor>)
    requires multiset(a) == multiset(b)
    ensures multiset(NameEntries(a, true, partitions)) == multiset(NameEntries(b, true, partitions))
  {
    var f := (e: Entry) => Named(e.opIndex, Found(e.bytes), ActorAt(partitions, Some(e.partitionIndex)));
    MapOfSame(a, b, f);
    assert NameEntries(a, true, partitions) == Map(a, f) && NameEntries(b, true, partitions) == Map(b, f);
  }

  /** A trim turns the items it drops into unprocessed operations of the same partitions, and changes nothing else. */
  lemma TrimKeepsNames(a: Answer, limit: int)
    requires InRange(a)
    ensures var dropped := NameEntries(Dropped(SortByOp(a.found), limit), true, a.partitions);
            && InRange(Trim(a, limit))
            && multiset(Names(Trim(a, limit))) + multiset(dropped) == multiset(Names(a)) + multiset(TooLarge(dropped))
  {
    var found := SortByOp(a.found);
    var kept, out := Kept(found, limit), Dropped(found, limit);
    SortKeepsEntries(a.found);
    TrimKeepsEntries(found, limit);
    assert multiset(kept + out) == multiset(a.found);
    NamesOfSameEntries(kept + out, a.found, a.partitions);
    TrimStaysInRange(a, limit);
    hide SortByOp, Kept, Dropped;
    EntriesOfAppend(kept, out, true, a.partitions);
    FailuresOfAppend(a.failed, DropFailures(out), a.partitions);
    DropFailuresAreTooLarge(out, a.partitions);
    hide NameEntries, NameFailures, DropFailures;
  }

  lemma TrimStaysInRange(a: Answer, limit: int)
    requires InRange(a)
    ensures InRange(Trim(a, limit))
  {
    var found := SortByOp(a.found);
    SortKeepsEntries(a.found);
    TrimKeepsEntries(found, limit);
    hide SortByOp, Kept, Dropped;
    var kept, out := Kept(found, limit), Dropped(found, limit);
    forall i | 0 <= i < |kept| ensures kept[i].partitionIndex < |a.partitions| {
      assert kept[i] in multiset(kept);
      assert kept[i] in multiset(a.found);
    }
    forall i | 0 <= i < |out| ensures out[i].partitionIndex < |a.partitions| {
      assert out[i] in multiset(out);
      assert out[i] in multiset(a.found);
    }
  }

  // ─── any tree ───────────────────────────────────────────────────────────────

  /** The conservation law of a part: what it says, and what its trims took, is what its leaves said, and what the trims put. */
  predicate Conserved(names: seq<Named>, trimmed: seq<Named>, said: seq<Named>) {
    multiset(names) + multiset(trimmed) == multiset(said) + multiset(TooLarge(trimmed))
  }

  lemma ConservedOfAppend(a: seq<Named>, b: seq<Named>, ta: seq<Named>, tb: seq<Named>, sa: seq<Named>, sb: seq<Named>)
    requires Conserved(a, ta, sa) && Conserved(b, tb, sb)
    ensures Conserved(a + b, ta + tb, sa + sb)
  {
    assert TooLarge(ta + tb) == TooLarge(ta) + TooLarge(tb);
    SumOfEqual(multiset(a), multiset(ta), multiset(sa), multiset(TooLarge(ta)), multiset(b), multiset(tb), multiset(sb), multiset(TooLarge(tb)));
    hide TooLarge;
  }

  /** A trim after a conserved merge. */
  lemma ConservedOfTrim(merged: seq<Named>, below: seq<Named>, said: seq<Named>, names: seq<Named>, own: seq<Named>)
    requires Conserved(merged, below, said) && Conserved(names, own, merged)
    ensures Conserved(names, below + own, said)
  {
    assert TooLarge(below + own) == TooLarge(below) + TooLarge(own);
    ChainOfEqual(multiset(merged), multiset(below), multiset(said), multiset(TooLarge(below)), multiset(names), multiset(own), multiset(TooLarge(own)));
    hide TooLarge;
  }

  /**
   * Through any tree of merges, lost calls and trims, an answer says what the handlers said: each outcome
   * stays with its operation and its partition, and only a trim changes one, from found to unprocessed.
   */
  lemma {:induction false} TreeKeepsOutcomes(t: Tree, write: bool, above: Actor)
    requires LeavesInRange(t)
    ensures PartOf(t, write).Answered? ==> InRange(PartOf(t, write).result)
    ensures Conserved(PartNames(PartOf(t, write), write, above), TrimmedAway(t, write), Said(t, write, above))
    decreases t, 1
  {
    match t
    case Leaf(_) =>
    case LostCall(_, _, _, _) =>
    case Node(self, parts, limit) =>
      PartsKeepOutcomes(parts, write, self);
      NodeConserves(t, write, above);
  }

  lemma NodeConserves(t: Tree, write: bool, above: Actor)
    requires t.Node? && PartsInRange(PartsOf(t.parts, write))
    requires Conserved(PartsSeq(PartsOf(t.parts, write), write, t.self), AllTrimmedAway(t.parts, write), AllSaid(t.parts, write, t.self))
    ensures InRange(NodeAnswer(t, write))
    ensures Conserved(Names(NodeAnswer(t, write)), TrimmedAway(t, write), Said(t, write, above))
  {
    var parts := PartsOf(t.parts, write);
    var merged, below, said := Merge(EMPTY, parts, write, t.self), AllTrimmedAway(t.parts, write), AllSaid(t.parts, write, t.self);
    MergeConserves(parts, write, t.self, below, said);
    hide InRange, Names, Merge, PartsOf, PartsSeq, AllTrimmedAway, AllSaid, Trim, NameEntries, Dropped, SortByOp, Conserved;
    if t.limit.Some? {
      TrimConserves(merged, Min(t.limit.value, MAX_BATCH_GET_RESPONSE_BYTES), below, said);
    } else {
      assert below + [] == below;
    }
  }

  lemma MergeConserves(parts: seq<Part>, write: bool, self: Actor, below: seq<Named>, said: seq<Named>)
    requires PartsInRange(parts) && Conserved(PartsSeq(parts, write, self), below, said)
    ensures InRange(Merge(EMPTY, parts, write, self)) && Conserved(Names(Merge(EMPTY, parts, write, self)), below, said)
  {
    NoNames();
    MergeKeepsNames(EMPTY, parts, write, self);
    PartsSeqIsNames(parts, write, self);
    hide InRange, Names, Merge, PartsNames, PartsSeq;
  }

  lemma TrimConserves(merged: Answer, limit: int, below: seq<Named>, said: seq<Named>)
    requires InRange(merged) && Conserved(Names(merged), below, said)
    ensures InRange(Trim(merged, limit))
    ensures Conserved(Names(Trim(merged, limit)), below + NameEntries(Dropped(SortByOp(merged.found), limit), true, merged.partitions), said)
  {
    TrimKeepsNames(merged, limit);
    var own := NameEntries(Dropped(SortByOp(merged.found), limit), true, merged.partitions);
    hide InRange, Names, Trim, NameEntries, Dropped, SortByOp;
    ConservedOfTrim(Names(merged), below, said, Names(Trim(merged, limit)), own);
  }

  function PartsSeq(parts: seq<Part>, write: bool, self: Actor): seq<Named> {
    if parts == [] then [] else PartsSeq(parts[..|parts| - 1], write, self) + PartNames(parts[|parts| - 1], write, self)
  }

  lemma {:induction false} PartsSeqIsNames(parts: seq<Part>, write: bool, self: Actor)
    ensures multiset(PartsSeq(parts, write, self)) == PartsNames(parts, write, self)
  {
    if parts != [] {
      PartsSeqIsNames(parts[..|parts| - 1], write, self);
    }
  }

  lemma NoNames()
    ensures InRange(EMPTY) && Names(EMPTY) == []
  {
  }

  lemma {:induction false} PartsKeepOutcomes(ts: seq<Tree>, write: bool, above: Actor)
    requires forall i :: 0 <= i < |ts| ==> LeavesInRange(ts[i])
    ensures PartsInRange(PartsOf(ts, write))
    ensures Conserved(PartsSeq(PartsOf(ts, write), write, above), AllTrimmedAway(ts, write), AllSaid(ts, write, above))
    decreases ts
  {
    if ts != [] {
      var front, last := ts[..|ts| - 1], ts[|ts| - 1];
      PartsKeepOutcomes(front, write, above);
      TreeKeepsOutcomes(last, write, above);
      var parts := PartsOf(front, write);
      OnePartMore(ts, write, above);
      hide Conserved, PartNames, PartOf, PartsOf, PartsSeq, TrimmedAway, AllTrimmedAway, Said, AllSaid, InRange;
      ConservedOfAppend(PartsSeq(parts, write, above), PartNames(PartOf(last, write), write, above),
                        AllTrimmedAway(front, write), TrimmedAway(last, write), AllSaid(front, write, above), Said(last, write, above));
    }
  }

  lemma OnePartMore(ts: seq<Tree>, write: bool, above: Actor)
    requires ts != []
    ensures var front, last := ts[..|ts| - 1], ts[|ts| - 1];
            && PartsOf(ts, write) == PartsOf(front, write) + [PartOf(last, write)]
            && PartsSeq(PartsOf(ts, write), write, above) == PartsSeq(PartsOf(front, write), write, above) + PartNames(PartOf(last, write), write, above)
            && AllTrimmedAway(ts, write) == AllTrimmedAway(front, write) + TrimmedAway(last, write)
            && AllSaid(ts, write, above) == AllSaid(front, write, above) + Said(last, write, above)
  {
    var parts := PartsOf(ts[..|ts| - 1], write);
    assert PartsOf(ts, write)[..|parts|] == parts;
    hide PartNames, PartOf, TrimmedAway, Said;
  }

  // ─── one outcome for each operation ─────────────────────────────────────────

  function Ops(s: seq<Named>): seq<nat> {
    Map(s, (n: Named) => n.opIndex)
  }

  lemma OpsOfConserved(names: seq<Named>, trimmed: seq<Named>, said: seq<Named>)
    requires Conserved(names, trimmed, said)
    ensures multiset(Ops(names)) == multiset(Ops(said))
  {
    MapOfSame(names + trimmed, said + TooLarge(trimmed), (n: Named) => n.opIndex);
    assert Ops(names + trimmed) == Ops(names) + Ops(trimmed);
    assert Ops(said + TooLarge(trimmed)) == Ops(said) + Ops(trimmed);
    hide Ops, TooLarge;
    CancelSame(multiset(Ops(names)), multiset(Ops(said)), multiset(Ops(trimmed)));
  }

  /** Every operation that the calls of a tree asked for has its outcomes, no more and no fewer, in the answer. */
  lemma EachOperationIsAnswered(t: Tree, write: bool, above: Actor)
    requires LeavesInRange(t)
    ensures multiset(Ops(PartNames(PartOf(t, write), write, above))) == multiset(Ops(Said(t, write, above)))
  {
    TreeKeepsOutcomes(t, write, above);
    OpsOfConserved(PartNames(PartOf(t, write), write, above), TrimmedAway(t, write), Said(t, write, above));
  }

  // ─── what was written ───────────────────────────────────────────────────────

  function WrittenBy(answer: Answer): set<nat> {
    set e | e in answer.found + answer.other :: e.opIndex
  }

  /** The operations of a write that a handler applied, whether its answer arrived or not. */
  function Written(t: Tree): set<nat>
    decreases t, 1
  {
    match t
    case Leaf(answer) => WrittenBy(answer)
    case LostCall(_, _, _, ran) => AllWritten(ran)
    case Node(_, parts, _) => AllWritten(parts)
  }

  function AllWritten(ts: seq<Tree>): set<nat>
    decreases ts
  {
    if ts == [] then {} else AllWritten(ts[..|ts| - 1]) + Written(ts[|ts| - 1])
  }

  /**
   * The errors after which a handler can have written: not one of the local part, which writes nothing or
   * rolls back; not a request that never left the caller; not a refused operation; and not one that
   * partition code raised before it ran a handler, unless it is a defect of the runtime.
   */
  predicate LeavesRoomForAWrite(error: Error, local: bool) {
    !local && !error.rpcTooLarge && !error.invalid && (error.routed ==> error.internal)
  }

  /** What ran below a lost call wrote only operations of that call, and only where its error leaves room for it. */
  predicate LosesOnlyReplies(t: Tree) {
    match t
    case Leaf(_) => true
    case LostCall(opIndexes, local, error, ran) =>
      && (forall j :: j in AllWritten(ran) ==> j in opIndexes)
      && (AllWritten(ran) != {} ==> LeavesRoomForAWrite(error, local))
    case Node(_, parts, _) => forall i :: 0 <= i < |parts| ==> LosesOnlyReplies(parts[i])
  }

  /** The outcome says that the operation was applied, or that it can have been. */
  predicate CanBeWritten(n: Named) {
    !n.kind.Stopped? || n.kind.outcome == Unknown
  }

  ghost predicate SaysItCanBe(said: seq<Named>, j: nat) {
    exists w :: w in said && w.opIndex == j && CanBeWritten(w)
  }

  lemma SaidOfAppend(a: seq<Named>, b: seq<Named>, j: nat)
    ensures SaysItCanBe(a + b, j) <==> SaysItCanBe(a, j) || SaysItCanBe(b, j)
  {
    hide CanBeWritten;
    if w :| w in a && w.opIndex == j && CanBeWritten(w) {
      assert w in a + b;
    }
    if w :| w in b && w.opIndex == j && CanBeWritten(w) {
      assert w in a + b;
    }
  }

  lemma AnswerSaysItsWrites(answer: Answer)
    ensures forall w :: w in Names(answer) && !w.kind.Stopped? ==> w.opIndex in WrittenBy(answer)
    ensures forall j :: j in WrittenBy(answer) ==> SaysItCanBe(Names(answer), j)
  {
    FailuresAreStopped(answer.failed, answer.partitions);
    var found, other := NameEntries(answer.found, true, answer.partitions), NameEntries(answer.other, false, answer.partitions);
    var failed := NameFailures(answer.failed, answer.partitions);
    hide NameFailures;
    forall w | w in Names(answer) && !w.kind.Stopped? ensures w.opIndex in WrittenBy(answer) {
      if w in found {
        var i :| 0 <= i < |found| && found[i] == w;
        assert answer.found[i] in answer.found + answer.other;
      } else {
        assert w in other;
        var i :| 0 <= i < |other| && other[i] == w;
        assert answer.other[i] in answer.found + answer.other;
      }
    }
    forall j | j in WrittenBy(answer) ensures SaysItCanBe(Names(answer), j) {
      var e :| e in answer.found + answer.other && e.opIndex == j;
      if e in answer.found {
        var i :| 0 <= i < |answer.found| && answer.found[i] == e;
        assert found[i] in Names(answer) && CanBeWritten(found[i]);
      } else {
        var i :| 0 <= i < |answer.other| && answer.other[i] == e;
        assert other[i] in Names(answer) && CanBeWritten(other[i]);
      }
    }
  }

  lemma {:induction false} FailuresAreStopped(failed: seq<Failure>, partitions: seq<Actor>)
    ensures forall w :: w in NameFailures(failed, partitions) ==> w.kind.Stopped?
  {
    if failed != [] {
      FailuresAreStopped(failed[..|failed| - 1], partitions);
    }
  }

  /** By the rules of the classification, a lost call below which a handler wrote leaves the operation unknown. */
  lemma LostWriteIsUnknown(t: Tree, above: Actor, j: nat)
    requires t.LostCall? && LosesOnlyReplies(t) && j in AllWritten(t.ran)
    ensures SaysItCanBe(PartNames(PartOf(t, true), true, above), j)
  {
    var c, names := Classify(t.error, true, t.local), PartNames(PartOf(t, true), true, above);
    assert c.outcome == Unknown;
    var i :| 0 <= i < |t.opIndexes| && t.opIndexes[i] == j;
    assert names[i] in names && names[i].opIndex == j && CanBeWritten(names[i]);
  }

  /** An operation that is said to be applied was applied, and one that was applied is said to be applied or unknown. */
  lemma {:induction false} WrittenIsSaid(t: Tree, above: Actor)
    requires LosesOnlyReplies(t)
    ensures forall w :: w in Said(t, true, above) && !w.kind.Stopped? ==> w.opIndex in Written(t)
    ensures forall j :: j in Written(t) ==> SaysItCanBe(Said(t, true, above), j)
    decreases t, 1
  {
    match t
    case Leaf(answer) => AnswerSaysItsWrites(answer);
    case LostCall(_, _, _, ran) =>
      forall j | j in AllWritten(ran) ensures SaysItCanBe(Said(t, true, above), j) {
        LostWriteIsUnknown(t, above, j);
      }
    case Node(self, parts, _) => AllWrittenIsSaid(parts, self);
  }

  lemma {:induction false} AllWrittenIsSaid(ts: seq<Tree>, above: Actor)
    requires forall i :: 0 <= i < |ts| ==> LosesOnlyReplies(ts[i])
    ensures forall w :: w in AllSaid(ts, true, above) && !w.kind.Stopped? ==> w.opIndex in AllWritten(ts)
    ensures forall j :: j in AllWritten(ts) ==> SaysItCanBe(AllSaid(ts, true, above), j)
    decreases ts, 0
  {
    if ts != [] {
      var front, last := ts[..|ts| - 1], ts[|ts| - 1];
      AllWrittenIsSaid(front, above);
      WrittenIsSaid(last, above);
      hide SaysItCanBe;
      forall j | j in AllWritten(ts) ensures SaysItCanBe(AllSaid(ts, true, above), j) {
        SaidOfAppend(AllSaid(front, true, above), Said(last, true, above), j);
      }
    }
  }

  /** A node that trims answers within the limit, unless it keeps operation 0 alone. */
  lemma NodeFitsItsLimit(t: Tree, write: bool)
    requires t.Node? && t.limit.Some?
    ensures var found := NodeAnswer(t, write).found;
            Total(found) <= Min(t.limit.value, MAX_BATCH_GET_RESPONSE_BYTES) || (forall e :: e in found ==> e.opIndex == 0)
  {
    var merged := Merge(EMPTY, PartsOf(t.parts, write), write, t.self);
    SortIsSorted(merged.found);
    TrimIsGreedy(SortByOp(merged.found), Min(t.limit.value, MAX_BATCH_GET_RESPONSE_BYTES));
  }
}
