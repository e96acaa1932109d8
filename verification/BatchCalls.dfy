/**
 * A batch call from its handlers to its caller, and the retry loop over such calls: the trees of the roots,
 * the join of the client, and the loop together.
 */
module BatchCalls {
  import opened Bytes
  import opened BatchAnswers
  import opened BatchResponse
  import opened BatchTree
  import opened BatchClient
  import opened BatchRetry

  // ─── the roots of one call ──────────────────────────────────────────────────

  /** A root with the tree of nodes below it, and the partition entries and forwards of its answer. */
  datatype Root = Root(tree: Tree, partitions: seq<Meta>, forwardCount: nat)

  /** No node of a write trims its answer. */
  predicate Untrimmed(t: Tree) {
    t.Node? ==> t.limit.None? && forall i :: 0 <= i < |t.parts| ==> Untrimmed(t.parts[i])
  }

  /** The handlers answer inside their own lists, and the entries of the root name the partitions of its answer. */
  predicate RootFits(r: Root, write: bool) {
    && LeavesInRange(r.tree) && (write ==> Untrimmed(r.tree))
    && (r.tree.LostCall? ==> !r.tree.local)
    && (PartOf(r.tree, write).Answered? ==> PartOf(r.tree, write).result.partitions == Actors(r.partitions))
  }

  predicate RootsFit(roots: seq<Root>, write: bool) {
    forall g :: 0 <= g < |roots| ==> RootFits(roots[g], write)
  }

  function SettledOf(r: Root, write: bool): Settled {
    match PartOf(r.tree, write)
    case Answered(result) => Fulfilled(result, r.partitions, r.forwardCount)
    case Lost(opIndexes, _, error) => Refused(opIndexes, error)
  }

  function AllSettled(roots: seq<Root>, write: bool): (settled: seq<Settled>)
    ensures |settled| == |roots|
  {
    seq(|roots|, g requires 0 <= g < |roots| => SettledOf(roots[g], write))
  }

  function Trees(roots: seq<Root>): seq<Tree> {
    seq(|roots|, g requires 0 <= g < |roots| => roots[g].tree)
  }

  /** The outcomes of the handlers and of the lost calls below all roots, with their public codes. */
  function Outcomes(roots: seq<Root>, write: bool): seq<Named> {
    Map(AllSaid(Trees(roots), write, 0), Public)
  }

  lemma RootIsPublic(r: Root, write: bool)
    requires RootFits(r, write)
    ensures RootAnswers(SettledOf(r, write))
    ensures PartNames(AsPart(SettledOf(r, write)), write, 0) == Map(PartNames(PartOf(r.tree, write), write, 0), Public)
  {
    TreeKeepsOutcomes(r.tree, write, 0);
    match PartOf(r.tree, write) {
      case Answered(result) => AnswerIsPublic(result);
      case Lost(opIndexes, _, error) => LostIsPublic(opIndexes, error, write);
    }
  }

  lemma LostIsPublic(opIndexes: seq<nat>, error: Error, write: bool)
    ensures PartNames(Lost(opIndexes, false, error.(code := PublicCode(error.code))), write, 0)
            == Map(PartNames(Lost(opIndexes, false, error), write, 0), Public)
  {
    var c, actor := Classify(error, write, false), Raiser(error);
    forall k | 0 <= k < |opIndexes|
      ensures NameStopped(opIndexes, c.outcome, PublicCode(c.code), actor)[k] == Public(NameStopped(opIndexes, c.outcome, c.code, actor)[k])
    {
    }
  }

  lemma {:induction false} RootsArePublic(roots: seq<Root>, write: bool)
    requires RootsFit(roots, write)
    ensures forall g :: 0 <= g < |roots| ==> RootAnswers(AllSettled(roots, write)[g])
    ensures PartsSeq(AsParts(AllSettled(roots, write)), write, 0) == Map(PartsSeq(PartsOf(Trees(roots), write), write, 0), Public)
  {
    if roots != [] {
      var front, last := roots[..|roots| - 1], roots[|roots| - 1];
      RootsArePublic(front, write);
      RootIsPublic(last, write);
      OneRootMore(roots, write);
      hide PartNames, PartOf, PartsOf, AsPart, AsParts, AllSettled, SettledOf, Trees, RootFits, PartsSeq, RootAnswers;
      MapOfAppend(PartsSeq(PartsOf(Trees(front), write), write, 0), PartNames(PartOf(last.tree, write), write, 0), Public);
    }
  }

  lemma OneRootMore(roots: seq<Root>, write: bool)
    requires roots != []
    ensures var front, last := roots[..|roots| - 1], roots[|roots| - 1];
            && AllSettled(roots, write) == AllSettled(front, write) + [SettledOf(last, write)]
            && PartsSeq(AsParts(AllSettled(roots, write)), write, 0)
               == PartsSeq(AsParts(AllSettled(front, write)), write, 0) + PartNames(AsPart(SettledOf(last, write)), write, 0)
            && PartsSeq(PartsOf(Trees(roots), write), write, 0)
               == PartsSeq(PartsOf(Trees(front), write), write, 0) + PartNames(PartOf(last.tree, write), write, 0)
  {
    var front, last := roots[..|roots| - 1], roots[|roots| - 1];
    OneSettledMore(roots, write);
    var trees := Trees(roots);
    assert trees[..|roots| - 1] == Trees(front) && trees[|roots| - 1] == last.tree;
    hide PartNames, PartOf, PartsOf, SettledOf, AsPart, AsParts, AllSettled, PartsSeq, Trees;
    OnePartMore(trees, write, 0);
    OnePartOfSeq(AsParts(AllSettled(front, write)), AsPart(SettledOf(last, write)), write);
  }

  lemma OneSettledMore(roots: seq<Root>, write: bool)
    requires roots != []
    ensures var front, last := roots[..|roots| - 1], roots[|roots| - 1];
            && AllSettled(roots, write) == AllSettled(front, write) + [SettledOf(last, write)]
            && AsParts(AllSettled(roots, write)) == AsParts(AllSettled(front, write)) + [AsPart(SettledOf(last, write))]
  {
    hide SettledOf, AsPart;
  }

  lemma OnePartOfSeq(parts: seq<Part>, part: Part, write: bool)
    ensures PartsSeq(parts + [part], write, 0) == PartsSeq(parts, write, 0) + PartNames(part, write, 0)
  {
    hide PartNames;
    assert (parts + [part])[..|parts|] == parts;
  }

  lemma {:induction false} TrimmedIsFound(t: Tree, write: bool)
    ensures AllFound(TrimmedAway(t, write))
    ensures Untrimmed(t) ==> TrimmedAway(t, write) == []
    decreases t, 1
  {
    if t.Node? {
      TrimmedAreFound(t.parts, write);
      var merged := Merge(EMPTY, PartsOf(t.parts, write), write, t.self);
      if t.limit.Some? {
        EntriesAreFound(Dropped(SortByOp(merged.found), Min(t.limit.value, MAX_BATCH_GET_RESPONSE_BYTES)), merged.partitions);
      }
      hide Merge, PartsOf, Dropped, SortByOp, NameEntries, AllTrimmedAway;
    }
  }

  lemma EntriesAreFound(entries: seq<Entry>, partitions: seq<Actor>)
    ensures AllFound(NameEntries(entries, true, partitions))
  {
  }

  lemma {:induction false} TrimmedAreFound(ts: seq<Tree>, write: bool)
    ensures AllFound(AllTrimmedAway(ts, write))
    ensures (forall i :: 0 <= i < |ts| ==> Untrimmed(ts[i])) ==> AllTrimmedAway(ts, write) == []
    decreases ts, 0
  {
    if ts != [] {
      TrimmedAreFound(ts[..|ts| - 1], write);
      TrimmedIsFound(ts[|ts| - 1], write);
    }
  }

  /** Public codes are a renaming that no trim sees. */
  lemma ConservedIsPublic(names: seq<Named>, trimmed: seq<Named>, said: seq<Named>)
    requires Conserved(names, trimmed, said) && AllFound(trimmed)
    ensures Conserved(Map(names, Public), trimmed, Map(said, Public))
  {
    MapOfSame(names + trimmed, said + TooLarge(trimmed), Public);
    MapOfAppend(names, trimmed, Public);
    MapOfAppend(said, TooLarge(trimmed), Public);
    forall k | 0 <= k < |trimmed| ensures Public(trimmed[k]) == trimmed[k] && Public(TooLarge(trimmed)[k]) == TooLarge(trimmed)[k] {
    }
    hide Public;
    assert Map(trimmed, Public) == trimmed;
    assert Map(TooLarge(trimmed), Public) == TooLarge(trimmed);
  }

  /** What the roots answer to the client is what the handlers below them said, apart from the trims. */
  lemma RootsConserve(roots: seq<Root>, write: bool)
    requires RootsFit(roots, write)
    ensures var trimmed := AllTrimmedAway(Trees(roots), write);
            && AllFound(trimmed) && (write ==> trimmed == [])
            && Conserved(PartsSeq(AsParts(AllSettled(roots, write)), write, 0), trimmed, Outcomes(roots, write))
  {
    RootsArePublic(roots, write);
    PartsKeepOutcomes(Trees(roots), write, 0);
    TrimmedAreFound(Trees(roots), write);
    hide Conserved, PartsSeq, AsParts, AllSettled, PartsOf, AllTrimmedAway, AllSaid, AllFound;
    ConservedIsPublic(PartsSeq(PartsOf(Trees(roots), write), write, 0), AllTrimmedAway(Trees(roots), write), AllSaid(Trees(roots), write, 0));
  }

  // ─── one call ───────────────────────────────────────────────────────────────

  function Defect(write: bool): Outcome {
    if write then Unknown else Unprocessed
  }

  function OutcomeOf(kind: Kind): ItemOutcome {
    match kind
    case Found(_) => Done
    case Other(_) => Done
    case Stopped(Rejected, _) => NotApplied
    case Stopped(Unprocessed, _) => NotProcessed
    case Stopped(Unknown, _) => MayBeApplied
  }

  /** What the caller sees of an outcome. */
  function Seen(r: Named): ItemAnswer {
    ItemAnswer(OutcomeOf(r.kind), r.kind, r.actor)
  }

  /** The reply shows the results, with each partition as an index into its list. */
  ghost predicate Shows(reply: Reply, results: seq<Named>) {
    && Answers(reply, |results|)
    && forall j :: 0 <= j < |results| ==> BatchRetry.Named(reply.results[j], Actors(reply.partitions)) == Seen(results[j])
  }

  /**
   * The reply to a call with `n` operations, when the trees of its roots are `roots`: each position shows
   * what a handler said of its own operation, or the error of the lost call that carried it, or a trimmed
   * outcome, or a defect exactly when there is none.
   */
  ghost predicate CallOf(reply: Reply, n: nat, roots: seq<Root>, write: bool) {
    exists results, trimmed ::
      && Placed(results, n, trimmed, Outcomes(roots, write), Defect(write)) && Shows(reply, results)
      && (write ==> trimmed == [])
  }

  lemma PlacedThroughRoots(results: seq<Named>, n: nat, trimmed: seq<Named>, names: seq<Named>, below: seq<Named>, said: seq<Named>, defect: Outcome)
    requires Placed(results, n, trimmed, names, defect) && Conserved(names, below, said) && AllFound(below)
    ensures Placed(results, n, below + trimmed, said, defect)
  {
    OpsOfConserved(names, below, said);
    SameMembers(Ops(names), Ops(said));
    MembersOfConserved(names, below, said);
    assert TooLarge(below + trimmed) == TooLarge(below) + TooLarge(trimmed);
    forall x | x in TooLarge(below) ensures !x.kind.Found? {
    }
    if AnswersEach(said, n) {
      ConservedOfTrim(names, below, said, results, trimmed);
    }
  }

  function IndexIn(partitions: seq<Meta>, actor: Actor): (i: nat)
    requires actor in Actors(partitions)
    ensures i < |partitions| && partitions[i].actor == actor
  {
    if partitions[|partitions| - 1].actor == actor then |partitions| - 1
    else
      assert forall k :: 0 <= k < |partitions| - 1 ==> Actors(partitions)[k] == Actors(partitions[..|partitions| - 1])[k];
      IndexIn(partitions[..|partitions| - 1], actor)
  }

  /** The reply of the two calls. One entry for each actor makes the index of a partition unique. */
  method ReplyOf(results: seq<Named>, partitions: seq<Meta>, forwardCount: nat) returns (reply: Reply)
    requires ActorsListed(results, partitions)
    ensures Shows(reply, results) && reply.partitions == partitions && reply.forwardCount == forwardCount
  {
    var shown: seq<Result> := [];
    for i := 0 to |results|
      invariant |shown| == i
      invariant forall j :: 0 <= j < i && shown[j].partitionIndex.Some? ==> shown[j].partitionIndex.value < |partitions|
      invariant forall j :: 0 <= j < i ==> BatchRetry.Named(shown[j], Actors(partitions)) == Seen(results[j])
    {
      var index: Option<nat> := None;
      if results[i].actor.Some? {
        var found := IndexIn(partitions, results[i].actor.value);
        assert Actors(partitions)[found] == results[i].actor.value;
        index := Some(found);
      }
      shown := shown + [Result(OutcomeOf(results[i].kind), results[i].kind, index)];
    }
    reply := Reply(shown, partitions, forwardCount);
  }

  /** `#batchGetItems` over the trees of its roots. */
  method CallRead(roots: seq<Root>, n: nat, maxResponseBytes: nat) returns (reply: Reply)
    requires RootsFit(roots, false)
    ensures CallOf(reply, n, roots, false) && OneEntryPerActor(reply.partitions)
  {
    hide Placed, Conserved, PartsSeq, AsParts, RootsFit, AllSettled, Outcomes, AllTrimmedAway, Shows, AllFound;
    RootsArePublic(roots, false);
    RootsConserve(roots, false);
    var settled := AllSettled(roots, false);
    var results, partitions, forwardCount, trimmed := BatchGet(settled, n, maxResponseBytes);
    PlacedThroughRoots(results, n, trimmed, PartsSeq(AsParts(settled), false, 0), AllTrimmedAway(Trees(roots), false), Outcomes(roots, false), Unprocessed);
    reply := ReplyOf(results, partitions, forwardCount);
    assert Placed(results, n, AllTrimmedAway(Trees(roots), false) + trimmed, Outcomes(roots, false), Defect(false)) && Shows(reply, results);
  }

  /** `#batchWriteItems` over the trees of its roots. */
  method CallWrite(roots: seq<Root>, n: nat) returns (reply: Reply)
    requires RootsFit(roots, true)
    ensures CallOf(reply, n, roots, true) && OneEntryPerActor(reply.partitions)
  {
    hide Placed, Conserved, PartsSeq, AsParts, RootsFit, AllSettled, Outcomes, AllTrimmedAway, Shows, AllFound;
    RootsArePublic(roots, true);
    RootsConserve(roots, true);
    var settled := AllSettled(roots, true);
    var results, partitions, forwardCount := BatchWrite(settled, n);
    PlacedThroughRoots(results, n, [], PartsSeq(AsParts(settled), true, 0), [], Outcomes(roots, true), Unknown);
    assert Placed(results, n, [] + [], Outcomes(roots, true), Defect(true));
    reply := ReplyOf(results, partitions, forwardCount);
  }

  // ─── the retry loop over such calls ─────────────────────────────────────────

  /** The trees of the roots of call `k` for any items. Each call can find other trees. */
  type World = (nat, seq<Item>) -> seq<Root>

  /** Each call of the loop is a batch call over its trees. */
  ghost predicate CallsTrees(l: Loop, world: World, write: bool) {
    forall k: nat, items: seq<Item> :: CallOf(l.call(k, items), |items|, world(k, items), write)
  }

  /** Each operation of a call has one outcome: of the handler that answered it, or of the lost call that carried it. */
  ghost predicate EachHasAnOutcome(world: World, write: bool) {
    forall k: nat, items: seq<Item> :: AnswersEach(Outcomes(world(k, items), write), |items|)
  }

  lemma TreesAnswer(l: Loop, world: World, write: bool)
    requires CallsTrees(l, world, write)
    ensures CallsAnswer(l)
  {
    hide Placed, Answers;
    forall k: nat, items: seq<Item> ensures Answers(l.call(k, items), |items|) {
      var results, trimmed :| Placed(results, |items|, trimmed, Outcomes(world(k, items), write), Defect(write)) && Shows(l.call(k, items), results);
      PlacedSize(results, |items|, trimmed, Outcomes(world(k, items), write), Defect(write));
    }
  }

  lemma PlacedSize(results: seq<Named>, n: nat, trimmed: seq<Named>, said: seq<Named>, defect: Outcome)
    requires Placed(results, n, trimmed, said, defect)
    ensures |results| == n
  {
  }

  /** What the handlers and the lost calls of call `k` of the loop said. */
  ghost function SaidIn(l: Loop, world: World, write: bool, k: nat): seq<Named>
    requires CallsAnswer(l)
  {
    Outcomes(world(k, Select(l.entries, PositionsAt(l, k))), write)
  }

  /**
   * The answer shows an outcome of operation `j`: one that was said, or a found item that a trim made
   * unprocessed, or a defect when none was said.
   */
  ghost predicate ShowsOwn(answer: ItemAnswer, said: seq<Named>, j: nat, write: bool) {
    exists r: Named :: r.opIndex == j && answer == Seen(r)
      && if j in Ops(said) then r in said || (!write && WasTrimmed(r, said)) else r == DefectAt(j, Defect(write))
  }

  ghost predicate WasTrimmed(r: Named, said: seq<Named>) {
    exists f :: f in said && f.kind.Found? && r == f.(kind := Stopped(Unprocessed, ResponseTooLarge))
  }

  lemma PlacedIsOwn(results: seq<Named>, n: nat, trimmed: seq<Named>, said: seq<Named>, write: bool, j: nat)
    requires Placed(results, n, trimmed, said, Defect(write)) && j < n && (write ==> trimmed == [])
    ensures |results| == n && ShowsOwn(Seen(results[j]), said, j, write)
  {
    var r := results[j];
    if j in Ops(said) && r !in said {
      var k :| 0 <= k < |TooLarge(trimmed)| && TooLarge(trimmed)[k] == r;
      assert trimmed[k] in trimmed && trimmed[k] in said && trimmed[k].kind.Found?;
      assert WasTrimmed(r, said);
    }
    assert r.opIndex == j && Seen(r) == Seen(results[j]);
  }

  lemma AnswerIsOwn(l: Loop, world: World, write: bool, k: nat, j: nat)
    requires CallsAnswer(l) && CallsTrees(l, world, write) && j < |PositionsAt(l, k)|
    ensures AnswerAt(l, k, PositionsAt(l, k)[j]).Some?
    ensures ShowsOwn(AnswerAt(l, k, PositionsAt(l, k)[j]).value, SaidIn(l, world, write, k), j, write)
  {
    var items, said := Select(l.entries, PositionsAt(l, k)), SaidIn(l, world, write, k);
    AnswerIs(l, k, j);
    assert ReplyAt(l, k) == l.call(k, items);
    assert CallOf(l.call(k, items), |items|, world(k, items), write);
    hide Placed, ShowsOwn, CallsAnswer, CallsTrees, PositionsAt, AnswerAt, Outcomes, Ops, Seen;
    var results, trimmed :| Placed(results, |items|, trimmed, said, Defect(write)) && Shows(l.call(k, items), results) && (write ==> trimmed == []);
    PlacedIsOwn(results, |items|, trimmed, said, write, j);
  }

  /** Every entry ends with one result, and it is an outcome of its own operation in one of the calls. */
  lemma EachEntryEndsWithItsOwn(l: Loop, world: World, write: bool, n: nat, i: nat) returns (k: nat, j: nat)
    requires CallsTrees(l, world, write) && n > 0 && i < |l.entries|
    ensures CallsAnswer(l) && ResultAfter(l, n, i).Some?
    ensures k < n && j < |PositionsAt(l, k)| && PositionsAt(l, k)[j] == i
    ensures ShowsOwn(ResultAfter(l, n, i).value, SaidIn(l, world, write, k), j, write)
  {
    hide CallsAnswer, CallsTrees, PositionsAt, AnswerAt, ShowsOwn, SaidIn, ResultAfter;
    TreesAnswer(l, world, write);
    AllAnswered(l, n);
    k, j := ResultIsAnAnswer(l, n, i);
    AnswerIsOwn(l, world, write, k, j);
  }

  lemma {:induction false} LastSent(l: Loop, n: nat, i: nat) returns (k: nat)
    requires CallsAnswer(l) && n > 0 && i < |l.entries|
    ensures k < n && i in PositionsAt(l, k) && forall m: nat :: k < m < n ==> i !in PositionsAt(l, m)
  {
    hide CallsAnswer, PositionsAt;
    FirstPositions(l);
    assert PositionsAt(l, 0)[i] == i;
    if i in PositionsAt(l, n - 1) {
      return n - 1;
    }
    k := LastSent(l, n - 1, i);
  }

  /**
   * A batch read with retries: each key ends with what the last call that sent it says of it. That is the
   * outcome of the handler of this key, or the error of the lost call that carried it, or a trim of its item.
   */
  lemma ReadEndsAsHandled(entries: seq<Item>, call: (nat, seq<Item>) -> Reply, world: World, n: nat, i: nat) returns (k: nat, j: nat)
    requires CallsTrees(ReadLoop(entries, call), world, false) && EachHasAnOutcome(world, false) && n > 0 && i < |entries|
    ensures var l := ReadLoop(entries, call);
            && CallsAnswer(l) && ResultAfter(l, n, i).Some?
            && k < n && j < |PositionsAt(l, k)| && PositionsAt(l, k)[j] == i
            && (forall m: nat :: k < m < n ==> i !in PositionsAt(l, m))
            && j in Ops(SaidIn(l, world, false, k))
            && ShowsOwn(ResultAfter(l, n, i).value, SaidIn(l, world, false, k), j, false)
  {
    var l := ReadLoop(entries, call);
    hide CallsAnswer, CallsTrees, PositionsAt, AnswerAt, ShowsOwn, ResultAfter, Outcomes, AnswersEach;
    TreesAnswer(l, world, false);
    k := LastSent(l, n, i);
    j :| 0 <= j < |PositionsAt(l, k)| && PositionsAt(l, k)[j] == i;
    ReadKeepsLastAnswer(entries, call, n, i, k);
    AnswerIsOwn(l, world, false, k, j);
    EachOpIsAPosition(SaidIn(l, world, false, k), |PositionsAt(l, k)|);
  }

  // ─── writes with retries ────────────────────────────────────────────────────

  /** An answer that arrived says that operation `j` was applied. */
  ghost predicate Reported(said: seq<Named>, j: nat) {
    exists w :: w in said && w.opIndex == j && !w.kind.Stopped?
  }

  /** With one outcome for each operation, the answer shows the one that was said. */
  lemma OwnIsTheOneSaid(answer: ItemAnswer, said: seq<Named>, j: nat, n: nat)
    requires AnswersEach(said, n) && j < n && ShowsOwn(answer, said, j, true)
    ensures answer.outcome == Done <==> Reported(said, j)
    ensures SaysItCanBe(said, j) ==> answer.outcome == Done || answer.outcome == MayBeApplied
  {
    EachOpIsAPosition(said, n);
    hide AnswersEach;
    var r: Named :| r.opIndex == j && answer == Seen(r) && r in said;
    forall w | w in said && w.opIndex == j ensures w == r {
      var a :| 0 <= a < |said| && said[a] == w;
      var b :| 0 <= b < |said| && said[b] == r;
      assert a == b;
    }
  }

  /** In every call, what ran below a lost call wrote only what the error of that call leaves room for. */
  ghost predicate RepliesAreLost(world: World) {
    forall k: nat, items: seq<Item> :: RootsLoseOnlyReplies(world(k, items))
  }

  predicate RootsLoseOnlyReplies(roots: seq<Root>) {
    forall g :: 0 <= g < |roots| ==> LosesOnlyReplies(roots[g].tree)
  }

  /** The operations that a handler applied below the roots of call `k`, whether the answers arrived or not. */
  ghost function WrittenIn(l: Loop, world: World, k: nat): set<nat>
    requires CallsAnswer(l)
  {
    AllWritten(Trees(world(k, Select(l.entries, PositionsAt(l, k)))))
  }

  /** Public codes hide no write. */
  lemma RootsSayTheirWrites(roots: seq<Root>)
    requires RootsLoseOnlyReplies(roots)
    ensures forall j :: Reported(Outcomes(roots, true), j) ==> j in AllWritten(Trees(roots))
    ensures forall j :: j in AllWritten(Trees(roots)) ==> SaysItCanBe(Outcomes(roots, true), j)
  {
    AllWrittenIsSaid(Trees(roots), 0);
    var inner, said := AllSaid(Trees(roots), true, 0), Outcomes(roots, true);
    hide AllSaid, AllWritten, Trees;
    forall j | Reported(said, j) ensures j in AllWritten(Trees(roots)) {
      var w :| w in said && w.opIndex == j && !w.kind.Stopped?;
      var i :| 0 <= i < |said| && said[i] == w;
      assert inner[i] in inner && said[i] == Public(inner[i]);
    }
    forall j | j in AllWritten(Trees(roots)) ensures SaysItCanBe(said, j) {
      var w :| w in inner && w.opIndex == j && CanBeWritten(w);
      var i :| 0 <= i < |inner| && inner[i] == w;
      assert said[i] in said && said[i] == Public(inner[i]) && CanBeWritten(said[i]);
    }
  }

  /** Some of the first `n` calls sent entry `i`, and a handler applied it there. */
  ghost predicate WasWritten(l: Loop, world: World, n: nat, i: nat)
    requires CallsAnswer(l)
  {
    exists k: nat, j: nat {:trigger PositionsAt(l, k)[j]} ::
      k < n && j < |PositionsAt(l, k)| && PositionsAt(l, k)[j] == i && j in WrittenIn(l, world, k)
  }

  /** Some of the first `n` calls sent entry `i`, and an answer that arrived says that it was applied. */
  ghost predicate WasReported(l: Loop, world: World, n: nat, i: nat)
    requires CallsAnswer(l)
  {
    exists k: nat, j: nat {:trigger PositionsAt(l, k)[j]} ::
      k < n && j < |PositionsAt(l, k)| && PositionsAt(l, k)[j] == i && Reported(SaidIn(l, world, true, k), j)
  }

  lemma CallShowsItsWrites(l: Loop, world: World, k: nat, j: nat)
    requires CallsAnswer(l) && CallsTrees(l, world, true) && EachHasAnOutcome(world, true) && RepliesAreLost(world) && j < |PositionsAt(l, k)|
    ensures var answer := AnswerAt(l, k, PositionsAt(l, k)[j]);
            && answer.Some?
            && (answer.value.outcome == Done <==> Reported(SaidIn(l, world, true, k), j))
            && (j in WrittenIn(l, world, k) ==> answer.value.outcome == Done || answer.value.outcome == MayBeApplied)
            && (answer.value.outcome == Done ==> j in WrittenIn(l, world, k))
  {
    var items := Select(l.entries, PositionsAt(l, k));
    assert RootsLoseOnlyReplies(world(k, items)) && AnswersEach(Outcomes(world(k, items), true), |items|);
    hide CallsAnswer, CallsTrees, PositionsAt, AnswerAt, ShowsOwn, Outcomes, AnswersEach, Reported, SaysItCanBe, AllWritten, Trees, RootsLoseOnlyReplies;
    AnswerIsOwn(l, world, true, k, j);
    RootsSayTheirWrites(world(k, items));
    OwnIsTheOneSaid(AnswerAt(l, k, PositionsAt(l, k)[j]).value, SaidIn(l, world, true, k), j, |items|);
  }

  /**
   * A batch write with retries, where any answer can be lost. It ends `ok` exactly when an answer that
   * arrived says that the operation was applied, and then it was. An operation that a handler applied, with
   * or without its answer, ends `ok` or `unknown`. So one that ends rejected or unprocessed was never applied.
   */
  lemma WriteEndsAsHandled(entries: seq<Item>, call: (nat, seq<Item>) -> Reply, world: World, n: nat, i: nat)
    requires CallsTrees(WriteLoop(entries, call), world, true) && EachHasAnOutcome(world, true) && RepliesAreLost(world)
    requires n > 0 && i < |entries|
    ensures var l := WriteLoop(entries, call);
            && CallsAnswer(l) && ResultAfter(l, n, i).Some?
            && var outcome := ResultAfter(l, n, i).value.outcome;
            && (outcome == Done <==> WasReported(l, world, n, i))
            && (outcome == Done ==> WasWritten(l, world, n, i))
            && (WasWritten(l, world, n, i) ==> outcome == Done || outcome == MayBeApplied)
            && (outcome == NotApplied || outcome == NotProcessed ==> !WasWritten(l, world, n, i))
  {
    var l := WriteLoop(entries, call);
    hide CallsAnswer, CallsTrees, PositionsAt, AnswerAt, ShowsOwn, ResultAfter, Outcomes, EachHasAnOutcome, RepliesAreLost, Reported, WrittenIn, SaidIn;
    TreesAnswer(l, world, true);
    WriteEndsAsApplied(entries, call, n, i);
    forall k: nat, j: nat | k < n && j < |PositionsAt(l, k)| && PositionsAt(l, k)[j] == i
      ensures AnswerAt(l, k, i).Some?
      ensures AnswerAt(l, k, i).value.outcome == Done <==> Reported(SaidIn(l, world, true, k), j)
      ensures j in WrittenIn(l, world, k) ==> AnswerAt(l, k, i).value.outcome == Done || AnswerAt(l, k, i).value.outcome == MayBeApplied
      ensures AnswerAt(l, k, i).value.outcome == Done ==> j in WrittenIn(l, world, k)
    {
      CallShowsItsWrites(l, world, k, j);
    }
    forall k: nat | k < n && AnswerAt(l, k, i).Some? ensures i in PositionsAt(l, k) {
      WasSent(l, k, i);
    }
  }

  lemma LostSays(t: Tree)
    requires t.LostCall? && t.opIndexes == [0] && LeavesRoomForAWrite(t.error, t.local) && !t.error.routed
    ensures var names := PartNames(PartOf(t, true), true, 0);
            |names| == 1 && names[0].opIndex == 0 && names[0].kind == Stopped(Unknown, t.error.code) && names[0].actor.None?
  {
  }

  /** A handler applied the write, and its answer was lost: the caller sees that it may be applied. */
  lemma LostReplyIsUnknown(reply: Reply)
    requires var error := Error(false, false, false, None, 0, false, ErrorCode(1));
             CallOf(reply, 1, [Root(LostCall([0], false, error, [Leaf(Answer([Entry(0, 0, 1)], [], [], [7]))]), [], 0)], true)
    ensures var error := Error(false, false, false, None, 0, false, ErrorCode(1));
            var t := LostCall([0], false, error, [Leaf(Answer([Entry(0, 0, 1)], [], [], [7]))]);
            && LosesOnlyReplies(t) && 0 in Written(t)
            && |reply.results| == 1 && reply.results[0].outcome == MayBeApplied
  {
    var error := Error(false, false, false, None, 0, false, ErrorCode(1));
    var leaf := Leaf(Answer([Entry(0, 0, 1)], [], [], [7]));
    var t := LostCall([0], false, error, [leaf]);
    var roots := [Root(t, [], 0)];
    assert Entry(0, 0, 1) in leaf.answer.found + leaf.answer.other;
    assert [leaf][..0] == [] && [leaf][0] == leaf;
    assert Written(leaf) == {0} && AllWritten([leaf]) == {0};
    assert LosesOnlyReplies(t);
    assert Trees(roots) == [t] && [t][..0] == [];
    var said := Outcomes(roots, true);
    LostSays(t);
    var one := PartNames(PartOf(t, true), true, 0);
    assert AllSaid([t], true, 0) == AllSaid([], true, 0) + one;
    assert said == Map(one, Public) && |said| == 1 && said[0] == Public(one[0]);
    hide Outcomes, Trees, LosesOnlyReplies, Written, AllWritten;
    var results, trimmed :| Placed(results, 1, trimmed, said, Unknown) && Shows(reply, results) && trimmed == [];
    assert Ops(said)[0] == 0;
  }
}
