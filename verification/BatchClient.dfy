/** The client side of one batch call: it joins the answers of the roots, and places each outcome at the position of its operation. */
module BatchClient {
  import opened Bytes
  import opened BatchAnswers
  import opened BatchResponse
  import opened BatchTree
  import opened BatchRetry

  // ─── public codes ───────────────────────────────────────────────────────────

  /** `publicBatchCode`: a client knows no repartitions. */
  function PublicCode(c: Code): Code {
    if c.RepartitionNotCutOver? then PartitionMigrating else c
  }

  function PublicFailure(f: Failure): Failure {
    f.(code := PublicCode(f.code))
  }

  function PublicAnswer(a: Answer): Answer {
    a.(failed := Map(a.failed, PublicFailure))
  }

  /** The same outcome with the code that the caller sees. */
  function Public(n: Named): Named {
    if n.kind.Stopped? then n.(kind := Stopped(n.kind.outcome, PublicCode(n.kind.code))) else n
  }

  lemma MapOfAppend<A, B>(a: seq<A>, b: seq<A>, f: A -> B)
    ensures Map(a + b, f) == Map(a, f) + Map(b, f)
  {
  }

  lemma {:induction false} FailuresArePublic(failed: seq<Failure>, partitions: seq<Actor>)
    ensures NameFailures(Map(failed, PublicFailure), partitions) == Map(NameFailures(failed, partitions), Public)
  {
    if failed != [] {
      var front, last := failed[..|failed| - 1], failed[|failed| - 1];
      FailuresArePublic(front, partitions);
      assert Map(failed, PublicFailure)[..|failed| - 1] == Map(front, PublicFailure);
      MapOfAppend(NameFailures(front, partitions), NameFailure(last, partitions), Public);
      FailureIsPublic(last, partitions);
    }
  }

  lemma FailureIsPublic(f: Failure, partitions: seq<Actor>)
    ensures NameFailure(PublicFailure(f), partitions) == Map(NameFailure(f, partitions), Public)
  {
    forall k | 0 <= k < |f.opIndexes| ensures NameFailure(PublicFailure(f), partitions)[k] == Public(NameFailure(f, partitions)[k]) {
    }
  }

  lemma AnswerIsPublic(a: Answer)
    ensures Names(PublicAnswer(a)) == Map(Names(a), Public)
    ensures InRange(a) ==> InRange(PublicAnswer(a))
  {
    FailuresArePublic(a.failed, a.partitions);
    forall i | 0 <= i < |a.failed| ensures PublicAnswer(a).failed[i] == PublicFailure(a.failed[i]) {
    }
    hide NameFailures;
    assert Map(NameEntries(a.found, true, a.partitions), Public) == NameEntries(a.found, true, a.partitions);
    assert Map(NameEntries(a.other, false, a.partitions), Public) == NameEntries(a.other, false, a.partitions);
  }

  /** No failure holds the internal code of a source that has not cut over. */
  ghost predicate PublicFailures(failed: seq<Failure>) {
    forall f :: f in failed ==> f.code != RepartitionNotCutOver
  }

  /** No result shows the internal code. */
  ghost predicate ShowsPublicCodes(results: seq<Named>) {
    forall n :: n in results && n.kind.Stopped? ==> n.kind.code != RepartitionNotCutOver
  }

  lemma {:induction false} PublicFailuresShow(failed: seq<Failure>, partitions: seq<Actor>)
    requires PublicFailures(failed)
    ensures ShowsPublicCodes(NameFailures(failed, partitions))
  {
    if failed != [] {
      PublicFailuresShow(failed[..|failed| - 1], partitions);
    }
  }

  lemma PublicAnswerShows(a: Answer)
    requires PublicFailures(a.failed)
    ensures ShowsPublicCodes(Names(a))
  {
    PublicFailuresShow(a.failed, a.partitions);
    hide NameFailures;
    assert ShowsPublicCodes(NameEntries(a.found, true, a.partitions)) && ShowsPublicCodes(NameEntries(a.other, false, a.partitions));
  }

  lemma MovedFailuresArePublic(before: seq<Failure>, failed: seq<Failure>, at: nat -> nat)
    requires PublicFailures(before)
    ensures PublicFailures(before + MoveFailures(Map(failed, PublicFailure), at))
  {
    forall f | f in MoveFailures(Map(failed, PublicFailure), at) ensures f.code != RepartitionNotCutOver {
      var i :| 0 <= i < |failed| && f == MoveFailure(Map(failed, PublicFailure)[i], at);
    }
  }

  lemma DropsArePublic(failed: seq<Failure>, dropped: seq<Entry>)
    requires PublicFailures(failed)
    ensures PublicFailures(failed + DropFailures(dropped))
  {
  }

  lemma PlacedArePublic(said: seq<Named>, results: seq<Named>, defect: Outcome)
    requires ShowsPublicCodes(said)
    requires forall i :: 0 <= i < |results| ==> results[i] in said || results[i] == DefectAt(i, defect)
    ensures ShowsPublicCodes(results)
  {
  }

  // ─── the join ───────────────────────────────────────────────────────────────

  /** The result of the call for one group of items: an answer with its partition entries, or an error. */
  datatype Settled = Fulfilled(answer: Answer, partitions: seq<Meta>, forwardCount: nat) | Refused(opIndexes: seq<nat>, error: Error)

  /** A root answers inside its own list. */
  predicate RootAnswers(s: Settled) {
    s.Fulfilled? ==> InRange(s.answer) && s.answer.partitions == Actors(s.partitions)
  }

  /** A settled call as a part of a merge, with public codes: a refused call is a remote part that was lost. */
  function AsPart(s: Settled): Part {
    match s
    case Fulfilled(answer, _, _) => Answered(PublicAnswer(answer))
    case Refused(opIndexes, error) => Lost(opIndexes, false, error.(code := PublicCode(error.code)))
  }

  function AsParts(settled: seq<Settled>): seq<Part> {
    Map(settled, AsPart)
  }

  /** The forwards that a settled call made, as far as its caller knows. */
  function Forwards(s: Settled): nat {
    if s.Fulfilled? then s.forwardCount else if s.error.routed then s.error.forwardCount else 0
  }

  function Entries(s: Settled): seq<Meta> {
    if s.Fulfilled? then s.partitions else []
  }

  function AllForwards(settled: seq<Settled>): nat {
    if settled == [] then 0 else AllForwards(settled[..|settled| - 1]) + Forwards(settled[|settled| - 1])
  }

  /** The row counts that all the answers report. */
  function AllRowsRead(settled: seq<Settled>): nat {
    if settled == [] then 0 else AllRowsRead(settled[..|settled| - 1]) + RowsRead(Entries(settled[|settled| - 1]))
  }

  function AllRowsWritten(settled: seq<Settled>): nat {
    if settled == [] then 0 else AllRowsWritten(settled[..|settled| - 1]) + RowsWritten(Entries(settled[|settled| - 1]))
  }

  method AddAnswer(join: PartitionMetaJoin, before: Answer, answer: Answer, entries: seq<Meta>) returns (out: Answer)
    requires join.Valid() && InRange(before) && before.partitions == Actors(join.partitions)
    requires InRange(answer) && answer.partitions == Actors(entries)
    modifies join
    ensures join.Valid() && InRange(out) && out.partitions == Actors(join.partitions)
    ensures multiset(Names(out)) == multiset(Names(before)) + multiset(Names(PublicAnswer(answer)))
    ensures PublicFailures(before.failed) ==> PublicFailures(out.failed)
    ensures RowsRead(join.partitions) == RowsRead(old(join.partitions)) + RowsRead(entries)
    ensures RowsWritten(join.partitions) == RowsWritten(old(join.partitions)) + RowsWritten(entries)
  {
    hide Names, Actors, MoveEntries, MoveFailures, InRange, RowsRead, RowsWritten;
    var indexes := join.AddAll(entries);
    var at := (i: nat) => if i < |indexes| then indexes[i] else 0;
    IndexesMove(indexes, entries, join.partitions, at);
    AnswerIsPublic(answer);
    MovedAnswerAdds(before, PublicAnswer(answer), at, Actors(join.partitions));
    out := Answer(before.found + MoveEntries(answer.found, at), before.other + MoveEntries(answer.other, at),
                  before.failed + MoveFailures(Map(answer.failed, PublicFailure), at), Actors(join.partitions));
    if PublicFailures(before.failed) {
      MovedFailuresArePublic(before.failed, answer.failed, at);
    }
  }

  method AddRefusal(join: PartitionMetaJoin, before: Answer, opIndexes: seq<nat>, error: Error, write: bool) returns (out: Answer)
    requires join.Valid() && InRange(before) && before.partitions == Actors(join.partitions)
    modifies join
    ensures join.Valid() && InRange(out) && out.partitions == Actors(join.partitions)
    ensures multiset(Names(out)) == multiset(Names(before)) + multiset(PartNames(AsPart(Refused(opIndexes, error)), write, 0))
    ensures PublicFailures(before.failed) ==> PublicFailures(out.failed)
    ensures RowsRead(join.partitions) == RowsRead(old(join.partitions)) && RowsWritten(join.partitions) == RowsWritten(old(join.partitions))
  {
    hide Names, Actors, InRange, RowsRead, RowsWritten;
    var c := Classify(error, write, false);
    var raiser := Raiser(error);
    var partitionIndex: Option<nat> := None;
    if raiser.Some? {
      var index := join.Add(Meta(raiser.value, None, None, None));
      partitionIndex := Some(index);
      ActorOf(join.partitions, index);
    }
    var failure := Failure(c.outcome, PublicCode(c.code), partitionIndex, opIndexes);
    FailureAdds(before, failure, Actors(join.partitions));
    out := before.(failed := before.failed + [failure], partitions := Actors(join.partitions));
  }

  /**
   * `joinBatchAnswers`: one list of partitions for all the answers, with one entry for each actor. The
   * outcomes of the joined answer are those of the settled calls, each with the partition it had and with
   * its public code, and the counts are the sums.
   */
  method JoinBatchAnswers(settled: seq<Settled>, write: bool) returns (out: Answer, partitions: seq<Meta>, forwardCount: nat)
    requires forall g :: 0 <= g < |settled| ==> RootAnswers(settled[g])
    ensures InRange(out) && out.partitions == Actors(partitions) && OneEntryPerActor(partitions)
    ensures forall self :: multiset(Names(out)) == PartsNames(AsParts(settled), write, self)
    ensures PublicFailures(out.failed)
    ensures forwardCount == AllForwards(settled)
    ensures RowsRead(partitions) == AllRowsRead(settled) && RowsWritten(partitions) == AllRowsWritten(settled)
  {
    hide Names, Actors, InRange, PartsNames, AsParts, RowsRead, RowsWritten;
    var join := new PartitionMetaJoin();
    NothingSaid(write);
    out, forwardCount := EMPTY, 0;
    for g := 0 to |settled|
      invariant join.Valid() && fresh(join)
      invariant InRange(out) && out.partitions == Actors(join.partitions)
      invariant multiset(Names(out)) == PartsNames(AsParts(settled[..g]), write, 0)
      invariant PublicFailures(out.failed)
      invariant forwardCount == AllForwards(settled[..g])
      invariant RowsRead(join.partitions) == AllRowsRead(settled[..g]) && RowsWritten(join.partitions) == AllRowsWritten(settled[..g])
    {
      OneMoreSettled(settled, g, write);
      match settled[g] {
        case Fulfilled(answer, entries, forwards) =>
          forwardCount := forwardCount + forwards;
          out := AddAnswer(join, out, answer, entries);
        case Refused(opIndexes, error) =>
          if error.routed {
            forwardCount := forwardCount + error.forwardCount;
          }
          out := AddRefusal(join, out, opIndexes, error, write);
      }
    }
    assert settled[..|settled|] == settled;
    partitions := join.partitions;
    forall self: Actor ensures PartsNames(AsParts(settled), write, self) == PartsNames(AsParts(settled), write, 0) {
      NoLocalPart(settled, write, self);
    }
  }

  lemma NothingSaid(write: bool)
    ensures InRange(EMPTY) && Names(EMPTY) == [] && PartsNames(AsParts([]), write, 0) == multiset{}
    ensures Actors([]) == [] && RowsRead([]) == 0 && RowsWritten([]) == 0
  {
  }

  lemma ActorOf(partitions: seq<Meta>, i: nat)
    requires i < |partitions|
    ensures i < |Actors(partitions)| && Actors(partitions)[i] == partitions[i].actor
  {
  }

  lemma IndexesMove(indexes: seq<nat>, entries: seq<Meta>, partitions: seq<Meta>, at: nat -> nat)
    requires PointAt(indexes, entries, partitions) && forall i :: 0 <= i < |indexes| ==> at(i) == indexes[i]
    ensures Moves(at, Actors(entries), Actors(partitions))
  {
  }

  lemma OneMoreSettled(settled: seq<Settled>, g: nat, write: bool)
    requires g < |settled|
    ensures PartsNames(AsParts(settled[..g + 1]), write, 0)
            == PartsNames(AsParts(settled[..g]), write, 0) + multiset(PartNames(AsPart(settled[g]), write, 0))
    ensures AllForwards(settled[..g + 1]) == AllForwards(settled[..g]) + Forwards(settled[g])
    ensures AllRowsRead(settled[..g + 1]) == AllRowsRead(settled[..g]) + RowsRead(Entries(settled[g]))
    ensures AllRowsWritten(settled[..g + 1]) == AllRowsWritten(settled[..g]) + RowsWritten(Entries(settled[g]))
  {
    assert settled[..g + 1][..g] == settled[..g];
    var parts := AsParts(settled[..g + 1]);
    assert parts[..g] == AsParts(settled[..g]) && parts[g] == AsPart(settled[g]);
    hide PartNames;
  }

  lemma {:induction false} NoLocalPart(settled: seq<Settled>, write: bool, self: Actor)
    ensures PartsNames(AsParts(settled), write, self) == PartsNames(AsParts(settled), write, 0)
  {
    if settled != [] {
      var front := settled[..|settled| - 1];
      NoLocalPart(front, write, self);
      assert AsParts(settled)[..|settled| - 1] == AsParts(front);
      assert AsParts(settled)[|settled| - 1] == AsPart(settled[|settled| - 1]);
    }
  }

  // ─── positions ──────────────────────────────────────────────────────────────

  /** The operations `0` to `n - 1` each have one outcome. */
  ghost predicate AnswersEach(said: seq<Named>, n: nat) {
    multiset(Ops(said)) == multiset(Positions(n))
  }

  function Positions(n: nat): seq<nat> {
    seq(n, i requires 0 <= i < n => i)
  }

  lemma {:induction false} PositionsOnce(n: nat, i: nat)
    ensures multiset(Positions(n))[i] == if i < n then 1 else 0
  {
    if n > 0 {
      PositionsOnce(n - 1, i);
      assert Positions(n) == Positions(n - 1) + [n - 1];
    } else {
      assert Positions(0) == [];
    }
  }

  lemma EachOpIsAPosition(said: seq<Named>, n: nat)
    requires AnswersEach(said, n)
    ensures forall k :: 0 <= k < |said| ==> said[k].opIndex < n
    ensures forall k, m :: 0 <= k < m < |said| ==> said[k].opIndex != said[m].opIndex
    ensures forall i: nat :: i < n ==> i in Ops(said)
  {
    var ops := Ops(said);
    forall k | 0 <= k < |said| ensures said[k].opIndex < n {
      assert ops[k] in multiset(ops);
      PositionsOnce(n, ops[k]);
    }
    forall k, m | 0 <= k < m < |said| ensures said[k].opIndex != said[m].opIndex {
      PositionsOnce(n, ops[k]);
      TwiceIsTwo(ops, k, m);
    }
    forall i: nat | i < n ensures i in ops {
      PositionsOnce(n, i);
      assert i in multiset(ops);
    }
  }

  lemma TwiceIsTwo(s: seq<nat>, k: nat, m: nat)
    requires k < m < |s|
    ensures s[k] == s[m] ==> multiset(s)[s[k]] >= 2
  {
    assert s == (s[..k] + [s[k]]) + (s[k + 1..m] + ([s[m]] + s[m + 1..]));
  }

  /** Each operation has at most one outcome. */
  predicate OneOutcomeEach(said: seq<Named>) {
    forall k, m :: 0 <= k < m < |said| ==> said[k].opIndex != said[m].opIndex
  }

  /** The outcome that stands for a missing one: a defect of the answer. */
  function DefectAt(i: nat, defect: Outcome): Named {
    Named(i, Stopped(defect, InvariantFailed), None)
  }

  /**
   * Writes each outcome at the position of its operation. A position holds an outcome of its own
   * operation, or a defect exactly when there is none.
   */
  method PlaceOutcomes(said: seq<Named>, n: nat, defect: Outcome) returns (results: seq<Named>)
    ensures |results| == n && forall i :: 0 <= i < n ==> results[i].opIndex == i
    ensures forall i :: 0 <= i < n ==> if i in Ops(said) then results[i] in said else results[i] == DefectAt(i, defect)
    ensures OneOutcomeEach(said) ==> forall k :: 0 <= k < |said| && said[k].opIndex < n ==> results[said[k].opIndex] == said[k]
  {
    var held: seq<Option<Named>> := seq(n, _ => None);
    for k := 0 to |said|
      invariant |held| == n
      invariant forall i :: 0 <= i < n && held[i].Some? ==> held[i].value.opIndex == i && held[i].value in said
      invariant forall m :: 0 <= m < k && said[m].opIndex < n ==> held[said[m].opIndex].Some?
      invariant OneOutcomeEach(said) ==> forall m :: 0 <= m < k && said[m].opIndex < n ==> held[said[m].opIndex] == Some(said[m])
    {
      if said[k].opIndex < n {
        held := held[said[k].opIndex := Some(said[k])];
      }
    }
    results := seq(n, i requires 0 <= i < n => if held[i].Some? then held[i].value else DefectAt(i, defect));
    forall i | 0 <= i < n ensures held[i].Some? <==> i in Ops(said) {
      if held[i].Some? {
        var k :| 0 <= k < |said| && said[k] == held[i].value;
        assert Ops(said)[k] == i;
      }
      if i in Ops(said) {
        var k :| 0 <= k < |said| && Ops(said)[k] == i;
        assert held[said[k].opIndex].Some?;
      }
    }
  }

  /** Placing permutes the outcomes and loses none. */
  lemma PlacedIsSaid(said: seq<Named>, n: nat, results: seq<Named>)
    requires AnswersEach(said, n) && |results| == n
    requires forall k :: 0 <= k < |said| && said[k].opIndex < n ==> results[said[k].opIndex] == said[k]
    ensures multiset(results) == multiset(said)
  {
    EachOpIsAPosition(said, n);
    var indexes := Ops(said);
    var f := (i: nat) => if i < n then results[i] else DefectAt(i, Unknown);
    MapOfSame(indexes, Positions(n), f);
    assert Map(Positions(n), f) == results;
    assert |Map(indexes, f)| == |said|;
    forall k | 0 <= k < |said| ensures Map(indexes, f)[k] == said[k] {
      assert indexes[k] == said[k].opIndex && results[said[k].opIndex] == said[k];
    }
    assert Map(indexes, f) == said;
  }

  // ─── the two calls ──────────────────────────────────────────────────────────

  ghost predicate AllFound(s: seq<Named>) {
    forall k :: 0 <= k < |s| ==> s[k].kind.Found?
  }

  /**
   * Each position has an outcome of its own operation. It is an outcome that the calls answered, or a
   * found item that a trim made unprocessed, or a defect exactly when no call answered the operation. When
   * the calls answer each operation, no outcome is lost.
   */
  ghost predicate Placed(results: seq<Named>, n: nat, trimmed: seq<Named>, said: seq<Named>, defect: Outcome) {
    && |results| == n && AllFound(trimmed) && (forall x :: x in trimmed ==> x in said)
    && (forall i :: 0 <= i < n ==> results[i].opIndex == i)
    && (forall i :: 0 <= i < n ==> if i in Ops(said) then results[i] in said + TooLarge(trimmed) else results[i] == DefectAt(i, defect))
    && (AnswersEach(said, n) ==> Conserved(results, trimmed, said))
  }

  lemma PlacedOutcomes(placed: seq<Named>, said: seq<Named>, trimmed: seq<Named>, n: nat, results: seq<Named>, defect: Outcome)
    requires Conserved(placed, trimmed, said) && AllFound(trimmed)
    requires |results| == n && forall i :: 0 <= i < n ==> results[i].opIndex == i
    requires forall i :: 0 <= i < n ==> if i in Ops(placed) then results[i] in placed else results[i] == DefectAt(i, defect)
    requires OneOutcomeEach(placed) ==> forall k :: 0 <= k < |placed| && placed[k].opIndex < n ==> results[placed[k].opIndex] == placed[k]
    ensures Placed(results, n, trimmed, said, defect)
  {
    OpsOfConserved(placed, trimmed, said);
    SameMembers(Ops(placed), Ops(said));
    MembersOfConserved(placed, trimmed, said);
    hide Ops, TooLarge;
    if AnswersEach(said, n) {
      EachOpIsAPosition(placed, n);
      PlacedIsSaid(placed, n, results);
    }
  }

  /** What a conserved list says was said before, or a trim put it there. The items that a trim takes were said before. */
  lemma MembersOfConserved(placed: seq<Named>, trimmed: seq<Named>, said: seq<Named>)
    requires Conserved(placed, trimmed, said) && AllFound(trimmed)
    ensures forall x :: x in placed ==> x in said + TooLarge(trimmed)
    ensures forall x :: x in trimmed ==> x in said
  {
    forall x | x in TooLarge(trimmed) ensures !x.kind.Found? {
    }
    hide TooLarge;
    forall x | x in placed || x in trimmed ensures x in said + TooLarge(trimmed) {
      assert x in multiset(placed) + multiset(trimmed);
      assert x in multiset(said) + multiset(TooLarge(trimmed));
    }
  }

  lemma SameMembers<A>(a: seq<A>, b: seq<A>)
    requires multiset(a) == multiset(b)
    ensures forall x :: x in a <==> x in b
  {
    forall x ensures x in a <==> x in b {
      assert x in a <==> x in multiset(a);
      assert x in b <==> x in multiset(b);
    }
  }

  lemma JoinedIsSaid(out: Answer, settled: seq<Settled>, write: bool)
    requires multiset(Names(out)) == PartsNames(AsParts(settled), write, 0)
    ensures Conserved(Names(out), [], PartsSeq(AsParts(settled), write, 0))
  {
    PartsSeqIsNames(AsParts(settled), write, 0);
    hide Names, PartsNames, AsParts, PartsSeq;
    assert TooLarge([]) == [];
  }

  /** `#batchGetItems` after its calls. Only a trim makes an outcome unprocessed that a call did not. */
  method BatchGet(settled: seq<Settled>, n: nat, maxResponseBytes: nat)
    returns (results: seq<Named>, partitions: seq<Meta>, forwardCount: nat, ghost trimmed: seq<Named>)
    requires forall g :: 0 <= g < |settled| ==> RootAnswers(settled[g])
    ensures Placed(results, n, trimmed, PartsSeq(AsParts(settled), false, 0), Unprocessed)
    ensures OneEntryPerActor(partitions) && ActorsListed(results, partitions) && forwardCount == AllForwards(settled)
    ensures ShowsPublicCodes(results)
  {
    hide Names, Placed, PartsSeq, PartsNames, AsParts, ActorsListed, PublicFailures, ShowsPublicCodes;
    var out: Answer;
    out, partitions, forwardCount := JoinBatchAnswers(settled, false);
    var limit := Min(maxResponseBytes, MAX_BATCH_GET_RESPONSE_BYTES);
    var kept, dropped := FitBatchResponse(out.found, maxResponseBytes);
    var answer := out.(found := kept, failed := out.failed + DropFailures(dropped));
    assert answer == Trim(out, limit);
    TrimIsConserved(out, limit);
    trimmed := NameEntries(dropped, true, out.partitions);
    JoinedIsSaid(out, settled, false);
    ConservedOfTrim(Names(out), [], PartsSeq(AsParts(settled), false, 0), Names(answer), trimmed);
    assert [] + trimmed == trimmed;
    results := PlaceOutcomes(Names(answer), n, Unprocessed);
    PlacedOutcomes(Names(answer), PartsSeq(AsParts(settled), false, 0), trimmed, n, results, Unprocessed);
    NamesAreListed(answer, partitions);
    ResultsAreListed(Names(answer), results, partitions, Unprocessed);
    DropsArePublic(out.failed, dropped);
    PublicAnswerShows(answer);
    PlacedArePublic(Names(answer), results, Unprocessed);
  }

  lemma TrimIsConserved(out: Answer, limit: int)
    requires InRange(out)
    ensures InRange(Trim(out, limit))
    ensures var trimmed := NameEntries(Dropped(SortByOp(out.found), limit), true, out.partitions);
            Conserved(Names(Trim(out, limit)), trimmed, Names(out)) && AllFound(trimmed)
  {
    TrimKeepsNames(out, limit);
  }

  /** Each result that names a partition names one of the list. */
  ghost predicate ActorsListed(results: seq<Named>, partitions: seq<Meta>) {
    forall i :: 0 <= i < |results| && results[i].actor.Some? ==> results[i].actor.value in Actors(partitions)
  }

  lemma NamesAreListed(a: Answer, partitions: seq<Meta>)
    requires InRange(a) && a.partitions == Actors(partitions)
    ensures ActorsListed(Names(a), partitions)
  {
    FailuresAreListed(a.failed, a.partitions);
  }

  lemma {:induction false} FailuresAreListed(failed: seq<Failure>, partitions: seq<Actor>)
    ensures forall n :: n in NameFailures(failed, partitions) && n.actor.Some? ==> n.actor.value in partitions
  {
    if failed != [] {
      FailuresAreListed(failed[..|failed| - 1], partitions);
    }
  }

  lemma ResultsAreListed(said: seq<Named>, results: seq<Named>, partitions: seq<Meta>, defect: Outcome)
    requires ActorsListed(said, partitions)
    requires forall i :: 0 <= i < |results| ==> results[i] in said || results[i] == DefectAt(i, defect)
    ensures ActorsListed(results, partitions)
  {
  }

  /** `#batchWriteItems` after its calls: a missing outcome is unknown, because a call can have written. */
  method BatchWrite(settled: seq<Settled>, n: nat) returns (results: seq<Named>, partitions: seq<Meta>, forwardCount: nat)
    requires forall g :: 0 <= g < |settled| ==> RootAnswers(settled[g])
    ensures Placed(results, n, [], PartsSeq(AsParts(settled), true, 0), Unknown)
    ensures OneEntryPerActor(partitions) && ActorsListed(results, partitions) && forwardCount == AllForwards(settled)
    ensures ShowsPublicCodes(results)
  {
    hide Names, Placed, PartsSeq, PartsNames, AsParts, ActorsListed, PublicFailures, ShowsPublicCodes;
    var out: Answer;
    out, partitions, forwardCount := JoinBatchAnswers(settled, true);
    JoinedIsSaid(out, settled, true);
    results := PlaceOutcomes(Names(out), n, Unknown);
    PlacedOutcomes(Names(out), PartsSeq(AsParts(settled), true, 0), [], n, results, Unknown);
    NamesAreListed(out, partitions);
    ResultsAreListed(Names(out), results, partitions, Unknown);
    PublicAnswerShows(out);
    PlacedArePublic(Names(out), results, Unknown);
  }
}
