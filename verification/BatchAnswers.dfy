/** The answers of a batch: the merge of the parts of one node, and the trim of a read answer. */
module BatchAnswers {
  import opened Bytes

  // ─── answers ────────────────────────────────────────────────────────────────

  datatype Outcome = Rejected | Unprocessed | Unknown

  /** The codes that the batch paths name, and the other codes of errors. */
  datatype Code = ResponseTooLarge | RequestTooLarge | InvariantFailed | RepartitionNotCutOver | PartitionMigrating | ErrorCode(id: nat)

  type Actor = nat

  /** An operation with a positive outcome: a found item, an absent item, an applied put or an applied delete. */
  datatype Entry = Entry(opIndex: nat, partitionIndex: nat, bytes: nat)

  /** One error that stopped operations. */
  datatype Failure = Failure(outcome: Outcome, code: Code, partitionIndex: Option<nat>, opIndexes: seq<nat>)

  /** `found` and `other` are the two lists of a class: found and absent items, or applied puts and deletes. */
  datatype Answer = Answer(found: seq<Entry>, other: seq<Entry>, failed: seq<Failure>, partitions: seq<Actor>)

  const EMPTY := Answer([], [], [], [])

  predicate InRange(a: Answer) {
    && (forall i :: 0 <= i < |a.found| ==> a.found[i].partitionIndex < |a.partitions|)
    && (forall i :: 0 <= i < |a.other| ==> a.other[i].partitionIndex < |a.partitions|)
    && (forall i :: 0 <= i < |a.failed| && a.failed[i].partitionIndex.Some? ==> a.failed[i].partitionIndex.value < |a.partitions|)
  }

  // ─── what an answer says, with no index ─────────────────────────────────────

  datatype Kind = Found(bytes: nat) | Other(bytes: nat) | Stopped(outcome: Outcome, code: Code)

  /** The outcome of one operation and the partition it names. */
  datatype Named = Named(opIndex: nat, kind: Kind, actor: Option<Actor>)

  function ActorAt(partitions: seq<Actor>, i: Option<nat>): Option<Actor> {
    if i.Some? && i.value < |partitions| then Some(partitions[i.value]) else None
  }

  function NameEntries(entries: seq<Entry>, found: bool, partitions: seq<Actor>): seq<Named> {
    seq(|entries|, i requires 0 <= i < |entries| =>
      Named(entries[i].opIndex, if found then Found(entries[i].bytes) else Other(entries[i].bytes), ActorAt(partitions, Some(entries[i].partitionIndex))))
  }

  function NameStopped(opIndexes: seq<nat>, outcome: Outcome, code: Code, actor: Option<Actor>): seq<Named> {
    seq(|opIndexes|, i requires 0 <= i < |opIndexes| => Named(opIndexes[i], Stopped(outcome, code), actor))
  }

  function NameFailure(f: Failure, partitions: seq<Actor>): seq<Named> {
    NameStopped(f.opIndexes, f.outcome, f.code, ActorAt(partitions, f.partitionIndex))
  }

  function NameFailures(failed: seq<Failure>, partitions: seq<Actor>): seq<Named> {
    if failed == [] then [] else NameFailures(failed[..|failed| - 1], partitions) + NameFailure(failed[|failed| - 1], partitions)
  }

  function Names(a: Answer): seq<Named> {
    NameEntries(a.found, true, a.partitions) + NameEntries(a.other, false, a.partitions) + NameFailures(a.failed, a.partitions)
  }

  // ─── moving the indexes of an answer ────────────────────────────────────────

  function MoveEntries(entries: seq<Entry>, move: nat -> nat): seq<Entry> {
    seq(|entries|, i requires 0 <= i < |entries| => entries[i].(partitionIndex := move(entries[i].partitionIndex)))
  }

  function MoveFailure(f: Failure, move: nat -> nat): Failure {
    if f.partitionIndex.None? then f else f.(partitionIndex := Some(move(f.partitionIndex.value)))
  }

  function MoveFailures(failed: seq<Failure>, move: nat -> nat): seq<Failure> {
    seq(|failed|, i requires 0 <= i < |failed| => MoveFailure(failed[i], move))
  }

  /** The moved indexes name the same partitions in the new list. */
  predicate Moves(move: nat -> nat, from: seq<Actor>, to: seq<Actor>) {
    forall i :: 0 <= i < |from| ==> move(i) < |to| && to[move(i)] == from[i]
  }

  predicate EntriesInRange(entries: seq<Entry>, partitions: seq<Actor>) {
    forall i :: 0 <= i < |entries| ==> entries[i].partitionIndex < |partitions|
  }

  predicate FailuresInRange(failed: seq<Failure>, partitions: seq<Actor>) {
    forall i :: 0 <= i < |failed| && failed[i].partitionIndex.Some? ==> failed[i].partitionIndex.value < |partitions|
  }

  lemma MoveKeepsEntries(entries: seq<Entry>, found: bool, move: nat -> nat, from: seq<Actor>, to: seq<Actor>)
    requires EntriesInRange(entries, from) && Moves(move, from, to)
    ensures EntriesInRange(MoveEntries(entries, move), to)
    ensures NameEntries(MoveEntries(entries, move), found, to) == NameEntries(entries, found, from)
  {
  }

  lemma {:induction false} MoveKeepsFailures(failed: seq<Failure>, move: nat -> nat, from: seq<Actor>, to: seq<Actor>)
    requires FailuresInRange(failed, from) && Moves(move, from, to)
    ensures FailuresInRange(MoveFailures(failed, move), to)
    ensures NameFailures(MoveFailures(failed, move), to) == NameFailures(failed, from)
  {
    if failed != [] {
      var front := failed[..|failed| - 1];
      MoveKeepsFailures(front, move, from, to);
      assert MoveFailures(failed, move)[..|failed| - 1] == MoveFailures(front, move);
    }
  }

  lemma {:induction false} FailuresOfAppend(a: seq<Failure>, b: seq<Failure>, partitions: seq<Actor>)
    ensures NameFailures(a + b, partitions) == NameFailures(a, partitions) + NameFailures(b, partitions)
  {
    if b == [] {
      assert a + b == a;
    } else {
      hide NameFailure;
      assert (a + b)[..|a + b| - 1] == a + b[..|b| - 1] && (a + b)[|a + b| - 1] == b[|b| - 1];
      FailuresOfAppend(a, b[..|b| - 1], partitions);
    }
  }

  lemma EntriesOfAppend(a: seq<Entry>, b: seq<Entry>, found: bool, partitions: seq<Actor>)
    ensures NameEntries(a + b, found, partitions) == NameEntries(a, found, partitions) + NameEntries(b, found, partitions)
  {
  }

  /** A longer list names the same partitions at the same indexes. */
  lemma LongerListKeepsNames(a: Answer, more: seq<Actor>)
    requires InRange(a)
    ensures InRange(a.(partitions := a.partitions + more)) && Names(a.(partitions := a.partitions + more)) == Names(a)
  {
    var stay := (i: nat) => i;
    MoveKeepsEntries(a.found, true, stay, a.partitions, a.partitions + more);
    MoveKeepsEntries(a.other, false, stay, a.partitions, a.partitions + more);
    MoveKeepsFailures(a.failed, stay, a.partitions, a.partitions + more);
    assert MoveEntries(a.found, stay) == a.found && MoveEntries(a.other, stay) == a.other && MoveFailures(a.failed, stay) == a.failed;
  }

  // ─── the merge of parts ─────────────────────────────────────────────────────

  /** What `classifyBatchFailure` and `raiserPartition` read from an error. `forwardCount` is part of its routing. */
  datatype Error = Error(rpcTooLarge: bool, invalid: bool, routed: bool, raiser: Option<Actor>, forwardCount: nat, internal: bool, code: Code)

  datatype Part = Answered(result: Answer) | Lost(opIndexes: seq<nat>, local: bool, error: Error)

  datatype FailureClass = FailureClass(outcome: Outcome, code: Code)

  /**
   * The outcome of the operations that one error stopped. It is rejected exactly when the same operation
   * fails the same way again, and unknown only when a remote part of a write can have written.
   */
  function Classify(error: Error, write: bool, local: bool): (c: FailureClass)
    ensures c.outcome == Rejected <==> error.rpcTooLarge || error.invalid
    ensures c.outcome == Unknown <==> write && !local && !error.rpcTooLarge && !error.invalid && (error.routed ==> error.internal)
    ensures c.code == if error.rpcTooLarge then RequestTooLarge else error.code
  {
    if error.rpcTooLarge then FailureClass(Rejected, RequestTooLarge)
    else if error.invalid then FailureClass(Rejected, error.code)
    else if local || !write then FailureClass(Unprocessed, error.code)
    else if error.routed && !error.internal then FailureClass(Unprocessed, error.code)
    else FailureClass(Unknown, error.code)
  }

  function FailureOf(c: FailureClass, partitionIndex: Option<nat>, opIndexes: seq<nat>): Failure {
    Failure(c.outcome, c.code, partitionIndex, opIndexes)
  }

  function Raiser(error: Error): Option<Actor> {
    if error.routed then error.raiser else None
  }

  function LostActor(part: Part, self: Actor): Option<Actor>
    requires part.Lost?
  {
    if part.local then Some(self) else Raiser(part.error)
  }

  /** What a part says: its answer, or one failure for all its operations. */
  function PartNames(part: Part, write: bool, self: Actor): seq<Named> {
    match part
    case Answered(result) => Names(result)
    case Lost(opIndexes, local, error) =>
      var c := Classify(error, write, local);
      NameStopped(opIndexes, c.outcome, c.code, LostActor(part, self))
  }

  function PartsNames(parts: seq<Part>, write: bool, self: Actor): multiset<Named> {
    if parts == [] then multiset{} else PartsNames(parts[..|parts| - 1], write, self) + multiset(PartNames(parts[|parts| - 1], write, self))
  }

  predicate PartsInRange(parts: seq<Part>) {
    forall i :: 0 <= i < |parts| && parts[i].Answered? ==> InRange(parts[i].result)
  }

  function AddPart(out: Answer, part: Part, write: bool, self: Actor): Answer {
    var offset := |out.partitions|;
    match part
    case Answered(result) =>
      var move := (i: nat) => offset + i;
      Answer(out.found + MoveEntries(result.found, move), out.other + MoveEntries(result.other, move),
             out.failed + MoveFailures(result.failed, move), out.partitions + result.partitions)
    case Lost(opIndexes, local, error) =>
      var entry := LostActor(part, self);
      var failure := FailureOf(Classify(error, write, local), if entry.Some? then Some(offset) else None, opIndexes);
      out.(failed := out.failed + [failure], partitions := if entry.Some? then out.partitions + [entry.value] else out.partitions)
  }

  function Merge(out: Answer, parts: seq<Part>, write: bool, self: Actor): Answer {
    if parts == [] then out else AddPart(Merge(out, parts[..|parts| - 1], write, self), parts[|parts| - 1], write, self)
  }

  /** An answer that is added with moved indexes, in a list that names the same partitions, adds what it said. */
  lemma MovedAnswerAdds(out: Answer, result: Answer, move: nat -> nat, to: seq<Actor>)
    requires InRange(out) && InRange(result) && out.partitions <= to && Moves(move, result.partitions, to)
    ensures var r := Answer(out.found + MoveEntries(result.found, move), out.other + MoveEntries(result.other, move),
                            out.failed + MoveFailures(result.failed, move), to);
            InRange(r) && multiset(Names(r)) == multiset(Names(out)) + multiset(Names(result))
  {
    LongerListKeepsNames(out, to[|out.partitions|..]);
    assert out.partitions + to[|out.partitions|..] == to;
    MoveKeepsEntries(result.found, true, move, result.partitions, to);
    MoveKeepsEntries(result.other, false, move, result.partitions, to);
    MoveKeepsFailures(result.failed, move, result.partitions, to);
    var found, other, failed := MoveEntries(result.found, move), MoveEntries(result.other, move), MoveFailures(result.failed, move);
    var r := Answer(out.found + found, out.other + other, out.failed + failed, to);
    assert InRange(r);
    NamesOfPieces(out, result, r, found, other, failed);
  }

  /** A failure that is added says one thing of each of its operations. */
  lemma FailureAdds(out: Answer, failure: Failure, to: seq<Actor>)
    requires InRange(out) && out.partitions <= to && FailuresInRange([failure], to)
    ensures var r := out.(failed := out.failed + [failure], partitions := to);
            InRange(r) && multiset(Names(r)) == multiset(Names(out)) + multiset(NameFailure(failure, to))
  {
    LongerListKeepsNames(out, to[|out.partitions|..]);
    assert out.partitions + to[|out.partitions|..] == to;
    var r := out.(failed := out.failed + [failure], partitions := to);
    assert [failure][0] == failure;
    assert r.failed[..|out.failed|] == out.failed;
    hide NameEntries, NameFailure;
  }

  lemma AnsweredPartAdds(out: Answer, part: Part, write: bool, self: Actor)
    requires part.Answered? && InRange(out) && InRange(part.result)
    ensures var r := AddPart(out, part, write, self);
            InRange(r) && multiset(Names(r)) == multiset(Names(out)) + multiset(PartNames(part, write, self))
  {
    var offset := |out.partitions|;
    MovedAnswerAdds(out, part.result, (i: nat) => offset + i, out.partitions + part.result.partitions);
    hide Names, MoveEntries, MoveFailures, InRange;
  }

  lemma NamesOfPieces(out: Answer, result: Answer, r: Answer, found: seq<Entry>, other: seq<Entry>, failed: seq<Failure>)
    requires r.found == out.found + found && r.other == out.other + other && r.failed == out.failed + failed
    requires Names(out.(partitions := r.partitions)) == Names(out)
    requires NameEntries(found, true, r.partitions) == NameEntries(result.found, true, result.partitions)
    requires NameEntries(other, false, r.partitions) == NameEntries(result.other, false, result.partitions)
    requires NameFailures(failed, r.partitions) == NameFailures(result.failed, result.partitions)
    ensures multiset(Names(r)) == multiset(Names(out)) + multiset(Names(result))
  {
    var to := r.partitions;
    EntriesOfAppend(out.found, found, true, to);
    EntriesOfAppend(out.other, other, false, to);
    FailuresOfAppend(out.failed, failed, to);
    hide NameEntries, NameFailures;
  }

  lemma LostPartAdds(out: Answer, part: Part, write: bool, self: Actor)
    requires part.Lost? && InRange(out)
    ensures var r := AddPart(out, part, write, self);
            InRange(r) && multiset(Names(r)) == multiset(Names(out)) + multiset(PartNames(part, write, self))
  {
    var r := AddPart(out, part, write, self);
    FailureAdds(out, r.failed[|out.failed|], r.partitions);
    assert NameFailure(r.failed[|out.failed|], r.partitions) == PartNames(part, write, self);
  }

  /** A merge says exactly what its parts say: it loses, repeats and renames nothing. */
  lemma {:induction false} MergeKeepsNames(out: Answer, parts: seq<Part>, write: bool, self: Actor)
    requires InRange(out) && PartsInRange(parts)
    ensures var r := Merge(out, parts, write, self);
            && InRange(r) && multiset(Names(r)) == multiset(Names(out)) + PartsNames(parts, write, self)
            && out.partitions <= r.partitions
  {
    hide Names, AddPart, InRange;
    if parts != [] {
      var front, part := parts[..|parts| - 1], parts[|parts| - 1];
      MergeKeepsNames(out, front, write, self);
      AddPartExtends(Merge(out, front, write, self), part, write, self);
      if part.Answered? {
        AnsweredPartAdds(Merge(out, front, write, self), part, write, self);
      } else {
        LostPartAdds(Merge(out, front, write, self), part, write, self);
      }
    }
  }

  lemma AddPartExtends(out: Answer, part: Part, write: bool, self: Actor)
    ensures out.partitions <= AddPart(out, part, write, self).partitions
  {
  }

  /** The partition that a failure names: this one for the local part, and else the head of the route of the error. */
  predicate NamesItsPartition(n: Named, part: Part, self: Actor)
    requires part.Lost?
  {
    n.kind.Stopped? && n.actor == if part.local then Some(self) else if part.error.routed then part.error.raiser else None
  }

  lemma LostIsNamed(part: Part, write: bool, self: Actor, k: nat)
    requires part.Lost? && k < |part.opIndexes|
    ensures k < |PartNames(part, write, self)|
    ensures PartNames(part, write, self)[k].opIndex == part.opIndexes[k] && NamesItsPartition(PartNames(part, write, self)[k], part, self)
  {
  }

  lemma {:induction false} PartIsInNames(parts: seq<Part>, write: bool, self: Actor, p: nat, n: Named)
    requires p < |parts| && n in PartNames(parts[p], write, self)
    ensures n in PartsNames(parts, write, self)
  {
    hide PartNames;
    if p < |parts| - 1 {
      PartIsInNames(parts[..|parts| - 1], write, self, p, n);
    }
  }

  /** Each operation of a failed part is in the answer, with the partition that failed. */
  lemma LostPartIsInAnswer(parts: seq<Part>, write: bool, self: Actor, out: Answer, r: Answer, p: nat, k: nat)
    requires p < |parts| && parts[p].Lost? && k < |parts[p].opIndexes|
    requires multiset(Names(r)) == multiset(Names(out)) + PartsNames(parts, write, self)
    ensures exists n :: n in Names(r) && n.opIndex == parts[p].opIndexes[k] && NamesItsPartition(n, parts[p], self)
  {
    LostIsNamed(parts[p], write, self, k);
    var n := PartNames(parts[p], write, self)[k];
    PartIsInNames(parts, write, self, p, n);
    hide PartNames, PartsNames, Names, NamesItsPartition;
    assert n in multiset(Names(r));
  }

  /** `mergeBatchParts`. */
  method MergeBatchParts(parts: seq<Part>, write: bool, self: Actor, out: Answer) returns (r: Answer)
    requires InRange(out) && PartsInRange(parts)
    ensures InRange(r) && out.partitions <= r.partitions
    ensures multiset(Names(r)) == multiset(Names(out)) + PartsNames(parts, write, self)
    ensures r == Merge(out, parts, write, self)
    ensures forall p, k :: 0 <= p < |parts| && parts[p].Lost? && 0 <= k < |parts[p].opIndexes| ==>
              exists n :: n in Names(r) && n.opIndex == parts[p].opIndexes[k] && NamesItsPartition(n, parts[p], self)
  {
    r := out;
    for p := 0 to |parts|
      invariant r == Merge(out, parts[..p], write, self)
    {
      var part := parts[p];
      var offset := |r.partitions|;
      assert parts[..p + 1][..p] == parts[..p];
      match part
      case Answered(result) =>
        var move := (i: nat) => offset + i;
        r := r.(found := r.found + MoveEntries(result.found, move), other := r.other + MoveEntries(result.other, move));
        r := r.(failed := r.failed + MoveFailures(result.failed, move));
        r := r.(partitions := r.partitions + result.partitions);
      case Lost(opIndexes, local, error) =>
        var entry := if local then Some(self) else Raiser(error);
        if entry.Some? {
          r := r.(partitions := r.partitions + [entry.value]);
        }
        var failure := FailureOf(Classify(error, write, local), if entry.Some? then Some(offset) else None, opIndexes);
        r := r.(failed := r.failed + [failure]);
    }
    assert parts[..|parts|] == parts;
    MergeKeepsNames(out, parts, write, self);
    forall p, k | 0 <= p < |parts| && parts[p].Lost? && 0 <= k < |parts[p].opIndexes|
      ensures exists n :: n in Names(r) && n.opIndex == parts[p].opIndexes[k] && NamesItsPartition(n, parts[p], self)
    {
      LostPartIsInAnswer(parts, write, self, out, r, p, k);
    }
  }
}
