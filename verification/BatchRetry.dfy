/** The joined partition list of many answers, and the retry loop of the batch helpers. */
module BatchRetry {
  import opened Bytes
  import opened BatchAnswers

  // ─── the joined list ────────────────────────────────────────────────────────

  datatype Meta = Meta(actor: Actor, rowsRead: Option<nat>, rowsWritten: Option<nat>, databaseSize: Option<nat>)

  function Count(c: Option<nat>): nat {
    if c.Some? then c.value else 0
  }

  function JoinCounts(held: Option<nat>, entry: Option<nat>): Option<nat> {
    if held.None? then entry else if entry.None? then held else Some(held.value + entry.value)
  }

  function Joined(held: Meta, entry: Meta): Meta {
    Meta(held.actor, JoinCounts(held.rowsRead, entry.rowsRead), JoinCounts(held.rowsWritten, entry.rowsWritten),
         if entry.databaseSize.Some? then entry.databaseSize else held.databaseSize)
  }

  function Actors(partitions: seq<Meta>): seq<Actor> {
    seq(|partitions|, i requires 0 <= i < |partitions| => partitions[i].actor)
  }

  function RowsRead(partitions: seq<Meta>): nat {
    if partitions == [] then 0 else RowsRead(partitions[..|partitions| - 1]) + Count(partitions[|partitions| - 1].rowsRead)
  }

  function RowsWritten(partitions: seq<Meta>): nat {
    if partitions == [] then 0 else RowsWritten(partitions[..|partitions| - 1]) + Count(partitions[|partitions| - 1].rowsWritten)
  }

  lemma {:induction false} CountsOfUpdate(partitions: seq<Meta>, i: nat, m: Meta)
    requires i < |partitions|
    ensures RowsRead(partitions[i := m]) == RowsRead(partitions) - Count(partitions[i].rowsRead) + Count(m.rowsRead)
    ensures RowsWritten(partitions[i := m]) == RowsWritten(partitions) - Count(partitions[i].rowsWritten) + Count(m.rowsWritten)
  {
    var last := |partitions| - 1;
    if i < last {
      CountsOfUpdate(partitions[..last], i, m);
      assert partitions[i := m][..last] == partitions[..last][i := m];
    } else {
      assert partitions[i := m][..last] == partitions[..last];
    }
  }

  lemma CountsOfAppend(partitions: seq<Meta>, m: Meta)
    ensures RowsRead(partitions + [m]) == RowsRead(partitions) + Count(m.rowsRead)
    ensures RowsWritten(partitions + [m]) == RowsWritten(partitions) + Count(m.rowsWritten)
  {
    assert (partitions + [m])[..|partitions|] == partitions;
  }

  /** Each partition has one entry. */
  predicate OneEntryPerActor(partitions: seq<Meta>) {
    forall i, j :: 0 <= i < j < |partitions| ==> partitions[i].actor != partitions[j].actor
  }

  /** The indexes of the entries of one answer in the joined list. */
  predicate PointAt(indexes: seq<nat>, entries: seq<Meta>, partitions: seq<Meta>) {
    && |indexes| == |entries|
    && forall i :: 0 <= i < |indexes| ==> indexes[i] < |partitions| && partitions[indexes[i]].actor == entries[i].actor
  }

  lemma Grows(before: seq<Meta>, after: seq<Meta>)
    requires Actors(before) <= Actors(after)
    ensures |before| <= |after| && forall i :: 0 <= i < |before| ==> before[i].actor == after[i].actor
  {
    assert |Actors(before)| == |before| && |Actors(after)| == |after|;
    forall i | 0 <= i < |before| ensures before[i].actor == after[i].actor {
      assert Actors(before)[i] == Actors(after)[i];
    }
  }

  lemma NoneAdded(partitions: seq<Meta>)
    ensures PointAt([], [], partitions) && RowsRead([]) == 0 && RowsWritten([]) == 0
  {
  }

  lemma OneAdded(indexes: seq<nat>, entries: seq<Meta>, before: seq<Meta>, index: nat, entry: Meta, after: seq<Meta>)
    requires PointAt(indexes, entries, before) && Actors(before) <= Actors(after)
    requires index < |after| && after[index].actor == entry.actor
    ensures PointAt(indexes + [index], entries + [entry], after)
  {
    Grows(before, after);
  }

  /** `PartitionMetaJoin`: one entry for each actor, at the index that it first had. */
  class PartitionMetaJoin {
    var partitions: seq<Meta>
    var indexOf: map<Actor, nat>

    ghost predicate Valid()
      reads this
    {
      && (forall a :: a in indexOf ==> indexOf[a] < |partitions| && partitions[indexOf[a]].actor == a)
      && (forall i :: 0 <= i < |partitions| ==> partitions[i].actor in indexOf && indexOf[partitions[i].actor] == i)
    }

    constructor ()
      ensures Valid() && partitions == []
    {
      partitions := [];
      indexOf := map[];
    }

    /** No entry moves, and the counts of the joined list grow by the counts of the entry. */
    method Add(entry: Meta) returns (index: nat)
      requires Valid()
      modifies this
      ensures Valid() && index < |partitions| && partitions[index].actor == entry.actor
      ensures Actors(old(partitions)) <= Actors(partitions)
      ensures partitions == if entry.actor in Actors(old(partitions)) then old(partitions)[index := Joined(old(partitions)[index], entry)] else old(partitions) + [entry]
      ensures RowsRead(partitions) == RowsRead(old(partitions)) + Count(entry.rowsRead)
      ensures RowsWritten(partitions) == RowsWritten(old(partitions)) + Count(entry.rowsWritten)
      ensures entry.databaseSize.Some? ==> partitions[index].databaseSize == entry.databaseSize
      ensures entry.databaseSize.None? && index < |old(partitions)| ==> partitions[index].databaseSize == old(partitions)[index].databaseSize
      ensures entry.rowsRead.Some? ==> partitions[index].rowsRead.Some?
      ensures entry.rowsWritten.Some? ==> partitions[index].rowsWritten.Some?
    {
      if entry.actor !in indexOf {
        assert entry.actor !in Actors(partitions);
        index := |partitions|;
        indexOf := indexOf[entry.actor := index];
        partitions := partitions + [entry];
        assert partitions[..index] == old(partitions);
        return;
      }
      index := indexOf[entry.actor];
      assert Actors(partitions)[index] == entry.actor;
      var joined := Joined(partitions[index], entry);
      CountsOfUpdate(partitions, index, joined);
      partitions := partitions[index := joined];
    }

    /** The indexes of the entries of one answer. */
    method AddAll(entries: seq<Meta>) returns (indexes: seq<nat>)
      requires Valid()
      modifies this
      ensures Valid() && |indexes| == |entries|
      ensures Actors(old(partitions)) <= Actors(partitions)
      ensures PointAt(indexes, entries, partitions)
      ensures RowsRead(partitions) == RowsRead(old(partitions)) + RowsRead(entries)
      ensures RowsWritten(partitions) == RowsWritten(old(partitions)) + RowsWritten(entries)
    {
      hide Actors, RowsRead, RowsWritten, Count, Joined, PointAt;
      indexes := [];
      NoneAdded(partitions);
      for e := 0 to |entries|
        invariant Valid() && |indexes| == e && Actors(old(partitions)) <= Actors(partitions)
        invariant PointAt(indexes, entries[..e], partitions)
        invariant RowsRead(partitions) == RowsRead(old(partitions)) + RowsRead(entries[..e])
        invariant RowsWritten(partitions) == RowsWritten(old(partitions)) + RowsWritten(entries[..e])
      {
        ghost var before := partitions;
        var index := Add(entries[e]);
        OneAdded(indexes, entries[..e], before, index, entries[e], partitions);
        CountsOfAppend(entries[..e], entries[e]);
        assert entries[..e + 1] == entries[..e] + [entries[e]];
        indexes := indexes + [index];
      }
      assert entries[..|entries|] == entries;
    }
  }

  // ─── the calls of a retry loop ──────────────────────────────────────────────

  datatype ItemOutcome = Done | NotApplied | NotProcessed | MayBeApplied

  /** `payload` is what a result carries: the item, or the reason why there is none. */
  datatype Result = Result(outcome: ItemOutcome, payload: Kind, partitionIndex: Option<nat>)

  datatype Reply = Reply(results: seq<Result>, partitions: seq<Meta>, forwardCount: nat)

  /** A batch call answers each of its items, and each index is inside its list. */
  predicate Answers(reply: Reply, n: nat) {
    && |reply.results| == n
    && forall j :: 0 <= j < n && reply.results[j].partitionIndex.Some? ==> reply.results[j].partitionIndex.value < |reply.partitions|
  }

  /** A result with the partition that it names. */
  datatype ItemAnswer = ItemAnswer(outcome: ItemOutcome, payload: Kind, actor: Option<Actor>)

  function Named(r: Result, actors: seq<Actor>): ItemAnswer {
    ItemAnswer(r.outcome, r.payload, ActorAt(actors, r.partitionIndex))
  }

  type Item = nat

  function Select(entries: seq<Item>, positions: seq<nat>): seq<Item>
    requires forall j :: 0 <= j < |positions| ==> positions[j] < |entries|
  {
    seq(|positions|, j requires 0 <= j < |positions| => entries[positions[j]])
  }

  /** The positions whose result says to send again. */
  function Again(positions: seq<nat>, results: seq<Result>, again: ItemOutcome -> bool): (next: seq<nat>)
    requires |positions| == |results|
    ensures forall j :: 0 <= j < |next| ==> next[j] in positions
  {
    if positions == [] then []
    else
      var n := |positions| - 1;
      Again(positions[..n], results[..n], again) + (if again(results[n].outcome) then [positions[n]] else [])
  }

  predicate Ascends(positions: seq<nat>) {
    forall i, j :: 0 <= i < j < |positions| ==> positions[i] < positions[j]
  }

  lemma AgainOfOneMore(positions: seq<nat>, results: seq<Result>, again: ItemOutcome -> bool)
    requires |positions| == |results| && positions != []
    ensures var n := |positions| - 1;
            Again(positions, results, again) == Again(positions[..n], results[..n], again) + (if again(results[n].outcome) then [positions[n]] else [])
  {
  }

  lemma {:induction false} AgainAscends(positions: seq<nat>, results: seq<Result>, again: ItemOutcome -> bool)
    requires |positions| == |results| && Ascends(positions)
    ensures Ascends(Again(positions, results, again))
    ensures forall j :: 0 <= j < |positions| ==> (positions[j] in Again(positions, results, again) <==> again(results[j].outcome))
  {
    if positions != [] {
      var n := |positions| - 1;
      AgainAscends(positions[..n], results[..n], again);
      AgainOfOneMore(positions, results, again);
      hide Again;
      var front := Again(positions[..n], results[..n], again);
      forall i | 0 <= i < |front| ensures front[i] < positions[n] {
        assert front[i] in positions[..n];
      }
      forall j | 0 <= j < n ensures positions[j] in Again(positions, results, again) <==> again(results[j].outcome) {
        assert positions[..n][j] == positions[j] && positions[j] < positions[n];
      }
      assert positions[n] !in front;
    }
  }

  /**
   * A retry loop: its items, what call `k` answers for any items, the outcomes that it sends again, and
   * when it keeps an earlier result. A call can answer anything, and differently each time.
   */
  datatype Loop = Loop(entries: seq<Item>, call: (nat, seq<Item>) -> Reply, again: ItemOutcome -> bool, keep: (ItemOutcome, ItemOutcome) -> bool)

  ghost predicate CallsAnswer(l: Loop) {
    forall k: nat, items: seq<Item> :: Answers(l.call(k, items), |items|)
  }

  /** The positions of the items of call `k`. */
  ghost function PositionsAt(l: Loop, k: nat): (positions: seq<nat>)
    requires CallsAnswer(l)
    ensures forall j :: 0 <= j < |positions| ==> positions[j] < |l.entries|
    decreases k, 0
  {
    if k == 0 then seq(|l.entries|, i requires 0 <= i < |l.entries| => i)
    else Again(PositionsAt(l, k - 1), ReplyAt(l, k - 1).results, l.again)
  }

  ghost function ReplyAt(l: Loop, k: nat): (reply: Reply)
    requires CallsAnswer(l)
    ensures Answers(reply, |PositionsAt(l, k)|)
    decreases k, 1
  {
    l.call(k, Select(l.entries, PositionsAt(l, k)))
  }

  lemma FirstPositions(l: Loop)
    requires CallsAnswer(l)
    ensures PositionsAt(l, 0) == seq(|l.entries|, i requires 0 <= i < |l.entries| => i)
  {
  }

  lemma NextPositions(l: Loop, k: nat)
    requires CallsAnswer(l)
    ensures PositionsAt(l, k + 1) == Again(PositionsAt(l, k), ReplyAt(l, k).results, l.again)
  {
    hide CallsAnswer, Again;
  }

  lemma {:induction false} PositionsAscend(l: Loop, k: nat)
    requires CallsAnswer(l)
    ensures Ascends(PositionsAt(l, k))
  {
    hide CallsAnswer, PositionsAt, ReplyAt, Again;
    FirstPositions(l);
    if k > 0 {
      NextPositions(l, k - 1);
      PositionsAscend(l, k - 1);
      AgainAscends(PositionsAt(l, k - 1), ReplyAt(l, k - 1).results, l.again);
    }
  }

  /** What call `k` answered for the item at position `i`, if it sent that item. */
  ghost function AnswerAt(l: Loop, k: nat, i: nat): Option<ItemAnswer>
    requires CallsAnswer(l)
  {
    var positions, reply := PositionsAt(l, k), ReplyAt(l, k);
    if i in positions then
      var j :| 0 <= j < |positions| && positions[j] == i;
      Some(Named(reply.results[j], Actors(reply.partitions)))
    else None
  }

  lemma AnswerIs(l: Loop, k: nat, j: nat)
    requires CallsAnswer(l) && j < |PositionsAt(l, k)|
    ensures AnswerAt(l, k, PositionsAt(l, k)[j]) == Some(Named(ReplyAt(l, k).results[j], Actors(ReplyAt(l, k).partitions)))
  {
    hide CallsAnswer, PositionsAt, ReplyAt;
    PositionsAscend(l, k);
  }

  function Combine(l: Loop, earlier: Option<ItemAnswer>, later: Option<ItemAnswer>): Option<ItemAnswer> {
    if later.None? || (earlier.Some? && l.keep(earlier.value.outcome, later.value.outcome)) then earlier else later
  }

  /** The result of the item at position `i` after `n` calls: the answers it got, combined in order. */
  ghost function ResultAfter(l: Loop, n: nat, i: nat): Option<ItemAnswer>
    requires CallsAnswer(l)
  {
    if n == 0 then None else Combine(l, ResultAfter(l, n - 1, i), AnswerAt(l, n - 1, i))
  }

  /** An item is sent again only while each answer it got says so. */
  lemma {:induction false} SentWhileAgain(l: Loop, i: nat, k: nat, later: nat)
    requires CallsAnswer(l) && k < later && i in PositionsAt(l, later)
    ensures AnswerAt(l, k, i).Some? && l.again(AnswerAt(l, k, i).value.outcome)
    decreases later
  {
    hide CallsAnswer, PositionsAt, ReplyAt, AnswerAt, Again;
    var positions, reply := PositionsAt(l, later - 1), ReplyAt(l, later - 1);
    NextPositions(l, later - 1);
    assert i in positions;
    if k == later - 1 {
      PositionsAscend(l, k);
      AgainAscends(positions, reply.results, l.again);
      var j :| 0 <= j < |positions| && positions[j] == i;
      AnswerIs(l, k, j);
    } else {
      SentWhileAgain(l, i, k, later - 1);
    }
  }

  // ─── the retry loop ─────────────────────────────────────────────────────────

  function Still(entries: seq<Item>, results: seq<Result>, again: ItemOutcome -> bool): seq<Item>
    requires |entries| == |results|
  {
    if |entries| == 0 then []
    else
      var n := |entries| - 1;
      Still(entries[..n], results[..n], again) + (if again(results[n].outcome) then [entries[n]] else [])
  }

  /** What the first `n` calls report: their forwards, and the rows that they read and wrote. */
  datatype Sums = Sums(forwards: nat, read: nat, written: nat)

  ghost function SumsOf(l: Loop, n: nat): Sums
    requires CallsAnswer(l)
  {
    if n == 0 then Sums(0, 0, 0)
    else
      var before, reply := SumsOf(l, n - 1), ReplyAt(l, n - 1);
      Sums(before.forwards + reply.forwardCount, before.read + RowsRead(reply.partitions), before.written + RowsWritten(reply.partitions))
  }

  lemma SumsOfOneMore(l: Loop, n: nat)
    requires CallsAnswer(l)
    ensures SumsOf(l, 0) == Sums(0, 0, 0)
    ensures SumsOf(l, n + 1) == Sums(SumsOf(l, n).forwards + ReplyAt(l, n).forwardCount, SumsOf(l, n).read + RowsRead(ReplyAt(l, n).partitions),
                                     SumsOf(l, n).written + RowsWritten(ReplyAt(l, n).partitions))
  {
    hide CallsAnswer, ReplyAt;
  }

  function NamedOption(r: Option<Result>, actors: seq<Actor>): Option<ItemAnswer> {
    if r.None? then None else Some(Named(r.value, actors))
  }

  predicate ResultInRange(r: Option<Result>, actors: seq<Actor>) {
    r.Some? && r.value.partitionIndex.Some? ==> r.value.partitionIndex.value < |actors|
  }

  /** The results after `n` calls, and the first `done` answers of the next one. */
  ghost predicate ResultsAre(l: Loop, n: nat, done: nat, results: seq<Option<Result>>, actors: seq<Actor>)
    requires CallsAnswer(l) && done <= |PositionsAt(l, n)|
  {
    && |results| == |l.entries|
    && forall i :: 0 <= i < |results| ==>
      ResultInRange(results[i], actors)
      && NamedOption(results[i], actors) == if i in PositionsAt(l, n)[..done] then ResultAfter(l, n + 1, i) else ResultAfter(l, n, i)
  }

  lemma ResultsOfLongerList(l: Loop, n: nat, results: seq<Option<Result>>, actors: seq<Actor>, longer: seq<Actor>)
    requires CallsAnswer(l) && ResultsAre(l, n, 0, results, actors) && actors <= longer
    ensures ResultsAre(l, n, 0, results, longer)
  {
    hide CallsAnswer, PositionsAt, ResultAfter;
    forall i | 0 <= i < |results| ensures NamedOption(results[i], longer) == NamedOption(results[i], actors) {
    }
  }

  lemma NotSentNotChanged(l: Loop, n: nat, i: nat)
    requires CallsAnswer(l)
    ensures i !in PositionsAt(l, n) ==> ResultAfter(l, n + 1, i) == ResultAfter(l, n, i)
  {
    hide CallsAnswer, PositionsAt, ReplyAt;
  }

  lemma ResultsOfWholeCall(l: Loop, n: nat, results: seq<Option<Result>>, actors: seq<Actor>)
    requires CallsAnswer(l) && ResultsAre(l, n, |PositionsAt(l, n)|, results, actors)
    ensures ResultsAre(l, n + 1, 0, results, actors)
  {
    hide CallsAnswer, PositionsAt, ResultAfter;
    var positions := PositionsAt(l, n);
    assert positions[..|positions|] == positions;
    forall i | 0 <= i < |results| ensures NamedOption(results[i], actors) == ResultAfter(l, n + 1, i) {
      NotSentNotChanged(l, n, i);
    }
    assert PositionsAt(l, n + 1)[..0] == [];
  }

  lemma ResultOfOneMore(l: Loop, n: nat, i: nat)
    requires CallsAnswer(l)
    ensures ResultAfter(l, n + 1, i) == Combine(l, ResultAfter(l, n, i), AnswerAt(l, n, i))
  {
    hide CallsAnswer, AnswerAt;
  }

  lemma ResultsOfOneAnswer(l: Loop, n: nat, j: nat, results: seq<Option<Result>>, actors: seq<Actor>, moved: Result, results': seq<Option<Result>>)
    requires CallsAnswer(l) && j < |PositionsAt(l, n)| && ResultsAre(l, n, j, results, actors)
    requires ResultInRange(Some(moved), actors) && Some(Named(moved, actors)) == AnswerAt(l, n, PositionsAt(l, n)[j])
    requires var p := PositionsAt(l, n)[j];
             results' == results[p := if results[p].Some? && l.keep(results[p].value.outcome, moved.outcome) then results[p] else Some(moved)]
    ensures ResultsAre(l, n, j + 1, results', actors)
  {
    hide CallsAnswer, PositionsAt, ResultAfter, AnswerAt;
    PositionsAscend(l, n);
    var positions := PositionsAt(l, n);
    var p := positions[j];
    ResultOfOneMore(l, n, p);
    assert positions[..j + 1] == positions[..j] + [p];
    assert p !in positions[..j];
    forall i | 0 <= i < |results'|
      ensures ResultInRange(results'[i], actors)
      ensures NamedOption(results'[i], actors) == if i in positions[..j + 1] then ResultAfter(l, n + 1, i) else ResultAfter(l, n, i)
    {
      assert i == p || results'[i] == results[i];
    }
  }

  /** `retryBatch`. `calls` is the count of the calls that it made. */
  method RetryBatch(l: Loop, maxAttempts: nat)
    returns (results: seq<Result>, unprocessed: seq<Item>, partitions: seq<Meta>, forwardCount: nat, ghost calls: nat)
    requires CallsAnswer(l) && maxAttempts > 0
    ensures 1 <= calls <= maxAttempts && (calls == maxAttempts || PositionsAt(l, calls) == [])
    ensures forall k {:trigger PositionsAt(l, k)} :: 0 < k < calls ==> PositionsAt(l, k) != []
    ensures |results| == |l.entries|
    ensures forall i :: 0 <= i < |results| ==> Some(Named(results[i], Actors(partitions))) == ResultAfter(l, calls, i)
    ensures forall i :: 0 <= i < |results| && results[i].partitionIndex.Some? ==> results[i].partitionIndex.value < |partitions|
    ensures unprocessed == Still(l.entries, results, l.again)
    ensures OneEntryPerActor(partitions) && SumsOf(l, calls) == Sums(forwardCount, RowsRead(partitions), RowsWritten(partitions))
  {
    hide CallsAnswer, PositionsAt, ResultAfter, AnswerAt, Again, ResultsAre, Still, SumsOf, RowsRead, RowsWritten;
    var join := new PartitionMetaJoin();
    var held: seq<Option<Result>> := seq(|l.entries|, _ => None);
    var positions := seq(|l.entries|, i requires 0 <= i < |l.entries| => i);
    var made := 0;
    FirstPositions(l);
    NothingHeld(l, held);
    assert Actors(join.partitions) == [];
    NoneAdded([]);
    SumsOfOneMore(l, 0);
    forwardCount := 0;
    while true
      invariant made < maxAttempts && join.Valid() && fresh(join)
      invariant forall k {:trigger PositionsAt(l, k)} :: 0 < k <= made ==> PositionsAt(l, k) != []
      invariant positions == PositionsAt(l, made)
      invariant |held| == |l.entries| && ResultsAre(l, made, 0, held, Actors(join.partitions))
      invariant SumsOf(l, made) == Sums(forwardCount, RowsRead(join.partitions), RowsWritten(join.partitions))
      decreases maxAttempts - made
    {
      var answer := l.call(made, Select(l.entries, positions));
      assert answer == ReplyAt(l, made);
      assert Answers(answer, |positions|);
      SumsOfOneMore(l, made);
      forwardCount := forwardCount + answer.forwardCount;
      ghost var before := Actors(join.partitions);
      var indexes := join.AddAll(answer.partitions);
      ghost var actors := Actors(join.partitions);
      ResultsOfLongerList(l, made, held, before, actors);
      for j := 0 to |positions|
        invariant join.Valid() && Actors(join.partitions) == actors
        invariant SumsOf(l, made + 1) == Sums(forwardCount, RowsRead(join.partitions), RowsWritten(join.partitions))
        invariant |held| == |l.entries| && ResultsAre(l, made, j, held, actors)
      {
        var result, p := answer.results[j], positions[j];
        var moved := if result.partitionIndex.None? then result else result.(partitionIndex := Some(indexes[result.partitionIndex.value]));
        AnswerIs(l, made, j);
        ghost var was := held;
        held := held[p := if held[p].Some? && l.keep(held[p].value.outcome, moved.outcome) then held[p] else Some(moved)];
        ResultsOfOneAnswer(l, made, j, was, actors, moved, held);
      }
      ResultsOfWholeCall(l, made, held, actors);
      NextPositions(l, made);
      positions := Again(positions, answer.results, l.again);
      made := made + 1;
      if positions == [] || made >= maxAttempts {
        break;
      }
    }
    calls := made;
    partitions := join.partitions;
    AllAnswered(l, made);
    FinalResults(l, made, held, Actors(partitions));
    results := seq(|held|, i requires 0 <= i < |held| => held[i].value);
    unprocessed := Still(l.entries, results, l.again);
  }

  lemma NothingHeld(l: Loop, held: seq<Option<Result>>)
    requires CallsAnswer(l) && |held| == |l.entries| && forall i :: 0 <= i < |held| ==> held[i].None?
    ensures ResultsAre(l, 0, 0, held, [])
  {
    hide CallsAnswer, PositionsAt;
  }

  lemma FinalResults(l: Loop, n: nat, held: seq<Option<Result>>, actors: seq<Actor>)
    requires CallsAnswer(l) && ResultsAre(l, n, 0, held, actors)
    requires forall i :: 0 <= i < |l.entries| ==> ResultAfter(l, n, i).Some?
    ensures |held| == |l.entries|
    ensures forall i :: 0 <= i < |held| ==> held[i].Some? && ResultInRange(held[i], actors) && Some(Named(held[i].value, actors)) == ResultAfter(l, n, i)
  {
    hide CallsAnswer, PositionsAt, ResultAfter;
    forall i | 0 <= i < |held|
      ensures held[i].Some? && ResultInRange(held[i], actors) && Some(Named(held[i].value, actors)) == ResultAfter(l, n, i)
    {
      assert NamedOption(held[i], actors) == ResultAfter(l, n, i);
    }
  }

  lemma {:induction false} AllAnswered(l: Loop, n: nat)
    requires CallsAnswer(l) && n > 0
    ensures forall i :: 0 <= i < |l.entries| ==> ResultAfter(l, n, i).Some?
  {
    hide CallsAnswer, PositionsAt, ReplyAt, AnswerAt;
    if n > 1 {
      AllAnswered(l, n - 1);
    } else {
      forall i | 0 <= i < |l.entries| ensures ResultAfter(l, n, i).Some? {
        FirstPositions(l);
        assert PositionsAt(l, 0)[i] == i;
        AnswerIs(l, 0, i);
      }
    }
  }

  // ─── the two policies ───────────────────────────────────────────────────────

  /** `batchGetItemsWithRetry` sends the unprocessed keys again, and keeps the last answer. */
  function ReadLoop(entries: seq<Item>, call: (nat, seq<Item>) -> Reply): Loop {
    Loop(entries, call, o => o == NotProcessed, (_, _) => false)
  }

  /** `batchWriteItemsWithRetry` also sends unknown operations again, and keeps unknown until the operation is applied. */
  function WriteLoop(entries: seq<Item>, call: (nat, seq<Item>) -> Reply): Loop {
    Loop(entries, call, o => o == NotProcessed || o == MayBeApplied, (earlier, later) => earlier == MayBeApplied && later != Done)
  }

  ghost predicate Got(l: Loop, n: nat, i: nat, outcome: ItemOutcome)
    requires CallsAnswer(l)
  {
    exists k: nat :: k < n && AnswerAt(l, k, i).Some? && AnswerAt(l, k, i).value.outcome == outcome
  }

  /** A read ends with its last answer. */
  lemma {:induction false} ReadKeepsLastAnswer(entries: seq<Item>, call: (nat, seq<Item>) -> Reply, n: nat, i: nat, k: nat)
    requires var l := ReadLoop(entries, call); CallsAnswer(l) && k < n && i in PositionsAt(l, k) && forall m: nat :: k < m < n ==> i !in PositionsAt(l, m)
    ensures ResultAfter(ReadLoop(entries, call), n, i) == AnswerAt(ReadLoop(entries, call), k, i)
  {
    var l := ReadLoop(entries, call);
    hide CallsAnswer, PositionsAt, ReplyAt;
    ResultOfOneMore(l, n - 1, i);
    if n - 1 > k {
      ReadKeepsLastAnswer(entries, call, n - 1, i, k);
      NotSentNotChanged(l, n - 1, i);
    } else {
      var j :| 0 <= j < |PositionsAt(l, k)| && PositionsAt(l, k)[j] == i;
      AnswerIs(l, k, j);
    }
  }

  /**
   * A write ends `ok` exactly when one of its calls applied it, and `unknown` exactly when a call can have
   * applied it and none answered that it did. So a write that ever got `unknown` ends `ok` or `unknown`.
   */
  lemma {:induction false} WriteEndsAsApplied(entries: seq<Item>, call: (nat, seq<Item>) -> Reply, n: nat, i: nat)
    requires CallsAnswer(WriteLoop(entries, call)) && n > 0 && i < |entries|
    ensures var l := WriteLoop(entries, call); var r := ResultAfter(l, n, i);
            && r.Some?
            && (r.value.outcome == Done <==> Got(l, n, i, Done))
            && (r.value.outcome == MayBeApplied <==> Got(l, n, i, MayBeApplied) && !Got(l, n, i, Done))
  {
    var l := WriteLoop(entries, call);
    hide CallsAnswer, AnswerAt, ResultAfter, Got, WriteLoop;
    WritePolicy(entries, call);
    AllAnswered(l, n);
    ResultOfOneMore(l, n - 1, i);
    var last := AnswerAt(l, n - 1, i);
    if n > 1 {
      AllAnswered(l, n - 1);
      WriteEndsAsApplied(entries, call, n - 1, i);
      if last.Some? {
        NotDoneBefore(l, n - 1, i);
      }
    }
    NoneYet(l, i, Done);
    NoneYet(l, i, MayBeApplied);
    GotOneMore(l, n, i, Done);
    GotOneMore(l, n, i, MayBeApplied);
  }

  lemma WritePolicy(entries: seq<Item>, call: (nat, seq<Item>) -> Reply)
    ensures var l := WriteLoop(entries, call);
            && l.entries == entries && (forall o :: l.again(o) <==> o == NotProcessed || o == MayBeApplied)
            && forall earlier, later :: l.keep(earlier, later) <==> earlier == MayBeApplied && later != Done
  {
  }

  lemma NoneYet(l: Loop, i: nat, outcome: ItemOutcome)
    requires CallsAnswer(l)
    ensures !Got(l, 0, i, outcome) && ResultAfter(l, 0, i).None?
  {
    hide CallsAnswer, AnswerAt;
  }

  lemma GotOneMore(l: Loop, n: nat, i: nat, outcome: ItemOutcome)
    requires CallsAnswer(l) && n > 0
    ensures Got(l, n, i, outcome) <==> Got(l, n - 1, i, outcome) || (AnswerAt(l, n - 1, i).Some? && AnswerAt(l, n - 1, i).value.outcome == outcome)
  {
    hide CallsAnswer, AnswerAt;
  }

  /** An item that is sent again was not applied, and was not refused, by an earlier call. */
  lemma NotDoneBefore(l: Loop, n: nat, i: nat)
    requires CallsAnswer(l) && !l.again(Done) && AnswerAt(l, n, i).Some?
    ensures !Got(l, n, i, Done)
  {
    WasSent(l, n, i);
    hide CallsAnswer, AnswerAt;
    forall k: nat | k < n ensures AnswerAt(l, k, i).Some? ==> AnswerAt(l, k, i).value.outcome != Done {
      SentWhileAgain(l, i, k, n);
    }
  }

  lemma WasSent(l: Loop, n: nat, i: nat)
    requires CallsAnswer(l) && AnswerAt(l, n, i).Some?
    ensures i in PositionsAt(l, n)
  {
    hide CallsAnswer, PositionsAt, ReplyAt;
  }

  /** A rejected or applied operation is never sent again. */
  lemma SettledIsNotSentAgain(l: Loop, i: nat, k: nat, later: nat)
    requires CallsAnswer(l) && k < later && AnswerAt(l, k, i).Some? && !l.again(AnswerAt(l, k, i).value.outcome)
    ensures i !in PositionsAt(l, later)
  {
    hide CallsAnswer, AnswerAt, PositionsAt;
    if i in PositionsAt(l, later) {
      SentWhileAgain(l, i, k, later);
    }
  }

  // ─── what is sent again ─────────────────────────────────────────────────────

  /** An item is in the next call exactly when this call sent it and its answer says to send it again. */
  lemma SentInNextCall(l: Loop, k: nat, i: nat)
    requires CallsAnswer(l)
    ensures i in PositionsAt(l, k + 1) <==> AnswerAt(l, k, i).Some? && l.again(AnswerAt(l, k, i).value.outcome)
  {
    hide CallsAnswer, PositionsAt, ReplyAt, AnswerAt, Again;
    var positions, reply := PositionsAt(l, k), ReplyAt(l, k);
    NextPositions(l, k);
    PositionsAscend(l, k);
    AgainAscends(positions, reply.results, l.again);
    if AnswerAt(l, k, i).Some? {
      WasSent(l, k, i);
    }
    if i in positions {
      var j :| 0 <= j < |positions| && positions[j] == i;
      AnswerIs(l, k, j);
    }
  }

  /** A read sends exactly the keys that its last answer left unprocessed. */
  lemma ReadSendsUnprocessed(entries: seq<Item>, call: (nat, seq<Item>) -> Reply, k: nat, i: nat)
    requires CallsAnswer(ReadLoop(entries, call))
    ensures var l := ReadLoop(entries, call);
            i in PositionsAt(l, k + 1) <==> AnswerAt(l, k, i).Some? && AnswerAt(l, k, i).value.outcome == NotProcessed
  {
    SentInNextCall(ReadLoop(entries, call), k, i);
    hide CallsAnswer, PositionsAt, AnswerAt;
  }

  /** A write sends exactly the operations that its last answer left unprocessed or unknown. */
  lemma WriteSendsUnsettled(entries: seq<Item>, call: (nat, seq<Item>) -> Reply, k: nat, i: nat)
    requires CallsAnswer(WriteLoop(entries, call))
    ensures var l := WriteLoop(entries, call);
            i in PositionsAt(l, k + 1)
            <==> AnswerAt(l, k, i).Some? && (AnswerAt(l, k, i).value.outcome == NotProcessed || AnswerAt(l, k, i).value.outcome == MayBeApplied)
  {
    SentInNextCall(WriteLoop(entries, call), k, i);
    hide CallsAnswer, PositionsAt, AnswerAt;
  }

  /** The result of an item is the answer of one of its calls. */
  lemma {:induction false} ResultIsAnAnswer(l: Loop, n: nat, i: nat) returns (k: nat, j: nat)
    requires CallsAnswer(l) && n > 0 && i < |l.entries|
    ensures k < n && j < |PositionsAt(l, k)| && PositionsAt(l, k)[j] == i && ResultAfter(l, n, i) == AnswerAt(l, k, i)
  {
    hide CallsAnswer, PositionsAt, ReplyAt, AnswerAt;
    ResultOfOneMore(l, n - 1, i);
    if n == 1 || ResultAfter(l, n, i) != ResultAfter(l, n - 1, i) {
      AllAnswered(l, n);
      WasSent(l, n - 1, i);
      k := n - 1;
      j :| 0 <= j < |PositionsAt(l, k)| && PositionsAt(l, k)[j] == i;
    } else {
      k, j := ResultIsAnAnswer(l, n - 1, i);
    }
  }

  /** An item that is in no next call got an answer that says so. */
  lemma {:induction false} LastAnswerSettles(l: Loop, n: nat, i: nat) returns (k: nat)
    requires CallsAnswer(l) && n > 0 && i < |l.entries| && i !in PositionsAt(l, n)
    ensures k < n && AnswerAt(l, k, i).Some? && !l.again(AnswerAt(l, k, i).value.outcome)
    ensures forall m: nat {:trigger PositionsAt(l, m)} :: k < m < n ==> i !in PositionsAt(l, m)
  {
    hide CallsAnswer, PositionsAt, AnswerAt, ReplyAt;
    SentInNextCall(l, n - 1, i);
    if i in PositionsAt(l, n - 1) {
      k := n - 1;
      var j :| 0 <= j < |PositionsAt(l, k)| && PositionsAt(l, k)[j] == i;
      AnswerIs(l, k, j);
    } else {
      FirstPositions(l);
      assert PositionsAt(l, 0)[i] == i;
      k := LastAnswerSettles(l, n - 1, i);
    }
  }

  // ─── the two helpers ────────────────────────────────────────────────────────

  /** The entries whose result has one of the outcomes, in order. */
  function EntriesWith(entries: seq<Item>, results: seq<Result>, outcomes: set<ItemOutcome>): seq<Item>
    requires |entries| == |results|
  {
    if |entries| == 0 then []
    else
      var n := |entries| - 1;
      EntriesWith(entries[..n], results[..n], outcomes) + (if results[n].outcome in outcomes then [entries[n]] else [])
  }

  lemma {:induction false} StillIsEntriesWith(entries: seq<Item>, results: seq<Result>, again: ItemOutcome -> bool, outcomes: set<ItemOutcome>)
    requires |entries| == |results| && forall o :: again(o) <==> o in outcomes
    ensures Still(entries, results, again) == EntriesWith(entries, results, outcomes)
  {
    if |entries| > 0 {
      StillIsEntriesWith(entries[..|entries| - 1], results[..|entries| - 1], again, outcomes);
    }
  }

  lemma ReadPolicy(entries: seq<Item>, call: (nat, seq<Item>) -> Reply)
    ensures var l := ReadLoop(entries, call);
            && l.entries == entries && l.call == call && (forall o :: l.again(o) <==> o in {NotProcessed}) && forall earlier, later :: !l.keep(earlier, later)
  {
  }

  /** A read that was not sent in the next call has a last answer other than unprocessed, and it keeps it. */
  lemma ReadIsSettled(entries: seq<Item>, call: (nat, seq<Item>) -> Reply, n: nat, i: nat)
    requires CallsAnswer(ReadLoop(entries, call)) && n > 0 && i < |entries| && i !in PositionsAt(ReadLoop(entries, call), n)
    ensures var l := ReadLoop(entries, call); ResultAfter(l, n, i).Some? && ResultAfter(l, n, i).value.outcome != NotProcessed
  {
    var l := ReadLoop(entries, call);
    ReadPolicy(entries, call);
    hide CallsAnswer, PositionsAt, AnswerAt, ResultAfter, ReadLoop;
    var k := LastAnswerSettles(l, n, i);
    WasSent(l, k, i);
    ReadKeepsLastAnswer(entries, call, n, i, k);
  }

  /** A write that was not sent in the next call is not unprocessed. It is unknown only where its last answer was a refusal. */
  lemma WriteIsSettled(entries: seq<Item>, call: (nat, seq<Item>) -> Reply, n: nat, i: nat)
    requires CallsAnswer(WriteLoop(entries, call)) && n > 0 && i < |entries| && i !in PositionsAt(WriteLoop(entries, call), n)
    ensures var l := WriteLoop(entries, call);
            && ResultAfter(l, n, i).Some? && ResultAfter(l, n, i).value.outcome != NotProcessed
            && (ResultAfter(l, n, i).value.outcome == MayBeApplied ==>
                  exists k: nat :: k < n && AnswerAt(l, k, i).Some? && AnswerAt(l, k, i).value.outcome == NotApplied)
  {
    var l := WriteLoop(entries, call);
    WritePolicy(entries, call);
    hide CallsAnswer, PositionsAt, AnswerAt, ResultAfter, WriteLoop, Got;
    var k := LastAnswerSettles(l, n, i);
    WriteEndsAsApplied(entries, call, n, i);
    GotHere(l, n, i, k);
    LaterCallsKeep(l, k + 1, n, i);
    ResultOfOneMore(l, k, i);
  }

  lemma GotHere(l: Loop, n: nat, i: nat, k: nat)
    requires CallsAnswer(l) && k < n && AnswerAt(l, k, i).Some?
    ensures Got(l, n, i, AnswerAt(l, k, i).value.outcome)
  {
    hide CallsAnswer, AnswerAt;
  }

  /** Calls that do not send an item do not change its result. */
  lemma {:induction false} LaterCallsKeep(l: Loop, from: nat, n: nat, i: nat)
    requires CallsAnswer(l) && from <= n && forall m: nat {:trigger PositionsAt(l, m)} :: from <= m < n ==> i !in PositionsAt(l, m)
    ensures ResultAfter(l, n, i) == ResultAfter(l, from, i)
    decreases n - from
  {
    hide CallsAnswer, PositionsAt, ResultAfter;
    if from < n {
      LaterCallsKeep(l, from, n - 1, i);
      NotSentNotChanged(l, n - 1, i);
    }
  }

  /** `batchGetItemsWithRetry`: it stops early only when no key is unprocessed, and returns exactly those that still are. */
  method ReadWithRetry(entries: seq<Item>, call: (nat, seq<Item>) -> Reply, maxAttempts: nat)
    returns (results: seq<Result>, unprocessed: seq<Item>, partitions: seq<Meta>, forwardCount: nat, ghost calls: nat)
    requires CallsAnswer(ReadLoop(entries, call)) && maxAttempts > 0
    ensures |results| == |entries| && 1 <= calls <= maxAttempts
    ensures forall i :: 0 <= i < |results| ==> Some(Named(results[i], Actors(partitions))) == ResultAfter(ReadLoop(entries, call), calls, i)
    ensures calls < maxAttempts ==> forall i :: 0 <= i < |results| ==> results[i].outcome != NotProcessed
    ensures unprocessed == EntriesWith(entries, results, {NotProcessed})
  {
    ReadPolicy(entries, call);
    hide CallsAnswer, PositionsAt, ResultAfter, ReadLoop, Still, EntriesWith;
    var l := ReadLoop(entries, call);
    results, unprocessed, partitions, forwardCount, calls := RetryBatch(l, maxAttempts);
    StillIsEntriesWith(entries, results, l.again, {NotProcessed});
    if calls < maxAttempts {
      forall i | 0 <= i < |results| ensures results[i].outcome != NotProcessed {
        ReadIsSettled(entries, call, calls, i);
      }
    }
  }

  /** `batchWriteItemsWithRetry`: it returns exactly the operations that are still unprocessed or unknown. */
  method WriteWithRetry(entries: seq<Item>, call: (nat, seq<Item>) -> Reply, maxAttempts: nat)
    returns (results: seq<Result>, unprocessed: seq<Item>, partitions: seq<Meta>, forwardCount: nat, ghost calls: nat)
    requires CallsAnswer(WriteLoop(entries, call)) && maxAttempts > 0
    ensures |results| == |entries| && 1 <= calls <= maxAttempts
    ensures forall i :: 0 <= i < |results| ==> Some(Named(results[i], Actors(partitions))) == ResultAfter(WriteLoop(entries, call), calls, i)
    ensures calls < maxAttempts ==> forall i :: 0 <= i < |results| ==> results[i].outcome != NotProcessed
    ensures unprocessed == EntriesWith(entries, results, {NotProcessed, MayBeApplied})
  {
    WritePolicy(entries, call);
    hide CallsAnswer, PositionsAt, ResultAfter, WriteLoop, Still, EntriesWith;
    var l := WriteLoop(entries, call);
    results, unprocessed, partitions, forwardCount, calls := RetryBatch(l, maxAttempts);
    StillIsEntriesWith(entries, results, l.again, {NotProcessed, MayBeApplied});
    if calls < maxAttempts {
      forall i | 0 <= i < |results| ensures results[i].outcome != NotProcessed {
        WriteIsSettled(entries, call, calls, i);
      }
    }
  }
}
