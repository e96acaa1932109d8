/** The trim of a batch read answer to its byte limit. */
module BatchResponse {
  import opened Bytes
  import opened BatchAnswers

  const MAX_BATCH_GET_RESPONSE_BYTES := 32 * 1024 * 1024 * 3 / 4

  predicate Sorted(entries: seq<Entry>) {
    forall i, j :: 0 <= i < j < |entries| ==> entries[i].opIndex <= entries[j].opIndex
  }

  function InsertByOp(sorted: seq<Entry>, e: Entry): seq<Entry> {
    if sorted == [] || sorted[|sorted| - 1].opIndex <= e.opIndex then sorted + [e]
    else InsertByOp(sorted[..|sorted| - 1], e) + [sorted[|sorted| - 1]]
  }

  /** The stable sort by `opIndex`. */
  function SortByOp(entries: seq<Entry>): seq<Entry> {
    if entries == [] then [] else InsertByOp(SortByOp(entries[..|entries| - 1]), entries[|entries| - 1])
  }

  lemma {:induction false} InsertKeepsEntries(sorted: seq<Entry>, e: Entry)
    ensures multiset(InsertByOp(sorted, e)) == multiset(sorted) + multiset{e}
  {
    if sorted != [] && sorted[|sorted| - 1].opIndex > e.opIndex {
      InsertKeepsEntries(sorted[..|sorted| - 1], e);
      assert sorted == sorted[..|sorted| - 1] + [sorted[|sorted| - 1]];
    }
  }

  lemma {:induction false} InsertKeepsOrder(sorted: seq<Entry>, e: Entry)
    requires Sorted(sorted)
    ensures Sorted(InsertByOp(sorted, e))
  {
    if sorted != [] && sorted[|sorted| - 1].opIndex > e.opIndex {
      var front, last := sorted[..|sorted| - 1], sorted[|sorted| - 1];
      InsertKeepsOrder(front, e);
      InsertKeepsEntries(front, e);
      var inner := InsertByOp(front, e);
      forall i | 0 <= i < |inner| ensures inner[i].opIndex <= last.opIndex {
        assert inner[i] in multiset(inner);
        assert inner[i] == e || inner[i] in multiset(front);
      }
    }
  }

  lemma {:induction false} SortKeepsEntries(entries: seq<Entry>)
    ensures multiset(SortByOp(entries)) == multiset(entries)
  {
    if entries != [] {
      var front := entries[..|entries| - 1];
      SortKeepsEntries(front);
      InsertKeepsEntries(SortByOp(front), entries[|entries| - 1]);
      hide InsertByOp;
      assert entries == front + [entries[|entries| - 1]];
    }
  }

  lemma {:induction false} SortIsSorted(entries: seq<Entry>)
    ensures Sorted(SortByOp(entries))
  {
    if entries != [] {
      SortIsSorted(entries[..|entries| - 1]);
      InsertKeepsOrder(SortByOp(entries[..|entries| - 1]), entries[|entries| - 1]);
    }
  }

  function Total(entries: seq<Entry>): nat {
    if entries == [] then 0 else Total(entries[..|entries| - 1]) + entries[|entries| - 1].bytes
  }

  predicate Fits(kept: seq<Entry>, e: Entry, limit: int) {
    e.opIndex == 0 || Total(kept) + e.bytes <= limit
  }

  /** The entries that stay: each that fits after those before it, and the entry of operation 0. */
  function Kept(entries: seq<Entry>, limit: int): seq<Entry> {
    if entries == [] then []
    else
      var kept, e := Kept(entries[..|entries| - 1], limit), entries[|entries| - 1];
      if Fits(kept, e, limit) then kept + [e] else kept
  }

  function Dropped(entries: seq<Entry>, limit: int): seq<Entry> {
    if entries == [] then []
    else
      var dropped, e := Dropped(entries[..|entries| - 1], limit), entries[|entries| - 1];
      if Fits(Kept(entries[..|entries| - 1], limit), e, limit) then dropped else dropped + [e]
  }

  lemma {:induction false} TrimKeepsEntries(entries: seq<Entry>, limit: int)
    ensures multiset(Kept(entries, limit)) + multiset(Dropped(entries, limit)) == multiset(entries)
  {
    if entries != [] {
      TrimKeepsEntries(entries[..|entries| - 1], limit);
      assert entries == entries[..|entries| - 1] + [entries[|entries| - 1]];
    }
  }

  lemma AppendKeepsOrder(part: seq<Entry>, front: seq<Entry>, e: Entry)
    requires Sorted(part) && Sorted(front + [e]) && multiset(part) <= multiset(front)
    ensures Sorted(part + [e])
  {
    forall i | 0 <= i < |part| ensures part[i].opIndex <= e.opIndex {
      assert part[i] in multiset(part);
      assert part[i] in front;
      var k :| 0 <= k < |front| && front[k] == part[i];
      assert (front + [e])[k].opIndex <= (front + [e])[|front|].opIndex;
    }
  }

  /** The kept entries stay in order, and so do the dropped ones. */
  lemma {:induction false} TrimKeepsOrder(entries: seq<Entry>, limit: int)
    requires Sorted(entries)
    ensures Sorted(Kept(entries, limit)) && Sorted(Dropped(entries, limit))
  {
    if entries != [] {
      var front, e := entries[..|entries| - 1], entries[|entries| - 1];
      assert entries == front + [e];
      TrimKeepsOrder(front, limit);
      TrimKeepsEntries(front, limit);
      KeptOfOneMore(entries, limit);
      hide Kept, Dropped, Total, Sorted;
      if Fits(Kept(front, limit), e, limit) {
        AppendKeepsOrder(Kept(front, limit), front, e);
      } else {
        AppendKeepsOrder(Dropped(front, limit), front, e);
      }
    }
  }

  lemma KeptOfOneMore(entries: seq<Entry>, limit: int)
    requires entries != []
    ensures var front, e := entries[..|entries| - 1], entries[|entries| - 1];
            if Fits(Kept(front, limit), e, limit)
            then Kept(entries, limit) == Kept(front, limit) + [e] && Dropped(entries, limit) == Dropped(front, limit)
                 && Total(Kept(entries, limit)) == Total(Kept(front, limit)) + e.bytes
            else Kept(entries, limit) == Kept(front, limit) && Dropped(entries, limit) == Dropped(front, limit) + [e]
  {
    var front, e := entries[..|entries| - 1], entries[|entries| - 1];
    assert (Kept(front, limit) + [e])[..|Kept(front, limit)|] == Kept(front, limit);
  }

  /**
   * The kept entries fit the limit, or they are of operation 0 alone. No dropped entry fits beside the
   * kept ones, and none is of operation 0.
   */
  lemma {:induction false} TrimIsGreedy(entries: seq<Entry>, limit: int)
    requires limit >= 0 && Sorted(entries)
    ensures var kept, dropped := Kept(entries, limit), Dropped(entries, limit);
            && (Total(kept) <= limit || (forall e :: e in kept ==> e.opIndex == 0))
            && (forall e :: e in dropped ==> e.opIndex != 0 && Total(kept) + e.bytes > limit)
  {
    if entries != [] {
      var front, e := entries[..|entries| - 1], entries[|entries| - 1];
      TrimIsGreedy(front, limit);
      KeptOfOneMore(entries, limit);
      TrimKeepsOrder(entries, limit);
      hide Kept, Dropped, Total;
      if e.opIndex == 0 {
        var kept := Kept(entries, limit);
        forall i | 0 <= i < |kept| ensures kept[i].opIndex == 0 {
          assert kept[i].opIndex <= kept[|kept| - 1].opIndex;
        }
      }
    }
  }

  /** `fitBatchResponse`. */
  method FitBatchResponse(found: seq<Entry>, maxResponseBytes: nat) returns (kept: seq<Entry>, dropped: seq<Entry>)
    ensures var limit := Min(maxResponseBytes, MAX_BATCH_GET_RESPONSE_BYTES);
            && multiset(kept) + multiset(dropped) == multiset(found)
            && Sorted(kept) && Sorted(dropped)
            && (Total(kept) <= limit || (forall e :: e in kept ==> e.opIndex == 0))
            && (forall e :: e in dropped ==> e.opIndex != 0 && Total(kept) + e.bytes > limit)
            && kept == Kept(SortByOp(found), limit) && dropped == Dropped(SortByOp(found), limit)
  {
    hide SortByOp, Kept, Dropped, Total;
    kept, dropped := [], [];
    var remaining := Min(maxResponseBytes, MAX_BATCH_GET_RESPONSE_BYTES);
    ghost var limit := remaining;
    var entries := SortByOp(found);
    NothingKept(limit);
    for i := 0 to |entries|
      invariant kept == Kept(entries[..i], limit) && dropped == Dropped(entries[..i], limit)
      invariant remaining == limit - Total(kept)
    {
      var entry := entries[i];
      assert entries[..i + 1][..i] == entries[..i];
      KeptOfOneMore(entries[..i + 1], limit);
      if entry.opIndex == 0 || entry.bytes <= remaining {
        remaining := remaining - entry.bytes;
        kept := kept + [entry];
      } else {
        dropped := dropped + [entry];
      }
    }
    assert entries[..|entries|] == entries;
    SortKeepsEntries(found);
    SortIsSorted(found);
    TrimKeepsEntries(entries, limit);
    TrimKeepsOrder(entries, limit);
    TrimIsGreedy(entries, limit);
  }

  lemma NothingKept(limit: int)
    ensures Kept([], limit) == [] && Dropped([], limit) == [] && Total([]) == 0
  {
  }
}
