/** The resumable, byte-budgeted scan behind every paged endpoint, and the migration page of a coordinator. */
module BatchScan {
  import opened Bytes

  // ─── one page ───────────────────────────────────────────────────────────────

  /** A page, with the cursor of the next one, or the refusal of a page that stopped before it read a row. */
  datatype Batch<T> = Batch(rows: seq<T>, nextCursor: Option<int>, totalBytes: nat) | Stalled

  /** Row keys ascend, as a primary-key scan gives them. */
  predicate Ascending<T>(table: seq<T>, key: T -> int) {
    forall i, j :: 0 <= i < j < |table| ==> key(table[i]) < key(table[j])
  }

  predicate Past<T>(key: T -> int, row: T, cursor: Option<int>) {
    cursor.None? || key(row) > cursor.value
  }

  /** The rows strictly after the cursor. */
  function After<T>(table: seq<T>, key: T -> int, cursor: Option<int>): (rest: seq<T>)
    ensures |rest| <= |table|
  {
    if |table| == 0 || Past(key, table[0], cursor) then table else After(table[1..], key, cursor)
  }

  function Matching<T>(rows: seq<T>, selects: T -> bool): seq<T> {
    if |rows| == 0 then [] else Matching(rows[..|rows| - 1], selects) + (if selects(rows[|rows| - 1]) then [rows[|rows| - 1]] else [])
  }

  function TotalBytes<T>(rows: seq<T>, bytes: T -> nat): nat {
    if |rows| == 0 then 0 else TotalBytes(rows[..|rows| - 1], bytes) + bytes(rows[|rows| - 1])
  }

  /**
   * The contract of a page of the rows `rest` after its cursor: it holds the matching rows of the rows it
   * scanned, its cursor is the last scanned row, a page with no cursor scanned every row, and a page with
   * a cursor scanned at least one.
   */
  ghost predicate Covers<T>(rest: seq<T>, key: T -> int, selects: T -> bool, page: Batch<T>, scanned: nat)
    requires scanned <= |rest|
  {
    && page.Batch?
    && page.rows == Matching(rest[..scanned], selects)
    && (page.nextCursor.None? ==> scanned == |rest|)
    && (page.nextCursor.Some? ==> scanned > 0 && page.nextCursor.value == key(rest[scanned - 1]))
  }

  ghost predicate Honest<T>(table: seq<T>, key: T -> int, selects: T -> bool, cursor: Option<int>, page: Batch<T>) {
    var rest := After(table, key, cursor);
    exists scanned: nat :: scanned <= |rest| && Covers(rest, key, selects, page, scanned)
  }

  // ─── the rows after a cursor ────────────────────────────────────────────────

  lemma {:induction false} AfterIsSuffix<T>(table: seq<T>, key: T -> int, cursor: Option<int>)
    requires Ascending(table, key)
    ensures var rest := After(table, key, cursor); var n := |table| - |rest|;
            && rest == table[n..] && Ascending(rest, key)
            && (forall i :: 0 <= i < n ==> !Past(key, table[i], cursor))
            && (forall i :: 0 <= i < |rest| ==> Past(key, rest[i], cursor))
  {
    if table != [] && !Past(key, table[0], cursor) {
      AfterIsSuffix(table[1..], key, cursor);
      var n := |table| - |After(table, key, cursor)|;
      forall i | 0 <= i < n ensures !Past(key, table[i], cursor) {
        assert i > 0 ==> table[i] == table[1..][i - 1];
      }
    }
  }

  /** A cut that agrees with the cursor on every row is the cut of the cursor. */
  lemma {:induction false} AfterIs<T>(table: seq<T>, key: T -> int, cursor: Option<int>, n: nat)
    requires n <= |table|
    requires forall i :: 0 <= i < n ==> !Past(key, table[i], cursor)
    requires forall i :: n <= i < |table| ==> Past(key, table[i], cursor)
    ensures After(table, key, cursor) == table[n..]
  {
    if n > 0 {
      forall i | 0 <= i < n - 1 ensures !Past(key, table[1..][i], cursor) {
        assert table[1..][i] == table[i + 1];
      }
      AfterIs(table[1..], key, cursor, n - 1);
    }
  }

  /** A cursor at a scanned row leaves the rows after that row. */
  lemma AfterScanned<T>(table: seq<T>, key: T -> int, cursor: Option<int>, scanned: nat)
    requires Ascending(table, key)
    requires 0 < scanned <= |After(table, key, cursor)|
    ensures var rest := After(table, key, cursor); After(table, key, Some(key(rest[scanned - 1]))) == rest[scanned..]
  {
    hide After;
    AfterIsSuffix(table, key, cursor);
    var rest := After(table, key, cursor);
    var n := |table| - |rest| + scanned;
    var c := Some(key(rest[scanned - 1]));
    assert table[n - 1] == rest[scanned - 1];
    forall i | 0 <= i < n ensures !Past(key, table[i], c) {
    }
    forall i | n <= i < |table| ensures Past(key, table[i], c) {
    }
    AfterIs(table, key, c, n);
    assert rest[scanned..] == table[n..];
  }

  lemma {:induction false} MatchingOfAppend<T>(a: seq<T>, b: seq<T>, selects: T -> bool)
    ensures Matching(a + b, selects) == Matching(a, selects) + Matching(b, selects)
  {
    if b == [] {
      assert a + b == a;
    } else {
      assert (a + b)[..|a + b| - 1] == a + b[..|b| - 1];
      MatchingOfAppend(a, b[..|b| - 1], selects);
    }
  }

  /** The rows and the bytes that a scan of the first `scanned` rows holds. */
  ghost predicate Holds<T>(rest: seq<T>, selects: T -> bool, bytes: T -> nat, scanned: nat, rows: seq<T>, total: nat)
    requires scanned <= |rest|
  {
    rows == Matching(rest[..scanned], selects) && total == TotalBytes(rows, bytes)
  }

  lemma NothingHeld<T>(rest: seq<T>, selects: T -> bool, bytes: T -> nat)
    ensures Holds(rest, selects, bytes, 0, [], 0)
  {
  }

  lemma HoldsOneMore<T>(rest: seq<T>, selects: T -> bool, bytes: T -> nat, scanned: nat, rows: seq<T>, total: nat)
    requires scanned < |rest| && Holds(rest, selects, bytes, scanned, rows, total)
    ensures selects(rest[scanned]) ==> Holds(rest, selects, bytes, scanned + 1, rows + [rest[scanned]], total + bytes(rest[scanned]))
    ensures !selects(rest[scanned]) ==> Holds(rest, selects, bytes, scanned + 1, rows, total)
  {
    assert rest[..scanned + 1][..scanned] == rest[..scanned];
    if selects(rest[scanned]) {
      assert (rows + [rest[scanned]])[..|rows|] == rows;
    }
  }

  /** What a scan holds, with the cursor it stopped at, keeps the contract of a page. */
  lemma HeldIsCovered<T>(rest: seq<T>, key: T -> int, selects: T -> bool, bytes: T -> nat, scanned: nat, rows: seq<T>, total: nat, cursor: Option<int>)
    requires scanned <= |rest| && Holds(rest, selects, bytes, scanned, rows, total)
    requires cursor == if scanned > 0 && cursor.Some? then Some(key(rest[scanned - 1])) else None
    ensures Covers(rest, key, selects, Batch(rows, cursor, total), scanned) <==> cursor.Some? || scanned == |rest|
    ensures total == TotalBytes(rows, bytes)
  {
  }

  /** The state of a scan from `start` that read `scanned` rows: what it holds, and where its cursor is. */
  ghost predicate At<T>(table: seq<T>, key: T -> int, selects: T -> bool, bytes: T -> nat, start: Option<int>,
      scanned: nat, rows: seq<T>, total: nat, cursor: Option<int>)
    requires scanned <= |After(table, key, start)|
  {
    var rest := After(table, key, start);
    && Holds(rest, selects, bytes, scanned, rows, total)
    && cursor == if scanned == 0 then start else Some(key(rest[scanned - 1]))
  }

  lemma AtStart<T>(table: seq<T>, key: T -> int, selects: T -> bool, bytes: T -> nat, start: Option<int>)
    ensures At(table, key, selects, bytes, start, 0, [], 0, start)
  {
  }

  lemma Fetched<T>(table: seq<T>, key: T -> int, selects: T -> bool, bytes: T -> nat, start: Option<int>,
      scanned: nat, rows: seq<T>, total: nat, cursor: Option<int>)
    requires Ascending(table, key) && scanned <= |After(table, key, start)|
    requires At(table, key, selects, bytes, start, scanned, rows, total, cursor)
    ensures After(table, key, cursor) == After(table, key, start)[scanned..]
  {
    hide Holds, After, Ascending;
    if scanned > 0 {
      AfterScanned(table, key, start, scanned);
    }
  }

  lemma AtOneMore<T>(table: seq<T>, key: T -> int, selects: T -> bool, bytes: T -> nat, start: Option<int>,
      scanned: nat, rows: seq<T>, total: nat, cursor: Option<int>)
    requires scanned < |After(table, key, start)| && At(table, key, selects, bytes, start, scanned, rows, total, cursor)
    ensures var row := After(table, key, start)[scanned];
            if selects(row) then At(table, key, selects, bytes, start, scanned + 1, rows + [row], total + bytes(row), Some(key(row)))
            else At(table, key, selects, bytes, start, scanned + 1, rows, total, Some(key(row)))
  {
    hide Holds, After;
    HoldsOneMore(After(table, key, start), selects, bytes, scanned, rows, total);
  }

  lemma AtIsCovered<T>(table: seq<T>, key: T -> int, selects: T -> bool, bytes: T -> nat, start: Option<int>,
      scanned: nat, rows: seq<T>, total: nat, cursor: Option<int>, stopped: bool)
    requires scanned <= |After(table, key, start)| && At(table, key, selects, bytes, start, scanned, rows, total, cursor)
    requires if stopped then scanned > 0 else scanned == |After(table, key, start)|
    ensures var next := if stopped then cursor else None;
            && Covers(After(table, key, start), key, selects, Batch(rows, next, total), scanned)
            && Honest(table, key, selects, start, Batch(rows, next, total)) && total == TotalBytes(rows, bytes)
  {
    hide After;
    var next := if stopped then cursor else None;
    HeldIsCovered(After(table, key, start), key, selects, bytes, scanned, rows, total, next);
  }

  // ─── collectBatch ───────────────────────────────────────────────────────────

  /** A cap that is absent does not stop the scan. */
  predicate Reached(cap: Option<nat>, count: nat) {
    cap.Some? && count >= cap.value
  }

  /** What stopped a page that has a cursor: the next matching row does not fit, or a cap is reached. */
  predicate StoppedAtLimit<T>(rest: seq<T>, selects: T -> bool, bytes: T -> nat, budgetBytes: nat, maxItems: Option<nat>, maxScanned: Option<nat>,
      page: Batch<T>, scanned: nat)
    requires page.Batch? && scanned <= |rest|
  {
    || (scanned < |rest| && selects(rest[scanned]) && |page.rows| > 0 && page.totalBytes + bytes(rest[scanned]) > budgetBytes)
    || Reached(maxItems, |page.rows|)
    || Reached(maxScanned, scanned)
  }

  predicate WithinLimits<T>(page: Batch<T>, budgetBytes: nat, maxItems: Option<nat>, maxScanned: Option<nat>, scanned: nat)
    requires page.Batch?
  {
    && (|page.rows| <= 1 || page.totalBytes <= budgetBytes)
    && (maxItems.Some? ==> |page.rows| <= Max(1, maxItems.value))
    && (maxScanned.Some? ==> scanned <= maxScanned.value)
  }

  /**
   * `collectBatch`. `fetchPage` gives the rows after the cursor, at most `remaining` of them and one at a
   * time, so a fetch is a stretch of the rows that are left.
   */
  method CollectBatch<T>(table: seq<T>, key: T -> int, selects: T -> bool, bytes: T -> nat, budgetBytes: nat,
      maxItems: Option<nat>, maxScannedRows: Option<nat>, pageSize: nat, startCursor: Option<int>)
    returns (page: Batch<T>, ghost scannedRows: nat)
    requires Ascending(table, key)
    ensures page.Stalled? <==> pageSize == 0 || maxScannedRows == Some(0)
    ensures scannedRows <= |After(table, key, startCursor)|
    ensures page.Batch? ==> Covers(After(table, key, startCursor), key, selects, page, scannedRows)
    ensures page.Batch? ==> Honest(table, key, selects, startCursor, page) && page.totalBytes == TotalBytes(page.rows, bytes)
    ensures page.Batch? ==> WithinLimits(page, budgetBytes, maxItems, maxScannedRows, scannedRows)
    ensures page.Batch? && page.nextCursor.Some? ==>
      StoppedAtLimit(After(table, key, startCursor), selects, bytes, budgetBytes, maxItems, maxScannedRows, page, scannedRows)
  {
    hide After, Ascending, Covers, Honest, At, Matching, TotalBytes, Holds;
    ghost var rest := After(table, key, startCursor);
    var rows: seq<T>, totalBytes: nat, scanned: nat := [], 0, 0;
    var cursor := startCursor;
    var reachedLimit := false;
    AtStart(table, key, selects, bytes, startCursor);
    while true
      invariant !reachedLimit && scanned <= |rest|
      invariant At(table, key, selects, bytes, startCursor, scanned, rows, totalBytes, cursor)
      invariant WithinLimits(Batch(rows, cursor, totalBytes), budgetBytes, maxItems, maxScannedRows, scanned)
      invariant if scanned == 0 then |rows| == 0 else !Reached(maxItems, |rows|) && !Reached(maxScannedRows, scanned) && pageSize > 0
      decreases |rest| - scanned
    {
      var remaining := if maxScannedRows.None? then pageSize else Min(pageSize, maxScannedRows.value - scanned);
      if remaining <= 0 {
        reachedLimit := true;
        break;
      }
      var fetch := After(table, key, cursor);
      Fetched(table, key, selects, bytes, startCursor, scanned, rows, totalBytes, cursor);
      var fetched := 0;
      ghost var before := scanned;
      while fetched < remaining && fetched < |fetch|
        invariant fetched <= remaining && fetched <= |fetch| && scanned == before + fetched && !reachedLimit && scanned <= |rest|
        invariant At(table, key, selects, bytes, startCursor, scanned, rows, totalBytes, cursor)
        invariant WithinLimits(Batch(rows, cursor, totalBytes), budgetBytes, maxItems, maxScannedRows, scanned)
        invariant if scanned == 0 then |rows| == 0 else !Reached(maxItems, |rows|) && !Reached(maxScannedRows, scanned)
      {
        var row := fetch[fetched];
        AtOneMore(table, key, selects, bytes, startCursor, scanned, rows, totalBytes, cursor);
        if selects(row) {
          if |rows| > 0 && totalBytes + bytes(row) > budgetBytes {
            reachedLimit := true;
            break;
          }
          rows := rows + [row];
          totalBytes := totalBytes + bytes(row);
        }
        fetched := fetched + 1;
        cursor := Some(key(row));
        scanned := scanned + 1;
        if Reached(maxItems, |rows|) || Reached(maxScannedRows, scanned) {
          reachedLimit := true;
          break;
        }
      }
      if reachedLimit || fetched < remaining {
        break;
      }
    }
    scannedRows := scanned;
    if reachedLimit && scanned == 0 {
      return Stalled, scannedRows;
    }
    var next := if reachedLimit then cursor else None;
    AtIsCovered(table, key, selects, bytes, startCursor, scanned, rows, totalBytes, cursor, reachedLimit);
    return Batch(rows, next, totalBytes), scannedRows;
  }

  // ─── the migration page of a coordinator ────────────────────────────────────

  /**
   * `buildMigrationPage`, over the ledger rows of the interval of the target. The query reads one row
   * more than the scan budget, which shows that the ledger goes on. The contract of a page holds exactly
   * when both row budgets are positive or no row is left. A page with a budget of zero answers no cursor,
   * so its target would take the import as complete.
   */
  method BuildMigrationPage<T>(ledger: seq<T>, key: T -> int, belongs: T -> bool, bytes: T -> nat,
      pageBytes: nat, pageRows: nat, scanRows: nat, cursor: Option<int>)
    returns (page: Batch<T>, ghost scannedRows: nat)
    requires Ascending(ledger, key)
    ensures page.Batch? && scannedRows <= |After(ledger, key, cursor)|
    ensures Covers(After(ledger, key, cursor), key, belongs, page, scannedRows) <==> (pageRows > 0 && scanRows > 0) || After(ledger, key, cursor) == []
    ensures pageRows > 0 && scanRows > 0 ==> Honest(ledger, key, belongs, cursor, page)
    ensures pageRows == 0 || scanRows == 0 ==> page == Batch([], None, 0)
    ensures page.totalBytes == TotalBytes(page.rows, bytes)
    ensures |page.rows| <= pageRows && scannedRows <= scanRows && (|page.rows| <= 1 || page.totalBytes <= pageBytes)
  {
    hide After, Matching, TotalBytes, Holds, Ascending, Covers;
    var rest := After(ledger, key, cursor);
    var limit := Min(|rest|, scanRows + 1);
    var found: seq<T>, total: nat, scanned: nat := [], 0, 0;
    var last := None;
    NothingHeld(rest, belongs, bytes);
    while scanned < limit
      invariant scanned <= limit && scanned <= scanRows && |found| <= pageRows
      invariant Holds(rest, belongs, bytes, scanned, found, total)
      invariant last == if scanned > 0 then Some(key(rest[scanned - 1])) else None
      invariant scanned == 0 ==> |found| == 0 && total == 0
      invariant scanned > 0 ==> pageRows > 0
      invariant |found| <= 1 || total <= pageBytes
    {
      HeldIsCovered(rest, key, belongs, bytes, scanned, found, total, last);
      if scanned == scanRows || |found| == pageRows {
        return Batch(found, last, total), scanned;
      }
      var row := rest[scanned];
      HoldsOneMore(rest, belongs, bytes, scanned, found, total);
      if belongs(row) {
        if |found| > 0 && total + bytes(row) > pageBytes {
          return Batch(found, last, total), scanned;
        }
        found := found + [row];
        total := total + bytes(row);
      }
      scanned := scanned + 1;
      last := Some(key(row));
    }
    HeldIsCovered(rest, key, belongs, bytes, scanned, found, total, None);
    return Batch(found, None, total), scanned;
  }

  // ─── pages, one after the other ─────────────────────────────────────────────

  /** Pages that keep the contract, each from the cursor of the page before it. Every page can have its own budgets. */
  ghost predicate Chain<T>(table: seq<T>, key: T -> int, selects: T -> bool, cursor: Option<int>, pages: seq<Batch<T>>)
    decreases |pages|
  {
    pages != [] ==>
      && Honest(table, key, selects, cursor, pages[0])
      && (|pages| > 1 ==> pages[0].nextCursor.Some?)
      && Chain(table, key, selects, pages[0].nextCursor, pages[1..])
  }

  function Rows<T>(pages: seq<Batch<T>>): seq<T> {
    if |pages| == 0 then [] else (if pages[0].Batch? then pages[0].rows else []) + Rows(pages[1..])
  }

  /** The matching rows that a page leaves: those after its cursor, or none. */
  function Left<T>(table: seq<T>, key: T -> int, selects: T -> bool, page: Batch<T>): seq<T>
    requires page.Batch?
  {
    if page.nextCursor.None? then [] else Matching(After(table, key, page.nextCursor), selects)
  }

  /** A page splits the scan from its cursor, and a page with a cursor leaves fewer rows. */
  lemma PageSplitsTheScan<T>(table: seq<T>, key: T -> int, selects: T -> bool, cursor: Option<int>, page: Batch<T>)
    requires Ascending(table, key) && Honest(table, key, selects, cursor, page)
    ensures page.Batch?
    ensures Matching(After(table, key, cursor), selects) == page.rows + Left(table, key, selects, page)
    ensures page.nextCursor.Some? ==> |After(table, key, page.nextCursor)| < |After(table, key, cursor)|
  {
    hide Matching, After, Ascending;
    var rest := After(table, key, cursor);
    var scanned: nat :| scanned <= |rest| && Covers(rest, key, selects, page, scanned);
    assert rest == rest[..scanned] + rest[scanned..];
    if page.nextCursor.Some? {
      MatchingOfAppend(rest[..scanned], rest[scanned..], selects);
      AfterScanned(table, key, cursor, scanned);
    } else {
      assert rest[..scanned] == rest;
    }
  }

  /** The rows of the pages, and then the matching rows after the last cursor, are all the matching rows: none is lost, repeated or moved. */
  lemma {:induction false} PagesAreOneScan<T>(table: seq<T>, key: T -> int, selects: T -> bool, cursor: Option<int>, pages: seq<Batch<T>>)
    requires Ascending(table, key) && pages != [] && Chain(table, key, selects, cursor, pages)
    ensures pages[|pages| - 1].Batch?
    ensures Matching(After(table, key, cursor), selects) == Rows(pages) + Left(table, key, selects, pages[|pages| - 1])
    decreases |pages|
  {
    hide Matching, After, Ascending, Honest;
    var page, rest := pages[0], pages[1..];
    PageSplitsTheScan(table, key, selects, cursor, page);
    if |pages| == 1 {
      assert Rows(rest) == [] && page.rows + [] == page.rows;
    } else {
      PagesAreOneScan(table, key, selects, page.nextCursor, rest);
      var left := Left(table, key, selects, rest[|rest| - 1]);
      assert rest[|rest| - 1] == pages[|pages| - 1];
      assert Left(table, key, selects, page) == Rows(rest) + left;
      hide Left;
      assert page.rows + (Rows(rest) + left) == (page.rows + Rows(rest)) + left;
    }
  }

  /** The sequence of pages is finite: each page with a cursor leaves fewer rows. */
  lemma {:induction false} PagesAreFinite<T>(table: seq<T>, key: T -> int, selects: T -> bool, cursor: Option<int>, pages: seq<Batch<T>>)
    requires Ascending(table, key) && Chain(table, key, selects, cursor, pages)
    ensures |pages| <= |After(table, key, cursor)| + 1
    decreases |pages|
  {
    if |pages| > 1 {
      PageSplitsTheScan(table, key, selects, cursor, pages[0]);
      PagesAreFinite(table, key, selects, pages[0].nextCursor, pages[1..]);
    }
  }
}
