/**
 * The ledger of the transaction coordinator: the durable rows of `tc_state` and `tc_participants`, and
 * the storage transactions that move them. Each storage transaction is a function on the ledger, and the
 * class runs it over its rows.
 */
module Coordinator {
  import opened Bytes
  import opened Participant

  const IDEMPOTENCY_WINDOW_MS := 10 * 60 * 1000

  datatype TcState = Created | Preparing | Committing | Committed | Cancelling | Cancelled

  datatype PrepareOutcome = Unanswered | Accepted | Rejected

  /** A stored prepare error. A fatal one says that the request is not valid, so no retry clears it. */
  datatype PrepareError = NoError | Transient | Fatal

  datatype ParticipantRow = ParticipantRow(prepare: PrepareOutcome, error: PrepareError, commitStored: bool, cancelStored: bool)

  datatype TxRow = TxRow(token: string, fingerprint: nat, state: TcState, createdAt: int, completedAt: Option<int>,
                         participants: map<PartId, ParticipantRow>)

  type Ledger = map<TxId, TxRow>

  const NEW_PARTICIPANT := ParticipantRow(Unanswered, NoError, false, false)

  // ─── the storage transactions ───────────────────────────────────────────────

  function NewRow(token: string, fingerprint: nat, now: int, participants: set<PartId>): TxRow {
    TxRow(token, fingerprint, Created, now, None, map p | p in participants :: NEW_PARTICIPANT)
  }

  predicate TokenUsed(l: Ledger, token: string) {
    exists tx :: tx in l && l[tx].token == token
  }

  /** `drivePrepare`: CREATED becomes PREPARING. */
  function StartPreparing(row: TxRow): TxRow {
    if row.state.Created? then row.(state := Preparing) else row
  }

  function SetParticipant(row: TxRow, p: PartId, r: ParticipantRow): TxRow {
    row.(participants := row.participants[p := r])
  }

  /** `storePrepareAnswer`: only while PREPARING, never over a fatal error, and only the first answer. */
  function StoreAnswer(row: TxRow, p: PartId, answer: PrepareOutcome): TxRow {
    if row.state.Preparing? && p in row.participants
       && !row.participants[p].error.Fatal? && row.participants[p].prepare.Unanswered?
    then SetParticipant(row, p, row.participants[p].(prepare := answer)) else row
  }

  /** `storePrepareError`: only while PREPARING and unanswered, and a fatal error stays. */
  function StoreError(row: TxRow, p: PartId, error: PrepareError): TxRow {
    if row.state.Preparing? && p in row.participants
       && !row.participants[p].error.Fatal? && row.participants[p].prepare.Unanswered?
    then SetParticipant(row, p, row.participants[p].(error := error)) else row
  }

  /** The participant is open: the row is PREPARING, and it stores neither an answer nor a fatal error. */
  predicate TakesAnswer(row: TxRow, p: PartId) {
    && row.state == Preparing && p in row.participants
    && row.participants[p].prepare == Unanswered && row.participants[p].error != Fatal
  }

  /** The stored row of the participant lets no commit happen: it rejects, or it has no answer and a fatal error. */
  predicate StopsTransaction(row: TxRow, p: PartId) {
    p in row.participants
    && (row.participants[p].prepare == Rejected || (row.participants[p].prepare == Unanswered && row.participants[p].error == Fatal))
  }

  predicate AllAccepted(row: TxRow) {
    forall p :: p in row.participants ==> row.participants[p].prepare.Accepted?
  }

  predicate AnyRejected(row: TxRow) {
    exists p :: p in row.participants &&
      (row.participants[p].prepare.Rejected? || (row.participants[p].prepare.Unanswered? && row.participants[p].error.Fatal?))
  }

  lemma RejectedStops(row: TxRow)
    ensures AnyRejected(row) <==> exists p :: StopsTransaction(row, p)
  {
    if p :| p in row.participants && (row.participants[p].prepare.Rejected? || (row.participants[p].prepare.Unanswered? && row.participants[p].error.Fatal?)) {
      assert StopsTransaction(row, p);
    }
  }

  /** `markCommitting`: the stored answers decide. */
  function MarkCommitting(row: TxRow): TxRow {
    if row.state.Preparing? && AllAccepted(row) then row.(state := Committing) else row
  }

  /** `cancelTransactionInStore`: the only writer of CANCELLING. */
  function MarkCancelling(row: TxRow): TxRow {
    if row.state.Preparing? then row.(state := Cancelling) else row
  }

  /** `commit_outcome = 'committed'` of the participants of `confirmed`, only while COMMITTING. */
  function StoreCommitted(row: TxRow, confirmed: set<PartId>): TxRow {
    if row.state.Committing? then
      row.(participants := map p | p in row.participants ::
        if p in confirmed then row.participants[p].(commitStored := true) else row.participants[p])
    else row
  }

  /** A committing row stores the confirmations, and nothing else changes. */
  predicate ConfirmsOnly(before: TxRow, after: TxRow, confirmed: seq<PartId>) {
    && after == before.(participants := after.participants)
    && after.participants.Keys == before.participants.Keys
    && (before.state != Committing ==> after == before)
    && (before.state == Committing ==> forall p :: p in after.participants ==>
         after.participants[p] == if p in confirmed then before.participants[p].(commitStored := true) else before.participants[p])
  }

  lemma StoreConfirmsOnly(row: TxRow, confirmed: seq<PartId>)
    ensures ConfirmsOnly(row, StoreCommitted(row, set p | p in confirmed), confirmed)
  {
  }

  /** `cancel_outcome = 'cancelled'`, with no guard on the state. */
  function StoreCancelled(row: TxRow, p: PartId): TxRow {
    if p in row.participants then SetParticipant(row, p, row.participants[p].(cancelStored := true)) else row
  }

  /** `completeTransaction`: the terminal state. It deletes the participant rows. */
  function Complete(row: TxRow, committed: bool, now: int): TxRow {
    if row.state == (if committed then Committing else Cancelling) then
      row.(state := if committed then Committed else Cancelled, completedAt := Some(now), participants := map[])
    else row
  }

  predicate Expired(row: TxRow, now: int) {
    row.completedAt.Some? && row.completedAt.value < now - IDEMPOTENCY_WINDOW_MS
  }

  /** What `recoverTransactionLocal` answers. */
  datatype RecoverAnswer = IsCommitted | IsCancelled | IsDriving | IsNotFound

  function Recover(l: Ledger, tx: TxId): RecoverAnswer {
    if tx !in l then IsNotFound
    else match l[tx].state
      case Committed => IsCommitted
      case Cancelled => IsCancelled
      case _ => IsDriving
  }

  // ─── the order of the states ────────────────────────────────────────────────

  /** The only moves of the ledger: CREATED, PREPARING, and then one of the two branches. */
  predicate Follows(a: TcState, b: TcState) {
    || a == b
    || a.Created?
    || (a.Preparing? && !b.Created?)
    || (a.Committing? && b.Committed?)
    || (a.Cancelling? && b.Cancelled?)
  }

  lemma FollowsIsTransitive(a: TcState, b: TcState, c: TcState)
    requires Follows(a, b) && Follows(b, c)
    ensures Follows(a, c)
  {
  }

  datatype InitiateAnswer = Inserted | Resumed(tx: TxId) | TokenMismatch

  datatype Drive = RunCommit | RunCancel | Leave

  /** The coordinator object. `rows` are the durable rows, so a restart keeps them. */
  class TransactionCoordinator {
    var rows: map<TxId, TxRow>

    constructor ()
      ensures rows == map[]
    {
      rows := map[];
    }

    /** The ledger part of `initiateWriteLocal`: a known token resumes its transaction, or refuses other operations. */
    method InitiateWrite(tx: TxId, token: string, fingerprint: nat, now: int, participants: seq<PartId>) returns (answer: InitiateAnswer)
      requires tx !in rows
      modifies this
      ensures answer.Inserted? <==> !TokenUsed(old(rows), token)
      ensures answer.Inserted? ==> rows == old(rows)[tx := NewRow(token, fingerprint, now, set p | p in participants)]
      ensures !answer.Inserted? ==> rows == old(rows)
      ensures answer.Inserted? ==> rows[tx].token == token && rows[tx].fingerprint == fingerprint && rows[tx].state == Created && rows[tx].completedAt == None
      ensures answer.Inserted? ==> forall p :: p in participants <==> p in rows[tx].participants && rows[tx].participants[p].prepare == Unanswered
      ensures answer.Resumed? ==> answer.tx in rows && rows[answer.tx].token == token && rows[answer.tx].fingerprint == fingerprint
      ensures answer.TokenMismatch? ==> exists t :: t in rows && rows[t].token == token && rows[t].fingerprint != fingerprint
    {
      if existing :| existing in rows && rows[existing].token == token {
        if rows[existing].fingerprint != fingerprint {
          return TokenMismatch;
        }
        return Resumed(existing);
      }
      var inserted: map<PartId, ParticipantRow> := map[];
      for i := 0 to |participants|
        invariant inserted == map p | p in participants[..i] :: NEW_PARTICIPANT
      {
        inserted := inserted[participants[i] := NEW_PARTICIPANT];
      }
      assert participants[..|participants|] == participants;
      assert inserted == NewRow(token, fingerprint, now, set p | p in participants).participants;
      rows := rows[tx := TxRow(token, fingerprint, Created, now, None, inserted)];
      return Inserted;
    }

    /** The first storage transaction of `drivePrepare`. The drive prepares only when the row is PREPARING after it. */
    method BeginPreparing(tx: TxId) returns (drives: bool)
      requires tx in rows
      modifies this
      ensures rows == old(rows)[tx := StartPreparing(old(rows)[tx])]
      ensures drives <==> rows[tx].state.Preparing?
      ensures drives <==> old(rows)[tx].state == Created || old(rows)[tx].state == Preparing
      ensures rows == if drives then old(rows)[tx := old(rows)[tx].(state := Preparing)] else old(rows)
    {
      if rows[tx].state.Created? {
        rows := rows[tx := rows[tx].(state := Preparing)];
      } else {
        assert rows[tx := rows[tx]] == rows;
      }
      drives := rows[tx].state.Preparing?;
    }

    /** An answer is stored while the row is PREPARING, over no fatal error and over no other answer. */
    method StorePrepareAnswer(tx: TxId, p: PartId, answer: PrepareOutcome) returns (stored: bool)
      requires tx in rows
      modifies this
      ensures rows == old(rows)[tx := StoreAnswer(old(rows)[tx], p, answer)]
      ensures stored <==> TakesAnswer(old(rows)[tx], p)
      ensures !stored ==> rows == old(rows)
      ensures stored ==> rows == old(rows)[tx := SetParticipant(old(rows)[tx], p, old(rows)[tx].participants[p].(prepare := answer))]
    {
      assert rows[tx := rows[tx]] == rows;
      var row := rows[tx];
      if !row.state.Preparing? || p !in row.participants {
        return false;
      }
      var stored_ := row.participants[p];
      if stored_.error.Fatal? || !stored_.prepare.Unanswered? {
        return false;
      }
      rows := rows[tx := row.(participants := row.participants[p := stored_.(prepare := answer)])];
      return true;
    }

    /** An error is stored exactly where an answer would be, so a fatal one stays and none replaces an answer. */
    method StorePrepareError(tx: TxId, p: PartId, error: PrepareError)
      requires tx in rows
      modifies this
      ensures rows == old(rows)[tx := StoreError(old(rows)[tx], p, error)]
      ensures rows == if TakesAnswer(old(rows)[tx], p) then old(rows)[tx := SetParticipant(old(rows)[tx], p, old(rows)[tx].participants[p].(error := error))]
                      else old(rows)
    {
      assert rows[tx := rows[tx]] == rows;
      var row := rows[tx];
      if row.state.Preparing? && p in row.participants {
        var stored := row.participants[p];
        if stored.prepare.Unanswered? && !stored.error.Fatal? {
          rows := rows[tx := row.(participants := row.participants[p := stored.(error := error)])];
        }
      }
    }

    /** The `NOT EXISTS` of `markCommitting`, row by row. */
    method EveryStoredAnswerAccepts(tx: TxId) returns (accepts: bool)
      requires tx in rows
      ensures accepts <==> AllAccepted(rows[tx])
    {
      var rest := rows[tx].participants.Keys;
      while rest != {}
        invariant rest <= rows[tx].participants.Keys
        invariant forall p :: p in rows[tx].participants && p !in rest ==> rows[tx].participants[p].prepare.Accepted?
        decreases rest
      {
        var p :| p in rest;
        if !rows[tx].participants[p].prepare.Accepted? {
          return false;
        }
        rest := rest - {p};
      }
      return true;
    }

    /**
     * The last part of `runPrepareRecovery`. A drive commits when each stored answer accepts, and cancels when
     * an answer rejects, when a participant has only a fatal error, or when the hold is over. Only a PREPARING
     * row moves, in the transaction of the decision. The start of the hold comes from the state row that the
     * drive read before its fan-out.
     */
    method DecideRecovery(tx: TxId, readCreatedAt: int, now: int, maxHoldMs: int) returns (drive: Drive)
      requires tx in rows
      modifies this
      ensures drive.RunCommit? <==> AllAccepted(old(rows)[tx])
      ensures drive.RunCommit? ==> rows == old(rows)[tx := MarkCommitting(old(rows)[tx])]
      ensures drive.RunCancel? ==> rows == old(rows)[tx := MarkCancelling(old(rows)[tx])]
      ensures drive.RunCancel? <==> !AllAccepted(old(rows)[tx]) && (AnyRejected(old(rows)[tx]) || now - readCreatedAt > maxHoldMs)
      ensures drive.Leave? ==> rows == old(rows)
      ensures drive.RunCommit? <==> forall p :: p in old(rows)[tx].participants ==> old(rows)[tx].participants[p].prepare == Accepted
      ensures drive.RunCancel? <==> !drive.RunCommit? && (now - readCreatedAt > maxHoldMs || exists p :: StopsTransaction(old(rows)[tx], p))
      ensures !drive.Leave? && old(rows)[tx].state == Preparing ==>
        rows == old(rows)[tx := old(rows)[tx].(state := if drive.RunCommit? then Committing else Cancelling)]
      ensures old(rows)[tx].state != Preparing ==> rows == old(rows)
    {
      assert rows[tx := rows[tx]] == rows;
      RejectedStops(rows[tx]);
      var allAccepted := EveryStoredAnswerAccepts(tx);
      var row := rows[tx];
      var anyRejected := false;
      var rest := row.participants.Keys;
      while rest != {}
        invariant rest <= row.participants.Keys
        invariant anyRejected ==> AnyRejected(row)
        invariant !anyRejected ==> forall p :: p in row.participants && p !in rest ==>
          !row.participants[p].prepare.Rejected? && !(row.participants[p].prepare.Unanswered? && row.participants[p].error.Fatal?)
        decreases rest
      {
        var p :| p in rest;
        if row.participants[p].prepare.Rejected? || (row.participants[p].prepare.Unanswered? && row.participants[p].error.Fatal?) {
          anyRejected := true;
        }
        rest := rest - {p};
      }
      if allAccepted {
        rows := rows[tx := MarkCommitting(row)];
        return RunCommit;
      } else if anyRejected || now - readCreatedAt > maxHoldMs {
        rows := rows[tx := MarkCancelling(row)];
        return RunCancel;
      }
      return Leave;
    }

    /** The storage transaction of `runCommit` after a partial fan-out: it stores the confirmations and counts the missing ones. */
    method StoreConfirmations(tx: TxId, confirmed: seq<PartId>) returns (missing: nat)
      requires tx in rows
      requires forall i :: 0 <= i < |confirmed| ==> confirmed[i] in rows[tx].participants
      modifies this
      ensures rows == old(rows)[tx := StoreCommitted(old(rows)[tx], set p | p in confirmed)]
      ensures missing == |set p | p in rows[tx].participants && !rows[tx].participants[p].commitStored|
      ensures ConfirmsOnly(old(rows)[tx], rows[tx], confirmed)
    {
      hide ConfirmsOnly;
      var row := rows[tx];
      var updated := row.participants;
      if row.state.Committing? {
        for i := 0 to |confirmed|
          invariant updated.Keys == row.participants.Keys
          invariant forall p :: p in updated ==>
            updated[p] == if p in confirmed[..i] then row.participants[p].(commitStored := true) else row.participants[p]
        {
          var p := confirmed[i];
          updated := updated[p := updated[p].(commitStored := true)];
        }
        assert confirmed[..|confirmed|] == confirmed;
      }
      rows := rows[tx := row.(participants := updated)];
      assert rows[tx].participants == StoreCommitted(row, set p | p in confirmed).participants;
      StoreConfirmsOnly(row, confirmed);
      missing := CountUnconfirmed(tx);
    }

    /** The `COUNT` of the participants that have not confirmed. */
    method CountUnconfirmed(tx: TxId) returns (missing: nat)
      requires tx in rows
      ensures missing == |set p | p in rows[tx].participants && !rows[tx].participants[p].commitStored|
    {
      missing := 0;
      var rest := rows[tx].participants.Keys;
      ghost var seen: set<PartId> := {};
      while rest != {}
        invariant rest <= rows[tx].participants.Keys
        invariant seen == set p | p in rows[tx].participants && p !in rest && !rows[tx].participants[p].commitStored
        invariant missing == |seen|
        decreases rest
      {
        var p :| p in rest;
        if !rows[tx].participants[p].commitStored {
          missing := missing + 1;
          seen := seen + {p};
        }
        rest := rest - {p};
      }
      assert seen == set p | p in rows[tx].participants && !rows[tx].participants[p].commitStored;
    }

    /** The expired row that completed first, if any is left. */
    method FindOldest(now: int, taken: set<TxId>) returns (oldest: Option<TxId>)
      ensures oldest.Some? ==> oldest.value in rows && oldest.value !in taken && Expired(rows[oldest.value], now)
      ensures oldest.Some? ==> forall tx :: tx in rows && tx !in taken && Expired(rows[tx], now) ==> CompletedBefore(rows, oldest.value, tx)
      ensures oldest.None? ==> forall tx :: tx in rows && tx !in taken ==> !Expired(rows[tx], now)
    {
      oldest := None;
      var rest := rows.Keys - taken;
      while rest != {}
        invariant rest <= rows.Keys - taken
        invariant oldest.Some? ==> oldest.value in rows && oldest.value !in taken && Expired(rows[oldest.value], now)
        invariant forall tx :: tx in rows && tx !in taken && tx !in rest && Expired(rows[tx], now) ==> oldest.Some? && CompletedBefore(rows, oldest.value, tx)
        decreases rest
      {
        var tx :| tx in rest;
        if Expired(rows[tx], now) && (oldest.None? || rows[tx].completedAt.value < rows[oldest.value].completedAt.value) {
          oldest := Some(tx);
        }
        rest := rest - {tx};
      }
    }

    /** One step of the `idempotency_sweep` job: the expired rows that completed first go, at most `batch`, and nothing else. */
    method SweepExpired(now: int, batch: nat) returns (swept: set<TxId>, more: bool)
      modifies this
      ensures swept <= old(rows).Keys && |swept| <= batch && (more ==> |swept| == batch)
      ensures forall tx :: tx in swept ==> Expired(old(rows)[tx], now)
      ensures forall a, b :: a in swept && b in rows && Expired(rows[b], now) ==> CompletedBefore(old(rows), a, b)
      ensures rows == old(rows) - swept
      ensures more <==> exists tx :: tx in rows && Expired(rows[tx], now)
    {
      swept := {};
      var next := FindOldest(now, swept);
      while next.Some? && |swept| < batch
        invariant rows == old(rows) && swept <= rows.Keys && |swept| <= batch
        invariant forall tx :: tx in swept ==> Expired(rows[tx], now)
        invariant next.Some? ==> next.value in rows && next.value !in swept && Expired(rows[next.value], now)
        invariant forall a, b :: a in swept && b in rows && b !in swept && Expired(rows[b], now) ==> CompletedBefore(rows, a, b)
        invariant next.Some? ==> forall tx :: tx in rows && tx !in swept && Expired(rows[tx], now) ==> CompletedBefore(rows, next.value, tx)
        invariant next.None? ==> forall tx :: tx in rows && tx !in swept ==> !Expired(rows[tx], now)
        decreases batch - |swept|
      {
        swept := swept + {next.value};
        next := FindOldest(now, swept);
      }
      rows := rows - swept;
      more := next.Some?;
    }
  }

  /** The first of two expired rows in the order of the sweep. */
  predicate CompletedBefore(rows: map<TxId, TxRow>, a: TxId, b: TxId) {
    a in rows && b in rows && rows[a].completedAt.Some? && rows[b].completedAt.Some? && rows[a].completedAt.value <= rows[b].completedAt.value
  }
}
