/**
 * chain/append.go, what a call of AppendTx does to the transaction it is made in: a refused call is the run
 * of the statements it issued, and for its caller it is as if it had not been made, or the end of the
 * transaction; a call that goes through adds one row and nothing else.
 */
module Refusals {
  import opened Bytes
  import opened Canonical
  import opened Preimages
  import opened Chain
  import opened Transactions
  import opened Appending

  // ---- which refusal ----

  /** The call gets to this point when nothing but the server or its context stands in its way. */
  predicate Reached(hs: Hashes, s: Db, t: TxId, req: Request, at: Stage) {
    && t in s.txs && s.txs[t].phase == Idle
    && (at != AtTimeout && at != AtLock ==>
          req.ledger in s.cursors && (req.ledger in s.owner ==> s.owner[req.ledger] == t))
    && (at in {AtInsert, AtInsertScan, AtUpdate} ==> hs.payload(req.payload).Ok?)
    && (at in {AtInsertScan, AtUpdate} ==> KeyFree(s, t, req.ledger, Visible(s, s.txs[t], req.ledger).lastSequence + 1))
  }

  /** Trouble at a point that the call reaches. */
  predicate Struck(hs: Hashes, s: Db, t: TxId, req: Request, trouble: Trouble) {
    trouble != Clear && Reached(hs, s, t, req, trouble.at)
  }

  /** Trouble strikes exactly when its point is reached, and then it is the refusal. */
  lemma TroubleIs(hs: Hashes, s: Db, t: TxId, req: Request, trouble: Trouble)
    ensures forall at :: Refusal(hs, s, t, req, trouble) == Some(Interrupted(at)) <==>
              trouble == ContextEnds(at) && Reached(hs, s, t, req, at)
    ensures Refusal(hs, s, t, req, trouble) == Some(StatementFailed) <==>
              trouble.ServerFails? && Reached(hs, s, t, req, trouble.at)
  {
  }

  /** The other refusals, exactly; without trouble there is one unless the call can be carried out. */
  lemma RefusalIs(hs: Hashes, s: Db, t: TxId, req: Request, trouble: Trouble)
    requires !Struck(hs, s, t, req, trouble)
    ensures Refusal(hs, s, t, req, trouble) ==
            if !(t in s.txs && s.txs[t].phase == Idle) then Some(TxUnusable)
            else if req.ledger !in s.cursors then Some(UnknownLedger)
            else if req.ledger in s.owner && s.owner[req.ledger] != t then Some(LockTimeout)
            else if hs.payload(req.payload).Err? then Some(BadPayload)
            else if !KeyFree(s, t, req.ledger, Visible(s, s.txs[t], req.ledger).lastSequence + 1)
            then Some(DuplicateKey)
            else None
  {
  }

  // ---- a refused call is a run ----

  /** The statements issued until trouble struck, and how it ended them. */
  function StruckTrace(t: TxId, req: Request, trouble: Trouble): seq<Action>
    requires trouble != Clear
  {
    var issued :=
      if trouble.at in {AtTimeout, AtLock} then []
      else if trouble.at in {AtLockScan, AtInsert} then [LockRow(t, req)]
      else [LockRow(t, req), InsertRow(t)];
    if trouble.ServerFails? then issued + [Fail(t)]
    else if issued == [] then []
    else issued + [Abandon(t)]
  }

  /** The INSERT finds the key among the committed rows or the transaction's own. */
  predicate KeyTaken(s: Db, t: TxId, l: Ledger, n: int) {
    HasKey(s.log, l, n) || (t in s.txs && HasKey(s.txs[t].rows, l, n))
  }

  /** The statements of a refused call; an INSERT that waits for a key pending elsewhere is failed in the end. */
  function RefusedTrace(hs: Hashes, s: Db, t: TxId, req: Request, trouble: Trouble): seq<Action> {
    if Struck(hs, s, t, req, trouble) then StruckTrace(t, req, trouble)
    else
      match Refusal(hs, s, t, req, trouble)
      case Some(UnknownLedger) => [LockRow(t, req)]
      case Some(LockTimeout) => [Fail(t)]
      case Some(BadPayload) => [LockRow(t, req), InsertRow(t)]
      case Some(DuplicateKey) =>
        var n := if t in s.txs then Visible(s, s.txs[t], req.ledger).lastSequence + 1 else 0;
        [LockRow(t, req), if KeyTaken(s, t, req.ledger, n) then InsertRow(t) else Fail(t)]
      case _ => []
  }

  lemma ExecOne(hs: Hashes, s: Db, a: Action)
    ensures Exec(hs, s, [a]) == Step(hs, s, a)
  {
    assert [a][1..] == [];
  }

  lemma ExecTwo(hs: Hashes, s: Db, a: Action, s1: Db, b: Action)
    requires Step(hs, s, a) == Some(s1)
    ensures Exec(hs, s, [a, b]) == Step(hs, s1, b)
  {
    assert [a, b][1..] == [b];
    ExecOne(hs, s1, b);
  }

  lemma ExecAfterTwo(hs: Hashes, s: Db, a: Action, s1: Db, b: Action, s2: Db, c: Action)
    requires Step(hs, s, a) == Some(s1) && Step(hs, s1, b) == Some(s2)
    ensures Exec(hs, s, [a, b, c]) == Step(hs, s2, c)
  {
    assert [a, b, c][1..] == [b, c];
    ExecTwo(hs, s1, b, s2, c);
  }

  lemma LockStep(hs: Hashes, s: Db, t: TxId, req: Request) returns (locked: Db)
    requires Reached(hs, s, t, req, AtLockScan)
    ensures DoLock(s, t, req) == Some(locked) && Step(hs, s, LockRow(t, req)) == Some(locked)
    ensures t in locked.txs && locked.txs[t].phase == Locked(req, Visible(s, s.txs[t], req.ledger))
  {
    locked := DoLock(s, t, req).value;
  }

  lemma RowStep(hs: Hashes, s: Db, t: TxId, req: Request) returns (locked: Db, stored: Db)
    requires Reached(hs, s, t, req, AtInsertScan)
    ensures DoLock(s, t, req) == Some(locked) && Step(hs, s, LockRow(t, req)) == Some(locked)
    ensures t in locked.txs && locked.txs[t].phase.Locked?
    ensures stored == WithRow(locked, t, req, NextTxRow(hs, s, t, req))
    ensures Step(hs, locked, InsertRow(t)) == Some(stored)
  {
    locked := LockStep(hs, s, t, req);
    var row := NextTxRow(hs, s, t, req);
    LockKeepsKeys(s, t, req, locked, req.ledger, row.columns.sequence);
    InsertStep(hs, locked, t, req, locked.txs[t].phase.cursor, hs.payload(req.payload).value, row);
    stored := WithRow(locked, t, req, row);
  }

  lemma StruckEarly(hs: Hashes, s: Db, t: TxId, req: Request, trouble: Trouble)
    requires Struck(hs, s, t, req, trouble) && trouble.at in {AtTimeout, AtLock}
    ensures Exec(hs, s, StruckTrace(t, req, trouble)) ==
            Some(Refused(hs, s, t, req, if trouble.ServerFails? then StatementFailed else Interrupted(trouble.at)))
  {
    ExecOne(hs, s, Fail(t));
  }

  lemma StruckLocked(hs: Hashes, s: Db, t: TxId, req: Request, trouble: Trouble)
    requires Struck(hs, s, t, req, trouble) && trouble.at in {AtLockScan, AtInsert}
    ensures Exec(hs, s, StruckTrace(t, req, trouble)) ==
            Some(Refused(hs, s, t, req, if trouble.ServerFails? then StatementFailed else Interrupted(trouble.at)))
  {
    var locked := LockStep(hs, s, t, req);
    LockThenStop(s, t, req, locked);
    var last := if trouble.ServerFails? then Fail(t) else Abandon(t);
    ExecTwo(hs, s, LockRow(t, req), locked, last);
    assert StruckTrace(t, req, trouble) == [LockRow(t, req), last];
  }

  lemma StoredThenStop(hs: Hashes, s: Db, t: TxId, req: Request) returns (locked: Db, stored: Db)
    requires Reached(hs, s, t, req, AtInsertScan)
    ensures Step(hs, s, LockRow(t, req)) == Some(locked) && Step(hs, locked, InsertRow(t)) == Some(stored)
    ensures Step(hs, stored, Fail(t)) == Some(Abort(s, t)) && Step(hs, stored, Abandon(t)) == Some(Torn(hs, s, t, req))
  {
    locked, stored := RowStep(hs, s, t, req);
    WriteThenStop(hs, s, t, req, locked, NextTxRow(hs, s, t, req));
  }

  lemma StruckStored(hs: Hashes, s: Db, t: TxId, req: Request, trouble: Trouble)
    requires Struck(hs, s, t, req, trouble) && trouble.at in {AtInsertScan, AtUpdate}
    ensures Exec(hs, s, StruckTrace(t, req, trouble)) ==
            Some(Refused(hs, s, t, req, if trouble.ServerFails? then StatementFailed else Interrupted(trouble.at)))
  {
    var locked, stored := StoredThenStop(hs, s, t, req);
    var last := if trouble.ServerFails? then Fail(t) else Abandon(t);
    ExecAfterTwo(hs, s, LockRow(t, req), locked, InsertRow(t), stored, last);
    assert StruckTrace(t, req, trouble) == [LockRow(t, req), InsertRow(t), last];
  }

  lemma BadPayloadRun(hs: Hashes, s: Db, t: TxId, req: Request)
    requires Reached(hs, s, t, req, AtLockScan) && hs.payload(req.payload).Err?
    ensures Exec(hs, s, [LockRow(t, req), InsertRow(t)]) == Some(Refused(hs, s, t, req, BadPayload))
  {
    var locked := LockStep(hs, s, t, req);
    LockThenStop(s, t, req, locked);
    ExecTwo(hs, s, LockRow(t, req), locked, InsertRow(t));
  }

  /** A taken key fails the INSERT. */
  lemma TakenFails(hs: Hashes, s: Db, t: TxId)
    requires t in s.txs && s.txs[t].phase.Locked? && hs.payload(s.txs[t].phase.request.payload).Ok?
    requires KeyTaken(s, t, s.txs[t].phase.request.ledger, s.txs[t].phase.cursor.lastSequence + 1)
    ensures DoInsert(hs, s, t) == Some(Abort(s, t))
  {
  }

  lemma DuplicateRun(hs: Hashes, s: Db, t: TxId, req: Request)
    requires Reached(hs, s, t, req, AtInsert)
    ensures Exec(hs, s, [LockRow(t, req), Fail(t)]) == Some(Refused(hs, s, t, req, DuplicateKey))
    ensures KeyTaken(s, t, req.ledger, Visible(s, s.txs[t], req.ledger).lastSequence + 1) ==>
              Exec(hs, s, [LockRow(t, req), InsertRow(t)]) == Some(Refused(hs, s, t, req, DuplicateKey))
  {
    var locked := LockStep(hs, s, t, req);
    LockThenStop(s, t, req, locked);
    ExecTwo(hs, s, LockRow(t, req), locked, Fail(t));
    if KeyTaken(s, t, req.ledger, Visible(s, s.txs[t], req.ledger).lastSequence + 1) {
      TakenFails(hs, locked, t);
      ExecTwo(hs, s, LockRow(t, req), locked, InsertRow(t));
    }
  }

  /** Every refusal is the run of the statements issued, and leaves what that run leaves. */
  lemma RefusedIsRun(hs: Hashes, s: Db, t: TxId, req: Request, trouble: Trouble)
    requires Refusal(hs, s, t, req, trouble).Some?
    ensures Exec(hs, s, RefusedTrace(hs, s, t, req, trouble)) ==
            Some(Refused(hs, s, t, req, Refusal(hs, s, t, req, trouble).value))
  {
    TroubleIs(hs, s, t, req, trouble);
    if Struck(hs, s, t, req, trouble) {
      if trouble.at in {AtTimeout, AtLock} {
        StruckEarly(hs, s, t, req, trouble);
      } else if trouble.at in {AtLockScan, AtInsert} {
        StruckLocked(hs, s, t, req, trouble);
      } else {
        StruckStored(hs, s, t, req, trouble);
      }
    } else {
      RefusalIs(hs, s, t, req, trouble);
      match Refusal(hs, s, t, req, trouble).value
      case UnknownLedger => ExecOne(hs, s, LockRow(t, req));
      case LockTimeout => ExecOne(hs, s, Fail(t));
      case BadPayload => BadPayloadRun(hs, s, t, req);
      case DuplicateKey => DuplicateRun(hs, s, t, req);
      case _ =>
    }
  }

  // ---- what a refused call leaves its caller ----

  /** After these the server has thrown the whole transaction away. */
  predicate Fatal(e: AppendError) {
    e == LockTimeout || e == DuplicateKey || e == StatementFailed
  }

  /** The committed tables, the other transactions and their locks are as before. */
  ghost predicate OthersAsBefore(s: Db, s': Db, t: TxId) {
    && s'.cursors == s.cursors && s'.log == s.log && s'.order == s.order
    && s'.txs.Keys == s.txs.Keys && (forall u :: u in s.txs && u != t ==> s'.txs[u] == s.txs[u])
    && (forall l :: HeldByOther(s, t, l) <==> HeldByOther(s', t, l))
    && (forall l :: HeldByOther(s, t, l) ==> s'.owner[l] == s.owner[l])
  }

  lemma TearsReached(hs: Hashes, s: Db, t: TxId, req: Request, trouble: Trouble)
    requires Refusal(hs, s, t, req, trouble).Some?
    ensures var e := Refusal(hs, s, t, req, trouble).value;
            && (Tears(e) ==> Reached(hs, s, t, req, AtUpdate))
            && (KeepsLock(e) ==> Reached(hs, s, t, req, AtLockScan))
            && (Fatal(e) ==> t in s.txs)
            && (e != TxUnusable ==> t in s.txs && s.txs[t].phase == Idle)
            && e != CommitFailed
  {
    TroubleIs(hs, s, t, req, trouble);
  }

  /** All but the transaction's own rows and the ledgers it is behind on. */
  predicate SameButRows(before: Tx, after: Tx) {
    after == before.(rows := after.rows, behind := after.behind)
  }

  /** What a refusal leaves of the transaction and its locks. */
  ghost predicate Left(hs: Hashes, s: Db, t: TxId, req: Request, e: AppendError, s': Db)
    requires t in s.txs && t in s'.txs
  {
    if Fatal(e) then s'.txs[t].phase.Failed? && forall l :: !Owns(s', t, l)
    else if Tears(e) then
      && s'.owner == s.owner[req.ledger := t]
      && SameButRows(s.txs[t], s'.txs[t])
      && hs.payload(req.payload).Ok?
      && RowStored(s.txs[t], s'.txs[t], LogRow(req.ledger, NextTxRow(hs, s, t, req)))
    else if e in {BadPayload, Interrupted(AtLockScan), Interrupted(AtInsert)} then
      s'.txs == s.txs && s'.owner == s.owner[req.ledger := t]
    else s' == s
  }

  lemma HarmlessLeaves(hs: Hashes, s: Db, t: TxId, req: Request, e: AppendError)
    requires !Tears(e) && !Fatal(e) && e != CommitFailed && t in s.txs
    requires KeepsLock(e) ==> !HeldByOther(s, t, req.ledger)
    ensures var s' := Refused(hs, s, t, req, e);
            OthersAsBefore(s, s', t) && Left(hs, s, t, req, e, s')
  {
  }

  lemma FatalLeaves(hs: Hashes, s: Db, t: TxId, req: Request, e: AppendError)
    requires Fatal(e) && t in s.txs
    ensures var s' := Refused(hs, s, t, req, e);
            OthersAsBefore(s, s', t) && Left(hs, s, t, req, e, s')
  {
  }

  lemma TornLeaves(hs: Hashes, s: Db, t: TxId, req: Request, e: AppendError)
    requires Tears(e) && t in s.txs && !HeldByOther(s, t, req.ledger) && hs.payload(req.payload).Ok?
    ensures var s' := Refused(hs, s, t, req, e);
            OthersAsBefore(s, s', t) && Left(hs, s, t, req, e, s')
  {
  }

  /** Only a fatal error loses what the caller had; what is new is the lock, and the row when the error tears. */
  lemma RefusedLeaves(hs: Hashes, s: Db, t: TxId, req: Request, trouble: Trouble)
    requires t in s.txs && Refusal(hs, s, t, req, trouble).Some?
    ensures var e := Refusal(hs, s, t, req, trouble).value;
            var s' := Refused(hs, s, t, req, e);
            OthersAsBefore(s, s', t) && Left(hs, s, t, req, e, s')
  {
    var e := Refusal(hs, s, t, req, trouble).value;
    TearsReached(hs, s, t, req, trouble);
    if Fatal(e) {
      FatalLeaves(hs, s, t, req, e);
    } else if Tears(e) {
      TornLeaves(hs, s, t, req, e);
    } else {
      HarmlessLeaves(hs, s, t, req, e);
    }
  }

  lemma ReleaseLock(owner: map<Ledger, TxId>, l: Ledger, t: TxId)
    requires l in owner ==> owner[l] == t
    ensures Release(owner[l := t], t) == Release(owner, t)
  {
  }

  /** A rollback after any refusal is a rollback without the call. */
  lemma RollbackAfterRefusal(hs: Hashes, s: Db, t: TxId, req: Request, trouble: Trouble)
    requires t in s.txs && Refusal(hs, s, t, req, trouble).Some?
    ensures DoRollback(Refused(hs, s, t, req, Refusal(hs, s, t, req, trouble).value), t) == DoRollback(s, t)
  {
    var e := Refusal(hs, s, t, req, trouble).value;
    var s' := Refused(hs, s, t, req, e);
    TearsReached(hs, s, t, req, trouble);
    RefusedLeaves(hs, s, t, req, trouble);
    if KeepsLock(e) {
      ReleaseLock(s.owner, req.ledger, t);
    }
    assert s'.txs - {t} == s.txs - {t};
    assert Release(s'.owner, t) == Release(s.owner, t);
  }

  /**
   * What a commit after a refusal stores: what it would have stored without the call, unless the error tears,
   * and nothing at all after a fatal one.
   */
  lemma CommitAfterRefusal(hs: Hashes, s: Db, t: TxId, req: Request, trouble: Trouble)
    requires t in s.txs && Refusal(hs, s, t, req, trouble).Some?
    ensures var e := Refusal(hs, s, t, req, trouble).value;
            var s' := Refused(hs, s, t, req, e);
            && (Fatal(e) ==> DoCommit(s', t) == DoRollback(s, t))
            && (!Fatal(e) && !Tears(e) ==> DoCommit(s', t) == DoCommit(s, t))
            && (Tears(e) ==>
                  var row := LogRow(req.ledger, NextTxRow(hs, s, t, req));
                  DoCommit(s', t) == Some(DoCommit(s, t).value.(log := s.log + s.txs[t].rows + [row])))
  {
    var e := Refusal(hs, s, t, req, trouble).value;
    var s' := Refused(hs, s, t, req, e);
    TearsReached(hs, s, t, req, trouble);
    RollbackAfterRefusal(hs, s, t, req, trouble);
    if KeepsLock(e) {
      ReleaseLock(s.owner, req.ledger, t);
      assert s'.txs - {t} == s.txs - {t};
    }
    if Tears(e) {
      assert s.log + (s.txs[t].rows + [LogRow(req.ledger, NextTxRow(hs, s, t, req))]) ==
             s.log + s.txs[t].rows + [LogRow(req.ledger, NextTxRow(hs, s, t, req))];
    }
  }

  // ---- a call that goes through ----

  /** Its transaction afterwards: one row, its cursor and its request more. */
  lemma AppendTxAdds(hs: Hashes, s: Db, t: TxId, req: Request, trouble: Trouble) returns (s': Db)
    requires Refusal(hs, s, t, req, trouble) == None
    ensures hs.payload(req.payload).Ok? && t in s.txs
    ensures Exec(hs, s, AppendTrace(t, req)) == Some(s') && OthersAsBefore(s, s', t)
    ensures s'.owner == s.owner[req.ledger := t]
    ensures var row := NextTxRow(hs, s, t, req);
            s'.txs[t] == Tx(
              s.txs[t].cursors[req.ledger := Cursor(row.columns.sequence, row.entryHash)],
              s.txs[t].rows + [LogRow(req.ledger, row)],
              s.txs[t].script + [req],
              Idle,
              s.txs[t].behind - {req.ledger})
  {
    RefusalIs(hs, s, t, req, Clear);
    TroubleIs(hs, s, t, req, trouble);
    var locked, stored := RowStep(hs, s, t, req);
    s' := DoAdvance(stored, t).value;
    AppendRun(hs, s, t, req, locked, locked.txs[t].phase.cursor, NextTxRow(hs, s, t, req), s');
    assert (s.txs[t].behind + {req.ledger}) - {req.ledger} == s.txs[t].behind - {req.ledger};
  }

  /**
   * The row itself: numbered and linked after what the transaction sees, its payload hash that of the canonical
   * payload, its entry hash that of the object of its columns.
   */
  lemma RowIs(sha: Sha256, s: Db, t: TxId, req: Request)
    requires t in s.txs && req.payload.Document?
    ensures var seen, row := Visible(s, s.txs[t], req.ledger), NextTxRow(Sha256Hashes(sha), s, t, req);
            && row.columns.sequence == seen.lastSequence + 1
            && row.columns.prevHash == seen.lastHash
            && row.columns.eventType == req.eventType
            && row.columns.payloadHash == EncodeHex(sha(Canonicalize(req.payload.value)))
            && row.entryHash == EncodeHex(sha(Canonicalize(EntryObject(req.ledger, row.columns))))
  {
    PreimageIsCanonical(req.ledger, NextTxRow(Sha256Hashes(sha), s, t, req).columns);
  }

  /** A payload that is no JSON document is refused, and only that. */
  lemma PayloadRefused(sha: Sha256, s: Db, t: TxId, req: Request)
    requires Reached(Sha256Hashes(sha), s, t, req, AtLockScan)
    ensures Refusal(Sha256Hashes(sha), s, t, req, Clear) == Some(BadPayload) <==> req.payload == Malformed
  {
    RefusalIs(Sha256Hashes(sha), s, t, req, Clear);
  }

  /** However a transaction ends, its locks are free at once and the others' are not touched. */
  lemma EndFreesLocks(hs: Hashes, s: Db, t: TxId, a: Action, s': Db)
    requires a in {Fail(t), Rollback(t), Commit(t)} && Step(hs, s, a) == Some(s')
    ensures forall l :: !Owns(s', t, l)
    ensures forall l :: HeldByOther(s, t, l) <==> HeldByOther(s', t, l)
    ensures forall l :: HeldByOther(s, t, l) ==> s'.owner[l] == s.owner[l]
  {
  }
}
