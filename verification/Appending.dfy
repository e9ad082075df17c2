/**
 * chain/append.go, one append at a time: when AppendTx and Append are refused, what they leave behind
 * otherwise, and why any interleaving of them comes to the same as some order of single appends.
 */
module Appending {
  import opened Bytes
  import opened Chain
  import opened Transactions

  // ---- one AppendTx ----

  /**
   * The points of AppendTx in order: the lock timeout, the row lock and the Scan of its answer, the
   * INSERT and the Scan of its answer, the UPDATE.
   */
  datatype Stage = AtTimeout | AtLock | AtLockScan | AtInsert | AtInsertScan | AtUpdate

  /** What goes wrong from outside: the server fails a statement, or the call's context ends just before that point. */
  datatype Trouble = Clear | ServerFails(at: Stage) | ContextEnds(at: Stage)

  datatype AppendError =
    | TxUnusable
    | UnknownLedger
    | LockTimeout
    | BadPayload
    | DuplicateKey
    | StatementFailed
    | Interrupted(at: Stage)
    | CommitFailed

  function TroubleAt(trouble: Trouble, stage: Stage): Option<AppendError> {
    match trouble
    case Clear => None
    case ServerFails(at) => if at == stage then Some(StatementFailed) else None
    case ContextEnds(at) => if at == stage then Some(Interrupted(stage)) else None
  }

  /** What the error text of a call interrupted there names. */
  function Named(at: Stage): string {
    match at
    case AtTimeout => "set lock_timeout"
    case AtLock => "lock ledger"
    case AtLockScan => "lock ledger"
    case AtInsert => "insert audit_log"
    case AtInsertScan => "insert audit_log"
    case AtUpdate => "update audit_ledgers"
  }

  predicate KeyFree(s: Db, t: TxId, l: Ledger, n: int) {
    && !HasKey(s.log, l, n)
    && (t in s.txs ==> !HasKey(s.txs[t].rows, l, n))
    && !PendingElsewhere(s, t, l, n)
  }

  /** AppendTx can be called: the transaction is not inside another AppendTx. */
  predicate Callable(s: Db, t: TxId) {
    t in s.txs ==> s.txs[t].phase.Idle? || s.txs[t].phase.Failed?
  }

  predicate Usable(s: Db, t: TxId) {
    t in s.txs && s.txs[t].phase.Idle?
  }

  /** The lock is to be had: a known ledger whose row no other transaction holds. */
  predicate Lockable(s: Db, t: TxId, l: Ledger) {
    l in s.cursors && !HeldByOther(s, t, l)
  }

  function NextSequence(s: Db, t: TxId, l: Ledger): int
    requires t in s.txs
  {
    Visible(s, s.txs[t], l).lastSequence + 1
  }

  /** Up to the lock: None when it is taken. */
  function LockRefusal(s: Db, t: TxId, req: Request, trouble: Trouble): Option<AppendError> {
    if !Usable(s, t) then Some(TxUnusable)
    else if TroubleAt(trouble, AtTimeout).Some? then TroubleAt(trouble, AtTimeout)
    else if TroubleAt(trouble, AtLock).Some? then TroubleAt(trouble, AtLock)
    else if req.ledger !in s.cursors then Some(UnknownLedger)
    else if !Lockable(s, t, req.ledger) then Some(LockTimeout)
    else TroubleAt(trouble, AtLockScan)
  }

  /** When AppendTx fails, and how; None when it goes through. */
  function Refusal(hs: Hashes, s: Db, t: TxId, req: Request, trouble: Trouble): Option<AppendError> {
    if LockRefusal(s, t, req, trouble).Some? then LockRefusal(s, t, req, trouble)
    else if hs.payload(req.payload).Err? then Some(BadPayload)
    else if TroubleAt(trouble, AtInsert).Some? then TroubleAt(trouble, AtInsert)
    else if !KeyFree(s, t, req.ledger, NextSequence(s, t, req.ledger)) then Some(DuplicateKey)
    else if TroubleAt(trouble, AtInsertScan).Some? then TroubleAt(trouble, AtInsertScan)
    else TroubleAt(trouble, AtUpdate)
  }

  /** The row the transaction's next append writes. */
  function NextTxRow(hs: Hashes, s: Db, t: TxId, req: Request): Row
    requires t in s.txs && hs.payload(req.payload).Ok?
  {
    NextRow(hs, req.ledger, Visible(s, s.txs[t], req.ledger), Entry(req.eventType, hs.payload(req.payload).value))
  }

  function Holding(s: Db, t: TxId, l: Ledger): Db {
    s.(owner := s.owner[l := t])
  }

  /**
   * What a call leaves that returned after its row was stored and before the UPDATE: the lock, the row, and a
   * cursor behind it.
   */
  function Torn(hs: Hashes, s: Db, t: TxId, req: Request): Db
    requires t in s.txs && hs.payload(req.payload).Ok?
  {
    var tx := s.txs[t];
    var rows := tx.rows + [LogRow(req.ledger, NextTxRow(hs, s, t, req))];
    SetTx(s, t, tx.(rows := rows, behind := tx.behind + {req.ledger}))
      .(owner := s.owner[req.ledger := t])
  }

  /** What a refused AppendTx leaves. */
  function Refused(hs: Hashes, s: Db, t: TxId, req: Request, e: AppendError): Db {
    match e
    case TxUnusable => s
    case UnknownLedger => s
    case BadPayload => Holding(s, t, req.ledger)
    case Interrupted(at) =>
      (match at
       case AtTimeout => s
       case AtLock => s
       case AtLockScan => Holding(s, t, req.ledger)
       case AtInsert => Holding(s, t, req.ledger)
       case _ => if t in s.txs && hs.payload(req.payload).Ok? then Torn(hs, s, t, req) else s)
    case _ => Abort(s, t)
  }

  /** How trouble ends a call: a failed statement costs the transaction everything, an interruption nothing. */
  function EndCall(s: Db, t: TxId, e: AppendError): Db
    requires t in s.txs
  {
    if e == StatementFailed || e == DuplicateKey then Abort(s, t) else SetTx(s, t, s.txs[t].(phase := Idle))
  }

  /** The statements of one AppendTx that goes through. */
  function AppendTrace(t: TxId, req: Request): seq<Action> {
    [LockRow(t, req), InsertRow(t), AdvanceCursor(t)]
  }

  /** Appender.Append run alone: its own transaction around one AppendTx. */
  function AppendAlone(t: TxId, r: Request): seq<Action> {
    [Begin(t), LockRow(t, r), InsertRow(t), AdvanceCursor(t), Commit(t)]
  }

  lemma ExecThree(hs: Hashes, s: Db, s1: Db, s2: Db, s3: Db, acts: seq<Action>)
    requires |acts| == 3
    requires Step(hs, s, acts[0]) == Some(s1) && Step(hs, s1, acts[1]) == Some(s2) && Step(hs, s2, acts[2]) == Some(s3)
    ensures Exec(hs, s, acts) == Some(s3)
  {
    assert Exec(hs, s2, acts[2..]) == Some(s3);
    assert acts[1..][1..] == acts[2..];
    assert Exec(hs, s1, acts[1..]) == Some(s3);
  }

  lemma {:induction false} ExecConcat(hs: Hashes, s: Db, a: seq<Action>, b: seq<Action>)
    requires Exec(hs, s, a).Some?
    ensures Exec(hs, s, a + b) == Exec(hs, Exec(hs, s, a).value, b)
    decreases |a|
  {
    if a == [] {
      assert a + b == b;
    } else {
      assert (a + b)[1..] == a[1..] + b;
      ExecConcat(hs, Step(hs, s, a[0]).value, a[1..], b);
    }
  }

  lemma {:induction false} NoCommitOrderly(hs: Hashes, s: Db, acts: seq<Action>)
    requires forall i :: 0 <= i < |acts| ==> !acts[i].Commit?
    ensures Orderly(hs, s, acts)
    decreases |acts|
  {
    if acts != [] && Step(hs, s, acts[0]).Some? {
      NoCommitOrderly(hs, Step(hs, s, acts[0]).value, acts[1..]);
    }
  }

  lemma {:induction false} OrderlyConcat(hs: Hashes, s: Db, a: seq<Action>, b: seq<Action>)
    requires Exec(hs, s, a).Some? && Orderly(hs, s, a) && Orderly(hs, Exec(hs, s, a).value, b)
    ensures Orderly(hs, s, a + b)
    decreases |a|
  {
    if a == [] {
      assert a + b == b;
    } else {
      assert (a + b)[1..] == a[1..] + b;
      OrderlyConcat(hs, Step(hs, s, a[0]).value, a[1..], b);
    }
  }

  /** A transaction that locked and then stopped has only the lock; one the server failed has nothing. */
  lemma LockThenStop(s: Db, t: TxId, req: Request, s': Db)
    requires DoLock(s, t, req) == Some(s') && s'.txs[t].phase.Locked?
    ensures SetTx(s', t, s'.txs[t].(phase := Idle)) == Holding(s, t, req.ledger)
    ensures Abort(s', t) == Abort(s, t)
  {
    assert s'.txs[t := s.txs[t]] == s.txs;
    assert Release(s'.owner, t) == Release(s.owner, t);
    assert Abort(s', t).txs == Abort(s, t).txs;
  }

  /** Likewise after the INSERT. */
  lemma WriteThenStop(hs: Hashes, s: Db, t: TxId, req: Request, s1: Db, row: Row)
    requires DoLock(s, t, req) == Some(s1) && s1.txs[t].phase.Locked? && hs.payload(req.payload).Ok?
    requires row == NextTxRow(hs, s, t, req)
    ensures var s2 := WithRow(s1, t, req, row);
            && SetTx(s2, t, s2.txs[t].(phase := Idle)) == Torn(hs, s, t, req)
            && Abort(s2, t) == Abort(s, t)
  {
    var s2 := WithRow(s1, t, req, row);
    assert s2.txs[t := s2.txs[t].(phase := Idle)] == Torn(hs, s, t, req).txs;
    assert Release(s2.owner, t) == Release(s.owner, t);
    assert Abort(s2, t).txs == Abort(s, t).txs;
  }

  /** Trouble between lock and INSERT, told from the state before the lock. */
  lemma EndAfterLock(hs: Hashes, s: Db, t: TxId, req: Request, locked: Db, e: AppendError)
    requires DoLock(s, t, req) == Some(locked) && locked.txs[t].phase.Locked?
    requires e in {StatementFailed, DuplicateKey, BadPayload, Interrupted(AtLockScan), Interrupted(AtInsert)}
    ensures EndCall(locked, t, e) == Refused(hs, s, t, req, e)
  {
    LockThenStop(s, t, req, locked);
  }

  /** Trouble between INSERT and the end. */
  lemma EndAfterInsert(hs: Hashes, s: Db, t: TxId, req: Request, locked: Db, row: Row, e: AppendError)
    requires DoLock(s, t, req) == Some(locked) && locked.txs[t].phase.Locked? && hs.payload(req.payload).Ok?
    requires row == NextTxRow(hs, s, t, req)
    requires e in {StatementFailed, Interrupted(AtInsertScan), Interrupted(AtUpdate)}
    ensures EndCall(WithRow(locked, t, req, row), t, e) == Refused(hs, s, t, req, e)
  {
    WriteThenStop(hs, s, t, req, locked, row);
  }

  /** INSERT of the next row under a free key. */
  lemma InsertStep(hs: Hashes, s: Db, t: TxId, req: Request, cursor: Cursor, h: GoString, row: Row)
    requires t in s.txs && s.txs[t].phase == Locked(req, cursor) && hs.payload(req.payload) == Ok(h)
    requires row == NextRow(hs, req.ledger, cursor, Entry(req.eventType, h))
    requires KeyFree(s, t, req.ledger, row.columns.sequence)
    ensures DoInsert(hs, s, t) == Some(WithRow(s, t, req, row))
  {
  }

  /** Taking the lock frees and takes no key. */
  lemma LockKeepsKeys(s: Db, t: TxId, req: Request, s': Db, l: Ledger, n: int)
    requires DoLock(s, t, req) == Some(s') && s'.txs[t].phase.Locked?
    ensures KeyFree(s', t, l, n) <==> KeyFree(s, t, l, n)
  {
    assert forall u :: u in s.txs && u != t ==> s'.txs[u] == s.txs[u];
  }

  lemma AppendRun(hs: Hashes, s: Db, t: TxId, req: Request, s1: Db, cursor: Cursor, row: Row, s3: Db)
    requires DoLock(s, t, req) == Some(s1) && t in s1.txs && s1.txs[t].phase == Locked(req, cursor)
    requires hs.payload(req.payload).Ok?
    requires row == NextRow(hs, req.ledger, cursor, Entry(req.eventType, hs.payload(req.payload).value))
    requires KeyFree(s, t, req.ledger, row.columns.sequence)
    requires DoAdvance(WithRow(s1, t, req, row), t) == Some(s3)
    ensures Exec(hs, s, AppendTrace(t, req)) == Some(s3)
  {
    LockKeepsKeys(s, t, req, s1, req.ledger, row.columns.sequence);
    InsertStep(hs, s1, t, req, cursor, hs.payload(req.payload).value, row);
    ExecThree(hs, s, s1, WithRow(s1, t, req, row), s3, AppendTrace(t, req));
  }

  /** The interruptions at which the row is stored and the cursor is not. */
  predicate Tears(e: AppendError) {
    e == Interrupted(AtInsertScan) || e == Interrupted(AtUpdate)
  }

  /** A call that got past its INSERT had the lock, a payload and a free key. */
  lemma PastInsert(hs: Hashes, s: Db, t: TxId, req: Request, trouble: Trouble)
    requires Refusal(hs, s, t, req, trouble).Some? && Tears(Refusal(hs, s, t, req, trouble).value)
    ensures Usable(s, t) && Lockable(s, t, req.ledger) && hs.payload(req.payload).Ok?
    ensures KeyFree(s, t, req.ledger, NextSequence(s, t, req.ledger))
  {
  }

  lemma InsertThenStop(hs: Hashes, s: Db, t: TxId, req: Request)
    requires Usable(s, t) && Lockable(s, t, req.ledger) && hs.payload(req.payload).Ok?
    requires KeyFree(s, t, req.ledger, NextSequence(s, t, req.ledger))
    ensures Exec(hs, s, [LockRow(t, req), InsertRow(t), Abandon(t)]) == Some(Torn(hs, s, t, req))
  {
    var s1 := DoLock(s, t, req).value;
    var row := NextTxRow(hs, s, t, req);
    var s2 := WithRow(s1, t, req, row);
    LockKeepsKeys(s, t, req, s1, req.ledger, row.columns.sequence);
    InsertStep(hs, s1, t, req, s1.txs[t].phase.cursor, hs.payload(req.payload).value, row);
    WriteThenStop(hs, s, t, req, s1, row);
    ExecThree(hs, s, s1, s2, Torn(hs, s, t, req), [LockRow(t, req), InsertRow(t), Abandon(t)]);
  }

  /** A call that returned with its row stored and the cursor not advanced is the run that abandons there. */
  lemma TornRun(hs: Hashes, s: Db, t: TxId, req: Request, at: Stage)
    requires Tears(Interrupted(at)) && Refusal(hs, s, t, req, ContextEnds(at)) == Some(Interrupted(at))
    ensures Exec(hs, s, [LockRow(t, req), InsertRow(t), Abandon(t)]) == Some(Torn(hs, s, t, req))
    ensures Refused(hs, s, t, req, Interrupted(at)) == Torn(hs, s, t, req)
  {
    PastInsert(hs, s, t, req, ContextEnds(at));
    InsertThenStop(hs, s, t, req);
  }

  /** What a transaction has written and where it is behind, after a refused call. */
  predicate RowStored(before: Tx, after: Tx, row: LogRow) {
    after.rows == before.rows + [row] && after.behind == before.behind + {row.ledger}
  }

  /** Nothing new was stored: all is as before, or the server has thrown everything away. */
  predicate NothingStored(before: Tx, after: Tx) {
    || (after.rows == before.rows && after.behind == before.behind)
    || (after.phase.Failed? && after.rows == [] && after.behind == {})
  }

  lemma TornStores(hs: Hashes, s: Db, t: TxId, req: Request)
    requires t in s.txs && hs.payload(req.payload).Ok?
    ensures RowStored(s.txs[t], Torn(hs, s, t, req).txs[t], LogRow(req.ledger, NextTxRow(hs, s, t, req)))
  {
  }

  lemma OthersStoreNothing(hs: Hashes, s: Db, t: TxId, req: Request, e: AppendError)
    requires t in s.txs && !Tears(e)
    ensures t in Refused(hs, s, t, req, e).txs && NothingStored(s.txs[t], Refused(hs, s, t, req, e).txs[t])
  {
  }

  /**
   * Of all that AppendTx can return, only an interruption at the Scan of the INSERT's answer or at the
   * UPDATE leaves its row stored and puts the transaction behind.
   */
  lemma OnlyTwoInterruptionsTear(hs: Hashes, s: Db, t: TxId, req: Request, trouble: Trouble)
    requires t in s.txs && Refusal(hs, s, t, req, trouble).Some?
    ensures var e := Refusal(hs, s, t, req, trouble).value;
            var s' := Refused(hs, s, t, req, e);
            && t in s'.txs
            && (Tears(e) ==>
                  && hs.payload(req.payload).Ok?
                  && RowStored(s.txs[t], s'.txs[t], LogRow(req.ledger, NextTxRow(hs, s, t, req)))
                  && Named(e.at) == if e.at == AtUpdate then "update audit_ledgers" else "insert audit_log")
            && (!Tears(e) ==> NothingStored(s.txs[t], s'.txs[t]))
            && (e == Interrupted(AtTimeout) ==> Named(e.at) == "set lock_timeout")
            && (e == Interrupted(AtLock) || e == Interrupted(AtLockScan) ==> Named(e.at) == "lock ledger")
  {
    var e := Refusal(hs, s, t, req, trouble).value;
    if Tears(e) {
      PastInsert(hs, s, t, req, trouble);
      TornStores(hs, s, t, req);
    } else {
      OthersStoreNothing(hs, s, t, req, e);
    }
  }

  /**
   * An interruption that names the INSERT does not tell the caller whether the row was stored: where a
   * call would go through, two interruptions have that text, and a commit is sound after only one.
   */
  lemma InsertErrorIsAmbiguous(hs: Hashes, s: Db, t: TxId, req: Request)
    requires Refusal(hs, s, t, req, Clear) == None && s.txs[t].behind == {}
    ensures Refusal(hs, s, t, req, ContextEnds(AtInsert)) == Some(Interrupted(AtInsert))
    ensures Refusal(hs, s, t, req, ContextEnds(AtInsertScan)) == Some(Interrupted(AtInsertScan))
    ensures Named(AtInsert) == "insert audit_log" && Named(AtInsertScan) == "insert audit_log"
    ensures !TornCommit(Refused(hs, s, t, req, Interrupted(AtInsert)), Commit(t))
    ensures TornCommit(Refused(hs, s, t, req, Interrupted(AtInsertScan)), Commit(t))
  {
    assert req.ledger in Torn(hs, s, t, req).txs[t].behind;
  }

  /** In a sound state the next key is free for whoever can take the lock and is not behind. */
  lemma NextKeyFree(hs: Hashes, s: Db, t: TxId, req: Request)
    requires Inv(hs, s) && Usable(s, t) && Lockable(s, t, req.ledger)
    ensures KeyFree(s, t, req.ledger, NextSequence(s, t, req.ledger)) <==> req.ledger !in s.txs[t].behind
  {
    var s1 := DoLock(s, t, req).value;
    LockOk(hs, s, t, req, s1);
    var n := NextSequence(s, t, req.ledger);
    if req.ledger in s.txs[t].behind {
      assert TxOk(hs, s, t, s.txs[t]) && Owns(s, t, req.ledger) && OwnedOk(hs, s, s.txs[t], req.ledger);
      BehindHasKey(s, s.txs[t], req.ledger);
    } else {
      NoKey(hs, s1, t, req.ledger, n);
      NoKeyElsewhere(hs, s1, t, req.ledger, n);
      LockKeepsKeys(s, t, req, s1, req.ledger, n);
    }
  }

  lemma LockRefusalNone(s: Db, t: TxId, req: Request, trouble: Trouble)
    requires LockRefusal(s, t, req, trouble) == None
    ensures Usable(s, t) && Lockable(s, t, req.ledger)
  {
  }

  /** The refusal is for a duplicate key when the call gets as far as its INSERT and the key is taken. */
  lemma DuplicateMeans(hs: Hashes, s: Db, t: TxId, req: Request, trouble: Trouble)
    requires LockRefusal(s, t, req, trouble) == None && t in s.txs
    ensures Refusal(hs, s, t, req, trouble) == Some(DuplicateKey) <==>
              && hs.payload(req.payload).Ok? && TroubleAt(trouble, AtInsert) == None
              && !KeyFree(s, t, req.ledger, NextSequence(s, t, req.ledger))
  {
  }

  lemma LockNeverDuplicate(s: Db, t: TxId, req: Request, trouble: Trouble)
    ensures LockRefusal(s, t, req, trouble) != Some(DuplicateKey)
  {
  }

  /**
   * On sound tables AppendTx meets a taken key exactly when an earlier call in the same transaction
   * returned with its row stored and the cursor of that ledger not advanced.
   */
  lemma DuplicateOnlyBehind(hs: Hashes, s: Db, t: TxId, req: Request, trouble: Trouble)
    requires Inv(hs, s)
    ensures Refusal(hs, s, t, req, trouble) == Some(DuplicateKey) <==>
              && LockRefusal(s, t, req, trouble) == None
              && hs.payload(req.payload).Ok?
              && TroubleAt(trouble, AtInsert) == None
              && req.ledger in s.txs[t].behind
  {
    LockNeverDuplicate(s, t, req, trouble);
    if LockRefusal(s, t, req, trouble) == None {
      LockRefusalNone(s, t, req, trouble);
      DuplicateMeans(hs, s, t, req, trouble);
      NextKeyFree(hs, s, t, req);
    }
  }

  // ---- one Append ----

  /** A transaction id that nothing refers to. */
  predicate NewTx(s: Db, t: TxId) {
    t !in s.txs && forall l :: l in s.owner ==> s.owner[l] != t
  }

  function Begun(s: Db, t: TxId): Db {
    SetTx(s, t, NewTransaction())
  }

  /** The row the next append writes. */
  function RowFor(hs: Hashes, s: Db, req: Request): Row
    requires req.ledger in s.cursors && hs.payload(req.payload).Ok?
  {
    NextRow(hs, req.ledger, s.cursors[req.ledger], Entry(req.eventType, hs.payload(req.payload).value))
  }

  /** The tables after one committed append. */
  function Extended(hs: Hashes, s: Db, req: Request): Db
    requires req.ledger in s.cursors && hs.payload(req.payload).Ok?
  {
    var row := RowFor(hs, s, req);
    s.(cursors := s.cursors[req.ledger := Cursor(row.columns.sequence, row.entryHash)],
       log := s.log + [LogRow(req.ledger, row)],
       order := s.order + [req])
  }

  /** The rows a ledger gains by it. */
  function Gained(hs: Hashes, s: Db, req: Request, l: Ledger): seq<Row>
    requires req.ledger in s.cursors && hs.payload(req.payload).Ok?
  {
    if l == req.ledger then [RowFor(hs, s, req)] else []
  }

  lemma ReleaseNew(s: Db, t: TxId, l: Ledger)
    requires NewTx(s, t)
    ensures Release(s.owner, t) == s.owner && Release(Release(s.owner, t), t) == s.owner
    ensures l !in s.owner ==> Release(s.owner[l := t], t) == s.owner
  {
  }

  /** Errors after which the transaction goes on holding the ledger's row. */
  predicate KeepsLock(e: AppendError) {
    e == BadPayload || (e.Interrupted? && e.at != AtTimeout && e.at != AtLock)
  }

  lemma KeepsLockMeans(hs: Hashes, s: Db, t: TxId, req: Request, trouble: Trouble)
    requires Refusal(hs, s, t, req, trouble).Some? && KeepsLock(Refusal(hs, s, t, req, trouble).value)
    ensures !HeldByOther(s, t, req.ledger)
  {
  }

  /** A refused call in a new transaction has touched that transaction and its lock alone. */
  lemma RefusedIsLocal(hs: Hashes, s: Db, t: TxId, req: Request, e: AppendError)
    requires NewTx(s, t) && (KeepsLock(e) ==> req.ledger !in s.owner)
    ensures DoRollback(Refused(hs, Begun(s, t), t, req, e), t) == Some(s)
  {
    ReleaseNew(s, t, req.ledger);
    var s' := Refused(hs, Begun(s, t), t, req, e);
    assert s'.txs - {t} == s.txs;
  }

  /** Rolling a refused append back leaves the tables as if it had never begun. */
  lemma BeginThenGiveUp(hs: Hashes, s: Db, t: TxId, req: Request, trouble: Trouble)
    requires NewTx(s, t) && Refusal(hs, Begun(s, t), t, req, trouble).Some?
    ensures DoRollback(Refused(hs, Begun(s, t), t, req, Refusal(hs, Begun(s, t), t, req, trouble).value), t) == Some(s)
  {
    var e := Refusal(hs, Begun(s, t), t, req, trouble).value;
    if KeepsLock(e) {
      KeepsLockMeans(hs, Begun(s, t), t, req, trouble);
    }
    RefusedIsLocal(hs, s, t, req, e);
  }

  /** A transaction that did one append and has not committed. */
  function Uncommitted(hs: Hashes, s: Db, t: TxId, req: Request): Db
    requires req.ledger in s.cursors && hs.payload(req.payload).Ok?
  {
    var row := RowFor(hs, s, req);
    var cursor := Cursor(row.columns.sequence, row.entryHash);
    SetTx(s, t, Tx(map[req.ledger := cursor], [LogRow(req.ledger, row)], [req], Idle, {}))
      .(owner := s.owner[req.ledger := t])
  }

  lemma AppendTxEffect(hs: Hashes, s: Db, t: TxId, req: Request, trouble: Trouble)
    requires t in s.txs && s.txs[t] == NewTransaction() && Refusal(hs, s, t, req, trouble) == None
    ensures Exec(hs, s, AppendTrace(t, req)) == Some(Uncommitted(hs, s, t, req))
  {
    var cursor, row := s.cursors[req.ledger], RowFor(hs, s, req);
    var s1 := DoLock(s, t, req).value;
    var s2 := WithRow(s1, t, req, row);
    var s3 := DoAdvance(s2, t).value;
    AppendRun(hs, s, t, req, s1, cursor, row, s3);
    assert s3.txs[t] == Uncommitted(hs, s, t, req).txs[t];
    assert s3.txs == s.txs[t := s3.txs[t]];
  }

  lemma CommitEffect(hs: Hashes, s: Db, t: TxId, req: Request, trouble: Trouble, s': Db)
    requires NewTx(s, t) && Refusal(hs, Begun(s, t), t, req, trouble) == None
    requires s' == Uncommitted(hs, Begun(s, t), t, req)
    ensures DoCommit(s', t) == Some(Extended(hs, s, req))
    ensures DoRollback(s', t) == Some(s)
  {
    ReleaseNew(s, t, req.ledger);
    assert req.ledger !in s.owner;
    assert s'.txs - {t} == s.txs;
    var c := s'.txs[t].cursors;
    assert s.cursors + c == s.cursors[req.ledger := c[req.ledger]];
  }

  lemma AppendAloneIs(hs: Hashes, s: Db, t: TxId, req: Request, s1: Db, s2: Db, s3: Db)
    requires DoBegin(s, t) == Some(s1) && Exec(hs, s1, AppendTrace(t, req)) == Some(s2) && DoCommit(s2, t) == Some(s3)
    ensures Exec(hs, s, AppendAlone(t, req)) == Some(s3)
  {
    var all := AppendAlone(t, req);
    assert all[1..] == AppendTrace(t, req) + [Commit(t)];
    ExecConcat(hs, s1, AppendTrace(t, req), [Commit(t)]);
    assert Exec(hs, s3, [Commit(t)][1..]) == Some(s3);
    assert Exec(hs, s2, [Commit(t)]) == Some(s3);
  }

  /** An append run alone commits one transaction, and that one is not behind. */
  lemma AppendAloneOrderly(hs: Hashes, s: Db, t: TxId, req: Request, s1: Db, s2: Db)
    requires DoBegin(s, t) == Some(s1) && Exec(hs, s1, AppendTrace(t, req)) == Some(s2)
    requires t in s2.txs && s2.txs[t].behind == {}
    ensures Orderly(hs, s, AppendAlone(t, req))
  {
    var all := AppendAlone(t, req);
    assert all[1..] == AppendTrace(t, req) + [Commit(t)];
    NoCommitOrderly(hs, s1, AppendTrace(t, req));
    assert [Commit(t)][1..] == [];
    OrderlyConcat(hs, s1, AppendTrace(t, req), [Commit(t)]);
  }

  lemma AppendedOk(hs: Hashes, s: Db, t: TxId, req: Request)
    requires Inv(hs, s) && NewTx(s, t) && Refusal(hs, Begun(s, t), t, req, Clear) == None
    ensures Exec(hs, s, AppendAlone(t, req)) == Some(Extended(hs, s, req)) && Inv(hs, Extended(hs, s, req))
    ensures Orderly(hs, s, AppendAlone(t, req))
  {
    var s1 := Begun(s, t);
    AppendTxEffect(hs, s1, t, req, Clear);
    var s2 := Uncommitted(hs, s1, t, req);
    CommitEffect(hs, s, t, req, Clear, s2);
    AppendAloneIs(hs, s, t, req, s1, s2, Extended(hs, s, req));
    AppendAloneOrderly(hs, s, t, req, s1, s2);
    ExecKeepsInv(hs, s, AppendAlone(t, req));
  }

  /** Why an undisturbed append in a new transaction is refused, its next key being free. */
  lemma ClearRefusal(hs: Hashes, s: Db, t: TxId, req: Request)
    requires NewTx(s, t)
    requires Lockable(s, t, req.ledger) ==>
               KeyFree(Begun(s, t), t, req.ledger, NextSequence(Begun(s, t), t, req.ledger))
    ensures Refusal(hs, Begun(s, t), t, req, Clear) ==
            if req.ledger !in s.cursors then Some(UnknownLedger)
            else if req.ledger in s.owner then Some(LockTimeout)
            else if hs.payload(req.payload).Err? then Some(BadPayload)
            else None
  {
    assert LockRefusal(Begun(s, t), t, req, Clear) ==
           if req.ledger !in s.cursors then Some(UnknownLedger)
           else if req.ledger in s.owner then Some(LockTimeout)
           else None;
  }

  lemma ExtendedGains(hs: Hashes, s: Db, req: Request)
    requires req.ledger in s.cursors && hs.payload(req.payload).Ok?
    ensures forall l :: OfLedger(Extended(hs, s, req).log, l) == OfLedger(s.log, l) + Gained(hs, s, req, l)
  {
    forall l
      ensures OfLedger(Extended(hs, s, req).log, l) == OfLedger(s.log, l) + Gained(hs, s, req, l)
    {
      OfLedgerSnoc(s.log, LogRow(req.ledger, RowFor(hs, s, req)), l);
    }
  }

  /**
   * On sound tables an undisturbed append is refused only for an unknown ledger, a held lock or a
   * payload that is not JSON; otherwise its ledger gains exactly one chained row and every other
   * ledger stays.
   */
  lemma AppendOnSoundTables(hs: Hashes, s: Db, t: TxId, req: Request)
    requires Inv(hs, s) && NewTx(s, t)
    ensures Refusal(hs, Begun(s, t), t, req, Clear) ==
            if req.ledger !in s.cursors then Some(UnknownLedger)
            else if req.ledger in s.owner then Some(LockTimeout)
            else if hs.payload(req.payload).Err? then Some(BadPayload)
            else None
    ensures Refusal(hs, Begun(s, t), t, req, Clear) == None ==>
              && Inv(hs, Extended(hs, s, req))
              && forall l :: OfLedger(Extended(hs, s, req).log, l) == OfLedger(s.log, l) + Gained(hs, s, req, l)
  {
    var s1 := Begun(s, t);
    BeginOk(hs, s, t, s1);
    if Lockable(s1, t, req.ledger) {
      NextKeyFree(hs, s1, t, req);
    }
    ClearRefusal(hs, s, t, req);
    if Refusal(hs, s1, t, req, Clear) == None {
      AppendedOk(hs, s, t, req);
      ExtendedGains(hs, s, req);
    }
  }

  // ---- the run that tears ----

  /** Begin, an AppendTx that returns between INSERT and UPDATE, and a commit all the same. */
  function TornActions(req: Request): seq<Action> {
    [Begin(0), LockRow(0, req), InsertRow(0), Abandon(0), Commit(0)]
  }

  /** The ledger afterwards: one row, and a cursor that does not know of it. */
  function TornTables(hs: Hashes, req: Request): Db
    requires hs.payload(req.payload).Ok?
  {
    var row := NextRow(hs, req.ledger, Cursor(0, []), Entry(req.eventType, hs.payload(req.payload).value));
    Db(map[req.ledger := Cursor(0, [])], [LogRow(req.ledger, row)], map[], map[], [])
  }

  lemma TornCommitEffect(hs: Hashes, req: Request, at: Stage)
    requires hs.payload(req.payload).Ok? && Tears(Interrupted(at))
    ensures var s := Begun(Init({req.ledger}), 0);
            && Refusal(hs, s, 0, req, ContextEnds(at)) == Some(Interrupted(at))
            && DoCommit(Torn(hs, s, 0, req), 0) == Some(TornTables(hs, req))
  {
    var s := Begun(Init({req.ledger}), 0);
    var torn, end := Torn(hs, s, 0, req), TornTables(hs, req);
    assert Visible(s, s.txs[0], req.ledger) == Cursor(0, []);
    assert torn.txs[0].rows == end.log && torn.txs[0].phase.Idle? && torn.txs[0].script == [];
    assert torn.txs - {0} == end.txs && Release(torn.owner, 0) == end.owner;
    assert torn.cursors + torn.txs[0].cursors == end.cursors;
    assert torn.log + torn.txs[0].rows == end.log && torn.order + torn.txs[0].script == end.order;
  }

  lemma TornTablesStuck(hs: Hashes, req: Request)
    requires hs.payload(req.payload).Ok?
    ensures Stuck(TornTables(hs, req), req.ledger)
  {
    var s := TornTables(hs, req);
    assert s.log[0].row.columns.sequence == 1;
    assert HasKey(s.log, req.ledger, 1);
    assert s.txs == map[];
  }

  /** Where a ledger is stuck, no transaction can append to it, whatever else happens during the call. */
  lemma StuckRefuses(hs: Hashes, s: Db, t: TxId, req: Request, trouble: Trouble)
    requires Stuck(s, req.ledger)
    ensures Refusal(hs, s, t, req, trouble).Some?
    ensures Refusal(hs, s, t, req, trouble) == Some(DuplicateKey) <==>
              && LockRefusal(s, t, req, trouble) == None
              && hs.payload(req.payload).Ok?
              && TroubleAt(trouble, AtInsert) == None
  {
    if Usable(s, t) {
      assert !Moves(s.txs[t], req.ledger, s.cursors[req.ledger]);
    }
  }

  /** Nor can one that locked it before. */
  lemma StuckAborts(hs: Hashes, s: Db, t: TxId)
    requires t in s.txs && s.txs[t].phase.Locked? && Stuck(s, s.txs[t].phase.request.ledger)
    requires hs.payload(s.txs[t].phase.request.payload).Ok?
    ensures DoInsert(hs, s, t) == Some(Abort(s, t))
  {
    assert !Moves(s.txs[t], s.txs[t].phase.request.ledger, s.cursors[s.txs[t].phase.request.ledger]);
  }

  /** The run, and what it comes to: not orderly, not sound, stuck. */
  lemma TornTablesReached(hs: Hashes, req: Request, at: Stage)
    requires hs.payload(req.payload).Ok? && Tears(Interrupted(at))
    ensures Refusal(hs, Begun(Init({req.ledger}), 0), 0, req, ContextEnds(at)) == Some(Interrupted(at))
    ensures Exec(hs, Init({req.ledger}), TornActions(req)) == Some(TornTables(hs, req))
    ensures !Orderly(hs, Init({req.ledger}), TornActions(req)) && !Committed(hs, TornTables(hs, req))
  {
    var begun, torn := Begun(Init({req.ledger}), 0), TornTables(hs, req);
    TornCommitEffect(hs, req, at);
    TornRun(hs, begun, 0, req, at);
    var middle := [LockRow(0, req), InsertRow(0), Abandon(0)];
    ExecConcat(hs, begun, middle, [Commit(0)]);
    assert [Commit(0)][1..] == [];
    assert Exec(hs, Torn(hs, begun, 0, req), [Commit(0)]) == Some(torn);
    assert TornActions(req)[1..] == middle + [Commit(0)];
    assert Step(hs, Init({req.ledger}), Begin(0)) == Some(begun);
    TornTablesStuck(hs, req);
    StuckIsUnsound(hs, torn, req.ledger);
    SoundExactlyWhenOrderly(hs, {req.ledger}, TornActions(req), torn);
  }

  /**
   * A reachable unsound ledger: the run is not orderly, and its row stands after a cursor that never
   * saw it. Whatever runs after that, nobody appends to the ledger again: every call is refused, with
   * a duplicate key as soon as it gets as far as the INSERT.
   */
  lemma TornCommitBreaks(
      hs: Hashes, req: Request, at: Stage, later: seq<Action>, s: Db, t: TxId, next: Request, trouble: Trouble)
    requires hs.payload(req.payload).Ok? && Tears(Interrupted(at))
    requires Exec(hs, TornTables(hs, req), later) == Some(s) && next.ledger == req.ledger
    ensures Refusal(hs, Begun(Init({req.ledger}), 0), 0, req, ContextEnds(at)) == Some(Interrupted(at))
    ensures Exec(hs, Init({req.ledger}), TornActions(req)) == Some(TornTables(hs, req))
    ensures !Orderly(hs, Init({req.ledger}), TornActions(req)) && !Committed(hs, TornTables(hs, req))
    ensures !Committed(hs, s) && Refusal(hs, s, t, next, trouble).Some?
    ensures LockRefusal(s, t, next, trouble) == None
            && hs.payload(next.payload).Ok?
            && TroubleAt(trouble, AtInsert) == None ==>
              Refusal(hs, s, t, next, trouble) == Some(DuplicateKey)
    ensures t in s.txs && s.txs[t].phase.Locked? && s.txs[t].phase.request == next && hs.payload(next.payload).Ok? ==>
              DoInsert(hs, s, t) == Some(Abort(s, t))
  {
    TornTablesReached(hs, req, at);
    TornTablesStuck(hs, req);
    StuckForever(hs, TornTables(hs, req), later, req.ledger);
    StuckIsUnsound(hs, s, req.ledger);
    StuckRefuses(hs, s, t, next, trouble);
    if t in s.txs && s.txs[t].phase.Locked? && s.txs[t].phase.request == next && hs.payload(next.payload).Ok? {
      StuckAborts(hs, s, t);
    }
  }

  // ---- serialisability ----

  /** The given appends, one at a time, in order. */
  function Serial(order: seq<Request>): seq<Action> {
    if order == [] then [] else Serial(order[..|order| - 1]) + AppendAlone(|order| - 1, order[|order| - 1])
  }

  /** Nobody is in the middle of anything. */
  predicate Quiet(s: Db) {
    s.owner == map[] && s.txs == map[]
  }

  lemma AppendAloneRuns(hs: Hashes, s: Db, t: TxId, r: Request)
    requires Inv(hs, s) && Quiet(s) && r.ledger in s.cursors && GoodPayload(hs, r)
    ensures Exec(hs, s, AppendAlone(t, r)).Some?
    ensures var s' := Exec(hs, s, AppendAlone(t, r)).value;
            Inv(hs, s') && Quiet(s') && s'.order == s.order + [r] && s'.cursors.Keys == s.cursors.Keys
  {
    AppendOnSoundTables(hs, s, t, r);
    AppendedOk(hs, s, t, r);
  }

  /** The state reached by running the given appends alone is quiet and has exactly them in its history. */
  ghost predicate RanAlone(hs: Hashes, ledgers: set<Ledger>, order: seq<Request>, o: Option<Db>) {
    o.Some? && Inv(hs, o.value) && Quiet(o.value) && o.value.order == order && o.value.cursors.Keys == ledgers
  }

  lemma SerialOneMore(hs: Hashes, ledgers: set<Ledger>, order: seq<Request>, t: TxId, r: Request, acts: seq<Action>)
    requires RanAlone(hs, ledgers, order, Exec(hs, Init(ledgers), acts))
    requires r.ledger in ledgers && GoodPayload(hs, r)
    ensures RanAlone(hs, ledgers, order + [r], Exec(hs, Init(ledgers), acts + AppendAlone(t, r)))
  {
    var s := Exec(hs, Init(ledgers), acts).value;
    AppendAloneRuns(hs, s, t, r);
    ExecConcat(hs, Init(ledgers), acts, AppendAlone(t, r));
  }

  lemma {:induction false} SerialRuns(hs: Hashes, ledgers: set<Ledger>, order: seq<Request>)
    requires forall r :: r in order ==> r.ledger in ledgers && GoodPayload(hs, r)
    ensures RanAlone(hs, ledgers, order, Exec(hs, Init(ledgers), Serial(order)))
    decreases |order|
  {
    if order == [] {
      InitInv(hs, ledgers);
    } else {
      var n := |order| - 1;
      var before, last := order[..n], order[n];
      assert last in order && order == before + [last];
      assert Serial(order) == Serial(before) + AppendAlone(n, last);
      SerialRuns(hs, ledgers, before);
      SerialOneMore(hs, ledgers, before, n, last, Serial(before));
    }
  }

  /** Every request in a transaction's script, or on its way there, names a known ledger and hashes. */
  predicate RequestsGood(hs: Hashes, s: Db, tx: Tx) {
    && (forall r :: r in tx.script ==> r.ledger in s.cursors && GoodPayload(hs, r))
    && (forall l :: l in tx.cursors ==> l in s.cursors)
    && (tx.phase.Locked? ==> tx.phase.request.ledger in s.cursors)
    && (tx.phase.Inserted? ==> tx.phase.request.ledger in s.cursors && GoodPayload(hs, tx.phase.request))
  }

  /** True of every run, orderly or not. */
  ghost predicate OrderGood(hs: Hashes, ledgers: set<Ledger>, s: Db) {
    && s.cursors.Keys == ledgers
    && (forall r :: r in s.order ==> r.ledger in ledgers && GoodPayload(hs, r))
    && (forall t :: t in s.txs ==> RequestsGood(hs, s, s.txs[t]))
  }

  lemma OthersLeftAlone(hs: Hashes, s: Db, a: Action, s': Db)
    requires Step(hs, s, a) == Some(s')
    ensures forall u :: u in s'.txs && u != a.t ==> u in s.txs && s'.txs[u] == s.txs[u]
  {
  }

  lemma RequestsStayGood(hs: Hashes, s: Db, a: Action, s': Db)
    requires Step(hs, s, a) == Some(s') && (a.t in s.txs ==> RequestsGood(hs, s, s.txs[a.t]))
    ensures s'.cursors.Keys == s.cursors.Keys
    ensures a.t in s'.txs ==> RequestsGood(hs, s', s'.txs[a.t])
  {
  }

  lemma OrderGoodStep(hs: Hashes, ledgers: set<Ledger>, s: Db, a: Action, s': Db)
    requires OrderGood(hs, ledgers, s) && Step(hs, s, a) == Some(s')
    ensures OrderGood(hs, ledgers, s')
  {
    if a.t in s.txs {
      assert RequestsGood(hs, s, s.txs[a.t]);
    }
    RequestsStayGood(hs, s, a, s');
    OthersLeftAlone(hs, s, a, s');
    forall u | u in s'.txs
      ensures RequestsGood(hs, s', s'.txs[u])
    {
      if u != a.t {
        assert RequestsGood(hs, s, s.txs[u]);
      }
    }
  }

  lemma {:induction false} OrderStaysGood(hs: Hashes, ledgers: set<Ledger>, s: Db, acts: seq<Action>)
    requires OrderGood(hs, ledgers, s) && Exec(hs, s, acts).Some?
    ensures OrderGood(hs, ledgers, Exec(hs, s, acts).value)
    decreases |acts|
  {
    if acts != [] {
      var n := Step(hs, s, acts[0]).value;
      OrderGoodStep(hs, ledgers, s, acts[0], n);
      OrderStaysGood(hs, ledgers, n, acts[1..]);
    }
  }

  /** Every run that is not orderly loses some ledger for good: nobody can append to it any more. */
  lemma TornLedgerIsLost(hs: Hashes, ledgers: set<Ledger>, acts: seq<Action>, s: Db) returns (l: Ledger)
    requires Exec(hs, Init(ledgers), acts) == Some(s) && !Orderly(hs, Init(ledgers), acts)
    ensures l in ledgers
    ensures forall t, req: Request, trouble :: req.ledger == l ==> Refusal(hs, s, t, req, trouble).Some?
  {
    InitInv(hs, ledgers);
    OrderlyOrStuck(hs, Init(ledgers), acts);
    l :| Stuck(s, l);
    OrderStaysGood(hs, ledgers, Init(ledgers), acts);
    forall t, req: Request, trouble | req.ledger == l
      ensures Refusal(hs, s, t, req, trouble).Some?
    {
      StuckRefuses(hs, s, t, req, trouble);
    }
  }

  /** The same ledgers, row by row, with the same cursors and the same history. */
  ghost predicate SameTables(s: Db, s': Db) {
    s.order == s'.order && s.cursors == s'.cursors && forall l :: OfLedger(s.log, l) == OfLedger(s'.log, l)
  }

  lemma SoundTablesAgree(hs: Hashes, s: Db, s': Db)
    requires Committed(hs, s) && Committed(hs, s') && s.order == s'.order && s.cursors.Keys == s'.cursors.Keys
    ensures SameTables(s, s')
  {
    forall l
      ensures OfLedger(s.log, l) == OfLedger(s'.log, l)
      ensures l in s.cursors ==> s.cursors[l] == s'.cursors[l]
    {
      if l in s.cursors {
        assert LedgerOk(hs, l, OfLedger(s.log, l), Project(hs, s.order, l), s.cursors[l]);
        assert LedgerOk(hs, l, OfLedger(s'.log, l), Project(hs, s'.order, l), s'.cursors[l]);
      }
    }
  }

  lemma SameTablesSound(hs: Hashes, s: Db, s': Db)
    requires SameTables(s, s') && Committed(hs, s')
    ensures Committed(hs, s)
  {
  }

  /**
   * An interleaving of transactions leaves the ledgers exactly as its committed appends would have,
   * run one at a time in commit order, if and only if none of them commits after one of its AppendTx
   * calls returned with its row stored and the cursor not advanced.
   */
  lemma Serialisable(hs: Hashes, ledgers: set<Ledger>, acts: seq<Action>, s: Db)
    requires Exec(hs, Init(ledgers), acts) == Some(s)
    ensures Exec(hs, Init(ledgers), Serial(s.order)).Some?
    ensures SameTables(s, Exec(hs, Init(ledgers), Serial(s.order)).value) <==> Orderly(hs, Init(ledgers), acts)
  {
    OrderStaysGood(hs, ledgers, Init(ledgers), acts);
    SerialRuns(hs, ledgers, s.order);
    var alone := Exec(hs, Init(ledgers), Serial(s.order)).value;
    SoundExactlyWhenOrderly(hs, ledgers, acts, s);
    if Orderly(hs, Init(ledgers), acts) {
      SoundTablesAgree(hs, s, alone);
    }
    if SameTables(s, alone) {
      SameTablesSound(hs, s, alone);
    }
  }
}
