/**
 * chain/append.go as steps of concurrent transactions. READ COMMITTED, a row lock held to the end of
 * its transaction, own writes visible to the writer; a transaction in which the server failed a
 * statement writes nothing, whether its caller rolls back or commits. AppendTx may also return early
 * because its own context ended, and then its caller still holds a healthy transaction. One step is
 * one SQL statement, so every action list is one interleaving.
 */
module Transactions {
  import opened Bytes
  import opened Chain

  type TxId = nat

  /** Where a transaction stands inside AppendTx. */
  datatype Phase =
    | Idle
    | Locked(request: Request, cursor: Cursor)
    | Inserted(request: Request, row: Row)
    | Failed

  /**
   * A transaction's uncommitted writes, the appends it completed, and its place in AppendTx. The last
   * field is a history: the ledgers to which it added a row without advancing their cursor since.
   */
  datatype Tx = Tx(
    cursors: map<Ledger, Cursor>,
    rows: seq<LogRow>,
    script: seq<Request>,
    phase: Phase,
    behind: set<Ledger>)

  /**
   * audit_ledgers, audit_log, the row locks and the open transactions. The last field is a history:
   * the appends of committed transactions, in commit order.
   */
  datatype Db = Db(
    cursors: map<Ledger, Cursor>,
    log: seq<LogRow>,
    owner: map<Ledger, TxId>,
    txs: map<TxId, Tx>,
    order: seq<Request>)

  datatype Action =
    | Begin(t: TxId)
    | LockRow(t: TxId, request: Request)
    | InsertRow(t: TxId)
    | AdvanceCursor(t: TxId)
    | Abandon(t: TxId)
    | Fail(t: TxId)
    | Commit(t: TxId)
    | Rollback(t: TxId)

  function Init(ledgers: set<Ledger>): Db {
    Db(map l | l in ledgers :: Cursor(0, []), [], map[], map[], [])
  }

  /** What SELECT ... FOR UPDATE reads: the transaction's own write, or the committed row. */
  function Visible(s: Db, tx: Tx, l: Ledger): Cursor {
    if l in tx.cursors then tx.cursors[l] else if l in s.cursors then s.cursors[l] else Cursor(0, [])
  }

  predicate Owns(s: Db, t: TxId, l: Ledger) {
    l in s.owner && s.owner[l] == t
  }

  predicate HeldByOther(s: Db, t: TxId, l: Ledger) {
    l in s.owner && s.owner[l] != t
  }

  predicate PendingElsewhere(s: Db, t: TxId, l: Ledger, n: int) {
    exists u | u in s.txs && u != t :: HasKey(s.txs[u].rows, l, n)
  }

  function Release(owner: map<Ledger, TxId>, t: TxId): map<Ledger, TxId> {
    map l | l in owner && owner[l] != t :: owner[l]
  }

  function SetTx(s: Db, t: TxId, tx: Tx): Db {
    s.(txs := s.txs[t := tx])
  }

  function NewTransaction(): Tx {
    Tx(map[], [], [], Idle, {})
  }

  /** A failed statement: the server drops the writes and the locks at once, the caller still has to roll back. */
  function Abort(s: Db, t: TxId): Db {
    SetTx(s, t, NewTransaction().(phase := Failed)).(owner := Release(s.owner, t))
  }

  function DoBegin(s: Db, t: TxId): Option<Db> {
    if t in s.txs then None else Some(SetTx(s, t, NewTransaction()))
  }

  /**
   * SELECT last_sequence, last_entry_hash ... FOR UPDATE; waits while another transaction holds the row.
   * Finding no row is no failure to the server: the transaction goes on.
   */
  function DoLock(s: Db, t: TxId, req: Request): Option<Db> {
    if t !in s.txs || s.txs[t].phase != Idle then None
    else if req.ledger !in s.cursors then Some(s)
    else if HeldByOther(s, t, req.ledger) then None
    else
      var tx := s.txs[t];
      Some(SetTx(s, t, tx.(phase := Locked(req, Visible(s, tx, req.ledger)))).(owner := s.owner[req.ledger := t]))
  }

  /** One uncommitted row more, its ledger's cursor now behind it. */
  function WithRow(s: Db, t: TxId, req: Request, row: Row): Db
    requires t in s.txs
  {
    var tx := s.txs[t];
    SetTx(s, t, tx.(
      rows := tx.rows + [LogRow(req.ledger, row)],
      phase := Inserted(req, row),
      behind := tx.behind + {req.ledger}))
  }

  /**
   * The hashes and INSERT INTO audit_log; the unique index makes it fail on, or wait for, an equal key.
   * A payload that does not hash is refused before the server is asked; the row stays locked.
   */
  function DoInsert(hs: Hashes, s: Db, t: TxId): Option<Db> {
    if t !in s.txs || !s.txs[t].phase.Locked? then None
    else
      var tx, req, cursor := s.txs[t], s.txs[t].phase.request, s.txs[t].phase.cursor;
      match hs.payload(req.payload)
      case Err(_) => Some(SetTx(s, t, tx.(phase := Idle)))
      case Ok(h) =>
        var row := NextRow(hs, req.ledger, cursor, Entry(req.eventType, h));
        if HasKey(s.log, req.ledger, row.columns.sequence) || HasKey(tx.rows, req.ledger, row.columns.sequence) then
          Some(Abort(s, t))
        else if PendingElsewhere(s, t, req.ledger, row.columns.sequence) then None
        else Some(WithRow(s, t, req, row))
  }

  /** UPDATE audit_ledgers. */
  function DoAdvance(s: Db, t: TxId): Option<Db> {
    if t !in s.txs || !s.txs[t].phase.Inserted? || s.txs[t].phase.row.columns.sequence < 0 then None
    else
      var tx, req, row := s.txs[t], s.txs[t].phase.request, s.txs[t].phase.row;
      Some(SetTx(s, t, tx.(
        cursors := tx.cursors[req.ledger := Cursor(row.columns.sequence, row.entryHash)],
        script := tx.script + [req],
        phase := Idle,
        behind := tx.behind - {req.ledger})))
  }

  /** AppendTx returns to its caller between two statements; what was written and locked stays so. */
  function DoAbandon(s: Db, t: TxId): Option<Db> {
    if t !in s.txs || !(s.txs[t].phase.Locked? || s.txs[t].phase.Inserted?) then None
    else Some(SetTx(s, t, s.txs[t].(phase := Idle)))
  }

  function DoRollback(s: Db, t: TxId): Option<Db> {
    if t !in s.txs then None else Some(s.(owner := Release(s.owner, t), txs := s.txs - {t}))
  }

  /** COMMIT of a failed transaction rolls it back. */
  function DoCommit(s: Db, t: TxId): Option<Db> {
    if t !in s.txs then None
    else if s.txs[t].phase.Failed? then DoRollback(s, t)
    else if s.txs[t].phase != Idle then None
    else
      var tx := s.txs[t];
      Some(Db(s.cursors + tx.cursors, s.log + tx.rows, Release(s.owner, t), s.txs - {t}, s.order + tx.script))
  }

  /** One statement; None when it cannot run now (no such transaction, wrong place, or waiting for a lock). */
  function Step(hs: Hashes, s: Db, a: Action): Option<Db> {
    match a
    case Begin(t) => DoBegin(s, t)
    case LockRow(t, req) => DoLock(s, t, req)
    case InsertRow(t) => DoInsert(hs, s, t)
    case AdvanceCursor(t) => DoAdvance(s, t)
    case Abandon(t) => DoAbandon(s, t)
    case Fail(t) => if t in s.txs then Some(Abort(s, t)) else None
    case Commit(t) => DoCommit(s, t)
    case Rollback(t) => DoRollback(s, t)
  }

  /** A run: every statement of the list in turn, each one able to run when its turn comes. */
  function Exec(hs: Hashes, s: Db, acts: seq<Action>): Option<Db>
    decreases |acts|
  {
    if acts == [] then Some(s)
    else
      match Step(hs, s, acts[0])
      case None => None
      case Some(n) => Exec(hs, n, acts[1..])
  }

  /** A commit of what an AppendTx left behind when it returned between its INSERT and its UPDATE. */
  predicate TornCommit(s: Db, a: Action) {
    a.Commit? && a.t in s.txs && s.txs[a.t].phase.Idle? && s.txs[a.t].behind != {}
  }

  /** A run without torn commits. */
  predicate Orderly(hs: Hashes, s: Db, acts: seq<Action>)
    decreases |acts|
  {
    acts != [] ==>
      && !TornCommit(s, acts[0])
      && (Step(hs, s, acts[0]).Some? ==> Orderly(hs, Step(hs, s, acts[0]).value, acts[1..]))
  }

  // ---- the invariant ----

  predicate GoodPayload(hs: Hashes, r: Request) {
    hs.payload(r.payload).Ok?
  }

  /** Rows are the chain over the entries and the cursor points at their end. */
  predicate LedgerOk(hs: Hashes, l: Ledger, rows: seq<Row>, es: seq<Entry>, c: Cursor) {
    rows == ChainOf(hs, l, es) && c == TailCursor(rows)
  }

  /** A transaction's rows of one ledger whose cursor has been advanced as well. */
  function Settled(tx: Tx, l: Ledger): seq<Row> {
    var rows := OfLedger(tx.rows, l);
    if l in tx.behind && rows != [] then rows[..|rows| - 1] else rows
  }

  /** The row that is ahead of its cursor is the one after it. */
  predicate BehindOk(s: Db, tx: Tx, l: Ledger) {
    var rows := OfLedger(tx.rows, l);
    l in tx.behind ==> rows != [] && rows[|rows| - 1].columns.sequence == Visible(s, tx, l).lastSequence + 1
  }

  /** The ledger as its lock owner would commit it now, were it not behind. */
  ghost predicate OwnedOk(hs: Hashes, s: Db, tx: Tx, l: Ledger) {
    && LedgerOk(hs, l,
         OfLedger(s.log, l) + Settled(tx, l),
         Project(hs, s.order, l) + Project(hs, tx.script, l),
         Visible(s, tx, l))
    && BehindOk(s, tx, l)
  }

  predicate PhaseOk(hs: Hashes, s: Db, t: TxId, tx: Tx) {
    match tx.phase
    case Idle => true
    case Locked(req, c) => Owns(s, t, req.ledger) && c == Visible(s, tx, req.ledger)
    case Inserted(req, row) =>
      var rows := OfLedger(tx.rows, req.ledger);
      && Owns(s, t, req.ledger) && req.ledger in tx.behind
      && rows != [] && rows[|rows| - 1] == row
      && (match hs.payload(req.payload)
          case Ok(h) => row == NextRow(hs, req.ledger, Visible(s, tx, req.ledger), Entry(req.eventType, h))
          case Err(_) => false)
    case Failed => true
  }

  /** A transaction has written nothing to a ledger it does not own. */
  predicate Untouched(tx: Tx, l: Ledger) {
    OfLedger(tx.rows, l) == [] && l !in tx.cursors && l !in tx.behind
  }

  ghost predicate TxOk(hs: Hashes, s: Db, t: TxId, tx: Tx) {
    if tx.phase.Failed? then tx == NewTransaction().(phase := Failed)
    else
      && (forall r :: r in tx.script ==> Owns(s, t, r.ledger) && GoodPayload(hs, r))
      && (forall l :: Owns(s, t, l) ==> OwnedOk(hs, s, tx, l))
      && (forall l :: !Owns(s, t, l) ==> Untouched(tx, l))
      && PhaseOk(hs, s, t, tx)
  }

  ghost predicate Committed(hs: Hashes, s: Db) {
    && (forall l :: l in s.cursors ==> LedgerOk(hs, l, OfLedger(s.log, l), Project(hs, s.order, l), s.cursors[l]))
    && (forall l :: l !in s.cursors ==> OfLedger(s.log, l) == [])
    && (forall r :: r in s.order ==> r.ledger in s.cursors && GoodPayload(hs, r))
  }

  ghost predicate Inv(hs: Hashes, s: Db) {
    && Committed(hs, s)
    && (forall l :: l in s.owner ==> l in s.cursors && s.owner[l] in s.txs)
    && (forall t :: t in s.txs ==> TxOk(hs, s, t, s.txs[t]))
  }

  // ---- every step keeps it ----

  /** A transaction is as sound as before when nothing it can see has changed. */
  lemma Frame(hs: Hashes, s: Db, s': Db, u: TxId)
    requires u in s.txs && u in s'.txs && s'.txs[u] == s.txs[u] && TxOk(hs, s, u, s.txs[u])
    requires forall l :: Owns(s', u, l) <==> Owns(s, u, l)
    requires forall l :: Owns(s, u, l) ==>
               && OfLedger(s'.log, l) == OfLedger(s.log, l)
               && Project(hs, s'.order, l) == Project(hs, s.order, l)
               && Visible(s', s.txs[u], l) == Visible(s, s.txs[u], l)
    ensures TxOk(hs, s', u, s'.txs[u])
  {
    var tx := s.txs[u];
    if !tx.phase.Failed? {
      forall l | Owns(s', u, l)
        ensures OwnedOk(hs, s', tx, l)
      {
        assert Owns(s, u, l) && OwnedOk(hs, s, tx, l);
      }
    }
  }

  /** Steps inside one transaction: the committed tables stay, others keep what they own. */
  lemma LocalStep(hs: Hashes, s: Db, s': Db, t: TxId)
    requires Inv(hs, s) && t in s'.txs && s'.txs.Keys == s.txs.Keys + {t}
    requires s'.cursors == s.cursors && s'.log == s.log && s'.order == s.order
    requires forall u :: u in s.txs && u != t ==> s'.txs[u] == s.txs[u]
    requires forall l :: l in s'.owner ==>
               l in s.cursors && (Owns(s', t, l) || (l in s.owner && s'.owner[l] == s.owner[l]))
    requires forall l :: l in s.owner ==> l in s'.owner && s'.owner[l] == s.owner[l]
    requires TxOk(hs, s', t, s'.txs[t])
    ensures Inv(hs, s')
  {
    forall u | u in s'.txs
      ensures TxOk(hs, s', u, s'.txs[u])
    {
      if u != t {
        forall l
          ensures Owns(s', u, l) <==> Owns(s, u, l)
        {
        }
        Frame(hs, s, s', u);
      }
    }
  }

  /** An owned ledger looks the same to its owner when what the owner wrote and sees has not changed. */
  lemma SameView(hs: Hashes, s: Db, tx: Tx, s': Db, tx': Tx, l: Ledger)
    requires OwnedOk(hs, s, tx, l)
    requires s'.log == s.log && s'.order == s.order && s'.cursors == s.cursors
    requires tx'.rows == tx.rows && tx'.behind == tx.behind && tx'.script == tx.script && tx'.cursors == tx.cursors
    ensures OwnedOk(hs, s', tx', l)
  {
  }

  /** A ledger just locked is the committed ledger. */
  lemma FreshView(hs: Hashes, s: Db, tx: Tx, l: Ledger)
    requires l in s.cursors && LedgerOk(hs, l, OfLedger(s.log, l), Project(hs, s.order, l), s.cursors[l])
    requires Untouched(tx, l) && Project(hs, tx.script, l) == []
    ensures OwnedOk(hs, s, tx, l)
  {
    assert OfLedger(s.log, l) + [] == OfLedger(s.log, l);
    assert Project(hs, s.order, l) + [] == Project(hs, s.order, l);
  }

  lemma LockedView(hs: Hashes, s: Db, t: TxId, req: Request, s': Db, l: Ledger)
    requires Inv(hs, s) && DoLock(s, t, req) == Some(s') && s'.txs[t].phase.Locked? && Owns(s', t, l)
    ensures OwnedOk(hs, s', s'.txs[t], l)
  {
    var tx := s.txs[t];
    assert TxOk(hs, s, t, tx);
    if !Owns(s, t, l) {
      ProjectForeign(hs, tx.script, l);
      FreshView(hs, s, tx, l);
    }
    SameView(hs, s, tx, s', s'.txs[t], l);
  }

  lemma LockedRest(hs: Hashes, s: Db, t: TxId, req: Request, s': Db)
    requires t in s.txs && TxOk(hs, s, t, s.txs[t]) && DoLock(s, t, req) == Some(s') && s'.txs[t].phase.Locked?
    ensures PhaseOk(hs, s', t, s'.txs[t])
    ensures forall r :: r in s'.txs[t].script ==> Owns(s', t, r.ledger) && GoodPayload(hs, r)
    ensures forall l :: !Owns(s', t, l) ==> Untouched(s'.txs[t], l)
  {
    assert forall l :: Owns(s, t, l) ==> Owns(s', t, l);
  }

  lemma LockedTx(hs: Hashes, s: Db, t: TxId, req: Request, s': Db)
    requires Inv(hs, s) && DoLock(s, t, req) == Some(s') && s'.txs[t].phase.Locked?
    ensures TxOk(hs, s', t, s'.txs[t])
  {
    LockedRest(hs, s, t, req, s');
    forall l | Owns(s', t, l)
      ensures OwnedOk(hs, s', s'.txs[t], l)
    {
      LockedView(hs, s, t, req, s', l);
    }
  }

  lemma LockOk(hs: Hashes, s: Db, t: TxId, req: Request, s': Db)
    requires Inv(hs, s) && DoLock(s, t, req) == Some(s')
    ensures Inv(hs, s') && s'.cursors.Keys == s.cursors.Keys
  {
    if s'.txs[t].phase.Locked? {
      LockedTx(hs, s, t, req, s');
      LocalStep(hs, s, s', t);
    }
  }

  /** The INSERT went through: a row that continues the cursor that was read, under a key not yet used. */
  ghost predicate WroteRow(hs: Hashes, s: Db, t: TxId, req: Request, row: Row, s': Db) {
    && t in s.txs && s.txs[t].phase.Locked? && s.txs[t].phase.request == req
    && hs.payload(req.payload).Ok?
    && row == NextRow(hs, req.ledger, s.txs[t].phase.cursor, Entry(req.eventType, hs.payload(req.payload).value))
    && !HasKey(s.txs[t].rows, req.ledger, row.columns.sequence)
    && s' == WithRow(s, t, req, row)
  }

  lemma InsertWrites(hs: Hashes, s: Db, t: TxId, s': Db)
    requires DoInsert(hs, s, t) == Some(s') && s'.txs[t].phase.Inserted?
    ensures WroteRow(hs, s, t, s'.txs[t].phase.request, s'.txs[t].phase.row, s')
  {
  }

  /** Behind a ledger, the next key is already among the transaction's own rows. */
  lemma BehindHasKey(s: Db, tx: Tx, l: Ledger)
    requires BehindOk(s, tx, l) && l in tx.behind
    ensures HasKey(tx.rows, l, Visible(s, tx, l).lastSequence + 1)
  {
    var rows, n := OfLedger(tx.rows, l), Visible(s, tx, l).lastSequence + 1;
    var i := |rows| - 1;
    assert 0 <= i < |OfLedger(tx.rows, l)| && OfLedger(tx.rows, l)[i].columns.sequence == n;
    HasKeyOfLedger(tx.rows, l, n);
  }

  /** The writer's view of the ledger it wrote to: the rows before count, the new one is ahead. */
  lemma WrittenView(hs: Hashes, s: Db, tx: Tx, s': Db, tx': Tx, l: Ledger, row: Row)
    requires OwnedOk(hs, s, tx, l) && l !in tx.behind && row.columns.sequence == Visible(s, tx, l).lastSequence + 1
    requires s'.log == s.log && s'.order == s.order && s'.cursors == s.cursors
    requires tx'.rows == tx.rows + [LogRow(l, row)] && tx'.script == tx.script && tx'.cursors == tx.cursors
    requires l in tx'.behind
    ensures OwnedOk(hs, s', tx', l)
  {
    OfLedgerSnoc(tx.rows, LogRow(l, row), l);
    var before := OfLedger(tx.rows, l);
    assert (before + [row])[..|before|] == before;
  }

  lemma OtherView(hs: Hashes, s: Db, tx: Tx, s': Db, tx': Tx, l: Ledger, r: LogRow)
    requires OwnedOk(hs, s, tx, l) && r.ledger != l
    requires s'.log == s.log && s'.order == s.order && s'.cursors == s.cursors
    requires tx'.rows == tx.rows + [r] && tx'.script == tx.script && tx'.cursors == tx.cursors
    requires l in tx'.behind <==> l in tx.behind
    ensures OwnedOk(hs, s', tx', l)
  {
    OfLedgerSnoc(tx.rows, r, l);
    assert OfLedger(tx.rows, l) + [] == OfLedger(tx.rows, l);
  }

  lemma InsertedView(hs: Hashes, s: Db, t: TxId, req: Request, row: Row, s': Db, l: Ledger)
    requires t in s.txs && OwnedOk(hs, s, s.txs[t], l) && PhaseOk(hs, s, t, s.txs[t])
    requires WroteRow(hs, s, t, req, row, s')
    ensures OwnedOk(hs, s', s'.txs[t], l)
  {
    var tx := s.txs[t];
    if l == req.ledger {
      if l in tx.behind {
        BehindHasKey(s, tx, l);
      }
      WrittenView(hs, s, tx, s', s'.txs[t], l, row);
    } else {
      OtherView(hs, s, tx, s', s'.txs[t], l, LogRow(req.ledger, row));
    }
  }

  lemma InsertedForeign(hs: Hashes, s: Db, t: TxId, req: Request, row: Row, s': Db, l: Ledger)
    requires t in s.txs && Untouched(s.txs[t], l) && l != req.ledger && WroteRow(hs, s, t, req, row, s')
    ensures Untouched(s'.txs[t], l)
  {
    OfLedgerSnoc(s.txs[t].rows, LogRow(req.ledger, row), l);
  }

  lemma NewRowIsLast(tx: Tx, l: Ledger, row: Row)
    ensures var rows := OfLedger(tx.rows + [LogRow(l, row)], l); rows != [] && rows[|rows| - 1] == row
  {
    OfLedgerSnoc(tx.rows, LogRow(l, row), l);
  }

  lemma InsertedPhase(hs: Hashes, s: Db, t: TxId, req: Request, row: Row, s': Db)
    requires t in s.txs && PhaseOk(hs, s, t, s.txs[t]) && WroteRow(hs, s, t, req, row, s')
    ensures PhaseOk(hs, s', t, s'.txs[t])
  {
    NewRowIsLast(s.txs[t], req.ledger, row);
    assert Visible(s', s'.txs[t], req.ledger) == Visible(s, s.txs[t], req.ledger);
  }

  lemma InsertedTx(hs: Hashes, s: Db, t: TxId, req: Request, row: Row, s': Db)
    requires t in s.txs && TxOk(hs, s, t, s.txs[t]) && WroteRow(hs, s, t, req, row, s')
    ensures TxOk(hs, s', t, s'.txs[t])
  {
    InsertedPhase(hs, s, t, req, row, s');
    forall l
      ensures Owns(s', t, l) ==> OwnedOk(hs, s', s'.txs[t], l)
      ensures !Owns(s', t, l) ==> Untouched(s'.txs[t], l)
    {
      if Owns(s, t, l) {
        InsertedView(hs, s, t, req, row, s', l);
      } else {
        InsertedForeign(hs, s, t, req, row, s', l);
      }
    }
  }

  lemma WroteRowOk(hs: Hashes, s: Db, t: TxId, req: Request, row: Row, s': Db)
    requires Inv(hs, s) && WroteRow(hs, s, t, req, row, s')
    ensures Inv(hs, s') && s'.cursors.Keys == s.cursors.Keys
  {
    InsertedTx(hs, s, t, req, row, s');
    LocalStep(hs, s, s', t);
  }

  lemma ReturnedTx(hs: Hashes, s: Db, t: TxId, s': Db)
    requires t in s.txs && TxOk(hs, s, t, s.txs[t]) && !s.txs[t].phase.Failed?
    requires s' == SetTx(s, t, s.txs[t].(phase := Idle))
    ensures TxOk(hs, s', t, s'.txs[t])
  {
    forall l | Owns(s', t, l)
      ensures OwnedOk(hs, s', s'.txs[t], l)
    {
      assert Owns(s, t, l);
      SameView(hs, s, s.txs[t], s', s'.txs[t], l);
    }
    assert forall l :: !Owns(s', t, l) ==> !Owns(s, t, l);
  }

  /** Back to the caller with nothing changed but the place in AppendTx. */
  lemma ReturnOk(hs: Hashes, s: Db, t: TxId, s': Db)
    requires Inv(hs, s) && t in s.txs && !s.txs[t].phase.Failed? && s' == SetTx(s, t, s.txs[t].(phase := Idle))
    ensures Inv(hs, s') && s'.cursors.Keys == s.cursors.Keys
  {
    ReturnedTx(hs, s, t, s');
    LocalStep(hs, s, s', t);
  }

  lemma OthersKeepTheirs(hs: Hashes, s: Db, t: TxId, s': Db, u: TxId)
    requires u in s.txs && u in s'.txs && s'.txs[u] == s.txs[u] && TxOk(hs, s, u, s.txs[u]) && u != t
    requires s'.cursors == s.cursors && s'.log == s.log && s'.order == s.order && s'.owner == Release(s.owner, t)
    ensures TxOk(hs, s', u, s'.txs[u])
  {
    Frame(hs, s, s', u);
  }

  /** A transaction that gives up its locks without committing leaves everybody else as they were. */
  lemma GiveUpOk(hs: Hashes, s: Db, t: TxId, s': Db)
    requires Inv(hs, s)
    requires s'.cursors == s.cursors && s'.log == s.log && s'.order == s.order && s'.owner == Release(s.owner, t)
    requires s'.txs == s.txs - {t} || s'.txs == s.txs[t := NewTransaction().(phase := Failed)]
    ensures Inv(hs, s') && s'.cursors.Keys == s.cursors.Keys
  {
    forall u | u in s'.txs
      ensures TxOk(hs, s', u, s'.txs[u])
    {
      if u != t {
        OthersKeepTheirs(hs, s, t, s', u);
      }
    }
  }

  lemma FailOk(hs: Hashes, s: Db, t: TxId)
    requires Inv(hs, s)
    ensures Inv(hs, Abort(s, t)) && Abort(s, t).cursors.Keys == s.cursors.Keys
  {
    GiveUpOk(hs, s, t, Abort(s, t));
  }

  lemma RollbackOk(hs: Hashes, s: Db, t: TxId, s': Db)
    requires Inv(hs, s) && DoRollback(s, t) == Some(s')
    ensures Inv(hs, s') && s'.cursors.Keys == s.cursors.Keys
  {
    GiveUpOk(hs, s, t, s');
  }

  lemma InsertOk(hs: Hashes, s: Db, t: TxId, s': Db)
    requires Inv(hs, s) && DoInsert(hs, s, t) == Some(s')
    ensures Inv(hs, s') && s'.cursors.Keys == s.cursors.Keys
  {
    if s'.txs[t].phase.Inserted? {
      InsertWrites(hs, s, t, s');
      WroteRowOk(hs, s, t, s'.txs[t].phase.request, s'.txs[t].phase.row, s');
    } else if s'.txs[t].phase.Idle? {
      ReturnOk(hs, s, t, s');
    } else {
      FailOk(hs, s, t);
    }
  }

  /** One more entry extends the rows by the row built on their tail. */
  lemma ExtendLedger(
      hs: Hashes, l: Ledger, a: seq<Row>, b: seq<Row>, es: seq<Entry>, fs: seq<Entry>, c: Cursor, e: Entry, row: Row)
    requires LedgerOk(hs, l, a + b, es + fs, c) && row == NextRow(hs, l, c, e)
    ensures LedgerOk(hs, l, a + (b + [row]), es + (fs + [e]), Cursor(row.columns.sequence, row.entryHash))
  {
    ChainSnoc(hs, l, es + fs, e);
    assert a + (b + [row]) == (a + b) + [row];
    assert es + (fs + [e]) == (es + fs) + [e];
  }

  /** The owner's view after the cursor has caught up with the inserted row. */
  lemma CaughtUp(hs: Hashes, s: Db, tx: Tx, row: Row, req: Request, h: GoString, s': Db, tx': Tx)
    requires OwnedOk(hs, s, tx, req.ledger) && req.ledger in tx.behind && hs.payload(req.payload) == Ok(h)
    requires OfLedger(tx.rows, req.ledger) == Settled(tx, req.ledger) + [row]
    requires row == NextRow(hs, req.ledger, Visible(s, tx, req.ledger), Entry(req.eventType, h))
    requires s'.log == s.log && s'.order == s.order && s'.cursors == s.cursors
    requires tx'.rows == tx.rows && tx'.script == tx.script + [req] && req.ledger !in tx'.behind
    requires req.ledger in tx'.cursors && tx'.cursors[req.ledger] == Cursor(row.columns.sequence, row.entryHash)
    ensures OwnedOk(hs, s', tx', req.ledger)
  {
    var l := req.ledger;
    ProjectSnoc(hs, tx.script, req, h, l);
    ExtendLedger(hs, l, OfLedger(s.log, l), Settled(tx, l), Project(hs, s.order, l), Project(hs, tx.script, l),
                 Visible(s, tx, l), Entry(req.eventType, h), row);
  }

  /** A ledger that the advance did not concern. */
  lemma NotConcerned(hs: Hashes, s: Db, tx: Tx, req: Request, h: GoString, s': Db, tx': Tx, l: Ledger)
    requires OwnedOk(hs, s, tx, l) && l != req.ledger && hs.payload(req.payload) == Ok(h)
    requires s'.log == s.log && s'.order == s.order && s'.cursors == s.cursors
    requires tx'.rows == tx.rows && tx'.script == tx.script + [req] && (l in tx'.behind <==> l in tx.behind)
    requires Visible(s', tx', l) == Visible(s, tx, l)
    ensures OwnedOk(hs, s', tx', l)
  {
    ProjectSnoc(hs, tx.script, req, h, l);
    assert Project(hs, tx.script, l) + [] == Project(hs, tx.script, l);
  }

  lemma AdvancedLedger(hs: Hashes, s: Db, t: TxId, s': Db, l: Ledger)
    requires t in s.txs && PhaseOk(hs, s, t, s.txs[t]) && OwnedOk(hs, s, s.txs[t], l) && DoAdvance(s, t) == Some(s')
    ensures OwnedOk(hs, s', s'.txs[t], l)
  {
    var tx, req, row := s.txs[t], s.txs[t].phase.request, s.txs[t].phase.row;
    var h := hs.payload(req.payload).value;
    if l == req.ledger {
      var rows := OfLedger(tx.rows, l);
      assert rows == rows[..|rows| - 1] + [row];
      CaughtUp(hs, s, tx, row, req, h, s', s'.txs[t]);
    } else {
      NotConcerned(hs, s, tx, req, h, s', s'.txs[t], l);
    }
  }

  lemma AdvancedForeign(hs: Hashes, s: Db, t: TxId, s': Db)
    requires t in s.txs && TxOk(hs, s, t, s.txs[t]) && DoAdvance(s, t) == Some(s')
    ensures s'.owner == s.owner && s'.txs[t].phase.Idle?
    ensures forall r :: r in s'.txs[t].script ==> Owns(s, t, r.ledger) && GoodPayload(hs, r)
    ensures forall l :: !Owns(s, t, l) ==> Untouched(s'.txs[t], l)
  {
  }

  lemma AdvancedTx(hs: Hashes, s: Db, t: TxId, s': Db)
    requires Inv(hs, s) && DoAdvance(s, t) == Some(s')
    ensures TxOk(hs, s', t, s'.txs[t])
  {
    assert TxOk(hs, s, t, s.txs[t]);
    AdvancedForeign(hs, s, t, s');
    forall l | Owns(s, t, l)
      ensures OwnedOk(hs, s', s'.txs[t], l)
    {
      assert OwnedOk(hs, s, s.txs[t], l);
      AdvancedLedger(hs, s, t, s', l);
    }
    assert forall l :: Owns(s', t, l) <==> Owns(s, t, l);
  }

  lemma AdvanceOk(hs: Hashes, s: Db, t: TxId, s': Db)
    requires Inv(hs, s) && DoAdvance(s, t) == Some(s')
    ensures Inv(hs, s') && s'.cursors.Keys == s.cursors.Keys
  {
    AdvancedTx(hs, s, t, s');
    LocalStep(hs, s, s', t);
  }

  /** Commit moves an owned ledger that is not behind to where its owner saw it. */
  lemma CommitOwned(hs: Hashes, s: Db, t: TxId, s': Db, l: Ledger)
    requires t in s.txs && s.txs[t].phase.Idle? && DoCommit(s, t) == Some(s') && OwnedOk(hs, s, s.txs[t], l)
    requires l in s.cursors
    requires l !in s.txs[t].behind
    ensures LedgerOk(hs, l, OfLedger(s'.log, l), Project(hs, s'.order, l), s'.cursors[l])
  {
    OfLedgerConcat(s.log, s.txs[t].rows, l);
    ProjectConcat(hs, s.order, s.txs[t].script, l);
  }

  lemma ScriptForeign(hs: Hashes, s: Db, t: TxId, tx: Tx, l: Ledger)
    requires (forall r :: r in tx.script ==> Owns(s, t, r.ledger)) && !Owns(s, t, l)
    ensures Project(hs, tx.script, l) == []
  {
    ProjectForeign(hs, tx.script, l);
  }

  /** Commit leaves a ledger of others alone. */
  lemma CommitForeign(hs: Hashes, s: Db, t: TxId, s': Db, l: Ledger)
    requires t in s.txs && s.txs[t].phase.Idle? && DoCommit(s, t) == Some(s')
    requires Untouched(s.txs[t], l) && Project(hs, s.txs[t].script, l) == []
    ensures OfLedger(s'.log, l) == OfLedger(s.log, l) && Project(hs, s'.order, l) == Project(hs, s.order, l)
    ensures l in s'.cursors <==> l in s.cursors
    ensures l in s.cursors ==> s'.cursors[l] == s.cursors[l]
  {
    OfLedgerConcat(s.log, s.txs[t].rows, l);
    ProjectConcat(hs, s.order, s.txs[t].script, l);
    assert OfLedger(s.log, l) + [] == OfLedger(s.log, l);
    assert Project(hs, s.order, l) + [] == Project(hs, s.order, l);
  }

  ghost predicate TablesOk(hs: Hashes, s: Db, l: Ledger) {
    if l in s.cursors then LedgerOk(hs, l, OfLedger(s.log, l), Project(hs, s.order, l), s.cursors[l])
    else OfLedger(s.log, l) == []
  }

  lemma CommitLedger(hs: Hashes, s: Db, t: TxId, s': Db, l: Ledger)
    requires t in s.txs && s.txs[t].phase.Idle? && s.txs[t].behind == {} && DoCommit(s, t) == Some(s')
    requires TablesOk(hs, s, l)
    requires Owns(s, t, l) ==> l in s.cursors && OwnedOk(hs, s, s.txs[t], l)
    requires !Owns(s, t, l) ==> Untouched(s.txs[t], l) && Project(hs, s.txs[t].script, l) == []
    ensures TablesOk(hs, s', l) && (l in s'.cursors <==> l in s.cursors)
  {
    if Owns(s, t, l) {
      CommitOwned(hs, s, t, s', l);
    } else {
      CommitForeign(hs, s, t, s', l);
    }
  }

  lemma CommitScript(hs: Hashes, s: Db, t: TxId, s': Db)
    requires Inv(hs, s) && t in s.txs && s.txs[t].phase.Idle? && DoCommit(s, t) == Some(s')
    ensures forall r :: r in s'.order ==> r.ledger in s.cursors && GoodPayload(hs, r)
  {
    assert TxOk(hs, s, t, s.txs[t]);
  }

  lemma CommitTables(hs: Hashes, s: Db, t: TxId, s': Db)
    requires Inv(hs, s) && DoCommit(s, t) == Some(s') && s.txs[t].phase.Idle? && s.txs[t].behind == {}
    ensures Committed(hs, s') && s'.cursors.Keys == s.cursors.Keys
  {
    CommitScript(hs, s, t, s');
    forall l
      ensures TablesOk(hs, s', l) && (l in s'.cursors <==> l in s.cursors)
    {
      assert TxOk(hs, s, t, s.txs[t]);
      if !Owns(s, t, l) {
        ScriptForeign(hs, s, t, s.txs[t], l);
      }
      CommitLedger(hs, s, t, s', l);
    }
    assert forall l :: TablesOk(hs, s', l);
  }

  lemma CommitKeepsOther(hs: Hashes, s: Db, t: TxId, s': Db, u: TxId)
    requires t in s.txs && s.txs[t].phase.Idle? && DoCommit(s, t) == Some(s') && TxOk(hs, s, t, s.txs[t])
    requires u in s.txs && u != t && TxOk(hs, s, u, s.txs[u])
    ensures TxOk(hs, s', u, s'.txs[u])
  {
    forall l | Owns(s, u, l)
      ensures OfLedger(s'.log, l) == OfLedger(s.log, l) && Project(hs, s'.order, l) == Project(hs, s.order, l)
      ensures Visible(s', s.txs[u], l) == Visible(s, s.txs[u], l)
    {
      ScriptForeign(hs, s, t, s.txs[t], l);
      CommitForeign(hs, s, t, s', l);
    }
    Frame(hs, s, s', u);
  }

  lemma CommitOk(hs: Hashes, s: Db, t: TxId, s': Db)
    requires Inv(hs, s) && DoCommit(s, t) == Some(s') && s.txs[t].phase.Idle? && s.txs[t].behind == {}
    ensures Inv(hs, s') && s'.cursors.Keys == s.cursors.Keys
  {
    CommitTables(hs, s, t, s');
    forall u | u in s'.txs
      ensures TxOk(hs, s', u, s'.txs[u])
    {
      CommitKeepsOther(hs, s, t, s', u);
    }
  }

  lemma BeginOk(hs: Hashes, s: Db, t: TxId, s': Db)
    requires Inv(hs, s) && DoBegin(s, t) == Some(s')
    ensures Inv(hs, s') && s'.cursors.Keys == s.cursors.Keys
  {
    assert forall l :: !Owns(s', t, l);
    LocalStep(hs, s, s', t);
  }

  /** Every step but a torn commit. */
  lemma StepKeepsInv(hs: Hashes, s: Db, a: Action, s': Db)
    requires Inv(hs, s) && Step(hs, s, a) == Some(s') && !TornCommit(s, a)
    ensures Inv(hs, s') && s'.cursors.Keys == s.cursors.Keys
  {
    match a
    case Begin(t) => BeginOk(hs, s, t, s');
    case LockRow(t, req) => LockOk(hs, s, t, req, s');
    case InsertRow(t) => InsertOk(hs, s, t, s');
    case AdvanceCursor(t) => AdvanceOk(hs, s, t, s');
    case Abandon(t) => ReturnOk(hs, s, t, s');
    case Fail(t) => FailOk(hs, s, t);
    case Commit(t) =>
      if s.txs[t].phase.Failed? {
        RollbackOk(hs, s, t, s');
      } else {
        CommitOk(hs, s, t, s');
      }
    case Rollback(t) => RollbackOk(hs, s, t, s');
  }

  lemma {:induction false} ExecKeepsInv(hs: Hashes, s: Db, acts: seq<Action>)
    requires Inv(hs, s) && Exec(hs, s, acts).Some? && Orderly(hs, s, acts)
    ensures Inv(hs, Exec(hs, s, acts).value) && Exec(hs, s, acts).value.cursors.Keys == s.cursors.Keys
    decreases |acts|
  {
    if acts != [] {
      var n := Step(hs, s, acts[0]).value;
      StepKeepsInv(hs, s, acts[0], n);
      ExecKeepsInv(hs, n, acts[1..]);
    }
  }

  lemma InitInv(hs: Hashes, ledgers: set<Ledger>)
    ensures Inv(hs, Init(ledgers)) && Init(ledgers).cursors.Keys == ledgers
  {
  }

  // ---- what every reachable state looks like ----

  /** The committed tables of every orderly run: gap-free, linked, hashed, with the cursor on the last row. */
  lemma CommittedLedger(hs: Hashes, ledgers: set<Ledger>, acts: seq<Action>, s: Db, l: Ledger)
    requires Exec(hs, Init(ledgers), acts) == Some(s) && Orderly(hs, Init(ledgers), acts) && l in ledgers
    ensures l in s.cursors
    ensures var rows := OfLedger(s.log, l);
            && WellChained(hs, l, rows)
            && s.cursors[l].lastSequence == |rows|
            && s.cursors[l].lastHash == (if rows == [] then [] else rows[|rows| - 1].entryHash)
            && |rows| == |Project(hs, s.order, l)|
            && forall i :: 0 <= i < |rows| ==> RowHolds(rows[i], Project(hs, s.order, l)[i])
  {
    InitInv(hs, ledgers);
    ExecKeepsInv(hs, Init(ledgers), acts);
    ChainIsWellChained(hs, l, Project(hs, s.order, l));
  }

  /** Every ledger's rows are a chain, whoever holds its lock. */
  lemma OwnerRows(hs: Hashes, s: Db, t: TxId, l: Ledger)
    requires Inv(hs, s) && t in s.txs && s.txs[t].phase.Locked? && Owns(s, t, l) && l !in s.txs[t].behind
    ensures var rows := OfLedger(s.log, l) + OfLedger(s.txs[t].rows, l);
            WellChained(hs, l, rows) && Visible(s, s.txs[t], l) == TailCursor(rows)
  {
    assert TxOk(hs, s, t, s.txs[t]) && OwnedOk(hs, s, s.txs[t], l);
    ChainIsWellChained(hs, l, Project(hs, s.order, l) + Project(hs, s.txs[t].script, l));
  }

  lemma NumberedParts(hs: Hashes, l: Ledger, a: seq<Row>, b: seq<Row>, n: int)
    requires WellChained(hs, l, a + b) && n > |a| + |b|
    ensures forall i :: 0 <= i < |a| ==> a[i].columns.sequence != n
    ensures forall i :: 0 <= i < |b| ==> b[i].columns.sequence != n
  {
    var rows := a + b;
    forall i | 0 <= i < |rows|
      ensures rows[i].columns.sequence != n
    {
      assert RowChained(hs, l, rows, i);
    }
    assert forall i :: 0 <= i < |a| ==> a[i] == rows[i];
    assert forall i :: 0 <= i < |b| ==> b[i] == rows[|a| + i];
  }

  /** The sequence about to be written is not in the table, nor among the writer's own rows. */
  lemma NoKey(hs: Hashes, s: Db, t: TxId, l: Ledger, n: int)
    requires Inv(hs, s) && t in s.txs && s.txs[t].phase.Locked? && Owns(s, t, l) && l !in s.txs[t].behind
    requires n == Visible(s, s.txs[t], l).lastSequence + 1
    ensures !HasKey(s.log, l, n) && !HasKey(s.txs[t].rows, l, n)
  {
    OwnerRows(hs, s, t, l);
    NumberedParts(hs, l, OfLedger(s.log, l), OfLedger(s.txs[t].rows, l), n);
    HasKeyOfLedger(s.log, l, n);
    HasKeyOfLedger(s.txs[t].rows, l, n);
  }

  lemma ForeignHasNoKey(hs: Hashes, s: Db, u: TxId, l: Ledger, n: int)
    requires u in s.txs && TxOk(hs, s, u, s.txs[u]) && !Owns(s, u, l)
    ensures !HasKey(s.txs[u].rows, l, n)
  {
    HasKeyOfLedger(s.txs[u].rows, l, n);
  }

  /** Nor among the rows of transactions that do not hold the ledger's lock. */
  lemma NoKeyElsewhere(hs: Hashes, s: Db, t: TxId, l: Ledger, n: int)
    requires Inv(hs, s) && Owns(s, t, l)
    ensures !PendingElsewhere(s, t, l, n)
  {
    forall u | u in s.txs && u != t
      ensures !HasKey(s.txs[u].rows, l, n)
    {
      ForeignHasNoKey(hs, s, u, l, n);
    }
  }

  /** How the INSERT ends: it never waits; it meets a taken key exactly behind a row of its own. */
  predicate InsertEnds(hs: Hashes, s: Db, t: TxId) {
    match DoInsert(hs, s, t)
    case None => false
    case Some(s') =>
      && t in s.txs && s.txs[t].phase.Locked? && t in s'.txs
      && var req, behind := s.txs[t].phase.request, s.txs[t].behind;
         && (s'.txs[t].phase.Inserted? <==> hs.payload(req.payload).Ok? && req.ledger !in behind)
         && (s'.txs[t].phase.Failed? <==> hs.payload(req.payload).Ok? && req.ledger in behind)
  }

  lemma KeyDecidesInsert(hs: Hashes, s: Db, t: TxId)
    requires t in s.txs && s.txs[t].phase.Locked?
    requires var l, n := s.txs[t].phase.request.ledger, s.txs[t].phase.cursor.lastSequence + 1;
             && (l in s.txs[t].behind ==> HasKey(s.txs[t].rows, l, n))
             && (l !in s.txs[t].behind ==>
                   !HasKey(s.log, l, n) && !HasKey(s.txs[t].rows, l, n) && !PendingElsewhere(s, t, l, n))
    ensures InsertEnds(hs, s, t)
  {
  }

  lemma LockedInsertEnds(hs: Hashes, s: Db, t: TxId)
    requires Inv(hs, s) && t in s.txs && s.txs[t].phase.Locked?
    ensures InsertEnds(hs, s, t)
  {
    assert TxOk(hs, s, t, s.txs[t]);
    var l, n := s.txs[t].phase.request.ledger, s.txs[t].phase.cursor.lastSequence + 1;
    if l in s.txs[t].behind {
      assert OwnedOk(hs, s, s.txs[t], l);
      BehindHasKey(s, s.txs[t], l);
    } else {
      NoKey(hs, s, t, l, n);
      NoKeyElsewhere(hs, s, t, l, n);
    }
    KeyDecidesInsert(hs, s, t);
  }

  /**
   * The row lock alone keeps sequences unique: in every orderly run the INSERT never waits on the
   * unique index, and violates it exactly when an earlier AppendTx of the same transaction returned
   * between its INSERT and its UPDATE.
   */
  lemma InsertNeverCollides(hs: Hashes, ledgers: set<Ledger>, acts: seq<Action>, s: Db, t: TxId)
    requires Exec(hs, Init(ledgers), acts) == Some(s) && Orderly(hs, Init(ledgers), acts)
    requires t in s.txs && s.txs[t].phase.Locked?
    ensures InsertEnds(hs, s, t)
  {
    InitInv(hs, ledgers);
    ExecKeepsInv(hs, Init(ledgers), acts);
    LockedInsertEnds(hs, s, t);
  }

  // ---- torn commits ----

  /** A transaction that could still move the ledger's cursor. */
  predicate Moves(tx: Tx, l: Ledger, c: Cursor) {
    || l in tx.cursors
    || (tx.phase.Inserted? && tx.phase.request.ledger == l)
    || (tx.phase.Locked? && tx.phase.request.ledger == l && tx.phase.cursor != c)
  }

  /** The row after the cursor exists, and nobody can move the cursor: no append will ever succeed again. */
  ghost predicate Stuck(s: Db, l: Ledger) {
    && l in s.cursors
    && HasKey(s.log, l, s.cursors[l].lastSequence + 1)
    && forall t :: t in s.txs ==> !Moves(s.txs[t], l, s.cursors[l])
  }

  lemma HasKeyStays(a: seq<LogRow>, b: seq<LogRow>, l: Ledger, n: int)
    requires HasKey(a, l, n) || HasKey(b, l, n)
    ensures HasKey(a + b, l, n)
  {
    if HasKey(a, l, n) {
      var i :| 0 <= i < |a| && a[i].ledger == l && a[i].row.columns.sequence == n;
      assert (a + b)[i] == a[i];
    } else {
      var i :| 0 <= i < |b| && b[i].ledger == l && b[i].row.columns.sequence == n;
      assert (a + b)[|a| + i] == b[i];
    }
  }

  lemma StuckStep(hs: Hashes, s: Db, a: Action, s': Db, l: Ledger)
    requires Stuck(s, l) && Step(hs, s, a) == Some(s')
    ensures Stuck(s', l)
  {
    if a.Commit? && s.txs[a.t].phase.Idle? {
      HasKeyStays(s.log, s.txs[a.t].rows, l, s.cursors[l].lastSequence + 1);
    }
  }

  lemma {:induction false} StuckForever(hs: Hashes, s: Db, acts: seq<Action>, l: Ledger)
    requires Stuck(s, l) && Exec(hs, s, acts).Some?
    ensures Stuck(Exec(hs, s, acts).value, l)
    decreases |acts|
  {
    if acts != [] {
      var n := Step(hs, s, acts[0]).value;
      StuckStep(hs, s, acts[0], n, l);
      StuckForever(hs, n, acts[1..], l);
    }
  }

  /** A sound ledger has no row after its cursor. */
  lemma StuckIsUnsound(hs: Hashes, s: Db, l: Ledger)
    requires Stuck(s, l)
    ensures !Committed(hs, s)
  {
    if Committed(hs, s) {
      var rows, n := OfLedger(s.log, l), s.cursors[l].lastSequence + 1;
      ChainIsWellChained(hs, l, Project(hs, s.order, l));
      assert rows + [] == rows;
      NumberedParts(hs, l, rows, [], n);
      HasKeyOfLedger(s.log, l, n);
    }
  }

  lemma ForeignCannotMove(hs: Hashes, s: Db, u: TxId, l: Ledger, c: Cursor)
    requires u in s.txs && TxOk(hs, s, u, s.txs[u]) && !Owns(s, u, l)
    ensures !Moves(s.txs[u], l, c)
  {
  }

  lemma TornKeyStays(s: Db, t: TxId, s': Db, l: Ledger)
    requires t in s.txs && s.txs[t].phase.Idle? && DoCommit(s, t) == Some(s') && l in s.cursors
    requires BehindOk(s, s.txs[t], l) && l in s.txs[t].behind
    ensures l in s'.cursors && HasKey(s'.log, l, s'.cursors[l].lastSequence + 1)
  {
    BehindHasKey(s, s.txs[t], l);
    HasKeyStays(s.log, s.txs[t].rows, l, Visible(s, s.txs[t], l).lastSequence + 1);
  }

  lemma TornCommitSticks(hs: Hashes, s: Db, t: TxId, s': Db, l: Ledger)
    requires Inv(hs, s) && TornCommit(s, Commit(t)) && DoCommit(s, t) == Some(s') && l in s.txs[t].behind
    ensures Stuck(s', l)
  {
    assert TxOk(hs, s, t, s.txs[t]);
    assert Owns(s, t, l) && OwnedOk(hs, s, s.txs[t], l);
    TornKeyStays(s, t, s', l);
    forall u | u in s'.txs
      ensures !Moves(s'.txs[u], l, s'.cursors[l])
    {
      ForeignCannotMove(hs, s, u, l, s'.cursors[l]);
    }
  }

  /** A run from a sound state ends sound when it is orderly, and with a ledger stuck for good when it is not. */
  lemma {:induction false} OrderlyOrStuck(hs: Hashes, s: Db, acts: seq<Action>)
    requires Inv(hs, s) && Exec(hs, s, acts).Some?
    ensures Orderly(hs, s, acts) ==> Inv(hs, Exec(hs, s, acts).value)
    ensures !Orderly(hs, s, acts) ==> exists l :: Stuck(Exec(hs, s, acts).value, l)
    decreases |acts|
  {
    if acts != [] {
      var n := Step(hs, s, acts[0]).value;
      if TornCommit(s, acts[0]) {
        var l :| l in s.txs[acts[0].t].behind;
        TornCommitSticks(hs, s, acts[0].t, n, l);
        StuckForever(hs, n, acts[1..], l);
      } else {
        StepKeepsInv(hs, s, acts[0], n);
        OrderlyOrStuck(hs, n, acts[1..]);
      }
    }
  }

  /**
   * The committed tables of a run are sound if and only if no transaction in it commits after one of
   * its AppendTx calls returned between the INSERT and the UPDATE.
   */
  lemma SoundExactlyWhenOrderly(hs: Hashes, ledgers: set<Ledger>, acts: seq<Action>, s: Db)
    requires Exec(hs, Init(ledgers), acts) == Some(s)
    ensures Committed(hs, s) <==> Orderly(hs, Init(ledgers), acts)
  {
    InitInv(hs, ledgers);
    OrderlyOrStuck(hs, Init(ledgers), acts);
    if !Orderly(hs, Init(ledgers), acts) {
      var l :| Stuck(s, l);
      StuckIsUnsound(hs, s, l);
    }
  }
}
