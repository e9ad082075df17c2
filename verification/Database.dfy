/**
 * The handlers on the tables themselves: each SQL statement updates the fields in place, and each
 * handler is proved to be a run of the state machines in Transactions and Anchoring.
 */
module Database {
  import opened Bytes
  import opened EntryHashing
  import opened Chain
  import opened Merkle
  import opened Queries
  import opened Transactions
  import opened Appending
  import opened Anchoring
  import opened EndToEnd
  import opened Proofs
  import V = Verify

  datatype Appended = Appended(sequence: int, entryHash: GoString)

  /** What the client hears of its COMMIT: done, refused and rolled back, or done without an answer. */
  datatype CommitReply = Acknowledged | Denied | Unheard

  /** The handler's own refusals, before and around its queries. */
  datatype HandlerError =
    | LedgerRequired
    | NotRegistered
    | QueryFailed
    | NoLedgerRow
    | NoEntries
    | NoEntry
    | ProviderMissing
    | ProviderFailed
    | InsertFailed

  /** The query of AnchorHandler that the server does not answer, if any. */
  datatype Outage = NoOutage | EndQuery | HashQuery

  /**
   * What became of one provider: not registered, its Anchor call failed, its answer was not stored
   * because the INSERT failed, or all went well.
   */
  datatype AnchorReply = Missing | Failing | Unstored | Submitted(provider: GoString, externalId: GoString)

  type Ask = (nat, GoString, GoString) -> AnchorReply

  /** The submissions made before the first failure. */
  function Submissions(ask: Ask, names: seq<GoString>, i: nat, root: GoString): (done: seq<AnchorReply>)
    requires i <= |names|
    ensures |done| <= |names| - i
    ensures forall k :: 0 <= k < |done| ==> done[k].Submitted?
    decreases |names| - i
  {
    if i == |names| || !ask(i, names[i], root).Submitted? then []
    else [ask(i, names[i], root)] + Submissions(ask, names, i + 1, root)
  }

  function Records(done: seq<AnchorReply>): (events: seq<Event>)
    requires forall k :: 0 <= k < |done| ==> done[k].Submitted?
    ensures |events| == |done|
  {
    seq(|done|, k requires 0 <= k < |done| => Record(0, done[k].provider, done[k].externalId))
  }

  /** AnchorHandler's statements in order, up to the given submissions. */
  function AnchorTrace(l: Ledger, lo: int, hi: int, done: seq<AnchorReply>): seq<Event>
    requires forall k :: 0 <= k < |done| ==> done[k].Submitted?
  {
    [Resolve(0, l, lo, hi), ReadHashes(0)] + Records(done)
  }

  /** The range an anchor call settles on; None when end 0 meets no ledger row. */
  function RangeEnd(s: Db, l: Ledger, hi: int): Option<int> {
    if hi != 0 then Some(hi) else if l in s.cursors then Some(s.cursors[l].lastSequence) else None
  }

  /** Why an anchor call ends before any provider is asked. */
  function AnchorRefusal(registry: set<Ledger>, s: Db, l: Ledger, lo: int, hi: int, outage: Outage)
      : Option<HandlerError> {
    if l == [] then Some(LedgerRequired)
    else if l !in registry then Some(NotRegistered)
    else if hi == 0 && outage == EndQuery then Some(QueryFailed)
    else if RangeEnd(s, l, hi).None? then Some(NoLedgerRow)
    else if outage == HashQuery then Some(QueryFailed)
    else if RangeHashes(s, l, lo, RangeEnd(s, l, hi).value) == [] then Some(NoEntries)
    else None
  }

  function ReplyError(reply: AnchorReply): HandlerError {
    match reply
    case Missing => ProviderMissing
    case Failing => ProviderFailed
    case _ => InsertFailed
  }

  /** The handler's answer: all submissions, or the failure that ended them. */
  predicate Reported(ask: Ask, used: seq<GoString>, root: GoString, r: Result<seq<AnchorReply>, HandlerError>) {
    var done := Submissions(ask, used, 0, root);
    if |done| == |used| then r == Ok(done)
    else r == Err(ReplyError(ask(|done|, used[|done|], root)))
  }

  /** The system inside an AnchorHandler call that has its root. */
  function Rooting(sha: Sha256, s: System, l: Ledger, lo: int, hi: int): System
    requires RangeHashes(s.db, l, lo, hi) != []
  {
    s.(calls := map[0 := Rooted(l, lo, hi, RootHex(sha, RangeHashes(s.db, l, lo, hi)), |OfLedger(s.db.log, l)|)])
  }

  lemma SysExecTwo(sha: Sha256, s: System, s1: System, s2: System, events: seq<Event>)
    requires |events| == 2 && SysStep(sha, s, events[0]) == Some(s1) && SysStep(sha, s1, events[1]) == Some(s2)
    ensures SysExec(sha, s, events) == Some(s2)
  {
    assert events[1..][1..] == [];
    assert SysExec(sha, s1, events[1..]) == Some(s2);
  }

  lemma ReadStep(sha: Sha256, s: System, l: Ledger, lo: int, end: int)
    requires s.calls == map[]
    ensures var hashes, s1 := RangeHashes(s.db, l, lo, end), s.(calls := map[0 := Resolved(l, lo, end)]);
            SysStep(sha, s1, ReadHashes(0)) == Some(if hashes == [] then s else Rooting(sha, s, l, lo, end))
  {
    var s1 := s.(calls := map[0 := Resolved(l, lo, end)]);
    assert s1.calls - {0} == map[];
    assert forall c: Call :: s1.calls[0 := c] == map[0 := c];
  }

  /** The first two statements: nothing left behind when the range is empty, else the root is at hand. */
  lemma ReadTrace(sha: Sha256, s: System, l: Ledger, lo: int, hi: int, end: int)
    requires s.calls == map[] && RangeEnd(s.db, l, hi) == Some(end)
    ensures var hashes := RangeHashes(s.db, l, lo, end);
            SysExec(sha, s, AnchorTrace(l, lo, hi, [])) == Some(if hashes == [] then s else Rooting(sha, s, l, lo, end))
  {
    var s1 := s.(calls := map[0 := Resolved(l, lo, end)]);
    assert SysStep(sha, s, Resolve(0, l, lo, hi)) == Some(s1);
    ReadStep(sha, s, l, lo, end);
    var hashes := RangeHashes(s.db, l, lo, end);
    var trace := AnchorTrace(l, lo, hi, []);
    assert trace == [Resolve(0, l, lo, hi), ReadHashes(0)];
    SysExecTwo(sha, s, s1, if hashes == [] then s else Rooting(sha, s, l, lo, end), trace);
  }

  /** One more submission recorded. */
  lemma RecordTrace(
      sha: Sha256, s: System, l: Ledger, lo: int, hi: int, done: seq<AnchorReply>, next: AnchorReply, now: System,
      a: AnchorRow)
    requires (forall k :: 0 <= k < |done| ==> done[k].Submitted?) && next.Submitted?
    requires SysExec(sha, s, AnchorTrace(l, lo, hi, done)) == Some(now)
    requires 0 in now.calls && now.calls[0] == Rooted(a.ledger, a.rangeStart, a.rangeEnd, a.root, a.seen)
    requires a.provider == next.provider && a.externalId == next.externalId
    ensures SysExec(sha, s, AnchorTrace(l, lo, hi, done + [next])) ==
            Some(now.(anchors := InsertAnchor(now.anchors, a)))
  {
    var e := Record(0, next.provider, next.externalId);
    assert AnchorTrace(l, lo, hi, done + [next]) == AnchorTrace(l, lo, hi, done) + [e];
    RunSnoc(sha, s, AnchorTrace(l, lo, hi, done), e);
  }

  lemma FinishTrace(sha: Sha256, s: System, events: seq<Event>, now: System)
    requires SysExec(sha, s, events) == Some(now) && now.calls.Keys == {0}
    ensures SysExec(sha, s, events + [Finish(0)]) == Some(now.(calls := map[]))
  {
    RunSnoc(sha, s, events, Finish(0));
    assert now.calls - {0} == map[];
  }

  /** Each submission inserted in turn; the base row holds what all of them share. */
  function RecordAll(anchors: seq<AnchorRow>, base: AnchorRow, done: seq<AnchorReply>): seq<AnchorRow>
    requires forall k :: 0 <= k < |done| ==> done[k].Submitted?
  {
    if done == [] then anchors
    else
      var last := done[|done| - 1];
      var row := base.(provider := last.provider, externalId := last.externalId);
      InsertAnchor(RecordAll(anchors, base, done[..|done| - 1]), row)
  }

  lemma {:induction false} RecordAllTrace(
      sha: Sha256, s: System, l: Ledger, lo: int, hi: int, base: AnchorRow, done: seq<AnchorReply>, now: System)
    requires forall k :: 0 <= k < |done| ==> done[k].Submitted?
    requires SysExec(sha, s, AnchorTrace(l, lo, hi, [])) == Some(now)
    requires now.calls == map[0 := Rooted(base.ledger, base.rangeStart, base.rangeEnd, base.root, base.seen)]
    ensures SysExec(sha, s, AnchorTrace(l, lo, hi, done)) == Some(now.(anchors := RecordAll(now.anchors, base, done)))
    decreases |done|
  {
    if done != [] {
      var n := |done| - 1;
      var before, last := done[..n], done[n];
      RecordAllTrace(sha, s, l, lo, hi, base, before, now);
      RecordTrace(sha, s, l, lo, hi, before, last, now.(anchors := RecordAll(now.anchors, base, before)),
                  base.(provider := last.provider, externalId := last.externalId));
      assert done == before + [last];
    }
  }

  /** One turn of the provider loop. */
  lemma SubmitOne(
      ask: Ask, used: seq<GoString>, i: nat, anchors: seq<AnchorRow>, base: AnchorRow, done: seq<AnchorReply>)
    requires i < |used| && (forall k :: 0 <= k < |done| ==> done[k].Submitted?) && ask(i, used[i], base.root).Submitted?
    ensures var reply := ask(i, used[i], base.root);
            && done + Submissions(ask, used, i, base.root) == done + [reply] + Submissions(ask, used, i + 1, base.root)
            && RecordAll(anchors, base, done + [reply]) ==
                 InsertAnchor(RecordAll(anchors, base, done),
                     base.(provider := reply.provider, externalId := reply.externalId))
  {
    var reply, rest := ask(i, used[i], base.root), Submissions(ask, used, i + 1, base.root);
    assert done + ([reply] + rest) == done + [reply] + rest;
    assert (done + [reply])[..|done|] == done;
  }

  /** What the call's anchors have in common; provider and reference are filled in per submission. */
  function BaseRow(sha: Sha256, s: Db, l: Ledger, lo: int, end: int): AnchorRow
    requires RangeHashes(s, l, lo, end) != []
  {
    AnchorRow(l, lo, end, RootHex(sha, RangeHashes(s, l, lo, end)), [], [], |OfLedger(s.log, l)|)
  }

  /** An AnchorHandler call that gets past its queries is a run of the system, so all that holds of runs holds of it. */
  lemma AnchorHandlerRuns(
      sha: Sha256, s: System, registry: set<Ledger>, l: Ledger, lo: int, hi: int, done: seq<AnchorReply>)
    requires s.calls == map[] && AnchorRefusal(registry, s.db, l, lo, hi, NoOutage) == None
    requires forall k :: 0 <= k < |done| ==> done[k].Submitted?
    ensures SysExec(sha, s, AnchorTrace(l, lo, hi, done) + [Finish(0)]) ==
            Some(s.(anchors := RecordAll(s.anchors, BaseRow(sha, s.db, l, lo, RangeEnd(s.db, l, hi).value), done)))
  {
    var end := RangeEnd(s.db, l, hi).value;
    var base, now := BaseRow(sha, s.db, l, lo, end), Rooting(sha, s, l, lo, end);
    ReadTrace(sha, s, l, lo, hi, end);
    RecordAllTrace(sha, s, l, lo, hi, base, done, now);
    FinishTrace(sha, s, AnchorTrace(l, lo, hi, done), now.(anchors := RecordAll(s.anchors, base, done)));
  }

  // ---- ProofHandler ----

  method QueryEntryHashesWithIndex(log: seq<LogRow>, l: Ledger, lo: int, hi: int, target: int)
      returns (hashes: seq<GoString>, idx: int)
    ensures var rows := Select(log, l, lo, hi, false);
            hashes == EntryHashes(rows) && idx == IndexOf(rows, target)
  {
    var rows := Select(log, l, lo, hi, false);
    hashes, idx := [], -1;
    for i := 0 to |rows|
      invariant hashes == EntryHashes(rows[..i]) && idx == IndexOf(rows[..i], target)
    {
      if rows[i].columns.sequence == target {
        idx := i;
      }
      hashes := hashes + [rows[i].entryHash];
      assert rows[..i + 1][..i] == rows[..i];
    }
    assert rows[..|rows|] == rows;
  }

  /** Why a proof is refused; a query the server does not answer reads None. */
  function ProofRefusal(
      registry: set<Ledger>, first: Option<System>, second: Option<System>, third: Option<System>, l: Ledger, q: int):
      Option<HandlerError>
  {
    if l == [] then Some(LedgerRequired)
    else if l !in registry then Some(NotRegistered)
    else if first.None? then Some(QueryFailed)
    else if IndexOf(OfLedger(first.value.db.log, l), q) < 0 then Some(NoEntry)
    else if second.None? then Some(QueryFailed)
    else if Covering(second.value.anchors, l, q) != [] && third.None? then Some(QueryFailed)
    else None
  }

  /** The handler between its SELECTs: each reads the system as it is when its turn comes. */
  method ProofHandler(
      sha: Sha256, registry: set<Ledger>,
      first: Option<System>, second: Option<System>, third: Option<System>, l: Ledger, q: int)
    returns (r: Result<ProofReply, HandlerError>)
    ensures match ProofRefusal(registry, first, second, third, l, q)
            case Some(e) => r == Err(e)
            case None =>
              var last := if third.Some? then third.value else second.value;
              r.Ok? && ProofOf(sha, first.value, second.value, last, l, q) == Ok(r.value)
    ensures r == Err(LedgerRequired) <==> l == []
    ensures r == Err(NotRegistered) <==> l != [] && l !in registry
    ensures r == Err(NoEntry) <==> l != [] && l in registry && first.Some? && !HasEntry(first.value.db.log, l, q)
    ensures r.Err? ==> r.error in {LedgerRequired, NotRegistered, NoEntry, QueryFailed}
    ensures r.Ok? ==> InTable(first.value.db.log, l, r.value.entry) && r.value.entry.columns.sequence == q
    ensures r.Ok? ==> CoveringInOrder(second.value.anchors, l, q, r.value.anchors)
    ensures r.Ok? ==> PathIs(sha, if third.Some? then third.value.db.log else [], l, q, r.value)
  {
    if l == [] {
      return Err(LedgerRequired);
    }
    if l !in registry {
      return Err(NotRegistered);
    }
    if first.None? {
      return Err(QueryFailed);
    }
    var rows := OfLedger(first.value.db.log, l);
    var at := IndexOf(rows, q);
    EntryFound(first.value.db.log, l, q);
    if at < 0 {
      return Err(NoEntry);
    }
    if second.None? {
      return Err(QueryFailed);
    }
    var covering := Covering(second.value.anchors, l, q);
    var path, root: GoString := [], [];
    if covering != [] {
      if third.None? {
        return Err(QueryFailed);
      }
      root := covering[0].root;
      var log, lo, hi := third.value.db.log, covering[0].rangeStart, covering[0].rangeEnd;
      var hashes, idx := QueryEntryHashesWithIndex(log, l, lo, hi, q);
      if idx >= 0 {
        var proof := InclusionProof(sha, hashes, idx);
        path := proof.value;
      }
    }
    CoveringIs(second.value.anchors, l, q);
    if covering != [] {
      PathAtFits(sha, Select(third.value.db.log, l, covering[0].rangeStart, covering[0].rangeEnd, false), q);
    }
    return Ok(ProofReply(rows[at], path, root, covering));
  }

  class Tables {
    const sha: Sha256
    const hashes: Hashes
    var registry: set<Ledger>
    var cursors: map<Ledger, Cursor>
    var log: seq<LogRow>
    var owner: map<Ledger, TxId>
    var txs: map<TxId, Tx>
    var order: seq<Request>
    var anchors: seq<AnchorRow>

    constructor (sha: Sha256, ledgers: set<Ledger>)
      ensures Sys() == Start(ledgers) && registry == ledgers && this.sha == sha && hashes == Sha256Hashes(sha)
    {
      this.sha, hashes := sha, Sha256Hashes(sha);
      registry := ledgers;
      cursors := map l | l in ledgers :: Cursor(0, []);
      log, owner, txs, order, anchors := [], map[], map[], [], [];
    }

    function State(): Db
      reads this
    {
      Db(cursors, log, owner, txs, order)
    }

    function Sys(): System
      reads this
    {
      System(State(), anchors, map[])
    }

    // ---- the statements of AppendTx ----

    method GiveUp(t: TxId)
      modifies this`owner, this`txs
      ensures State() == Abort(old(State()), t)
    {
      owner := Release(owner, t);
      txs := txs[t := NewTransaction().(phase := Failed)];
    }

    /** AppendTx returns to its caller; what it wrote and locked stays so. */
    method LeaveAppendTx(t: TxId)
      requires t in txs
      modifies this`txs
      ensures State() == SetTx(old(State()), t, old(txs[t]).(phase := Idle))
    {
      txs := txs[t := txs[t].(phase := Idle)];
    }

    /** The server or the context may end the call at this point. */
    method MeetTrouble(t: TxId, trouble: Trouble, stage: Stage) returns (e: Option<AppendError>)
      requires t in txs
      modifies this`owner, this`txs
      ensures e == TroubleAt(trouble, stage)
      ensures State() == if e.Some? then EndCall(old(State()), t, e.value) else old(State())
    {
      e := TroubleAt(trouble, stage);
      if e == Some(StatementFailed) {
        GiveUp(t);
      } else if e.Some? {
        LeaveAppendTx(t);
      }
    }

    method Begin(t: TxId)
      requires t !in txs
      modifies this`txs
      ensures DoBegin(old(State()), t) == Some(State())
    {
      txs := txs[t := NewTransaction()];
    }

    method SelectForUpdate(t: TxId, req: Request) returns (r: Result<Cursor, AppendError>)
      requires t in txs && txs[t].phase.Idle?
      modifies this`owner, this`txs
      ensures r == Err(UnknownLedger) <==> req.ledger !in old(cursors)
      ensures r == Err(LockTimeout) <==> req.ledger in old(cursors) && HeldByOther(old(State()), t, req.ledger)
      ensures r.Err? ==> r.error == UnknownLedger || r.error == LockTimeout
      ensures r.Err? ==> State() == Refused(hashes, old(State()), t, req, r.error)
      ensures r.Ok? ==> r.value == Visible(old(State()), old(txs[t]), req.ledger)
      ensures r.Ok? ==> DoLock(old(State()), t, req) == Some(State()) && txs[t].phase == Locked(req, r.value)
    {
      if req.ledger !in cursors {
        return Err(UnknownLedger);
      }
      if req.ledger in owner && owner[req.ledger] != t {
        GiveUp(t);
        return Err(LockTimeout);
      }
      var tx := txs[t];
      var cursor := if req.ledger in tx.cursors then tx.cursors[req.ledger] else cursors[req.ledger];
      owner := owner[req.ledger := t];
      txs := txs[t := tx.(phase := Locked(req, cursor))];
      return Ok(cursor);
    }

    method InsertInto(t: TxId, row: Row) returns (ok: bool)
      requires t in txs && txs[t].phase.Locked?
      modifies this`owner, this`txs
      ensures var req := old(txs[t].phase.request);
              && (ok ==> State() == WithRow(old(State()), t, req, row) && txs[t].phase == Inserted(req, row))
              && (!ok ==> State() == Abort(old(State()), t))
              && (ok <==> KeyFree(old(State()), t, req.ledger, row.columns.sequence))
    {
      var tx := txs[t];
      var req := tx.phase.request;
      if HasKey(log, req.ledger, row.columns.sequence) || HasKey(tx.rows, req.ledger, row.columns.sequence)
         || PendingElsewhere(State(), t, req.ledger, row.columns.sequence) {
        GiveUp(t);
        return false;
      }
      txs := txs[t := tx.(
        rows := tx.rows + [LogRow(req.ledger, row)],
        phase := Inserted(req, row),
        behind := tx.behind + {req.ledger})];
      return true;
    }

    method UpdateLedger(t: TxId)
      requires t in txs && txs[t].phase.Inserted? && txs[t].phase.row.columns.sequence >= 0
      modifies this`txs
      ensures DoAdvance(old(State()), t) == Some(State())
    {
      var tx := txs[t];
      var req, row := tx.phase.request, tx.phase.row;
      txs := txs[t := tx.(
        cursors := tx.cursors[req.ledger := Cursor(row.columns.sequence, row.entryHash)],
        script := tx.script + [req],
        phase := Idle,
        behind := tx.behind - {req.ledger})];
    }

    method Commit(t: TxId)
      requires t in txs && txs[t].phase.Idle?
      modifies this`cursors, this`log, this`owner, this`txs, this`order
      ensures DoCommit(old(State()), t) == Some(State())
    {
      var tx := txs[t];
      cursors := cursors + tx.cursors;
      log := log + tx.rows;
      owner := Release(owner, t);
      order := order + tx.script;
      txs := txs - {t};
    }

    method Rollback(t: TxId)
      requires t in txs
      modifies this`owner, this`txs
      ensures DoRollback(old(State()), t) == Some(State())
    {
      owner := Release(owner, t);
      txs := txs - {t};
    }

    // ---- Appender ----

    /** Step 2 of AppendTx: both hashes and the row they go into. */
    method ComputeRow(req: Request, cursor: Cursor) returns (r: Result<Row, AppendError>)
      ensures match hashes.payload(req.payload)
              case Err(_) => r == Err(BadPayload)
              case Ok(h) => r == Ok(NextRow(hashes, req.ledger, cursor, Entry(req.eventType, h)))
    {
      var payloadHash := hashes.payload(req.payload);
      if payloadHash.Err? {
        return Err(BadPayload);
      }
      var columns := Columns(cursor.lastSequence + 1, req.eventType, payloadHash.value, cursor.lastHash);
      return Ok(Row(columns, hashes.entry(req.ledger, columns)));
    }

    /** Steps 0 and 1: the lock timeout and the row lock. */
    method TakeLock(t: TxId, req: Request, trouble: Trouble) returns (r: Result<Cursor, AppendError>)
      requires Callable(State(), t)
      modifies this`owner, this`txs
      ensures match LockRefusal(old(State()), t, req, trouble)
              case Some(e) => r == Err(e) && State() == Refused(hashes, old(State()), t, req, e)
              case None =>
                && r == Ok(Visible(old(State()), old(txs[t]), req.ledger))
                && DoLock(old(State()), t, req) == Some(State())
                && t in txs && txs[t].phase == Locked(req, r.value)
    {
      if t !in txs || txs[t].phase.Failed? {
        return Err(TxUnusable);
      }
      assert txs[t := txs[t].(phase := Idle)] == txs;
      var early := MeetTrouble(t, trouble, AtTimeout);
      if early.Some? {
        return Err(early.value);
      }
      early := MeetTrouble(t, trouble, AtLock);
      if early.Some? {
        return Err(early.value);
      }
      ghost var before := State();
      r := SelectForUpdate(t, req);
      if r.Err? {
        return;
      }
      ghost var locked := State();
      early := MeetTrouble(t, trouble, AtLockScan);
      if early.Some? {
        EndAfterLock(hashes, before, t, req, locked, early.value);
        return Err(early.value);
      }
    }

    /** Step 3: the row and the Scan of the answer; the outcome is told from the state before the lock was taken. */
    method StoreRow(t: TxId, req: Request, cursor: Cursor, row: Row, trouble: Trouble, ghost before: Db)
      returns (e: Option<AppendError>)
      requires t in before.txs && before.txs[t].phase.Idle? && DoLock(before, t, req) == Some(State())
      requires t in txs && txs[t].phase == Locked(req, cursor)
      requires hashes.payload(req.payload).Ok? && row == NextTxRow(hashes, before, t, req)
      modifies this`owner, this`txs
      ensures e == if TroubleAt(trouble, AtInsert).Some? then TroubleAt(trouble, AtInsert)
                   else if !KeyFree(before, t, req.ledger, row.columns.sequence) then Some(DuplicateKey)
                   else TroubleAt(trouble, AtInsertScan)
      ensures e.Some? ==> State() == Refused(hashes, before, t, req, e.value)
      ensures e.None? ==> State() == WithRow(old(State()), t, req, row)
      ensures e.None? ==> t in txs && txs[t].phase == Inserted(req, row)
    {
      ghost var locked := State();
      LockKeepsKeys(before, t, req, locked, req.ledger, row.columns.sequence);
      e := MeetTrouble(t, trouble, AtInsert);
      if e.Some? {
        EndAfterLock(hashes, before, t, req, locked, e.value);
        return;
      }
      var ok := InsertInto(t, row);
      if !ok {
        EndAfterLock(hashes, before, t, req, locked, DuplicateKey);
        return Some(DuplicateKey);
      }
      e := MeetTrouble(t, trouble, AtInsertScan);
      if e.Some? {
        EndAfterInsert(hashes, before, t, req, locked, row, e.value);
      }
    }

    /** Step 4: the cursor. */
    method AdvanceLedger(t: TxId, req: Request, row: Row, trouble: Trouble, ghost before: Db, ghost locked: Db)
      returns (e: Option<AppendError>)
      requires t in before.txs && before.txs[t].phase.Idle? && DoLock(before, t, req) == Some(locked)
      requires t in locked.txs && locked.txs[t].phase.Locked? && locked.txs[t].phase.request == req
      requires hashes.payload(req.payload).Ok? && row == NextTxRow(hashes, before, t, req)
      requires KeyFree(before, t, req.ledger, row.columns.sequence)
      requires State() == WithRow(locked, t, req, row) && t in txs && txs[t].phase == Inserted(req, row)
      modifies this`owner, this`txs
      ensures e == TroubleAt(trouble, AtUpdate)
      ensures e.Some? ==> State() == Refused(hashes, before, t, req, e.value)
      ensures e.None? ==> Exec(hashes, before, AppendTrace(t, req)) == Some(State())
    {
      e := MeetTrouble(t, trouble, AtUpdate);
      if e.Some? {
        EndAfterInsert(hashes, before, t, req, locked, row, e.value);
        return;
      }
      UpdateLedger(t);
      AppendRun(hashes, before, t, req, locked, locked.txs[t].phase.cursor, row, State());
    }

    /** Steps 2 to 4. */
    method WriteRow(t: TxId, req: Request, cursor: Cursor, trouble: Trouble, ghost before: Db)
      returns (r: Result<Row, AppendError>)
      requires t in before.txs && before.txs[t].phase.Idle? && DoLock(before, t, req) == Some(State())
      requires t in txs && txs[t].phase == Locked(req, cursor)
      requires LockRefusal(before, t, req, trouble) == None
      modifies this`owner, this`txs
      ensures match Refusal(hashes, before, t, req, trouble)
              case Some(e) => r == Err(e) && State() == Refused(hashes, before, t, req, e)
              case None =>
                && hashes.payload(req.payload).Ok?
                && r == Ok(NextTxRow(hashes, before, t, req))
                && Exec(hashes, before, AppendTrace(t, req)) == Some(State())
    {
      ghost var locked := State();
      r := ComputeRow(req, cursor);
      if r.Err? {
        EndAfterLock(hashes, before, t, req, locked, BadPayload);
        LeaveAppendTx(t);
        return;
      }
      var e := StoreRow(t, req, cursor, r.value, trouble, before);
      if e.Some? {
        return Err(e.value);
      }
      e := AdvanceLedger(t, req, r.value, trouble, before, locked);
      if e.Some? {
        return Err(e.value);
      }
    }

    /** One entry inside the caller's transaction. Nothing is visible to others until the caller commits. */
    method AppendTx(t: TxId, req: Request, trouble: Trouble) returns (r: Result<Appended, AppendError>)
      requires Callable(State(), t)
      modifies this`owner, this`txs
      ensures match Refusal(hashes, old(State()), t, req, trouble)
              case Some(e) => r == Err(e) && State() == Refused(hashes, old(State()), t, req, e)
              case None =>
                && t in old(txs) && hashes.payload(req.payload).Ok?
                && var row := NextTxRow(hashes, old(State()), t, req);
                   && r == Ok(Appended(row.columns.sequence, row.entryHash))
                   && Exec(hashes, old(State()), AppendTrace(t, req)) == Some(State())
    {
      ghost var before := State();
      var locked := TakeLock(t, req, trouble);
      if locked.Err? {
        return Err(locked.error);
      }
      var written := WriteRow(t, req, locked.value, trouble, before);
      if written.Err? {
        return Err(written.error);
      }
      return Ok(Appended(written.value.columns.sequence, written.value.entryHash));
    }

    /** AppendTx in a transaction of its own: one row more, or nothing changed. */
    method Append(t: TxId, req: Request, trouble: Trouble, reply: CommitReply)
        returns (r: Result<Appended, AppendError>)
      requires NewTx(State(), t)
      modifies this`cursors, this`log, this`owner, this`txs, this`order
      ensures match Refusal(hashes, Begun(old(State()), t), t, req, trouble)
              case Some(e) => r == Err(e) && State() == old(State())
              case None =>
                && req.ledger in old(cursors) && hashes.payload(req.payload).Ok?
                && var row := RowFor(hashes, old(State()), req);
                   && r == (if reply == Acknowledged then Ok(Appended(row.columns.sequence, row.entryHash))
                            else Err(CommitFailed))
                   && (reply == Denied ==> State() == old(State()))
                   && (reply != Denied ==> State() == Extended(hashes, old(State()), req)
                                           && Exec(hashes, old(State()), AppendAlone(t, req)) == Some(State()))
    {
      ghost var s0 := State();
      Begin(t);
      ghost var s1 := State();
      r := AppendTx(t, req, trouble);
      if r.Err? {
        BeginThenGiveUp(hashes, s0, t, req, trouble);
        Rollback(t);
        return;
      }
      ghost var s2 := State();
      AppendTxEffect(hashes, s1, t, req, trouble);
      CommitEffect(hashes, s0, t, req, trouble, s2);
      if reply == Denied {
        Rollback(t);
        return Err(CommitFailed);
      }
      Commit(t);
      AppendAloneIs(hashes, s0, t, req, s1, s2, State());
      if reply == Unheard {
        return Err(CommitFailed);
      }
    }

    // ---- VerifyHandler ----

    /** The last argument says whether the server answers the query. */
    method VerifyHandler(l: Ledger, start: int, end: int, answered: bool) returns (r: Result<V.Report, HandlerError>)
      ensures r == Err(LedgerRequired) <==> l == []
      ensures r == Err(NotRegistered) <==> l != [] && l !in registry
      ensures r == Err(QueryFailed) <==> l != [] && l in registry && !answered
      ensures r.Err? ==> r.error == LedgerRequired || r.error == NotRegistered || r.error == QueryFailed
      ensures r.Ok? ==> V.Exact(hashes, l, Select(log, l, start, end, end == 0), r.value)
    {
      if l == [] {
        return Err(LedgerRequired);
      }
      if l !in registry {
        return Err(NotRegistered);
      }
      if !answered {
        return Err(QueryFailed);
      }
      var report := V.Scan(hashes, l, Select(log, l, start, end, end == 0));
      return Ok(report);
    }

    // ---- AnchorHandler ----

    /** INSERT ... ON CONFLICT (ledger, provider, range_start, range_end) DO NOTHING. */
    method InsertIfNew(a: AnchorRow)
      modifies this`anchors
      ensures anchors == InsertAnchor(old(anchors), a)
    {
      if !Anchored(anchors, a.ledger, a.provider, a.rangeStart, a.rangeEnd) {
        anchors := anchors + [a];
      }
    }

    /** The provider loop: each submission is recorded before the next provider is asked. */
    method SubmitAll(base: AnchorRow, used: seq<GoString>, ask: Ask) returns (r: Result<seq<AnchorReply>, HandlerError>)
      modifies this`anchors
      ensures anchors == RecordAll(old(anchors), base, Submissions(ask, used, 0, base.root))
      ensures Reported(ask, used, base.root, r)
    {
      var records: seq<AnchorReply> := [];
      for i := 0 to |used|
        invariant |records| == i && forall k :: 0 <= k < i ==> records[k].Submitted?
        invariant records + Submissions(ask, used, i, base.root) == Submissions(ask, used, 0, base.root)
        invariant anchors == RecordAll(old(anchors), base, records)
      {
        var reply := ask(i, used[i], base.root);
        if !reply.Submitted? {
          assert records + [] == records;
          return Err(ReplyError(reply));
        }
        SubmitOne(ask, used, i, old(anchors), base, records);
        InsertIfNew(base.(provider := reply.provider, externalId := reply.externalId));
        records := records + [reply];
      }
      assert records + [] == records;
      return Ok(records);
    }

    /** Refusals leave the anchors alone; otherwise every submission before the first failure is recorded. */
    method AnchorHandler(
        l: Ledger, lo: int, hi: int, names: seq<GoString>, all: seq<GoString>, ask: Ask, outage: Outage)
      returns (r: Result<seq<AnchorReply>, HandlerError>)
      modifies this`anchors
      ensures match AnchorRefusal(registry, State(), l, lo, hi, outage)
              case Some(e) => r == Err(e) && anchors == old(anchors)
              case None =>
                var base := BaseRow(sha, State(), l, lo, RangeEnd(State(), l, hi).value);
                var used := if names == [] then all else names;
                && anchors == RecordAll(old(anchors), base, Submissions(ask, used, 0, base.root))
                && Reported(ask, used, base.root, r)
    {
      if l == [] {
        return Err(LedgerRequired);
      }
      if l !in registry {
        return Err(NotRegistered);
      }
      var end := hi;
      if end == 0 {
        if outage == EndQuery {
          return Err(QueryFailed);
        }
        if l !in cursors {
          return Err(NoLedgerRow);
        }
        end := cursors[l].lastSequence;
      }
      if outage == HashQuery {
        return Err(QueryFailed);
      }
      var rows := Select(log, l, lo, end, false);
      var hashes: seq<GoString> := [];
      for i := 0 to |rows|
        invariant hashes == EntryHashes(rows[..i])
      {
        hashes := hashes + [rows[i].entryHash];
      }
      assert rows[..|rows|] == rows;
      if |hashes| == 0 {
        return Err(NoEntries);
      }
      var root := MerkleRoot(sha, hashes);
      var base := AnchorRow(l, lo, end, root.value, [], [], |OfLedger(log, l)|);
      r := SubmitAll(base, if names == [] then all else names, ask);
    }
  }
}
