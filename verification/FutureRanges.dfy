/**
 * What the end of an anchored range decides: an anchor whose end was committed when its hashes were read
 * can be proved against for good, and any other anchor stops being provable in some continuation.
 */
module FutureRanges {
  import opened Bytes
  import opened Canonical
  import opened Chain
  import opened Merkle
  import opened Queries
  import opened Transactions
  import opened Appending
  import opened Anchoring
  import opened EndToEnd
  import opened Database

  // ---- one more row, whatever goes on ----

  /** There is always a transaction id not in use. */
  lemma {:induction false} UnusedId(ids: set<TxId>) returns (t: TxId)
    ensures forall u :: u in ids ==> u < t
    decreases ids
  {
    if ids == {} {
      t := 0;
    } else {
      var u :| u in ids;
      var rest := UnusedId(ids - {u});
      t := if rest > u then rest else u + 1;
      forall v | v in ids
        ensures v < t
      {
        assert v == u || v in ids - {u};
      }
    }
  }

  lemma OneStep(hs: Hashes, s: Db, a: Action, s': Db)
    requires Step(hs, s, a) == Some(s') && !TornCommit(s, a)
    ensures Exec(hs, s, [a]) == Some(s') && Orderly(hs, s, [a])
  {
    assert [a][1..] == [];
  }

  /** The holder of a ledger's lock can always roll back. */
  lemma FreeLedger(hs: Hashes, s: Db, l: Ledger) returns (acts: seq<Action>, s': Db)
    requires Inv(hs, s)
    ensures Exec(hs, s, acts) == Some(s') && Orderly(hs, s, acts) && Inv(hs, s')
    ensures s'.log == s.log && s'.cursors == s.cursors && l !in s'.owner
  {
    if l in s.owner {
      var t := s.owner[l];
      acts, s' := [Rollback(t)], DoRollback(s, t).value;
      OneStep(hs, s, Rollback(t), s');
      RollbackOk(hs, s, t, s');
    } else {
      acts, s' := [], s;
    }
  }

  lemma NewTxExists(hs: Hashes, s: Db) returns (t: TxId)
    requires Inv(hs, s)
    ensures NewTx(s, t)
  {
    t := UnusedId(s.txs.Keys);
  }

  lemma FreeIsNotRefused(hs: Hashes, s: Db, t: TxId, req: Request)
    requires Inv(hs, s) && NewTx(s, t) && req.ledger in s.cursors && req.ledger !in s.owner
    requires hs.payload(req.payload).Ok?
    ensures Refusal(hs, Begun(s, t), t, req, Clear) == None
  {
    AppendOnSoundTables(hs, s, t, req);
  }

  lemma AppendFree(hs: Hashes, s: Db, req: Request) returns (acts: seq<Action>, s': Db)
    requires Inv(hs, s) && req.ledger in s.cursors && req.ledger !in s.owner && hs.payload(req.payload).Ok?
    ensures Exec(hs, s, acts) == Some(s') && Orderly(hs, s, acts) && Inv(hs, s')
    ensures s'.owner == s.owner && s'.cursors.Keys == s.cursors.Keys
    ensures |OfLedger(s'.log, req.ledger)| == |OfLedger(s.log, req.ledger)| + 1
  {
    var t := NewTxExists(hs, s);
    FreeIsNotRefused(hs, s, t, req);
    AppendedOk(hs, s, t, req);
    OfLedgerSnoc(s.log, LogRow(req.ledger, RowFor(hs, s, req)), req.ledger);
    acts, s' := AppendAlone(t, req), Extended(hs, s, req);
  }

  /** Every ledger can grow by a row. */
  lemma GrowLedger(hs: Hashes, s: Db, req: Request) returns (acts: seq<Action>, s': Db)
    requires Inv(hs, s) && req.ledger in s.cursors && hs.payload(req.payload).Ok?
    ensures Exec(hs, s, acts) == Some(s') && Orderly(hs, s, acts) && Inv(hs, s') && s'.cursors.Keys == s.cursors.Keys
    ensures |OfLedger(s'.log, req.ledger)| == |OfLedger(s.log, req.ledger)| + 1
  {
    var free, freed := FreeLedger(hs, s, req.ledger);
    var grow, grown := AppendFree(hs, freed, req);
    ExecConcat(hs, s, free, grow);
    OrderlyConcat(hs, s, free, grow);
    acts, s' := free + grow, grown;
  }

  function SomeRequest(l: Ledger): Request {
    Request(l, [], Document(Null))
  }

  lemma SomeRequestHashes(sha: Sha256, l: Ledger)
    ensures Sha256Hashes(sha).payload(SomeRequest(l).payload).Ok?
  {
  }

  lemma OneMoreRow(sha: Sha256, s: System, l: Ledger) returns (events: seq<Event>, s': System)
    requires SysInv(sha, s) && l in s.db.cursors
    ensures SysExec(sha, s, events) == Some(s') && OrderlyRun(sha, s, events) && s' == s.(db := s'.db)
    ensures s'.db.cursors.Keys == s.db.cursors.Keys
    ensures |OfLedger(s'.db.log, l)| == |OfLedger(s.db.log, l)| + 1
  {
    SomeRequestHashes(sha, l);
    var acts, db := GrowLedger(Sha256Hashes(sha), s.db, SomeRequest(l));
    AppendsAreRuns(sha, s, acts);
    events, s' := Appends(acts), s.(db := db);
  }

  // ---- an anchor's proofs in all continuations ----

  /** The path rebuilt for this anchor now is accepted for the entry against the anchor's root. */
  predicate Rebuilt(sha: Sha256, s: System, a: AnchorRow, q: int)
    requires 1 <= q <= |OfLedger(s.db.log, a.ledger)|
  {
    var now := CoveredRows(s, a.ledger, a);
    Accepts(sha, OfLedger(s.db.log, a.ledger)[q - 1].entryHash, PathAt(sha, EntryHashes(now), IndexOf(now, q)), a.root)
  }

  /** All committed sequences that the anchor covers can be proved against it. */
  ghost predicate Provable(sha: Sha256, s: System, a: AnchorRow) {
    forall q :: 1 <= q <= |OfLedger(s.db.log, a.ledger)| && Covers(a, a.ledger, q) ==> Rebuilt(sha, s, a, q)
  }

  /** The two different hash inputs behind a range that grew and kept its root, if it did. */
  ghost predicate Colliding(sha: Sha256, s: System, a: AnchorRow) {
    && a.seen <= |OfLedger(s.db.log, a.ledger)|
    && 0 < CountThen(s, a.ledger, a) < |CoveredRows(s, a.ledger, a)|
    && StaleCollision(sha, a.ledger, CoveredRows(s, a.ledger, a), CountThen(s, a.ledger, a)).Some?
  }

  /** A proof for any entry of the range tells whether the range has its root still. */
  lemma RebuiltMeansSameRoot(sha: Sha256, s: System, a: AnchorRow, q: int, past: seq<GoString>)
    requires Numbered(OfLedger(s.db.log, a.ledger)) && 1 <= q <= |OfLedger(s.db.log, a.ledger)|
    requires Covers(a, a.ledger, q)
    requires past != [] && a.root == RootHex(sha, past)
    ensures CoveredRows(s, a.ledger, a) != []
    ensures Rebuilt(sha, s, a, q) <==> RootHex(sha, EntryHashes(CoveredRows(s, a.ledger, a))) == a.root
  {
    var rows, now := OfLedger(s.db.log, a.ledger), CoveredRows(s, a.ledger, a);
    SliceFound(rows, a.rangeStart, a.rangeEnd, q);
    var idx := IndexOf(now, q);
    assert EntryHashes(now)[idx] == rows[q - 1].entryHash;
    AcceptedMeansSameRoot(sha, EntryHashes(now), idx, past);
  }

  lemma AnchorRoot(sha: Sha256, s: System, a: AnchorRow)
    requires SysInv(sha, s) && a in s.anchors
    ensures Numbered(OfLedger(s.db.log, a.ledger))
    ensures RootOk(sha, s.db, a.ledger, a.rangeStart, a.rangeEnd, a.root, a.seen)
    ensures CoveredRows(s, a.ledger, a) != []
    ensures var now := EntryHashes(CoveredRows(s, a.ledger, a));
            && (Current(a, |OfLedger(s.db.log, a.ledger)|) ==> RootHex(sha, now) == a.root)
            && (!Current(a, |OfLedger(s.db.log, a.ledger)|) && RootHex(sha, now) == a.root ==> Colliding(sha, s, a))
  {
    assert AnchorOk(sha, s.db, a);
    LedgerNumbered(Sha256Hashes(sha), s.db, a.ledger);
    StaleRoot(sha, s, a.ledger, a);
  }

  lemma CurrentIsProvable(sha: Sha256, s: System, a: AnchorRow)
    requires SysInv(sha, s) && a in s.anchors && Current(a, |OfLedger(s.db.log, a.ledger)|)
    ensures Provable(sha, s, a)
  {
    AnchorRoot(sha, s, a);
    var past := Covered(OfLedger(s.db.log, a.ledger), a.seen, a.rangeStart, a.rangeEnd);
    forall q | 1 <= q <= |OfLedger(s.db.log, a.ledger)| && Covers(a, a.ledger, q)
      ensures Rebuilt(sha, s, a, q)
    {
      RebuiltMeansSameRoot(sha, s, a, q, past);
    }
  }

  /** The first row of the range is committed and covered. */
  lemma FirstCovered(sha: Sha256, s: System, a: AnchorRow) returns (q: int)
    requires SysInv(sha, s) && a in s.anchors
    ensures 1 <= q <= |OfLedger(s.db.log, a.ledger)| && Covers(a, a.ledger, q)
  {
    AnchorRoot(sha, s, a);
    q := From(|OfLedger(s.db.log, a.ledger)|, a.rangeStart) + 1;
  }

  lemma StaleIsNotProvable(sha: Sha256, s: System, a: AnchorRow)
    requires SysInv(sha, s) && a in s.anchors && !Current(a, |OfLedger(s.db.log, a.ledger)|)
    ensures Provable(sha, s, a) ==> Colliding(sha, s, a)
  {
    AnchorRoot(sha, s, a);
    var q := FirstCovered(sha, s, a);
    RebuiltMeansSameRoot(sha, s, a, q, Covered(OfLedger(s.db.log, a.ledger), a.seen, a.rangeStart, a.rangeEnd));
  }

  /** A state that some orderly continuation reaches. */
  ghost predicate Reaches(sha: Sha256, s: System, s': System) {
    exists more :: SysExec(sha, s, more) == Some(s') && OrderlyRun(sha, s, more)
  }

  lemma ReachesKeeps(sha: Sha256, s: System, s': System)
    requires SysInv(sha, s) && Reaches(sha, s, s')
    ensures SysInv(sha, s') && Later(s, s')
  {
    var more :| SysExec(sha, s, more) == Some(s') && OrderlyRun(sha, s, more);
    RunIsLater(sha, s, more);
  }

  /** A continuation in which a row of the range is committed after its hashes were read. */
  lemma OutgrowAnchor(sha: Sha256, s: System, a: AnchorRow) returns (s': System)
    requires SysInv(sha, s) && a in s.anchors && a.rangeEnd > a.seen
    ensures Reaches(sha, s, s') && !Current(a, |OfLedger(s'.db.log, a.ledger)|)
  {
    AnchorRoot(sha, s, a);
    if |OfLedger(s.db.log, a.ledger)| > a.seen {
      s' := s;
      assert SysExec(sha, s, []) == Some(s') && OrderlyRun(sha, s, []);
    } else {
      assert OfLedger(s.db.log, a.ledger) != [];
      var more, grown := OneMoreRow(sha, s, a.ledger);
      s' := grown;
      assert SysExec(sha, s, more) == Some(s') && OrderlyRun(sha, s, more);
    }
  }

  /**
   * In every orderly run: a recorded anchor is provable in all its continuations if its end was
   * committed when its hashes were read, and only then, unless one of them exhibits a collision.
   */
  lemma AnchorEndDecides(sha: Sha256, ledgers: set<Ledger>, events: seq<Event>, s: System, a: AnchorRow)
    requires SysExec(sha, Start(ledgers), events) == Some(s) && OrderlyRun(sha, Start(ledgers), events)
    requires a in s.anchors
    ensures a.rangeEnd <= a.seen ==> forall s' :: Reaches(sha, s, s') ==> Provable(sha, s', a)
    ensures (forall s' :: Reaches(sha, s, s') ==> Provable(sha, s', a)) ==>
              a.rangeEnd <= a.seen || exists s' :: Reaches(sha, s, s') && Colliding(sha, s', a)
  {
    StartInv(sha, ledgers);
    SysExecKeepsInv(sha, Start(ledgers), events);
    if a.rangeEnd <= a.seen {
      forall s' | Reaches(sha, s, s')
        ensures Provable(sha, s', a)
      {
        ReachesKeeps(sha, s, s');
        CurrentIsProvable(sha, s', a);
      }
    } else {
      var s' := OutgrowAnchor(sha, s, a);
      ReachesKeeps(sha, s, s');
      StaleIsNotProvable(sha, s', a);
    }
  }

  lemma SeenIsCount(sha: Sha256, s: System, c: CallId, s': System)
    requires SysStep(sha, s, ReadHashes(c)) == Some(s') && c in s'.calls
    ensures c in s.calls && s'.calls[c].Rooted? && s'.calls[c].rangeEnd == s.calls[c].rangeEnd
    ensures s'.calls[c].ledger == s.calls[c].ledger
    ensures s'.calls[c].seen == |OfLedger(s.db.log, s.calls[c].ledger)|
  {
  }

  /** What an anchor records as seen is the committed end of its ledger at its hash query. */
  lemma SeenIsCommittedEnd(sha: Sha256, s: System, c: CallId, s': System)
    requires SysInv(sha, s) && SysStep(sha, s, ReadHashes(c)) == Some(s') && c in s'.calls
    ensures s'.calls[c].Rooted? && s'.calls[c].seen == CommittedEnd(s.db, s'.calls[c].ledger)
  {
    SeenIsCount(sha, s, c, s');
    CommittedEndIsCount(sha, s, s.calls[c].ledger);
  }

  // ---- such an anchor exists ----

  lemma {:induction false} NoAppendsOrderly(sha: Sha256, s: System, events: seq<Event>)
    requires forall i :: 0 <= i < |events| ==> !events[i].Append?
    ensures OrderlyRun(sha, s, events)
    decreases |events|
  {
    if events != [] && SysStep(sha, s, events[0]).Some? {
      NoAppendsOrderly(sha, SysStep(sha, s, events[0]).value, events[1..]);
    }
  }

  /** With one row committed, an anchor for 1 to 2 is taken all the same. */
  lemma AnchorAhead(sha: Sha256, s: System, l: Ledger) returns (events: seq<Event>, s': System)
    requires s.calls == map[] && s.anchors == [] && l != [] && |RangeHashes(s.db, l, 1, 2)| == 1
    requires |OfLedger(s.db.log, l)| == 1
    ensures SysExec(sha, s, events) == Some(s') && OrderlyRun(sha, s, events) && s' == s.(anchors := s'.anchors)
    ensures |s'.anchors| == 1 && Covers(s'.anchors[0], l, 1) && s'.anchors[0].rangeEnd == 2 && s'.anchors[0].seen == 1
  {
    var done := [Submitted([], [])];
    AnchorHandlerRuns(sha, s, {l}, l, 1, 2, done);
    events := AnchorTrace(l, 1, 2, done) + [Finish(0)];
    var base := BaseRow(sha, s.db, l, 1, 2);
    assert done[..0] == [];
    assert RecordAll([], base, done) == InsertAnchor(RecordAll([], base, done[..0]), base);
    assert InsertAnchor([], base) == [base];
    s' := s.(anchors := [base]);
    NoAppendsOrderly(sha, s, events);
  }

  /**
   * A reachable state in which the first covering anchor of a committed sequence is out of date: one
   * append, an anchor for 1 to 2, another append. Its proof no longer verifies, by ProofVerifiesWhenCurrent.
   */
  lemma StaleAnchorReachable(sha: Sha256, l: Ledger) returns (events: seq<Event>, s: System)
    requires l != []
    ensures SysExec(sha, Start({l}), events) == Some(s) && OrderlyRun(sha, Start({l}), events)
    ensures |OfLedger(s.db.log, l)| == 2 && Covering(s.anchors, l, 1) != []
    ensures !Current(Covering(s.anchors, l, 1)[0], 2)
  {
    var start := Start({l});
    StartInv(sha, {l});
    var first, one := OneMoreRow(sha, start, l);
    SysExecKeepsInv(sha, start, first);
    RangeIsCovered(sha, one.db, l, 1, 2);
    var second, anchored := AnchorAhead(sha, one, l);
    SysExecKeepsInv(sha, one, second);
    var third, two := OneMoreRow(sha, anchored, l);
    RunsConcat(sha, start, first, second);
    RunsConcat(sha, start, first + second, third);
    events, s := first + second + third, two;
    CoveringCovers(s.anchors, l, 1);
    assert s.anchors[0] in Covering(s.anchors, l, 1);
    assert Covering(s.anchors, l, 1)[0] in Covering(s.anchors, l, 1);
  }
}
