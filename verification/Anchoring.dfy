/**
 * steps/anchor.go and steps/proof.go over the running system: roots recorded at one time, proofs
 * rebuilt later from a log that has grown. Each SQL statement of AnchorHandler is a step of its own.
 */
module Anchoring {
  import opened Bytes
  import opened Chain
  import opened Merkle
  import opened Queries
  import opened Transactions

  /** A row of audit_anchors. The last field is a history: how many rows of the ledger the hash query could see. */
  datatype AnchorRow = AnchorRow(
    ledger: Ledger,
    rangeStart: int,
    rangeEnd: int,
    root: GoString,
    provider: GoString,
    externalId: GoString,
    seen: nat)

  /** An AnchorHandler call between its statements. */
  datatype Call =
    | Resolved(ledger: Ledger, rangeStart: int, rangeEnd: int)
    | Rooted(ledger: Ledger, rangeStart: int, rangeEnd: int, root: GoString, seen: nat)

  type CallId = nat

  datatype System = System(db: Db, anchors: seq<AnchorRow>, calls: map<CallId, Call>)

  datatype Event =
    | Append(action: Action)
    | Resolve(c: CallId, ledger: Ledger, rangeStart: int, rangeEnd: int)
    | ReadHashes(c: CallId)
    | Record(c: CallId, provider: GoString, externalId: GoString)
    | Finish(c: CallId)

  /** The unique index on (ledger, provider, range_start, range_end). */
  predicate SameKey(a: AnchorRow, l: Ledger, provider: GoString, lo: int, hi: int) {
    a.ledger == l && a.provider == provider && a.rangeStart == lo && a.rangeEnd == hi
  }

  predicate Anchored(anchors: seq<AnchorRow>, l: Ledger, provider: GoString, lo: int, hi: int) {
    exists i :: 0 <= i < |anchors| && SameKey(anchors[i], l, provider, lo, hi)
  }

  /** INSERT ... ON CONFLICT DO NOTHING. */
  function InsertAnchor(anchors: seq<AnchorRow>, a: AnchorRow): seq<AnchorRow> {
    if Anchored(anchors, a.ledger, a.provider, a.rangeStart, a.rangeEnd) then anchors else anchors + [a]
  }

  function RangeHashes(db: Db, l: Ledger, lo: int, hi: int): seq<GoString> {
    EntryHashes(Select(db.log, l, lo, hi, false))
  }

  /** One statement of somebody; None when it cannot run now. A call that fails is gone. */
  function SysStep(sha: Sha256, s: System, e: Event): Option<System> {
    match e
    case Append(a) =>
      (match Step(Sha256Hashes(sha), s.db, a)
       case None => None
       case Some(db) => Some(s.(db := db)))
    case Resolve(c, l, lo, hi) =>
      if c in s.calls then None
      else if hi != 0 then Some(s.(calls := s.calls[c := Resolved(l, lo, hi)]))
      else if l in s.db.cursors then Some(s.(calls := s.calls[c := Resolved(l, lo, s.db.cursors[l].lastSequence)]))
      else Some(s)
    case ReadHashes(c) =>
      if c !in s.calls || !s.calls[c].Resolved? then None
      else
        var Resolved(l, lo, hi) := s.calls[c];
        var hashes := RangeHashes(s.db, l, lo, hi);
        if hashes == [] then Some(s.(calls := s.calls - {c}))
        else Some(s.(calls := s.calls[c := Rooted(l, lo, hi, RootHex(sha, hashes), |OfLedger(s.db.log, l)|)]))
    case Record(c, provider, externalId) =>
      if c !in s.calls || !s.calls[c].Rooted? then None
      else
        var Rooted(l, lo, hi, root, seen) := s.calls[c];
        Some(s.(anchors := InsertAnchor(s.anchors, AnchorRow(l, lo, hi, root, provider, externalId, seen))))
    case Finish(c) =>
      if c !in s.calls then None else Some(s.(calls := s.calls - {c}))
  }

  function SysExec(sha: Sha256, s: System, events: seq<Event>): Option<System>
    decreases |events|
  {
    if events == [] then Some(s)
    else
      match SysStep(sha, s, events[0])
      case None => None
      case Some(n) => SysExec(sha, n, events[1..])
  }

  /** A commit after one of the transaction's AppendTx calls returned between its INSERT and its UPDATE. */
  predicate TornEvent(s: System, e: Event) {
    e.Append? && TornCommit(s.db, e.action)
  }

  /** A run without torn commits. */
  predicate OrderlyRun(sha: Sha256, s: System, events: seq<Event>)
    decreases |events|
  {
    events != [] ==>
      && !TornEvent(s, events[0])
      && (SysStep(sha, s, events[0]).Some? ==> OrderlyRun(sha, SysStep(sha, s, events[0]).value, events[1..]))
  }

  /** One run after another. */
  lemma {:induction false} RunsConcat(sha: Sha256, s: System, a: seq<Event>, b: seq<Event>)
    requires SysExec(sha, s, a).Some?
    ensures SysExec(sha, s, a + b) == SysExec(sha, SysExec(sha, s, a).value, b)
    ensures OrderlyRun(sha, s, a + b) <==> OrderlyRun(sha, s, a) && OrderlyRun(sha, SysExec(sha, s, a).value, b)
    decreases |a|
  {
    if a == [] {
      assert a + b == b;
    } else {
      assert (a + b)[1..] == a[1..] + b;
      RunsConcat(sha, SysStep(sha, s, a[0]).value, a[1..], b);
    }
  }

  lemma RunSnoc(sha: Sha256, s: System, events: seq<Event>, e: Event)
    requires SysExec(sha, s, events).Some?
    ensures SysExec(sha, s, events + [e]) == SysStep(sha, SysExec(sha, s, events).value, e)
    ensures OrderlyRun(sha, s, events) && !TornEvent(SysExec(sha, s, events).value, e) ==>
              OrderlyRun(sha, s, events + [e])
  {
    RunsConcat(sha, s, events, [e]);
    assert [e][1..] == [];
  }

  function Appends(acts: seq<Action>): (events: seq<Event>)
    ensures |events| == |acts|
  {
    seq(|acts|, i requires 0 <= i < |acts| => Event.Append(acts[i]))
  }

  /**
   * What append statements do to the tables they do to the whole system, so all that holds of system runs
   * holds of them.
   */
  lemma {:induction false} AppendsAreRuns(sha: Sha256, s: System, acts: seq<Action>)
    requires Exec(Sha256Hashes(sha), s.db, acts).Some?
    ensures SysExec(sha, s, Appends(acts)) == Some(s.(db := Exec(Sha256Hashes(sha), s.db, acts).value))
    ensures OrderlyRun(sha, s, Appends(acts)) <==> Orderly(Sha256Hashes(sha), s.db, acts)
    decreases |acts|
  {
    if acts != [] {
      var db := Step(Sha256Hashes(sha), s.db, acts[0]).value;
      AppendsAreRuns(sha, s.(db := db), acts[1..]);
      assert Appends(acts)[1..] == Appends(acts[1..]);
    }
  }

  function Start(ledgers: set<Ledger>): System {
    System(Init(ledgers), [], map[])
  }

  // ---- the invariant ----

  /** The hashes a range covers among the first rows of a gap-free ledger. */
  function Covered(rows: seq<Row>, seen: nat, lo: int, hi: int): seq<GoString>
    requires seen <= |rows|
  {
    EntryHashes(Slice(rows[..seen], lo, hi, false))
  }

  /** The root was computed from the rows that were there when the call read them. */
  predicate RootOk(sha: Sha256, db: Db, l: Ledger, lo: int, hi: int, root: GoString, seen: nat) {
    var rows := OfLedger(db.log, l);
    && seen <= |rows|
    && Covered(rows, seen, lo, hi) != []
    && root == RootHex(sha, Covered(rows, seen, lo, hi))
  }

  predicate CallOk(sha: Sha256, db: Db, c: Call) {
    c.Rooted? ==> RootOk(sha, db, c.ledger, c.rangeStart, c.rangeEnd, c.root, c.seen)
  }

  predicate AnchorOk(sha: Sha256, db: Db, a: AnchorRow) {
    RootOk(sha, db, a.ledger, a.rangeStart, a.rangeEnd, a.root, a.seen)
  }

  predicate UniqueAnchors(anchors: seq<AnchorRow>) {
    forall i, j :: 0 <= i < j < |anchors| ==>
      !SameKey(anchors[j], anchors[i].ledger, anchors[i].provider, anchors[i].rangeStart, anchors[i].rangeEnd)
  }

  ghost predicate SysInv(sha: Sha256, s: System) {
    && Inv(Sha256Hashes(sha), s.db)
    && (forall i :: 0 <= i < |s.anchors| ==> AnchorOk(sha, s.db, s.anchors[i]))
    && UniqueAnchors(s.anchors)
    && (forall c :: c in s.calls ==> CallOk(sha, s.db, s.calls[c]))
  }

  /** Committed rows are never removed or changed, only followed by others. */
  lemma StepGrows(hs: Hashes, s: Db, a: Action, s': Db, l: Ledger)
    requires Step(hs, s, a) == Some(s')
    ensures OfLedger(s.log, l) <= OfLedger(s'.log, l)
  {
    if a.Commit? && s.txs[a.t].phase.Idle? {
      OfLedgerConcat(s.log, s.txs[a.t].rows, l);
    } else {
      assert s'.log == s.log;
    }
  }

  lemma RootStaysOk(sha: Sha256, db: Db, db': Db, l: Ledger, lo: int, hi: int, root: GoString, seen: nat)
    requires OfLedger(db.log, l) <= OfLedger(db'.log, l) && RootOk(sha, db, l, lo, hi, root, seen)
    ensures RootOk(sha, db', l, lo, hi, root, seen)
  {
    assert OfLedger(db.log, l)[..seen] == OfLedger(db'.log, l)[..seen];
  }

  lemma LedgerNumbered(hs: Hashes, s: Db, l: Ledger)
    requires Inv(hs, s)
    ensures WellChained(hs, l, OfLedger(s.log, l)) && Numbered(OfLedger(s.log, l))
    ensures l in s.cursors ==> s.cursors[l].lastSequence == |OfLedger(s.log, l)|
  {
    if l in s.cursors {
      ChainIsWellChained(hs, l, Project(hs, s.order, l));
    }
    WellChainedNumbered(hs, l, OfLedger(s.log, l));
  }

  /** The hash query returns what the range covers of all rows there are. */
  lemma RangeIsCovered(sha: Sha256, s: Db, l: Ledger, lo: int, hi: int)
    requires Inv(Sha256Hashes(sha), s)
    ensures var rows := OfLedger(s.log, l);
            RangeHashes(s, l, lo, hi) == Covered(rows, |rows|, lo, hi)
  {
    LedgerNumbered(Sha256Hashes(sha), s, l);
    SelectIsSlice(s.log, l, lo, hi, false);
    var rows := OfLedger(s.log, l);
    assert rows[..|rows|] == rows;
  }

  lemma AppendKeepsSys(sha: Sha256, s: System, a: Action, s': System)
    requires SysInv(sha, s) && SysStep(sha, s, Append(a)) == Some(s') && !TornCommit(s.db, a)
    ensures SysInv(sha, s')
  {
    StepKeepsInv(Sha256Hashes(sha), s.db, a, s'.db);
    forall i | 0 <= i < |s'.anchors|
      ensures AnchorOk(sha, s'.db, s'.anchors[i])
    {
      var r := s.anchors[i];
      assert AnchorOk(sha, s.db, r);
      StepGrows(Sha256Hashes(sha), s.db, a, s'.db, r.ledger);
      RootStaysOk(sha, s.db, s'.db, r.ledger, r.rangeStart, r.rangeEnd, r.root, r.seen);
    }
    forall c | c in s'.calls
      ensures CallOk(sha, s'.db, s'.calls[c])
    {
      var r := s.calls[c];
      assert CallOk(sha, s.db, r);
      if r.Rooted? {
        StepGrows(Sha256Hashes(sha), s.db, a, s'.db, r.ledger);
        RootStaysOk(sha, s.db, s'.db, r.ledger, r.rangeStart, r.rangeEnd, r.root, r.seen);
      }
    }
  }

  /** A conflicting insert changes nothing; any other adds one row under a new key. */
  lemma InsertAnchorUnique(anchors: seq<AnchorRow>, a: AnchorRow)
    requires UniqueAnchors(anchors)
    ensures UniqueAnchors(InsertAnchor(anchors, a))
    ensures anchors <= InsertAnchor(anchors, a)
    ensures Anchored(InsertAnchor(anchors, a), a.ledger, a.provider, a.rangeStart, a.rangeEnd)
  {
    if !Anchored(anchors, a.ledger, a.provider, a.rangeStart, a.rangeEnd) {
      var longer, n := anchors + [a], |anchors|;
      assert SameKey(longer[n], a.ledger, a.provider, a.rangeStart, a.rangeEnd);
      forall i, j | 0 <= i < j < |longer|
        ensures !SameKey(longer[j], longer[i].ledger, longer[i].provider, longer[i].rangeStart, longer[i].rangeEnd)
      {
        assert longer[i] == anchors[i];
        if j < n {
          assert longer[j] == anchors[j];
        } else {
          assert !SameKey(anchors[i], a.ledger, a.provider, a.rangeStart, a.rangeEnd);
        }
      }
    }
  }

  lemma InsertAnchorOk(sha: Sha256, db: Db, anchors: seq<AnchorRow>, a: AnchorRow)
    requires AnchorOk(sha, db, a) && forall i :: 0 <= i < |anchors| ==> AnchorOk(sha, db, anchors[i])
    ensures var r := InsertAnchor(anchors, a);
            forall i :: 0 <= i < |r| ==> AnchorOk(sha, db, r[i])
  {
  }

  lemma RecordKeepsSys(sha: Sha256, s: System, c: CallId, provider: GoString, externalId: GoString, s': System)
    requires SysInv(sha, s) && SysStep(sha, s, Record(c, provider, externalId)) == Some(s')
    ensures SysInv(sha, s') && s.anchors <= s'.anchors
  {
    var r := s.calls[c];
    assert CallOk(sha, s.db, r);
    var a := AnchorRow(r.ledger, r.rangeStart, r.rangeEnd, r.root, provider, externalId, r.seen);
    assert AnchorOk(sha, s.db, a);
    InsertAnchorUnique(s.anchors, a);
    InsertAnchorOk(sha, s.db, s.anchors, a);
  }

  lemma NewCallKeepsSys(sha: Sha256, s: System, c: CallId, call: Call)
    requires SysInv(sha, s) && CallOk(sha, s.db, call)
    ensures SysInv(sha, s.(calls := s.calls[c := call]))
  {
  }

  lemma CallsKeepSys(sha: Sha256, s: System, s': System)
    requires SysInv(sha, s) && s'.db == s.db && s'.anchors == s.anchors
    requires forall c :: c in s'.calls ==> s'.calls[c].Resolved? || (c in s.calls && s'.calls[c] == s.calls[c])
    ensures SysInv(sha, s')
  {
    forall c | c in s'.calls
      ensures CallOk(sha, s'.db, s'.calls[c])
    {
      if c in s.calls {
        assert CallOk(sha, s.db, s.calls[c]);
      }
    }
  }

  lemma ReadCallOk(sha: Sha256, s: System, c: CallId, s': System)
    requires SysStep(sha, s, ReadHashes(c)) == Some(s') && c in s.calls && c in s'.calls
    requires var r, rows := s.calls[c], OfLedger(s.db.log, s.calls[c].ledger);
             RangeHashes(s.db, r.ledger, r.rangeStart, r.rangeEnd) == Covered(rows, |rows|, r.rangeStart, r.rangeEnd)
    ensures CallOk(sha, s.db, s'.calls[c]) && s' == s.(calls := s.calls[c := s'.calls[c]])
  {
  }

  lemma ReadKeepsSys(sha: Sha256, s: System, c: CallId, s': System)
    requires SysInv(sha, s) && SysStep(sha, s, ReadHashes(c)) == Some(s')
    ensures SysInv(sha, s') && s'.anchors == s.anchors
  {
    var r := s.calls[c];
    if c in s'.calls {
      RangeIsCovered(sha, s.db, r.ledger, r.rangeStart, r.rangeEnd);
      ReadCallOk(sha, s, c, s');
      NewCallKeepsSys(sha, s, c, s'.calls[c]);
    } else {
      CallsKeepSys(sha, s, s');
    }
  }

  lemma ResolveIsLocal(sha: Sha256, s: System, c: CallId, l: Ledger, lo: int, hi: int, s': System)
    requires SysStep(sha, s, Resolve(c, l, lo, hi)) == Some(s')
    ensures s'.db == s.db && s'.anchors == s.anchors
    ensures forall d :: d in s'.calls ==> s'.calls[d].Resolved? || (d in s.calls && s'.calls[d] == s.calls[d])
  {
  }

  lemma FinishIsLocal(sha: Sha256, s: System, c: CallId, s': System)
    requires SysStep(sha, s, Finish(c)) == Some(s')
    ensures s'.db == s.db && s'.anchors == s.anchors
    ensures forall d :: d in s'.calls ==> d in s.calls && s'.calls[d] == s.calls[d]
  {
  }

  lemma SysStepKeepsInv(sha: Sha256, s: System, e: Event, s': System)
    requires SysInv(sha, s) && SysStep(sha, s, e) == Some(s') && !TornEvent(s, e)
    ensures SysInv(sha, s') && s.anchors <= s'.anchors
  {
    match e
    case Append(a) => AppendKeepsSys(sha, s, a, s');
    case Resolve(c, l, lo, hi) =>
      ResolveIsLocal(sha, s, c, l, lo, hi, s');
      CallsKeepSys(sha, s, s');
    case ReadHashes(c) => ReadKeepsSys(sha, s, c, s');
    case Record(c, p, x) => RecordKeepsSys(sha, s, c, p, x, s');
    case Finish(c) =>
      FinishIsLocal(sha, s, c, s');
      CallsKeepSys(sha, s, s');
  }

  /** In every orderly run the invariant holds, and recorded anchors stay as they were recorded. */
  lemma {:induction false} SysExecKeepsInv(sha: Sha256, s: System, events: seq<Event>)
    requires SysInv(sha, s) && SysExec(sha, s, events).Some? && OrderlyRun(sha, s, events)
    ensures SysInv(sha, SysExec(sha, s, events).value)
    ensures s.anchors <= SysExec(sha, s, events).value.anchors
    decreases |events|
  {
    if events != [] {
      var n := SysStep(sha, s, events[0]).value;
      SysStepKeepsInv(sha, s, events[0], n);
      SysExecKeepsInv(sha, n, events[1..]);
    }
  }

  lemma StartInv(sha: Sha256, ledgers: set<Ledger>)
    ensures SysInv(sha, Start(ledgers))
  {
    InitInv(Sha256Hashes(sha), ledgers);
  }
}
