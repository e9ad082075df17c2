/** steps/proof.go on the running system: when a proof rebuilt later meets the root recorded earlier. */
module EndToEnd {
  import opened Bytes
  import opened EntryHashing
  import opened Chain
  import opened Merkle
  import opened MerkleTrees
  import opened MerkleBinding
  import opened Queries
  import opened Transactions
  import opened Anchoring
  import V = Verify

  // ---- what ProofHandler returns ----

  predicate Covers(a: AnchorRow, l: Ledger, q: int) {
    a.ledger == l && a.rangeStart <= q <= a.rangeEnd
  }

  /** The anchors whose range holds q, oldest first. */
  function Covering(anchors: seq<AnchorRow>, l: Ledger, q: int): seq<AnchorRow> {
    if anchors == [] then []
    else
      var n := |anchors| - 1;
      Covering(anchors[..n], l, q) + if Covers(anchors[n], l, q) then [anchors[n]] else []
  }

  /** Index of the last row with sequence q, or -1. */
  function IndexOf(rows: seq<Row>, q: int): (i: int)
    ensures -1 <= i < |rows|
  {
    if rows == [] then -1
    else if rows[|rows| - 1].columns.sequence == q then |rows| - 1
    else IndexOf(rows[..|rows| - 1], q)
  }

  datatype ProofReply = ProofReply(entry: Row, path: seq<GoString>, root: GoString, anchors: seq<AnchorRow>)

  /** InclusionProof when the sequence was found among the rows. */
  function PathAt(sha: Sha256, hashes: seq<GoString>, idx: int): seq<GoString>
    requires idx < |hashes|
  {
    if idx < 0 then [] else EncodeSteps(ProofSteps(sha, LeafNodes(sha, hashes), idx))
  }

  /**
   * ProofHandler's three SELECTs, each reading the system as it is when its turn comes: the entry, the
   * anchors, the hashes. No anchor: empty path and root. Otherwise the path comes from the first
   * anchor's range.
   */
  function ProofOf(sha: Sha256, first: System, second: System, third: System, l: Ledger, q: int)
      : Result<ProofReply, ()> {
    var at := IndexOf(OfLedger(first.db.log, l), q);
    if at < 0 then Err(())
    else
      var entry, anchors := OfLedger(first.db.log, l)[at], Covering(second.anchors, l, q);
      if anchors == [] then Ok(ProofReply(entry, [], [], []))
      else
        var a := anchors[0];
        var rows := Select(third.db.log, l, a.rangeStart, a.rangeEnd, false);
        Ok(ProofReply(entry, PathAt(sha, EntryHashes(rows), IndexOf(rows, q)), a.root, anchors))
  }

  lemma {:induction false} CoveringCovers(anchors: seq<AnchorRow>, l: Ledger, q: int)
    ensures forall a :: a in Covering(anchors, l, q) <==> a in anchors && Covers(a, l, q)
    decreases |anchors|
  {
    if anchors != [] {
      var n := |anchors| - 1;
      CoveringCovers(anchors[..n], l, q);
      assert anchors == anchors[..n] + [anchors[n]];
    }
  }

  lemma {:induction false} IndexOfNumbered(rows: seq<Row>, first: nat, q: int)
    requires forall i :: 0 <= i < |rows| ==> rows[i].columns.sequence == first + i
    ensures IndexOf(rows, q) == if first <= q < first + |rows| then q - first else -1
    decreases |rows|
  {
    if rows != [] {
      IndexOfNumbered(rows[..|rows| - 1], first, q);
    }
  }

  // ---- ranges of a growing ledger ----

  /** No row of the range has been committed since the hashes were read. */
  predicate Current(a: AnchorRow, n: nat) {
    a.rangeEnd <= a.seen || n <= a.seen
  }

  lemma SliceHashes(rows: seq<Row>, seen: nat, lo: int, hi: int)
    requires seen <= |rows|
    ensures var k, e := From(seen, lo), To(seen, lo, hi, false);
            Covered(rows, seen, lo, hi) == EntryHashes(rows[k..e])
  {
    assert rows[..seen][From(seen, lo)..To(seen, lo, hi, false)] == rows[From(seen, lo)..To(seen, lo, hi, false)];
  }

  /** A range read earlier is a prefix of the range read now, and all of it when nothing was added. */
  lemma CoveredGrows(rows: seq<Row>, seen: nat, lo: int, hi: int)
    requires seen <= |rows| && Covered(rows, seen, lo, hi) != []
    ensures Covered(rows, seen, lo, hi) <= Covered(rows, |rows|, lo, hi)
    ensures hi <= seen || |rows| <= seen <==> Covered(rows, seen, lo, hi) == Covered(rows, |rows|, lo, hi)
  {
    var n := |rows|;
    SliceHashes(rows, seen, lo, hi);
    SliceHashes(rows, n, lo, hi);
    var k, e, f := From(seen, lo), To(seen, lo, hi, false), To(n, lo, hi, false);
    assert From(n, lo) == k;
    var past, now := EntryHashes(rows[k..e]), EntryHashes(rows[k..f]);
    assert past == now[..|past|];
  }

  // ---- a proof rebuilt later ----

  /** The rows of a ledger that an anchored range covers now. */
  function CoveredRows(s: System, l: Ledger, a: AnchorRow): seq<Row> {
    Slice(OfLedger(s.db.log, l), a.rangeStart, a.rangeEnd, false)
  }

  /** The row of a committed, covered sequence stands in the range at its distance from the range's start. */
  lemma SliceFound(rows: seq<Row>, lo: int, hi: int, q: int)
    requires Numbered(rows) && 1 <= q <= |rows| && lo <= q <= hi
    ensures var slice, idx := Slice(rows, lo, hi, false), q - 1 - From(|rows|, lo);
            && 0 <= idx < |slice| && slice[idx] == rows[q - 1] && IndexOf(slice, q) == idx
  {
    var slice, k := Slice(rows, lo, hi, false), From(|rows|, lo);
    forall i | 0 <= i < |slice|
      ensures slice[i].columns.sequence == k + 1 + i
    {
      assert slice[i] == rows[k + i];
    }
    IndexOfNumbered(slice, k + 1, q);
  }

  lemma ProofOfFound(
      sha: Sha256, first: System, second: System, third: System, l: Ledger, q: int,
      a: AnchorRow, slice: seq<Row>, idx: nat, row: Row)
    requires Covering(second.anchors, l, q) != [] && a == Covering(second.anchors, l, q)[0]
    requires Select(third.db.log, l, a.rangeStart, a.rangeEnd, false) == slice && IndexOf(slice, q) == idx
    requires 0 < q <= |OfLedger(first.db.log, l)| && IndexOf(OfLedger(first.db.log, l), q) == q - 1
    requires row == OfLedger(first.db.log, l)[q - 1]
    ensures ProofOf(sha, first, second, third, l, q) ==
            Ok(ProofReply(row, PathAt(sha, EntryHashes(slice), idx), a.root, Covering(second.anchors, l, q)))
  {
  }

  lemma FoundInRange(s: System, l: Ledger, q: int, a: AnchorRow)
    requires Numbered(OfLedger(s.db.log, l)) && 1 <= q <= |OfLedger(s.db.log, l)| && Covers(a, l, q)
    ensures var rows, slice := OfLedger(s.db.log, l), CoveredRows(s, l, a);
            var idx := q - 1 - From(|rows|, a.rangeStart);
            && Select(s.db.log, l, a.rangeStart, a.rangeEnd, false) == slice
            && IndexOf(rows, q) == q - 1
            && 0 <= idx < |slice| && slice[idx] == rows[q - 1] && IndexOf(slice, q) == idx
  {
    var rows := OfLedger(s.db.log, l);
    SelectIsSlice(s.db.log, l, a.rangeStart, a.rangeEnd, false);
    IndexOfNumbered(rows, 1, q);
    SliceFound(rows, a.rangeStart, a.rangeEnd, q);
  }

  /** The entry is the row that the later query finds again. */
  lemma EntryStays(first: System, third: System, l: Ledger, q: int)
    requires OfLedger(first.db.log, l) <= OfLedger(third.db.log, l) && Numbered(OfLedger(third.db.log, l))
    requires 1 <= q <= |OfLedger(first.db.log, l)|
    ensures IndexOf(OfLedger(first.db.log, l), q) == q - 1
    ensures OfLedger(first.db.log, l)[q - 1] == OfLedger(third.db.log, l)[q - 1]
  {
    var rows := OfLedger(first.db.log, l);
    forall i | 0 <= i < |rows|
      ensures rows[i].columns.sequence == 1 + i
    {
      assert rows[i] == OfLedger(third.db.log, l)[i];
    }
    IndexOfNumbered(rows, 1, q);
  }

  /** The rebuilt path is the honest one for the range as it is when the hashes are read. */
  lemma PathMeetsCurrentRoot(
      sha: Sha256, first: System, second: System, third: System, l: Ledger, q: int,
      a: AnchorRow, now: seq<Row>, idx: int)
    requires OfLedger(first.db.log, l) <= OfLedger(third.db.log, l) && Numbered(OfLedger(third.db.log, l))
    requires 1 <= q <= |OfLedger(first.db.log, l)|
    requires Covering(second.anchors, l, q) != [] && a == Covering(second.anchors, l, q)[0] && Covers(a, l, q)
    requires now == CoveredRows(third, l, a) && idx == q - 1 - From(|OfLedger(third.db.log, l)|, a.rangeStart)
    ensures 0 <= idx < |now| && now[idx] == OfLedger(first.db.log, l)[q - 1]
    ensures ProofOf(sha, first, second, third, l, q) ==
            Ok(ProofReply(now[idx], PathAt(sha, EntryHashes(now), idx), a.root, Covering(second.anchors, l, q)))
  {
    EntryStays(first, third, l, q);
    FoundInRange(third, l, q, a);
    ProofOfFound(sha, first, second, third, l, q, a, now, idx, now[idx]);
  }

  /** Index of some row with this hash, or -1. */
  function FindHash(rows: seq<Row>, h: GoString): (i: int)
    ensures -1 <= i < |rows|
    ensures i >= 0 ==> rows[i].entryHash == h
    ensures i < 0 ==> forall k :: 0 <= k < |rows| ==> rows[k].entryHash != h
  {
    if rows == [] then -1
    else if rows[|rows| - 1].entryHash == h then |rows| - 1
    else FindHash(rows[..|rows| - 1], h)
  }

  /** Two different trees share a root, or row m and an earlier row share a hash. */
  function StaleCollision(sha: Sha256, l: Ledger, now: seq<Row>, m: nat): (c: Option<Collision>)
    requires 0 < m < |now|
    ensures c.Some? ==> IsCollision(sha, c.value)
  {
    var c, i := RootCollision(sha, EntryHashes(now), EntryHashes(now)[..m]), FindHash(now[..m], now[m].entryHash);
    if c.Some? then c else if i < 0 then None
    else
      var d := EntryCollision(l, now[m].columns, l, now[i].columns);
      if IsCollision(sha, d) then Some(d) else None
  }

  /** Row i carries its sequence and its own hash. */
  predicate RowKept(hs: Hashes, l: Ledger, rows: seq<Row>, first: nat, i: nat)
    requires i < |rows|
  {
    rows[i].columns.sequence == first + i && rows[i].entryHash == hs.entry(l, rows[i].columns)
  }

  ghost predicate AllKept(hs: Hashes, l: Ledger, rows: seq<Row>, first: nat) {
    forall i :: 0 <= i < |rows| ==> RowKept(hs, l, rows, first, i)
  }

  /** Two kept rows with one hash are one row, or their preimages collide. */
  lemma KeptApart(sha: Sha256, l: Ledger, rows: seq<Row>, first: nat, i: nat, j: nat)
    requires i < j < |rows| && RowKept(Sha256Hashes(sha), l, rows, first, i)
    requires RowKept(Sha256Hashes(sha), l, rows, first, j)
    requires rows[i].entryHash == rows[j].entryHash
    ensures IsCollision(sha, EntryCollision(l, rows[j].columns, l, rows[i].columns))
  {
    EntryHashPins(sha, l, rows[j].columns, l, rows[i].columns);
  }

  /** Equal roots repeat the added leaf among the earlier ones. */
  lemma AddedLeafRepeats(sha: Sha256, a: seq<GoString>, m: nat)
    requires 0 < m < |a|
    requires RootCollision(sha, a, a[..m]).None? && RootHex(sha, a) == RootHex(sha, a[..m])
    ensures exists i :: 0 <= i < m && a[i] == a[m]
  {
    var b, i := a[..m], Original(m, m);
    RootDetermines(sha, a, b);
    ExpansionPrefix(a);
    assert a[m] == Expansion(a)[m] == Expansion(b)[m] == b[i];
    assert b[i] == a[i];
  }

  lemma AddedRowRepeats(sha: Sha256, now: seq<Row>, m: nat)
    requires 0 < m < |now|
    requires var a := EntryHashes(now); RootCollision(sha, a, a[..m]).None? && RootHex(sha, a) == RootHex(sha, a[..m])
    ensures FindHash(now[..m], now[m].entryHash) >= 0
  {
    AddedLeafRepeats(sha, EntryHashes(now), m);
    var i :| 0 <= i < m && EntryHashes(now)[i] == EntryHashes(now)[m];
    assert now[..m][i].entryHash == now[m].entryHash;
  }

  /** A range that gained rows has another root, or a collision is exhibited. */
  lemma LongerRangeOtherRoot(sha: Sha256, l: Ledger, now: seq<Row>, m: nat, first: nat)
    requires 0 < m < |now|
    requires AllKept(Sha256Hashes(sha), l, now, first)
    ensures StaleCollision(sha, l, now, m).Some? ||
            RootHex(sha, EntryHashes(now)) != RootHex(sha, EntryHashes(now)[..m])
  {
    var a, i := EntryHashes(now), FindHash(now[..m], now[m].entryHash);
    if RootCollision(sha, a, a[..m]).None? && RootHex(sha, a) == RootHex(sha, a[..m]) {
      AddedRowRepeats(sha, now, m);
      KeptApart(sha, l, now, first, i, m);
    }
  }

  /** An honest path accepted against another list's root means the two roots are one. */
  lemma AcceptedMeansSameRoot(sha: Sha256, now: seq<GoString>, idx: nat, past: seq<GoString>)
    requires idx < |now| && past != []
    ensures Accepts(sha, now[idx], PathAt(sha, now, idx), RootHex(sha, past)) <==>
            RootHex(sha, now) == RootHex(sha, past)
  {
    var nodes := LeafNodes(sha, now);
    ProofStepsFold(sha, nodes, idx);
    DecodeEncodeSteps(ProofSteps(sha, nodes, idx));
    DecodeEncodeHex(RootNode(sha, nodes));
    DecodeEncodeHex(RootNode(sha, LeafNodes(sha, past)));
  }

  function CountThen(s: System, l: Ledger, a: AnchorRow): nat
    requires a.seen <= |OfLedger(s.db.log, l)|
  {
    |Covered(OfLedger(s.db.log, l), a.seen, a.rangeStart, a.rangeEnd)|
  }

  lemma CoveredRowsKept(hs: Hashes, s: System, l: Ledger, a: AnchorRow)
    requires WellChained(hs, l, OfLedger(s.db.log, l))
    ensures AllKept(hs, l, CoveredRows(s, l, a), From(|OfLedger(s.db.log, l)|, a.rangeStart) + 1)
  {
    var rows, now := OfLedger(s.db.log, l), CoveredRows(s, l, a);
    var k := From(|rows|, a.rangeStart);
    var first := k + 1;
    forall i | 0 <= i < |now|
      ensures RowKept(hs, l, now, first, i)
    {
      assert now[i] == rows[k + i];
      assert RowChained(hs, l, rows, k + i);
    }
  }

  /** How a rebuilt proof relates to the anchor it is rebuilt for. */
  ghost predicate Stands(sha: Sha256, s: System, l: Ledger, a: AnchorRow, p: ProofReply) {
    && p.root == a.root
    && a.seen <= |OfLedger(s.db.log, l)|
    && (Current(a, |OfLedger(s.db.log, l)|) ==> Accepts(sha, p.entry.entryHash, p.path, p.root))
    && (!Current(a, |OfLedger(s.db.log, l)|) ==>
          && 0 < CountThen(s, l, a) < |CoveredRows(s, l, a)|
          && (Accepts(sha, p.entry.entryHash, p.path, p.root) ==>
                StaleCollision(sha, l, CoveredRows(s, l, a), CountThen(s, l, a)).Some?))
  }

  /** The reply is for the right entry, lists all covering anchors, and stands with the first of them. */
  ghost predicate ProofStands(sha: Sha256, first: System, second: System, third: System, l: Ledger, q: int)
    requires 1 <= q <= |OfLedger(first.db.log, l)| && Covering(second.anchors, l, q) != []
  {
    var r := ProofOf(sha, first, second, third, l, q);
    && r.Ok?
    && r.value.entry == OfLedger(first.db.log, l)[q - 1]
    && r.value.anchors == Covering(second.anchors, l, q)
    && Stands(sha, third, l, Covering(second.anchors, l, q)[0], r.value)
  }

  /** A stale range: what was anchored is a proper prefix of what is there now, so the roots differ. */
  lemma StaleRoot(sha: Sha256, s: System, l: Ledger, a: AnchorRow)
    requires WellChained(Sha256Hashes(sha), l, OfLedger(s.db.log, l))
    requires RootOk(sha, s.db, l, a.rangeStart, a.rangeEnd, a.root, a.seen)
    ensures var now := EntryHashes(CoveredRows(s, l, a));
            && now != []
            && (Current(a, |OfLedger(s.db.log, l)|) ==> RootHex(sha, now) == a.root)
            && (!Current(a, |OfLedger(s.db.log, l)|) ==>
                  && 0 < CountThen(s, l, a) < |now|
                  && (RootHex(sha, now) == a.root ==>
                        StaleCollision(sha, l, CoveredRows(s, l, a), CountThen(s, l, a)).Some?))
  {
    var rows, nowRows := OfLedger(s.db.log, l), CoveredRows(s, l, a);
    CoveredGrows(rows, a.seen, a.rangeStart, a.rangeEnd);
    assert rows[..|rows|] == rows;
    var past := Covered(rows, a.seen, a.rangeStart, a.rangeEnd);
    if !Current(a, |rows|) {
      assert past == EntryHashes(nowRows)[..|past|];
      CoveredRowsKept(Sha256Hashes(sha), s, l, a);
      LongerRangeOtherRoot(sha, l, nowRows, |past|, From(|rows|, a.rangeStart) + 1);
    }
  }

  lemma HonestPathStands(sha: Sha256, s: System, l: Ledger, a: AnchorRow, p: ProofReply, idx: nat)
    requires WellChained(Sha256Hashes(sha), l, OfLedger(s.db.log, l))
    requires RootOk(sha, s.db, l, a.rangeStart, a.rangeEnd, a.root, a.seen)
    requires idx < |CoveredRows(s, l, a)| && p.entry == CoveredRows(s, l, a)[idx]
    requires p.path == PathAt(sha, EntryHashes(CoveredRows(s, l, a)), idx) && p.root == a.root
    ensures Stands(sha, s, l, a, p)
  {
    var now := EntryHashes(CoveredRows(s, l, a));
    StaleRoot(sha, s, l, a);
    var past := Covered(OfLedger(s.db.log, l), a.seen, a.rangeStart, a.rangeEnd);
    assert a.root == RootHex(sha, past) && p.entry.entryHash == now[idx];
    AcceptedMeansSameRoot(sha, now, idx, past);
  }

  lemma ProofStandsRoot(sha: Sha256, first: System, second: System, third: System, l: Ledger, q: int, a: AnchorRow)
    requires WellChained(Sha256Hashes(sha), l, OfLedger(third.db.log, l)) && Numbered(OfLedger(third.db.log, l))
    requires OfLedger(first.db.log, l) <= OfLedger(third.db.log, l) && 1 <= q <= |OfLedger(first.db.log, l)|
    requires Covering(second.anchors, l, q) != [] && a == Covering(second.anchors, l, q)[0] && Covers(a, l, q)
    requires RootOk(sha, third.db, l, a.rangeStart, a.rangeEnd, a.root, a.seen)
    ensures ProofStands(sha, first, second, third, l, q)
  {
    var now, idx := CoveredRows(third, l, a), q - 1 - From(|OfLedger(third.db.log, l)|, a.rangeStart);
    PathMeetsCurrentRoot(sha, first, second, third, l, q, a, now, idx);
    HonestPathStands(sha, third, l, a, ProofOf(sha, first, second, third, l, q).value, idx);
  }

  lemma FirstCovering(sha: Sha256, s: System, anchors: seq<AnchorRow>, l: Ledger, q: int)
    requires SysInv(sha, s) && anchors <= s.anchors && Covering(anchors, l, q) != []
    ensures var a := Covering(anchors, l, q)[0];
            a in s.anchors && Covers(a, l, q) && RootOk(sha, s.db, l, a.rangeStart, a.rangeEnd, a.root, a.seen)
  {
    var a := Covering(anchors, l, q)[0];
    CoveringCovers(anchors, l, q);
    assert a in Covering(anchors, l, q);
    assert AnchorOk(sha, s.db, a);
  }

  /** Between two states of a run rows and anchors are only added. */
  ghost predicate Later(s: System, s': System) {
    s.anchors <= s'.anchors && forall l :: OfLedger(s.db.log, l) <= OfLedger(s'.db.log, l)
  }

  lemma AppendIsLater(sha: Sha256, s: System, a: Action, s': System)
    requires SysStep(sha, s, Append(a)) == Some(s')
    ensures Later(s, s')
  {
    forall l
      ensures OfLedger(s.db.log, l) <= OfLedger(s'.db.log, l)
    {
      StepGrows(Sha256Hashes(sha), s.db, a, s'.db, l);
    }
  }

  lemma OtherIsLater(sha: Sha256, s: System, e: Event, s': System)
    requires SysStep(sha, s, e) == Some(s') && !e.Append? && s.anchors <= s'.anchors
    ensures Later(s, s')
  {
  }

  lemma StepIsLater(sha: Sha256, s: System, e: Event, s': System)
    requires SysInv(sha, s) && SysStep(sha, s, e) == Some(s') && !TornEvent(s, e)
    ensures Later(s, s')
  {
    if e.Append? {
      AppendIsLater(sha, s, e.action, s');
    } else {
      SysStepKeepsInv(sha, s, e, s');
      OtherIsLater(sha, s, e, s');
    }
  }

  lemma {:induction false} RunIsLater(sha: Sha256, s: System, events: seq<Event>)
    requires SysInv(sha, s) && SysExec(sha, s, events).Some? && OrderlyRun(sha, s, events)
    ensures SysInv(sha, SysExec(sha, s, events).value) && Later(s, SysExec(sha, s, events).value)
    decreases |events|
  {
    if events != [] {
      var n := SysStep(sha, s, events[0]).value;
      SysStepKeepsInv(sha, s, events[0], n);
      StepIsLater(sha, s, events[0], n);
      RunIsLater(sha, n, events[1..]);
    }
  }

  lemma ProofStandsInv(sha: Sha256, first: System, second: System, third: System, l: Ledger, q: int)
    requires SysInv(sha, third) && Later(first, third) && Later(second, third)
    requires 1 <= q <= |OfLedger(first.db.log, l)| && Covering(second.anchors, l, q) != []
    ensures ProofStands(sha, first, second, third, l, q)
  {
    LedgerNumbered(Sha256Hashes(sha), third.db, l);
    FirstCovering(sha, third, second.anchors, l, q);
    ProofStandsRoot(sha, first, second, third, l, q, Covering(second.anchors, l, q)[0]);
  }

  /** The events before a proof is asked for, between its first two SELECTs, and between its last two. */
  datatype Timing = Timing(before: seq<Event>, between: seq<Event>, after: seq<Event>)

  /** The three states that the SELECTs of one ProofHandler call read, in an orderly run. */
  ghost predicate Reads(sha: Sha256, ledgers: set<Ledger>, when: Timing, first: System, second: System, third: System) {
    && SysExec(sha, Start(ledgers), when.before) == Some(first) && OrderlyRun(sha, Start(ledgers), when.before)
    && SysExec(sha, first, when.between) == Some(second) && OrderlyRun(sha, first, when.between)
    && SysExec(sha, second, when.after) == Some(third) && OrderlyRun(sha, second, when.after)
  }

  lemma ReadsInOrder(sha: Sha256, ledgers: set<Ledger>, when: Timing, first: System, second: System, third: System)
    requires Reads(sha, ledgers, when, first, second, third)
    ensures SysInv(sha, first) && SysInv(sha, second) && SysInv(sha, third) && Later(first, third)
    ensures Later(second, third)
  {
    StartInv(sha, ledgers);
    RunIsLater(sha, Start(ledgers), when.before);
    RunIsLater(sha, first, when.between);
    RunIsLater(sha, second, when.after);
  }

  /**
   * Whenever the three SELECTs of a proof are served in an orderly run, for every committed and covered
   * sequence: the returned path and root satisfy the verifier when no row of the anchored range was
   * committed between the reading of its hashes for the anchor and their reading for the proof, and
   * otherwise they do not, unless a collision is exhibited.
   */
  lemma ProofVerifiesWhenCurrent(
      sha: Sha256, ledgers: set<Ledger>, when: Timing, first: System, second: System, third: System, l: Ledger, q: int)
    requires Reads(sha, ledgers, when, first, second, third)
    requires 1 <= q <= |OfLedger(first.db.log, l)| && Covering(second.anchors, l, q) != []
    ensures ProofStands(sha, first, second, third, l, q)
  {
    ReadsInOrder(sha, ledgers, when, first, second, third);
    ProofStandsInv(sha, first, second, third, l, q);
  }

  // ---- anchoring only what is committed ----

  function CommittedEnd(db: Db, l: Ledger): nat {
    if l in db.cursors then db.cursors[l].lastSequence else 0
  }

  /** An anchor request ends at 0 or at a sequence that is committed when it is made. */
  predicate PoliteStep(s: System, e: Event) {
    e.Resolve? ==> e.rangeEnd <= CommittedEnd(s.db, e.ledger)
  }

  predicate PoliteRun(sha: Sha256, s: System, events: seq<Event>)
    decreases |events|
  {
    events != [] ==>
      && PoliteStep(s, events[0])
      && (SysStep(sha, s, events[0]).Some? ==> PoliteRun(sha, SysStep(sha, s, events[0]).value, events[1..]))
  }

  predicate CallPolite(db: Db, c: Call) {
    c.rangeEnd <= if c.Resolved? then |OfLedger(db.log, c.ledger)| else c.seen
  }

  ghost predicate PoliteInv(s: System) {
    && (forall c :: c in s.calls ==> CallPolite(s.db, s.calls[c]))
    && (forall a :: a in s.anchors ==> a.rangeEnd <= a.seen)
  }

  lemma CommittedEndIsCount(sha: Sha256, s: System, l: Ledger)
    requires SysInv(sha, s)
    ensures CommittedEnd(s.db, l) == |OfLedger(s.db.log, l)|
  {
    LedgerNumbered(Sha256Hashes(sha), s.db, l);
  }

  lemma AppendStaysPolite(sha: Sha256, s: System, a: Action, s': System)
    requires PoliteInv(s) && SysStep(sha, s, Append(a)) == Some(s')
    ensures PoliteInv(s')
  {
    forall c | c in s'.calls
      ensures CallPolite(s'.db, s'.calls[c])
    {
      assert CallPolite(s.db, s.calls[c]);
      StepGrows(Sha256Hashes(sha), s.db, a, s'.db, s.calls[c].ledger);
    }
  }

  lemma ResolveStaysPolite(s: System, c: CallId, l: Ledger, lo: int, hi: int)
    requires PoliteInv(s) && hi <= |OfLedger(s.db.log, l)|
    ensures PoliteInv(s.(calls := s.calls[c := Resolved(l, lo, hi)]))
  {
  }

  lemma ReadStaysPolite(sha: Sha256, s: System, c: CallId, s': System)
    requires PoliteInv(s) && SysStep(sha, s, ReadHashes(c)) == Some(s')
    ensures PoliteInv(s')
  {
    assert CallPolite(s.db, s.calls[c]);
  }

  lemma RecordStaysPolite(sha: Sha256, s: System, c: CallId, provider: GoString, externalId: GoString, s': System)
    requires PoliteInv(s) && SysStep(sha, s, Record(c, provider, externalId)) == Some(s')
    ensures PoliteInv(s')
  {
    assert CallPolite(s.db, s.calls[c]);
  }

  lemma StepStaysPolite(sha: Sha256, s: System, e: Event, s': System)
    requires SysInv(sha, s) && PoliteInv(s) && PoliteStep(s, e) && SysStep(sha, s, e) == Some(s')
    ensures PoliteInv(s')
  {
    match e
    case Append(a) => AppendStaysPolite(sha, s, a, s');
    case Resolve(c, l, lo, hi) =>
      CommittedEndIsCount(sha, s, l);
      ResolveStaysPolite(s, c, l, lo, if hi == 0 then CommittedEnd(s.db, l) else hi);
    case ReadHashes(c) => ReadStaysPolite(sha, s, c, s');
    case Record(c, p, x) => RecordStaysPolite(sha, s, c, p, x, s');
    case Finish(_) =>
  }

  lemma {:induction false} RunStaysPolite(sha: Sha256, s: System, events: seq<Event>)
    requires SysInv(sha, s) && PoliteInv(s) && PoliteRun(sha, s, events) && SysExec(sha, s, events).Some?
    requires OrderlyRun(sha, s, events)
    ensures PoliteInv(SysExec(sha, s, events).value) && SysInv(sha, SysExec(sha, s, events).value)
    decreases |events|
  {
    if events != [] {
      var n := SysStep(sha, s, events[0]).value;
      SysStepKeepsInv(sha, s, events[0], n);
      StepStaysPolite(sha, s, events[0], n);
      RunStaysPolite(sha, n, events[1..]);
    }
  }

  /** All anchor calls around a proof name committed ends. */
  predicate PoliteReads(sha: Sha256, ledgers: set<Ledger>, when: Timing, first: System) {
    PoliteRun(sha, Start(ledgers), when.before) && PoliteRun(sha, first, when.between)
  }

  /**
   * Whatever appends, rollbacks, retries and anchor calls are interleaved, before the proof and between
   * its SELECTs, as long as anchors name committed ends and nobody commits after an AppendTx that
   * returned between its INSERT and its UPDATE: every committed, covered sequence gets a path and root
   * that the verifier accepts.
   */
  lemma EveryCoveredEntryProvable(
      sha: Sha256, ledgers: set<Ledger>, when: Timing, first: System, second: System, third: System, l: Ledger, q: int)
    requires Reads(sha, ledgers, when, first, second, third) && PoliteReads(sha, ledgers, when, first)
    requires 1 <= q <= |OfLedger(first.db.log, l)| && Covering(second.anchors, l, q) != []
    ensures ProofOf(sha, first, second, third, l, q).Ok?
    ensures var p := ProofOf(sha, first, second, third, l, q).value;
            && p.entry == OfLedger(first.db.log, l)[q - 1]
            && p.root == Covering(second.anchors, l, q)[0].root
            && Accepts(sha, p.entry.entryHash, p.path, p.root)
  {
    ReadsInOrder(sha, ledgers, when, first, second, third);
    StartInv(sha, ledgers);
    RunStaysPolite(sha, Start(ledgers), when.before);
    RunStaysPolite(sha, first, when.between);
    FirstCovering(sha, second, second.anchors, l, q);
    ProofStandsInv(sha, first, second, third, l, q);
  }

  /** Some committed row of the ledger, with its sequence in the range, carries this hash. */
  ghost predicate CommittedInRange(s: System, l: Ledger, lo: int, hi: int, h: GoString) {
    exists i :: 0 <= i < |OfLedger(s.db.log, l)| && lo <= i + 1 <= hi && OfLedger(s.db.log, l)[i].entryHash == h
  }

  lemma CoveredIsCommitted(s: System, l: Ledger, seen: nat, lo: int, hi: int, h: GoString)
    requires seen <= |OfLedger(s.db.log, l)| && h in Covered(OfLedger(s.db.log, l), seen, lo, hi)
    ensures CommittedInRange(s, l, lo, hi, h)
  {
    var rows := OfLedger(s.db.log, l);
    SliceHashes(rows, seen, lo, hi);
    var k := From(seen, lo);
    var j :| 0 <= j < |Covered(rows, seen, lo, hi)| && Covered(rows, seen, lo, hi)[j] == h;
    assert rows[k + j].entryHash == h;
  }

  lemma AcceptedLeafCovered(sha: Sha256, leaves: seq<GoString>, leaf: GoString, proof: seq<GoString>)
    requires leaves != [] && Accepts(sha, leaf, proof, RootHex(sha, leaves))
    ensures InclusionCollision(sha, leaves, leaf, proof).Some? || leaf in leaves
  {
    if InclusionCollision(sha, leaves, leaf, proof).None? {
      InclusionSound(sha, leaves, leaf, proof);
    }
  }

  /**
   * Whoever made the proof, in every orderly run: a string that verifies against a recorded root is the entry hash of a
   * committed row in the anchored range, or a collision is exhibited.
   */
  lemma AcceptedMeansCommitted(
      sha: Sha256, ledgers: set<Ledger>, events: seq<Event>, s: System, a: AnchorRow, leaf: GoString,
      proof: seq<GoString>)
    requires SysExec(sha, Start(ledgers), events) == Some(s) && OrderlyRun(sha, Start(ledgers), events)
    requires a in s.anchors
    requires Accepts(sha, leaf, proof, a.root)
    ensures a.seen <= |OfLedger(s.db.log, a.ledger)|
    ensures var leaves := Covered(OfLedger(s.db.log, a.ledger), a.seen, a.rangeStart, a.rangeEnd);
            leaves != [] && a.root == RootHex(sha, leaves) &&
            (InclusionCollision(sha, leaves, leaf, proof).Some? ||
                CommittedInRange(s, a.ledger, a.rangeStart, a.rangeEnd, leaf))
  {
    StartInv(sha, ledgers);
    SysExecKeepsInv(sha, Start(ledgers), events);
    assert AnchorOk(sha, s.db, a);
    var leaves := Covered(OfLedger(s.db.log, a.ledger), a.seen, a.rangeStart, a.rangeEnd);
    AcceptedLeafCovered(sha, leaves, leaf, proof);
    if leaf in leaves {
      CoveredIsCommitted(s, a.ledger, a.seen, a.rangeStart, a.rangeEnd, leaf);
    }
  }

  predicate SameRange(a: AnchorRow, b: AnchorRow) {
    a.ledger == b.ledger && a.rangeStart == b.rangeStart && a.rangeEnd == b.rangeEnd
  }

  lemma SameRangeSameRootInv(sha: Sha256, s: System, a: AnchorRow, b: AnchorRow)
    requires SysInv(sha, s) && PoliteInv(s) && a in s.anchors && b in s.anchors
    requires SameRange(a, b)
    ensures a.root == b.root
  {
    assert AnchorOk(sha, s.db, a) && AnchorOk(sha, s.db, b);
    var rows := OfLedger(s.db.log, a.ledger);
    CoveredGrows(rows, a.seen, a.rangeStart, a.rangeEnd);
    CoveredGrows(rows, b.seen, b.rangeStart, b.rangeEnd);
  }

  /**
   * Repeated and partly failing anchor calls: at most one row per ledger, provider and range, rows
   * already recorded stay as they are, and all rows for one range carry one root.
   */
  lemma AnchorRetries(sha: Sha256, ledgers: set<Ledger>, earlier: seq<Event>, s: System, more: seq<Event>, s': System)
    requires SysExec(sha, Start(ledgers), earlier) == Some(s) && SysExec(sha, s, more) == Some(s')
    requires PoliteRun(sha, Start(ledgers), earlier) && PoliteRun(sha, s, more)
    requires OrderlyRun(sha, Start(ledgers), earlier) && OrderlyRun(sha, s, more)
    ensures s.anchors <= s'.anchors
    ensures forall i, j :: 0 <= i < j < |s'.anchors| ==>
              !(SameRange(s'.anchors[i], s'.anchors[j]) && s'.anchors[i].provider == s'.anchors[j].provider)
    ensures forall a, b :: a in s'.anchors && b in s'.anchors && SameRange(a, b) ==> a.root == b.root
  {
    StartInv(sha, ledgers);
    RunStaysPolite(sha, Start(ledgers), earlier);
    SysExecKeepsInv(sha, s, more);
    RunStaysPolite(sha, s, more);
    forall a, b | a in s'.anchors && b in s'.anchors && SameRange(a, b)
      ensures a.root == b.root
    {
      SameRangeSameRootInv(sha, s', a, b);
    }
  }

  // ---- the scan on ledgers that were really appended ----

  lemma ReachableChained(hs: Hashes, ledgers: set<Ledger>, acts: seq<Action>, s: Db, l: Ledger)
    requires Exec(hs, Init(ledgers), acts) == Some(s) && Orderly(hs, Init(ledgers), acts)
    ensures WellChained(hs, l, OfLedger(s.log, l)) && Numbered(OfLedger(s.log, l))
  {
    InitInv(hs, ledgers);
    ExecKeepsInv(hs, Init(ledgers), acts);
    LedgerNumbered(hs, s, l);
  }

  lemma PassingReport(hs: Hashes, l: Ledger, rows: seq<Row>, r: V.Report)
    requires V.Passes(hs, l, rows) && V.Exact(hs, l, rows, r)
    ensures r == V.Valid(|rows|)
  {
    V.ReportUnique(hs, l, rows, r, V.Valid(|rows|));
  }

  /** Every range of every ledger that an orderly run leaves is reported valid, with all its entries counted. */
  lemma ReachableRangeVerifies(
      sha: Sha256, ledgers: set<Ledger>, acts: seq<Action>, s: Db, l: Ledger, lo: int, hi: int, open: bool, r: V.Report)
    requires Exec(Sha256Hashes(sha), Init(ledgers), acts) == Some(s) && Orderly(Sha256Hashes(sha), Init(ledgers), acts)
    requires V.Exact(Sha256Hashes(sha), l, Select(s.log, l, lo, hi, open), r)
    ensures var n := |OfLedger(s.log, l)|; r == V.Valid(To(n, lo, hi, open) - From(n, lo))
  {
    ReachableChained(Sha256Hashes(sha), ledgers, acts, s, l);
    V.ChainedPasses(Sha256Hashes(sha), l, s.log, lo, hi, open);
    SelectIsSlice(s.log, l, lo, hi, open);
    PassingReport(Sha256Hashes(sha), l, Select(s.log, l, lo, hi, open), r);
  }

  /**
   * An accepted scan whose last hash is that of row k of a ledger that an orderly run leaves repeats, column by column,
   * the rows that lead up to row k and starts no earlier than the ledger does, or exhibits a collision.
   */
  lemma LedgerTamperEvident(
      sha: Sha256, ledgers: set<Ledger>, acts: seq<Action>, s: Db, l: Ledger, scanned: seq<Row>, k: nat)
    requires Exec(Sha256Hashes(sha), Init(ledgers), acts) == Some(s) && Orderly(Sha256Hashes(sha), Init(ledgers), acts)
    requires k < |OfLedger(s.log, l)|
    requires V.Passes(Sha256Hashes(sha), l, scanned) && scanned != []
    requires scanned[|scanned| - 1].entryHash == OfLedger(s.log, l)[k].entryHash
    ensures var genuine := OfLedger(s.log, l)[..k + 1];
            V.TamperCollision(sha, l, scanned, genuine).Some? || V.EndsLike(scanned, genuine)
  {
    var hs, rows := Sha256Hashes(sha), OfLedger(s.log, l);
    ReachableChained(hs, ledgers, acts, s, l);
    WellChainedInit(hs, l, rows, k + 1);
    V.TamperEvident(sha, l, scanned, rows[..k + 1]);
  }
}
