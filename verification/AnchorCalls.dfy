/**
 * steps/anchor.go, one call: why it ends, which range it settles on and what the root is of, which submissions
 * it records and what it answers.
 */
module AnchorCalls {
  import opened Bytes
  import opened Chain
  import opened Merkle
  import opened Queries
  import opened Transactions
  import opened Anchoring
  import opened Database

  // ---- refusals ----

  /** The table holds a row of the ledger with a sequence from lo to hi. */
  ghost predicate HasRowBetween(log: seq<LogRow>, l: Ledger, lo: int, hi: int) {
    exists r :: InTable(log, l, r) && lo <= r.columns.sequence <= hi
  }

  lemma NoHashesIff(s: Db, l: Ledger, lo: int, hi: int)
    ensures RangeHashes(s, l, lo, hi) == [] <==> !HasRowBetween(s.log, l, lo, hi)
  {
    var rows := Select(s.log, l, lo, hi, false);
    SelectIs(s.log, l, lo, hi, false);
    if rows != [] {
      assert rows[0] in rows;
    }
  }

  /** End 0 means the last sequence in the ledger's row. */
  lemma AnchorRefusalIs(registry: set<Ledger>, s: Db, l: Ledger, lo: int, hi: int, outage: Outage)
    ensures AnchorRefusal(registry, s, l, lo, hi, outage) ==
            if l == [] then Some(LedgerRequired)
            else if l !in registry then Some(NotRegistered)
            else if hi == 0 && outage == EndQuery then Some(QueryFailed)
            else if hi == 0 && l !in s.cursors then Some(NoLedgerRow)
            else if outage == HashQuery then Some(QueryFailed)
            else if HasRowBetween(s.log, l, lo, if hi == 0 then s.cursors[l].lastSequence else hi) then None
            else Some(NoEntries)
  {
    NoHashesIff(s, l, lo, hi);
    if l in s.cursors {
      NoHashesIff(s, l, lo, s.cursors[l].lastSequence);
    }
  }

  // ---- the range and its root ----

  lemma SliceFrom(rows: seq<Row>, lo: int, hi: int)
    requires 1 <= lo <= |rows| && lo <= hi
    ensures Slice(rows, lo, hi, false) == if hi < |rows| then rows[lo - 1..hi] else rows[lo - 1..]
    ensures Slice(rows, lo, hi, false) != []
  {
    assert rows[lo - 1..|rows|] == rows[lo - 1..];
  }

  /**
   * On sound tables a call that starts inside the ledger is for the rows from its start on: up to the last
   * committed one when the end is 0, and otherwise as far as the ledger goes. The recorded end is the last
   * sequence, or the one asked for.
   */
  lemma AnchoredRange(sha: Sha256, s: Db, l: Ledger, lo: int, hi: int)
    requires Inv(Sha256Hashes(sha), s) && l in s.cursors
    requires 1 <= lo <= |OfLedger(s.log, l)| && (hi == 0 || lo <= hi)
    ensures RangeEnd(s, l, hi).Some? && RangeHashes(s, l, lo, RangeEnd(s, l, hi).value) != []
    ensures var rows := OfLedger(s.log, l);
            var n := |rows|;
            BaseRow(sha, s, l, lo, RangeEnd(s, l, hi).value) ==
            if hi == 0 then AnchorRow(l, lo, n, RootHex(sha, EntryHashes(rows[lo - 1..])), [], [], n)
            else if hi < n then AnchorRow(l, lo, hi, RootHex(sha, EntryHashes(rows[lo - 1..hi])), [], [], n)
            else AnchorRow(l, lo, hi, RootHex(sha, EntryHashes(rows[lo - 1..])), [], [], n)
  {
    var rows := OfLedger(s.log, l);
    var end := if hi == 0 then |rows| else hi;
    LedgerNumbered(Sha256Hashes(sha), s, l);
    SelectIsSlice(s.log, l, lo, end, false);
    SliceFrom(rows, lo, end);
  }

  // ---- what is recorded ----

  /** Some anchor of the ledger and range by this provider. */
  ghost predicate AnchoredBy(anchors: seq<AnchorRow>, base: AnchorRow, provider: GoString) {
    exists a :: a in anchors && a.ledger == base.ledger && a.provider == provider
                && a.rangeStart == base.rangeStart && a.rangeEnd == base.rangeEnd
  }

  lemma AnchoredByIs(anchors: seq<AnchorRow>, base: AnchorRow, provider: GoString)
    ensures AnchoredBy(anchors, base, provider) <==>
              Anchored(anchors, base.ledger, provider, base.rangeStart, base.rangeEnd)
  {
    if AnchoredBy(anchors, base, provider) {
      var a :| a in anchors && SameKey(a, base.ledger, provider, base.rangeStart, base.rangeEnd);
      var i :| 0 <= i < |anchors| && anchors[i] == a;
      assert SameKey(anchors[i], base.ledger, provider, base.rangeStart, base.rangeEnd);
    }
    if Anchored(anchors, base.ledger, provider, base.rangeStart, base.rangeEnd) {
      var i :| 0 <= i < |anchors| && SameKey(anchors[i], base.ledger, provider, base.rangeStart, base.rangeEnd);
      assert anchors[i] in anchors;
    }
  }

  /** The row that submission k leaves. */
  function RowOf(base: AnchorRow, reply: AnchorReply): AnchorRow
    requires reply.Submitted?
  {
    AnchorRow(base.ledger, base.rangeStart, base.rangeEnd, base.root, reply.provider, reply.externalId, base.seen)
  }

  /** Submission k is recorded: nobody anchored the range at its provider before, in the table or in this call. */
  ghost predicate IsRecorded(anchors: seq<AnchorRow>, base: AnchorRow, done: seq<AnchorReply>, k: nat)
    requires forall i :: 0 <= i < |done| ==> done[i].Submitted?
    requires k < |done|
  {
    !AnchoredBy(anchors, base, done[k].provider) && forall j :: 0 <= j < k ==> done[j].provider != done[k].provider
  }

  /** The rows that a call adds, in the order of its submissions. */
  ghost function NewRows(anchors: seq<AnchorRow>, base: AnchorRow, done: seq<AnchorReply>, n: nat): seq<AnchorRow>
    requires forall i :: 0 <= i < |done| ==> done[i].Submitted?
    requires n <= |done|
  {
    if n == 0 then []
    else
      NewRows(anchors, base, done, n - 1) +
      if IsRecorded(anchors, base, done, n - 1) then [RowOf(base, done[n - 1])] else []
  }

  lemma AddedRow(anchors: seq<AnchorRow>, row: AnchorRow, base: AnchorRow, provider: GoString)
    requires row.ledger == base.ledger && row.rangeStart == base.rangeStart && row.rangeEnd == base.rangeEnd
    ensures AnchoredBy(anchors + [row], base, provider) <==>
              AnchoredBy(anchors, base, provider) || row.provider == provider
  {
    assert row in anchors + [row];
    if AnchoredBy(anchors, base, provider) {
      var a :| a in anchors && SameKey(a, base.ledger, provider, base.rangeStart, base.rangeEnd);
      assert a in anchors + [row];
    }
  }

  lemma {:induction false} NewRowsProviders(
      anchors: seq<AnchorRow>, base: AnchorRow, done: seq<AnchorReply>, n: nat, provider: GoString)
    requires (forall i :: 0 <= i < |done| ==> done[i].Submitted?) && n <= |done|
    ensures AnchoredBy(anchors + NewRows(anchors, base, done, n), base, provider) <==>
              AnchoredBy(anchors, base, provider) || exists j :: 0 <= j < n && done[j].provider == provider
  {
    if n == 0 {
      assert anchors + NewRows(anchors, base, done, 0) == anchors;
    } else {
      var before := NewRows(anchors, base, done, n - 1);
      NewRowsProviders(anchors, base, done, n - 1, provider);
      if IsRecorded(anchors, base, done, n - 1) {
        var row := RowOf(base, done[n - 1]);
        assert anchors + NewRows(anchors, base, done, n) == anchors + before + [row];
        AddedRow(anchors + before, row, base, provider);
      } else {
        assert anchors + NewRows(anchors, base, done, n) == anchors + before;
      }
    }
  }

  lemma {:induction false} RecordsPrefix(anchors: seq<AnchorRow>, base: AnchorRow, done: seq<AnchorReply>, n: nat)
    requires (forall i :: 0 <= i < |done| ==> done[i].Submitted?) && n <= |done|
    ensures RecordAll(anchors, base, done[..n]) == anchors + NewRows(anchors, base, done, n)
  {
    if n == 0 {
      assert RecordAll(anchors, base, done[..0]) == anchors;
    } else {
      RecordsPrefix(anchors, base, done, n - 1);
      assert done[..n][..n - 1] == done[..n - 1];
      var before := anchors + NewRows(anchors, base, done, n - 1);
      NewRowsProviders(anchors, base, done, n - 1, done[n - 1].provider);
      AnchoredByIs(before, base, done[n - 1].provider);
      assert RecordAll(anchors, base, done[..n]) == InsertAnchor(before, RowOf(base, done[n - 1]));
    }
  }

  /**
   * What a call records: the rows there were, and for each submission whose provider had not anchored this range,
   * in the table or earlier in the call, one row with the ledger, the range and the root of the call and the
   * provider and reference of the submission.
   */
  lemma RecordAllIs(anchors: seq<AnchorRow>, base: AnchorRow, done: seq<AnchorReply>)
    requires forall i :: 0 <= i < |done| ==> done[i].Submitted?
    ensures RecordAll(anchors, base, done) == anchors + NewRows(anchors, base, done, |done|)
    ensures forall k :: 0 <= k < |done| ==> AnchoredBy(RecordAll(anchors, base, done), base, done[k].provider)
  {
    RecordsPrefix(anchors, base, done, |done|);
    assert done[..|done|] == done;
    forall k | 0 <= k < |done|
      ensures AnchoredBy(RecordAll(anchors, base, done), base, done[k].provider)
    {
      NewRowsProviders(anchors, base, done, |done|, done[k].provider);
    }
  }

  // ---- the answer ----

  /** The submissions are the providers' answers in turn, up to the first that is no submission. */
  lemma {:induction false} SubmissionsAre(ask: Ask, names: seq<GoString>, i: nat, root: GoString)
    requires i <= |names|
    ensures var done := Submissions(ask, names, i, root);
            && (forall k :: 0 <= k < |done| ==> done[k] == ask(i + k, names[i + k], root))
            && (i + |done| < |names| ==> !ask(i + |done|, names[i + |done|], root).Submitted?)
            && (forall k :: i <= k < |names| && !ask(k, names[k], root).Submitted? ==> i + |done| <= k)
    decreases |names| - i
  {
    if i < |names| && ask(i, names[i], root).Submitted? {
      var rest := Submissions(ask, names, i + 1, root);
      SubmissionsAre(ask, names, i + 1, root);
      forall k | 0 <= k < |rest| + 1
        ensures ([ask(i, names[i], root)] + rest)[k] == ask(i + k, names[i + k], root)
      {
        if k > 0 {
          assert rest[k - 1] == ask(i + 1 + (k - 1), names[i + 1 + (k - 1)], root);
        }
      }
    }
  }

  /** All providers submit, and the answer is the list of their submissions. */
  lemma AllSubmitted(ask: Ask, used: seq<GoString>, root: GoString, r: Result<seq<AnchorReply>, HandlerError>)
    requires Reported(ask, used, root, r)
    ensures r.Ok? <==> forall i :: 0 <= i < |used| ==> ask(i, used[i], root).Submitted?
    ensures r.Ok? ==> |r.value| == |used| && forall i :: 0 <= i < |used| ==> r.value[i] == ask(i, used[i], root)
  {
    var done := Submissions(ask, used, 0, root);
    SubmissionsAre(ask, used, 0, root);
    if |done| == |used| {
      forall i | 0 <= i < |used|
        ensures ask(i, used[i], root).Submitted?
      {
        assert done[i] == ask(0 + i, used[0 + i], root);
      }
    }
  }

  /** Otherwise the first provider that does not submit decides the error, and those before it are recorded. */
  lemma FirstFailure(
      ask: Ask, used: seq<GoString>, root: GoString, n: nat, r: Result<seq<AnchorReply>, HandlerError>)
    requires Reported(ask, used, root, r) && n < |used| && !ask(n, used[n], root).Submitted?
    requires forall i :: 0 <= i < n ==> ask(i, used[i], root).Submitted?
    ensures |Submissions(ask, used, 0, root)| == n
    ensures ask(n, used[n], root) == Missing ==> r == Err(ProviderMissing)
    ensures ask(n, used[n], root) == Failing ==> r == Err(ProviderFailed)
    ensures ask(n, used[n], root) == Unstored ==> r == Err(InsertFailed)
  {
    SubmissionsAre(ask, used, 0, root);
  }
}
