/** The rows of one ledger as a single, uninterrupted writer would produce them. */
module Chain {
  import opened Bytes
  import opened EntryHashing
  import opened Canonical

  type Ledger = GoString

  /**
   * The two hash computations an append makes, as functions. The protocol never looks inside them, so
   * its theorems hold for every pair; Sha256Hashes is the pair the source uses.
   */
  datatype Hashes = Hashes(entry: (Ledger, Columns) -> GoString, payload: Payload -> Result<GoString, ()>)

  function Sha256Hashes(sha: Sha256): Hashes {
    Hashes((l: Ledger, c: Columns) => EntryHash(sha, l, c), (p: Payload) => PayloadHash(sha, p))
  }

  /** The hashed columns of an audit_log row and its entry_hash column. */
  datatype Row = Row(columns: Columns, entryHash: GoString)

  /** A row of the audit_ledgers table; a new ledger starts at (0, ""). */
  datatype Cursor = Cursor(lastSequence: nat, lastHash: GoString)

  /** What an append asks for. */
  datatype Request = Request(ledger: Ledger, eventType: GoString, payload: Payload)

  /** What an append leaves behind besides its place in the chain. */
  datatype Entry = Entry(eventType: GoString, payloadHash: GoString)

  /** Step 2 of AppendTx: the row that continues a cursor. */
  function NextRow(hs: Hashes, l: Ledger, c: Cursor, e: Entry): Row {
    var columns := Columns(c.lastSequence + 1, e.eventType, e.payloadHash, c.lastHash);
    Row(columns, hs.entry(l, columns))
  }

  function TailCursor(rows: seq<Row>): Cursor {
    if rows == [] then Cursor(0, []) else Cursor(|rows|, rows[|rows| - 1].entryHash)
  }

  /** The ledger after the given entries, appended one after the other. */
  function ChainOf(hs: Hashes, l: Ledger, es: seq<Entry>): (rows: seq<Row>)
    ensures |rows| == |es|
  {
    if es == [] then []
    else
      var before := ChainOf(hs, l, es[..|es| - 1]);
      before + [NextRow(hs, l, TailCursor(before), es[|es| - 1])]
  }

  lemma ChainSnoc(hs: Hashes, l: Ledger, es: seq<Entry>, e: Entry)
    ensures ChainOf(hs, l, es + [e]) == ChainOf(hs, l, es) + [NextRow(hs, l, TailCursor(ChainOf(hs, l, es)), e)]
  {
    assert (es + [e])[..|es|] == es;
  }

  /** Row i holds sequence i+1, links to the row before it, and carries its own hash. */
  predicate RowChained(hs: Hashes, l: Ledger, rows: seq<Row>, i: nat)
    requires i < |rows|
  {
    && rows[i].columns.sequence == i + 1
    && rows[i].columns.prevHash == (if i == 0 then [] else rows[i - 1].entryHash)
    && rows[i].entryHash == hs.entry(l, rows[i].columns)
  }

  /** No gap, no duplicate, every link and every hash in place. */
  predicate WellChained(hs: Hashes, l: Ledger, rows: seq<Row>) {
    forall i :: 0 <= i < |rows| ==> RowChained(hs, l, rows, i)
  }

  predicate RowHolds(r: Row, e: Entry) {
    r.columns.eventType == e.eventType && r.columns.payloadHash == e.payloadHash
  }

  lemma {:induction false} ChainRow(hs: Hashes, l: Ledger, es: seq<Entry>, i: nat)
    requires i < |es|
    ensures RowChained(hs, l, ChainOf(hs, l, es), i) && RowHolds(ChainOf(hs, l, es)[i], es[i])
    decreases |es|
  {
    if i < |es| - 1 {
      ChainRow(hs, l, es[..|es| - 1], i);
    }
  }

  lemma ChainIsWellChained(hs: Hashes, l: Ledger, es: seq<Entry>)
    ensures WellChained(hs, l, ChainOf(hs, l, es))
    ensures forall i :: 0 <= i < |es| ==> RowHolds(ChainOf(hs, l, es)[i], es[i])
  {
    forall i | 0 <= i < |es|
      ensures RowChained(hs, l, ChainOf(hs, l, es), i) && RowHolds(ChainOf(hs, l, es)[i], es[i])
    {
      ChainRow(hs, l, es, i);
    }
  }

  lemma WellChainedInit(hs: Hashes, l: Ledger, rows: seq<Row>, n: nat)
    requires WellChained(hs, l, rows) && n <= |rows|
    ensures WellChained(hs, l, rows[..n])
  {
    forall i | 0 <= i < n
      ensures RowChained(hs, l, rows[..n], i)
    {
      assert RowChained(hs, l, rows, i);
    }
  }

  lemma LastRowIsNext(hs: Hashes, l: Ledger, rows: seq<Row>, r: Row, e: Entry)
    requires RowChained(hs, l, rows + [r], |rows|) && RowHolds(r, e)
    ensures r == NextRow(hs, l, TailCursor(rows), e)
  {
    assert (rows + [r])[|rows|] == r;
    assert r.columns == Columns(|rows| + 1, e.eventType, e.payloadHash, TailCursor(rows).lastHash);
  }

  /** Gap-free numbering, links and hashes leave no freedom: the entries determine the rows. */
  lemma {:induction false} WellChainedUnique(hs: Hashes, l: Ledger, rows: seq<Row>, es: seq<Entry>)
    requires WellChained(hs, l, rows) && |rows| == |es|
    requires forall i :: 0 <= i < |es| ==> RowHolds(rows[i], es[i])
    ensures rows == ChainOf(hs, l, es)
    decreases |es|
  {
    if es != [] {
      var n := |es| - 1;
      var before, last := rows[..n], rows[n];
      WellChainedInit(hs, l, rows, n);
      WellChainedUnique(hs, l, before, es[..n]);
      assert rows == before + [last];
      LastRowIsNext(hs, l, before, last, es[n]);
    }
  }

  // ---- many ledgers in one table ----

  datatype LogRow = LogRow(ledger: Ledger, row: Row)

  /** The rows of one ledger, in table order. */
  function OfLedger(log: seq<LogRow>, l: Ledger): seq<Row> {
    if log == [] then []
    else
      var last := log[|log| - 1];
      OfLedger(log[..|log| - 1], l) + if last.ledger == l then [last.row] else []
  }

  /** The entries that a list of requests adds to one ledger. */
  function Project(hs: Hashes, order: seq<Request>, l: Ledger): seq<Entry> {
    if order == [] then []
    else
      var last := order[|order| - 1];
      Project(hs, order[..|order| - 1], l) +
      match hs.payload(last.payload)
      case Ok(h) => if last.ledger == l then [Entry(last.eventType, h)] else []
      case Err(_) => []
  }

  lemma OfLedgerSnoc(log: seq<LogRow>, r: LogRow, l: Ledger)
    ensures OfLedger(log + [r], l) == OfLedger(log, l) + if r.ledger == l then [r.row] else []
  {
    assert (log + [r])[..|log|] == log;
  }

  lemma ProjectSnoc(hs: Hashes, order: seq<Request>, r: Request, h: GoString, l: Ledger)
    requires hs.payload(r.payload) == Ok(h)
    ensures Project(hs, order + [r], l) == Project(hs, order, l) + if r.ledger == l then [Entry(r.eventType, h)] else []
  {
    assert (order + [r])[..|order|] == order;
  }

  lemma {:induction false} OfLedgerConcat(a: seq<LogRow>, b: seq<LogRow>, l: Ledger)
    ensures OfLedger(a + b, l) == OfLedger(a, l) + OfLedger(b, l)
    decreases |b|
  {
    if b == [] {
      assert a + b == a;
    } else {
      var n := |b| - 1;
      assert a + b == (a + b[..n]) + [b[n]];
      OfLedgerSnoc(a + b[..n], b[n], l);
      OfLedgerConcat(a, b[..n], l);
    }
  }

  lemma {:induction false} ProjectConcat(hs: Hashes, a: seq<Request>, b: seq<Request>, l: Ledger)
    ensures Project(hs, a + b, l) == Project(hs, a, l) + Project(hs, b, l)
    decreases |b|
  {
    if b == [] {
      assert a + b == a;
    } else {
      var n := |b| - 1;
      assert a + b == (a + b[..n]) + [b[n]];
      assert (a + b)[..|a + b| - 1] == a + b[..n];
      ProjectConcat(hs, a, b[..n], l);
    }
  }

  lemma {:induction false} ProjectForeign(hs: Hashes, order: seq<Request>, l: Ledger)
    requires forall i :: 0 <= i < |order| ==> order[i].ledger != l
    ensures Project(hs, order, l) == []
    decreases |order|
  {
    if order != [] {
      ProjectForeign(hs, order[..|order| - 1], l);
    }
  }

  /** A unique-index probe: is there a row of this ledger and sequence? */
  predicate HasKey(log: seq<LogRow>, l: Ledger, n: int) {
    exists i :: 0 <= i < |log| && log[i].ledger == l && log[i].row.columns.sequence == n
  }

  lemma {:induction false} HasKeyOfLedger(log: seq<LogRow>, l: Ledger, n: int)
    ensures HasKey(log, l, n) <==> exists i :: 0 <= i < |OfLedger(log, l)| && OfLedger(log, l)[i].columns.sequence == n
    decreases |log|
  {
    if log != [] {
      var k := |log| - 1;
      HasKeyOfLedger(log[..k], l, n);
      OfLedgerSnoc(log[..k], log[k], l);
      assert log == log[..k] + [log[k]];
      assert HasKey(log, l, n) <==> HasKey(log[..k], l, n) || (log[k].ledger == l && log[k].row.columns.sequence == n);
      var rows, before := OfLedger(log, l), OfLedger(log[..k], l);
      assert forall i :: 0 <= i < |before| ==> rows[i] == before[i];
      if log[k].ledger == l {
        assert rows[|before|] == log[k].row;
      }
    }
  }
}
