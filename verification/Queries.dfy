/** The range SELECTs over audit_log that steps/verify.go, steps/anchor.go and steps/proof.go share. */
module Queries {
  import opened Bytes
  import opened Chain

  /** sequence >= lo AND sequence <= hi; no upper bound when open. */
  predicate InRange(r: Row, lo: int, hi: int, open: bool) {
    lo <= r.columns.sequence && (open || r.columns.sequence <= hi)
  }

  function Where(rows: seq<Row>, lo: int, hi: int, open: bool): seq<Row> {
    if rows == [] then []
    else
      var n := |rows| - 1;
      Where(rows[..n], lo, hi, open) + if InRange(rows[n], lo, hi, open) then [rows[n]] else []
  }

  function InsertBySequence(sorted: seq<Row>, r: Row): seq<Row> {
    if sorted == [] || sorted[|sorted| - 1].columns.sequence <= r.columns.sequence then sorted + [r]
    else InsertBySequence(sorted[..|sorted| - 1], r) + [sorted[|sorted| - 1]]
  }

  function OrderBySequence(rows: seq<Row>): seq<Row> {
    if rows == [] then [] else InsertBySequence(OrderBySequence(rows[..|rows| - 1]), rows[|rows| - 1])
  }

  /** SELECT ... WHERE ledger = l AND sequence in range ORDER BY sequence ASC. */
  function Select(log: seq<LogRow>, l: Ledger, lo: int, hi: int, open: bool): seq<Row> {
    OrderBySequence(Where(OfLedger(log, l), lo, hi, open))
  }

  function EntryHashes(rows: seq<Row>): (hashes: seq<GoString>)
    ensures |hashes| == |rows|
  {
    seq(|rows|, i requires 0 <= i < |rows| => rows[i].entryHash)
  }

  predicate Ordered(rows: seq<Row>) {
    forall i, j :: 0 <= i < j < |rows| ==> rows[i].columns.sequence <= rows[j].columns.sequence
  }

  lemma {:induction false} InsertPermutes(sorted: seq<Row>, r: Row)
    ensures multiset(InsertBySequence(sorted, r)) == multiset(sorted) + multiset{r}
    decreases |sorted|
  {
    if !(sorted == [] || sorted[|sorted| - 1].columns.sequence <= r.columns.sequence) {
      var n := |sorted| - 1;
      InsertPermutes(sorted[..n], r);
      assert sorted == sorted[..n] + [sorted[n]];
    }
  }

  ghost predicate AtMost(rows: seq<Row>, bound: int) {
    forall i :: 0 <= i < |rows| ==> rows[i].columns.sequence <= bound
  }

  lemma {:induction false} InsertAtMost(sorted: seq<Row>, r: Row, bound: int)
    requires AtMost(sorted, bound) && r.columns.sequence <= bound
    ensures AtMost(InsertBySequence(sorted, r), bound)
    decreases |sorted|
  {
    if !(sorted == [] || sorted[|sorted| - 1].columns.sequence <= r.columns.sequence) {
      InsertAtMost(sorted[..|sorted| - 1], r, bound);
    }
  }

  lemma OrderedSnoc(rows: seq<Row>, last: Row)
    requires Ordered(rows) && AtMost(rows, last.columns.sequence)
    ensures Ordered(rows + [last])
  {
  }

  lemma OrderedInit(rows: seq<Row>)
    requires Ordered(rows) && rows != []
    ensures Ordered(rows[..|rows| - 1]) && AtMost(rows, rows[|rows| - 1].columns.sequence)
  {
  }

  lemma {:induction false} InsertOrders(sorted: seq<Row>, r: Row)
    requires Ordered(sorted)
    ensures Ordered(InsertBySequence(sorted, r))
    decreases |sorted|
  {
    if sorted == [] {
    } else if sorted[|sorted| - 1].columns.sequence <= r.columns.sequence {
      OrderedInit(sorted);
      OrderedSnoc(sorted, r);
    } else {
      var n := |sorted| - 1;
      OrderedInit(sorted);
      InsertOrders(sorted[..n], r);
      InsertAtMost(sorted[..n], r, sorted[n].columns.sequence);
      OrderedSnoc(InsertBySequence(sorted[..n], r), sorted[n]);
    }
  }

  /** ORDER BY returns the selected rows, each once, in ascending sequence. */
  lemma {:induction false} OrderByOrders(rows: seq<Row>)
    ensures Ordered(OrderBySequence(rows)) && multiset(OrderBySequence(rows)) == multiset(rows)
    decreases |rows|
  {
    if rows != [] {
      var n := |rows| - 1;
      OrderByOrders(rows[..n]);
      InsertOrders(OrderBySequence(rows[..n]), rows[n]);
      InsertPermutes(OrderBySequence(rows[..n]), rows[n]);
      assert rows == rows[..n] + [rows[n]];
    }
  }

  lemma {:induction false} OrderedStays(rows: seq<Row>)
    requires Ordered(rows)
    ensures OrderBySequence(rows) == rows
    decreases |rows|
  {
    if rows != [] {
      var n := |rows| - 1;
      OrderedStays(rows[..n]);
      assert rows == rows[..n] + [rows[n]];
    }
  }

  // ---- over any table with a unique (ledger, sequence) ----

  lemma WhereSnoc(rows: seq<Row>, r: Row, lo: int, hi: int, open: bool)
    ensures Where(rows + [r], lo, hi, open) == Where(rows, lo, hi, open) + if InRange(r, lo, hi, open) then [r] else []
  {
    assert (rows + [r])[..|rows|] == rows;
  }

  lemma InsertBefore(sorted: seq<Row>, last: Row, r: Row)
    requires r.columns.sequence < last.columns.sequence
    ensures InsertBySequence(sorted + [last], r) == InsertBySequence(sorted, r) + [last]
  {
    assert (sorted + [last])[..|sorted|] == sorted;
  }

  lemma {:induction false} WhereBelow(rows: seq<Row>, lo: int, hi: int, open: bool, bound: int)
    requires AtMost(rows, bound)
    ensures AtMost(Where(rows, lo, hi, open), bound)
    decreases |rows|
  {
    if rows != [] {
      WhereBelow(rows[..|rows| - 1], lo, hi, open, bound);
    }
  }

  lemma InsertLast(sorted: seq<Row>, r: Row, bound: int)
    requires AtMost(sorted, bound) && bound <= r.columns.sequence
    ensures InsertBySequence(sorted, r) == sorted + [r]
  {
  }

  /** The filtered list after inserting a row. */
  function Inserted(kept: seq<Row>, r: Row, lo: int, hi: int, open: bool): seq<Row> {
    if InRange(r, lo, hi, open) then InsertBySequence(kept, r) else kept
  }

  lemma WhereInsertLast(sorted: seq<Row>, r: Row, lo: int, hi: int, open: bool)
    requires AtMost(sorted, r.columns.sequence)
    ensures Where(InsertBySequence(sorted, r), lo, hi, open) ==
            Inserted(Where(sorted, lo, hi, open), r, lo, hi, open)
  {
    var bound := r.columns.sequence;
    InsertLast(sorted, r, bound);
    WhereSnoc(sorted, r, lo, hi, open);
    WhereBelow(sorted, lo, hi, open, bound);
    InsertLast(Where(sorted, lo, hi, open), r, bound);
  }

  lemma WhereInsertBefore(init: seq<Row>, last: Row, r: Row, lo: int, hi: int, open: bool)
    requires r.columns.sequence < last.columns.sequence
    requires Where(InsertBySequence(init, r), lo, hi, open) == Inserted(Where(init, lo, hi, open), r, lo, hi, open)
    ensures Where(InsertBySequence(init + [last], r), lo, hi, open) ==
            Inserted(Where(init + [last], lo, hi, open), r, lo, hi, open)
  {
    var kept := Where(init, lo, hi, open);
    InsertBefore(init, last, r);
    WhereSnoc(init, last, lo, hi, open);
    WhereSnoc(InsertBySequence(init, r), last, lo, hi, open);
    if InRange(last, lo, hi, open) {
      InsertBefore(kept, last, r);
    } else {
      assert kept + [] == kept;
      assert Inserted(kept, r, lo, hi, open) + [] == Inserted(kept, r, lo, hi, open);
    }
  }

  /** Filtering commutes with inserting into an ordered list. */
  lemma {:induction false} WhereInsert(sorted: seq<Row>, r: Row, lo: int, hi: int, open: bool)
    requires Ordered(sorted)
    ensures Where(InsertBySequence(sorted, r), lo, hi, open) ==
            Inserted(Where(sorted, lo, hi, open), r, lo, hi, open)
    decreases |sorted|
  {
    if sorted == [] || sorted[|sorted| - 1].columns.sequence <= r.columns.sequence {
      if sorted != [] {
        OrderedInit(sorted);
      }
      WhereInsertLast(sorted, r, lo, hi, open);
    } else {
      var n := |sorted| - 1;
      var init, last := sorted[..n], sorted[n];
      OrderedInit(sorted);
      assert sorted == init + [last];
      WhereInsert(init, r, lo, hi, open);
      WhereInsertBefore(init, last, r, lo, hi, open);
    }
  }

  /** A range query filters the ordered ledger. */
  lemma {:induction false} OrderWhere(rows: seq<Row>, lo: int, hi: int, open: bool)
    ensures OrderBySequence(Where(rows, lo, hi, open)) == Where(OrderBySequence(rows), lo, hi, open)
    decreases |rows|
  {
    if rows != [] {
      var n := |rows| - 1;
      OrderWhere(rows[..n], lo, hi, open);
      OrderByOrders(rows[..n]);
      WhereInsert(OrderBySequence(rows[..n]), rows[n], lo, hi, open);
      var kept := Where(rows[..n], lo, hi, open);
      if InRange(rows[n], lo, hi, open) {
        assert (kept + [rows[n]])[..|kept|] == kept;
      } else {
        assert kept + [] == kept;
      }
    }
  }

  /** Filtering twice is filtering by the narrower range. */
  lemma {:induction false} WhereTwice(rows: seq<Row>, lo: int, hi: int, open: bool, lo2: int, hi2: int, open2: bool)
    requires lo <= lo2 && (open || (!open2 && hi2 <= hi))
    ensures Where(Where(rows, lo, hi, open), lo2, hi2, open2) == Where(rows, lo2, hi2, open2)
    decreases |rows|
  {
    if rows != [] {
      var n := |rows| - 1;
      WhereTwice(rows[..n], lo, hi, open, lo2, hi2, open2);
      var kept := Where(rows[..n], lo, hi, open);
      if InRange(rows[n], lo, hi, open) {
        assert (kept + [rows[n]])[..|kept|] == kept;
      } else {
        assert kept + [] == kept;
      }
    }
  }

  lemma {:induction false} WhereWithin(rows: seq<Row>, lo: int, hi: int, open: bool)
    ensures forall i :: 0 <= i < |Where(rows, lo, hi, open)| ==> InRange(Where(rows, lo, hi, open)[i], lo, hi, open)
    decreases |rows|
  {
    if rows != [] {
      WhereWithin(rows[..|rows| - 1], lo, hi, open);
    }
  }

  /** Where the rows in range are exactly the first k, or the ones from k on. */
  lemma {:induction false} WherePrefix(rows: seq<Row>, k: nat, lo: int, hi: int, open: bool)
    requires k <= |rows| && forall i :: 0 <= i < |rows| ==> (InRange(rows[i], lo, hi, open) <==> i < k)
    ensures Where(rows, lo, hi, open) == rows[..k]
    decreases |rows|
  {
    if rows != [] {
      var n := |rows| - 1;
      WherePrefix(rows[..n], if k <= n then k else n, lo, hi, open);
      assert rows[n] == rows[n] && (InRange(rows[n], lo, hi, open) <==> n < k);
    }
  }

  lemma {:induction false} WhereSuffix(rows: seq<Row>, k: nat, lo: int, hi: int, open: bool)
    requires k <= |rows| && forall i :: 0 <= i < |rows| ==> (InRange(rows[i], lo, hi, open) <==> k <= i)
    ensures Where(rows, lo, hi, open) == rows[k..]
    decreases |rows|
  {
    if rows != [] {
      var n := |rows| - 1;
      WhereSuffix(rows[..n], if k <= n then k else n, lo, hi, open);
      assert InRange(rows[n], lo, hi, open) <==> k <= n;
    }
  }

  /** The unique index on (ledger, sequence). */
  ghost predicate UniqueKeys(log: seq<LogRow>) {
    forall i, j :: 0 <= i < j < |log| ==>
          log[i].ledger != log[j].ledger || log[i].row.columns.sequence != log[j].row.columns.sequence
  }

  ghost predicate Ascending(rows: seq<Row>) {
    forall i, j :: 0 <= i < j < |rows| ==> rows[i].columns.sequence < rows[j].columns.sequence
  }

  lemma {:induction false} InsertAscends(sorted: seq<Row>, r: Row)
    requires Ascending(sorted) && forall i :: 0 <= i < |sorted| ==> sorted[i].columns.sequence != r.columns.sequence
    ensures Ascending(InsertBySequence(sorted, r))
    decreases |sorted|
  {
    if sorted != [] && sorted[|sorted| - 1].columns.sequence > r.columns.sequence {
      var n := |sorted| - 1;
      InsertAscends(sorted[..n], r);
      InsertAtMost(sorted[..n], r, sorted[n].columns.sequence - 1);
    }
  }

  lemma KeyOfSome(log: seq<LogRow>, l: Ledger, r: Row)
    requires r in OfLedger(log, l)
    ensures HasKey(log, l, r.columns.sequence)
  {
    var i :| 0 <= i < |OfLedger(log, l)| && OfLedger(log, l)[i] == r;
    assert OfLedger(log, l)[i].columns.sequence == r.columns.sequence;
    HasKeyOfLedger(log, l, r.columns.sequence);
  }

  lemma {:induction false} UniqueAscends(log: seq<LogRow>, l: Ledger)
    requires UniqueKeys(log)
    ensures Ascending(OrderBySequence(OfLedger(log, l)))
    decreases |log|
  {
    if log != [] {
      var n := |log| - 1;
      var init, last := log[..n], log[n];
      UniqueAscends(init, l);
      if last.ledger == l {
        var rows := OfLedger(init, l);
        assert (rows + [last.row])[..|rows|] == rows;
        var sorted := OrderBySequence(rows);
        OrderByOrders(rows);
        forall i | 0 <= i < |sorted|
          ensures sorted[i].columns.sequence != last.row.columns.sequence
        {
          assert sorted[i] in multiset(rows);
          KeyOfSome(init, l, sorted[i]);
        }
        InsertAscends(sorted, last.row);
      } else {
        assert OfLedger(init, l) + [] == OfLedger(init, l);
      }
    }
  }

  lemma {:induction false} WhereFinds(rows: seq<Row>, i: nat, lo: int, hi: int, open: bool) returns (k: nat)
    requires i < |rows| && InRange(rows[i], lo, hi, open)
    ensures k < |Where(rows, lo, hi, open)| && Where(rows, lo, hi, open)[k] == rows[i]
    decreases |rows|
  {
    var n := |rows| - 1;
    if i == n {
      k := |Where(rows[..n], lo, hi, open)|;
    } else {
      k := WhereFinds(rows[..n], i, lo, hi, open);
    }
  }

  /** The boundary row is among the selected ones. */
  lemma FoundInWhere(log: seq<LogRow>, l: Ledger, lo: int, m: int, hi: int, open: bool) returns (k: nat)
    requires HasKey(log, l, m) && lo <= m && (open || m <= hi)
    ensures var rows := Where(OrderBySequence(OfLedger(log, l)), lo, hi, open);
            k < |rows| && rows[k].columns.sequence == m
  {
    HasKeyOfLedger(log, l, m);
    var rows := OfLedger(log, l);
    var j :| 0 <= j < |rows| && rows[j].columns.sequence == m;
    OrderByOrders(rows);
    var all := OrderBySequence(rows);
    assert rows[j] in multiset(all);
    var i :| 0 <= i < |all| && all[i] == rows[j];
    k := WhereFinds(all, i, lo, hi, open);
  }

  lemma {:induction false} WhereAscends(rows: seq<Row>, lo: int, hi: int, open: bool)
    requires Ascending(rows)
    ensures Ascending(Where(rows, lo, hi, open))
    decreases |rows|
  {
    if rows != [] {
      var n := |rows| - 1;
      WhereAscends(rows[..n], lo, hi, open);
      WhereBelow(rows[..n], lo, hi, open, rows[n].columns.sequence - 1);
    }
  }

  /** Around row k of an ascending list, the two narrower ranges take the two parts. */
  lemma SplitAscending(rows: seq<Row>, k: nat, lo: int, m: int, hi: int, open: bool)
    requires Ascending(rows) && k < |rows| && rows[k].columns.sequence == m
    requires forall i :: 0 <= i < |rows| ==> InRange(rows[i], lo, hi, open)
    ensures Where(rows, lo, m, false) == rows[..k + 1] && Where(rows, m, hi, open) == rows[k..]
  {
    forall i | 0 <= i < |rows|
      ensures InRange(rows[i], lo, m, false) <==> i < k + 1
      ensures InRange(rows[i], m, hi, open) <==> k <= i
    {
      assert InRange(rows[i], lo, hi, open);
      assert i < k ==> rows[i].columns.sequence < rows[k].columns.sequence;
      assert k < i ==> rows[k].columns.sequence < rows[i].columns.sequence;
    }
    WherePrefix(rows, k + 1, lo, m, false);
    WhereSuffix(rows, k, m, hi, open);
  }

  /** Two requests that share a boundary row select the two parts of the row list that the whole request selects. */
  lemma SelectSplit(log: seq<LogRow>, l: Ledger, lo: int, m: int, hi: int, open: bool) returns (k: nat)
    requires UniqueKeys(log) && HasKey(log, l, m) && lo <= m && (open || m <= hi)
    ensures var rows := Select(log, l, lo, hi, open);
            && k < |rows| && rows[k].columns.sequence == m
            && Select(log, l, lo, m, false) == rows[..k + 1]
            && Select(log, l, m, hi, open) == rows[k..]
  {
    var all := OrderBySequence(OfLedger(log, l));
    UniqueAscends(log, l);
    OrderWhere(OfLedger(log, l), lo, hi, open);
    OrderWhere(OfLedger(log, l), lo, m, false);
    OrderWhere(OfLedger(log, l), m, hi, open);
    k := FoundInWhere(log, l, lo, m, hi, open);
    WhereAscends(all, lo, hi, open);
    WhereWithin(all, lo, hi, open);
    WhereTwice(all, lo, hi, open, lo, m, false);
    WhereTwice(all, lo, hi, open, m, hi, open);
    SplitAscending(Where(all, lo, hi, open), k, lo, m, hi, open);
  }

  // ---- what a range query returns, on any table ----

  lemma {:induction false} InWhere(rows: seq<Row>, lo: int, hi: int, open: bool, r: Row)
    ensures r in Where(rows, lo, hi, open) <==>
              r in rows && lo <= r.columns.sequence && (open || r.columns.sequence <= hi)
    decreases |rows|
  {
    if rows != [] {
      InWhere(rows[..|rows| - 1], lo, hi, open, r);
      assert rows == rows[..|rows| - 1] + [rows[|rows| - 1]];
    }
  }

  /** The table holds this row of this ledger. */
  predicate InTable(log: seq<LogRow>, l: Ledger, r: Row) {
    LogRow(l, r) in log
  }

  lemma {:induction false} InLedger(log: seq<LogRow>, l: Ledger, r: Row)
    ensures r in OfLedger(log, l) <==> InTable(log, l, r)
    decreases |log|
  {
    if log != [] {
      InLedger(log[..|log| - 1], l, r);
      assert log == log[..|log| - 1] + [log[|log| - 1]];
    }
  }

  /** Exactly the ledger's rows in range, in ascending sequence, and each once where sequences are unique. */
  lemma SelectIs(log: seq<LogRow>, l: Ledger, lo: int, hi: int, open: bool)
    ensures Ordered(Select(log, l, lo, hi, open))
    ensures forall r :: r in Select(log, l, lo, hi, open) <==>
              InTable(log, l, r) && lo <= r.columns.sequence && (open || r.columns.sequence <= hi)
    ensures UniqueKeys(log) ==> Ascending(Select(log, l, lo, hi, open))
  {
    var kept := Where(OfLedger(log, l), lo, hi, open);
    OrderByOrders(kept);
    forall r
      ensures r in Select(log, l, lo, hi, open) <==>
                InTable(log, l, r) && lo <= r.columns.sequence && (open || r.columns.sequence <= hi)
    {
      assert r in Select(log, l, lo, hi, open) <==> r in multiset(kept);
      InWhere(OfLedger(log, l), lo, hi, open, r);
      InLedger(log, l, r);
    }
    if UniqueKeys(log) {
      UniqueAscends(log, l);
      OrderWhere(OfLedger(log, l), lo, hi, open);
      WhereAscends(OrderBySequence(OfLedger(log, l)), lo, hi, open);
    }
  }

  // ---- over a gap-free ledger ----

  function Clamp(x: int, lo: int, hi: int): (r: int)
    requires lo <= hi
    ensures lo <= r <= hi
  {
    if x < lo then lo else if x > hi then hi else x
  }

  /** Index of the first row at or above sequence lo. */
  function From(n: nat, lo: int): (i: nat)
    ensures i <= n
  {
    Clamp(lo - 1, 0, n)
  }

  /** Index behind the last row at or below sequence hi. */
  function To(n: nat, lo: int, hi: int, open: bool): (i: nat)
    ensures From(n, lo) <= i <= n
  {
    if open then n else Clamp(hi, From(n, lo), n)
  }

  function Slice(rows: seq<Row>, lo: int, hi: int, open: bool): seq<Row> {
    rows[From(|rows|, lo)..To(|rows|, lo, hi, open)]
  }

  ghost predicate Numbered(rows: seq<Row>) {
    forall i :: 0 <= i < |rows| ==> rows[i].columns.sequence == i + 1
  }

  /** Row n + 1 joins the slice exactly when its sequence is in range. */
  lemma BoundsGrow(n: nat, lo: int, hi: int, open: bool)
    ensures var k, e, f := From(n, lo), To(n, lo, hi, open), From(n + 1, lo);
            if lo <= n + 1 && (open || n + 1 <= hi) then f == k && e == n && To(n + 1, lo, hi, open) == n + 1
            else To(n + 1, lo, hi, open) - f == e - k && (e == k || (f == k && To(n + 1, lo, hi, open) == e))
  {
  }

  /** One more row lengthens the slice by that row or not at all. */
  lemma SliceGrows(rows: seq<Row>, lo: int, hi: int, open: bool)
    requires rows != [] && rows[|rows| - 1].columns.sequence == |rows|
    ensures var n := |rows| - 1;
            Slice(rows, lo, hi, open) ==
            Slice(rows[..n], lo, hi, open) + if InRange(rows[n], lo, hi, open) then [rows[n]] else []
  {
    var n := |rows| - 1;
    BoundsGrow(n, lo, hi, open);
    var k, e := From(n, lo), To(n, lo, hi, open);
    assert rows[..n][k..e] == rows[k..e];
    if InRange(rows[n], lo, hi, open) {
      assert rows[k..n + 1] == rows[k..n] + [rows[n]];
    } else if e == k {
      assert Slice(rows, lo, hi, open) == [] == rows[k..e];
    }
  }

  lemma {:induction false} WhereIsSlice(rows: seq<Row>, lo: int, hi: int, open: bool)
    requires Numbered(rows)
    ensures Where(rows, lo, hi, open) == Slice(rows, lo, hi, open)
    decreases |rows|
  {
    if rows != [] {
      WhereIsSlice(rows[..|rows| - 1], lo, hi, open);
      SliceGrows(rows, lo, hi, open);
    }
  }

  /** On a gap-free ledger a range query returns a contiguous stretch of rows. */
  lemma SelectIsSlice(log: seq<LogRow>, l: Ledger, lo: int, hi: int, open: bool)
    requires Numbered(OfLedger(log, l))
    ensures Select(log, l, lo, hi, open) == Slice(OfLedger(log, l), lo, hi, open)
  {
    var rows := OfLedger(log, l);
    WhereIsSlice(rows, lo, hi, open);
    var slice := Slice(rows, lo, hi, open);
    assert forall i :: 0 <= i < |slice| ==> slice[i] == rows[From(|rows|, lo) + i];
    OrderedStays(slice);
  }

  lemma WellChainedNumbered(hs: Hashes, l: Ledger, rows: seq<Row>)
    requires WellChained(hs, l, rows)
    ensures Numbered(rows)
  {
    forall i | 0 <= i < |rows|
      ensures rows[i].columns.sequence == i + 1
    {
      assert RowChained(hs, l, rows, i);
    }
  }
}
