/** steps/verify.go: the scan that re-derives hashes and links, and what its acceptance proves. */
module Verify {
  import opened Bytes
  import opened JsonText
  import opened EntryHashing
  import opened Chain
  import opened Merkle
  import opened MerkleBinding
  import opened Queries

  datatype Reason = LinkBroken | HashMismatch

  datatype Report =
    | Valid(entriesVerified: nat)
    | Invalid(firstInvalidSequence: int, reason: Reason, entriesVerified: nat)

  predicate Linked(rows: seq<Row>, i: nat)
    requires i < |rows|
  {
    i == 0 || rows[i].columns.prevHash == rows[i - 1].entryHash
  }

  predicate Derived(hs: Hashes, l: Ledger, r: Row) {
    hs.entry(l, r.columns) == r.entryHash
  }

  predicate RowPasses(hs: Hashes, l: Ledger, rows: seq<Row>, i: nat)
    requires i < |rows|
  {
    Linked(rows, i) && Derived(hs, l, rows[i])
  }

  /** Every row's hash re-derives and every adjacent pair links; nothing is asked of the first link. */
  predicate Passes(hs: Hashes, l: Ledger, rows: seq<Row>) {
    forall i :: 0 <= i < |rows| ==> RowPasses(hs, l, rows, i)
  }

  /** What a report says about the scanned rows. */
  predicate Exact(hs: Hashes, l: Ledger, rows: seq<Row>, r: Report) {
    match r
    case Valid(n) => n == |rows| && Passes(hs, l, rows)
    case Invalid(s, reason, n) =>
      && n < |rows| && s == rows[n].columns.sequence && Passes(hs, l, rows[..n])
      && (reason == LinkBroken <==> !Linked(rows, n))
      && (reason == HashMismatch ==> !Derived(hs, l, rows[n]))
  }

  lemma PassesSnoc(hs: Hashes, l: Ledger, rows: seq<Row>, i: nat)
    requires i < |rows| && Passes(hs, l, rows[..i]) && RowPasses(hs, l, rows, i)
    ensures Passes(hs, l, rows[..i + 1])
  {
    var longer := rows[..i + 1];
    forall j | 0 <= j < |longer|
      ensures RowPasses(hs, l, longer, j)
    {
      if j < i {
        assert RowPasses(hs, l, rows[..i], j);
      }
    }
  }

  /** The handler's loop over the selected rows. */
  method Scan(hs: Hashes, l: Ledger, rows: seq<Row>) returns (r: Report)
    ensures Exact(hs, l, rows, r)
    ensures r.Valid? <==> Passes(hs, l, rows)
  {
    var verified := 0;
    var prevHash: GoString := [];
    for i := 0 to |rows|
      invariant verified == i
      invariant i > 0 ==> prevHash == rows[i - 1].entryHash
      invariant Passes(hs, l, rows[..i])
    {
      var row := rows[i];
      if verified > 0 && row.columns.prevHash != prevHash {
        assert !RowPasses(hs, l, rows, i);
        return Invalid(row.columns.sequence, LinkBroken, verified);
      }
      var expected := hs.entry(l, row.columns);
      if expected != row.entryHash {
        assert !RowPasses(hs, l, rows, i);
        return Invalid(row.columns.sequence, HashMismatch, verified);
      }
      PassesSnoc(hs, l, rows, i);
      prevHash := row.entryHash;
      verified := verified + 1;
    }
    assert rows[..|rows|] == rows;
    return Valid(verified);
  }

  /** A failing row fails every scan that gets past it. */
  lemma StaysFailed(hs: Hashes, l: Ledger, rows: seq<Row>, n: nat, m: nat)
    requires n < m <= |rows| && !RowPasses(hs, l, rows, n)
    ensures !Passes(hs, l, rows[..m])
  {
    assert RowPasses(hs, l, rows[..m], n) <==> RowPasses(hs, l, rows, n);
  }

  /** At most one report is exact: the earliest failing row decides. */
  lemma ReportUnique(hs: Hashes, l: Ledger, rows: seq<Row>, r: Report, q: Report)
    requires Exact(hs, l, rows, r) && Exact(hs, l, rows, q)
    ensures r == q
  {
    var n, m := r.entriesVerified, q.entriesVerified;
    assert rows[..|rows|] == rows;
    if r.Invalid? && n < m {
      StaysFailed(hs, l, rows, n, m);
    }
    if q.Invalid? && m < n {
      StaysFailed(hs, l, rows, m, n);
    }
  }

  /** Two ranges that share one boundary row verify exactly when the range they make up does. */
  lemma PassesSplit(hs: Hashes, l: Ledger, rows: seq<Row>, k: nat)
    requires k < |rows|
    ensures Passes(hs, l, rows) <==> Passes(hs, l, rows[..k + 1]) && Passes(hs, l, rows[k..])
  {
    var a, b := rows[..k + 1], rows[k..];
    if Passes(hs, l, rows) {
      forall i | 0 <= i < |a|
        ensures RowPasses(hs, l, a, i)
      {
        assert RowPasses(hs, l, rows, i);
      }
      forall i | 0 <= i < |b|
        ensures RowPasses(hs, l, b, i)
      {
        assert RowPasses(hs, l, rows, k + i);
      }
    }
    if Passes(hs, l, a) && Passes(hs, l, b) {
      forall i | 0 <= i < |rows|
        ensures RowPasses(hs, l, rows, i)
      {
        if i <= k {
          assert RowPasses(hs, l, a, i);
        } else {
          assert RowPasses(hs, l, b, i - k);
        }
      }
    }
  }

  /** The rows that a VerifyHandler request scans; end 0 leaves the range open. */
  function Scanned(log: seq<LogRow>, l: Ledger, start: int, end: int): seq<Row> {
    Select(log, l, start, end, end == 0)
  }

  /**
   * Over any table with a unique (ledger, sequence), however its rows came about: a request verifies
   * exactly when the two requests verify into which an existing row inside the range splits it.
   */
  lemma RequestsSplit(hs: Hashes, log: seq<LogRow>, l: Ledger, start: int, m: int, end: int)
    requires UniqueKeys(log) && HasKey(log, l, m) && m != 0 && start <= m && (end == 0 || m <= end)
    ensures Passes(hs, l, Scanned(log, l, start, end)) <==>
              Passes(hs, l, Scanned(log, l, start, m)) && Passes(hs, l, Scanned(log, l, m, end))
  {
    var k := SelectSplit(log, l, start, m, end, end == 0);
    PassesSplit(hs, l, Scanned(log, l, start, end), k);
  }

  /** Every range query on a chained ledger verifies. */
  lemma ChainedPasses(hs: Hashes, l: Ledger, log: seq<LogRow>, lo: int, hi: int, open: bool)
    requires WellChained(hs, l, OfLedger(log, l))
    ensures Passes(hs, l, Select(log, l, lo, hi, open))
  {
    var rows := OfLedger(log, l);
    WellChainedNumbered(hs, l, rows);
    SelectIsSlice(log, l, lo, hi, open);
    var slice, k := Slice(rows, lo, hi, open), From(|rows|, lo);
    forall i | 0 <= i < |slice|
      ensures RowPasses(hs, l, slice, i)
    {
      assert slice[i] == rows[k + i];
      assert RowChained(hs, l, rows, k + i);
    }
  }

  // ---- where the scan stops ----

  /** The report on rows whose first failure is at n. */
  lemma StopsAt(hs: Hashes, l: Ledger, rows: seq<Row>, n: nat, r: Report)
    requires n < |rows| && Passes(hs, l, rows[..n]) && !RowPasses(hs, l, rows, n) && Exact(hs, l, rows, r)
    ensures r == Invalid(rows[n].columns.sequence, if Linked(rows, n) then HashMismatch else LinkBroken, n)
  {
    ReportUnique(hs, l, rows, r,
                 Invalid(rows[n].columns.sequence, if Linked(rows, n) then HashMismatch else LinkBroken, n));
  }

  /** Chained rows pass, and so does what agrees with them up to n. */
  lemma AgreeingPasses(hs: Hashes, l: Ledger, rows: seq<Row>, other: seq<Row>, n: nat)
    requires WellChained(hs, l, rows) && n <= |rows| && n <= |other| && rows[..n] == other[..n]
    ensures Passes(hs, l, other[..n])
  {
    forall i | 0 <= i < n
      ensures RowPasses(hs, l, other[..n], i)
    {
      assert RowChained(hs, l, rows, i);
      assert other[..n][i] == rows[i] && (i > 0 ==> other[..n][i - 1] == rows[i - 1]);
    }
  }

  lemma ChangedRow(hs: Hashes, l: Ledger, rows: seq<Row>, i: nat, x: Row, j: nat)
    requires WellChained(hs, l, rows) && i < |rows| && j < |rows|
    ensures RowPasses(hs, l, rows[i := x], j) <==>
              if j == i then
                (i > 0 ==> x.columns.prevHash == rows[i - 1].entryHash) && hs.entry(l, x.columns) == x.entryHash
              else j == i + 1 ==> x.entryHash == rows[i].entryHash
  {
    assert RowChained(hs, l, rows, j);
  }

  /**
   * One row of a genuine ledger replaced: what the scan of the whole ledger reports, and that it finds nothing
   * exactly when the replacement links, carries its own hash and keeps the hash that the next row names.
   */
  lemma ChangedRowReported(hs: Hashes, l: Ledger, rows: seq<Row>, i: nat, x: Row, r: Report)
    requires WellChained(hs, l, rows) && i < |rows| && Exact(hs, l, rows[i := x], r)
    ensures r ==
            if i > 0 && x.columns.prevHash != rows[i - 1].entryHash then Invalid(x.columns.sequence, LinkBroken, i)
            else if hs.entry(l, x.columns) != x.entryHash then Invalid(x.columns.sequence, HashMismatch, i)
            else if i + 1 < |rows| && x.entryHash != rows[i].entryHash then Invalid(i + 2, LinkBroken, i + 1)
            else Valid(|rows|)
  {
    var changed := rows[i := x];
    AgreeingPasses(hs, l, rows, changed, i);
    ChangedRow(hs, l, rows, i, x, i);
    if !RowPasses(hs, l, changed, i) {
      StopsAt(hs, l, changed, i, r);
    } else {
      PassesSnoc(hs, l, changed, i);
      if i + 1 < |rows| && x.entryHash != rows[i].entryHash {
        ChangedRow(hs, l, rows, i, x, i + 1);
        assert RowChained(hs, l, rows, i + 1);
        StopsAt(hs, l, changed, i + 1, r);
      } else {
        forall j | 0 <= j < |rows|
          ensures RowPasses(hs, l, changed, j)
        {
          ChangedRow(hs, l, rows, i, x, j);
        }
        ReportUnique(hs, l, changed, r, Valid(|rows|));
      }
    }
  }

  /** One row of a genuine ledger removed: found at the row behind it, except at the two ends. */
  lemma RemovedRowReported(hs: Hashes, l: Ledger, rows: seq<Row>, i: nat, r: Report)
    requires WellChained(hs, l, rows) && i < |rows| && Exact(hs, l, rows[..i] + rows[i + 1..], r)
    ensures r ==
            if 0 < i && i + 1 < |rows| && rows[i].entryHash != rows[i - 1].entryHash then Invalid(i + 2, LinkBroken, i)
            else Valid(|rows| - 1)
  {
    var left := rows[..i] + rows[i + 1..];
    AgreeingPasses(hs, l, rows, left, i);
    forall j | 0 <= j < |left|
      ensures RowPasses(hs, l, left, j) <==> (j == i && i > 0 ==> rows[i].entryHash == rows[i - 1].entryHash)
    {
      assert RowChained(hs, l, rows, if j < i then j else j + 1);
    }
    if 0 < i && i + 1 < |rows| && rows[i].entryHash != rows[i - 1].entryHash {
      assert RowChained(hs, l, rows, i + 1);
      StopsAt(hs, l, left, i, r);
    } else {
      ReportUnique(hs, l, left, r, Valid(|left|));
    }
  }

  // ---- tamper evidence ----

  /** Looks at two sets of columns with one entry hash and offers the collision behind it, if there is one. */
  type Finder = (Columns, Columns) -> Option<Collision>

  function EntryFinder(sha: Sha256, l: Ledger): Finder {
    (c: Columns, d: Columns) =>
      if IsCollision(sha, EntryCollision(l, c, l, d)) then Some(EntryCollision(l, c, l, d)) else None
  }

  /**
   * Everything the argument needs to know about hashing: no hash is empty or other than text, and different
   * columns with one hash are found out.
   */
  ghost predicate Finds(hs: Hashes, l: Ledger, find: Finder) {
    && (forall c :: hs.entry(l, c) != [] && ValidUtf8(hs.entry(l, c)))
    && (forall c, d :: hs.entry(l, c) == hs.entry(l, d) && !SameColumns(c, d) ==> find(c, d).Some?)
  }

  lemma EntryFinderFinds(sha: Sha256, l: Ledger)
    ensures Finds(Sha256Hashes(sha), l, EntryFinder(sha, l))
    ensures forall c, d :: EntryFinder(sha, l)(c, d).Some? ==> IsCollision(sha, EntryFinder(sha, l)(c, d).value)
  {
    var hs := Sha256Hashes(sha);
    forall c
      ensures hs.entry(l, c) != [] && ValidUtf8(hs.entry(l, c))
    {
      HexIsValidUtf8(sha(EntryPreimage(l, c)));
    }
    forall c, d | hs.entry(l, c) == hs.entry(l, d) && !SameColumns(c, d)
      ensures EntryFinder(sha, l)(c, d).Some?
    {
      EntryHashPins(sha, l, c, l, d);
    }
  }

  predicate SameRow(r: Row, c: Row) {
    SameColumns(r.columns, c.columns) && r.entryHash == c.entryHash
  }

  predicate ValidRows(rows: seq<Row>) {
    forall i :: 0 <= i < |rows| ==> ValidColumns(rows[i].columns)
  }

  /** The rows at distance j from the two ends agree. */
  predicate AgreeAt(scanned: seq<Row>, genuine: seq<Row>, j: nat) {
    j < |scanned| && j < |genuine| && SameRow(scanned[|scanned| - 1 - j], genuine[|genuine| - 1 - j])
  }

  /** The least distance from n on at which rows do not agree. */
  function AgreeFrom(scanned: seq<Row>, genuine: seq<Row>, n: nat): (k: nat)
    requires n <= |scanned| && n <= |genuine|
    ensures n <= k <= |scanned| && k <= |genuine|
    ensures !AgreeAt(scanned, genuine, k)
    ensures k > n ==> AgreeAt(scanned, genuine, k - 1)
    decreases |scanned| - n
  {
    if AgreeAt(scanned, genuine, n) then AgreeFrom(scanned, genuine, n + 1) else n
  }

  /** How many rows agree, counted back from the two ends. */
  function AgreeBack(scanned: seq<Row>, genuine: seq<Row>): nat {
    AgreeFrom(scanned, genuine, 0)
  }

  lemma {:induction false} AgreeUpTo(scanned: seq<Row>, genuine: seq<Row>, n: nat, j: nat)
    requires n <= |scanned| && n <= |genuine| && n <= j < AgreeFrom(scanned, genuine, n)
    ensures AgreeAt(scanned, genuine, j)
    decreases |scanned| - n
  {
    if n < j {
      AgreeUpTo(scanned, genuine, n + 1, j);
    }
  }

  /** What is found at the last pair of rows that differ, at equal distance from the two ends. */
  function TamperFinding(find: Finder, scanned: seq<Row>, genuine: seq<Row>): Option<Collision> {
    var n := AgreeBack(scanned, genuine);
    if n == |scanned| || n == |genuine| then None
    else find(scanned[|scanned| - 1 - n].columns, genuine[|genuine| - 1 - n].columns)
  }

  function TamperCollision(sha: Sha256, l: Ledger, scanned: seq<Row>, genuine: seq<Row>): (c: Option<Collision>)
    ensures c.Some? ==> IsCollision(sha, c.value)
  {
    EntryFinderFinds(sha, l);
    TamperFinding(EntryFinder(sha, l), scanned, genuine)
  }

  /** Rows agree on every hashed column with the rows that end the genuine ledger. */
  ghost predicate EndsLike(scanned: seq<Row>, genuine: seq<Row>) {
    |scanned| <= |genuine| &&
    forall i :: 0 <= i < |scanned| ==> SameRow(scanned[i], genuine[|genuine| - |scanned| + i])
  }

  lemma GenuineRow(hs: Hashes, l: Ledger, genuine: seq<Row>, i: nat)
    requires WellChained(hs, l, genuine) && i < |genuine|
    ensures Derived(hs, l, genuine[i])
    ensures genuine[i].columns.prevHash == if i == 0 then [] else genuine[i - 1].entryHash
  {
    assert RowChained(hs, l, genuine, i);
  }

  lemma PassedRow(hs: Hashes, l: Ledger, rows: seq<Row>, i: nat)
    requires Passes(hs, l, rows) && i < |rows|
    ensures Derived(hs, l, rows[i]) && (i > 0 ==> rows[i].columns.prevHash == rows[i - 1].entryHash)
  {
    assert RowPasses(hs, l, rows, i);
  }

  /** The link of a genuine row is hash text or empty, so reading alike means being equal. */
  lemma SameLink(hs: Hashes, l: Ledger, find: Finder, genuine: seq<Row>, i: nat, link: GoString)
    requires Finds(hs, l, find) && WellChained(hs, l, genuine) && i < |genuine|
    requires Runes(link) == Runes(genuine[i].columns.prevHash)
    ensures link == if i == 0 then [] else genuine[i - 1].entryHash
  {
    GenuineRow(hs, l, genuine, i);
    if i > 0 {
      GenuineRow(hs, l, genuine, i - 1);
    }
    ValidUtf8Unique(genuine[i].columns.prevHash, link);
  }

  /** One row back: behind agreeing rows stand rows with equal hashes. */
  lemma OneRowBack(hs: Hashes, l: Ledger, find: Finder, scanned: seq<Row>, genuine: seq<Row>, i: nat, j: nat)
    requires Finds(hs, l, find) && Passes(hs, l, scanned) && WellChained(hs, l, genuine)
    requires 0 < i < |scanned| && j < |genuine| && SameColumns(scanned[i].columns, genuine[j].columns)
    ensures j > 0 && scanned[i - 1].entryHash == genuine[j - 1].entryHash
  {
    PassedRow(hs, l, scanned, i);
    PassedRow(hs, l, scanned, i - 1);
    SameLink(hs, l, find, genuine, j, scanned[i].columns.prevHash);
  }

  /** Behind n agreeing rows the genuine ledger has a row for every scanned one, with the same hash. */
  lemma HashesMeet(hs: Hashes, l: Ledger, find: Finder, scanned: seq<Row>, genuine: seq<Row>, n: nat)
    requires Finds(hs, l, find) && Passes(hs, l, scanned) && WellChained(hs, l, genuine)
    requires scanned != [] && genuine != [] && scanned[|scanned| - 1].entryHash == genuine[|genuine| - 1].entryHash
    requires n < |scanned| && (n > 0 ==> AgreeAt(scanned, genuine, n - 1))
    ensures n < |genuine| && scanned[|scanned| - 1 - n].entryHash == genuine[|genuine| - 1 - n].entryHash
  {
    if n > 0 {
      OneRowBack(hs, l, find, scanned, genuine, |scanned| - n, |genuine| - n);
    }
  }

  lemma DifferentRowsFound(hs: Hashes, l: Ledger, find: Finder, r: Row, g: Row)
    requires Finds(hs, l, find) && Derived(hs, l, r) && Derived(hs, l, g) && r.entryHash == g.entryHash
    requires !SameRow(r, g)
    ensures find(r.columns, g.columns).Some?
  {
  }

  lemma FirstDifference(hs: Hashes, l: Ledger, find: Finder, scanned: seq<Row>, genuine: seq<Row>, n: nat)
    requires Finds(hs, l, find) && Passes(hs, l, scanned) && WellChained(hs, l, genuine)
    requires scanned != [] && genuine != [] && scanned[|scanned| - 1].entryHash == genuine[|genuine| - 1].entryHash
    requires n < |scanned| && !AgreeAt(scanned, genuine, n) && (n > 0 ==> AgreeAt(scanned, genuine, n - 1))
    ensures n < |genuine|
    ensures find(scanned[|scanned| - 1 - n].columns, genuine[|genuine| - 1 - n].columns).Some?
  {
    HashesMeet(hs, l, find, scanned, genuine, n);
    PassedRow(hs, l, scanned, |scanned| - 1 - n);
    GenuineRow(hs, l, genuine, |genuine| - 1 - n);
    DifferentRowsFound(hs, l, find, scanned[|scanned| - 1 - n], genuine[|genuine| - 1 - n]);
  }

  lemma AllAgree(scanned: seq<Row>, genuine: seq<Row>)
    requires AgreeBack(scanned, genuine) == |scanned|
    ensures EndsLike(scanned, genuine)
  {
    var n, m := |scanned|, |genuine|;
    forall i | 0 <= i < n
      ensures SameRow(scanned[i], genuine[m - n + i])
    {
      var j := n - 1 - i;
      AgreeUpTo(scanned, genuine, 0, j);
    }
  }

  /** The argument for every pair of hash functions and whatever finds out about them. */
  lemma TamperFound(hs: Hashes, l: Ledger, find: Finder, scanned: seq<Row>, genuine: seq<Row>)
    requires Finds(hs, l, find) && Passes(hs, l, scanned) && WellChained(hs, l, genuine)
    requires scanned != [] && genuine != [] && scanned[|scanned| - 1].entryHash == genuine[|genuine| - 1].entryHash
    ensures TamperFinding(find, scanned, genuine).Some? || EndsLike(scanned, genuine)
  {
    var n := AgreeBack(scanned, genuine);
    if n < |scanned| {
      FirstDifference(hs, l, find, scanned, genuine, n);
    } else {
      AllAgree(scanned, genuine);
    }
  }

  /**
   * If an accepted scan ends in the hash that ends a genuine ledger, the scanned rows are the last
   * rows of that ledger, column by column, and do not reach past its first row; or a pair of rows
   * exhibits a collision.
   */
  lemma TamperEvident(sha: Sha256, l: Ledger, scanned: seq<Row>, genuine: seq<Row>)
    requires Passes(Sha256Hashes(sha), l, scanned) && WellChained(Sha256Hashes(sha), l, genuine)
    requires scanned != [] && genuine != []
    requires scanned[|scanned| - 1].entryHash == genuine[|genuine| - 1].entryHash
    ensures TamperCollision(sha, l, scanned, genuine).Some? || EndsLike(scanned, genuine)
  {
    EntryFinderFinds(sha, l);
    TamperFound(Sha256Hashes(sha), l, EntryFinder(sha, l), scanned, genuine);
  }

  /** Where the genuine columns are UTF-8, agreeing means being the very same rows. */
  lemma EndsLikeValid(scanned: seq<Row>, genuine: seq<Row>)
    requires EndsLike(scanned, genuine) && ValidRows(genuine)
    ensures scanned == genuine[|genuine| - |scanned|..]
  {
    forall i | 0 <= i < |scanned|
      ensures scanned[i] == genuine[|genuine| - |scanned| + i]
    {
      SameColumnsValid(genuine[|genuine| - |scanned| + i].columns, scanned[i].columns);
    }
  }

  // ---- an anchored root pins history ----

  /** Index of some row in which two lists of one length differ, or -1. */
  function Difference(a: seq<Row>, b: seq<Row>): (i: int)
    requires |a| == |b|
    ensures -1 <= i < |a|
    ensures i >= 0 ==> !SameRow(a[i], b[i])
    ensures i < 0 ==> forall k :: 0 <= k < |a| ==> SameRow(a[k], b[k])
  {
    if a == [] then -1
    else if !SameRow(a[|a| - 1], b[|b| - 1]) then |a| - 1
    else Difference(a[..|a| - 1], b[..|b| - 1])
  }

  function HistoryCollision(sha: Sha256, l: Ledger, a: seq<Row>, b: seq<Row>): (c: Option<Collision>)
    requires a != [] && |a| == |b|
    ensures c.Some? ==> IsCollision(sha, c.value)
  {
    EntryFinderFinds(sha, l);
    var c, i := RootCollision(sha, EntryHashes(a), EntryHashes(b)), Difference(a, b);
    if c.Some? then c else if i < 0 then None else EntryFinder(sha, l)(a[i].columns, b[i].columns)
  }

  lemma DifferenceFound(hs: Hashes, l: Ledger, find: Finder, a: seq<Row>, b: seq<Row>, i: nat)
    requires Finds(hs, l, find) && Passes(hs, l, a) && Passes(hs, l, b) && EntryHashes(a) == EntryHashes(b)
    requires i < |a| && i < |b| && !SameRow(a[i], b[i])
    ensures find(a[i].columns, b[i].columns).Some?
  {
    assert EntryHashes(a)[i] == EntryHashes(b)[i];
    PassedRow(hs, l, a, i);
    PassedRow(hs, l, b, i);
    DifferentRowsFound(hs, l, find, a[i], b[i]);
  }

  /** Two verified row lists of one length with one Merkle root agree on every hashed column, or exhibit a collision. */
  lemma RootPinsHistory(sha: Sha256, l: Ledger, a: seq<Row>, b: seq<Row>)
    requires a != [] && |a| == |b| && Passes(Sha256Hashes(sha), l, a) && Passes(Sha256Hashes(sha), l, b)
    requires RootHex(sha, EntryHashes(a)) == RootHex(sha, EntryHashes(b))
    ensures HistoryCollision(sha, l, a, b).Some? || forall i :: 0 <= i < |a| ==> SameRow(a[i], b[i])
  {
    EntryFinderFinds(sha, l);
    RootDetermines(sha, EntryHashes(a), EntryHashes(b));
    if RootCollision(sha, EntryHashes(a), EntryHashes(b)).None? && Difference(a, b) >= 0 {
      DifferenceFound(Sha256Hashes(sha), l, EntryFinder(sha, l), a, b, Difference(a, b));
    }
  }
}
