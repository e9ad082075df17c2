/**
 * steps/proof.go on any tables, sound or not: which entry, which anchors and which path a proof reply carries,
 * whether or not the entry is anchored.
 */
module Proofs {
  import opened Bytes
  import opened Chain
  import opened Merkle
  import opened MerkleTrees
  import opened Queries
  import opened Anchoring
  import opened EndToEnd

  // ---- the entry ----

  lemma {:induction false} IndexOfIs(rows: seq<Row>, q: int)
    ensures IndexOf(rows, q) >= 0 ==> rows[IndexOf(rows, q)].columns.sequence == q
    ensures IndexOf(rows, q) < 0 ==> forall r :: r in rows ==> r.columns.sequence != q
    decreases |rows|
  {
    if rows != [] {
      IndexOfIs(rows[..|rows| - 1], q);
      assert rows == rows[..|rows| - 1] + [rows[|rows| - 1]];
    }
  }

  /** The table holds a row of this ledger and sequence. */
  ghost predicate HasEntry(log: seq<LogRow>, l: Ledger, q: int) {
    exists r :: InTable(log, l, r) && r.columns.sequence == q
  }

  lemma EntryFound(log: seq<LogRow>, l: Ledger, q: int)
    ensures var rows := OfLedger(log, l);
            if IndexOf(rows, q) < 0 then !HasEntry(log, l, q)
            else InTable(log, l, rows[IndexOf(rows, q)]) && rows[IndexOf(rows, q)].columns.sequence == q
  {
    var rows := OfLedger(log, l);
    IndexOfIs(rows, q);
    if IndexOf(rows, q) < 0 {
      forall r | InTable(log, l, r)
        ensures r.columns.sequence != q
      {
        InLedger(log, l, r);
      }
    } else {
      var r := rows[IndexOf(rows, q)];
      assert r in rows;
      InLedger(log, l, r);
    }
  }

  // ---- the anchors ----

  /** The chosen places, in order, and at no other place a covering anchor. */
  ghost predicate Chosen(all: seq<AnchorRow>, l: Ledger, q: int, kept: seq<AnchorRow>, places: seq<nat>) {
    && |places| == |kept|
    && (forall k :: 0 <= k < |kept| ==> places[k] < |all| && kept[k] == all[places[k]])
    && (forall j, k :: 0 <= j < k < |places| ==> places[j] < places[k])
    && (forall j: nat :: j < |all| ==>
          (j in places <==> all[j].ledger == l && all[j].rangeStart <= q && q <= all[j].rangeEnd))
  }

  /** Exactly the anchors of the ledger whose range holds q, in the order in which they were recorded. */
  ghost predicate CoveringInOrder(all: seq<AnchorRow>, l: Ledger, q: int, kept: seq<AnchorRow>) {
    exists places :: Chosen(all, l, q, kept, places)
  }

  lemma ChosenSnoc(init: seq<AnchorRow>, a: AnchorRow, l: Ledger, q: int, kept: seq<AnchorRow>, places: seq<nat>)
    requires Chosen(init, l, q, kept, places)
    ensures a.ledger == l && a.rangeStart <= q <= a.rangeEnd ==>
              Chosen(init + [a], l, q, kept + [a], places + [|init|])
    ensures !(a.ledger == l && a.rangeStart <= q <= a.rangeEnd) ==> Chosen(init + [a], l, q, kept, places)
  {
    var more := places + [|init|];
    forall j: nat
      ensures j in places ==> j < |init|
      ensures j in more <==> j in places || j == |init|
    {
      if j == |init| {
        assert more[|places|] == j;
      }
      if j in places {
        var k :| 0 <= k < |places| && places[k] == j;
        assert more[k] == j && k < |kept|;
      }
    }
  }

  lemma {:induction false} CoveringIs(anchors: seq<AnchorRow>, l: Ledger, q: int)
    ensures CoveringInOrder(anchors, l, q, Covering(anchors, l, q))
    decreases |anchors|
  {
    if anchors == [] {
      assert Chosen([], l, q, [], []);
    } else {
      var n := |anchors| - 1;
      CoveringIs(anchors[..n], l, q);
      var places :| Chosen(anchors[..n], l, q, Covering(anchors[..n], l, q), places);
      ChosenSnoc(anchors[..n], anchors[n], l, q, Covering(anchors[..n], l, q), places);
      assert anchors == anchors[..n] + [anchors[n]];
      assert Covering(anchors[..n], l, q) + [] == Covering(anchors[..n], l, q);
    }
  }

  // ---- the path ----

  /** A path for some listed row of sequence q that meets the root of the whole list; none when there is no such row. */
  ghost predicate PathFits(sha: Sha256, rows: seq<Row>, q: int, path: seq<GoString>) {
    if forall r :: r in rows ==> r.columns.sequence != q then path == []
    else
      exists i :: 0 <= i < |rows| && rows[i].columns.sequence == q
                  && Accepts(sha, EntryHashes(rows)[i], path, RootHex(sha, EntryHashes(rows)))
  }

  lemma PathAtFits(sha: Sha256, rows: seq<Row>, q: int)
    ensures PathFits(sha, rows, q, PathAt(sha, EntryHashes(rows), IndexOf(rows, q)))
  {
    var i := IndexOf(rows, q);
    IndexOfIs(rows, q);
    if i >= 0 {
      assert rows[i] in rows;
      InclusionComplete(sha, EntryHashes(rows), i);
      assert EntryHashes(rows)[i] == rows[i].entryHash;
    }
  }

  /** Root and path, read off the anchors of the reply and the log of the last query. */
  ghost predicate PathIs(sha: Sha256, third: seq<LogRow>, l: Ledger, q: int, p: ProofReply) {
    if p.anchors == [] then p.path == [] && p.root == []
    else
      && p.root == p.anchors[0].root
      && PathFits(sha, Select(third, l, p.anchors[0].rangeStart, p.anchors[0].rangeEnd, false), q, p.path)
  }

  // ---- the reply ----

  /**
   * On any tables and at any times of the three queries: a proof is refused exactly when the ledger has no row
   * of this sequence; otherwise the entry is such a row, anchored or not, the anchors are exactly the covering
   * ones in recording order, and without one path and root are empty. With one, the root is the first one's and
   * the path proves the row in the range as it stands.
   */
  lemma ReplyIs(sha: Sha256, first: System, second: System, third: System, l: Ledger, q: int,
                r: Result<ProofReply, ()>)
    requires r == ProofOf(sha, first, second, third, l, q)
    ensures r.Err? <==> !HasEntry(first.db.log, l, q)
    ensures r.Ok? ==> InTable(first.db.log, l, r.value.entry) && r.value.entry.columns.sequence == q
    ensures r.Ok? ==> CoveringInOrder(second.anchors, l, q, r.value.anchors)
    ensures r.Ok? ==> PathIs(sha, third.db.log, l, q, r.value)
  {
    EntryFound(first.db.log, l, q);
    CoveringIs(second.anchors, l, q);
    if r.Ok? && r.value.anchors != [] {
      var a := r.value.anchors[0];
      PathAtFits(sha, Select(third.db.log, l, a.rangeStart, a.rangeEnd, false), q);
    }
  }

  /** In a running system a root is 64 characters long, so an empty one says that no anchor covers the entry. */
  lemma EmptyRootMeansUncovered(sha: Sha256, first: System, second: System, third: System, l: Ledger, q: int)
    requires SysInv(sha, second) && ProofOf(sha, first, second, third, l, q).Ok?
    ensures var p := ProofOf(sha, first, second, third, l, q).value;
            p.root == [] <==> forall a :: a in second.anchors ==> !(a.ledger == l && a.rangeStart <= q <= a.rangeEnd)
  {
    CoveringCovers(second.anchors, l, q);
    var anchors := Covering(second.anchors, l, q);
    if anchors != [] {
      assert anchors[0] in anchors;
      FirstCovering(sha, second, second.anchors, l, q);
    }
  }
}
