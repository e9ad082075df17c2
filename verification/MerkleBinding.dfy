/** What a Merkle root of chain/merkle.go determines, which proofs it admits, and how it relates to RFC 6962. */
module MerkleBinding {
  import opened Bytes
  import opened Merkle
  import opened MerkleTrees

  // ---- the tree that the builder hashes ----

  function Leaves(leaves: seq<GoString>): (ts: seq<Tree>)
    ensures |ts| == |leaves|
  {
    seq(|leaves|, i requires 0 <= i < |leaves| => Leaf(leaves[i]))
  }

  function PairTrees(ts: seq<Tree>): (up: seq<Tree>)
    ensures |up| == (|ts| + 1) / 2
  {
    seq((|ts| + 1) / 2, i requires 0 <= i < (|ts| + 1) / 2 => Branch(ts[2 * i], ts[RightChild(|ts|, i)]))
  }

  function GrowTree(ts: seq<Tree>): Tree
    requires ts != []
    decreases |ts|
  {
    if |ts| == 1 then ts[0] else GrowTree(PairTrees(ts))
  }

  function BuiltTree(leaves: seq<GoString>): Tree
    requires leaves != []
  {
    GrowTree(Leaves(leaves))
  }

  function HashAll(sha: Sha256, ts: seq<Tree>): (nodes: seq<Digest>)
    ensures |nodes| == |ts|
  {
    seq(|ts|, i requires 0 <= i < |ts| => HashTree(sha, ts[i]))
  }

  lemma {:induction false} RootIsTreeHash(sha: Sha256, ts: seq<Tree>)
    requires ts != []
    ensures RootNode(sha, HashAll(sha, ts)) == HashTree(sha, GrowTree(ts))
    decreases |ts|
  {
    if |ts| > 1 {
      assert HashAll(sha, PairTrees(ts)) == Parents(sha, HashAll(sha, ts));
      RootIsTreeHash(sha, PairTrees(ts));
    }
  }

  /** The root that MerkleRoot returns is the hash of the built tree, and only that. */
  lemma RootOfBuiltTree(sha: Sha256, leaves: seq<GoString>)
    requires leaves != []
    ensures DecodeDigest(RootHex(sha, leaves)) == Some(HashTree(sha, BuiltTree(leaves)))
    ensures RootHex(sha, leaves) == EncodeHex(HashTree(sha, BuiltTree(leaves)))
  {
    assert HashAll(sha, Leaves(leaves)) == LeafNodes(sha, leaves);
    RootIsTreeHash(sha, Leaves(leaves));
    DecodeEncodeHex(RootNode(sha, LeafNodes(sha, leaves)));
  }

  // ---- the expansion to a perfect tree ----

  /**
   * The leaf standing at position q of the perfect tree over n leaves. Reading q's bits from the
   * top, each level goes to a child of the node reached so far, clamped to the last node there.
   */
  function Original(n: nat, q: nat): (i: nat)
    requires n > 0
    ensures i < n
    decreases n
  {
    if n == 1 then 0
    else
      var child := 2 * Original((n + 1) / 2, q / 2) + q % 2;
      if child < n then child else n - 1
  }

  /** The list with the last node of each odd level duplicated, level by level. */
  function Expansion<T>(xs: seq<T>): (e: seq<T>)
    requires xs != []
    ensures |e| == Pow2(Depth(|xs|))
  {
    seq(Pow2(Depth(|xs|)), q requires 0 <= q < Pow2(Depth(|xs|)) => xs[Original(|xs|, q)])
  }

  lemma {:induction false} OriginalKeepsLeaves(n: nat, q: nat)
    requires q < n
    ensures Original(n, q) == q
    decreases n
  {
    if n > 1 {
      OriginalKeepsLeaves((n + 1) / 2, q / 2);
    }
  }

  /** Leaf lists of one length are told apart by their expansions: each list is a prefix of its own. */
  lemma ExpansionPrefix(leaves: seq<GoString>)
    requires leaves != []
    ensures leaves <= Expansion(leaves)
  {
    DepthIsLeast(|leaves|);
    forall q | 0 <= q < |leaves|
      ensures Expansion(leaves)[q] == leaves[q]
    {
      OriginalKeepsLeaves(|leaves|, q);
    }
  }

  lemma PairExpansion(ts: seq<Tree>)
    requires |ts| > 1
    ensures PairTrees(Expansion(ts)) == Expansion(PairTrees(ts))
  {
    var n, up, s := |ts|, PairTrees(ts), Expansion(ts);
    forall q | 0 <= q < |Expansion(up)|
      ensures PairTrees(s)[q] == Expansion(up)[q]
    {
      var p := Original(|up|, q);
      assert (2 * q) / 2 == q && (2 * q + 1) / 2 == q;
      assert Original(n, 2 * q) == 2 * p;
      assert Original(n, 2 * q + 1) == RightChild(n, p);
      assert RightChild(|s|, q) == 2 * q + 1;
      assert PairTrees(s)[q] == Branch(s[2 * q], s[2 * q + 1]);
      assert Expansion(up)[q] == up[p] == Branch(ts[2 * p], ts[RightChild(n, p)]);
    }
  }

  /** Duplicating odd tails level by level builds the same tree as expanding first. */
  lemma {:induction false} GrowExpansion(ts: seq<Tree>)
    requires ts != []
    ensures GrowTree(Expansion(ts)) == GrowTree(ts)
    decreases |ts|
  {
    if |ts| == 1 {
      assert Expansion(ts)[0] == ts[0];
    } else {
      PairExpansion(ts);
      GrowExpansion(PairTrees(ts));
    }
  }

  /** The perfect tree over 2^d subtrees, split in the middle from the top. */
  function Halved(ts: seq<Tree>, d: nat): Tree
    requires |ts| == Pow2(d)
    decreases d
  {
    if d == 0 then ts[0]
    else Branch(Halved(ts[..Pow2(d - 1)], d - 1), Halved(ts[Pow2(d - 1)..], d - 1))
  }

  lemma {:induction false} HalvedPairs(ts: seq<Tree>, d: nat)
    requires d > 0 && |ts| == Pow2(d)
    ensures |PairTrees(ts)| == Pow2(d - 1)
    ensures Halved(PairTrees(ts), d - 1) == Halved(ts, d)
    decreases d
  {
    var up := PairTrees(ts);
    if d > 1 {
      var h := Pow2(d - 1);
      assert up[..Pow2(d - 2)] == PairTrees(ts[..h]);
      assert up[Pow2(d - 2)..] == PairTrees(ts[h..]);
      HalvedPairs(ts[..h], d - 1);
      HalvedPairs(ts[h..], d - 1);
    } else {
      assert Pow2(0) == 1 && Pow2(1) == 2;
      assert Halved(ts[..1], 0) == ts[0] && Halved(ts[1..], 0) == ts[1];
    }
  }

  lemma {:induction false} GrowIsHalved(ts: seq<Tree>, d: nat)
    requires |ts| == Pow2(d)
    ensures GrowTree(ts) == Halved(ts, d)
    decreases d
  {
    if d > 0 {
      HalvedPairs(ts, d);
      GrowIsHalved(PairTrees(ts), d - 1);
    }
  }

  /** The built tree is the perfect tree over the expansion. */
  lemma BuiltIsHalved(leaves: seq<GoString>)
    requires leaves != []
    ensures BuiltTree(leaves) == Halved(Leaves(Expansion(leaves)), Depth(|leaves|))
  {
    var ts := Leaves(leaves);
    GrowExpansion(ts);
    assert Expansion(ts) == Leaves(Expansion(leaves));
    GrowIsHalved(Expansion(ts), Depth(|leaves|));
  }

  function CountLeaves(t: Tree): (n: nat)
    ensures n > 0
  {
    match t
    case Leaf(_) => 1
    case Branch(l, r) => CountLeaves(l) + CountLeaves(r)
  }

  lemma {:induction false} HalvedCount(e: seq<GoString>, d: nat)
    requires |e| == Pow2(d)
    ensures CountLeaves(Halved(Leaves(e), d)) == |e|
    decreases d
  {
    if d > 0 {
      var h := Pow2(d - 1);
      assert Leaves(e)[..h] == Leaves(e[..h]) && Leaves(e)[h..] == Leaves(e[h..]);
      HalvedCount(e[..h], d - 1);
      HalvedCount(e[h..], d - 1);
    }
  }

  lemma LeavesSplit(e: seq<GoString>, h: nat)
    requires h <= |e|
    ensures Leaves(e)[..h] == Leaves(e[..h]) && Leaves(e)[h..] == Leaves(e[h..])
  {
  }

  lemma {:induction false} HalvedInjective(e: seq<GoString>, f: seq<GoString>, d: nat)
    requires |e| == |f| == Pow2(d) && Halved(Leaves(e), d) == Halved(Leaves(f), d)
    ensures e == f
    decreases d
  {
    if d == 0 {
      assert Leaves(e)[0] == Leaves(f)[0];
    } else {
      var h := Pow2(d - 1);
      LeavesSplit(e, h);
      LeavesSplit(f, h);
      HalvedInjective(e[..h], f[..h], d - 1);
      HalvedInjective(e[h..], f[h..], d - 1);
      assert e == e[..h] + e[h..] && f == f[..h] + f[h..];
    }
  }

  lemma {:induction false} Pow2Injective(c: nat, d: nat)
    requires Pow2(c) == Pow2(d)
    ensures c == d
  {
    if c > 0 && d > 0 {
      Pow2Injective(c - 1, d - 1);
    }
  }

  lemma BuiltTreeInjective(a: seq<GoString>, b: seq<GoString>)
    requires a != [] && b != []
    ensures BuiltTree(a) == BuiltTree(b) <==> Expansion(a) == Expansion(b)
  {
    var da, db := Depth(|a|), Depth(|b|);
    BuiltIsHalved(a);
    BuiltIsHalved(b);
    if BuiltTree(a) == BuiltTree(b) {
      HalvedCount(Expansion(a), da);
      HalvedCount(Expansion(b), db);
      Pow2Injective(da, db);
      HalvedInjective(Expansion(a), Expansion(b), da);
    } else if Expansion(a) == Expansion(b) {
      Pow2Injective(da, db);
    }
  }

  // ---- what a root determines ----

  /** The collision to look at when two leaf lists share a root. */
  function RootCollision(sha: Sha256, a: seq<GoString>, b: seq<GoString>): (c: Option<Collision>)
    requires a != [] && b != []
    ensures c.Some? ==> IsCollision(sha, c.value)
    ensures c.Some? <==> RootHex(sha, a) == RootHex(sha, b) && BuiltTree(a) != BuiltTree(b)
  {
    RootOfBuiltTree(sha, a);
    RootOfBuiltTree(sha, b);
    if RootHex(sha, a) == RootHex(sha, b) && BuiltTree(a) != BuiltTree(b)
    then Some(TreeCollision(sha, BuiltTree(a), BuiltTree(b)))
    else None
  }

  /**
   * Without the exhibited collision, roots are equal exactly when expansions are;
   * then lists of equal length are equal.
   */
  lemma RootDetermines(sha: Sha256, a: seq<GoString>, b: seq<GoString>)
    requires a != [] && b != []
    ensures Expansion(a) == Expansion(b) ==> RootHex(sha, a) == RootHex(sha, b)
    ensures RootCollision(sha, a, b).None? && RootHex(sha, a) == RootHex(sha, b) ==>
              Expansion(a) == Expansion(b) && (|a| == |b| ==> a == b)
  {
    RootOfBuiltTree(sha, a);
    RootOfBuiltTree(sha, b);
    BuiltTreeInjective(a, b);
    ExpansionPrefix(a);
    ExpansionPrefix(b);
  }

  // ---- soundness of inclusion proofs ----

  lemma {:induction false} PositionSnoc(steps: seq<PathStep>, s: PathStep)
    ensures Position(steps) < Pow2(|steps|)
    ensures Position(steps + [s]) == Position(steps) + if s.siblingLeft then Pow2(|steps|) else 0
  {
    if steps == [] {
      assert (steps + [s])[1..] == [];
    } else {
      assert (steps + [s])[1..] == steps[1..] + [s];
      PositionSnoc(steps[1..], s);
    }
  }

  lemma {:induction false} DescendCons(sha: Sha256, t: Tree, s: PathStep, rest: seq<PathStep>)
    ensures Honest(sha, t, [s] + rest) <==>
            Honest(sha, t, rest) && Descend(t, rest).Some? && Honest(sha, Descend(t, rest).value, [s])
    decreases |rest|
  {
    if rest == [] {
      assert [s] + rest == [s];
    } else {
      var init := rest[..|rest| - 1];
      assert ([s] + rest)[..|rest|] == [s] + init;
      if t.Branch? {
        DescendCons(sha, if rest[|rest| - 1].siblingLeft then t.right else t.left, s, init);
      }
    }
  }

  lemma {:induction false} DescendConsPath(t: Tree, s: PathStep, rest: seq<PathStep>)
    ensures Descend(t, [s] + rest) == match Descend(t, rest)
                                      case Some(u) => Descend(u, [s])
                                      case None => None
    decreases |rest|
  {
    if rest == [] {
      assert [s] + rest == [s];
    } else {
      var init := rest[..|rest| - 1];
      assert ([s] + rest)[..|rest|] == [s] + init;
      if t.Branch? {
        DescendConsPath(if rest[|rest| - 1].siblingLeft then t.right else t.left, s, init);
      }
    }
  }

  lemma OneStepDown(sha: Sha256, ts: seq<Tree>, pos: nat)
    requires pos < |ts|
    ensures var s, parent := StepAt(HashAll(sha, ts), pos), PairTrees(ts)[pos / 2];
            Honest(sha, parent, [s]) && Descend(parent, [s]) == Some(ts[pos])
  {
    var s, parent := StepAt(HashAll(sha, ts), pos), PairTrees(ts)[pos / 2];
    assert [s][..0] == [];
    if pos % 2 == 0 {
      assert parent.left == ts[pos];
    } else {
      assert RightChild(|ts|, pos / 2) == pos;
      assert parent.right == ts[pos];
    }
  }

  /** The generated steps lead from the root of the built tree down to the subtree they started from. */
  lemma {:induction false} ProofStepsFollowTree(sha: Sha256, ts: seq<Tree>, pos: nat)
    requires pos < |ts|
    ensures var steps := ProofSteps(sha, HashAll(sha, ts), pos);
            Honest(sha, GrowTree(ts), steps) && Descend(GrowTree(ts), steps) == Some(ts[pos])
    decreases |ts|
  {
    if |ts| > 1 {
      var up := PairTrees(ts);
      var s, rest := StepAt(HashAll(sha, ts), pos), ProofSteps(sha, HashAll(sha, up), pos / 2);
      assert HashAll(sha, up) == Parents(sha, HashAll(sha, ts));
      ProofStepsFollowTree(sha, up, pos / 2);
      OneStepDown(sha, ts, pos);
      DescendCons(sha, GrowTree(ts), s, rest);
      DescendConsPath(GrowTree(ts), s, rest);
    }
  }

  lemma {:induction false} DepthOfPow2(d: nat)
    ensures Depth(Pow2(d)) == d
  {
    if d > 0 {
      DepthOfPow2(d - 1);
    }
  }

  lemma ProofStepsHonest(sha: Sha256, leaves: seq<GoString>, idx: nat)
    requires idx < |leaves|
    ensures var steps := ProofSteps(sha, LeafNodes(sha, leaves), idx);
            Honest(sha, BuiltTree(leaves), steps) && Position(steps) == idx && |steps| == Depth(|leaves|)
  {
    assert HashAll(sha, Leaves(leaves)) == LeafNodes(sha, leaves);
    ProofStepsFollowTree(sha, Leaves(leaves), idx);
    ProofStepsFold(sha, LeafNodes(sha, leaves), idx);
    ProofStepsPosition(sha, LeafNodes(sha, leaves), idx);
  }

  /** The same at every position of the perfect tree, duplicated ones included. */
  lemma ExpandedStepsHonest(sha: Sha256, leaves: seq<GoString>, q: nat)
    requires leaves != [] && q < Pow2(Depth(|leaves|))
    ensures var steps := ProofSteps(sha, LeafNodes(sha, Expansion(leaves)), q);
            Honest(sha, BuiltTree(leaves), steps) && Position(steps) == q && |steps| == Depth(|leaves|)
  {
    DepthOfPow2(Depth(|leaves|));
    BuiltIsHalved(leaves);
    GrowIsHalved(Leaves(Expansion(leaves)), Depth(|leaves|));
    ProofStepsHonest(sha, Expansion(leaves), q);
  }

  /** In one tree, honest steps are fixed by their number and position. */
  lemma {:induction false} HonestUnique(sha: Sha256, t: Tree, s: seq<PathStep>, u: seq<PathStep>)
    requires |s| == |u| && Position(s) == Position(u) && Honest(sha, t, s) && Honest(sha, t, u)
    ensures s == u
    decreases |s|
  {
    if s != [] {
      var n := |s| - 1;
      assert s == s[..n] + [s[n]] && u == u[..n] + [u[n]];
      PositionSnoc(s[..n], s[n]);
      PositionSnoc(u[..n], u[n]);
      HonestUnique(sha, if s[n].siblingLeft then t.right else t.left, s[..n], u[..n]);
    }
  }

  lemma {:induction false} DescendHalved(e: seq<GoString>, d: nat, steps: seq<PathStep>, leaf: GoString)
    requires |e| == Pow2(d) && Descend(Halved(Leaves(e), d), steps) == Some(Leaf(leaf))
    ensures |steps| == d && Position(steps) < |e| && e[Position(steps)] == leaf
    decreases d
  {
    if d > 0 {
      assert steps != [];
      var h, last, init := Pow2(d - 1), steps[|steps| - 1], steps[..|steps| - 1];
      assert steps == init + [last];
      assert Leaves(e)[..h] == Leaves(e[..h]) && Leaves(e)[h..] == Leaves(e[h..]);
      DescendHalved(if last.siblingLeft then e[h..] else e[..h], d - 1, init, leaf);
      PositionSnoc(init, last);
    }
  }

  /** The collision to look at when an accepted proof does not name a leaf. */
  function InclusionCollision(
      sha: Sha256, leaves: seq<GoString>, leaf: GoString, proof: seq<GoString>): (c: Option<Collision>)
    requires leaves != [] && Accepts(sha, leaf, proof, RootHex(sha, leaves))
    ensures c.Some? ==> IsCollision(sha, c.value)
  {
    RootOfBuiltTree(sha, leaves);
    PathCollision(sha, BuiltTree(leaves), leaf, DecodeSteps(proof).value)
  }

  /**
   * For any list of strings offered as a proof: if it is accepted and no collision is exhibited, it
   * has one element per level and the leaf is the one at the position its sides spell. Read as
   * decoded nodes, it is then the proof generated for that position of the expanded list, and for the
   * list itself when the position is not a duplicated one.
   */
  lemma InclusionSound(sha: Sha256, leaves: seq<GoString>, leaf: GoString, proof: seq<GoString>)
    requires leaves != [] && Accepts(sha, leaf, proof, RootHex(sha, leaves))
    requires InclusionCollision(sha, leaves, leaf, proof).None?
    ensures DecodeSteps(proof).Some?
    ensures |proof| == Depth(|leaves|)
    ensures var q := Position(DecodeSteps(proof).value);
            && q < Pow2(Depth(|leaves|)) && leaf == leaves[Original(|leaves|, q)]
            && DecodeSteps(proof).value == ProofSteps(sha, LeafNodes(sha, Expansion(leaves)), q)
            && (q < |leaves| ==>
                  leaf == leaves[q] && DecodeSteps(proof).value == ProofSteps(sha, LeafNodes(sha, leaves), q))
  {
    var steps := DecodeSteps(proof).value;
    var q := Position(steps);
    RootOfBuiltTree(sha, leaves);
    BuiltIsHalved(leaves);
    DescendHalved(Expansion(leaves), Depth(|leaves|), steps, leaf);
    ExpandedStepsHonest(sha, leaves, q);
    HonestUnique(sha, BuiltTree(leaves), steps, ProofSteps(sha, LeafNodes(sha, Expansion(leaves)), q));
    if q < |leaves| {
      OriginalKeepsLeaves(|leaves|, q);
      ProofStepsHonest(sha, leaves, q);
      HonestUnique(sha, BuiltTree(leaves), steps, ProofSteps(sha, LeafNodes(sha, leaves), q));
    }
  }

  // ---- what a root alone determines ----

  /** Read from the root downwards, the two proofs take the same sides as far as both go. */
  predicate SameSides(s: seq<PathStep>, u: seq<PathStep>)
    decreases |s|
  {
    s != [] && u != [] ==>
      && s[|s| - 1].siblingLeft == u[|u| - 1].siblingLeft
      && SameSides(s[..|s| - 1], u[..|u| - 1])
  }

  /** The last input that folding a proof hashes. */
  function LastInput(sha: Sha256, leaf: GoString, steps: seq<PathStep>): (p: seq<byte>)
    ensures sha(p) == Fold(sha, LeafNode(sha, leaf), steps)
    ensures p != [] && (p[0] == LEAF_PREFIX <==> steps == [])
  {
    if steps == [] then [LEAF_PREFIX] + leaf
    else
      var last, init := steps[|steps| - 1], steps[..|steps| - 1];
      assert steps == init + [last];
      FoldSnoc(sha, LeafNode(sha, leaf), init, last);
      var inner := Fold(sha, LeafNode(sha, leaf), init);
      if last.siblingLeft then [INTERNAL_PREFIX] + last.sibling + inner else [INTERNAL_PREFIX] + inner + last.sibling
  }

  lemma LastInputParts(sha: Sha256, leaf1: GoString, s: seq<PathStep>, leaf2: GoString, u: seq<PathStep>)
    requires s != [] && u != [] && s[|s| - 1].siblingLeft == u[|u| - 1].siblingLeft
    requires LastInput(sha, leaf1, s) == LastInput(sha, leaf2, u)
    ensures s[|s| - 1] == u[|u| - 1]
    ensures Fold(sha, LeafNode(sha, leaf1), s[..|s| - 1]) == Fold(sha, LeafNode(sha, leaf2), u[..|u| - 1])
  {
    var x, y := s[|s| - 1].sibling, u[|u| - 1].sibling;
    var f, g := Fold(sha, LeafNode(sha, leaf1), s[..|s| - 1]), Fold(sha, LeafNode(sha, leaf2), u[..|u| - 1]);
    if s[|s| - 1].siblingLeft {
      PreimageParts(sha, x, f, y, g);
    } else {
      PreimageParts(sha, f, x, g, y);
    }
  }

  /** Walks two proofs down from their common root to two different inputs with one hash, if there are any. */
  function TwoPathsCollision(sha: Sha256, leaf1: GoString, s: seq<PathStep>, leaf2: GoString, u: seq<PathStep>)
      : (c: Option<Collision>)
    requires Fold(sha, LeafNode(sha, leaf1), s) == Fold(sha, LeafNode(sha, leaf2), u) && SameSides(s, u)
    ensures c.Some? ==> IsCollision(sha, c.value)
    ensures c.None? <==> leaf1 == leaf2 && s == u
    decreases |s|
  {
    var p, q := LastInput(sha, leaf1, s), LastInput(sha, leaf2, u);
    if p != q then Some(Collision(p, q))
    else if s == [] then
      assert p[1..] == leaf1 && q[1..] == leaf2;
      None
    else
      LastInputParts(sha, leaf1, s, leaf2, u);
      assert s == s[..|s| - 1] + [s[|s| - 1]] && u == u[..|u| - 1] + [u[|u| - 1]];
      TwoPathsCollision(sha, leaf1, s[..|s| - 1], leaf2, u[..|u| - 1])
  }

  /** The collision to look at when two accepted proofs against one root disagree. */
  function ProofCollision(
      sha: Sha256, root: GoString, leaf1: GoString, a: seq<GoString>, leaf2: GoString, b: seq<GoString>)
      : (c: Option<Collision>)
    requires Accepts(sha, leaf1, a, root) && Accepts(sha, leaf2, b, root)
    requires SameSides(DecodeSteps(a).value, DecodeSteps(b).value)
    ensures c.Some? ==> IsCollision(sha, c.value)
  {
    TwoPathsCollision(sha, leaf1, DecodeSteps(a).value, leaf2, DecodeSteps(b).value)
  }

  /** One length and one position. */
  predicate SamePlace(s: seq<PathStep>, u: seq<PathStep>) {
    |s| == |u| && Position(s) == Position(u)
  }

  /** Proofs of one length whose positions agree take the same sides. */
  lemma {:induction false} PositionFixesSides(s: seq<PathStep>, u: seq<PathStep>)
    requires SamePlace(s, u)
    ensures SameSides(s, u)
    decreases |s|
  {
    if s != [] {
      var n := |s| - 1;
      assert s == s[..n] + [s[n]] && u == u[..n] + [u[n]];
      PositionSnoc(s[..n], s[n]);
      PositionSnoc(u[..n], u[n]);
      PositionFixesSides(s[..n], u[..n]);
    }
  }

  /**
   * Any string taken as a root, with or without leaves behind it, admits one leaf and one path per
   * position: two accepted proofs of one length and position, or more generally with the same sides
   * from the root down, are for the same leaf and carry the same nodes, so that neither goes on where
   * the other ends. They exhibit a collision exactly when that fails.
   */
  lemma RootAdmitsOne(sha: Sha256, root: GoString, leaf1: GoString, a: seq<GoString>, leaf2: GoString, b: seq<GoString>)
    requires Accepts(sha, leaf1, a, root) && Accepts(sha, leaf2, b, root)
    requires || SameSides(DecodeSteps(a).value, DecodeSteps(b).value)
             || SamePlace(DecodeSteps(a).value, DecodeSteps(b).value)
    ensures SameSides(DecodeSteps(a).value, DecodeSteps(b).value)
    ensures ProofCollision(sha, root, leaf1, a, leaf2, b).None? <==> leaf1 == leaf2 && DecodeSteps(a) == DecodeSteps(b)
  {
    if SamePlace(DecodeSteps(a).value, DecodeSteps(b).value) {
      PositionFixesSides(DecodeSteps(a).value, DecodeSteps(b).value);
    }
  }

  // ---- section 2.1 of RFC 6962 ----

  /** The largest power of two smaller than n. */
  function SplitPoint(n: nat): (k: nat)
    requires n > 1
    ensures 0 < k < n <= 2 * k
  {
    if n == 2 then 1 else 2 * SplitPoint((n + 1) / 2)
  }

  lemma {:induction false} SplitPointIsPow2(n: nat)
    requires n > 1
    ensures SplitPoint(n) == Pow2(Depth(n) - 1)
  {
    var m := (n + 1) / 2;
    assert Depth(n) == 1 + Depth(m);
    if n > 2 {
      SplitPointIsPow2(m);
      assert Depth(m) == 1 + Depth((m + 1) / 2);
      assert Pow2(Depth(m)) == 2 * Pow2(Depth(m) - 1);
    } else {
      assert m == 1;
    }
  }

  /** Merkle Tree Hash, section 2.1 of RFC 6962. */
  function MTH(sha: Sha256, d: seq<GoString>): Digest
    requires d != []
    decreases |d|
  {
    if |d| == 1 then sha([0] + d[0])
    else
      var k := SplitPoint(|d|);
      sha([1] + MTH(sha, d[..k]) + MTH(sha, d[k..]))
  }

  /** Merkle audit path, section 2.1.1 of RFC 6962. */
  function PATH(sha: Sha256, m: nat, d: seq<GoString>): seq<Digest>
    requires m < |d|
    decreases |d|
  {
    if |d| == 1 then []
    else
      var k := SplitPoint(|d|);
      if m < k then PATH(sha, m, d[..k]) + [MTH(sha, d[k..])]
      else PATH(sha, m - k, d[k..]) + [MTH(sha, d[..k])]
  }

  function RfcTree(d: seq<GoString>): (t: Tree)
    requires d != []
    ensures CountLeaves(t) == |d|
    decreases |d|
  {
    if |d| == 1 then Leaf(d[0])
    else
      var k := SplitPoint(|d|);
      Branch(RfcTree(d[..k]), RfcTree(d[k..]))
  }

  lemma {:induction false} MthIsTreeHash(sha: Sha256, d: seq<GoString>)
    requires d != []
    ensures MTH(sha, d) == HashTree(sha, RfcTree(d))
    decreases |d|
  {
    if |d| > 1 {
      var k := SplitPoint(|d|);
      MthIsTreeHash(sha, d[..k]);
      MthIsTreeHash(sha, d[k..]);
    }
  }

  lemma {:induction false} RfcTreeIsHalved(e: seq<GoString>, d: nat)
    requires |e| == Pow2(d)
    ensures RfcTree(e) == Halved(Leaves(e), d)
    decreases d
  {
    if d > 0 {
      var h := Pow2(d - 1);
      DepthOfPow2(d);
      SplitPointIsPow2(|e|);
      assert Leaves(e)[..h] == Leaves(e[..h]) && Leaves(e)[h..] == Leaves(e[h..]);
      RfcTreeIsHalved(e[..h], d - 1);
      RfcTreeIsHalved(e[h..], d - 1);
    }
  }

  /** Whatever the number of leaves, the root is the Merkle Tree Hash of the expansion. */
  lemma RootIsMthOfExpansion(sha: Sha256, leaves: seq<GoString>)
    requires leaves != []
    ensures RootHex(sha, leaves) == EncodeHex(MTH(sha, Expansion(leaves)))
  {
    RootOfBuiltTree(sha, leaves);
    BuiltIsHalved(leaves);
    RfcTreeIsHalved(Expansion(leaves), Depth(|leaves|));
    MthIsTreeHash(sha, Expansion(leaves));
  }

  predicate IsPow2(n: nat) {
    n > 0 && n == Pow2(Depth(n))
  }

  function RfcCollision(sha: Sha256, leaves: seq<GoString>): (c: Option<Collision>)
    requires leaves != []
    ensures c.Some? ==> IsCollision(sha, c.value)
    ensures c.Some? <==>
              HashTree(sha, BuiltTree(leaves)) == HashTree(sha, RfcTree(leaves)) && BuiltTree(leaves) != RfcTree(leaves)
  {
    var t, u := BuiltTree(leaves), RfcTree(leaves);
    if HashTree(sha, t) == HashTree(sha, u) && t != u then Some(TreeCollision(sha, t, u)) else None
  }

  /**
   * The root agrees with RFC 6962 exactly when the number of leaves is a power of two, up to an exhibited
   * collision.
   */
  lemma RootAgreesWithRfc(sha: Sha256, leaves: seq<GoString>)
    requires leaves != []
    ensures IsPow2(|leaves|) ==> RootHex(sha, leaves) == EncodeHex(MTH(sha, leaves))
    ensures RfcCollision(sha, leaves).None? && RootHex(sha, leaves) == EncodeHex(MTH(sha, leaves)) ==> IsPow2(|leaves|)
  {
    ExpansionPrefix(leaves);
    if IsPow2(|leaves|) {
      assert Expansion(leaves) == leaves;
      RootIsMthOfExpansion(sha, leaves);
    } else {
      RootOfBuiltTree(sha, leaves);
      MthIsTreeHash(sha, leaves);
      if RootHex(sha, leaves) == EncodeHex(MTH(sha, leaves)) {
        EncodeHexInjective(HashTree(sha, BuiltTree(leaves)), MTH(sha, leaves));
        BuiltIsHalved(leaves);
        HalvedCount(Expansion(leaves), Depth(|leaves|));
      }
    }
  }

  function Siblings(steps: seq<PathStep>): (s: seq<Digest>)
    ensures |s| == |steps|
  {
    seq(|steps|, i requires 0 <= i < |steps| => steps[i].sibling)
  }

  lemma SiblingsSnoc(init: seq<PathStep>, last: PathStep)
    ensures Siblings(init + [last]) == Siblings(init) + [last.sibling]
  {
  }

  /** The audit path read off a tree. */
  function TreePath(sha: Sha256, t: Tree, m: nat): seq<Digest>
    requires m < CountLeaves(t)
    decreases t
  {
    match t
    case Leaf(_) => []
    case Branch(l, r) =>
      if m < CountLeaves(l) then TreePath(sha, l, m) + [HashTree(sha, r)]
      else TreePath(sha, r, m - CountLeaves(l)) + [HashTree(sha, l)]
  }

  lemma {:induction false} PathIsTreePath(sha: Sha256, d: seq<GoString>, m: nat)
    requires m < |d|
    ensures PATH(sha, m, d) == TreePath(sha, RfcTree(d), m)
    decreases |d|
  {
    if |d| > 1 {
      var k := SplitPoint(|d|);
      var low, high := d[..k], d[k..];
      if m < k {
        PathIsTreePath(sha, low, m);
        MthIsTreeHash(sha, high);
      } else {
        PathIsTreePath(sha, high, m - k);
        MthIsTreeHash(sha, low);
      }
    }
  }

  predicate Perfect(t: Tree, d: nat) {
    if d == 0 then t.Leaf? else t.Branch? && Perfect(t.left, d - 1) && Perfect(t.right, d - 1)
  }

  lemma {:induction false} HalvedPerfect(e: seq<GoString>, d: nat)
    requires |e| == Pow2(d)
    ensures Perfect(Halved(Leaves(e), d), d)
    decreases d
  {
    if d > 0 {
      var h := Pow2(d - 1);
      assert Leaves(e)[..h] == Leaves(e[..h]) && Leaves(e)[h..] == Leaves(e[h..]);
      HalvedPerfect(e[..h], d - 1);
      HalvedPerfect(e[h..], d - 1);
    }
  }

  lemma {:induction false} PerfectCount(t: Tree, d: nat)
    requires Perfect(t, d)
    ensures CountLeaves(t) == Pow2(d)
    decreases d
  {
    if d > 0 {
      PerfectCount(t.left, d - 1);
      PerfectCount(t.right, d - 1);
    }
  }

  /** In a perfect tree, steps that follow the tree carry the audit path of their position. */
  lemma {:induction false} HonestIsAuditPath(sha: Sha256, t: Tree, d: nat, steps: seq<PathStep>)
    requires Perfect(t, d) && |steps| == d && Honest(sha, t, steps)
    ensures Position(steps) < CountLeaves(t)
    ensures Siblings(steps) == TreePath(sha, t, Position(steps))
    decreases d
  {
    if d > 0 {
      var last, init := steps[d - 1], steps[..d - 1];
      assert steps == init + [last];
      PerfectCount(t.left, d - 1);
      PositionSnoc(init, last);
      SiblingsSnoc(init, last);
      HonestIsAuditPath(sha, if last.siblingLeft then t.right else t.left, d - 1, init);
    }
  }

  /** For a power of two of leaves the siblings of the proof are the audit path of RFC 6962. */
  lemma ProofIsAuditPath(sha: Sha256, leaves: seq<GoString>, idx: nat)
    requires IsPow2(|leaves|) && idx < |leaves|
    ensures Siblings(ProofSteps(sha, LeafNodes(sha, leaves), idx)) == PATH(sha, idx, leaves)
  {
    var d := Depth(|leaves|);
    ProofStepsHonest(sha, leaves, idx);
    GrowIsHalved(Leaves(leaves), d);
    RfcTreeIsHalved(leaves, d);
    HalvedPerfect(leaves, d);
    HonestIsAuditPath(sha, BuiltTree(leaves), d, ProofSteps(sha, LeafNodes(sha, leaves), idx));
    PathIsTreePath(sha, leaves, idx);
  }
}
