/** The trees behind chain/merkle.go: shape of the levels, completeness of proofs, and trees pinned by their hash. */
module MerkleTrees {
  import opened Bytes
  import opened Merkle

  // ---- shape of the levels ----

  function Pow2(d: nat): (p: nat)
    ensures p >= 1
  {
    if d == 0 then 1 else 2 * Pow2(d - 1)
  }

  /** Number of nodes of level k over n leaves: halved rounding up. */
  function Width(n: nat, k: nat): (w: nat)
    ensures n > 0 ==> w > 0
  {
    if k == 0 then n else (Width(n, k - 1) + 1) / 2
  }

  /** Number of levels above the leaves. */
  function Depth(n: nat): nat {
    if n <= 1 then 0 else 1 + Depth((n + 1) / 2)
  }

  /** Node i of level k, computed from the leaves downwards-up with clamped right children. */
  function NodeAt(sha: Sha256, leaves: seq<GoString>, k: nat, i: nat): Digest
    requires i < Width(|leaves|, k)
    decreases k
  {
    if k == 0 then LeafNode(sha, leaves[i])
    else CombineNodes(sha,
           NodeAt(sha, leaves, k - 1, 2 * i),
           NodeAt(sha, leaves, k - 1, RightChild(Width(|leaves|, k - 1), i)))
  }

  lemma {:induction false} WidthShift(n: nat, k: nat)
    ensures Width((n + 1) / 2, k) == Width(n, k + 1)
  {
    if k > 0 {
      WidthShift(n, k - 1);
    }
  }

  /** Depth(n) is the least d with 2^d >= n, and level Depth(n) is the first of width 1. */
  lemma {:induction false} DepthIsLeast(n: nat)
    requires n > 0
    ensures n <= Pow2(Depth(n))
    ensures Depth(n) > 0 ==> Pow2(Depth(n) - 1) < n
    ensures Width(n, Depth(n)) == 1
    ensures forall k :: 0 <= k < Depth(n) ==> Width(n, k) > 1
  {
    if n > 1 {
      var m := (n + 1) / 2;
      DepthIsLeast(m);
      WidthShift(n, Depth(m));
      forall k | 0 <= k < Depth(n)
        ensures Width(n, k) > 1
      {
        if k > 0 {
          WidthShift(n, k - 1);
        }
      }
    }
  }

  ghost predicate IsLevel(sha: Sha256, leaves: seq<GoString>, k: nat, nodes: seq<Digest>) {
    |nodes| == Width(|leaves|, k) && forall i :: 0 <= i < |nodes| ==> nodes[i] == NodeAt(sha, leaves, k, i)
  }

  lemma LevelAbove(sha: Sha256, leaves: seq<GoString>, k: nat, nodes: seq<Digest>)
    requires IsLevel(sha, leaves, k, nodes)
    ensures IsLevel(sha, leaves, k + 1, Parents(sha, nodes))
  {
  }

  function Raise(sha: Sha256, nodes: seq<Digest>, k: nat): seq<Digest>
    decreases k
  {
    if k == 0 then nodes else Raise(sha, Parents(sha, nodes), k - 1)
  }

  lemma {:induction false} RaiseIsLevel(sha: Sha256, leaves: seq<GoString>, k: nat, nodes: seq<Digest>, j: nat)
    requires IsLevel(sha, leaves, k, nodes)
    ensures IsLevel(sha, leaves, k + j, Raise(sha, nodes, j))
    decreases j
  {
    if j > 0 {
      LevelAbove(sha, leaves, k, nodes);
      RaiseIsLevel(sha, leaves, k + 1, Parents(sha, nodes), j - 1);
    }
  }

  lemma {:induction false} LevelsAreRaised(sha: Sha256, nodes: seq<Digest>, j: nat)
    requires j < |Levels(sha, nodes)|
    ensures Levels(sha, nodes)[j] == Raise(sha, nodes, j)
    decreases j
  {
    if j > 0 {
      LevelsAreRaised(sha, Parents(sha, nodes), j - 1);
    }
  }

  lemma {:induction false} LevelCount(sha: Sha256, nodes: seq<Digest>)
    ensures |Levels(sha, nodes)| == Depth(|nodes|) + 1
    decreases |nodes|
  {
    if |nodes| > 1 {
      LevelCount(sha, Parents(sha, nodes));
    }
  }

  /** buildLevels refines the recursive definition, node by node. */
  lemma LevelsAreNodes(sha: Sha256, leaves: seq<GoString>, k: nat)
    requires leaves != []
    ensures |Levels(sha, LeafNodes(sha, leaves))| == Depth(|leaves|) + 1
    ensures k <= Depth(|leaves|) ==>
              var level := Levels(sha, LeafNodes(sha, leaves))[k];
              && |level| == Width(|leaves|, k)
              && forall i :: 0 <= i < |level| ==> level[i] == NodeAt(sha, leaves, k, i)
  {
    LevelCount(sha, LeafNodes(sha, leaves));
    if k <= Depth(|leaves|) {
      LevelsAreRaised(sha, LeafNodes(sha, leaves), k);
      RaiseIsLevel(sha, leaves, 0, LeafNodes(sha, leaves), k);
    }
  }

  // ---- completeness ----

  /** Bit j of a position, lowest first. */
  predicate Bit(pos: nat, j: nat) {
    if j == 0 then pos % 2 == 1 else Bit(pos / 2, j - 1)
  }

  lemma {:induction false} DecodeEncodeSteps(steps: seq<PathStep>)
    ensures DecodeSteps(EncodeSteps(steps)) == Some(steps)
  {
    if steps != [] {
      var proof := EncodeSteps(steps);
      assert proof[1..] == EncodeSteps(steps[1..]);
      DecodeEncodeSteps(steps[1..]);
      DecodeEncodeHex(steps[0].sibling);
      assert proof[0][1..] == EncodeHex(steps[0].sibling);
      assert DecodeStep(proof[0]) == Some(steps[0]);
      assert [steps[0]] + steps[1..] == steps;
    }
  }

  lemma ClimbStep(sha: Sha256, nodes: seq<Digest>, pos: nat)
    requires pos < |nodes|
    ensures Climb(sha, nodes[pos], StepAt(nodes, pos)) == Parents(sha, nodes)[pos / 2]
  {
    if pos % 2 == 0 {
      assert 2 * (pos / 2) == pos;
    } else {
      assert 2 * (pos / 2) == pos - 1 && RightChild(|nodes|, pos / 2) == pos;
    }
  }

  lemma {:induction false} ProofStepsFold(sha: Sha256, nodes: seq<Digest>, pos: nat)
    requires pos < |nodes|
    ensures var steps := ProofSteps(sha, nodes, pos);
            Fold(sha, nodes[pos], steps) == RootNode(sha, nodes) && |steps| == Depth(|nodes|)
    decreases |nodes|
  {
    if |nodes| > 1 {
      var up := Parents(sha, nodes);
      ClimbStep(sha, nodes, pos);
      ProofStepsFold(sha, up, pos / 2);
      assert ProofSteps(sha, nodes, pos)[1..] == ProofSteps(sha, up, pos / 2);
    }
  }

  /** The position spelled by the sides, lowest bit first: left sibling 1, right sibling 0. */
  function Position(steps: seq<PathStep>): (p: nat) {
    if steps == [] then 0 else (if steps[0].siblingLeft then 1 else 0) + 2 * Position(steps[1..])
  }

  lemma {:induction false} ProofStepsPosition(sha: Sha256, nodes: seq<Digest>, pos: nat)
    requires pos < |nodes|
    ensures Position(ProofSteps(sha, nodes, pos)) == pos
    decreases |nodes|
  {
    if |nodes| > 1 {
      var rest := ProofSteps(sha, Parents(sha, nodes), pos / 2);
      ProofStepsPosition(sha, Parents(sha, nodes), pos / 2);
      assert ([StepAt(nodes, pos)] + rest)[1..] == rest;
    }
  }

  lemma {:induction false} SidesAreBits(steps: seq<PathStep>, j: nat)
    requires j < |steps|
    ensures steps[j].siblingLeft <==> Bit(Position(steps), j)
    decreases j
  {
    if j > 0 {
      SidesAreBits(steps[1..], j - 1);
    }
  }

  /**
   * Every honest proof is accepted; it has one element per level, and its letters L and R spell the index in
   * binary.
   */
  lemma InclusionComplete(sha: Sha256, leaves: seq<GoString>, idx: nat)
    requires idx < |leaves|
    ensures var proof := EncodeSteps(ProofSteps(sha, LeafNodes(sha, leaves), idx));
            && Accepts(sha, leaves[idx], proof, RootHex(sha, leaves))
            && |proof| == Depth(|leaves|)
            && forall j :: 0 <= j < |proof| ==>
                 |proof[j]| == 65 && proof[j][0] == if Bit(idx, j) then 'L' as int else 'R' as int
  {
    var nodes := LeafNodes(sha, leaves);
    var steps := ProofSteps(sha, nodes, idx);
    ProofStepsFold(sha, nodes, idx);
    ProofStepsPosition(sha, nodes, idx);
    DecodeEncodeSteps(steps);
    DecodeEncodeHex(RootNode(sha, nodes));
    forall j | 0 <= j < |steps|
      ensures steps[j].siblingLeft <==> Bit(idx, j)
    {
      SidesAreBits(steps, j);
    }
  }

  /** No elements: the root is the leaf's own node. */
  lemma AcceptsNone(sha: Sha256, leaf: GoString, root: GoString)
    ensures Accepts(sha, leaf, [], root) <==> DecodeHex(root) == Some(sha([0] + leaf))
  {
  }

  /** The sibling that an element names, left or right of the leaf's node. */
  function OneUp(sha: Sha256, leaf: GoString, letter: byte, sibling: seq<byte>): seq<byte> {
    if letter == 'L' as int then sha([1] + sibling + sha([0] + leaf)) else sha([1] + sha([0] + leaf) + sibling)
  }

  /** One element: a letter L or R and the sibling in 64 hexadecimal digits, hashed in on the side the letter says. */
  lemma AcceptsOne(sha: Sha256, leaf: GoString, p: GoString, root: GoString)
    ensures Accepts(sha, leaf, [p], root) <==>
              && |p| == 65 && p[0] in {'L' as int, 'R' as int} && DecodeHex(p[1..]).Some?
              && DecodeHex(root) == Some(OneUp(sha, leaf, p[0], DecodeHex(p[1..]).value))
  {
    assert [p][1..] == [] && DecodeSteps([]) == Some([]);
    if DecodeStep(p).Some? {
      var s := DecodeStep(p).value;
      assert DecodeSteps([p]) == Some([s] + []) && [s] + [] == [s] && [s][1..] == [];
      assert Fold(sha, LeafNode(sha, leaf), [s]) == Climb(sha, LeafNode(sha, leaf), s);
    }
  }

  // ---- trees, and what their hash pins ----

  datatype Tree = Leaf(value: GoString) | Branch(left: Tree, right: Tree)

  function HashTree(sha: Sha256, t: Tree): Digest {
    match t
    case Leaf(v) => LeafNode(sha, v)
    case Branch(l, r) => CombineNodes(sha, HashTree(sha, l), HashTree(sha, r))
  }

  /** The input whose hash is the tree's hash. */
  function Preimage(sha: Sha256, t: Tree): (p: GoString)
    ensures sha(p) == HashTree(sha, t)
  {
    match t
    case Leaf(v) => [LEAF_PREFIX] + v
    case Branch(l, r) => [INTERNAL_PREFIX] + HashTree(sha, l) + HashTree(sha, r)
  }

  lemma PreimageParts(sha: Sha256, l: Digest, r: Digest, l2: Digest, r2: Digest)
    requires [INTERNAL_PREFIX] + l + r == [INTERNAL_PREFIX] + l2 + r2
    ensures l == l2 && r == r2
  {
    var p, q := [INTERNAL_PREFIX] + l + r, [INTERNAL_PREFIX] + l2 + r2;
    assert l == p[1..33] && l2 == q[1..33];
    assert r == p[33..] && r2 == q[33..];
  }

  /** Two different trees with one hash: walk down to two different inputs with one hash. */
  function TreeCollision(sha: Sha256, t: Tree, u: Tree): (c: Collision)
    requires HashTree(sha, t) == HashTree(sha, u) && t != u
    ensures IsCollision(sha, c)
  {
    var p, q := Preimage(sha, t), Preimage(sha, u);
    if t.Branch? && u.Branch? && p == q then
      PreimageParts(sha, HashTree(sha, t.left), HashTree(sha, t.right), HashTree(sha, u.left), HashTree(sha, u.right));
      if t.left != u.left then TreeCollision(sha, t.left, u.left) else TreeCollision(sha, t.right, u.right)
    else
      assert t.Leaf? && u.Leaf? ==> p[1..] == t.value && q[1..] == u.value;
      assert t.Leaf? && u.Branch? ==> p[0] != q[0];
      assert t.Branch? && u.Leaf? ==> p[0] != q[0];
      Collision(p, q)
  }

  /** The subtree reached from the root by reading the steps from the last one backwards. */
  function Descend(t: Tree, steps: seq<PathStep>): Option<Tree>
    decreases |steps|
  {
    if steps == [] then Some(t)
    else
      match t
      case Leaf(_) => None
      case Branch(l, r) =>
        Descend(if steps[|steps| - 1].siblingLeft then r else l, steps[..|steps| - 1])
  }

  /** Every step's sibling is the hash of the child that the descent leaves aside. */
  predicate Honest(sha: Sha256, t: Tree, steps: seq<PathStep>)
    decreases |steps|
  {
    steps == [] ||
    (var last, init := steps[|steps| - 1], steps[..|steps| - 1];
     && t.Branch?
     && last.sibling == HashTree(sha, if last.siblingLeft then t.left else t.right)
     && Honest(sha, if last.siblingLeft then t.right else t.left, init))
  }

  /** A folded proof that meets a tree's hash: it leads to the claimed leaf, or it yields a collision. */
  function PathCollision(sha: Sha256, t: Tree, leaf: GoString, steps: seq<PathStep>): (c: Option<Collision>)
    requires Fold(sha, LeafNode(sha, leaf), steps) == HashTree(sha, t)
    ensures c.None? ==> Descend(t, steps) == Some(Leaf(leaf)) && Honest(sha, t, steps)
    ensures c.Some? ==> IsCollision(sha, c.value)
    decreases |steps|
  {
    if steps == [] then
      if t == Leaf(leaf) then None else Some(TreeCollision(sha, t, Leaf(leaf)))
    else
      var last, init := steps[|steps| - 1], steps[..|steps| - 1];
      assert steps == init + [last];
      FoldSnoc(sha, LeafNode(sha, leaf), init, last);
      var inner := Fold(sha, LeafNode(sha, leaf), init);
      var p := if last.siblingLeft then [INTERNAL_PREFIX] + last.sibling + inner
               else [INTERNAL_PREFIX] + inner + last.sibling;
      var q := Preimage(sha, t);
      assert sha(p) == sha(q);
      assert t.Leaf? ==> p[0] != q[0];
      if t.Leaf? || p != q then Some(Collision(p, q))
      else
        var hl, hr := HashTree(sha, t.left), HashTree(sha, t.right);
        if last.siblingLeft then
          PreimageParts(sha, last.sibling, inner, hl, hr);
          PathCollision(sha, t.right, leaf, init)
        else
          PreimageParts(sha, inner, last.sibling, hl, hr);
          PathCollision(sha, t.left, leaf, init)
  }
}
