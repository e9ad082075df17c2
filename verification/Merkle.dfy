/** chain/merkle.go: tree levels, roots, inclusion proofs and their verifier. */
module Merkle {
  import opened Bytes

  const LEAF_PREFIX: byte := 0
  const INTERNAL_PREFIX: byte := 1

  // ---- what the loops compute ----

  function LeafNode(sha: Sha256, s: GoString): Digest {
    sha([LEAF_PREFIX] + s)
  }

  function CombineNodes(sha: Sha256, left: Digest, right: Digest): Digest {
    sha([INTERNAL_PREFIX] + left + right)
  }

  function LeafNodes(sha: Sha256, leaves: seq<GoString>): (nodes: seq<Digest>)
    ensures |nodes| == |leaves|
  {
    seq(|leaves|, i requires 0 <= i < |leaves| => LeafNode(sha, leaves[i]))
  }

  /** The right child of parent i in a level of n nodes: the last node pairs with itself. */
  function RightChild(n: nat, i: nat): (r: nat)
    requires 2 * i < n
    ensures r < n
  {
    if 2 * i + 1 < n then 2 * i + 1 else 2 * i
  }

  function Parents(sha: Sha256, nodes: seq<Digest>): (up: seq<Digest>)
    ensures |up| == (|nodes| + 1) / 2
  {
    seq((|nodes| + 1) / 2, i requires 0 <= i < (|nodes| + 1) / 2 =>
      CombineNodes(sha, nodes[2 * i], nodes[RightChild(|nodes|, i)]))
  }

  function Levels(sha: Sha256, nodes: seq<Digest>): (levels: seq<seq<Digest>>)
    ensures |levels| > 0 && levels[0] == nodes
    decreases |nodes|
  {
    if |nodes| <= 1 then [nodes] else [nodes] + Levels(sha, Parents(sha, nodes))
  }

  function RootNode(sha: Sha256, nodes: seq<Digest>): Digest
    requires nodes != []
    decreases |nodes|
  {
    if |nodes| == 1 then nodes[0] else RootNode(sha, Parents(sha, nodes))
  }

  /** The root of a non-empty leaf list, as hexadecimal text. */
  function RootHex(sha: Sha256, leaves: seq<GoString>): (root: GoString)
    requires leaves != []
    ensures |root| == 64
  {
    EncodeHex(RootNode(sha, LeafNodes(sha, leaves)))
  }

  /** One decoded proof element: on which side the sibling stands, and the sibling. */
  datatype PathStep = PathStep(siblingLeft: bool, sibling: Digest)

  function StepAt(nodes: seq<Digest>, pos: nat): PathStep
    requires pos < |nodes|
  {
    if pos % 2 == 0 then PathStep(false, nodes[RightChild(|nodes|, pos / 2)])
    else PathStep(true, nodes[pos - 1])
  }

  function ProofSteps(sha: Sha256, nodes: seq<Digest>, pos: nat): seq<PathStep>
    requires pos < |nodes|
    decreases |nodes|
  {
    if |nodes| == 1 then []
    else [StepAt(nodes, pos)] + ProofSteps(sha, Parents(sha, nodes), pos / 2)
  }

  const SIDE_L: byte := 76
  const SIDE_R: byte := 82

  function EncodeStep(s: PathStep): (p: GoString)
    ensures |p| == 65
  {
    [if s.siblingLeft then SIDE_L else SIDE_R] + EncodeHex(s.sibling)
  }

  function EncodeSteps(steps: seq<PathStep>): (proof: seq<GoString>)
    ensures |proof| == |steps|
  {
    seq(|steps|, i requires 0 <= i < |steps| => EncodeStep(steps[i]))
  }

  function DecodeDigest(s: GoString): Option<Digest> {
    match DecodeHex(s)
    case Some(b) => if |b| == 32 then Some(b) else None
    case None => None
  }

  function DecodeStep(p: GoString): Option<PathStep> {
    if |p| != 65 then None
    else
      match DecodeDigest(p[1..])
      case None => None
      case Some(d) =>
        if p[0] == SIDE_L then Some(PathStep(true, d))
        else if p[0] == SIDE_R then Some(PathStep(false, d))
        else None
  }

  function DecodeSteps(proof: seq<GoString>): (r: Option<seq<PathStep>>)
    ensures r.Some? ==> |r.value| == |proof|
  {
    if proof == [] then Some([])
    else
      match (DecodeStep(proof[0]), DecodeSteps(proof[1..]))
      case (Some(s), Some(rest)) => Some([s] + rest)
      case _ => None
  }

  function Climb(sha: Sha256, current: Digest, s: PathStep): Digest {
    if s.siblingLeft then CombineNodes(sha, s.sibling, current)
    else CombineNodes(sha, current, s.sibling)
  }

  function Fold(sha: Sha256, current: Digest, steps: seq<PathStep>): Digest
    decreases |steps|
  {
    if steps == [] then current else Fold(sha, Climb(sha, current, steps[0]), steps[1..])
  }

  /** What it means for a proof to be accepted: root and every element decode, and the fold meets the root. */
  predicate Accepts(sha: Sha256, leaf: GoString, proof: seq<GoString>, root: GoString) {
    match (DecodeDigest(root), DecodeSteps(proof))
    case (Some(r), Some(steps)) => Fold(sha, LeafNode(sha, leaf), steps) == r
    case _ => false
  }

  // ---- facts the loops need ----

  lemma {:induction false} LastLevelIsRoot(sha: Sha256, nodes: seq<Digest>)
    requires nodes != []
    ensures var levels := Levels(sha, nodes);
            levels[|levels| - 1] == [RootNode(sha, nodes)]
    decreases |nodes|
  {
    if |nodes| > 1 {
      LastLevelIsRoot(sha, Parents(sha, nodes));
    }
  }

  lemma NextLevel(sha: Sha256, nodes: seq<Digest>, levels: seq<seq<Digest>>, k: nat)
    requires k + 1 < |levels| && levels[k..] == Levels(sha, nodes)
    ensures |nodes| > 1 && levels[k + 1..] == Levels(sha, Parents(sha, nodes))
  {
    assert |levels[k..]| > 1;
    assert levels[k..][1..] == levels[k + 1..];
  }

  lemma EncodeStepsCons(s: PathStep, rest: seq<PathStep>)
    ensures EncodeSteps([s] + rest) == [EncodeStep(s)] + EncodeSteps(rest)
  {
  }

  lemma {:induction false} DecodeStepsSnoc(proof: seq<GoString>, p: GoString)
    ensures DecodeSteps(proof + [p]) ==
            match (DecodeSteps(proof), DecodeStep(p))
            case (Some(steps), Some(s)) => Some(steps + [s])
            case _ => None
  {
    if proof == [] {
      assert proof + [p] == [p];
      assert [p][1..] == [];
      assert DecodeSteps([p][1..]) == Some([]);
      if DecodeStep(p).Some? {
        assert [DecodeStep(p).value] + [] == [] + [DecodeStep(p).value];
      }
    } else {
      assert (proof + [p])[1..] == proof[1..] + [p];
      DecodeStepsSnoc(proof[1..], p);
      match (DecodeStep(proof[0]), DecodeSteps(proof[1..]), DecodeStep(p))
      case (Some(s0), Some(rest), Some(s)) => assert [s0] + (rest + [s]) == ([s0] + rest) + [s];
      case _ =>
    }
  }

  lemma {:induction false} DecodeStepsPrefix(proof: seq<GoString>, k: nat)
    requires k <= |proof| && DecodeSteps(proof[..k]).None?
    ensures DecodeSteps(proof).None?
  {
    if k > 0 && DecodeStep(proof[0]).Some? {
      assert proof[..k][1..] == proof[1..][..k - 1];
      DecodeStepsPrefix(proof[1..], k - 1);
    }
  }

  lemma {:induction false} FoldSnoc(sha: Sha256, current: Digest, steps: seq<PathStep>, s: PathStep)
    ensures Fold(sha, current, steps + [s]) == Climb(sha, Fold(sha, current, steps), s)
    decreases |steps|
  {
    if steps == [] {
      assert (steps + [s])[1..] == [];
    } else {
      assert (steps + [s])[1..] == steps[1..] + [s];
      FoldSnoc(sha, Climb(sha, current, steps[0]), steps[1..], s);
    }
  }

  // ---- the loops ----

  /** The inner loop of buildLevels: one level from the level below. */
  method PairLevel(sha: Sha256, current: seq<Digest>) returns (next: seq<Digest>)
    ensures next == Parents(sha, current)
  {
    next := [];
    var i := 0;
    while i < |current|
      invariant 0 <= i <= |current| + 1 && i % 2 == 0 && |next| == i / 2
      invariant forall j :: 0 <= j < |next| ==> next[j] == Parents(sha, current)[j]
    {
      var left := current[i];
      var right := current[i];
      if i + 1 < |current| {
        right := current[i + 1];
      }
      next := next + [CombineNodes(sha, left, right)];
      i := i + 2;
    }
  }

  method BuildLevels(sha: Sha256, leaves: seq<GoString>) returns (levels: seq<seq<Digest>>)
    ensures levels == Levels(sha, LeafNodes(sha, leaves))
  {
    var current: seq<Digest> := [];
    for i := 0 to |leaves|
      invariant current == LeafNodes(sha, leaves[..i])
    {
      current := current + [LeafNode(sha, leaves[i])];
    }
    assert leaves[..|leaves|] == leaves;
    levels := [current];
    ghost var done: seq<seq<Digest>> := [];
    while |current| > 1
      invariant levels == done + [current]
      invariant done + Levels(sha, current) == Levels(sha, LeafNodes(sha, leaves))
      decreases |current|
    {
      var next := PairLevel(sha, current);
      assert done + ([current] + Levels(sha, next)) == done + [current] + Levels(sha, next);
      done := done + [current];
      levels := levels + [next];
      current := next;
    }
  }

  method MerkleRoot(sha: Sha256, leaves: seq<GoString>) returns (r: Result<GoString, ()>)
    ensures r.Err? <==> leaves == []
    ensures r.Ok? ==> r.value == RootHex(sha, leaves)
  {
    if |leaves| == 0 {
      return Err(());
    }
    var levels := BuildLevels(sha, leaves);
    LastLevelIsRoot(sha, LeafNodes(sha, leaves));
    var root := levels[|levels| - 1][0];
    return Ok(EncodeHex(root));
  }

  /** The body of InclusionProof's loop: the element contributed by one level. */
  method ProofElement(nodes: seq<Digest>, pos: nat) returns (p: GoString)
    requires pos < |nodes|
    ensures p == EncodeStep(StepAt(nodes, pos))
  {
    var sibling: Digest;
    var dir: byte;
    if pos % 2 == 0 {
      dir := SIDE_R;
      if pos + 1 < |nodes| {
        sibling := nodes[pos + 1];
      } else {
        sibling := nodes[pos];
      }
    } else {
      dir := SIDE_L;
      sibling := nodes[pos - 1];
    }
    p := [dir] + EncodeHex(sibling);
  }

  method InclusionProof(sha: Sha256, leaves: seq<GoString>, idx: int) returns (r: Result<seq<GoString>, ()>)
    ensures r.Err? <==> idx < 0 || idx >= |leaves|
    ensures r.Ok? ==> r.value == EncodeSteps(ProofSteps(sha, LeafNodes(sha, leaves), idx))
  {
    if idx < 0 || idx >= |leaves| {
      return Err(());
    }
    ghost var nodes := LeafNodes(sha, leaves);
    if |leaves| == 1 {
      return Ok([]);
    }
    var levels := BuildLevels(sha, leaves);
    var proof: seq<GoString> := [];
    ghost var goal := EncodeSteps(ProofSteps(sha, nodes, idx));
    var pos: nat := idx;
    for k := 0 to |levels| - 1
      invariant pos < |nodes| && levels[k..] == Levels(sha, nodes)
      invariant proof + EncodeSteps(ProofSteps(sha, nodes, pos)) == goal
    {
      assert levels[k] == levels[k..][0] == nodes;
      NextLevel(sha, nodes, levels, k);
      EncodeStepsCons(StepAt(nodes, pos), ProofSteps(sha, Parents(sha, nodes), pos / 2));
      var p := ProofElement(levels[k], pos);
      ghost var above := EncodeSteps(ProofSteps(sha, Parents(sha, nodes), pos / 2));
      assert proof + ([p] + above) == proof + [p] + above;
      proof := proof + [p];
      nodes := Parents(sha, nodes);
      pos := pos / 2;
    }
    assert |levels[|levels| - 1..]| == 1;
    assert |nodes| <= 1;
    assert proof + [] == proof;
    return Ok(proof);
  }

  method VerifyInclusion(sha: Sha256, leaf: GoString, proof: seq<GoString>, root: GoString) returns (ok: bool)
    ensures ok == Accepts(sha, leaf, proof, root)
  {
    var rootBytes := DecodeHex(root);
    if rootBytes.None? || |rootBytes.value| != 32 {
      return false;
    }
    var current := LeafNode(sha, leaf);
    ghost var seen: seq<PathStep> := [];
    for i := 0 to |proof|
      invariant DecodeSteps(proof[..i]) == Some(seen)
      invariant current == Fold(sha, LeafNode(sha, leaf), seen)
    {
      var p := proof[i];
      assert proof[..i + 1] == proof[..i] + [p];
      DecodeStepsSnoc(proof[..i], p);
      if DecodeStep(p).None? {
        DecodeStepsPrefix(proof, i + 1);
      }
      if |p| != 65 {
        return false;
      }
      var dir := p[0];
      var siblingBytes := DecodeHex(p[1..]);
      if siblingBytes.None? || |siblingBytes.value| != 32 {
        return false;
      }
      var sibling: Digest := siblingBytes.value;
      FoldSnoc(sha, LeafNode(sha, leaf), seen, PathStep(dir == SIDE_L, sibling));
      if dir == SIDE_L {
        current := CombineNodes(sha, sibling, current);
      } else if dir == SIDE_R {
        current := CombineNodes(sha, current, sibling);
      } else {
        return false;
      }
      seen := seen + [PathStep(dir == SIDE_L, sibling)];
    }
    assert proof[..|proof|] == proof;
    return current == rootBytes.value;
  }
}
