/** The Merkle tree over an object's chunk addresses
    (crates/barme-core/src/merkle.rs). */
module Merkle {
  import opened Bits
  import opened Common
  import opened Hashing

  datatype Side = Left | Right

  datatype Step = Step(side: Side, hash: Digest)

  datatype Proof = Proof(index: nat, total: nat, steps: seq<Step>)

  // ---- domain-separated hash inputs ----

  const LEAF: Byte := 0x00
  const NODE: Byte := 0x01
  const EMPTY: Byte := 0x02

  function LeafInput(chunk: Digest): (b: Bytes)
    ensures |b| == 33
  {
    [LEAF] + chunk.bytes
  }

  function NodeInput(left: Digest, right: Digest): (b: Bytes)
    ensures |b| == 65
  {
    [NODE] + left.bytes + right.bytes
  }

  function Leaf(h: Hasher, chunk: Digest): Digest
  {
    h(LeafInput(chunk))
  }

  function Node(h: Hasher, left: Digest, right: Digest): Digest
  {
    h(NodeInput(left, right))
  }

  function Leaves(h: Hasher, chunks: seq<Digest>): (l: seq<Digest>)
    ensures |l| == |chunks|
  {
    seq(|chunks|, i requires 0 <= i < |chunks| => Leaf(h, chunks[i]))
  }

  lemma NodeInputInjective(a: Digest, b: Digest, c: Digest, d: Digest)
    requires NodeInput(a, b) == NodeInput(c, d)
    ensures a == c && b == d
  {
    assert NodeInput(a, b)[1..33] == a.bytes && NodeInput(a, b)[33..] == b.bytes;
    assert NodeInput(c, d)[1..33] == c.bytes && NodeInput(c, d)[33..] == d.bytes;
  }

  lemma LeafInputInjective(a: Digest, b: Digest)
    requires LeafInput(a) == LeafInput(b)
    ensures a == b
  {
    assert LeafInput(a)[1..] == a.bytes && LeafInput(b)[1..] == b.bytes;
  }

  // ---- the loops, level by level ----

  /** One level up: neighbours paired, a lone tail promoted. */
  function Reduced(h: Hasher, level: seq<Digest>): (next: seq<Digest>)
    ensures |next| == (|level| + 1) / 2
  {
    if |level| < 2 then level
    else [Node(h, level[0], level[1])] + Reduced(h, level[2..])
  }

  lemma ReducedPair(h: Hasher, level: seq<Digest>, i: nat)
    requires i + 1 < |level|
    ensures Reduced(h, level[i..]) == [Node(h, level[i], level[i + 1])] + Reduced(h, level[i + 2..])
  {
    assert level[i..][2..] == level[i + 2..];
  }

  method Reduce(h: Hasher, level: seq<Digest>) returns (next: seq<Digest>)
    ensures next == Reduced(h, level)
  {
    next := [];
    var i := 0;
    assert level[0..] == level;
    while i < |level|
      invariant 0 <= i <= |level|
      invariant next + Reduced(h, level[i..]) == Reduced(h, level)
    {
      hide Reduced;
      if i + 1 < |level| {
        ReducedPair(h, level, i);
        Regroup(next, [Node(h, level[i], level[i + 1])], Reduced(h, level[i + 2..]));
        next := next + [Node(h, level[i], level[i + 1])];
        i := i + 2;
      } else {
        ReducedTail(h, level);
        next := next + [level[i]]; // odd tail promoted unchanged
        i := i + 1;
      }
    }
  }

  lemma ReducedTail(h: Hasher, level: seq<Digest>)
    requires |level| >= 1
    ensures Reduced(h, level[|level| - 1..]) == [level[|level| - 1]] && Reduced(h, level[|level|..]) == []
  {
  }

  /** The root left when a non-empty level is reduced to one hash. */
  function Top(h: Hasher, level: seq<Digest>): Digest
    requires |level| >= 1
    decreases |level|
  {
    if |level| == 1 then level[0] else Top(h, Reduced(h, level))
  }

  function RootOf(h: Hasher, chunks: seq<Digest>): Digest
  {
    if chunks == [] then h([EMPTY]) else Top(h, Leaves(h, chunks))
  }

  method Root(h: Hasher, chunks: seq<Digest>) returns (root: Digest)
    ensures root == RootOf(h, chunks)
  {
    if |chunks| == 0 {
      return h([EMPTY]);
    }
    var level := Leaves(h, chunks);
    while |level| > 1
      invariant |level| >= 1 && Top(h, level) == Top(h, Leaves(h, chunks))
      decreases |level|
    {
      level := Reduce(h, level);
    }
    root := level[0];
  }

  /** The sibling recorded at one level: none for a promoted tail. */
  function Sibling(level: seq<Digest>, i: nat): (s: seq<Step>)
    requires i < |level|
    ensures |s| <= 1
  {
    if i % 2 == 1 then [Step(Left, level[i - 1])]
    else if i + 1 < |level| then [Step(Right, level[i + 1])]
    else []
  }

  function AuditUp(h: Hasher, level: seq<Digest>, i: nat): seq<Step>
    requires i < |level|
    decreases |level|
  {
    if |level| == 1 then [] else Sibling(level, i) + AuditUp(h, Reduced(h, level), i / 2)
  }

  method Prove(h: Hasher, chunks: seq<Digest>, index: nat) returns (proof: Option<Proof>)
    ensures proof == if index < |chunks|
                     then Some(Proof(index, |chunks|, AuditUp(h, Leaves(h, chunks), index)))
                     else None
  {
    if index >= |chunks| {
      return None;
    }
    hide Reduced, Leaves;
    var total := |chunks|;
    var level := Leaves(h, chunks);
    var i: nat := index;
    var steps: seq<Step> := [];
    while |level| > 1
      invariant i < |level|
      invariant steps + AuditUp(h, level, i) == AuditUp(h, Leaves(h, chunks), index)
      decreases |level|
    {
      ghost var sofar := steps;
      if i % 2 == 0 {
        if i + 1 < |level| {
          steps := steps + [Step(Right, level[i + 1])];
        }
      } else {
        steps := steps + [Step(Left, level[i - 1])];
      }
      assert steps == sofar + Sibling(level, i);
      Regroup(sofar, Sibling(level, i), AuditUp(h, Reduced(h, level), i / 2));
      level := Reduce(h, level);
      i := i / 2;
    }
    assert steps + AuditUp(h, level, i) == steps;
    proof := Some(Proof(index, total, steps));
  }

  function Climb(h: Hasher, cur: Digest, step: Step): Digest
  {
    if step.side.Left? then Node(h, step.hash, cur) else Node(h, cur, step.hash)
  }

  function Fold(h: Hasher, cur: Digest, steps: seq<Step>): Digest
  {
    if steps == [] then cur else Climb(h, Fold(h, cur, steps[..|steps| - 1]), steps[|steps| - 1])
  }

  /** What `verify` decides; note that it reads the steps and nothing else. */
  predicate Accepts(h: Hasher, root: Digest, chunk: Digest, proof: Proof)
  {
    Fold(h, Leaf(h, chunk), proof.steps) == root
  }

  method Verify(h: Hasher, rootHash: Digest, chunk: Digest, proof: Proof) returns (ok: bool)
    ensures ok == Accepts(h, rootHash, chunk, proof)
  {
    var cur := Leaf(h, chunk);
    for i := 0 to |proof.steps|
      invariant cur == Fold(h, Leaf(h, chunk), proof.steps[..i])
    {
      assert proof.steps[..i + 1][..i] == proof.steps[..i];
      cur := match proof.steps[i].side
        case Left => Node(h, proof.steps[i].hash, cur)
        case Right => Node(h, cur, proof.steps[i].hash);
    }
    assert proof.steps[..|proof.steps|] == proof.steps;
    ok := cur == rootHash;
  }

  // ---- the same tree, top down (section 2.1 of RFC 6962) ----

  predicate PowerOfTwo(k: nat)
  {
    k == 1 || (k >= 2 && k % 2 == 0 && PowerOfTwo(k / 2))
  }

  /** The largest power of two below `n`. */
  function Split(n: nat): (k: nat)
    requires n >= 2
    ensures PowerOfTwo(k) && k < n <= 2 * k
  {
    if n == 2 then 1 else 2 * Split((n + 1) / 2)
  }

  /** A power of two with `k < n <= 2 k` is the only one there is. */
  lemma {:induction false} SplitUnique(n: nat, k: nat)
    requires n >= 2 && PowerOfTwo(k) && k < n <= 2 * k
    ensures k == Split(n)
  {
    if n > 2 {
      SplitUnique((n + 1) / 2, k / 2);
    }
  }

  /** The tree head of a non-empty list of entries. */
  function TreeHead(h: Hasher, chunks: seq<Digest>): Digest
    requires |chunks| >= 1
    decreases |chunks|
  {
    if |chunks| == 1 then Leaf(h, chunks[0])
    else
      var k := Split(|chunks|);
      Node(h, TreeHead(h, chunks[..k]), TreeHead(h, chunks[k..]))
  }

  /** The audit path of entry `i`, nearest sibling first. */
  function AuditPath(h: Hasher, chunks: seq<Digest>, i: nat): (p: seq<Step>)
    requires i < |chunks|
    decreases |chunks|
  {
    if |chunks| == 1 then []
    else
      var k := Split(|chunks|);
      if i < k then AuditPath(h, chunks[..k], i) + [Step(Right, TreeHead(h, chunks[k..]))]
      else AuditPath(h, chunks[k..], i - k) + [Step(Left, TreeHead(h, chunks[..k]))]
  }

  lemma {:induction false} ReducedConcat(h: Hasher, a: seq<Digest>, b: seq<Digest>, m: nat)
    requires |a| == 2 * m
    ensures Reduced(h, a + b) == Reduced(h, a) + Reduced(h, b) && |Reduced(h, a)| == m
  {
    if m == 0 {
      assert a + b == b;
    } else {
      hide Reduced;
      ReducedConcat(h, a[2..], b, m - 1);
      assert (a + b)[2..] == a[2..] + b;
      ReducedTurn(h, a);
      ReducedTurn(h, a + b);
      Regroup([Node(h, a[0], a[1])], Reduced(h, a[2..]), Reduced(h, b));
    }
  }

  lemma ReducedTurn(h: Hasher, level: seq<Digest>)
    requires |level| >= 2
    ensures Reduced(h, level) == [Node(h, level[0], level[1])] + Reduced(h, level[2..])
  {
  }

  /** Top-down hashing of one level of digests. */
  function Tree(h: Hasher, level: seq<Digest>): Digest
    requires |level| >= 1
    decreases |level|
  {
    if |level| == 1 then level[0]
    else
      var k := Split(|level|);
      Node(h, Tree(h, level[..k]), Tree(h, level[k..]))
  }

  lemma SplitDoubles(n: nat)
    requires n >= 3
    ensures Split(n) == 2 * Split((n + 1) / 2)
  {
  }

  lemma ReducedCut(h: Hasher, level: seq<Digest>, m: nat)
    requires 2 * m <= |level|
    ensures Reduced(h, level)[..m] == Reduced(h, level[..2 * m])
    ensures Reduced(h, level)[m..] == Reduced(h, level[2 * m..])
  {
    hide Reduced;
    ReducedConcat(h, level[..2 * m], level[2 * m..], m);
    JoinCut(level, 2 * m);
    CutJoined(Reduced(h, level[..2 * m]), Reduced(h, level[2 * m..]));
  }

  lemma JoinCut<T>(s: seq<T>, k: nat)
    requires k <= |s|
    ensures s[..k] + s[k..] == s
  {
  }

  lemma CutJoined<T>(a: seq<T>, b: seq<T>)
    ensures (a + b)[..|a|] == a && (a + b)[|a|..] == b
  {
  }

  /** Halving a level halves the split. */
  lemma ReducedHalves(h: Hasher, level: seq<Digest>) returns (m: nat)
    requires |level| >= 3
    ensures Split(|level|) == 2 * m && Split(|Reduced(h, level)|) == m && 1 <= m < |Reduced(h, level)|
    ensures Reduced(h, level)[..m] == Reduced(h, level[..2 * m])
    ensures Reduced(h, level)[m..] == Reduced(h, level[2 * m..])
  {
    hide Reduced, Split, PowerOfTwo;
    m := Split((|level| + 1) / 2);
    SplitDoubles(|level|);
    ReducedCut(h, level, m);
  }

  lemma {:induction false} ReduceKeepsTree(h: Hasher, level: seq<Digest>)
    requires |level| >= 1
    ensures Tree(h, Reduced(h, level)) == Tree(h, level)
    decreases |level|
  {
    if |level| >= 3 {
      var m := ReducedHalves(h, level);
      var k := 2 * m;
      ReduceKeepsTree(h, level[..k]);
      ReduceKeepsTree(h, level[k..]);
    }
  }

  lemma {:induction false} TopIsTree(h: Hasher, level: seq<Digest>)
    requires |level| >= 1
    ensures Top(h, level) == Tree(h, level)
    decreases |level|
  {
    if |level| > 1 {
      TopIsTree(h, Reduced(h, level));
      ReduceKeepsTree(h, level);
    }
  }

  lemma {:induction false} TreeOfLeaves(h: Hasher, chunks: seq<Digest>)
    requires |chunks| >= 1
    ensures Tree(h, Leaves(h, chunks)) == TreeHead(h, chunks)
    decreases |chunks|
  {
    if |chunks| > 1 {
      var k := Split(|chunks|);
      TreeOfLeaves(h, chunks[..k]);
      TreeOfLeaves(h, chunks[k..]);
      assert Leaves(h, chunks)[..k] == Leaves(h, chunks[..k]);
      assert Leaves(h, chunks)[k..] == Leaves(h, chunks[k..]);
    }
  }

  /** Pairing level by level builds the recursive tree, at every length. */
  lemma RootIsTreeHead(h: Hasher, chunks: seq<Digest>)
    requires |chunks| >= 1
    ensures RootOf(h, chunks) == TreeHead(h, chunks)
  {
    TopIsTree(h, Leaves(h, chunks));
    TreeOfLeaves(h, chunks);
  }

  // ---- what is hashed, byte for byte ----

  lemma {:induction false} Pow2IsPower(e: nat)
    ensures PowerOfTwo(Pow2(e))
  {
    if e > 0 {
      Pow2IsPower(e - 1);
    }
  }

  /** The root of nothing hashes the byte 2; of one chunk, 0 and its address; of more,
      1 and the roots of both parts, the left one as long as the largest power of two
      below the number of chunks. */
  lemma RootInBytes(h: Hasher, chunks: seq<Digest>, e: nat)
    ensures RootOf(h, []) == h([2])
    ensures |chunks| == 1 ==> RootOf(h, chunks) == h([0] + chunks[0].bytes)
    ensures var k := Pow2(e);
            k < |chunks| <= 2 * k ==>
              RootOf(h, chunks) == h([1] + RootOf(h, chunks[..k]).bytes + RootOf(h, chunks[k..]).bytes)
  {
    hide Top, Leaves;
    var k := Pow2(e);
    if |chunks| == 1 {
      RootIsTreeHead(h, chunks);
    } else if k < |chunks| <= 2 * k {
      Pow2IsPower(e);
      SplitUnique(|chunks|, k);
      RootIsTreeHead(h, chunks);
      RootIsTreeHead(h, chunks[..k]);
      RootIsTreeHead(h, chunks[k..]);
    }
  }

  /** `verify` without steps compares the root with the hash of 0 and the address; each
      further step hashes 1 and two hashes, the step's own on the side it names. */
  lemma VerifyInBytes(h: Hasher, root: Digest, chunk: Digest, index: nat, total: nat, steps: seq<Step>, last: Step)
    ensures Accepts(h, root, chunk, Proof(index, total, [])) <==> root == h([0] + chunk.bytes)
    ensures Accepts(h, root, chunk, Proof(index, total, steps + [last])) <==>
              exists cur :: Accepts(h, cur, chunk, Proof(index, total, steps)) &&
                            root == h([1] + if last.side == Left then last.hash.bytes + cur.bytes
                                            else cur.bytes + last.hash.bytes)
  {
    var leaf := h([0] + chunk.bytes);
    assert (steps + [last])[..|steps|] == steps;
    var cur := Fold(h, leaf, steps);
    assert Accepts(h, cur, chunk, Proof(index, total, steps));
    assert NodeInput(last.hash, cur) == [1] + (last.hash.bytes + cur.bytes);
    assert NodeInput(cur, last.hash) == [1] + (cur.bytes + last.hash.bytes);
  }

  /** The steps of a proof, from the root down: the root of the part the chunk is not
      in, on the side that part is on. */
  lemma ProofInRoots(h: Hasher, chunks: seq<Digest>, i: nat, e: nat)
    requires i < |chunks|
    ensures |chunks| == 1 ==> AuditUp(h, Leaves(h, chunks), i) == []
    ensures var k := Pow2(e);
            k < |chunks| <= 2 * k ==>
              AuditUp(h, Leaves(h, chunks), i)
              == if i < k then AuditUp(h, Leaves(h, chunks[..k]), i) + [Step(Right, RootOf(h, chunks[k..]))]
                 else AuditUp(h, Leaves(h, chunks[k..]), i - k) + [Step(Left, RootOf(h, chunks[..k]))]
  {
    hide AuditUp, Leaves, RootOf;
    var k := Pow2(e);
    ProofIsAuditPath(h, chunks, i);
    if k < |chunks| <= 2 * k {
      Pow2IsPower(e);
      SplitUnique(|chunks|, k);
      RootIsTreeHead(h, chunks[..k]);
      RootIsTreeHead(h, chunks[k..]);
      if i < k {
        ProofIsAuditPath(h, chunks[..k], i);
      } else {
        ProofIsAuditPath(h, chunks[k..], i - k);
      }
    }
  }

  // ---- audit paths ----

  function TreePath(h: Hasher, level: seq<Digest>, i: nat): seq<Step>
    requires i < |level|
    decreases |level|
  {
    if |level| == 1 then []
    else
      var k := Split(|level|);
      if i < k then TreePath(h, level[..k], i) + [Step(Right, Tree(h, level[k..]))]
      else TreePath(h, level[k..], i - k) + [Step(Left, Tree(h, level[..k]))]
  }

  lemma ShortPath(h: Hasher, level: seq<Digest>, i: nat)
    requires i < |level| <= 2
    ensures TreePath(h, level, i) == Sibling(level, i) + TreePath(h, Reduced(h, level), i / 2)
  {
  }

  lemma {:induction false} ReducePeelsPath(h: Hasher, level: seq<Digest>, i: nat)
    requires i < |level|
    ensures TreePath(h, level, i) == Sibling(level, i) + TreePath(h, Reduced(h, level), i / 2)
    decreases |level|
  {
    hide Reduced, Split, PowerOfTwo, TreePath, Sibling;
    if |level| <= 2 {
      ShortPath(h, level, i);
    } else {
      var k := Split(|level|);
      if i < k {
        ReducePeelsPath(h, level[..k], i);
        PeelLeft(h, level, i);
      } else {
        ReducePeelsPath(h, level[k..], i - k);
        PeelRight(h, level, i);
      }
    }
  }

  /** Siblings never straddle an even cut. */
  lemma SiblingInHalf(level: seq<Digest>, m: nat, i: nat)
    requires 2 * m <= |level| && i < |level|
    ensures i < 2 * m ==> Sibling(level, i) == Sibling(level[..2 * m], i) && i / 2 < m
    ensures i >= 2 * m ==> Sibling(level, i) == Sibling(level[2 * m..], i - 2 * m) && (i - 2 * m) / 2 == i / 2 - m
  {
    if i >= 2 * m {
      Parity(i - 2 * m, m);
    } else {
      Parity(2 * m - 1 - i, i - m);
    }
  }

  lemma Parity(j: nat, m: int)
    ensures (j + 2 * m) % 2 == j % 2 && (j + 2 * m) / 2 == j / 2 + m
  {
  }

  lemma PeelLeft(h: Hasher, level: seq<Digest>, i: nat)
    requires |level| >= 3 && i < Split(|level|)
    requires var half := level[..Split(|level|)];
             TreePath(h, half, i) == Sibling(half, i) + TreePath(h, Reduced(h, half), i / 2)
    ensures TreePath(h, level, i) == Sibling(level, i) + TreePath(h, Reduced(h, level), i / 2)
  {
    hide Reduced, Split, PowerOfTwo, TreePath, Tree, Sibling;
    var m := ReducedHalves(h, level);
    var half, other, next := level[..2 * m], level[2 * m..], Reduced(h, level);
    SiblingInHalf(level, m, i);
    TreePathTurn(h, level, i);
    TreePathTurn(h, next, i / 2);
    ReduceKeepsTree(h, other);
    Regroup(Sibling(half, i), TreePath(h, Reduced(h, half), i / 2), [Step(Right, Tree(h, other))]);
  }

  lemma PeelRight(h: Hasher, level: seq<Digest>, i: nat)
    requires |level| >= 3 && Split(|level|) <= i < |level|
    requires var half, j := level[Split(|level|)..], i - Split(|level|);
             TreePath(h, half, j) == Sibling(half, j) + TreePath(h, Reduced(h, half), j / 2)
    ensures TreePath(h, level, i) == Sibling(level, i) + TreePath(h, Reduced(h, level), i / 2)
  {
    hide Reduced, Split, PowerOfTwo, TreePath, Tree, Sibling;
    var m := ReducedHalves(h, level);
    var half, other, next := level[2 * m..], level[..2 * m], Reduced(h, level);
    SiblingInHalf(level, m, i);
    TreePathTurn(h, level, i);
    TreePathTurn(h, next, i / 2);
    ReduceKeepsTree(h, other);
    var j := i - 2 * m;
    Regroup(Sibling(half, j), TreePath(h, Reduced(h, half), j / 2), [Step(Left, Tree(h, other))]);
  }

  lemma TreePathTurn(h: Hasher, level: seq<Digest>, i: nat)
    requires i < |level| && |level| >= 2
    ensures var k := Split(|level|);
            TreePath(h, level, i) ==
              if i < k then TreePath(h, level[..k], i) + [Step(Right, Tree(h, level[k..]))]
              else TreePath(h, level[k..], i - k) + [Step(Left, Tree(h, level[..k]))]
  {
  }

  lemma {:induction false} AuditIsTreePath(h: Hasher, level: seq<Digest>, i: nat)
    requires i < |level|
    ensures AuditUp(h, level, i) == TreePath(h, level, i)
    decreases |level|
  {
    if |level| > 1 {
      AuditIsTreePath(h, Reduced(h, level), i / 2);
      ReducePeelsPath(h, level, i);
    }
  }

  lemma {:induction false} PathOfLeaves(h: Hasher, chunks: seq<Digest>, i: nat)
    requires i < |chunks|
    ensures TreePath(h, Leaves(h, chunks), i) == AuditPath(h, chunks, i)
    decreases |chunks|
  {
    if |chunks| > 1 {
      var k := Split(|chunks|);
      assert Leaves(h, chunks)[..k] == Leaves(h, chunks[..k]);
      assert Leaves(h, chunks)[k..] == Leaves(h, chunks[k..]);
      TreeOfLeaves(h, chunks[..k]);
      TreeOfLeaves(h, chunks[k..]);
      if i < k {
        PathOfLeaves(h, chunks[..k], i);
      } else {
        PathOfLeaves(h, chunks[k..], i - k);
      }
    }
  }

  /** The proof built level by level is the audit path of the recursive tree. */
  lemma ProofIsAuditPath(h: Hasher, chunks: seq<Digest>, i: nat)
    requires i < |chunks|
    ensures AuditUp(h, Leaves(h, chunks), i) == AuditPath(h, chunks, i)
  {
    AuditIsTreePath(h, Leaves(h, chunks), i);
    PathOfLeaves(h, chunks, i);
  }

  // ---- completeness and size of proofs ----

  lemma {:induction false} PathFolds(h: Hasher, chunks: seq<Digest>, i: nat)
    requires i < |chunks|
    ensures Fold(h, Leaf(h, chunks[i]), AuditPath(h, chunks, i)) == TreeHead(h, chunks)
    decreases |chunks|
  {
    hide Fold, Split, NodeInput, LeafInput;
    if |chunks| == 1 {
      FoldNone(h, Leaf(h, chunks[0]));
    } else {
      var k, leaf := Split(|chunks|), Leaf(h, chunks[i]);
      if i < k {
        PathFolds(h, chunks[..k], i);
        FoldSnoc(h, leaf, AuditPath(h, chunks[..k], i), Step(Right, TreeHead(h, chunks[k..])));
      } else {
        PathFolds(h, chunks[k..], i - k);
        FoldSnoc(h, leaf, AuditPath(h, chunks[k..], i - k), Step(Left, TreeHead(h, chunks[..k])));
      }
    }
  }

  lemma FoldNone(h: Hasher, cur: Digest)
    ensures Fold(h, cur, []) == cur
  {
  }

  lemma FoldSnoc(h: Hasher, cur: Digest, steps: seq<Step>, last: Step)
    ensures Fold(h, cur, steps + [last]) == Climb(h, Fold(h, cur, steps), last)
  {
    assert (steps + [last])[..|steps|] == steps;
  }

  /** The least `e` with `n <= 2^e`. */
  function CeilLog2(n: nat): (e: nat)
    ensures n <= Pow2(e)
    ensures e > 0 ==> Pow2(e - 1) < n
  {
    if n <= 1 then 0 else 1 + CeilLog2((n + 1) / 2)
  }

  lemma {:induction false} PathIsShort(h: Hasher, level: seq<Digest>, i: nat)
    requires i < |level|
    ensures |AuditUp(h, level, i)| <= CeilLog2(|level|)
    decreases |level|
  {
    if |level| > 1 {
      PathIsShort(h, Reduced(h, level), i / 2);
    }
  }

  /** Every honest proof verifies, at any length, in at most ceil(log2 n) steps. */
  lemma ProofsVerify(h: Hasher, chunks: seq<Digest>, i: nat)
    requires i < |chunks|
    ensures var steps := AuditUp(h, Leaves(h, chunks), i);
            && Accepts(h, RootOf(h, chunks), chunks[i], Proof(i, |chunks|, steps))
            && |steps| <= CeilLog2(|chunks|)
  {
    ProofIsAuditPath(h, chunks, i);
    PathFolds(h, chunks, i);
    RootIsTreeHead(h, chunks);
    PathIsShort(h, Leaves(h, chunks), i);
  }

  // ---- soundness ----

  function StepInput(cur: Digest, step: Step): Bytes
  {
    if step.side.Left? then NodeInput(step.hash, cur) else NodeInput(cur, step.hash)
  }

  /** The entry a list of sides leads to from the root. */
  function Destination(n: nat, steps: seq<Step>): (i: nat)
    requires n >= 1
    ensures i < n
  {
    if n == 1 || steps == [] then 0
    else
      var k, rest := Split(n), steps[..|steps| - 1];
      if steps[|steps| - 1].side.Left? then k + Destination(n - k, rest) else Destination(k, rest)
  }

  /** Two hash inputs to compare when a proof is accepted: the first place, from
      the root down, where the proof and the tree hash different bytes. */
  function ProofClash(h: Hasher, chunks: seq<Digest>, chunk: Digest, steps: seq<Step>): (Bytes, Bytes)
    requires |chunks| >= 1
    decreases |steps|
  {
    var top :=
      if steps == [] then LeafInput(chunk)
      else StepInput(Fold(h, Leaf(h, chunk), steps[..|steps| - 1]), steps[|steps| - 1]);
    if |chunks| == 1 then (top, LeafInput(chunks[0]))
    else
      var k := Split(|chunks|);
      var node := NodeInput(TreeHead(h, chunks[..k]), TreeHead(h, chunks[k..]));
      if steps == [] || top != node then (top, node)
      else
        ProofClash(h, if steps[|steps| - 1].side.Left? then chunks[k..] else chunks[..k], chunk, steps[..|steps| - 1])
  }

  /** The steps are the audit path of the entry they lead to, and that entry is
      the chunk; or the clash is a collision. */
  ghost predicate HonestOrClash(h: Hasher, chunks: seq<Digest>, chunk: Digest, steps: seq<Step>)
    requires |chunks| >= 1
  {
    var i := Destination(|chunks|, steps);
    || (chunks[i] == chunk && steps == AuditPath(h, chunks, i))
    || Collision(h, ProofClash(h, chunks, chunk, steps))
  }

  lemma {:induction false} TreeSound(h: Hasher, chunks: seq<Digest>, chunk: Digest, steps: seq<Step>)
    requires |chunks| >= 1 && Fold(h, Leaf(h, chunk), steps) == TreeHead(h, chunks)
    ensures HonestOrClash(h, chunks, chunk, steps)
    decreases |steps|
  {
    hide HonestOrClash, NodeInput, LeafInput, Split, PowerOfTwo, TreeHead, Fold;
    if |chunks| == 1 {
      SoundAtLeaf(h, chunks, chunk, steps);
    } else if steps == [] {
      FoldNone(h, Leaf(h, chunk));
      SoundAtNode(h, chunks, chunk);
      ClashSuffices(h, chunks, chunk, steps);

    } else {
      var rest, last := steps[..|steps| - 1], steps[|steps| - 1];
      var k, cur := Split(|chunks|), Fold(h, Leaf(h, chunk), rest);
      var left, right := TreeHead(h, chunks[..k]), TreeHead(h, chunks[k..]);
      if StepInput(cur, last) == NodeInput(left, right) {
        StepSplits(cur, last, left, right);
        TreeSound(h, if last.side.Left? then chunks[k..] else chunks[..k], chunk, rest);
      }
      assert steps == rest + [last];
      FoldSnoc(h, Leaf(h, chunk), rest, last);
      SoundBelow(h, chunks, chunk, rest, last);
    }
  }

  lemma SoundAtLeaf(h: Hasher, chunks: seq<Digest>, chunk: Digest, steps: seq<Step>)
    requires |chunks| == 1 && Fold(h, Leaf(h, chunk), steps) == TreeHead(h, chunks)
    ensures HonestOrClash(h, chunks, chunk, steps)
  {
    hide LeafInput, NodeInput;
    if steps == [] && LeafInput(chunk) == LeafInput(chunks[0]) {
      LeafInputInjective(chunk, chunks[0]);
    }
  }

  lemma SoundAtNode(h: Hasher, chunks: seq<Digest>, chunk: Digest)
    requires |chunks| > 1 && Leaf(h, chunk) == TreeHead(h, chunks)
    ensures Collision(h, ProofClash(h, chunks, chunk, []))
  {
    hide LeafInput, NodeInput, Split, PowerOfTwo;
    var k := Split(|chunks|);
    var node := NodeInput(TreeHead(h, chunks[..k]), TreeHead(h, chunks[k..]));
    assert ProofClash(h, chunks, chunk, []) == (LeafInput(chunk), node);
  }

  lemma SoundBelow(h: Hasher, chunks: seq<Digest>, chunk: Digest, rest: seq<Step>, last: Step)
    requires |chunks| > 1 && Climb(h, Fold(h, Leaf(h, chunk), rest), last) == TreeHead(h, chunks)
    requires var k, cur := Split(|chunks|), Fold(h, Leaf(h, chunk), rest);
             var left, right := TreeHead(h, chunks[..k]), TreeHead(h, chunks[k..]);
             StepInput(cur, last) == NodeInput(left, right) ==>
               HonestOrClash(h, if last.side.Left? then chunks[k..] else chunks[..k], chunk, rest)
    ensures HonestOrClash(h, chunks, chunk, rest + [last])
  {
    hide LeafInput, NodeInput, Split, PowerOfTwo, Fold, AuditPath, ProofClash, TreeHead, HonestOrClash, Destination;
    var k, cur := Split(|chunks|), Fold(h, Leaf(h, chunk), rest);
    var left, right := TreeHead(h, chunks[..k]), TreeHead(h, chunks[k..]);
    HeadIsHash(h, chunks);
    ClashTurn(h, chunks, chunk, rest, last);
    if StepInput(cur, last) == NodeInput(left, right) {
      StepSplits(cur, last, left, right);
      PathTurn(h, chunks, rest, last);
      HonestExtends(h, chunks, chunk, rest, last);
    } else {
      ClashSuffices(h, chunks, chunk, rest + [last]);
    }
  }

  lemma HeadIsHash(h: Hasher, chunks: seq<Digest>)
    requires |chunks| > 1
    ensures var k := Split(|chunks|);
            TreeHead(h, chunks) == h(NodeInput(TreeHead(h, chunks[..k]), TreeHead(h, chunks[k..])))
  {
  }

  lemma ClashSuffices(h: Hasher, chunks: seq<Digest>, chunk: Digest, steps: seq<Step>)
    requires |chunks| >= 1 && Collision(h, ProofClash(h, chunks, chunk, steps))
    ensures HonestOrClash(h, chunks, chunk, steps)
  {
    hide ProofClash, AuditPath;
  }

  lemma HonestExtends(h: Hasher, chunks: seq<Digest>, chunk: Digest, rest: seq<Step>, last: Step)
    requires |chunks| > 1
    requires var half := if last.side.Left? then chunks[Split(|chunks|)..] else chunks[..Split(|chunks|)];
             && HonestOrClash(h, half, chunk, rest)
             && ProofClash(h, chunks, chunk, rest + [last]) == ProofClash(h, half, chunk, rest)
             && var i, j := Destination(|chunks|, rest + [last]), Destination(|half|, rest);
                chunks[i] == half[j] && AuditPath(h, chunks, i) == AuditPath(h, half, j) + [last]
    ensures HonestOrClash(h, chunks, chunk, rest + [last])
  {
    hide ProofClash, AuditPath, Destination, Split, PowerOfTwo;
  }

  lemma ClashTurn(h: Hasher, chunks: seq<Digest>, chunk: Digest, rest: seq<Step>, last: Step)
    requires |chunks| > 1
    ensures var k, cur := Split(|chunks|), Fold(h, Leaf(h, chunk), rest);
            var node := NodeInput(TreeHead(h, chunks[..k]), TreeHead(h, chunks[k..]));
            ProofClash(h, chunks, chunk, rest + [last]) ==
              if StepInput(cur, last) != node then (StepInput(cur, last), node)
              else ProofClash(h, if last.side.Left? then chunks[k..] else chunks[..k], chunk, rest)
  {
    hide LeafInput, NodeInput, Split, PowerOfTwo, Fold, TreeHead;
    assert (rest + [last])[..|rest|] == rest;
  }

  lemma PathTurn(h: Hasher, chunks: seq<Digest>, rest: seq<Step>, last: Step)
    requires |chunks| > 1
    ensures var k := Split(|chunks|);
            var half := if last.side.Left? then chunks[k..] else chunks[..k];
            var i, j := Destination(|chunks|, rest + [last]), Destination(|half|, rest);
            && chunks[i] == half[j]
            && AuditPath(h, chunks, i) == AuditPath(h, half, j) +
                 [if last.side.Left? then Step(Left, TreeHead(h, chunks[..k]))
                  else Step(Right, TreeHead(h, chunks[k..]))]
  {
    hide Split, PowerOfTwo, TreeHead;
    assert (rest + [last])[..|rest|] == rest;
  }

  lemma StepSplits(cur: Digest, step: Step, left: Digest, right: Digest)
    requires StepInput(cur, step) == NodeInput(left, right)
    ensures step == (if step.side.Left? then Step(Left, left) else Step(Right, right))
    ensures cur == if step.side.Left? then right else left
  {
    hide NodeInput;
    if step.side.Left? {
      NodeInputInjective(step.hash, cur, left, right);
    } else {
      NodeInputInjective(cur, step.hash, left, right);
    }
  }

  /** The collision an accepted but dishonest proof gives away. */
  function Forgery(h: Hasher, chunks: seq<Digest>, chunk: Digest, proof: Proof): (Bytes, Bytes)
  {
    if chunks != [] then ProofClash(h, chunks, chunk, proof.steps)
    else
      var steps := proof.steps;
      (if steps == [] then LeafInput(chunk)
       else StepInput(Fold(h, Leaf(h, chunk), steps[..|steps| - 1]), steps[|steps| - 1]), [EMPTY])
  }

  /** Short of a collision, a proof is accepted exactly when its steps are the
      honest audit path of some position that holds the chunk. In particular
      nothing verifies against the root of the empty list, and the `index` and
      `total` fields play no part: membership is proved, and a position only by
      the path itself. */
  lemma AcceptedProofsAreHonest(h: Hasher, chunks: seq<Digest>, chunk: Digest, proof: Proof)
    requires !Collision(h, Forgery(h, chunks, chunk, proof))
    ensures Accepts(h, RootOf(h, chunks), chunk, proof)
       <==> exists i :: 0 <= i < |chunks| && chunks[i] == chunk && proof.steps == AuditUp(h, Leaves(h, chunks), i)
  {
    if Accepts(h, RootOf(h, chunks), chunk, proof) && chunks != [] {
      RootIsTreeHead(h, chunks);
      TreeSound(h, chunks, chunk, proof.steps);
      ProofIsAuditPath(h, chunks, Destination(|chunks|, proof.steps));
    }
    forall i | 0 <= i < |chunks| && chunks[i] == chunk && proof.steps == AuditUp(h, Leaves(h, chunks), i)
      ensures Accepts(h, RootOf(h, chunks), chunk, proof)
    {
      ProofsVerify(h, chunks, i);
    }
  }

  // ---- binding ----

  function TreeClash(h: Hasher, a: seq<Digest>, b: seq<Digest>): (Bytes, Bytes)
    requires |a| >= 1 && |b| >= 1
    decreases |a|
  {
    if |a| == 1 && |b| == 1 then (LeafInput(a[0]), LeafInput(b[0]))
    else if |a| == 1 then
      (LeafInput(a[0]), NodeInput(TreeHead(h, b[..Split(|b|)]), TreeHead(h, b[Split(|b|)..])))
    else if |b| == 1 then
      (NodeInput(TreeHead(h, a[..Split(|a|)]), TreeHead(h, a[Split(|a|)..])), LeafInput(b[0]))
    else
      var i, j := Split(|a|), Split(|b|);
      var x := NodeInput(TreeHead(h, a[..i]), TreeHead(h, a[i..]));
      var y := NodeInput(TreeHead(h, b[..j]), TreeHead(h, b[j..]));
      if x != y then (x, y)
      else if a[..i] != b[..j] then TreeClash(h, a[..i], b[..j])
      else TreeClash(h, a[i..], b[j..])
  }

  lemma {:induction false} TreeBinds(h: Hasher, a: seq<Digest>, b: seq<Digest>)
    requires |a| >= 1 && |b| >= 1 && a != b && TreeHead(h, a) == TreeHead(h, b)
    ensures Collision(h, TreeClash(h, a, b))
    decreases |a|
  {
    hide Split, PowerOfTwo, NodeInput, LeafInput;
    if |a| == 1 && |b| == 1 {
      if LeafInput(a[0]) == LeafInput(b[0]) {
        LeafInputInjective(a[0], b[0]);
      }
    } else if |a| > 1 && |b| > 1 {
      var i, j := Split(|a|), Split(|b|);
      var l, r := TreeHead(h, a[..i]), TreeHead(h, a[i..]);
      var l', r' := TreeHead(h, b[..j]), TreeHead(h, b[j..]);
      if NodeInput(l, r) == NodeInput(l', r') {
        NodeInputInjective(l, r, l', r');
        if a[..i] != b[..j] {
          TreeBinds(h, a[..i], b[..j]);
        } else {
          assert a == a[..i] + a[i..] && b == b[..j] + b[j..];
          TreeBinds(h, a[i..], b[j..]);
        }
      }
    }
  }

  function TopInput(h: Hasher, chunks: seq<Digest>): Bytes
  {
    if chunks == [] then [EMPTY]
    else if |chunks| == 1 then LeafInput(chunks[0])
    else NodeInput(TreeHead(h, chunks[..Split(|chunks|)]), TreeHead(h, chunks[Split(|chunks|)..]))
  }

  function RootClash(h: Hasher, a: seq<Digest>, b: seq<Digest>): (Bytes, Bytes)
  {
    if a == [] || b == [] then (TopInput(h, a), TopInput(h, b)) else TreeClash(h, a, b)
  }

  /** The root commits to the whole ordered list: different lists, of any
      lengths, share a root only through a collision. */
  lemma RootBinds(h: Hasher, a: seq<Digest>, b: seq<Digest>)
    requires RootOf(h, a) == RootOf(h, b)
    ensures a == b || Collision(h, RootClash(h, a, b))
  {
    if a != [] {
      RootIsTreeHead(h, a);
    }
    if b != [] {
      RootIsTreeHead(h, b);
    }
    if a != [] && b != [] && a != b {
      TreeBinds(h, a, b);
    }
  }
}
