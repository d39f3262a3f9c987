/**
 Merkle trees over the transaction ids of a block: the tree shape shared by the
 recursive and the level-by-level forms, and single-leaf branches.
 The two-argument hash of the source is a parameter of every member.
 */
module Merkle {
  import opened Hashing

  function Pow2(n: nat): (p: nat)
    ensures p >= 1
  {
    if n == 0 then 1 else 2 * Pow2(n - 1)
  }

  /** Number of nodes at the given height over n leaves: every level halves, rounding up. */
  function TreeWidth(n: nat, height: nat): nat
  {
    if height == 0 then n else (TreeWidth(n, height - 1) + 1) / 2
  }

  /** CalcTreeWidth's shift form gives the same widths. */
  lemma {:induction false} WidthIsShift(n: nat, height: nat)
    ensures (n + Pow2(height) - 1) / Pow2(height) == TreeWidth(n, height)
  {
    WidthCovers(n, height);
    DivUnique(n + Pow2(height) - 1, Pow2(height), TreeWidth(n, height));
  }

  /** The nodes of a level cover all leaves, and without the last one they do not. */
  lemma {:induction false} WidthCovers(n: nat, height: nat)
    ensures n <= TreeWidth(n, height) * Pow2(height) < n + Pow2(height)
  {
    if height == 0 {
    } else {
      WidthCovers(n, height - 1);
      HalvingCovers(n, TreeWidth(n, height - 1), Pow2(height - 1));
    }
  }

  lemma HalvingCovers(n: nat, w: nat, q: nat)
    requires n <= w * q < n + q
    ensures n <= ((w + 1) / 2) * (2 * q) < n + 2 * q
  {
    var w2 := (w + 1) / 2;
    assert w2 * (2 * q) == (2 * w2) * q;
    if 2 * w2 == w + 1 {
      assert (2 * w2) * q == w * q + q;
    } else {
      assert (2 * w2) * q == w * q;
    }
  }

  lemma DivBetween(x: nat, d: nat, q: nat)
    requires d > 0 && q == x / d
    ensures q * d <= x < q * d + d
  {
  }

  lemma DivUnique(x: nat, d: nat, q: nat)
    requires d > 0 && q * d <= x < q * d + d
    ensures x / d == q
  {
    var r := x / d;
    DivBetween(x, d, r);
    assert r * d < (q + 1) * d && q * d < (r + 1) * d;
    LessByProduct(r, q + 1, d);
    LessByProduct(q, r + 1, d);
  }

  lemma LessByProduct(a: nat, b: nat, d: nat)
    requires a * d < b * d
    ensures a < b
  {
  }

  /** A node has a left child, and it has a right child unless the level below ends there. */
  lemma ChildWidths(n: nat, height: nat, pos: nat)
    requires height > 0 && pos < TreeWidth(n, height)
    ensures 2 * pos < TreeWidth(n, height - 1)
    ensures 2 * pos + 1 >= TreeWidth(n, height - 1) ==>
              2 * pos + 1 == TreeWidth(n, height - 1) && pos == TreeWidth(n, height) - 1
  {
  }

  /** Least height whose level has at most one node, from a given starting height. */
  function HeightFrom(n: nat, height: nat): (r: nat)
    ensures r >= height && TreeWidth(n, r) <= 1
    ensures forall k :: height <= k < r ==> TreeWidth(n, k) > 1
    decreases TreeWidth(n, height)
  {
    if TreeWidth(n, height) > 1 then
      HeightFrom(n, height + 1)
    else height
  }

  function TreeHeight(n: nat): nat
  {
    HeightFrom(n, 0)
  }

  /** The root level of a non-empty tree holds exactly one node. */
  lemma RootLevel(n: nat)
    requires n > 0
    ensures TreeWidth(n, TreeHeight(n)) == 1
  {
    WidthPositive(n, TreeHeight(n));
  }

  lemma {:induction false} WidthZero(height: nat)
    ensures TreeWidth(0, height) == 0
  {
    if height > 0 {
      WidthZero(height - 1);
    }
  }

  lemma WidthPositive(n: nat, height: nat)
    requires n > 0
    ensures TreeWidth(n, height) > 0
  {
  }

  /** Position of a node's ancestor `count` levels up. */
  function AncestorIndex(index: nat, count: nat): nat
    decreases count
  {
    if count == 0 then index else AncestorIndex(index / 2, count - 1)
  }

  /** Hash of one node; a missing right child is replaced by the left one. */
  function CalcHash(hash: Hasher, txids: seq<Digest>, height: nat, pos: nat): Digest
    requires pos < TreeWidth(|txids|, height)
    decreases height
  {
    if height == 0 then
      txids[pos]
    else
      ChildWidths(|txids|, height, pos);
      var left := CalcHash(hash, txids, height - 1, 2 * pos);
      hash(left, RightHash(hash, txids, height, pos))
  }

  /** Hash of the right child of an inner node, or of the left one when there is no right child. */
  function RightHash(hash: Hasher, txids: seq<Digest>, height: nat, pos: nat): Digest
    requires height > 0 && pos < TreeWidth(|txids|, height)
    decreases height, 0
  {
    ChildWidths(|txids|, height, pos);
    if 2 * pos + 1 < TreeWidth(|txids|, height - 1) then
      CalcHash(hash, txids, height - 1, 2 * pos + 1)
    else
      CalcHash(hash, txids, height - 1, 2 * pos)
  }

  function MerkleRoot(hash: Hasher, txids: seq<Digest>): Digest
    requires |txids| > 0
  {
    RootLevel(|txids|);
    CalcHash(hash, txids, TreeHeight(|txids|), 0)
  }

  /** Position of a level in the flat form: the widths of the levels below it. */
  function LevelStart(n: nat, height: nat): nat
  {
    if height == 0 then 0 else LevelStart(n, height - 1) + TreeWidth(n, height - 1)
  }

  /** From `base` on, the flat form holds the first `count` node hashes of level k. */
  ghost predicate HoldsNodes(hash: Hasher, txids: seq<Digest>, tree: seq<Digest>, base: nat, k: nat, count: nat)
  {
    && base + count <= |tree| && count <= TreeWidth(|txids|, k)
    && forall pos: nat :: pos < count ==> CalcHash(hash, txids, k, pos) == tree[base + pos]
  }

  ghost predicate LevelStored(hash: Hasher, txids: seq<Digest>, tree: seq<Digest>, k: nat)
  {
    HoldsNodes(hash, txids, tree, LevelStart(|txids|, k), k, TreeWidth(|txids|, k))
  }

  ghost predicate LevelsStored(hash: Hasher, txids: seq<Digest>, tree: seq<Digest>, height: nat)
  {
    forall k: nat :: k < height ==> LevelStored(hash, txids, tree, k)
  }

  /** A flat tree is complete when it holds every level up to the root and nothing else. */
  ghost predicate IsFlatTree(hash: Hasher, txids: seq<Digest>, tree: seq<Digest>)
  {
    && LevelsStored(hash, txids, tree, TreeHeight(|txids|) + 1)
    && |tree| == LevelStart(|txids|, TreeHeight(|txids|) + 1)
  }

  /** Sibling position within a level of nSize nodes: min(nIndex ^ 1, nSize - 1). */
  function SiblingIndex(index: nat, size: nat): nat
    requires size > 0
  {
    var other := if index % 2 == 0 then index + 1 else index - 1;
    if other < size - 1 then other else size - 1
  }

  /** The sibling hashes on the way up from one position, `count` levels of them; positions off the tree are clamped. */
  function BranchFrom(hash: Hasher, txids: seq<Digest>, height: nat, index: nat, count: nat): (b: seq<Digest>)
    requires txids != [] || count == 0
    ensures |b| == count
    decreases count
  {
    if count == 0 then [] else
    WidthPositive(|txids|, height);
    [CalcHash(hash, txids, height, SiblingIndex(index, TreeWidth(|txids|, height)))]
    + BranchFrom(hash, txids, height + 1, index / 2, count - 1)
  }

  /** Folds a branch into a hash, as a verifier of a single leaf does, by the bits of the index from the lowest on. */
  function FoldBranch(hash: Hasher, leaf: Digest, branch: seq<Digest>, index: int): Digest
    decreases |branch|
  {
    if branch == [] then leaf else
    var up := if index % 2 == 1 then hash(branch[0], leaf) else hash(leaf, branch[0]);
    FoldBranch(hash, up, branch[1..], index / 2)
  }

  /** A node and its sibling in the order in which they are combined. */
  function NodePair(hash: Hasher, txids: seq<Digest>, height: nat, index: nat): (Digest, Digest)
    requires index < TreeWidth(|txids|, height)
  {
    var me := CalcHash(hash, txids, height, index);
    var other := CalcHash(hash, txids, height, SiblingIndex(index, TreeWidth(|txids|, height)));
    if index % 2 == 1 then (other, me) else (me, other)
  }

  /** Folding the branch of any node gives the ancestor it leads to. */
  lemma {:induction false} BranchReachesAncestor(hash: Hasher, txids: seq<Digest>, height: nat, index: nat, count: nat)
    requires index < TreeWidth(|txids|, height)
    ensures txids != [] && AncestorIndex(index, count) < TreeWidth(|txids|, height + count)
    ensures FoldBranch(hash, CalcHash(hash, txids, height, index), BranchFrom(hash, txids, height, index, count), index)
            == CalcHash(hash, txids, height + count, AncestorIndex(index, count))
    decreases count
  {
    WidthZero(height);
    if count == 0 {
    } else {
      ChildPair(hash, txids, height, index);
      BranchReachesAncestor(hash, txids, height + 1, index / 2, count - 1);
      assert BranchFrom(hash, txids, height, index, count)[1..] == BranchFrom(hash, txids, height + 1, index / 2, count - 1);
    }
  }

  /** The branch of any leaf verifies against the Merkle root. */
  lemma {:induction false} BranchProvesLeaf(hash: Hasher, txids: seq<Digest>, index: nat)
    requires index < |txids|
    ensures index < TreeWidth(|txids|, 0)
    ensures FoldBranch(hash, txids[index], BranchFrom(hash, txids, 0, index, TreeHeight(|txids|)), index)
            == MerkleRoot(hash, txids)
  {
    RootLevel(|txids|);
    BranchReachesAncestor(hash, txids, 0, index, TreeHeight(|txids|));
  }

  /** The pairs hashed while folding a branch. */
  function FoldPairs(hash: Hasher, leaf: Digest, branch: seq<Digest>, index: nat): set<(Digest, Digest)>
    decreases |branch|
  {
    if branch == [] then {} else
    var pair := if index % 2 == 1 then (branch[0], leaf) else (leaf, branch[0]);
    {pair} + FoldPairs(hash, hash(pair.0, pair.1), branch[1..], index / 2)
  }

  /** No pair of the first set collides with a different pair of the second. */
  ghost predicate NoCollision(hash: Hasher, ps: set<(Digest, Digest)>, qs: set<(Digest, Digest)>)
  {
    forall p, q :: p in ps && q in qs && hash(p.0, p.1) == hash(q.0, q.1) ==> p == q
  }

  /** The pairs of the true tree on the way up from one node. */
  function PathPairs(hash: Hasher, txids: seq<Digest>, height: nat, index: nat, count: nat): set<(Digest, Digest)>
    requires index < TreeWidth(|txids|, height)
    decreases count
  {
    if count == 0 then {} else
    {NodePair(hash, txids, height, index)} + PathPairs(hash, txids, height + 1, index / 2, count - 1)
  }

  /** Up from any node: a branch that folds to its true ancestor starts from the true node. */
  lemma {:induction false} FoldIsAuthentic(hash: Hasher, txids: seq<Digest>, value: Digest, branch: seq<Digest>,
                                           height: nat, index: nat)
    requires index < TreeWidth(|txids|, height)
    requires AncestorIndex(index, |branch|) < TreeWidth(|txids|, height + |branch|)
    requires FoldBranch(hash, value, branch, index) == CalcHash(hash, txids, height + |branch|, AncestorIndex(index, |branch|))
    requires NoCollision(hash, FoldPairs(hash, value, branch, index), PathPairs(hash, txids, height, index, |branch|))
    ensures value == CalcHash(hash, txids, height, index)
    decreases |branch|
  {
    if branch == [] {
    } else {
      var pair := if index % 2 == 1 then (branch[0], value) else (value, branch[0]);
      FoldIsAuthentic(hash, txids, hash(pair.0, pair.1), branch[1..], height + 1, index / 2);
      ChildPair(hash, txids, height, index);
      assert pair in FoldPairs(hash, value, branch, index);
      assert NodePair(hash, txids, height, index) in PathPairs(hash, txids, height, index, |branch|);
    }
  }

  /**
   A branch of full length that folds to the Merkle root proves its leaf: unless one of the
   pairs it hashes collides with a pair on the leaf's true path, the folded value is the txid
   at that index.
   */
  lemma {:induction false} BranchIsAuthentic(hash: Hasher, txids: seq<Digest>, value: Digest, branch: seq<Digest>,
                                             index: nat)
    requires index < |txids| && |branch| == TreeHeight(|txids|)
    requires FoldBranch(hash, value, branch, index) == MerkleRoot(hash, txids)
    requires NoCollision(hash, FoldPairs(hash, value, branch, index), PathPairs(hash, txids, 0, index, |branch|))
    ensures value == txids[index]
  {
    RootLevel(|txids|);
    BranchReachesAncestor(hash, txids, 0, index, |branch|);
    FoldIsAuthentic(hash, txids, value, branch, 0, index);
  }

  /** A node and its sibling combine into their parent, also at the odd end of a level. */
  lemma ChildPair(hash: Hasher, txids: seq<Digest>, height: nat, index: nat)
    requires index < TreeWidth(|txids|, height)
    ensures index / 2 < TreeWidth(|txids|, height + 1)
    ensures var p := NodePair(hash, txids, height, index);
            CalcHash(hash, txids, height + 1, index / 2) == hash(p.0, p.1)
  {
    if index % 2 == 1 {
      assert 2 * (index / 2) + 1 == index;
    } else {
      assert 2 * (index / 2) == index;
    }
  }
}
