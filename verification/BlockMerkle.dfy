/**
 The level-by-level Merkle tree that a block caches, the branches read off it and the
 verification of a single transaction.
 */
module BlockMerkle {
  import opened Hashing
  import opened Merkle

  class Block {
    const txids: seq<Digest>         // hashes of vtx, in order
    var vMerkleTree: seq<Digest>     // cache; empty until built

    constructor (txids: seq<Digest>)
      ensures this.txids == txids && vMerkleTree == []
    {
      this.txids := txids;
      vMerkleTree := [];
    }

    /** The cache is either absent or the complete tree of this block. */
    ghost predicate Valid(hash: Hasher)
      reads this
    {
      vMerkleTree == [] || IsFlatTree(hash, txids, vMerkleTree)
    }

    /** Pushes the parents of one level; `start` is where that level begins. */
    method AppendParents(hash: Hasher, tree: seq<Digest>, start: nat, size: nat, ghost level: nat) returns (r: seq<Digest>)
      requires size == TreeWidth(|txids|, level) && start == LevelStart(|txids|, level)
      requires |tree| == start + size && size > 1
      requires LevelsStored(hash, txids, tree, level + 1)
      ensures LevelsStored(hash, txids, r, level + 2)
      ensures |r| == LevelStart(|txids|, level + 2)
    {
      r := tree;
      var i := 0;
      while i < size
        invariant i % 2 == 0 && 0 <= i <= size + 1
        invariant |r| == |tree| + i / 2 && r[..|tree|] == tree
        invariant HoldsNodes(hash, txids, r, |tree|, level + 1, i / 2)
      {
        var i2 := if i + 1 < size - 1 then i + 1 else size - 1;
        StoredPair(hash, txids, r, level, i, i2);
        r := r + [hash(r[start + i], r[start + i2])];
        i := i + 2;
      }
      ExtendLevels(hash, txids, tree, r, level);
    }

    method BuildMerkleTree(hash: Hasher) returns (root: Digest)
      modifies this`vMerkleTree
      ensures IsFlatTree(hash, txids, vMerkleTree)
      ensures root == if txids == [] then ZERO else MerkleRoot(hash, txids)
    {
      var tree := txids;
      var j := 0;
      var size := |txids|;
      ghost var level: nat := 0;
      assert LevelsStored(hash, txids, tree, 1);
      while size > 1
        invariant size == TreeWidth(|txids|, level) && j == LevelStart(|txids|, level)
        invariant |tree| == j + size
        invariant LevelsStored(hash, txids, tree, level + 1)
        invariant forall k: nat :: k < level ==> TreeWidth(|txids|, k) > 1
        decreases size
      {
        tree := AppendParents(hash, tree, j, size, level);
        j := j + size;
        size := (size + 1) / 2;
        level := level + 1;
      }
      HeightUnique(|txids|, level);
      vMerkleTree := tree;
      EmptyOrRooted(hash, txids, tree);
      root := if tree == [] then ZERO else tree[|tree| - 1];
    }

    method GetMerkleBranch(hash: Hasher, index: nat) returns (branch: seq<Digest>)
      requires Valid(hash)
      modifies this`vMerkleTree
      ensures IsFlatTree(hash, txids, vMerkleTree)
      ensures branch == BranchFrom(hash, txids, 0, index, TreeHeight(|txids|))
    {
      if vMerkleTree == [] {
        var _ := BuildMerkleTree(hash);
      }
      branch := ReadBranch(hash, txids, vMerkleTree, index);
    }

    /** Reads the sibling on each level of the stored tree. */
    static method ReadBranch(ghost hash: Hasher, txids: seq<Digest>, tree: seq<Digest>, index: nat)
      returns (branch: seq<Digest>)
      requires IsFlatTree(hash, txids, tree)
      ensures branch == BranchFrom(hash, txids, 0, index, TreeHeight(|txids|))
    {
      branch := [];
      var i: nat := index;
      var j := 0;
      var size := |txids|;
      ghost var level: nat, left: nat := 0, TreeHeight(|txids|);
      while size > 1
        invariant txids != [] || level + left == 0
        invariant size == TreeWidth(|txids|, level) && j == LevelStart(|txids|, level)
        invariant level + left == TreeHeight(|txids|)
        invariant ReadTo(hash, txids, branch, level, i, left, index)
        decreases size
      {
        BelowRoot(|txids|, level);
        ReadMore(hash, txids, branch, level, i, left, index);
        var k := SiblingIndex(i, size);
        StoredAt(hash, txids, tree, level, k);
        branch := branch + [tree[j + k]];
        i := i / 2;
        j := j + size;
        size := (size + 1) / 2;
        level, left := level + 1, left - 1;
      }
      BelowRoot(|txids|, level);
      ReadAll(hash, txids, branch, level, i, index);
    }

    /** The index -1 stands for "not in a block" and verifies nothing. */
    static method CheckMerkleBranch(hash: Hasher, leaf: Digest, branch: seq<Digest>, index: int) returns (r: Digest)
      ensures r == if index == -1 then ZERO else FoldBranch(hash, leaf, branch, index)
    {
      if index == -1 {
        return ZERO;
      }
      r := leaf;
      var i := index;
      for k := 0 to |branch|
        invariant FoldBranch(hash, r, branch[k..], i) == FoldBranch(hash, leaf, branch, index)
      {
        assert branch[k..][0] == branch[k] && branch[k..][1..] == branch[k + 1..];
        r := if i % 2 == 1 then hash(branch[k], r) else hash(r, branch[k]);
        i := i / 2;
      }
    }

    /** What a wallet does: the branch of a transaction checked against the block's root. */
    method ProveTransaction(hash: Hasher, index: nat) returns (r: Digest)
      requires Valid(hash) && index < |txids|
      modifies this`vMerkleTree
      ensures Valid(hash)
      ensures r == MerkleRoot(hash, txids)
    {
      var branch := GetMerkleBranch(hash, index);
      BranchProvesLeaf(hash, txids, index);
      r := CheckMerkleBranch(hash, txids[index], branch, index);
    }
  }

  /** What is read so far, followed by the siblings from a level on, is the whole branch. */
  ghost predicate ReadTo(hash: Hasher, txids: seq<Digest>, branch: seq<Digest>, level: nat, i: nat, left: nat, index: nat)
    requires txids != [] || level + left == 0
  {
    branch + BranchFrom(hash, txids, level, i, left) == BranchFrom(hash, txids, 0, index, level + left)
  }

  lemma {:induction false} ReadMore(hash: Hasher, txids: seq<Digest>, branch: seq<Digest>, level: nat, i: nat, left: nat,
                                    index: nat)
    requires txids != [] && left > 0 && ReadTo(hash, txids, branch, level, i, left, index)
    ensures var k := SiblingIndex(i, TreeWidth(|txids|, level));
            k < TreeWidth(|txids|, level) &&
            ReadTo(hash, txids, branch + [CalcHash(hash, txids, level, k)], level + 1, i / 2, left - 1, index)
  {
    WidthPositive(|txids|, level);
    var x := CalcHash(hash, txids, level, SiblingIndex(i, TreeWidth(|txids|, level)));
    var rest := BranchFrom(hash, txids, level + 1, i / 2, left - 1);
    assert branch + ([x] + rest) == (branch + [x]) + rest;
  }

  lemma ReadAll(hash: Hasher, txids: seq<Digest>, branch: seq<Digest>, level: nat, i: nat, index: nat)
    requires (txids != [] || level == 0) && ReadTo(hash, txids, branch, level, i, 0, index)
    ensures branch == BranchFrom(hash, txids, 0, index, level)
  {
  }

  lemma BelowRoot(n: nat, level: nat)
    requires level <= TreeHeight(n)
    ensures level < TreeHeight(n) <==> TreeWidth(n, level) > 1
  {
  }

  /** A complete flat tree is empty or ends with the root. */
  lemma EmptyOrRooted(hash: Hasher, txids: seq<Digest>, tree: seq<Digest>)
    requires IsFlatTree(hash, txids, tree)
    ensures tree == [] <==> txids == []
    ensures txids != [] ==> tree[|tree| - 1] == MerkleRoot(hash, txids)
  {
    if txids == [] {
      assert TreeWidth(0, 0) == 0;
      assert LevelStart(0, 1) == 0;
    } else {
      RootLevel(|txids|);
      StoredAt(hash, txids, tree, TreeHeight(|txids|), 0);
    }
  }

  lemma StoredAt(hash: Hasher, txids: seq<Digest>, tree: seq<Digest>, level: nat, pos: nat)
    requires IsFlatTree(hash, txids, tree)
    requires level <= TreeHeight(|txids|) && pos < TreeWidth(|txids|, level)
    ensures LevelStart(|txids|, level) + pos < |tree|
    ensures tree[LevelStart(|txids|, level) + pos] == CalcHash(hash, txids, level, pos)
  {
    assert LevelStored(hash, txids, tree, level);
  }

  /** Two neighbouring slots of a stored level hash to the slot of their parent. */
  lemma StoredPair(hash: Hasher, txids: seq<Digest>, tree: seq<Digest>, level: nat, i: nat, i2: nat)
    requires i % 2 == 0 && i < TreeWidth(|txids|, level)
    requires i2 == if i + 1 < TreeWidth(|txids|, level) - 1 then i + 1 else TreeWidth(|txids|, level) - 1
    requires LevelStart(|txids|, level) + TreeWidth(|txids|, level) <= |tree|
    requires LevelsStored(hash, txids, tree[..LevelStart(|txids|, level) + TreeWidth(|txids|, level)], level + 1)
    ensures i / 2 < TreeWidth(|txids|, level + 1)
    ensures hash(tree[LevelStart(|txids|, level) + i], tree[LevelStart(|txids|, level) + i2])
            == CalcHash(hash, txids, level + 1, i / 2)
  {
    var cut := tree[..LevelStart(|txids|, level) + TreeWidth(|txids|, level)];
    assert LevelStored(hash, txids, cut, level);
    assert cut[LevelStart(|txids|, level) + i] == CalcHash(hash, txids, level, i);
    assert cut[LevelStart(|txids|, level) + i2] == CalcHash(hash, txids, level, i2);
    ChildPair(hash, txids, level, i);
  }

  lemma {:induction false} ExtendLevels(hash: Hasher, txids: seq<Digest>, tree: seq<Digest>, r: seq<Digest>, level: nat)
    requires LevelsStored(hash, txids, tree, level + 1)
    requires |tree| == LevelStart(|txids|, level + 1) <= |r| && r[..|tree|] == tree
    requires |r| == |tree| + TreeWidth(|txids|, level + 1)
    requires HoldsNodes(hash, txids, r, |tree|, level + 1, TreeWidth(|txids|, level + 1))
    ensures LevelsStored(hash, txids, r, level + 2)
  {
    forall k: nat | k < level + 2
      ensures LevelStored(hash, txids, r, k)
    {
      if k <= level {
        assert LevelStored(hash, txids, tree, k);
        forall pos: nat | pos < TreeWidth(|txids|, k)
          ensures CalcHash(hash, txids, k, pos) == r[LevelStart(|txids|, k) + pos]
        {
          assert r[LevelStart(|txids|, k) + pos] == r[..|tree|][LevelStart(|txids|, k) + pos];
        }
      }
    }
  }

  lemma HeightUnique(n: nat, level: nat)
    requires TreeWidth(n, level) <= 1
    requires forall k: nat :: k < level ==> TreeWidth(n, k) > 1
    ensures level == TreeHeight(n)
  {
    assert TreeWidth(n, TreeHeight(n)) <= 1;
  }
}
