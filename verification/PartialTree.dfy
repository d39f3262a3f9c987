/**
 The partial Merkle tree object: building, packing, unpacking and extracting, with the
 block-level theorems about the encoding.
 */
module PartialTree {
  import opened Hashing
  import opened Merkle
  import opened PartialMerkle

  // ----- theorems about the encoding of a block -----

  lemma {:induction false} WholeBlock(n: nat)
    requires n > 0
    ensures TreeWidth(n, TreeHeight(n)) == 1
    ensures FirstLeaf(TreeHeight(n), 0) == 0 && EndLeaf(n, TreeHeight(n), 0) == n
  {
    RootLevel(n);
    ShlZero(TreeHeight(n));
    NodeHasLeaf(n, TreeHeight(n), 1);
  }

  lemma {:induction false} ShlZero(height: nat)
    ensures Shl(0, height) == 0
  {
    if height > 0 {
      ShlZero(height - 1);
    }
  }

  lemma {:induction false} LoneChildrenBound(n: nat, mask: seq<bool>, height: nat)
    ensures LoneChildren(n, mask, height) <= height
    ensures LoneChildren(n, mask, height) == 0 <==> forall k: nat :: k < height ==> !LoneChild(n, mask, k)
  {
    if height > 0 {
      LoneChildrenBound(n, mask, height - 1);
    }
  }

  /** The size bounds of an honest partial tree, and when the documented bound of 2N - 1 bits holds. */
  lemma {:induction false} PartialTreeSize(hash: Hasher, txids: seq<Digest>, mask: seq<bool>)
    requires |mask| == |txids| > 0
    ensures var e, n, h := EncodeBlock(hash, txids, mask), |txids|, TreeHeight(|txids|);
            && 1 <= |e.hashes| <= n
            && |e.hashes| <= 1 + |Selected(txids, mask, 0, n)| * h
            && |e.hashes| <= |e.bits| <= 2 * |e.hashes| - 1 + h
            && (|e.bits| <= 2 * |e.hashes| - 1 <==> forall k: nat :: k < h ==> !LoneChild(n, mask, k))
  {
    var n, h := |txids|, TreeHeight(|txids|);
    WholeBlock(n);
    HashesWithinLeaves(hash, txids, mask, h, 0);
    HashesByMatches(hash, txids, mask, h, 0);
    BitCount(hash, txids, mask, h, 0);
    LoneChildrenBound(n, mask, h);
  }

  /** Five transactions with only the last one selected need more than 2N - 1 bits. */
  lemma DocumentedBitBoundFails(hash: Hasher, txids: seq<Digest>)
    requires |txids| == 5
    ensures var e := EncodeBlock(hash, txids, [false, false, false, false, true]);
            |e.bits| > 2 * |e.hashes| - 1
  {
    var mask := [false, false, false, false, true];
    PartialTreeSize(hash, txids, mask);
    assert TreeWidth(5, 0) == 5 && TreeHeight(5) > 0;
    assert mask[4] && FirstLeaf(0, 4) == 4;
    assert LoneChild(5, mask, 0);
  }

  // ----- the size on the wire -----

  /** Bytes of a length prefix. */
  function CompactSizeBytes(n: nat): nat
  {
    if n < 253 then 1 else if n <= 0xffff then 3 else if n <= 0xffff_ffff then 5 else 9
  }

  /** Count, hashes and packed bits, with the lengths of the two lists. */
  function SerializedSize(hashes: nat, bits: nat): nat
  {
    var bytes := (bits + 7) / 8;
    4 + CompactSizeBytes(hashes) + 32 * hashes + CompactSizeBytes(bytes) + bytes
  }

  lemma {:induction false} WidthHalves(n: nat, height: nat, width: nat)
    requires TreeWidth(n, height) <= 2 * width
    ensures TreeWidth(n, height + 1) <= width
  {
  }

  lemma {:induction false} HeightAtMostTen(n: nat)
    requires n <= 1024
    ensures TreeHeight(n) <= 10
  {
    WidthHalves(n, 0, 512);
    WidthHalves(n, 1, 256);
    WidthHalves(n, 2, 128);
    WidthHalves(n, 3, 64);
    WidthHalves(n, 4, 32);
    WidthHalves(n, 5, 16);
    WidthHalves(n, 6, 8);
    WidthHalves(n, 7, 4);
    WidthHalves(n, 8, 2);
    WidthHalves(n, 9, 1);
  }

  /** The documented bound of 10 + ceil(32.25 N) bytes holds for every block that can be decoded, although that on the bits fails. */
  lemma {:induction false} SizeGuarantee(hash: Hasher, txids: seq<Digest>, mask: seq<bool>)
    requires |mask| == |txids| && 0 < |txids| <= MAX_BLOCK_SIZE / 60
    ensures var e := EncodeBlock(hash, txids, mask);
            SerializedSize(|e.hashes|, |e.bits|) <= 10 + 32 * |e.hashes| + (|e.hashes| + 3) / 4
  {
    PartialTreeSize(hash, txids, mask);
    HeightAtMostTen(|txids|);
    var e := EncodeBlock(hash, txids, mask);
    SizeBound(|e.hashes|, |e.bits|);
  }

  lemma SizeBound(hashes: nat, bits: nat)
    requires 1 <= hashes <= MAX_BLOCK_SIZE / 60 && bits <= 2 * hashes + 9
    ensures SerializedSize(hashes, bits) <= 10 + 32 * hashes + (hashes + 3) / 4
  {
    var bytes := (bits + 7) / 8;
    assert bytes <= (2 * hashes + 16) / 8;
    assert (2 * hashes + 16) / 8 <= 2 + (hashes + 3) / 4;
    assert bytes < 253;
  }

  /** Decoding an honest tree, also with padding bits after it, gives the root and the selected txids. */
  lemma {:induction false} PartialTreeRoundTrip(hash: Hasher, txids: seq<Digest>, mask: seq<bool>, bits: seq<bool>)
    requires |mask| == |txids| && 0 < |txids| <= MAX_BLOCK_SIZE / 60
    requires EncodeBlock(hash, txids, mask).bits <= bits
    requires (|bits| + 7) / 8 == (|EncodeBlock(hash, txids, mask).bits| + 7) / 8
    ensures ExtractBlock(hash, |txids|, bits, EncodeBlock(hash, txids, mask).hashes, false)
            == (MerkleRoot(hash, txids), Selected(txids, mask, 0, |txids|))
  {
    var h := TreeHeight(|txids|);
    var e := EncodeBlock(hash, txids, mask);
    WholeBlock(|txids|);
    HashesWithinLeaves(hash, txids, mask, h, 0);
    assert EncodedAt(hash, txids, mask, h, 0, bits, e.hashes, 0, 0);
    ExtractEncoded(hash, txids, mask, h, 0, bits, e.hashes, 0, 0);
  }

  // ----- authenticity -----

  /** The pairs hashed while computing a node of the true tree. */
  function TreePairs(hash: Hasher, txids: seq<Digest>, height: nat, pos: nat): set<(Digest, Digest)>
    requires pos < TreeWidth(|txids|, height)
    decreases height
  {
    if height == 0 then {} else
    ChildWidths(|txids|, height, pos);
    {(CalcHash(hash, txids, height - 1, 2 * pos), RightHash(hash, txids, height, pos))}
    + TreePairs(hash, txids, height - 1, 2 * pos)
    + if 2 * pos + 1 < TreeWidth(|txids|, height - 1)
      then TreePairs(hash, txids, height - 1, 2 * pos + 1) else {}
  }

  function BlockPairs(hash: Hasher, txids: seq<Digest>): set<(Digest, Digest)>
    requires |txids| > 0
  {
    RootLevel(|txids|);
    TreePairs(hash, txids, TreeHeight(|txids|), 0)
  }

  /** The pairs hashed by the decoder. */
  function ExtractPairs(hash: Hasher, n: nat, bits: seq<bool>, hashes: seq<Digest>, height: nat, pos: nat,
                        nb: nat, nh: nat): set<(Digest, Digest)>
    decreases height
  {
    if nb >= |bits| || height == 0 || !bits[nb] then {} else
    var left := Extract(hash, n, bits, hashes, height - 1, 2 * pos, nb + 1, nh);
    var below := ExtractPairs(hash, n, bits, hashes, height - 1, 2 * pos, nb + 1, nh);
    if 2 * pos + 1 < TreeWidth(n, height - 1) then
      var right := Extract(hash, n, bits, hashes, height - 1, 2 * pos + 1, left.bitsUsed, left.hashUsed);
      {(left.hash, right.hash)} + below
      + ExtractPairs(hash, n, bits, hashes, height - 1, 2 * pos + 1, left.bitsUsed, left.hashUsed)
    else
      {(left.hash, left.hash)} + below
  }

  /** The values are txids of the block at increasing positions within a range. */
  ghost predicate AtPositions(txids: seq<Digest>, values: seq<Digest>, at: seq<nat>, lo: nat, hi: nat)
  {
    && |at| == |values| && hi <= |txids|
    && (forall i :: 0 <= i < |at| ==> lo <= at[i] < hi && txids[at[i]] == values[i])
    && (forall i, j :: 0 <= i < j < |at| ==> at[i] < at[j])
  }

  lemma AtPositionsJoin(txids: seq<Digest>, a: seq<Digest>, b: seq<Digest>, at: seq<nat>, bt: seq<nat>,
                        lo: nat, mid: nat, hi: nat)
    requires AtPositions(txids, a, at, lo, mid) && AtPositions(txids, b, bt, mid, hi) && lo <= mid <= hi
    ensures AtPositions(txids, a + b, at + bt, lo, hi)
  {
  }

  /** The subtree decodes without failure to the true hash, and no decoded pair collides with a true one. */
  ghost predicate DecodesTrue(hash: Hasher, txids: seq<Digest>, bits: seq<bool>, hashes: seq<Digest>,
                              height: nat, pos: nat, nb: nat, nh: nat)
    requires pos < TreeWidth(|txids|, height)
  {
    var w := Extract(hash, |txids|, bits, hashes, height, pos, nb, nh);
    && !w.bad && w.hash == CalcHash(hash, txids, height, pos)
    && NoCollision(hash, ExtractPairs(hash, |txids|, bits, hashes, height, pos, nb, nh),
                   TreePairs(hash, txids, height, pos))
  }

  /** At one node: matching the true hash fixes both child hashes. */
  lemma {:induction false} ChildrenDecodeTrue(hash: Hasher, txids: seq<Digest>, bits: seq<bool>, hashes: seq<Digest>,
                                              height: nat, pos: nat, nb: nat, nh: nat)
    requires height > 0 && pos < TreeWidth(|txids|, height) && nb < |bits| && bits[nb]
    requires DecodesTrue(hash, txids, bits, hashes, height, pos, nb, nh)
    ensures 2 * pos < TreeWidth(|txids|, height - 1)
    ensures DecodesTrue(hash, txids, bits, hashes, height - 1, 2 * pos, nb + 1, nh)
    ensures var left := Extract(hash, |txids|, bits, hashes, height - 1, 2 * pos, nb + 1, nh);
            2 * pos + 1 < TreeWidth(|txids|, height - 1) ==>
              DecodesTrue(hash, txids, bits, hashes, height - 1, 2 * pos + 1, left.bitsUsed, left.hashUsed)
  {
    ChildWidths(|txids|, height, pos);
    var left := Extract(hash, |txids|, bits, hashes, height - 1, 2 * pos, nb + 1, nh);
    var right := if 2 * pos + 1 < TreeWidth(|txids|, height - 1)
                 then Extract(hash, |txids|, bits, hashes, height - 1, 2 * pos + 1, left.bitsUsed, left.hashUsed)
                 else left;
    var found := (left.hash, right.hash);
    var known := (CalcHash(hash, txids, height - 1, 2 * pos), RightHash(hash, txids, height, pos));
    assert found in ExtractPairs(hash, |txids|, bits, hashes, height, pos, nb, nh);
    assert known in TreePairs(hash, txids, height, pos);
    assert found == known;
  }

  /** The matches of a descended node are those of its children in turn. */
  lemma {:induction false} MatchesOfChildren(hash: Hasher, n: nat, bits: seq<bool>, hashes: seq<Digest>,
                                             height: nat, pos: nat, nb: nat, nh: nat)
    requires height > 0 && nb < |bits| && bits[nb]
    ensures var left := Extract(hash, n, bits, hashes, height - 1, 2 * pos, nb + 1, nh);
            Extract(hash, n, bits, hashes, height, pos, nb, nh).matches
            == if 2 * pos + 1 < TreeWidth(n, height - 1)
               then left.matches
                    + Extract(hash, n, bits, hashes, height - 1, 2 * pos + 1, left.bitsUsed, left.hashUsed).matches
               else left.matches
  {
  }

  /** Whatever bits and hashes are given: a subtree that decodes to the true hash yields only true txids, in order. */
  lemma {:induction false} SubtreeIsAuthentic(hash: Hasher, txids: seq<Digest>, bits: seq<bool>, hashes: seq<Digest>,
                                              height: nat, pos: nat, nb: nat, nh: nat) returns (at: seq<nat>)
    requires pos < TreeWidth(|txids|, height)
    requires DecodesTrue(hash, txids, bits, hashes, height, pos, nb, nh)
    ensures AtPositions(txids, Extract(hash, |txids|, bits, hashes, height, pos, nb, nh).matches, at,
                        FirstLeaf(height, pos), EndLeaf(|txids|, height, pos))
    decreases height, 1
  {
    LeavesSplit(|txids|, height, pos);
    if height == 0 || !bits[nb] {
      at := if height == 0 && bits[nb] then [pos] else [];
    } else {
      at := ChildrenAreAuthentic(hash, txids, bits, hashes, height, pos, nb, nh);
    }
  }

  lemma {:induction false} ChildrenAreAuthentic(hash: Hasher, txids: seq<Digest>, bits: seq<bool>, hashes: seq<Digest>,
                                                height: nat, pos: nat, nb: nat, nh: nat) returns (at: seq<nat>)
    requires pos < TreeWidth(|txids|, height) && height > 0 && nb < |bits| && bits[nb]
    requires DecodesTrue(hash, txids, bits, hashes, height, pos, nb, nh)
    ensures AtPositions(txids, Extract(hash, |txids|, bits, hashes, height, pos, nb, nh).matches, at,
                        FirstLeaf(height, pos), EndLeaf(|txids|, height, pos))
    decreases height, 0
  {
    LeavesSplit(|txids|, height, pos);
    ChildrenDecodeTrue(hash, txids, bits, hashes, height, pos, nb, nh);
    MatchesOfChildren(hash, |txids|, bits, hashes, height, pos, nb, nh);
    var left := Extract(hash, |txids|, bits, hashes, height - 1, 2 * pos, nb + 1, nh);
    at := SubtreeIsAuthentic(hash, txids, bits, hashes, height - 1, 2 * pos, nb + 1, nh);
    if 2 * pos + 1 < TreeWidth(|txids|, height - 1) {
      var right := Extract(hash, |txids|, bits, hashes, height - 1, 2 * pos + 1, left.bitsUsed, left.hashUsed);
      var bt := SubtreeIsAuthentic(hash, txids, bits, hashes, height - 1, 2 * pos + 1, left.bitsUsed, left.hashUsed);
      AtPositionsJoin(txids, left.matches, right.matches, at, bt, FirstLeaf(height, pos),
                      EndLeaf(|txids|, height - 1, 2 * pos), EndLeaf(|txids|, height, pos));
      at := at + bt;
    }
  }

  /**
   Authenticity: if extraction from any bits and hashes, with the true transaction count, gives
   the block's Merkle root (and not the failure value zero), then the matches are txids of the
   block in block order, unless a pair hashed by the decoder collides with one of the true tree.
   */
  lemma {:induction false} MatchesAreAuthentic(hash: Hasher, txids: seq<Digest>, bits: seq<bool>, hashes: seq<Digest>,
                                               bad: bool)
    requires |txids| > 0
    requires ExtractBlock(hash, |txids|, bits, hashes, bad).0 == MerkleRoot(hash, txids) != ZERO
    requires NoCollision(hash, ExtractPairs(hash, |txids|, bits, hashes, TreeHeight(|txids|), 0, 0, 0),
                         BlockPairs(hash, txids))
    ensures exists at :: AtPositions(txids, ExtractBlock(hash, |txids|, bits, hashes, bad).1, at, 0, |txids|)
  {
    WholeBlock(|txids|);
    var at := SubtreeIsAuthentic(hash, txids, bits, hashes, TreeHeight(|txids|), 0, 0, 0);
  }

  /** With set bits only and no hashes left, extraction fails without a match. */
  lemma {:induction false} NothingLeft(hash: Hasher, n: nat, bits: seq<bool>, hashes: seq<Digest>, height: nat,
                                       pos: nat, nb: nat)
    requires forall i :: 0 <= i < |bits| ==> bits[i]
    ensures var w := Extract(hash, n, bits, hashes, height, pos, nb, |hashes|);
            w.bad && w.matches == [] && w.hashUsed == |hashes|
    decreases height
  {
    if height > 0 && nb < |bits| {
      NothingLeft(hash, n, bits, hashes, height - 1, 2 * pos, nb + 1);
      var left := Extract(hash, n, bits, hashes, height - 1, 2 * pos, nb + 1, |hashes|);
      NothingLeft(hash, n, bits, hashes, height - 1, 2 * pos + 1, left.bitsUsed);
    }
  }

  /** With set bits only and one hash, that hash is taken for the first leaf. */
  lemma {:induction false} OneHashOneMatch(hash: Hasher, n: nat, bits: seq<bool>, x: Digest, height: nat, nb: nat)
    requires (forall i :: 0 <= i < |bits| ==> bits[i]) && nb + height < |bits|
    ensures var w := Extract(hash, n, bits, [x], height, 0, nb, 0);
            w.matches == [x] && w.hashUsed == 1 && (height > 0 && n > 1 ==> w.bad) && (height == 0 ==> w.bitsUsed == nb + 1)
    decreases height
  {
    if height > 0 {
      OneHashOneMatch(hash, n, bits, x, height - 1, nb + 1);
      var left := Extract(hash, n, bits, [x], height - 1, 0, nb + 1, 0);
      NothingLeft(hash, n, bits, [x], height - 1, 1, left.bitsUsed);
      assert height == 1 ==> TreeWidth(n, 0) == n;
    }
  }

  /** A root of zero cannot be told from a failure: every block with that root lets any value pass as a match. */
  lemma {:induction false} ZeroRootAdmitsAny(hash: Hasher, txids: seq<Digest>, x: Digest)
    requires 0 < |txids| <= MAX_BLOCK_SIZE / 60 && MerkleRoot(hash, txids) == ZERO
    ensures exists bits :: ExtractBlock(hash, |txids|, bits, [x], false) == (MerkleRoot(hash, txids), [x])
  {
    var n, h := |txids|, TreeHeight(|txids|);
    var bits := seq(h + 17, _ => true);
    OneHashOneMatch(hash, n, bits, x, h, 0);
    assert h == 0 ==> n == 1;
    assert ExtractBlock(hash, n, bits, [x], false) == (ZERO, [x]);
  }

  /** So authenticity fails for a root of zero even where no pair collides. */
  lemma ZeroRootIsNotAuthentic()
    ensures var hash: Hasher := (a, b) => if a == Digest(1) && b == Digest(2) then ZERO else Digest(9);
            var txids, bits, hashes := [Digest(1), Digest(2)], [true, true], [Digest(7)];
            var r := ExtractBlock(hash, 2, bits, hashes, false);
            && r.0 == MerkleRoot(hash, txids) && r.1 == [Digest(7)] && Digest(7) !in txids
            && NoCollision(hash, ExtractPairs(hash, 2, bits, hashes, TreeHeight(2), 0, 0, 0), BlockPairs(hash, txids))
  {
  }

  // ----- packing the flag bits -----

  /** 1 << k within a byte */
  function Mask(k: nat): bv8
    requires k < 8
  {
    if k == 0 then 1 else if k == 1 then 2 else if k == 2 then 4 else if k == 3 then 8
    else if k == 4 then 16 else if k == 5 then 32 else if k == 6 then 64 else 128
  }

  predicate BitSet(b: bv8, k: nat)
    requires k < 8
  {
    b & Mask(k) != 0
  }

  /** The lowest bit comes first. */
  lemma LowestFirst(b: bv8, k: nat)
    requires k < 8
    ensures BitSet(b, k) <==> (b >> k) & 1 == 1
  {
  }

  lemma SetBit(b: bv8, k: nat, j: nat)
    requires k < 8 && j < 8
    ensures BitSet(b | Mask(k), j) <==> BitSet(b, j) || j == k
  {
  }

  lemma ZeroByte(k: nat)
    requires k < 8
    ensures !BitSet(0, k)
  {
  }

  /** Flag bits read from bytes, least significant bit first. */
  function Unpacked(bytes: seq<bv8>): seq<bool>
  {
    seq(8 * |bytes|, p requires 0 <= p < 8 * |bytes| => BitSet(bytes[p / 8], p % 8))
  }

  /** Just enough bytes; unpacking them gives the bits followed by zero padding. */
  ghost predicate Packs(bits: seq<bool>, bytes: seq<bv8>)
  {
    && |bytes| == (|bits| + 7) / 8
    && bits <= Unpacked(bytes)
    && forall p :: |bits| <= p < 8 * |bytes| ==> !Unpacked(bytes)[p]
  }

  datatype Wire = Wire(nTransactions: nat, vHash: seq<Digest>, vBytes: seq<bv8>)

  /** What extraction gives at a descended node, and how its matches are appended. */
  lemma ExtractDescends(hash: Hasher, n: nat, bits: seq<bool>, hashes: seq<Digest>, height: nat, pos: nat, nb: nat, nh: nat,
                        ms: seq<Digest>)
    requires height > 0 && nb < |bits| && bits[nb]
    ensures var left := Extract(hash, n, bits, hashes, height - 1, 2 * pos, nb + 1, nh);
            var node := Extract(hash, n, bits, hashes, height, pos, nb, nh);
            if 2 * pos + 1 < TreeWidth(n, height - 1)
            then var right := Extract(hash, n, bits, hashes, height - 1, 2 * pos + 1, left.bitsUsed, left.hashUsed);
                 node == Walk(hash(left.hash, right.hash), right.bitsUsed, right.hashUsed, left.matches + right.matches,
                              left.bad || right.bad) &&
                 ms + node.matches == ms + left.matches + right.matches
            else node == left.(hash := hash(left.hash, left.hash))
  {
  }

  class PartialMerkleTree {
    var nTransactions: nat
    var vBits: seq<bool>
    var vHash: seq<Digest>
    var fBad: bool

    constructor Empty()
      ensures nTransactions == 0 && fBad && vBits == [] && vHash == []
    {
      nTransactions, vBits, vHash, fBad := 0, [], [], true;
    }

    constructor FromBlock(hash: Hasher, txids: seq<Digest>, mask: seq<bool>)
      requires |mask| == |txids| > 0
      ensures nTransactions == |txids| && !fBad
      ensures vBits == EncodeBlock(hash, txids, mask).bits && vHash == EncodeBlock(hash, txids, mask).hashes
    {
      nTransactions, vBits, vHash, fBad := |txids|, [], [], false;
      new;
      var height := CalcHeight();
      RootLevel(|txids|);
      TraverseAndBuild(hash, height, 0, txids, mask);
    }

    method CalcTreeWidth(height: nat) returns (w: nat)
      ensures w == TreeWidth(nTransactions, height)
    {
      WidthIsShift(nTransactions, height);
      w := (nTransactions + Pow2(height) - 1) / Pow2(height);
    }

    method CalcHeight() returns (height: nat)
      ensures height == TreeHeight(nTransactions)
    {
      height := 0;
      var w := CalcTreeWidth(0);
      while w > 1
        invariant w == TreeWidth(nTransactions, height)
        invariant HeightFrom(nTransactions, height) == TreeHeight(nTransactions)
        decreases w
      {
        height := height + 1;
        w := CalcTreeWidth(height);
      }
    }

    /** Whether some leaf below the node is selected. */
    method ParentOfMatch(height: nat, pos: nat, mask: seq<bool>) returns (found: bool)
      requires |mask| == nTransactions
      ensures found <==> AboveMatch(nTransactions, mask, height, pos)
    {
      found := false;
      var p := Shl(pos, height);
      while p < Shl(pos + 1, height) && p < nTransactions
        invariant p >= Shl(pos, height)
        invariant p == Shl(pos, height) || (p <= Shl(pos + 1, height) && p <= nTransactions)
        invariant found <==> AnyMatchIn(mask, Shl(pos, height), p)
      {
        found := found || mask[p];
        p := p + 1;
      }
      MatchRangeEnd(mask, height, pos, p);
    }

    method TraverseAndBuild(hash: Hasher, height: nat, pos: nat, txids: seq<Digest>, mask: seq<bool>)
      requires nTransactions == |txids| == |mask| && pos < TreeWidth(|txids|, height)
      modifies this`vBits, this`vHash
      ensures vBits == old(vBits) + Encode(hash, txids, mask, height, pos).bits
      ensures vHash == old(vHash) + Encode(hash, txids, mask, height, pos).hashes
      decreases height
    {
      var parentOfMatch := ParentOfMatch(height, pos, mask);
      vBits := vBits + [parentOfMatch];
      if height == 0 || !parentOfMatch {
        vHash := vHash + [CalcHash(hash, txids, height, pos)];
      } else {
        ChildWidths(|txids|, height, pos);
        ghost var left := Encode(hash, txids, mask, height - 1, pos * 2);
        TraverseAndBuild(hash, height - 1, pos * 2, txids, mask);
        Associate(old(vBits), [true], left.bits);
        var w := CalcTreeWidth(height - 1);
        if pos * 2 + 1 < w {
          ghost var right := Encode(hash, txids, mask, height - 1, pos * 2 + 1);
          TraverseAndBuild(hash, height - 1, pos * 2 + 1, txids, mask);
          Associate(old(vBits), [true] + left.bits, right.bits);
          Associate(old(vHash), left.hashes, right.hashes);
        }
      }
    }

    method TraverseAndExtract(hash: Hasher, height: nat, pos: nat, nBitsUsed: nat, nHashUsed: nat, vMatch: seq<Digest>)
      returns (h: Digest, nb: nat, nh: nat, ms: seq<Digest>)
      modifies this`fBad
      ensures var w := Extract(hash, nTransactions, vBits, vHash, height, pos, nBitsUsed, nHashUsed);
              h == w.hash && nb == w.bitsUsed && nh == w.hashUsed && ms == vMatch + w.matches
              && fBad == (old(fBad) || w.bad)
      decreases height
    {
      nb, nh, ms := nBitsUsed, nHashUsed, vMatch;
      if nb >= |vBits| {
        fBad := true;
        return ZERO, nb, nh, ms;
      }
      var parentOfMatch := vBits[nb];
      nb := nb + 1;
      if height == 0 || !parentOfMatch {
        if nh >= |vHash| {
          fBad := true;
          return ZERO, nb, nh, ms;
        }
        h := vHash[nh];
        nh := nh + 1;
        if height == 0 && parentOfMatch {
          ms := ms + [h];
        }
      } else {
        var left, right;
        left, nb, nh, ms := TraverseAndExtract(hash, height - 1, pos * 2, nb, nh, ms);
        var w := CalcTreeWidth(height - 1);
        if pos * 2 + 1 < w {
          right, nb, nh, ms := TraverseAndExtract(hash, height - 1, pos * 2 + 1, nb, nh, ms);
        } else {
          right := left;
        }
        h := hash(left, right);
        ExtractDescends(hash, nTransactions, vBits, vHash, height, pos, nBitsUsed, nHashUsed, vMatch);
      }
    }

    method ExtractMatches(hash: Hasher) returns (root: Digest, vMatch: seq<Digest>)
      modifies this`fBad
      ensures (root, vMatch) == ExtractBlock(hash, nTransactions, vBits, vHash, old(fBad))
    {
      vMatch := [];
      if nTransactions == 0 || nTransactions > MAX_BLOCK_SIZE / 60 || |vHash| > nTransactions || |vBits| < |vHash| {
        return ZERO, vMatch;
      }
      var height := CalcHeight();
      var nb, nh;
      root, nb, nh, vMatch := TraverseAndExtract(hash, height, 0, 0, 0, vMatch);
      assert vMatch == Extract(hash, nTransactions, vBits, vHash, height, 0, 0, 0).matches;
      if fBad || (nb + 7) / 8 != (|vBits| + 7) / 8 || nh != |vHash| {
        root := ZERO;
      }
    }

    method Serialize() returns (wire: Wire)
      ensures wire.nTransactions == nTransactions && wire.vHash == vHash && Packs(vBits, wire.vBytes)
    {
      var n := (|vBits| + 7) / 8;
      var bytes := seq(n, _ => 0 as bv8);
      forall k | 0 <= k < 8
        ensures !BitSet(0, k)
      {
        ZeroByte(k);
      }
      var p := 0;
      while p < |vBits|
        invariant 0 <= p <= |vBits| && |bytes| == n
        invariant forall q :: 0 <= q < 8 * n ==> (BitSet(bytes[q / 8], q % 8) <==> q < p && vBits[q])
      {
        if vBits[p] {
          var b := bytes[p / 8];
          forall q | 0 <= q < 8
            ensures BitSet(b | Mask(p % 8), q) <==> BitSet(b, q) || q == p % 8
          {
            SetBit(b, p % 8, q);
          }
          bytes := bytes[p / 8 := b | Mask(p % 8)];
        }
        p := p + 1;
      }
      wire := Wire(nTransactions, vHash, bytes);
    }

    method Unserialize(wire: Wire)
      modifies this
      ensures nTransactions == wire.nTransactions && vHash == wire.vHash
      ensures vBits == Unpacked(wire.vBytes) && !fBad
    {
      nTransactions, vHash := wire.nTransactions, wire.vHash;
      vBits := [];
      while |vBits| < 8 * |wire.vBytes|
        invariant |vBits| <= 8 * |wire.vBytes|
        invariant vBits == Unpacked(wire.vBytes)[..|vBits|]
        invariant nTransactions == wire.nTransactions && vHash == wire.vHash
      {
        vBits := vBits + [BitSet(wire.vBytes[|vBits| / 8], |vBits| % 8)];
      }
      fBad := false;
    }
  }

  lemma Associate<T>(a: seq<T>, b: seq<T>, c: seq<T>)
    ensures (a + b) + c == a + (b + c)
  {
  }

  lemma MatchRangeEnd(mask: seq<bool>, height: nat, pos: nat, p: nat)
    requires p >= Shl(pos, height)
    requires p >= Shl(pos + 1, height) || p >= |mask|
    requires p == Shl(pos, height) || (p <= Shl(pos + 1, height) && p <= |mask|)
    ensures AnyMatchIn(mask, Shl(pos, height), p) <==> AboveMatch(|mask|, mask, height, pos)
  {
    ShlStrict(pos, pos + 1, height);
  }

  /** Build, send as bytes, read back and extract: the receiver gets the root and exactly the selected txids. */
  method SendAndExtract(hash: Hasher, txids: seq<Digest>, mask: seq<bool>) returns (root: Digest, matches: seq<Digest>)
    requires |mask| == |txids| && 0 < |txids| <= MAX_BLOCK_SIZE / 60
    ensures root == MerkleRoot(hash, txids)
    ensures matches == Selected(txids, mask, 0, |txids|)
  {
    var sender := new PartialMerkleTree.FromBlock(hash, txids, mask);
    var wire := sender.Serialize();
    var receiver := new PartialMerkleTree.Empty();
    receiver.Unserialize(wire);
    PartialTreeRoundTrip(hash, txids, mask, receiver.vBits);
    root, matches := receiver.ExtractMatches(hash);
  }
}
