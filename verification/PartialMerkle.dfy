/**
 Partial Merkle trees (BIP 37): a depth-first encoding of the part of a Merkle tree that
 leads to selected transactions, its packed form, and the decoder.
 */
module PartialMerkle {
  import opened Hashing
  import opened Merkle

  // ----- leaves below a node -----

  /** pos << height */
  function Shl(pos: nat, height: nat): nat
    decreases height
  {
    if height == 0 then pos else Shl(2 * pos, height - 1)
  }

  lemma {:induction false} ShlStrict(a: nat, b: nat, height: nat)
    requires a < b
    ensures Shl(a, height) < Shl(b, height)
    decreases height
  {
    if height > 0 {
      ShlStrict(2 * a, 2 * b, height - 1);
    }
  }

  /** A node exists exactly when its first leaf does. */
  lemma {:induction false} NodeHasLeaf(n: nat, height: nat, pos: nat)
    ensures pos < TreeWidth(n, height) <==> Shl(pos, height) < n
    decreases height
  {
    if height > 0 {
      NodeHasLeaf(n, height - 1, 2 * pos);
    }
  }

  function FirstLeaf(height: nat, pos: nat): nat
  {
    Shl(pos, height)
  }

  function EndLeaf(n: nat, height: nat, pos: nat): nat
  {
    if Shl(pos + 1, height) < n then Shl(pos + 1, height) else n
  }

  /** The leaves below a node are those of its left child followed by those of its right one. */
  lemma {:induction false} LeavesSplit(n: nat, height: nat, pos: nat)
    requires pos < TreeWidth(n, height)
    ensures FirstLeaf(height, pos) < EndLeaf(n, height, pos) <= n
    ensures height == 0 ==> EndLeaf(n, height, pos) == pos + 1
    ensures height > 0 ==>
              && FirstLeaf(height - 1, 2 * pos) == FirstLeaf(height, pos)
              && FirstLeaf(height, pos) < EndLeaf(n, height - 1, 2 * pos) <= EndLeaf(n, height, pos)
              && if 2 * pos + 1 < TreeWidth(n, height - 1) then
                   && EndLeaf(n, height - 1, 2 * pos) == FirstLeaf(height - 1, 2 * pos + 1)
                   && EndLeaf(n, height - 1, 2 * pos + 1) == EndLeaf(n, height, pos)
                 else
                   EndLeaf(n, height - 1, 2 * pos) == EndLeaf(n, height, pos)
  {
    NodeHasLeaf(n, height, pos);
    ShlStrict(pos, pos + 1, height);
    if height > 0 {
      NodeHasLeaf(n, height - 1, 2 * pos + 1);
      ShlStrict(2 * pos + 1, 2 * pos + 2, height - 1);
      ShlStrict(2 * pos, 2 * pos + 1, height - 1);
    }
  }

  ghost predicate AnyMatchIn(mask: seq<bool>, lo: nat, hi: nat)
  {
    exists p :: lo <= p < hi && p < |mask| && mask[p]
  }

  /** The selected txids of a range, in block order. */
  function Selected(txids: seq<Digest>, mask: seq<bool>, lo: nat, hi: nat): seq<Digest>
    requires hi <= |txids| == |mask|
    decreases hi - lo
  {
    if lo >= hi then []
    else (if mask[lo] then [txids[lo]] else []) + Selected(txids, mask, lo + 1, hi)
  }

  lemma {:induction false} SelectedSplit(txids: seq<Digest>, mask: seq<bool>, lo: nat, mid: nat, hi: nat)
    requires lo <= mid <= hi <= |txids| == |mask|
    ensures Selected(txids, mask, lo, hi) == Selected(txids, mask, lo, mid) + Selected(txids, mask, mid, hi)
    decreases mid - lo
  {
    if lo < mid {
      SelectedSplit(txids, mask, lo + 1, mid, hi);
    }
  }

  lemma {:induction false} SelectedEmpty(txids: seq<Digest>, mask: seq<bool>, lo: nat, hi: nat)
    requires lo <= hi <= |txids| == |mask|
    ensures Selected(txids, mask, lo, hi) == [] <==> !AnyMatchIn(mask, lo, hi)
    decreases hi - lo
  {
    if lo < hi {
      SelectedEmpty(txids, mask, lo + 1, hi);
    }
  }

  // ----- the encoding -----

  datatype Partial = Partial(bits: seq<bool>, hashes: seq<Digest>)

  ghost function Encode(hash: Hasher, txids: seq<Digest>, mask: seq<bool>, height: nat, pos: nat): Partial
    requires |mask| == |txids| && pos < TreeWidth(|txids|, height)
    decreases height
  {
    var parentOfMatch := AnyMatchIn(mask, FirstLeaf(height, pos), EndLeaf(|txids|, height, pos));
    if height == 0 || !parentOfMatch then
      Partial([parentOfMatch], [CalcHash(hash, txids, height, pos)])
    else
      ChildWidths(|txids|, height, pos);
      var left := Encode(hash, txids, mask, height - 1, 2 * pos);
      if 2 * pos + 1 < TreeWidth(|txids|, height - 1) then
        var right := Encode(hash, txids, mask, height - 1, 2 * pos + 1);
        Partial([true] + left.bits + right.bits, left.hashes + right.hashes)
      else
        Partial([true] + left.bits, left.hashes)
  }

  /** The encoding of a whole block. */
  ghost function EncodeBlock(hash: Hasher, txids: seq<Digest>, mask: seq<bool>): Partial
    requires |mask| == |txids| > 0
  {
    RootLevel(|txids|);
    Encode(hash, txids, mask, TreeHeight(|txids|), 0)
  }

  // ----- the decoder -----

  /** What a traversal leaves behind: the node's hash, the cursors, the matches found, the failure flag. */
  datatype Walk = Walk(hash: Digest, bitsUsed: nat, hashUsed: nat, matches: seq<Digest>, bad: bool)

  function Extract(hash: Hasher, n: nat, bits: seq<bool>, hashes: seq<Digest>, height: nat, pos: nat,
                   nb: nat, nh: nat): Walk
    decreases height
  {
    if nb >= |bits| then Walk(ZERO, nb, nh, [], true) else
    if height == 0 || !bits[nb] then
      if nh >= |hashes| then Walk(ZERO, nb + 1, nh, [], true)
      else Walk(hashes[nh], nb + 1, nh + 1, if height == 0 && bits[nb] then [hashes[nh]] else [], false)
    else
      var left := Extract(hash, n, bits, hashes, height - 1, 2 * pos, nb + 1, nh);
      if 2 * pos + 1 < TreeWidth(n, height - 1) then
        var right := Extract(hash, n, bits, hashes, height - 1, 2 * pos + 1, left.bitsUsed, left.hashUsed);
        Walk(hash(left.hash, right.hash), right.bitsUsed, right.hashUsed, left.matches + right.matches,
             left.bad || right.bad)
      else
        left.(hash := hash(left.hash, left.hash))
  }

  const MAX_BLOCK_SIZE: nat := 50000

  /** The result of ExtractMatches: the root, or zero on failure, and the matches collected so far. */
  function ExtractBlock(hash: Hasher, n: nat, bits: seq<bool>, hashes: seq<Digest>, bad: bool): (Digest, seq<Digest>)
  {
    if n == 0 || n > MAX_BLOCK_SIZE / 60 || |hashes| > n || |bits| < |hashes| then (ZERO, [])
    else
      var w := Extract(hash, n, bits, hashes, TreeHeight(n), 0, 0, 0);
      if bad || w.bad || (w.bitsUsed + 7) / 8 != (|bits| + 7) / 8 || w.hashUsed != |hashes| then (ZERO, w.matches)
      else (w.hash, w.matches)
  }

  // ----- round trip -----

  /** `part` sits in `whole` at `at`. */
  ghost predicate SitsAt<T>(part: seq<T>, whole: seq<T>, at: nat)
  {
    at + |part| <= |whole| && whole[at..at + |part|] == part
  }

  lemma SitsSplit<T>(a: seq<T>, b: seq<T>, whole: seq<T>, at: nat)
    requires SitsAt(a + b, whole, at)
    ensures SitsAt(a, whole, at) && SitsAt(b, whole, at + |a|)
  {
    assert whole[at..at + |a|] == whole[at..at + |a + b|][..|a|];
    assert whole[at + |a|..at + |a| + |b|] == whole[at..at + |a + b|][|a|..];
  }

  /** The encoding of a node sits at the cursors. */
  ghost predicate EncodedAt(hash: Hasher, txids: seq<Digest>, mask: seq<bool>, height: nat, pos: nat,
                            bits: seq<bool>, hashes: seq<Digest>, nb: nat, nh: nat)
    requires |mask| == |txids| && pos < TreeWidth(|txids|, height)
  {
    && SitsAt(Encode(hash, txids, mask, height, pos).bits, bits, nb)
    && SitsAt(Encode(hash, txids, mask, height, pos).hashes, hashes, nh)
  }

  ghost predicate AboveMatch(n: nat, mask: seq<bool>, height: nat, pos: nat)
  {
    AnyMatchIn(mask, FirstLeaf(height, pos), EndLeaf(n, height, pos))
  }

  /** Where a stored hash ends the descent, the decoder reads just that. */
  lemma {:induction false} ExtractStored(hash: Hasher, txids: seq<Digest>, mask: seq<bool>, height: nat, pos: nat,
                                         bits: seq<bool>, hashes: seq<Digest>, nb: nat, nh: nat)
    requires |mask| == |txids| && pos < TreeWidth(|txids|, height)
    requires EncodedAt(hash, txids, mask, height, pos, bits, hashes, nb, nh)
    requires height == 0 || !AboveMatch(|txids|, mask, height, pos)
    ensures EndLeaf(|txids|, height, pos) <= |txids|
    ensures Extract(hash, |txids|, bits, hashes, height, pos, nb, nh)
            == Walk(CalcHash(hash, txids, height, pos), nb + 1, nh + 1,
                    Selected(txids, mask, FirstLeaf(height, pos), EndLeaf(|txids|, height, pos)), false)
  {
    var e := Encode(hash, txids, mask, height, pos);
    LeavesSplit(|txids|, height, pos);
    SelectedEmpty(txids, mask, FirstLeaf(height, pos), EndLeaf(|txids|, height, pos));
    assert bits[nb] == e.bits[0] by { assert bits[nb..nb + 1][0] == bits[nb]; }
    assert hashes[nh] == e.hashes[0] by { assert hashes[nh..nh + 1][0] == hashes[nh]; }
    if height == 0 {
      assert Selected(txids, mask, pos, pos + 1) == if mask[pos] then [txids[pos]] else [];
    }
  }

  /** Where the descent goes on, the children's encodings follow one another after a set bit. */
  lemma {:induction false} EncodedChildren(hash: Hasher, txids: seq<Digest>, mask: seq<bool>, height: nat, pos: nat,
                                           bits: seq<bool>, hashes: seq<Digest>, nb: nat, nh: nat)
    requires |mask| == |txids| && pos < TreeWidth(|txids|, height)
    requires EncodedAt(hash, txids, mask, height, pos, bits, hashes, nb, nh)
    requires height > 0 && AboveMatch(|txids|, mask, height, pos)
    ensures nb < |bits| && bits[nb] && 2 * pos < TreeWidth(|txids|, height - 1)
    ensures EncodedAt(hash, txids, mask, height - 1, 2 * pos, bits, hashes, nb + 1, nh)
    ensures var left := Encode(hash, txids, mask, height - 1, 2 * pos);
            2 * pos + 1 < TreeWidth(|txids|, height - 1) ==>
              EncodedAt(hash, txids, mask, height - 1, 2 * pos + 1, bits, hashes,
                        nb + 1 + |left.bits|, nh + |left.hashes|)
  {
    ChildWidths(|txids|, height, pos);
    var e := Encode(hash, txids, mask, height, pos);
    var left := Encode(hash, txids, mask, height - 1, 2 * pos);
    if 2 * pos + 1 < TreeWidth(|txids|, height - 1) {
      var right := Encode(hash, txids, mask, height - 1, 2 * pos + 1);
      SitsSplit([true] + left.bits, right.bits, bits, nb);
      SitsSplit(left.hashes, right.hashes, hashes, nh);
    }
    SitsSplit([true], left.bits, bits, nb);
    assert bits[nb..nb + 1][0] == bits[nb];
  }

  /** Decoding gives back the node hash and its selected txids, and ends where the encoding ends. */
  ghost predicate Decodes(hash: Hasher, txids: seq<Digest>, mask: seq<bool>, height: nat, pos: nat,
                          bits: seq<bool>, hashes: seq<Digest>, nb: nat, nh: nat)
    requires |mask| == |txids| && pos < TreeWidth(|txids|, height)
  {
    var e := Encode(hash, txids, mask, height, pos);
    && EndLeaf(|txids|, height, pos) <= |txids|
    && Extract(hash, |txids|, bits, hashes, height, pos, nb, nh)
       == Walk(CalcHash(hash, txids, height, pos), nb + |e.bits|, nh + |e.hashes|,
               Selected(txids, mask, FirstLeaf(height, pos), EndLeaf(|txids|, height, pos)), false)
  }

  lemma {:induction false} DecodesFromOne(hash: Hasher, txids: seq<Digest>, mask: seq<bool>, height: nat, pos: nat,
                                          bits: seq<bool>, hashes: seq<Digest>, nb: nat, nh: nat)
    requires |mask| == |txids| && pos < TreeWidth(|txids|, height)
    requires height > 0 && AboveMatch(|txids|, mask, height, pos) && nb < |bits| && bits[nb]
    requires 2 * pos < TreeWidth(|txids|, height - 1) <= 2 * pos + 1
    requires Decodes(hash, txids, mask, height - 1, 2 * pos, bits, hashes, nb + 1, nh)
    ensures Decodes(hash, txids, mask, height, pos, bits, hashes, nb, nh)
  {
    LeavesSplit(|txids|, height, pos);
  }

  lemma {:induction false} DecodesFromTwo(hash: Hasher, txids: seq<Digest>, mask: seq<bool>, height: nat, pos: nat,
                                          bits: seq<bool>, hashes: seq<Digest>, nb: nat, nh: nat, nb1: nat, nh1: nat)
    requires |mask| == |txids| && pos < TreeWidth(|txids|, height)
    requires height > 0 && AboveMatch(|txids|, mask, height, pos) && nb < |bits| && bits[nb]
    requires 2 * pos + 1 < TreeWidth(|txids|, height - 1)
    requires Decodes(hash, txids, mask, height - 1, 2 * pos, bits, hashes, nb + 1, nh)
    requires nb1 == nb + 1 + |Encode(hash, txids, mask, height - 1, 2 * pos).bits|
    requires nh1 == nh + |Encode(hash, txids, mask, height - 1, 2 * pos).hashes|
    requires Decodes(hash, txids, mask, height - 1, 2 * pos + 1, bits, hashes, nb1, nh1)
    ensures Decodes(hash, txids, mask, height, pos, bits, hashes, nb, nh)
  {
    LeavesSplit(|txids|, height, pos);
    SelectedSplit(txids, mask, FirstLeaf(height, pos), EndLeaf(|txids|, height - 1, 2 * pos), EndLeaf(|txids|, height, pos));
  }

  /** Wherever an encoding sits, the decoder reads it back. */
  lemma {:induction false} ExtractEncoded(hash: Hasher, txids: seq<Digest>, mask: seq<bool>, height: nat, pos: nat,
                                          bits: seq<bool>, hashes: seq<Digest>, nb: nat, nh: nat)
    requires |mask| == |txids| && pos < TreeWidth(|txids|, height)
    requires EncodedAt(hash, txids, mask, height, pos, bits, hashes, nb, nh)
    ensures Decodes(hash, txids, mask, height, pos, bits, hashes, nb, nh)
    decreases height, 1
  {
    if height == 0 || !AboveMatch(|txids|, mask, height, pos) {
      ExtractStored(hash, txids, mask, height, pos, bits, hashes, nb, nh);
    } else if 2 * pos + 1 < TreeWidth(|txids|, height - 1) {
      ExtractTwo(hash, txids, mask, height, pos, bits, hashes, nb, nh);
    } else {
      ExtractOne(hash, txids, mask, height, pos, bits, hashes, nb, nh);
    }
  }

  lemma {:induction false} ExtractOne(hash: Hasher, txids: seq<Digest>, mask: seq<bool>, height: nat, pos: nat,
                                      bits: seq<bool>, hashes: seq<Digest>, nb: nat, nh: nat)
    requires |mask| == |txids| && pos < TreeWidth(|txids|, height) && height > 0 && AboveMatch(|txids|, mask, height, pos)
    requires EncodedAt(hash, txids, mask, height, pos, bits, hashes, nb, nh) && TreeWidth(|txids|, height - 1) <= 2 * pos + 1
    ensures Decodes(hash, txids, mask, height, pos, bits, hashes, nb, nh)
    decreases height, 0
  {
    EncodedChildren(hash, txids, mask, height, pos, bits, hashes, nb, nh);
    ExtractEncoded(hash, txids, mask, height - 1, 2 * pos, bits, hashes, nb + 1, nh);
    DecodesFromOne(hash, txids, mask, height, pos, bits, hashes, nb, nh);
  }

  lemma {:induction false} ExtractTwo(hash: Hasher, txids: seq<Digest>, mask: seq<bool>, height: nat, pos: nat,
                                      bits: seq<bool>, hashes: seq<Digest>, nb: nat, nh: nat)
    requires |mask| == |txids| && pos < TreeWidth(|txids|, height) && height > 0 && AboveMatch(|txids|, mask, height, pos)
    requires EncodedAt(hash, txids, mask, height, pos, bits, hashes, nb, nh) && 2 * pos + 1 < TreeWidth(|txids|, height - 1)
    ensures Decodes(hash, txids, mask, height, pos, bits, hashes, nb, nh)
    decreases height, 0
  {
    EncodedChildren(hash, txids, mask, height, pos, bits, hashes, nb, nh);
    ExtractEncoded(hash, txids, mask, height - 1, 2 * pos, bits, hashes, nb + 1, nh);
    var left := Encode(hash, txids, mask, height - 1, 2 * pos);
    var nb1, nh1 := nb + 1 + |left.bits|, nh + |left.hashes|;
    ExtractEncoded(hash, txids, mask, height - 1, 2 * pos + 1, bits, hashes, nb1, nh1);
    DecodesFromTwo(hash, txids, mask, height, pos, bits, hashes, nb, nh, nb1, nh1);
  }

  // ----- sizes -----

  /** An encoding stores at least one hash, at most one per leaf, and at least one bit per hash. */
  lemma {:induction false} HashesWithinLeaves(hash: Hasher, txids: seq<Digest>, mask: seq<bool>, height: nat, pos: nat)
    requires |mask| == |txids| && pos < TreeWidth(|txids|, height)
    ensures var e := Encode(hash, txids, mask, height, pos);
            1 <= |e.hashes| <= EndLeaf(|txids|, height, pos) - FirstLeaf(height, pos) && |e.hashes| <= |e.bits|
    decreases height
  {
    LeavesSplit(|txids|, height, pos);
    if height > 0 {
      ChildWidths(|txids|, height, pos);
      HashesWithinLeaves(hash, txids, mask, height - 1, 2 * pos);
      if 2 * pos + 1 < TreeWidth(|txids|, height - 1) {
        HashesWithinLeaves(hash, txids, mask, height - 1, 2 * pos + 1);
      }
    }
  }

  /** The documented bound by matches and height: one hash, plus at most one per match and level. */
  lemma {:induction false} HashesByMatches(hash: Hasher, txids: seq<Digest>, mask: seq<bool>, height: nat, pos: nat)
    requires |mask| == |txids| && pos < TreeWidth(|txids|, height)
    ensures EndLeaf(|txids|, height, pos) <= |txids|
    ensures var m := |Selected(txids, mask, FirstLeaf(height, pos), EndLeaf(|txids|, height, pos))|;
            |Encode(hash, txids, mask, height, pos).hashes| <= 1 + m * height
    decreases height
  {
    var n := |txids|;
    var lo, hi := FirstLeaf(height, pos), EndLeaf(n, height, pos);
    LeavesSplit(n, height, pos);
    SelectedEmpty(txids, mask, lo, hi);
    if height > 0 && AnyMatchIn(mask, lo, hi) {
      ChildWidths(n, height, pos);
      HashesByMatches(hash, txids, mask, height - 1, 2 * pos);
      var m := |Selected(txids, mask, lo, hi)|;
      if 2 * pos + 1 < TreeWidth(n, height - 1) {
        HashesByMatches(hash, txids, mask, height - 1, 2 * pos + 1);
        var mid := EndLeaf(n, height - 1, 2 * pos);
        SelectedSplit(txids, mask, lo, mid, hi);
        var a, b := |Selected(txids, mask, lo, mid)|, |Selected(txids, mask, mid, hi)|;
        MatchBudget(a, b, height - 1);
      } else {
        assert m * height == m * (height - 1) + m;
      }
    }
  }

  lemma MatchBudget(a: nat, b: nat, height: nat)
    requires a + b >= 1
    ensures (1 + a * height) + (1 + b * height) <= 1 + (a + b) * (height + 1)
  {
    assert (a + b) * (height + 1) == a * height + b * height + a + b;
  }

  /** Number of levels whose last node has no sibling and lies above a match: nodes with a single child. */
  ghost function LoneChildren(n: nat, mask: seq<bool>, height: nat): nat
  {
    if height == 0 then 0
    else LoneChildren(n, mask, height - 1) + if LoneChild(n, mask, height - 1) then 1 else 0
  }

  ghost predicate LoneChild(n: nat, mask: seq<bool>, level: nat)
  {
    TreeWidth(n, level) % 2 == 1 && AnyMatchIn(mask, FirstLeaf(level, TreeWidth(n, level) - 1), n)
  }

  lemma {:induction false} NoMatchNoLoneChild(n: nat, mask: seq<bool>, height: nat)
    requires n > 0 && TreeWidth(n, height) > 0
    requires !AnyMatchIn(mask, FirstLeaf(height, TreeWidth(n, height) - 1), n)
    ensures LoneChildren(n, mask, height) == 0
  {
    if height > 0 {
      var w := TreeWidth(n, height - 1);
      WidthPositive(n, height - 1);
      assert 2 * (TreeWidth(n, height) - 1) <= w - 1;
      if 2 * (TreeWidth(n, height) - 1) < w - 1 {
        ShlStrict(2 * (TreeWidth(n, height) - 1), w - 1, height - 1);
      }
      NoMatchNoLoneChild(n, mask, height - 1);
    }
  }

  /** Lone children among the nodes below one node: only the last node of a level has any. */
  ghost function LoneBelow(n: nat, mask: seq<bool>, height: nat, pos: nat): nat
  {
    if pos == TreeWidth(n, height) - 1 then LoneChildren(n, mask, height) else 0
  }

  lemma {:induction false} LoneBelowChildren(n: nat, mask: seq<bool>, height: nat, pos: nat)
    requires height > 0 && pos < TreeWidth(n, height) && AboveMatch(n, mask, height, pos)
    ensures LoneBelow(n, mask, height, pos)
            == if 2 * pos + 1 < TreeWidth(n, height - 1)
               then LoneBelow(n, mask, height - 1, 2 * pos) + LoneBelow(n, mask, height - 1, 2 * pos + 1)
               else LoneBelow(n, mask, height - 1, 2 * pos) + 1
  {
    ChildWidths(n, height, pos);
    LeavesSplit(n, height, pos);
    NodeHasLeaf(n, height, pos + 1);
  }

  lemma {:induction false} NoLoneBelow(n: nat, mask: seq<bool>, height: nat, pos: nat)
    requires pos < TreeWidth(n, height) && (height == 0 || !AboveMatch(n, mask, height, pos))
    ensures LoneBelow(n, mask, height, pos) == 0
  {
    NodeHasLeaf(n, height, pos);
    NodeHasLeaf(n, height, pos + 1);
    if height > 0 && pos == TreeWidth(n, height) - 1 {
      NoMatchNoLoneChild(n, mask, height);
    }
  }

  /** Exact number of flag bits: a full binary tree has 2N - 1 nodes, and each lone child adds one. */
  lemma {:induction false} BitCount(hash: Hasher, txids: seq<Digest>, mask: seq<bool>, height: nat, pos: nat)
    requires |mask| == |txids| && pos < TreeWidth(|txids|, height)
    ensures var e := Encode(hash, txids, mask, height, pos);
            |e.bits| == 2 * |e.hashes| - 1 + LoneBelow(|txids|, mask, height, pos)
    decreases height
  {
    if height > 0 && AboveMatch(|txids|, mask, height, pos) {
      ChildWidths(|txids|, height, pos);
      LoneBelowChildren(|txids|, mask, height, pos);
      BitCount(hash, txids, mask, height - 1, 2 * pos);
      if 2 * pos + 1 < TreeWidth(|txids|, height - 1) {
        BitCount(hash, txids, mask, height - 1, 2 * pos + 1);
      }
    } else {
      NoLoneBelow(|txids|, mask, height, pos);
    }
  }
}
