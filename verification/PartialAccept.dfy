/**
 What the decoder of partial trees refuses: leftover hashes, leftover bytes of flag bits, and sizes
 that no block has. For given flag bits one number of hashes is right.
 */
module PartialAccept {
  import opened Hashing
  import opened Merkle
  import opened PartialMerkle

  /** The decoder gives a root. */
  ghost predicate Accepts(hash: Hasher, n: nat, bits: seq<bool>, hashes: seq<Digest>, bad: bool)
  {
    ExtractBlock(hash, n, bits, hashes, bad).0 != ZERO
  }

  /** A traversal that ends well reads the same when more bits and hashes follow. */
  lemma {:induction false} ExtractMore(hash: Hasher, n: nat, bits: seq<bool>, hashes: seq<Digest>, height: nat, pos: nat,
                                       nb: nat, nh: nat, bits': seq<bool>, hashes': seq<Digest>)
    requires bits <= bits' && hashes <= hashes'
    requires !Extract(hash, n, bits, hashes, height, pos, nb, nh).bad
    ensures Extract(hash, n, bits', hashes', height, pos, nb, nh) == Extract(hash, n, bits, hashes, height, pos, nb, nh)
    decreases height
  {
    if height > 0 && bits[nb] {
      var left := Extract(hash, n, bits, hashes, height - 1, 2 * pos, nb + 1, nh);
      ExtractMore(hash, n, bits, hashes, height - 1, 2 * pos, nb + 1, nh, bits', hashes');
      if 2 * pos + 1 < TreeWidth(n, height - 1) {
        ExtractMore(hash, n, bits, hashes, height - 1, 2 * pos + 1, left.bitsUsed, left.hashUsed, bits', hashes');
      }
    }
  }

  /** How far a traversal that ends well reads does not depend on the hashes. */
  lemma {:induction false} SameCursors(hash: Hasher, n: nat, bits: seq<bool>, hashes: seq<Digest>, other: seq<Digest>,
                                       height: nat, pos: nat, nb: nat, nh: nat)
    requires !Extract(hash, n, bits, hashes, height, pos, nb, nh).bad && !Extract(hash, n, bits, other, height, pos, nb, nh).bad
    ensures var w, v := Extract(hash, n, bits, hashes, height, pos, nb, nh), Extract(hash, n, bits, other, height, pos, nb, nh);
            w.bitsUsed == v.bitsUsed && w.hashUsed == v.hashUsed
    decreases height
  {
    if height > 0 && bits[nb] {
      var left := Extract(hash, n, bits, hashes, height - 1, 2 * pos, nb + 1, nh);
      SameCursors(hash, n, bits, hashes, other, height - 1, 2 * pos, nb + 1, nh);
      if 2 * pos + 1 < TreeWidth(n, height - 1) {
        SameCursors(hash, n, bits, hashes, other, height - 1, 2 * pos + 1, left.bitsUsed, left.hashUsed);
      }
    }
  }

  /** Sizes of what is accepted: one hash per transaction at most, a bit for each hash, and no more transactions than fit a block. */
  lemma AcceptedSizes(hash: Hasher, n: nat, bits: seq<bool>, hashes: seq<Digest>, bad: bool)
    requires Accepts(hash, n, bits, hashes, bad)
    ensures !bad && 1 <= n <= 833 && |hashes| <= n && |hashes| <= |bits|
  {
  }

  /** Every hash must be needed: with any further ones the tree is refused, and nothing else is reported. */
  lemma {:induction false} LeftoverHashes(hash: Hasher, n: nat, bits: seq<bool>, hashes: seq<Digest>, bad: bool, more: seq<Digest>)
    requires Accepts(hash, n, bits, hashes, bad) && more != []
    ensures !Accepts(hash, n, bits, hashes + more, bad)
    ensures |hashes + more| <= n && |hashes + more| <= |bits| ==>
              ExtractBlock(hash, n, bits, hashes + more, bad).1 == ExtractBlock(hash, n, bits, hashes, bad).1
  {
    ExtractMore(hash, n, bits, hashes, TreeHeight(n), 0, 0, 0, bits, hashes + more);
  }

  /** Further bits make no difference within the last byte, and beyond it the tree is refused. */
  lemma {:induction false} LeftoverBits(hash: Hasher, n: nat, bits: seq<bool>, hashes: seq<Digest>, bad: bool, more: seq<bool>)
    requires Accepts(hash, n, bits, hashes, bad)
    ensures var r := ExtractBlock(hash, n, bits, hashes, bad);
            ExtractBlock(hash, n, bits + more, hashes, bad) ==
            (if (|bits| + |more| + 7) / 8 == (|bits| + 7) / 8 then r.0 else ZERO, r.1)
    ensures |more| >= 8 ==> !Accepts(hash, n, bits + more, hashes, bad)
  {
    ExtractMore(hash, n, bits, hashes, TreeHeight(n), 0, 0, 0, bits + more, hashes);
  }

  /** For given flag bits one number of hashes is accepted at most. */
  lemma {:induction false} OneLength(hash: Hasher, n: nat, bits: seq<bool>, hashes: seq<Digest>, other: seq<Digest>, bad: bool)
    requires Accepts(hash, n, bits, hashes, bad) && Accepts(hash, n, bits, other, bad)
    ensures |hashes| == |other|
  {
    SameCursors(hash, n, bits, hashes, other, TreeHeight(n), 0, 0, 0);
  }
}
