/** The Merkle root row by row: neighbours are hashed together, a last one without a neighbour with itself, until one is left. */
module MerkleRows {
  import opened Hashing
  import opened Merkle

  /** The row above a row. */
  ghost function Paired(hash: Hasher, row: seq<Digest>): (r: seq<Digest>)
    ensures |r| == (|row| + 1) / 2
    ensures forall i :: 0 <= i < |r| ==> r[i] == hash(row[2 * i], if 2 * i + 1 < |row| then row[2 * i + 1] else row[2 * i])
  {
    seq((|row| + 1) / 2, i requires 0 <= i < (|row| + 1) / 2 =>
      hash(row[2 * i], if 2 * i + 1 < |row| then row[2 * i + 1] else row[2 * i]))
  }

  ghost function RowRoot(hash: Hasher, row: seq<Digest>): Digest
    requires |row| > 0
    decreases |row|
  {
    if |row| == 1 then row[0] else RowRoot(hash, Paired(hash, row))
  }

  lemma {:induction false} WidthOfRow(n: nat, height: nat)
    ensures TreeWidth((n + 1) / 2, height) == TreeWidth(n, height + 1)
  {
    if height > 0 {
      WidthOfRow(n, height - 1);
    }
  }

  lemma {:induction false} HeightOfRow(n: nat)
    requires n >= 2
    ensures TreeHeight(n) == TreeHeight((n + 1) / 2) + 1
  {
    var h, k := TreeHeight(n), TreeHeight((n + 1) / 2);
    assert TreeWidth(n, 0) > 1;
    WidthOfRow(n, k);
    WidthOfRow(n, h - 1);
  }

  lemma FirstRow(hash: Hasher, row: seq<Digest>, pos: nat)
    requires pos < TreeWidth(|row|, 1)
    ensures pos < |Paired(hash, row)| && Paired(hash, row)[pos] == CalcHash(hash, row, 1, pos)
  {
    ChildWidths(|row|, 1, pos);
    assert TreeWidth(|row|, 0) == |row|;
    assert CalcHash(hash, row, 0, 2 * pos) == row[2 * pos];
    if 2 * pos + 1 < |row| {
      assert CalcHash(hash, row, 0, 2 * pos + 1) == row[2 * pos + 1];
    }
  }

  /** A node is the same node in the tree of the row above. */
  lemma {:induction false} NodeOfRow(hash: Hasher, row: seq<Digest>, height: nat, pos: nat)
    requires pos < TreeWidth(|row|, height + 1)
    ensures pos < TreeWidth(|Paired(hash, row)|, height)
    ensures CalcHash(hash, Paired(hash, row), height, pos) == CalcHash(hash, row, height + 1, pos)
    decreases height
  {
    WidthOfRow(|row|, height);
    if height == 0 {
      FirstRow(hash, row, pos);
    } else {
      WidthOfRow(|row|, height - 1);
      ChildWidths(|row|, height + 1, pos);
      NodeOfRow(hash, row, height - 1, 2 * pos);
      if 2 * pos + 1 < TreeWidth(|row|, height) {
        NodeOfRow(hash, row, height - 1, 2 * pos + 1);
      }
    }
  }

  /** The recursive root is the one that hashing row by row gives. */
  lemma {:induction false} RootByRows(hash: Hasher, txids: seq<Digest>)
    requires |txids| > 0
    ensures MerkleRoot(hash, txids) == RowRoot(hash, txids)
    decreases |txids|
  {
    if |txids| > 1 {
      var above := Paired(hash, txids);
      RootByRows(hash, above);
      HeightOfRow(|txids|);
      RootLevel(|txids|);
      NodeOfRow(hash, txids, TreeHeight(|above|), 0);
    }
  }

  /** A row with an odd number of at least three has the root that it has with its last one repeated. */
  lemma {:induction false} OddRow(hash: Hasher, txids: seq<Digest>)
    requires |txids| >= 3 && |txids| % 2 == 1
    ensures MerkleRoot(hash, txids) == MerkleRoot(hash, txids + [txids[|txids| - 1]])
  {
    RootByRows(hash, txids);
    RootByRows(hash, txids + [txids[|txids| - 1]]);
    PairedOdd(hash, txids);
  }

  lemma {:induction false} PairedOdd(hash: Hasher, row: seq<Digest>)
    requires |row| % 2 == 1
    ensures Paired(hash, row + [row[|row| - 1]]) == Paired(hash, row)
  {
    var k := |row| / 2;
    var more := row + [row[2 * k]];
    forall i | 0 <= i <= k
      ensures Paired(hash, more)[i] == Paired(hash, row)[i]
    {
      assert more[2 * i] == row[2 * i] && (i < k ==> more[2 * i + 1] == row[2 * i + 1]) && (i == k ==> more[2 * i + 1] == row[2 * k]);
    }
  }
}
