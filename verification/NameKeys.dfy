/**
 Who may replace the key of a name, and who may sign a spam message, said of the transactions
 themselves: a later registration repeats the one before it or carries a key that the key before it
 has signed.
 */
module NameKeys {
  import opened Wrappers
  import opened UsernameIndex
  import opened NameVerdicts

  /** The j-th transaction of the block at height h registers the name. */
  predicate NamedAt(chain: seq<Block>, user: string, h: int, j: int)
  {
    1 <= h < |chain| && 1 <= j < |chain[h].vtx| && chain[h].vtx[j].userName == user
  }

  /** It does so last below a height. */
  ghost predicate LastBelow(chain: seq<Block>, user: string, top: int, h: int, j: int)
  {
    && h < top && NamedAt(chain, user, h, j)
    && forall h', j' {:trigger NamedAt(chain, user, h', j')} :: h < h' < top ==> !NamedAt(chain, user, h', j')
  }

  /** The first push of a transaction is its key. */
  predicate HasKey(tx: Tx, key: string)
  {
    tx.pushes.Some? && |tx.pushes.value| >= 1 && tx.pushes.value[0] == key
  }

  /** The first push is a key, and the second one a signature on it that only the holder of another key could make. */
  predicate SignedWith(c: Crypto, tx: Tx, key: string)
  {
    tx.pushes.Some? && |tx.pushes.value| >= 2 && c.recover(tx.pushes.value[0], tx.pushes.value[1]) == Some(c.keyId(key))
  }

  /** The later transaction is the earlier one again, or its key is signed with the earlier key. */
  ghost predicate Authorised(c: Crypto, tx: Tx, earlier: Tx)
  {
    c.txHash(tx) == c.txHash(earlier) || exists key :: HasKey(earlier, key) && SignedWith(c, tx, key)
  }

  /** A registration on top of a chain answers to the last one of its name. */
  ghost predicate Allowed(c: Crypto, chain: seq<Block>, tx: Tx)
  {
    forall h, j {:trigger NamedAt(chain, tx.userName, h, j)} ::
      LastBelow(chain, tx.userName, |chain|, h, j) ==> Authorised(c, tx, chain[h].vtx[j])
  }

  /** From each registration of a name to the next the key is handed on. */
  ghost predicate Custody(c: Crypto, chain: seq<Block>)
  {
    forall user, h, j, h', j' {:trigger NamedAt(chain, user, h, j), NamedAt(chain, user, h', j')} ::
      NamedAt(chain, user, h', j') && LastBelow(chain, user, h', h, j) ==> Authorised(c, chain[h'].vtx[j'], chain[h].vtx[j])
  }

  // ----- scanning finds the last registration -----

  lemma {:induction false} LastIsScanned(chain: seq<Block>, user: string, top: int, h: int, j: int)
    requires ChainOk(chain) && top <= |chain| && LastBelow(chain, user, top, h, j)
    ensures ScanPos(chain, user, top - 1) == Some(Pos(chain[h], j))
  {
    assert Registers(chain[h], user);
    var r := Scan(chain, user, top - 1).value;
    if r > h {
      var j' :| 1 <= j' < |chain[r].vtx| && chain[r].vtx[j'].userName == user;
      assert NamedAt(chain, user, r, j');
    }
    SamePos(Pos(chain[h], j), user);
  }

  lemma {:induction false} ScannedIsLast(chain: seq<Block>, user: string, top: int) returns (h: int, j: int)
    requires ChainOk(chain) && top <= |chain| && ScanPos(chain, user, top - 1).Some?
    ensures LastBelow(chain, user, top, h, j) && ScanPos(chain, user, top - 1) == Some(Pos(chain[h], j))
  {
    h := Scan(chain, user, top - 1).value;
    j := PosIn(chain[h], user).i;
    forall h', j' | h < h' < top
      ensures !NamedAt(chain, user, h', j')
    {
      if NamedAt(chain, user, h', j') {
        assert Registers(chain[h'], user);
      }
    }
  }

  lemma SignedByIff(c: Crypto, tx: Tx, earlier: Tx)
    ensures SignedBy(c, tx, earlier) <==> exists key :: HasKey(earlier, key) && SignedWith(c, tx, key)
  {
    if SignedBy(c, tx, earlier) {
      assert HasKey(earlier, earlier.pushes.value[0]);
    }
  }

  lemma AuthorisedIff(c: Crypto, tx: Tx, earlier: Tx)
    ensures Authorised(c, tx, earlier) <==> Succeeds(c, tx, earlier)
  {
    SignedByIff(c, tx, earlier);
  }

  lemma {:induction false} AllowedIff(c: Crypto, chain: seq<Block>, tx: Tx)
    requires ChainOk(chain)
    ensures Permitted(c, chain, tx) <==> Allowed(c, chain, tx)
  {
    if Permitted(c, chain, tx) {
      forall h, j | LastBelow(chain, tx.userName, |chain|, h, j)
        ensures Authorised(c, tx, chain[h].vtx[j])
      {
        LastIsScanned(chain, tx.userName, |chain|, h, j);
        AuthorisedIff(c, tx, chain[h].vtx[j]);
      }
    }
    if Allowed(c, chain, tx) && ScanPos(chain, tx.userName, |chain| - 1).Some? {
      var h, j := ScannedIsLast(chain, tx.userName, |chain|);
      AuthorisedIff(c, tx, chain[h].vtx[j]);
    }
  }

  lemma {:induction false} CustodyIff(c: Crypto, chain: seq<Block>)
    requires ChainOk(chain)
    ensures AllLegitimate(c, chain) <==> Custody(c, chain)
  {
    if AllLegitimate(c, chain) {
      forall user, h, j, h', j' | NamedAt(chain, user, h', j') && LastBelow(chain, user, h', h, j)
        ensures Authorised(c, chain[h'].vtx[j'], chain[h].vtx[j])
      {
        LastIsScanned(chain, user, h', h, j);
        AuthorisedIff(c, chain[h'].vtx[j'], chain[h].vtx[j]);
        assert Legitimate(c, chain, h', j');
      }
    }
    if Custody(c, chain) {
      forall h', j' | 1 <= h' < |chain| && 1 <= j' < |chain[h'].vtx|
        ensures Legitimate(c, chain, h', j')
      {
        CustodyLegitimate(c, chain, h', j');
      }
    }
  }

  lemma {:induction false} CustodyLegitimate(c: Crypto, chain: seq<Block>, h': nat, j': nat)
    requires ChainOk(chain) && Custody(c, chain) && 1 <= h' < |chain| && 1 <= j' < |chain[h'].vtx|
    ensures Legitimate(c, chain, h', j')
  {
    var user := chain[h'].vtx[j'].userName;
    if ScanPos(chain, user, h' - 1).Some? {
      var h, j := ScannedIsLast(chain, user, h');
      assert NamedAt(chain, user, h', j') && NamedAt(chain, user, h, j);
      AuthorisedIff(c, chain[h'].vtx[j'], chain[h].vtx[j]);
    }
  }

  // ----- nobody takes a name over -----

  /** Different transactions have different hashes. */
  ghost predicate HashesDiffer(c: Crypto)
  {
    forall a, b {:trigger c.txHash(a), c.txHash(b)} :: c.txHash(a) == c.txHash(b) ==> a == b
  }

  /** Nobody signs with the key. */
  ghost predicate NeverSigns(c: Crypto, key: string)
  {
    forall a, b :: c.recover(a, b) != Some(c.keyId(key))
  }

  /** The name stays with the transaction that registered it with this key. */
  ghost predicate Stays(chain: seq<Block>, user: string, h: int, j: int)
    requires NamedAt(chain, user, h, j)
  {
    forall h', j' :: h < h' && NamedAt(chain, user, h', j') ==> chain[h'].vtx[j'] == chain[h].vtx[j]
  }

  /** While keys are handed on, a name whose key never signs is never registered by another transaction. */
  lemma {:induction false} NoTakeover(c: Crypto, chain: seq<Block>, user: string, h: int, j: int, key: string)
    requires ChainOk(chain) && Custody(c, chain) && HashesDiffer(c)
    requires NamedAt(chain, user, h, j) && HasKey(chain[h].vtx[j], key) && NeverSigns(c, key)
    ensures Stays(chain, user, h, j)
  {
    forall h', j' | h < h' && NamedAt(chain, user, h', j')
      ensures chain[h'].vtx[j'] == chain[h].vtx[j]
    {
      SameAt(c, chain, user, h, j, key, h', j');
    }
  }

  lemma {:induction false} SameAt(c: Crypto, chain: seq<Block>, user: string, h: int, j: int, key: string, h': int, j': int)
    requires ChainOk(chain) && Custody(c, chain) && HashesDiffer(c)
    requires NamedAt(chain, user, h, j) && HasKey(chain[h].vtx[j], key) && NeverSigns(c, key)
    requires h < h' && NamedAt(chain, user, h', j')
    ensures chain[h'].vtx[j'] == chain[h].vtx[j]
    decreases h'
  {
    assert Registers(chain[h], user);
    var k, i := ScannedIsLast(chain, user, h');
    if k > h {
      SameAt(c, chain, user, h, j, key, k, i);
    } else {
      SamePos(Pos(chain[h], j), user);
    }
    assert NamedAt(chain, user, k, i) && Authorised(c, chain[h'].vtx[j'], chain[k].vtx[i]);
  }

  // ----- spam messages -----

  /** The message of a block on top of a chain is nobody's, or signed with the key that its user registered last. */
  ghost predicate MessageSigned(c: Crypto, chain: seq<Block>, top: int, tx: Tx)
  {
    tx.userName == "nobody" ||
    exists h, j, key {:trigger NamedAt(chain, tx.userName, h, j), c.keyId(key)} ::
      LastBelow(chain, tx.userName, top, h, j) && HasKey(chain[h].vtx[j], key) && c.spamKey(tx) == Some(c.keyId(key))
  }

  ghost predicate MessagesSigned(c: Crypto, chain: seq<Block>)
  {
    forall h :: 1 <= h < |chain| && chain[h].vtx != [] ==> MessageSigned(c, chain, h, chain[h].vtx[0])
  }

  lemma {:induction false} MessageIff(c: Crypto, chain: seq<Block>, top: int, tx: Tx)
    requires ChainOk(chain) && top <= |chain|
    ensures SpamOk(c, tx, ScanPos(chain, tx.userName, top - 1)) <==> MessageSigned(c, chain, top, tx)
  {
    var found := ScanPos(chain, tx.userName, top - 1);
    if SpamOk(c, tx, found) && tx.userName != NOBODY {
      var h, j := ScannedIsLast(chain, tx.userName, top);
      var key := chain[h].vtx[j].pushes.value[0];
      assert NamedAt(chain, tx.userName, h, j) && HasKey(chain[h].vtx[j], key) && c.spamKey(tx) == Some(c.keyId(key));
    }
    if MessageSigned(c, chain, top, tx) && tx.userName != NOBODY {
      var h, j, key :| LastBelow(chain, tx.userName, top, h, j) && HasKey(chain[h].vtx[j], key) &&
                       c.spamKey(tx) == Some(c.keyId(key));
      LastIsScanned(chain, tx.userName, top, h, j);
    }
  }

  lemma {:induction false} LastBelowMore(chain: seq<Block>, b: Block, user: string, top: int, h: int, j: int)
    requires top <= |chain|
    ensures LastBelow(chain + [b], user, top, h, j) <==> LastBelow(chain, user, top, h, j)
  {
    forall h', j' | h' < |chain|
      ensures NamedAt(chain + [b], user, h', j') <==> NamedAt(chain, user, h', j')
    {
    }
    if LastBelow(chain + [b], user, top, h, j) {
      forall h', j' | h < h' < top
        ensures !NamedAt(chain, user, h', j')
      {
        assert !NamedAt(chain + [b], user, h', j');
      }
    }
  }

  lemma {:induction false} MessageMore(c: Crypto, chain: seq<Block>, b: Block, top: int, tx: Tx)
    requires 0 <= top <= |chain| && MessageSigned(c, chain, top, tx)
    ensures MessageSigned(c, chain + [b], top, tx)
  {
    if tx.userName != NOBODY {
      var h, j, key :| LastBelow(chain, tx.userName, top, h, j) && HasKey(chain[h].vtx[j], key) &&
                       c.spamKey(tx) == Some(c.keyId(key));
      LastBelowMore(chain, b, tx.userName, top, h, j);
      assert NamedAt(chain + [b], tx.userName, h, j) && HasKey((chain + [b])[h].vtx[j], key) && c.keyId(key) == c.keyId(key);
    }
  }

  /** Messages stay signed when a block with a signed message goes on top. */
  lemma {:induction false} MessagesMore(c: Crypto, chain: seq<Block>, b: Block)
    requires MessagesSigned(c, chain) && b.vtx != [] && MessageSigned(c, chain, |chain|, b.vtx[0])
    ensures MessagesSigned(c, chain + [b])
  {
    var more := chain + [b];
    forall h | 1 <= h < |more| && more[h].vtx != []
      ensures MessageSigned(c, more, h, more[h].vtx[0])
    {
      if h < |chain| {
        assert more[h] == chain[h];
        MessageMore(c, chain, b, h, chain[h].vtx[0]);
      } else {
        MessageMore(c, chain, b, h, b.vtx[0]);
      }
    }
  }

  // ----- blocks on top of the tip -----

  /** One signed message, then registrations of different names, each of them allowed on top of the chain. */
  ghost predicate BlockAllowed(c: Crypto, chain: seq<Block>, b: Block)
  {
    && |b.vtx| > 0 && b.vtx[0].spam && MessageSigned(c, chain, |chain|, b.vtx[0])
    && (forall i :: 1 <= i < |b.vtx| ==> !b.vtx[i].spam)
    && (forall i, j :: 1 <= i < j < |b.vtx| ==> b.vtx[i].userName != b.vtx[j].userName)
    && forall i :: 1 <= i < |b.vtx| ==> Allowed(c, chain, b.vtx[i])
  }

  /** No name with a key that never signs changes hands. */
  ghost predicate NothingTaken(c: Crypto, chain: seq<Block>)
  {
    forall user, h, j, key {:trigger NamedAt(chain, user, h, j), NeverSigns(c, key)} ::
      NamedAt(chain, user, h, j) && HasKey(chain[h].vtx[j], key) && NeverSigns(c, key) ==> Stays(chain, user, h, j)
  }

  lemma {:induction false} CustodyKeeps(c: Crypto, chain: seq<Block>)
    requires ChainOk(chain) && Custody(c, chain) && HashesDiffer(c)
    ensures NothingTaken(c, chain)
  {
    forall user, h, j, key | NamedAt(chain, user, h, j) && HasKey(chain[h].vtx[j], key) && NeverSigns(c, key)
      ensures Stays(chain, user, h, j)
    {
      NoTakeover(c, chain, user, h, j, key);
    }
  }
}
