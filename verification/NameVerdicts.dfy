/**
 Which registrations a switch of the tip lets through, judged against the branch it leaves, and
 when the names on the new branch then have legitimate histories.
 */
module NameVerdicts {
  import opened Wrappers
  import opened UsernameIndex
  import opened NameRuns
  import opened NameSwitch

  // ----- legitimate histories -----

  /** Hashing and key recovery, as functions of what they are applied to; `spamKey` is the key that signed a spam message. */
  datatype Crypto = Crypto(txHash: Tx -> nat, recover: (string, string) -> Option<nat>, keyId: string -> nat,
                           spamKey: Tx -> Option<nat>)

  /** The new transaction carries its new key signed with the key of the old one. */
  predicate SignedBy(c: Crypto, tx: Tx, oldTx: Tx)
  {
    && tx.pushes.Some? && |tx.pushes.value| >= 2
    && var recovered := c.recover(tx.pushes.value[0], tx.pushes.value[1]);
       && recovered.Some? && oldTx.pushes.Some? && |oldTx.pushes.value| >= 1
       && recovered.value == c.keyId(oldTx.pushes.value[0])
  }

  predicate Succeeds(c: Crypto, tx: Tx, oldTx: Tx)
  {
    c.txHash(oldTx) == c.txHash(tx) || SignedBy(c, tx, oldTx)
  }

  function TxAt(p: Pos): (tx: Tx)
    requires p.i < |p.block.vtx|
  {
    p.block.vtx[p.i]
  }

  predicate SucceedsAt(c: Crypto, tx: Tx, p: Pos)
  {
    p.i < |p.block.vtx| && Succeeds(c, tx, TxAt(p))
  }

  /** A registration at height h is the user's first, or a legitimate successor of the one before it. */
  ghost predicate Legitimate(c: Crypto, chain: seq<Block>, h: nat, i: nat)
    requires ChainOk(chain) && 1 <= h < |chain| && 1 <= i < |chain[h].vtx|
  {
    var tx := chain[h].vtx[i];
    var before := ScanPos(chain, tx.userName, h - 1);
    before.Some? ==> Succeeds(c, tx, TxAt(before.value))
  }

  ghost predicate AllLegitimate(c: Crypto, chain: seq<Block>)
    requires ChainOk(chain)
  {
    forall h, i {:trigger Legitimate(c, chain, h, i)} ::
      1 <= h < |chain| && 1 <= i < |chain[h].vtx| ==> Legitimate(c, chain, h, i)
  }

  // ----- lookups during a switch -----

  /** A lookup depends only on the entries of its name. */
  lemma {:induction false} WalkSame(index: Index, index': Index, chain: seq<Block>, user: string, key: int, m: int, rounds: nat)
    requires forall k :: k >= 0 || k == key ==> Get(index', user, k) == Get(index, user, k)
    ensures Walk(index', chain, user, key, m, rounds) == Walk(index, chain, user, key, m, rounds)
    decreases rounds
  {
    if rounds > 0 {
      assert Get(index', user, key) == Get(index, user, key);
      var f := Fetch(index, chain, user, key);
      if f.Some? && f.value.block.nHeight - 1 > 0 {
        WalkSame(index, index', chain, user, f.value.block.nHeight - 1, m, rounds - 1);
      }
    }
  }

  /** Every lookup made during a switch ends: a name of the new branch is not found, others as the old branch has them. */
  lemma {:induction false} WalkMidway(index: Index, chain: seq<Block>, keep: nat, vConnect: seq<Block>, k: nat, index': Index,
                                      user: string, m: nat)
    requires Switch(chain, keep, vConnect) && k <= |vConnect| && Linked(index, chain, user)
    requires Midway(index, chain, keep, vConnect, k, index', user) && (m >= 1 || m == |chain| - 1)
    ensures Walk(index', chain, user, -1, m, |chain| + 2) ==
            Some(if InBranch(vConnect, k, user) then None else Consulted(index, chain, keep, user, m))
  {
    if InBranch(vConnect, k, user) {
      assert Fetch(index', chain, user, -1).None?;
    } else {
      WalkRolled(index, chain, keep, index', user, m);
    }
  }

  /** A lookup with only the latest entry changed by disconnecting. */
  lemma {:induction false} WalkRolled(index: Index, chain: seq<Block>, keep: nat, index': Index, user: string, m: nat)
    requires 1 <= keep <= |chain| && Linked(index, chain, user) && EntriesOk(index', user)
    requires RolledTo(index, chain, keep, index', user) && (m >= 1 || m == |chain| - 1)
    ensures Walk(index', chain, user, -1, m, |chain| + 2) == Some(Consulted(index, chain, keep, user, m))
  {
    var p := FetchedLatest(index, chain, keep, user);
    assert Get(index', user, -1) == Rolled(index, chain, keep, user);
    assert Fetch(index', chain, user, -1) == p;
    if p.Some? && p.value.block.nHeight > m {
      SamePos(p.value, user);
      WalkBelow(index, chain, index', user, p.value.block.nHeight, m);
      WalkOn(index', chain, user, -1, m, |chain| + 2, p.value);
    }
  }

  lemma {:induction false} WalkBelow(index: Index, chain: seq<Block>, index': Index, user: string, h: nat, m: nat)
    requires Linked(index, chain, user) && forall key :: key >= 0 ==> Get(index', user, key) == Get(index, user, key)
    requires 2 <= h < |chain| && Registers(chain[h], user) && m < h
    ensures Walk(index', chain, user, h - 1, m, |chain| + 1) == Some(ScanPos(chain, user, m))
  {
    assert LinkedBelow(index, chain, user, h);
    WalkFaithful(index, chain, user, h - 1, h - 1, m, |chain| + 1);
    WalkSame(index, index', chain, user, h - 1, m, |chain| + 1);
  }

  // ----- verdicts -----

  /** The i-th transaction of the k-th new block is refused. */
  ghost predicate Refuses(c: Crypto, index: Index, chain: seq<Block>, keep: nat, vConnect: seq<Block>, k: nat, i: nat)
    requires Switch(chain, keep, vConnect) && k < |vConnect| && 1 <= i < |vConnect[k].vtx|
  {
    var tx := vConnect[k].vtx[i];
    var found := Consulted(index, chain, keep, tx.userName, keep + k);
    !InBranch(vConnect, k, tx.userName) && found.Some? && !SucceedsAt(c, tx, found.value)
  }

  const NOBODY := "nobody"   // whose messages need no signature

  /** A spam message is anonymous, or signed with the key that the registration found has. */
  predicate SpamOk(c: Crypto, tx: Tx, found: Option<Pos>)
  {
    tx.userName == NOBODY ||
    (&& found.Some? && found.value.i < |found.value.block.vtx|
     && var pushes := TxAt(found.value).pushes;
        pushes.Some? && |pushes.value| >= 1 && c.spamKey(tx) == Some(c.keyId(pushes.value[0])))
  }

  /** The spam message of the k-th new block is accepted, as the old branch knows its signer. */
  ghost predicate SpamPasses(c: Crypto, index: Index, chain: seq<Block>, keep: nat, vConnect: seq<Block>, k: nat)
    requires Switch(chain, keep, vConnect) && k < |vConnect| && vConnect[k].vtx != []
  {
    var tx := vConnect[k].vtx[0];
    SpamOk(c, tx, if InBranch(vConnect, k, tx.userName) then None else Consulted(index, chain, keep, tx.userName, keep + k))
  }

  ghost predicate Passes(c: Crypto, index: Index, chain: seq<Block>, keep: nat, vConnect: seq<Block>, k: nat, n: nat)
    requires Switch(chain, keep, vConnect) && k < |vConnect|
  {
    && WellFormed(vConnect[k]) && SpamPasses(c, index, chain, keep, vConnect, k)
    && forall i :: 1 <= i < n && i < |vConnect[k].vtx| ==> !Refuses(c, index, chain, keep, vConnect, k, i)
  }

  /** The first k new blocks are connected. */
  ghost predicate PassTo(c: Crypto, index: Index, chain: seq<Block>, keep: nat, vConnect: seq<Block>, k: nat)
    requires Switch(chain, keep, vConnect) && k <= |vConnect|
  {
    forall j {:trigger vConnect[j]} :: 0 <= j < k ==> Passes(c, index, chain, keep, vConnect, j, |vConnect[j].vtx|)
  }

  /** A registration that would be legitimate on top of the new branch. */
  ghost predicate Permitted(c: Crypto, chain: seq<Block>, tx: Tx)
    requires ChainOk(chain)
  {
    var before := ScanPos(chain, tx.userName, |chain| - 1);
    before.Some? ==> Succeeds(c, tx, TxAt(before.value))
  }

  /** The registration found is the last one on the new branch, if that is among the blocks that both branches have. */
  lemma {:induction false} ConsultedKept(index: Index, chain: seq<Block>, keep: nat, user: string, m: int)
    requires 1 <= keep <= |chain| && Linked(index, chain, user) && m >= keep && Scan(chain, user, keep - 1).Some?
    ensures Consulted(index, chain, keep, user, m) == ScanPos(chain, user, keep - 1)
  {
    var latest := Rolled(index, chain, keep, user);
    var index' := WithLatest(index, user, latest);
    RolledLinked(index, chain, keep, index', user);
    assert chain[..keep][..keep] == chain[..keep];
    ScanKept(chain, keep, chain[..keep], user, keep - 1);
    assert Get(index', user, -1) == latest;
  }

  /** A name is registered by the r-th new block, and by none after it among the first k. */
  ghost function LastIn(vConnect: seq<Block>, k: nat, user: string): (r: Option<nat>)
    requires k <= |vConnect|
    ensures r.Some? ==> r.value < k && Registers(vConnect[r.value], user)
    ensures r.Some? <==> InBranch(vConnect, k, user)
  {
    if k == 0 then None
    else if Registers(vConnect[k - 1], user) then Some(k - 1)
    else BranchGrows(vConnect, k - 1, user); LastIn(vConnect, k - 1, user)
  }

  /** The last registration on the new branch is by the new blocks, or else by the blocks that both branches have. */
  lemma {:induction false} ScanLastIn(chain: seq<Block>, keep: nat, vConnect: seq<Block>, k: nat, user: string)
    requires 1 <= keep <= |chain| && k <= |vConnect|
    ensures var r := LastIn(vConnect, k, user);
            Scan(Branch(chain, keep, vConnect, k), user, keep + k - 1) ==
            if r.Some? then Some(keep + r.value) else Scan(chain, user, keep - 1)
    decreases k
  {
    if LastIn(vConnect, k, user).None? {
      NotInBranch(chain, keep, vConnect, k, user);
    } else {
      var new_ := Branch(chain, keep, vConnect, k);
      assert new_[keep + k - 1] == vConnect[k - 1];
      if !Registers(vConnect[k - 1], user) {
        ScanLastIn(chain, keep, vConnect, k - 1, user);
        assert new_ == Branch(chain, keep, vConnect, k - 1) + [vConnect[k - 1]];
        ScanExtend(Branch(chain, keep, vConnect, k - 1), vConnect[k - 1], user, keep + k - 2);
      }
    }
  }

  ghost predicate AllWellFormed(vConnect: seq<Block>, k: nat)
  {
    forall j :: 0 <= j < k && j < |vConnect| ==> WellFormed(vConnect[j]) && vConnect[j].nHeight > 0
  }

  /** If a block of the same switch registered the name before, the new registration succeeds that one. */
  ghost predicate CleanAt(c: Crypto, vConnect: seq<Block>, k: nat, i: nat)
    requires k < |vConnect| && AllWellFormed(vConnect, k) && 1 <= i < |vConnect[k].vtx|
  {
    var tx := vConnect[k].vtx[i];
    var last := LastIn(vConnect, k, tx.userName);
    last.Some? ==> Succeeds(c, tx, TxAt(PosIn(vConnect[last.value], tx.userName)))
  }

  ghost predicate Clean(c: Crypto, vConnect: seq<Block>)
    requires AllWellFormed(vConnect, |vConnect|)
  {
    forall k, i {:trigger CleanAt(c, vConnect, k, i)} ::
      0 <= k < |vConnect| && 1 <= i < |vConnect[k].vtx| ==> CleanAt(c, vConnect, k, i)
  }

  /**
   The verdict on a registration differs from what the new branch permits in exactly two cases: a
   registration that does not succeed one of the same switch is let through, and one that is first on
   the new branch is refused because it does not succeed a registration of the old one.
   */
  lemma {:induction false} VerdictIff(c: Crypto, index: Index, chain: seq<Block>, keep: nat, vConnect: seq<Block>, k: nat,
                                      i: nat)
    requires Switch(chain, keep, vConnect) && k < |vConnect| && 1 <= i < |vConnect[k].vtx| && AllWellFormed(vConnect, k)
    requires Linked(index, chain, vConnect[k].vtx[i].userName)
    ensures ChainOk(Branch(chain, keep, vConnect, k))
    ensures var permitted := Permitted(c, Branch(chain, keep, vConnect, k), vConnect[k].vtx[i]);
            var refused := Refuses(c, index, chain, keep, vConnect, k, i);
            && (!refused && !permitted <==> !CleanAt(c, vConnect, k, i))
            && (refused && permitted <==> refused && Scan(chain, vConnect[k].vtx[i].userName, keep - 1).None?)
  {
    var tx := vConnect[k].vtx[i];
    BranchOk(chain, keep, vConnect, k);
    PermittedIs(c, chain, keep, vConnect, k, tx);
    if LastIn(vConnect, k, tx.userName).None? {
      FirstVerdict(c, index, chain, keep, vConnect, k, i);
    }
  }

  lemma {:induction false} FirstVerdict(c: Crypto, index: Index, chain: seq<Block>, keep: nat, vConnect: seq<Block>, k: nat,
                                        i: nat)
    requires Switch(chain, keep, vConnect) && k < |vConnect| && 1 <= i < |vConnect[k].vtx|
    requires Linked(index, chain, vConnect[k].vtx[i].userName) && !InBranch(vConnect, k, vConnect[k].vtx[i].userName)
    ensures var tx := vConnect[k].vtx[i];
            var before := ScanPos(chain, tx.userName, keep - 1);
            before.Some? ==> (Refuses(c, index, chain, keep, vConnect, k, i) <==> !SucceedsAt(c, tx, before.value))
  {
    var user := vConnect[k].vtx[i].userName;
    if Scan(chain, user, keep - 1).Some? {
      ConsultedKept(index, chain, keep, user, keep + k);
    }
  }

  lemma BranchOk(chain: seq<Block>, keep: nat, vConnect: seq<Block>, k: nat)
    requires Switch(chain, keep, vConnect) && k <= |vConnect| && AllWellFormed(vConnect, k)
    ensures ChainOk(Branch(chain, keep, vConnect, k))
  {
  }

  lemma {:induction false} PermittedIs(c: Crypto, chain: seq<Block>, keep: nat, vConnect: seq<Block>, k: nat, tx: Tx)
    requires 1 <= keep <= |chain| && k <= |vConnect| && ChainOk(chain) && ChainOk(Branch(chain, keep, vConnect, k))
    requires AllWellFormed(vConnect, k)
    ensures var last, before := LastIn(vConnect, k, tx.userName), ScanPos(chain, tx.userName, keep - 1);
            Permitted(c, Branch(chain, keep, vConnect, k), tx) <==>
            if last.Some? then SucceedsAt(c, tx, PosIn(vConnect[last.value], tx.userName))
            else before.Some? ==> SucceedsAt(c, tx, before.value)
  {
    ScanLastIn(chain, keep, vConnect, k, tx.userName);
    var new_, r := Branch(chain, keep, vConnect, k), Scan(Branch(chain, keep, vConnect, k), tx.userName, keep + k - 1);
    if r.Some? {
      assert new_[r.value] == if r.value < keep then chain[r.value] else vConnect[r.value - keep];
    }
  }

  /**
   The verdict on a spam message differs from that of the new branch in exactly two cases: it is let
   through though only the old branch knows its signer, and it is refused though the new blocks
   registered its signer.
   */
  lemma {:induction false} SpamVerdictIff(c: Crypto, index: Index, chain: seq<Block>, keep: nat, vConnect: seq<Block>, k: nat)
    requires Switch(chain, keep, vConnect) && k < |vConnect| && vConnect[k].vtx != [] && AllWellFormed(vConnect, k)
    requires Linked(index, chain, vConnect[k].vtx[0].userName)
    ensures ChainOk(Branch(chain, keep, vConnect, k))
    ensures var tx, passes := vConnect[k].vtx[0], SpamPasses(c, index, chain, keep, vConnect, k);
            var found := ScanPos(Branch(chain, keep, vConnect, k), tx.userName, keep + k - 1);
            && (passes && !SpamOk(c, tx, found) <==> passes && tx.userName != NOBODY && found.None?)
            && (!passes && SpamOk(c, tx, found) <==>
                SpamOk(c, tx, found) && tx.userName != NOBODY && InBranch(vConnect, k, tx.userName))
  {
    var user := vConnect[k].vtx[0].userName;
    BranchOk(chain, keep, vConnect, k);
    ScanLastIn(chain, keep, vConnect, k, user);
    if LastIn(vConnect, k, user).None? && Scan(chain, user, keep - 1).Some? {
      ConsultedKept(index, chain, keep, user, keep + k);
      BranchBelow(chain, keep, vConnect, k, Scan(chain, user, keep - 1).value);
      assert ScanPos(Branch(chain, keep, vConnect, k), user, keep + k - 1) == Consulted(index, chain, keep, user, keep + k);
    }
  }

  lemma BranchBelow(chain: seq<Block>, keep: nat, vConnect: seq<Block>, k: nat, h: nat)
    requires h < keep <= |chain| && k <= |vConnect|
    ensures Branch(chain, keep, vConnect, k)[h] == chain[h]
  {
  }

  /** No registration of the new blocks is refused. */
  ghost predicate NoneRefused(c: Crypto, index: Index, chain: seq<Block>, keep: nat, vConnect: seq<Block>)
    requires Switch(chain, keep, vConnect)
  {
    forall k, i {:trigger Refuses(c, index, chain, keep, vConnect, k, i)} ::
      0 <= k < |vConnect| && 1 <= i < |vConnect[k].vtx| ==> !Refuses(c, index, chain, keep, vConnect, k, i)
  }

  lemma {:induction false} PassedNone(c: Crypto, index: Index, chain: seq<Block>, keep: nat, vConnect: seq<Block>)
    requires Switch(chain, keep, vConnect) && PassTo(c, index, chain, keep, vConnect, |vConnect|)
    ensures NoneRefused(c, index, chain, keep, vConnect)
    ensures AllWellFormed(vConnect, |vConnect|) && ChainOk(chain[..keep] + vConnect)
  {
    forall k | 0 <= k < |vConnect|
      ensures Passes(c, index, chain, keep, vConnect, k, |vConnect[k].vtx|)
    {
      assert vConnect[k] in vConnect;
    }
    BranchOk(chain, keep, vConnect, |vConnect|);
    assert vConnect[..|vConnect|] == vConnect;
  }

  /** After a switch all histories are legitimate exactly when the blocks it connected are clean among themselves. */
  lemma {:induction false} SwitchLegitimateIff(c: Crypto, index: Index, chain: seq<Block>, keep: nat, vConnect: seq<Block>)
    requires Switch(chain, keep, vConnect) && (forall user :: Linked(index, chain, user)) && AllLegitimate(c, chain)
    requires PassTo(c, index, chain, keep, vConnect, |vConnect|)
    ensures AllWellFormed(vConnect, |vConnect|) && ChainOk(chain[..keep] + vConnect)
    ensures AllLegitimate(c, chain[..keep] + vConnect) <==> Clean(c, vConnect)
  {
    PassedNone(c, index, chain, keep, vConnect);
    if AllLegitimate(c, chain[..keep] + vConnect) {
      LegitimateClean(c, index, chain, keep, vConnect);
    }
    if Clean(c, vConnect) {
      CleanLegitimate(c, index, chain, keep, vConnect);
    }
  }

  lemma {:induction false} LegitimateClean(c: Crypto, index: Index, chain: seq<Block>, keep: nat, vConnect: seq<Block>)
    requires Switch(chain, keep, vConnect) && (forall user :: Linked(index, chain, user))
    requires NoneRefused(c, index, chain, keep, vConnect)
    requires AllWellFormed(vConnect, |vConnect|) && ChainOk(chain[..keep] + vConnect)
    requires AllLegitimate(c, chain[..keep] + vConnect)
    ensures Clean(c, vConnect)
  {
    forall k, i | 0 <= k < |vConnect| && 1 <= i < |vConnect[k].vtx|
      ensures CleanAt(c, vConnect, k, i)
    {
      assert Linked(index, chain, vConnect[k].vtx[i].userName);
      LegitimateIffClean(c, index, chain, keep, vConnect, k, i);
      assert Legitimate(c, chain[..keep] + vConnect, keep + k, i);
    }
  }

  lemma {:induction false} CleanLegitimate(c: Crypto, index: Index, chain: seq<Block>, keep: nat, vConnect: seq<Block>)
    requires Switch(chain, keep, vConnect) && (forall user :: Linked(index, chain, user)) && AllLegitimate(c, chain)
    requires NoneRefused(c, index, chain, keep, vConnect)
    requires AllWellFormed(vConnect, |vConnect|) && ChainOk(chain[..keep] + vConnect) && Clean(c, vConnect)
    ensures AllLegitimate(c, chain[..keep] + vConnect)
  {
    var new_ := chain[..keep] + vConnect;
    forall h, i | 1 <= h < |new_| && 1 <= i < |new_[h].vtx|
      ensures Legitimate(c, new_, h, i)
    {
      if h < keep {
        KeptLegitimate(c, chain, keep, vConnect, h, i);
      } else {
        NewLegitimate(c, index, chain, keep, vConnect, h - keep, i);
      }
    }
  }

  lemma {:induction false} NewLegitimate(c: Crypto, index: Index, chain: seq<Block>, keep: nat, vConnect: seq<Block>,
                                         k: nat, i: nat)
    requires Switch(chain, keep, vConnect) && (forall user :: Linked(index, chain, user))
    requires NoneRefused(c, index, chain, keep, vConnect)
    requires AllWellFormed(vConnect, |vConnect|) && ChainOk(chain[..keep] + vConnect) && Clean(c, vConnect)
    requires k < |vConnect| && 1 <= i < |vConnect[k].vtx|
    ensures (chain[..keep] + vConnect)[keep + k] == vConnect[k]
    ensures Legitimate(c, chain[..keep] + vConnect, keep + k, i)
  {
    assert CleanAt(c, vConnect, k, i);
    assert Linked(index, chain, vConnect[k].vtx[i].userName);
    LegitimateIffClean(c, index, chain, keep, vConnect, k, i);
  }

  lemma {:induction false} KeptLegitimate(c: Crypto, chain: seq<Block>, keep: nat, vConnect: seq<Block>, h: nat, i: nat)
    requires 1 <= h < keep <= |chain| && 1 <= i < |chain[h].vtx|
    requires ChainOk(chain) && ChainOk(chain[..keep] + vConnect) && AllLegitimate(c, chain)
    ensures Legitimate(c, chain[..keep] + vConnect, h, i)
  {
    var new_ := chain[..keep] + vConnect;
    assert new_[..keep] == chain[..keep];
    ScanKept(chain, keep, new_, chain[h].vtx[i].userName, h - 1);
    assert Legitimate(c, chain, h, i);
  }

  lemma {:induction false} LegitimateIffClean(c: Crypto, index: Index, chain: seq<Block>, keep: nat, vConnect: seq<Block>,
                                              k: nat, i: nat)
    requires Switch(chain, keep, vConnect) && k < |vConnect| && 1 <= i < |vConnect[k].vtx|
    requires AllWellFormed(vConnect, |vConnect|) && ChainOk(chain[..keep] + vConnect)
    requires Linked(index, chain, vConnect[k].vtx[i].userName) && !Refuses(c, index, chain, keep, vConnect, k, i)
    ensures (chain[..keep] + vConnect)[keep + k] == vConnect[k]
    ensures Legitimate(c, chain[..keep] + vConnect, keep + k, i) <==> CleanAt(c, vConnect, k, i)
  {
    BranchIsPrefix(chain, keep, vConnect, k);
    VerdictIff(c, index, chain, keep, vConnect, k, i);
    LegitimateIffPermitted(c, chain[..keep] + vConnect, keep + k, i);
  }

  lemma BranchIsPrefix(chain: seq<Block>, keep: nat, vConnect: seq<Block>, k: nat)
    requires keep <= |chain| && k < |vConnect|
    ensures (chain[..keep] + vConnect)[keep + k] == vConnect[k]
    ensures (chain[..keep] + vConnect)[..keep + k] == Branch(chain, keep, vConnect, k)
  {
  }

  /** A registration is legitimate in its place when it is permitted on top of what is below. */
  lemma {:induction false} LegitimateIffPermitted(c: Crypto, chain: seq<Block>, h: nat, i: nat)
    requires 1 <= h < |chain| && 1 <= i < |chain[h].vtx| && ChainOk(chain) && ChainOk(chain[..h])
    ensures Legitimate(c, chain, h, i) <==> Permitted(c, chain[..h], chain[h].vtx[i])
  {
    assert chain[..h][..h] == chain[..h];
    ScanKept(chain, h, chain[..h], chain[h].vtx[i].userName, h - 1);
  }
}
