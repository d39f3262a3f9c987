/**
 The main chain with its username index, updated in place: looking names up, checking that a
 registration may replace an older one, and writing the index when the tip changes. The vector of
 blocks by height changes only at the end of a switch.
 */
module NameChain {
  import opened Wrappers
  import opened UsernameIndex
  import opened NameRuns
  import opened NameSwitch
  import opened NameVerdicts
  import opened NameKeys

  function MaxHeight(chain: seq<Block>, maxHeight: int): int
  {
    if maxHeight < 0 then |chain| - 1 else maxHeight
  }

  /** GetTransaction: follows the entries of a name down to a height; it must end within some number of rounds. */
  method Lookup(index: Index, chain: seq<Block>, user: string, maxHeight: int, ghost rounds: nat) returns (r: Option<Pos>)
    requires Walk(index, chain, user, -1, MaxHeight(chain, maxHeight), rounds).Some?
    ensures Walk(index, chain, user, -1, MaxHeight(chain, maxHeight), rounds) == Some(r)
    ensures r.Some? ==> r.value.i < |r.value.block.vtx| && TxAt(r.value).userName == user
    ensures r.Some? ==> InMain(chain, r.value.block) && r.value.block.nHeight <= MaxHeight(chain, maxHeight)
  {
    var m := MaxHeight(chain, maxHeight);
    var height := -1;
    ghost var left := rounds;
    while true
      invariant Walk(index, chain, user, height, m, left).Some?
      invariant Walk(index, chain, user, height, m, left) == Walk(index, chain, user, -1, m, rounds)
      decreases left
    {
      var fetched := Fetch(index, chain, user, height);
      if fetched.None? {
        return None;
      }
      var h := fetched.value.block.nHeight;
      if h <= m {
        return fetched;
      }
      height := h - 1;
      if !(height > 0 && height >= m) {
        return None;
      }
      left := left - 1;
    }
  }

  /** The batch of writes for the first n transactions. */
  ghost function EntryBatch(index: Index, b: Block, n: nat, user: string, key: int): Option<Pos>
    requires WellFormed(b) && b.nHeight > 0
  {
    if !Before(b, user, n) then None
    else if key == -1 then Some(PosIn(b, user))
    else if key == b.nHeight - 1 && Get(index, user, -1).Some? && !PointsTo(index, user, -1, b) then Get(index, user, -1)
    else None
  }

  ghost predicate BatchOk(index: Index, b: Block, n: nat, batch: Index)
    requires WellFormed(b) && b.nHeight > 0
  {
    forall user, key :: Get(batch, user, key) == EntryBatch(index, b, n, user, key)
  }

  /** The index writes of ConnectBlock: collected against the index as it was, then written together. */
  method WriteConnected(index: Index, b: Block) returns (index': Index)
    requires WellFormed(b) && b.nHeight > 0
    ensures forall user :: Connected(index, b, index', user)
  {
    var vPos: Index := map[];
    for i := 0 to |b.vtx|
      invariant BatchOk(index, b, i, vPos)
    {
      var tx := b.vtx[i];
      ghost var before := vPos;
      if !tx.spam {
        var user := tx.userName;
        vPos := vPos[Key(user, -1) := Pos(b, i)];
        if Key(user, -1) in index && index[Key(user, -1)].block != b {
          vPos := vPos[Key(user, b.nHeight - 1) := index[Key(user, -1)]];
        }
      }
      BatchStep(index, b, i, before, vPos);
    }
    index' := index + vPos;
    BatchWritten(index, b, vPos);
  }

  lemma {:induction false} BatchWritten(index: Index, b: Block, batch: Index)
    requires WellFormed(b) && b.nHeight > 0 && BatchOk(index, b, |b.vtx|, batch)
    ensures forall user :: Connected(index, b, index + batch, user)
  {
    forall user, key
      ensures Get(index + batch, user, key) == EntryConnected(index, b, user, key)
    {
      assert Get(batch, user, key) == EntryBatch(index, b, |b.vtx|, user, key);
      assert Before(b, user, |b.vtx|) <==> Registers(b, user);
    }
  }

  lemma {:induction false} BatchStep(index: Index, b: Block, i: nat, before: Index, after: Index)
    requires WellFormed(b) && b.nHeight > 0 && i < |b.vtx| && BatchOk(index, b, i, before)
    requires var user := b.vtx[i].userName;
             after == if b.vtx[i].spam then before
                      else if Key(user, -1) in index && index[Key(user, -1)].block != b
                      then before[Key(user, -1) := Pos(b, i)][Key(user, b.nHeight - 1) := index[Key(user, -1)]]
                      else before[Key(user, -1) := Pos(b, i)]
    ensures BatchOk(index, b, i + 1, after)
  {
    forall user, key
      ensures Get(after, user, key) == EntryBatch(index, b, i + 1, user, key)
    {
      assert Get(before, user, key) == EntryBatch(index, b, i, user, key);
      assert Before(b, user, i + 1) <==> Before(b, user, i) || (i >= 1 && b.vtx[i].userName == user);
      if i >= 1 && b.vtx[i].userName == user {
        SamePos(Pos(b, i), user);
        assert !Before(b, user, i);
      }
    }
  }

  /** The index writes of DisconnectBlock, from the last transaction to the first. */
  method WriteDisconnected(index: Index, b: Block) returns (index': Index)
    requires WellFormed(b) && b.nHeight > 0
    ensures forall user :: Disconnected(index, b, index', user)
  {
    index' := index;
    for i := |b.vtx| downto 1
      invariant forall user, key :: Get(index', user, key) == EntryUndone(index, b, i, user, key)
    {
      var user := b.vtx[i].userName;
      ghost var before := index';
      if Key(user, b.nHeight - 1) in index' {
        index' := index'[Key(user, -1) := index'[Key(user, b.nHeight - 1)]];
      }
      UndoStep(index, b, i, before, index');
    }
  }

  /** A name is registered at or after the n-th transaction of a block. */
  ghost predicate After(b: Block, user: string, n: nat)
  {
    exists i :: 1 <= n <= i < |b.vtx| && b.vtx[i].userName == user
  }

  ghost function EntryUndone(index: Index, b: Block, n: nat, user: string, key: int): Option<Pos>
  {
    if After(b, user, n) && key == -1 && Get(index, user, b.nHeight - 1).Some? then Get(index, user, b.nHeight - 1)
    else Get(index, user, key)
  }

  lemma {:induction false} UndoStep(index: Index, b: Block, i: nat, before: Index, after: Index)
    requires WellFormed(b) && b.nHeight > 0 && 1 <= i < |b.vtx|
    requires forall user, key :: Get(before, user, key) == EntryUndone(index, b, i + 1, user, key)
    requires var user := b.vtx[i].userName;
             after == if Key(user, b.nHeight - 1) in before
                      then before[Key(user, -1) := before[Key(user, b.nHeight - 1)]] else before
    ensures forall user, key :: Get(after, user, key) == EntryUndone(index, b, i, user, key)
  {
    forall user, key
      ensures Get(after, user, key) == EntryUndone(index, b, i, user, key)
    {
      assert Get(before, user, key) == EntryUndone(index, b, i + 1, user, key);
      assert Get(before, user, b.nHeight - 1) == EntryUndone(index, b, i + 1, user, b.nHeight - 1);
      assert After(b, user, i) <==> After(b, user, i + 1) || b.vtx[i].userName == user;
    }
  }

  // ----- all names at once -----

  ghost predicate AllLinked(index: Index, chain: seq<Block>)
  {
    forall user :: Linked(index, chain, user)
  }

  ghost predicate AllRolledTo(index: Index, chain: seq<Block>, n: nat, index': Index)
    requires n <= |chain|
  {
    forall user :: RolledTo(index, chain, n, index', user)
  }

  ghost predicate AllMidway(index: Index, chain: seq<Block>, keep: nat, vConnect: seq<Block>, k: nat, index': Index)
    requires Switch(chain, keep, vConnect) && k <= |vConnect|
  {
    forall user :: Midway(index, chain, keep, vConnect, k, index', user)
  }

  ghost predicate AllCheckedTo(index: Index, chain: seq<Block>, keep: nat, vConnect: seq<Block>, k: nat, f: nat,
                               index1: Index, index2: Index)
    requires Switch(chain, keep, vConnect) && k < |vConnect|
  {
    forall user :: CheckedTo(index, chain, keep, vConnect, k, f, index1, index2, user)
  }

  /** Every entry points at one of the blocks, or where an entry of the same name pointed before. */
  ghost predicate Inherits(index: Index, blocks: seq<Block>, index': Index)
  {
    forall user, key :: Get(index', user, key).Some? ==> Known(index, blocks, user, Get(index', user, key).value.block)
  }

  ghost predicate Known(index: Index, blocks: seq<Block>, user: string, b: Block)
  {
    b in blocks || exists key :: PointsTo(index, user, key, b)
  }

  lemma {:induction false} RollAll(index: Index, chain: seq<Block>, n: nat, index1: Index, index2: Index)
    requires 1 <= n < |chain| && chain[n].nHeight == n && AllRolledTo(index, chain, n + 1, index1)
    requires forall user :: Disconnected(index1, chain[n], index2, user)
    ensures AllRolledTo(index, chain, n, index2)
  {
    forall user
      ensures RolledTo(index, chain, n, index2, user)
    {
      assert RolledTo(index, chain, n + 1, index1, user);
      RollStep(index, chain, n, index1, index2, user);
    }
  }

  lemma {:induction false} RollInherits(index: Index, blocks: seq<Block>, b: Block, index1: Index, index2: Index)
    requires Inherits(index, blocks, index1) && forall user :: Disconnected(index1, b, index2, user)
    ensures Inherits(index, blocks, index2)
  {
    forall user, key | Get(index2, user, key).Some?
      ensures Known(index, blocks, user, Get(index2, user, key).value.block)
    {
      assert Disconnected(index1, b, index2, user);
      assert Get(index2, user, key) == EntryDisconnected(index1, b, user, key);
    }
  }

  lemma {:induction false} StartAll(index: Index, chain: seq<Block>, keep: nat, vConnect: seq<Block>, index': Index)
    requires Switch(chain, keep, vConnect) && AllLinked(index, chain) && AllRolledTo(index, chain, keep, index')
    ensures AllMidway(index, chain, keep, vConnect, 0, index')
  {
    forall user
      ensures Midway(index, chain, keep, vConnect, 0, index', user)
    {
      assert Linked(index, chain, user) && RolledTo(index, chain, keep, index', user);
      MidwayStart(index, chain, keep, vConnect, index', user);
    }
  }

  lemma {:induction false} StepAll(index: Index, chain: seq<Block>, keep: nat, vConnect: seq<Block>, k: nat,
                                   index1: Index, index2: Index, index3: Index)
    requires Switch(chain, keep, vConnect) && k < |vConnect| && WellFormed(vConnect[k])
    requires AllLinked(index, chain) && AllMidway(index, chain, keep, vConnect, k, index1)
    requires AllCheckedTo(index, chain, keep, vConnect, k, |vConnect[k].vtx|, index1, index2)
    requires forall user :: Connected(index2, vConnect[k], index3, user)
    ensures AllMidway(index, chain, keep, vConnect, k + 1, index3)
  {
    var next := k + 1;
    forall user
      ensures Midway(index, chain, keep, vConnect, next, index3, user)
    {
      assert Linked(index, chain, user) && Midway(index, chain, keep, vConnect, k, index1, user);
      assert CheckedTo(index, chain, keep, vConnect, k, |vConnect[k].vtx|, index1, index2, user);
      assert Before(vConnect[k], user, |vConnect[k].vtx|) <==> Registers(vConnect[k], user);
      assert Checked(index, chain, keep, vConnect, k, index1, index2, user);
      MidwayStep(index, chain, keep, vConnect, k, index1, index2, index3, user);
    }
  }

  lemma {:induction false} ConnectInherits(index: Index, blocks: seq<Block>, b: Block, index1: Index, index2: Index)
    requires Inherits(index, blocks, index1) && WellFormed(b) && b.nHeight > 0
    requires forall user :: Connected(index1, b, index2, user)
    ensures Inherits(index, blocks + [b], index2)
  {
    forall user, key | Get(index2, user, key).Some?
      ensures Known(index, blocks + [b], user, Get(index2, user, key).value.block)
    {
      assert Connected(index1, b, index2, user);
      assert Get(index2, user, key) == EntryConnected(index1, b, user, key);
    }
  }

  /** Checking one more transaction: its name alone may lose its latest entry. */
  lemma {:induction false} CheckedMore(index: Index, chain: seq<Block>, keep: nat, vConnect: seq<Block>, k: nat, i: nat,
                                       index1: Index, index2: Index, index3: Index)
    requires Switch(chain, keep, vConnect) && k < |vConnect| && WellFormed(vConnect[k]) && 1 <= i < |vConnect[k].vtx|
    requires AllCheckedTo(index, chain, keep, vConnect, k, i, index1, index2)
    requires var user := vConnect[k].vtx[i].userName;
             index3 == if !InBranch(vConnect, k, user) && Erases(index, chain, keep, user, keep + k)
                       then index2 - {Key(user, -1)} else index2
    ensures AllCheckedTo(index, chain, keep, vConnect, k, i + 1, index1, index3)
  {
    var next := i + 1;
    forall user
      ensures CheckedTo(index, chain, keep, vConnect, k, next, index1, index3, user)
    {
      assert CheckedTo(index, chain, keep, vConnect, k, i, index1, index2, user);
      assert Before(vConnect[k], user, i + 1) <==> Before(vConnect[k], user, i) || vConnect[k].vtx[i].userName == user;
      forall key
        ensures Get(index3, user, key) ==
                if key == -1 && Before(vConnect[k], user, next) && !InBranch(vConnect, k, user) &&
                   Erases(index, chain, keep, user, keep + k)
                then None else Get(index1, user, key)
      {
        assert Get(index2, user, key) ==
               if key == -1 && Before(vConnect[k], user, i) && !InBranch(vConnect, k, user) &&
                  Erases(index, chain, keep, user, keep + k)
               then None else Get(index1, user, key);
      }
    }
  }

  /** What lookups of the name of the next transaction find. */
  lemma {:induction false} WalkChecked(index: Index, chain: seq<Block>, keep: nat, vConnect: seq<Block>, k: nat, i: nat,
                                       index1: Index, index2: Index, m: nat)
    requires Switch(chain, keep, vConnect) && k < |vConnect| && WellFormed(vConnect[k]) && 1 <= i < |vConnect[k].vtx|
    requires AllLinked(index, chain) && AllMidway(index, chain, keep, vConnect, k, index1)
    requires AllCheckedTo(index, chain, keep, vConnect, k, i, index1, index2) && (m >= 1 || m == |chain| - 1)
    ensures var user := vConnect[k].vtx[i].userName;
            Walk(index2, chain, user, -1, m, |chain| + 2) ==
            Some(if InBranch(vConnect, k, user) then None else Consulted(index, chain, keep, user, m))
    ensures Consulted(index, chain, keep, vConnect[k].vtx[i].userName, |chain| - 1) ==
            FetchedLatest(index, chain, keep, vConnect[k].vtx[i].userName)
  {
    var user := vConnect[k].vtx[i].userName;
    assert Linked(index, chain, user) && Midway(index, chain, keep, vConnect, k, index1, user);
    assert CheckedTo(index, chain, keep, vConnect, k, i, index1, index2, user);
    WalkMidway(index, chain, keep, vConnect, k, index1, user, m);
    WalkSame(index1, index2, chain, user, -1, m, |chain| + 2);
  }

  /** What a lookup of the signer of the next spam message finds. */
  lemma {:induction false} WalkSpam(index: Index, chain: seq<Block>, keep: nat, vConnect: seq<Block>, k: nat, index': Index, m: nat)
    requires Switch(chain, keep, vConnect) && k < |vConnect| && vConnect[k].vtx != [] && m >= 1
    requires AllLinked(index, chain) && AllMidway(index, chain, keep, vConnect, k, index')
    ensures var user := vConnect[k].vtx[0].userName;
            Walk(index', chain, user, -1, m, |chain| + 2) ==
            Some(if InBranch(vConnect, k, user) then None else Consulted(index, chain, keep, user, m))
  {
    var user := vConnect[k].vtx[0].userName;
    assert Linked(index, chain, user) && Midway(index, chain, keep, vConnect, k, index', user);
    WalkMidway(index, chain, keep, vConnect, k, index', user, m);
  }

  /** The k-th new block is the first to be refused: it is malformed, its spam message or its f-th transaction is refused. */
  ghost predicate StopsAt(c: Crypto, index: Index, chain: seq<Block>, keep: nat, vConnect: seq<Block>, k: nat, f: nat)
    requires Switch(chain, keep, vConnect)
  {
    && k < |vConnect| && PassTo(c, index, chain, keep, vConnect, k)
    && if WellFormed(vConnect[k]) && SpamPasses(c, index, chain, keep, vConnect, k)
       then 1 <= f < |vConnect[k].vtx| && Passes(c, index, chain, keep, vConnect, k, f) &&
            Refuses(c, index, chain, keep, vConnect, k, f)
       else f == 0
  }

  class NameIndex {
    const crypto: Crypto
    var chain: seq<Block>       // what vBlockIndexByHeight holds; nBestHeight is its last height
    var txIndex: Index

    /** Every lookup is answered as by a scan of the main chain. */
    ghost predicate Valid()
      reads this
    {
      |chain| > 0 && ChainOk(chain) && AllLinked(txIndex, chain)
    }

    constructor (c: Crypto, genesis: Block)
      requires genesis.nHeight == 0 && WellFormed(genesis)
      ensures Valid() && crypto == c && chain == [genesis] && txIndex == map[] && AllLegitimate(c, chain)
    {
      crypto, chain, txIndex := c, [genesis], map[];
    }

    method GetTransaction(user: string, maxHeight: int) returns (r: Option<Pos>)
      requires Valid()
      ensures r == ScanPos(chain, user, MaxHeight(chain, maxHeight))
      ensures r.Some? ==> At(r.value, user)
    {
      assert Linked(txIndex, chain, user);
      WalkFaithful(txIndex, chain, user, -1, |chain| - 1, MaxHeight(chain, maxHeight), |chain| + 1);
      r := Lookup(txIndex, chain, user, maxHeight, |chain| + 1);
    }

    /** Whether a transaction repeats or legitimately replaces the registration found; an orphaned entry may be erased. */
    method VerifyDuplicateOrReplacementTx(tx: Tx, checkDuplicate: bool, checkReplacement: bool, maxHeight: int,
                                          removeOrphan: bool, ghost rounds: nat)
      returns (r: bool)
      requires Walk(txIndex, chain, tx.userName, -1, MaxHeight(chain, maxHeight), rounds).Some?
      modifies this`txIndex
      ensures var before := Walk(old(txIndex), chain, tx.userName, -1, MaxHeight(chain, maxHeight), rounds).value;
              if before.Some?
              then txIndex == old(txIndex) && before.value.i < |before.value.block.vtx| &&
                   r == ((checkDuplicate && crypto.txHash(TxAt(before.value)) == crypto.txHash(tx)) ||
                         (checkReplacement && exists key :: HasKey(TxAt(before.value), key) && SignedWith(crypto, tx, key)))
              else r == (removeOrphan && Key(tx.userName, -1) in old(txIndex)) &&
                   txIndex == if r then old(txIndex) - {Key(tx.userName, -1)} else old(txIndex)
    {
      var before := Lookup(txIndex, chain, tx.userName, maxHeight, rounds);
      if before.Some? {
        var oldTx := TxAt(before.value);
        if checkDuplicate && crypto.txHash(oldTx) == crypto.txHash(tx) {
          return true;
        }
        r := checkReplacement && SignedBy(crypto, tx, oldTx);
        SignedByIff(crypto, tx, oldTx);
      } else {
        r := removeOrphan && Key(tx.userName, -1) in txIndex;
        if r {
          txIndex := txIndex - {Key(tx.userName, -1)};
        }
      }
    }

    /** The overwrite check of one transaction whose name is found, during a switch from `chain`. */
    method CheckFound(b: Block, i: nat, ghost index: Index, ghost keep: nat, ghost vConnect: seq<Block>, ghost k: nat)
      returns (ok: bool)
      requires Switch(chain, keep, vConnect) && k < |vConnect| && b == vConnect[k] && 1 <= i < |b.vtx|
      requires !InBranch(vConnect, k, b.vtx[i].userName) && FetchedLatest(index, chain, keep, b.vtx[i].userName).Some?
      requires Key(b.vtx[i].userName, -1) in txIndex
      requires Walk(txIndex, chain, b.vtx[i].userName, -1, b.nHeight, |chain| + 2) ==
               Some(Consulted(index, chain, keep, b.vtx[i].userName, b.nHeight))
      modifies this`txIndex
      ensures ok <==> !Refuses(crypto, index, chain, keep, vConnect, k, i)
      ensures txIndex == if Erases(index, chain, keep, b.vtx[i].userName, b.nHeight)
                         then old(txIndex) - {Key(b.vtx[i].userName, -1)} else old(txIndex)
    {
      ok := VerifyDuplicateOrReplacementTx(b.vtx[i], true, true, b.nHeight, true, |chain| + 2);
      ghost var found := Consulted(index, chain, keep, b.vtx[i].userName, b.nHeight);
      if found.Some? {
        SignedByIff(crypto, b.vtx[i], TxAt(found.value));
      }
    }

    /** The overwrite check of one transaction, during a switch from `chain`. */
    method CheckTx(b: Block, i: nat, ghost index: Index, ghost keep: nat, ghost vConnect: seq<Block>, ghost k: nat,
                   ghost index1: Index)
      returns (ok: bool)
      requires Switch(chain, keep, vConnect) && k < |vConnect| && b == vConnect[k] && WellFormed(b) && 1 <= i < |b.vtx|
      requires AllLinked(index, chain) && AllMidway(index, chain, keep, vConnect, k, index1)
      requires AllCheckedTo(index, chain, keep, vConnect, k, i, index1, txIndex)
      modifies this`txIndex
      ensures ok <==> !Refuses(crypto, index, chain, keep, vConnect, k, i)
      ensures AllCheckedTo(index, chain, keep, vConnect, k, if ok then i + 1 else i, index1, txIndex)
      ensures txIndex.Keys <= old(txIndex).Keys && forall key :: key in txIndex ==> txIndex[key] == old(txIndex)[key]
    {
      var tx := b.vtx[i];
      WalkChecked(index, chain, keep, vConnect, k, i, index1, txIndex, |chain| - 1);
      WalkChecked(index, chain, keep, vConnect, k, i, index1, txIndex, b.nHeight);
      ghost var index2 := txIndex;
      var found := Lookup(txIndex, chain, tx.userName, -1, |chain| + 2);
      ok := true;
      if found.Some? {
        assert !InBranch(vConnect, k, tx.userName) && Key(tx.userName, -1) in txIndex;
        ok := CheckFound(b, i, index, keep, vConnect, k);
      }
      if ok {
        CheckedMore(index, chain, keep, vConnect, k, i, index1, index2, txIndex);
      }
    }

    /** No registration of a block overwrites an older one illegitimately, as far as the old branch shows. */
    method CheckOverwrites(b: Block, ghost index: Index, ghost keep: nat, ghost vConnect: seq<Block>, ghost k: nat)
      returns (ok: bool, ghost f: nat)
      requires Switch(chain, keep, vConnect) && k < |vConnect| && b == vConnect[k] && WellFormed(b)
      requires AllLinked(index, chain) && AllMidway(index, chain, keep, vConnect, k, txIndex)
      requires SpamPasses(crypto, index, chain, keep, vConnect, k)
      modifies this`txIndex
      ensures Passes(crypto, index, chain, keep, vConnect, k, f)
      ensures if ok then f == |b.vtx| else 1 <= f < |b.vtx| && Refuses(crypto, index, chain, keep, vConnect, k, f)
      ensures AllCheckedTo(index, chain, keep, vConnect, k, f, old(txIndex), txIndex)
    {
      f := 1;
      for i := 1 to |b.vtx|
        invariant f == i
        invariant Passes(crypto, index, chain, keep, vConnect, k, i)
        invariant AllCheckedTo(index, chain, keep, vConnect, k, i, old(txIndex), txIndex)
      {
        ok := CheckTx(b, i, index, keep, vConnect, k, old(txIndex));
        if !ok {
          return;
        }
        f := f + 1;
      }
      ok := true;
    }

    /** The spam message of a block is anonymous, or signed by a registered user, as far as the old branch shows. */
    method CheckSpam(b: Block, ghost index: Index, ghost keep: nat, ghost vConnect: seq<Block>, ghost k: nat) returns (ok: bool)
      requires Switch(chain, keep, vConnect) && k < |vConnect| && b == vConnect[k] && b.vtx != []
      requires AllLinked(index, chain) && AllMidway(index, chain, keep, vConnect, k, txIndex)
      ensures ok <==> SpamPasses(crypto, index, chain, keep, vConnect, k)
    {
      var tx := b.vtx[0];
      if tx.userName == NOBODY {
        return true;
      }
      WalkSpam(index, chain, keep, vConnect, k, txIndex, b.nHeight);
      var found := Lookup(txIndex, chain, tx.userName, b.nHeight, |chain| + 2);
      ok := SpamOk(crypto, tx, found);
    }

    /** Connects a block of the new branch, while `chain` is still the old one. */
    method ConnectBlock(b: Block, ghost index: Index, ghost keep: nat, ghost vConnect: seq<Block>, ghost k: nat)
      returns (ok: bool, ghost f: nat)
      requires Switch(chain, keep, vConnect) && k < |vConnect| && b == vConnect[k]
      requires AllLinked(index, chain) && AllMidway(index, chain, keep, vConnect, k, txIndex)
      requires PassTo(crypto, index, chain, keep, vConnect, k) && Inherits(index, vConnect[..k], txIndex)
      modifies this`txIndex
      ensures Inherits(index, vConnect[..if ok then k + 1 else k], txIndex)
      ensures ok ==> PassTo(crypto, index, chain, keep, vConnect, k + 1) && AllMidway(index, chain, keep, vConnect, k + 1, txIndex)
      ensures !ok ==> StopsAt(crypto, index, chain, keep, vConnect, k, f)
      ensures !ok ==> AllCheckedTo(index, chain, keep, vConnect, k, f, old(txIndex), txIndex)
    {
      if !WellFormed(b) {
        return false, 0;
      }
      var signed := CheckSpam(b, index, keep, vConnect, k);
      if !signed {
        return false, 0;
      }
      ghost var index1 := txIndex;
      ok, f := CheckOverwrites(b, index, keep, vConnect, k);
      CheckInherits(index, chain, keep, vConnect, k, f, index1, txIndex);
      if ok {
        ghost var index2 := txIndex;
        txIndex := WriteConnected(txIndex, b);
        StepAll(index, chain, keep, vConnect, k, index1, index2, txIndex);
        ConnectInherits(index, vConnect[..k], b, index2, txIndex);
        assert vConnect[..k + 1] == vConnect[..k] + [b];
      }
    }

    /** Disconnects the blocks from the tip down to height `keep`; the vector stays as it is. */
    method Undo(keep: nat, ghost vConnect: seq<Block>)
      requires Valid() && Switch(chain, keep, vConnect)
      modifies this`txIndex
      ensures AllMidway(old(txIndex), chain, keep, vConnect, 0, txIndex)
      ensures Inherits(old(txIndex), [], txIndex)
    {
      InheritsAll(txIndex);
      for n := |chain| downto keep
        invariant AllRolledTo(old(txIndex), chain, n, txIndex) && Inherits(old(txIndex), [], txIndex)
      {
        ghost var index1 := txIndex;
        txIndex := WriteDisconnected(txIndex, chain[n]);
        RollAll(old(txIndex), chain, n, index1, txIndex);
        RollInherits(old(txIndex), [], chain[n], index1, txIndex);
      }
      StartAll(old(txIndex), chain, keep, vConnect, txIndex);
    }

    /** Connects the blocks of the new branch from the fork upwards, until one is refused. */
    method ConnectAll(vConnect: seq<Block>, ghost index: Index, ghost keep: nat)
      returns (ok: bool, ghost k: nat, ghost f: nat)
      requires Switch(chain, keep, vConnect) && AllLinked(index, chain)
      requires AllMidway(index, chain, keep, vConnect, 0, txIndex) && Inherits(index, [], txIndex)
      modifies this`txIndex
      ensures k <= |vConnect| && Inherits(index, vConnect[..k], txIndex)
      ensures ok ==> PassTo(crypto, index, chain, keep, vConnect, |vConnect|)
      ensures ok ==> AllMidway(index, chain, keep, vConnect, |vConnect|, txIndex)
      ensures !ok ==> StopsAt(crypto, index, chain, keep, vConnect, k, f)
      ensures !ok ==> LinkedIfSurvives(index, chain, keep, vConnect, k, f, txIndex)
    {
      f, k := 0, 0;
      for j := 0 to |vConnect|
        invariant k == j && Inherits(index, vConnect[..j], txIndex)
        invariant PassTo(crypto, index, chain, keep, vConnect, j) && AllMidway(index, chain, keep, vConnect, j, txIndex)
      {
        ghost var index1 := txIndex;
        ok, f := ConnectBlock(vConnect[j], index, keep, vConnect, j);
        if !ok {
          StoppedAll(index, chain, keep, vConnect, j, f, index1, txIndex);
          return;
        }
        k := k + 1;
      }
      ok := true;
    }

    /**
     Switches the tip: disconnects nDisconnect blocks and connects vConnect, the blocks of the new
     branch in order. Only a switch that connects all of them moves the vector.
     */
    method Reorganise(nDisconnect: nat, vConnect: seq<Block>) returns (ok: bool, ghost keep: nat, ghost k: nat, ghost f: nat)
      requires Valid() && nDisconnect < |chain| && Switch(chain, |chain| - nDisconnect, vConnect)
      modifies this
      ensures keep == |old(chain)| - nDisconnect && k <= |vConnect| && Switch(old(chain), keep, vConnect)
      ensures ok <==> nDisconnect <= |vConnect| && PassTo(crypto, old(txIndex), old(chain), keep, vConnect, |vConnect|)
      ensures ok ==> Switched(crypto, old(txIndex), old(chain), keep, vConnect, txIndex, chain)
      ensures !ok ==> chain == old(chain)
      ensures |vConnect| < nDisconnect ==> txIndex == old(txIndex)
      ensures !ok && nDisconnect <= |vConnect| ==> Stopped(crypto, old(txIndex), old(chain), keep, vConnect, k, f, txIndex)
      ensures Inherits(old(txIndex), vConnect[..k], txIndex)
    {
      keep, k, f := |chain| - nDisconnect, 0, 0;
      InheritsAll(txIndex);
      if |vConnect| < nDisconnect {
        return false, keep, 0, 0;
      }
      ghost var index := txIndex;
      Undo(|chain| - nDisconnect, vConnect);
      ok, k, f := ConnectAll(vConnect, index, keep);
      if ok {
        SwitchedAll(crypto, index, chain, keep, vConnect, txIndex);
        chain := chain[..|chain| - nDisconnect] + vConnect;
      } else {
        StopsNotPass(crypto, index, chain, keep, vConnect, k, f);
      }
    }
  }

  /** What a successful switch leaves: for every name the exact condition under which it is still looked up correctly. */
  ghost predicate Switched(c: Crypto, index: Index, chain: seq<Block>, keep: nat, vConnect: seq<Block>,
                           index': Index, chain': seq<Block>)
    requires Switch(chain, keep, vConnect)
  {
    && chain' == chain[..keep] + vConnect
    && LinkedUnlessLeftOver(index, chain, keep, vConnect, index', chain')
    && LegitimateIfClean(c, chain, vConnect, chain')
  }

  ghost predicate LinkedUnlessLeftOver(index: Index, chain: seq<Block>, keep: nat, vConnect: seq<Block>,
                                       index': Index, chain': seq<Block>)
    requires Switch(chain, keep, vConnect)
  {
    forall user :: Linked(index', chain', user) <==> !LeftOver(index, chain, keep, vConnect, user)
  }

  ghost predicate LegitimateIfClean(c: Crypto, chain: seq<Block>, vConnect: seq<Block>, chain': seq<Block>)
    requires ChainOk(chain)
  {
    && ChainOk(chain') && AllWellFormed(vConnect, |vConnect|)
    && (AllLegitimate(c, chain) ==> (AllLegitimate(c, chain') <==> Clean(c, vConnect)))
  }

  /** What a switch that was stopped leaves. */
  ghost predicate Stopped(c: Crypto, index: Index, chain: seq<Block>, keep: nat, vConnect: seq<Block>, k: nat, f: nat,
                          index': Index)
    requires Switch(chain, keep, vConnect)
  {
    StopsAt(c, index, chain, keep, vConnect, k, f) && LinkedIfSurvives(index, chain, keep, vConnect, k, f, index')
  }

  ghost predicate LinkedIfSurvives(index: Index, chain: seq<Block>, keep: nat, vConnect: seq<Block>, k: nat, f: nat,
                                   index': Index)
    requires Switch(chain, keep, vConnect) && k < |vConnect|
  {
    forall user :: Linked(index', chain, user) <==> Survives(index, chain, keep, vConnect, k, f, user)
  }

  lemma StopsNotPass(c: Crypto, index: Index, chain: seq<Block>, keep: nat, vConnect: seq<Block>, k: nat, f: nat)
    requires Switch(chain, keep, vConnect) && StopsAt(c, index, chain, keep, vConnect, k, f)
    ensures !PassTo(c, index, chain, keep, vConnect, |vConnect|)
  {
    assert vConnect[k] in vConnect;
  }

  lemma InheritsAll(index: Index)
    ensures Inherits(index, [], index)
  {
    forall user, key | Get(index, user, key).Some?
      ensures Known(index, [], user, Get(index, user, key).value.block)
    {
      assert PointsTo(index, user, key, Get(index, user, key).value.block);
    }
  }

  lemma {:induction false} CheckInherits(index: Index, chain: seq<Block>, keep: nat, vConnect: seq<Block>, k: nat, f: nat,
                                         index1: Index, index2: Index)
    requires Switch(chain, keep, vConnect) && k < |vConnect| && Inherits(index, vConnect[..k], index1)
    requires AllCheckedTo(index, chain, keep, vConnect, k, f, index1, index2)
    ensures Inherits(index, vConnect[..k], index2)
  {
    forall user, key | Get(index2, user, key).Some?
      ensures Known(index, vConnect[..k], user, Get(index2, user, key).value.block)
    {
      assert CheckedTo(index, chain, keep, vConnect, k, f, index1, index2, user);
      assert Get(index2, user, key) == Get(index1, user, key);
    }
  }

  lemma {:induction false} StoppedAll(index: Index, chain: seq<Block>, keep: nat, vConnect: seq<Block>, k: nat, f: nat,
                                      index1: Index, index2: Index)
    requires Switch(chain, keep, vConnect) && k < |vConnect| && AllLinked(index, chain)
    requires AllMidway(index, chain, keep, vConnect, k, index1)
    requires AllCheckedTo(index, chain, keep, vConnect, k, f, index1, index2)
    ensures LinkedIfSurvives(index, chain, keep, vConnect, k, f, index2)
  {
    forall user
      ensures Linked(index2, chain, user) <==> Survives(index, chain, keep, vConnect, k, f, user)
    {
      assert Linked(index, chain, user) && Midway(index, chain, keep, vConnect, k, index1, user);
      assert CheckedTo(index, chain, keep, vConnect, k, f, index1, index2, user);
      StoppedLinkedIff(index, chain, keep, vConnect, k, f, index1, index2, user);
    }
  }

  lemma {:induction false} SwitchedAll(c: Crypto, index: Index, chain: seq<Block>, keep: nat, vConnect: seq<Block>, index': Index)
    requires Switch(chain, keep, vConnect) && AllLinked(index, chain)
    requires PassTo(c, index, chain, keep, vConnect, |vConnect|) && AllMidway(index, chain, keep, vConnect, |vConnect|, index')
    ensures Switched(c, index, chain, keep, vConnect, index', chain[..keep] + vConnect)
  {
    assert forall k :: 0 <= k < |vConnect| ==> Passes(c, index, chain, keep, vConnect, k, |vConnect[k].vtx|);
    forall user
      ensures Linked(index', chain[..keep] + vConnect, user) <==> !LeftOver(index, chain, keep, vConnect, user)
    {
      assert Linked(index, chain, user) && Midway(index, chain, keep, vConnect, |vConnect|, index', user);
      SwitchLinkedIff(index, chain, keep, vConnect, index', user);
    }
    if AllLegitimate(c, chain) {
      SwitchLegitimateIff(c, index, chain, keep, vConnect);
    }
  }
}
