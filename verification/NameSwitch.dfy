/**
 The username index while the tip switches to another branch: blocks are disconnected down to
 the fork and others connected up from it, all judged against the by-height vector of the old
 branch. What of that is accepted, and what the index then says.
 */
module NameSwitch {
  import opened Wrappers
  import opened UsernameIndex
  import opened NameRuns

  // ----- disconnecting down to the fork -----

  /** The latest entry of a name once the blocks from height n on are disconnected, from the top. */
  ghost function Rolled(index: Index, chain: seq<Block>, n: nat, user: string): Option<Pos>
    requires n <= |chain|
    decreases |chain| - n
  {
    if n == |chain| then Get(index, user, -1)
    else if Registers(chain[n], user) && Get(index, user, n - 1).Some? then Get(index, user, n - 1)
    else Rolled(index, chain, n + 1, user)
  }

  /** The index with the blocks from height n on disconnected: only latest entries have changed. */
  ghost predicate RolledTo(index: Index, chain: seq<Block>, n: nat, index': Index, user: string)
    requires n <= |chain|
  {
    forall key :: Get(index', user, key) == if key == -1 then Rolled(index, chain, n, user) else Get(index, user, key)
  }

  /** The index with another latest entry of a name. */
  ghost function WithLatest(index: Index, user: string, latest: Option<Pos>): (r: Index)
    ensures forall key :: Get(r, user, key) == if key == -1 then latest else Get(index, user, key)
  {
    if latest.Some? then index[Key(user, -1) := latest.value] else index - {Key(user, -1)}
  }

  lemma {:induction false} RollStep(index: Index, chain: seq<Block>, n: nat, index1: Index, index2: Index, user: string)
    requires 1 <= n < |chain| && chain[n].nHeight == n && RolledTo(index, chain, n + 1, index1, user)
    requires Disconnected(index1, chain[n], index2, user)
    ensures RolledTo(index, chain, n, index2, user)
  {
    forall key
      ensures Get(index2, user, key) == if key == -1 then Rolled(index, chain, n, user) else Get(index, user, key)
    {
      assert Get(index2, user, key) == EntryDisconnected(index1, chain[n], user, key);
    }
  }

  /** Disconnecting keeps the entries right for what is left of the chain. */
  lemma {:induction false} RolledLinked(index: Index, chain: seq<Block>, n: nat, index': Index, user: string)
    requires Linked(index, chain, user) && 1 <= n <= |chain| && RolledTo(index, chain, n, index', user)
    ensures Linked(index', chain[..n], user)
    decreases |chain| - n
  {
    if n == |chain| {
      assert chain[..n] == chain;
      SameLinked(index, index', chain, user);
    } else {
      var index1 := WithLatest(index, user, Rolled(index, chain, n + 1, user));
      RolledLinked(index, chain, n + 1, index1, user);
      assert chain[..n + 1] == chain[..n] + [chain[n]];
      forall key
        ensures Get(index', user, key) == EntryDisconnected(index1, chain[n], user, key)
      {
      }
      DisconnectKeeps(index1, index', chain[..n], chain[n], user);
    }
  }

  lemma {:induction false} SameLinked(index: Index, index': Index, chain: seq<Block>, user: string)
    requires Linked(index, chain, user) && forall key :: Get(index', user, key) == Get(index, user, key)
    ensures Linked(index', chain, user)
  {
    forall h | 2 <= h < |chain| && Registers(chain[h], user)
      ensures LinkedBelow(index', chain, user, h)
    {
      assert LinkedBelow(index, chain, user, h);
    }
  }

  // ----- what the old branch answers -----

  /** The latest entry after disconnecting, if the old branch still counts it as on the main chain. */
  ghost function FetchedLatest(index: Index, chain: seq<Block>, keep: nat, user: string): Option<Pos>
    requires keep <= |chain|
  {
    var latest := Rolled(index, chain, keep, user);
    if latest.Some? && InMain(chain, latest.value.block) then latest else None
  }

  /** The registration that a new one of height m at first is compared with. */
  ghost function Consulted(index: Index, chain: seq<Block>, keep: nat, user: string, m: int): Option<Pos>
    requires ChainOk(chain) && keep <= |chain|
  {
    var p := FetchedLatest(index, chain, keep, user);
    if p.None? || p.value.block.nHeight <= m then p else ScanPos(chain, user, m)
  }

  /** The latest entry belongs to a higher block of the old branch, and is erased before the block is written. */
  ghost predicate Erases(index: Index, chain: seq<Block>, keep: nat, user: string, m: int)
    requires ChainOk(chain) && keep <= |chain|
  {
    FetchedLatest(index, chain, keep, user).Some? && Consulted(index, chain, keep, user, m).None?
  }

  /** A name is registered among the first k blocks to connect. */
  ghost predicate InBranch(vConnect: seq<Block>, k: nat, user: string)
  {
    exists j :: 0 <= j < k <= |vConnect| && Registers(vConnect[j], user)
  }

  /** Below the first registration every link leads on, and the first entry is right. */
  ghost predicate Chained(index: Index, chain: seq<Block>, user: string)
  {
    && ChainOk(chain) && EntriesOk(index, user) && LinkAt(index, chain, user, -1, |chain| - 1)
    && forall h {:trigger LinkedBelow(index, chain, user, h)} ::
         2 <= h < |chain| && Registers(chain[h], user) && Scan(chain, user, h - 1).Some? ==> LinkedBelow(index, chain, user, h)
  }

  ghost predicate IsFirst(chain: seq<Block>, user: string, h: int)
  {
    1 <= h < |chain| && Registers(chain[h], user) && Scan(chain, user, h - 1).None?
  }

  /** What lies below the first registration leads off the chain. */
  ghost predicate EndsOff(index: Index, chain: seq<Block>, user: string)
  {
    forall h {:trigger IsFirst(chain, user, h)} :: 2 <= h && IsFirst(chain, user, h) ==> OffChain(index, chain, user, h - 1)
  }

  ghost predicate OffChain(index: Index, chain: seq<Block>, user: string, key: int)
  {
    Get(index, user, key).None? || !InMain(chain, Get(index, user, key).value.block)
  }

  lemma {:induction false} LinkedIff(index: Index, chain: seq<Block>, user: string)
    requires Chained(index, chain, user)
    ensures Linked(index, chain, user) <==> EndsOff(index, chain, user)
  {
    if Linked(index, chain, user) {
      forall h | 2 <= h && IsFirst(chain, user, h)
        ensures OffChain(index, chain, user, h - 1)
      {
        assert LinkedBelow(index, chain, user, h);
      }
    }
    if EndsOff(index, chain, user) {
      forall h | 2 <= h < |chain| && Registers(chain[h], user)
        ensures LinkedBelow(index, chain, user, h)
      {
        if Scan(chain, user, h - 1).None? {
          assert IsFirst(chain, user, h);
        }
      }
    }
  }

  /** Connecting a block keeps the links above the first registration. */
  lemma {:induction false} ChainedConnect(index: Index, index': Index, chain: seq<Block>, b: Block, user: string)
    requires Chained(index, chain, user) && WellFormed(b) && b.nHeight == |chain| > 0 && Connected(index, b, index', user)
    ensures Chained(index', chain + [b], user)
  {
    var chain' := chain + [b];
    ConnectEntries(index, index', chain, b, user);
    assert ChainOk(chain');
    ChainedLatest(index, index', chain, b, user);
    forall h | 2 <= h < |chain'| && Registers(chain'[h], user) && Scan(chain', user, h - 1).Some?
      ensures LinkedBelow(index', chain', user, h)
    {
      ScanExtend(chain, b, user, h - 1);
      assert Get(index', user, h - 1) == EntryConnected(index, b, user, h - 1);
      if h < |chain| {
        assert LinkedBelow(index, chain, user, h);
      }
    }
  }

  lemma {:induction false} ChainedLatest(index: Index, index': Index, chain: seq<Block>, b: Block, user: string)
    requires Chained(index, chain, user) && WellFormed(b) && b.nHeight == |chain| > 0 && Connected(index, b, index', user)
    requires ChainOk(chain + [b])
    ensures LinkAt(index', chain + [b], user, -1, |chain|)
  {
    ScanExtend(chain, b, user, |chain| - 1);
    assert Get(index', user, -1) == EntryConnected(index, b, user, -1);
    if Get(index, user, -1).Some? {
      SamePos(Get(index, user, -1).value, user);
    }
  }

  // ----- connecting the other branch -----

  /** A switch that keeps the lowest `keep` blocks: the blocks to connect stand on them, and none is on the old branch. */
  ghost predicate Switch(chain: seq<Block>, keep: nat, vConnect: seq<Block>)
  {
    ChainOk(chain) && Stands(chain, keep, vConnect)
  }

  predicate Stands(chain: seq<Block>, keep: nat, vConnect: seq<Block>)
  {
    && 1 <= keep <= |chain|
    && forall j :: 0 <= j < |vConnect| ==> vConnect[j].nHeight == keep + j && !InMain(chain, vConnect[j])
  }

  /** The new branch up to its first k new blocks. */
  ghost function Branch(chain: seq<Block>, keep: nat, vConnect: seq<Block>, k: nat): seq<Block>
    requires keep <= |chain| && k <= |vConnect|
  {
    chain[..keep] + vConnect[..k]
  }

  /** The entry below the first registration of a name, if that is at height h on the new branch. */
  ghost function BelowFirst(index: Index, chain: seq<Block>, keep: nat, vConnect: seq<Block>, user: string, h: int): Option<Pos>
    requires ChainOk(chain) && keep <= |chain| && h < keep + |vConnect|
  {
    var latest := if h < keep || Erases(index, chain, keep, user, h) then None else Rolled(index, chain, keep, user);
    if latest.Some? && latest.value.block != vConnect[h - keep] then latest else Get(index, user, h - 1)
  }

  /** The entries of a name once k blocks of the new branch are connected. */
  ghost predicate Midway(index: Index, chain: seq<Block>, keep: nat, vConnect: seq<Block>, k: nat, index': Index, user: string)
    requires Switch(chain, keep, vConnect) && k <= |vConnect|
  {
    && Chained(index', Branch(chain, keep, vConnect, k), user)
    && (InBranch(vConnect, k, user) ==> LeadsInto(index', vConnect, k, user))
    && (!InBranch(vConnect, k, user) ==> RolledTo(index, chain, keep, index', user))
    && (forall key :: 0 <= key < keep - 1 ==> Get(index', user, key) == Get(index, user, key))
    && AllBelowFirst(index, chain, keep, vConnect, k, index', user)
  }

  ghost predicate AllBelowFirst(index: Index, chain: seq<Block>, keep: nat, vConnect: seq<Block>, k: nat, index': Index,
                                user: string)
    requires Switch(chain, keep, vConnect) && k <= |vConnect|
  {
    forall h {:trigger IsFirst(Branch(chain, keep, vConnect, k), user, h)} ::
      keep <= h < keep + k && IsFirst(Branch(chain, keep, vConnect, k), user, h) ==>
        Get(index', user, h - 1) == BelowFirst(index, chain, keep, vConnect, user, h)
  }

  ghost predicate LeadsInto(index: Index, vConnect: seq<Block>, k: nat, user: string)
  {
    Get(index, user, -1).Some? && exists j :: 0 <= j < k <= |vConnect| && Get(index, user, -1).value.block == vConnect[j]
  }

  /** The entries of a name after the overwrite checks of the next block let it pass. */
  ghost predicate Checked(index: Index, chain: seq<Block>, keep: nat, vConnect: seq<Block>, k: nat,
                          index1: Index, index2: Index, user: string)
    requires Switch(chain, keep, vConnect) && k < |vConnect|
  {
    forall key :: Get(index2, user, key) ==
      if key == -1 && ErasedAt(index, chain, keep, vConnect, k, user) then None else Get(index1, user, key)
  }

  ghost predicate ErasedAt(index: Index, chain: seq<Block>, keep: nat, vConnect: seq<Block>, k: nat, user: string)
    requires Switch(chain, keep, vConnect) && k < |vConnect|
  {
    && Registers(vConnect[k], user) && !InBranch(vConnect, k, user)
    && Erases(index, chain, keep, user, keep + k)
  }

  lemma {:induction false} MidwayStart(index: Index, chain: seq<Block>, keep: nat, vConnect: seq<Block>, index': Index, user: string)
    requires Switch(chain, keep, vConnect) && Linked(index, chain, user) && RolledTo(index, chain, keep, index', user)
    ensures Midway(index, chain, keep, vConnect, 0, index', user)
  {
    RolledLinked(index, chain, keep, index', user);
    assert Branch(chain, keep, vConnect, 0) == chain[..keep];
  }

  /** The lowest blocks scan the same on both branches. */
  lemma {:induction false} ScanKept(chain: seq<Block>, keep: nat, other: seq<Block>, user: string, m: int)
    requires keep <= |chain| && keep <= |other| && m < keep && chain[..keep] == other[..keep]
    ensures Scan(other, user, m) == Scan(chain, user, m)
    decreases m
  {
    if m >= 1 {
      assert chain[m] == chain[..keep][m] == other[..keep][m] == other[m];
      ScanKept(chain, keep, other, user, m - 1);
    }
  }

  /** A name is registered among the new blocks exactly when its last registration is one of them. */
  lemma {:induction false} ScanBranch(chain: seq<Block>, keep: nat, vConnect: seq<Block>, k: nat, user: string)
    requires 1 <= keep <= |chain| && k <= |vConnect|
    ensures var r := Scan(Branch(chain, keep, vConnect, k), user, keep + k - 1);
            InBranch(vConnect, k, user) <==> r.Some? && r.value >= keep
  {
    var new_ := Branch(chain, keep, vConnect, k);
    var r := Scan(new_, user, keep + k - 1);
    if r.Some? && r.value >= keep {
      assert new_[r.value] == vConnect[r.value - keep];
    }
    if InBranch(vConnect, k, user) {
      var j :| 0 <= j < k <= |vConnect| && Registers(vConnect[j], user);
      assert new_[keep + j] == vConnect[j];
    }
  }

  lemma {:induction false} NotInBranch(chain: seq<Block>, keep: nat, vConnect: seq<Block>, k: nat, user: string)
    requires 1 <= keep <= |chain| && k <= |vConnect| && !InBranch(vConnect, k, user)
    ensures Scan(Branch(chain, keep, vConnect, k), user, keep + k - 1) == Scan(chain, user, keep - 1)
  {
    var new_ := Branch(chain, keep, vConnect, k);
    assert new_[..keep] == chain[..keep];
    ScanKept(chain, keep, new_, user, keep - 1);
    ScanBranch(chain, keep, vConnect, k, user);
    ScanDown(new_, user, keep - 1, keep + k - 1);
  }

  lemma {:induction false} ScanDown(chain: seq<Block>, user: string, n: int, m: int)
    requires n <= m && (Scan(chain, user, m).None? || Scan(chain, user, m).value <= n)
    ensures Scan(chain, user, n) == Scan(chain, user, m)
  {
  }

  /** Where the latest entry is erased, the kept blocks do not register the name. */
  lemma {:induction false} ErasedUnregistered(index: Index, chain: seq<Block>, keep: nat, user: string, m: int)
    requires Linked(index, chain, user) && 1 <= keep <= |chain| && m >= keep && Erases(index, chain, keep, user, m)
    ensures Scan(chain, user, keep - 1).None?
  {
    ScanStep(chain, user, m, keep - 1);
  }

  lemma {:induction false} CheckedChained(index: Index, chain: seq<Block>, keep: nat, vConnect: seq<Block>, k: nat,
                                          index1: Index, index2: Index, user: string)
    requires Switch(chain, keep, vConnect) && k < |vConnect| && Linked(index, chain, user)
    requires Midway(index, chain, keep, vConnect, k, index1, user)
    requires Checked(index, chain, keep, vConnect, k, index1, index2, user)
    ensures Chained(index2, Branch(chain, keep, vConnect, k), user)
  {
    var new_ := Branch(chain, keep, vConnect, k);
    CheckedLatest(index, chain, keep, vConnect, k, index1, index2, user);
    forall h | 2 <= h < |new_| && Registers(new_[h], user) && Scan(new_, user, h - 1).Some?
      ensures LinkedBelow(index2, new_, user, h)
    {
      assert LinkedBelow(index1, new_, user, h);
    }
  }

  lemma {:induction false} CheckedLatest(index: Index, chain: seq<Block>, keep: nat, vConnect: seq<Block>, k: nat,
                                         index1: Index, index2: Index, user: string)
    requires Switch(chain, keep, vConnect) && k < |vConnect| && Linked(index, chain, user)
    requires Midway(index, chain, keep, vConnect, k, index1, user)
    requires Checked(index, chain, keep, vConnect, k, index1, index2, user)
    ensures LinkAt(index2, Branch(chain, keep, vConnect, k), user, -1, keep + k - 1)
  {
    if ErasedAt(index, chain, keep, vConnect, k, user) {
      ErasedUnregistered(index, chain, keep, user, keep + k);
      NotInBranch(chain, keep, vConnect, k, user);
    }
  }

  /** Connecting one more block. */
  lemma {:induction false} MidwayStep(index: Index, chain: seq<Block>, keep: nat, vConnect: seq<Block>, k: nat,
                                      index1: Index, index2: Index, index3: Index, user: string)
    requires Switch(chain, keep, vConnect) && k < |vConnect| && Linked(index, chain, user) && WellFormed(vConnect[k])
    requires Midway(index, chain, keep, vConnect, k, index1, user)
    requires Checked(index, chain, keep, vConnect, k, index1, index2, user)
    requires Connected(index2, vConnect[k], index3, user)
    ensures Midway(index, chain, keep, vConnect, k + 1, index3, user)
  {
    var b := vConnect[k];
    CheckedChained(index, chain, keep, vConnect, k, index1, index2, user);
    ChainedConnect(index2, index3, Branch(chain, keep, vConnect, k), b, user);
    assert Branch(chain, keep, vConnect, k + 1) == Branch(chain, keep, vConnect, k) + [b];
    BranchGrows(vConnect, k, user);
    assert Get(index3, user, -1) == EntryConnected(index2, b, user, -1);
    FirstsStep(index, chain, keep, vConnect, k, index1, index2, index3, user);
  }

  lemma {:induction false} FirstsStep(index: Index, chain: seq<Block>, keep: nat, vConnect: seq<Block>, k: nat,
                                      index1: Index, index2: Index, index3: Index, user: string)
    requires Switch(chain, keep, vConnect) && k < |vConnect| && WellFormed(vConnect[k])
    requires Midway(index, chain, keep, vConnect, k, index1, user)
    requires Checked(index, chain, keep, vConnect, k, index1, index2, user)
    requires Connected(index2, vConnect[k], index3, user)
    ensures AllBelowFirst(index, chain, keep, vConnect, k + 1, index3, user)
  {
    forall h | keep <= h < keep + k + 1 && IsFirst(Branch(chain, keep, vConnect, k + 1), user, h)
      ensures Get(index3, user, h - 1) == BelowFirst(index, chain, keep, vConnect, user, h)
    {
      FirstStep(index, chain, keep, vConnect, k, index1, index2, index3, user, h);
    }
  }

  lemma BranchGrows(vConnect: seq<Block>, k: nat, user: string)
    requires k < |vConnect|
    ensures InBranch(vConnect, k + 1, user) <==> InBranch(vConnect, k, user) || Registers(vConnect[k], user)
  {
  }

  /** What connecting one more block leaves below the first registration. */
  lemma {:induction false} FirstStep(index: Index, chain: seq<Block>, keep: nat, vConnect: seq<Block>, k: nat,
                                     index1: Index, index2: Index, index3: Index, user: string, h: int)
    requires Switch(chain, keep, vConnect) && k < |vConnect| && WellFormed(vConnect[k])
    requires Midway(index, chain, keep, vConnect, k, index1, user)
    requires Checked(index, chain, keep, vConnect, k, index1, index2, user)
    requires Connected(index2, vConnect[k], index3, user)
    requires keep <= h < keep + k + 1 && IsFirst(Branch(chain, keep, vConnect, k + 1), user, h)
    ensures Get(index3, user, h - 1) == BelowFirst(index, chain, keep, vConnect, user, h)
  {
    var b, new_ := vConnect[k], Branch(chain, keep, vConnect, k);
    assert Branch(chain, keep, vConnect, k + 1) == new_ + [b];
    ScanExtend(new_, b, user, h - 1);
    if h < keep + k {
      assert IsFirst(new_, user, h);
      assert Get(index3, user, h - 1) == EntryConnected(index2, b, user, h - 1);
    } else {
      ScanBranch(chain, keep, vConnect, k, user);
      FirstTop(index, chain, keep, vConnect, k, index1, index2, index3, user);
    }
  }

  lemma {:induction false} FirstTop(index: Index, chain: seq<Block>, keep: nat, vConnect: seq<Block>, k: nat,
                                    index1: Index, index2: Index, index3: Index, user: string)
    requires Switch(chain, keep, vConnect) && k < |vConnect| && WellFormed(vConnect[k])
    requires Registers(vConnect[k], user) && !InBranch(vConnect, k, user) && RolledTo(index, chain, keep, index1, user)
    requires Checked(index, chain, keep, vConnect, k, index1, index2, user)
    requires Connected(index2, vConnect[k], index3, user)
    ensures Get(index3, user, keep + k - 1) == BelowFirst(index, chain, keep, vConnect, user, keep + k)
  {
    assert Get(index3, user, keep + k - 1) == EntryConnected(index2, vConnect[k], user, keep + k - 1);
  }

  // ----- the index after the switch -----

  /** An entry left below the first registration of a name on the new branch leads into the blocks that were connected. */
  ghost predicate LeftOver(index: Index, chain: seq<Block>, keep: nat, vConnect: seq<Block>, user: string)
    requires Switch(chain, keep, vConnect)
  {
    exists h {:trigger IsFirst(chain[..keep] + vConnect, user, h)} ::
      2 <= h && IsFirst(chain[..keep] + vConnect, user, h) && LeftOverAt(index, chain, keep, vConnect, user, h)
  }

  ghost predicate LeftOverAt(index: Index, chain: seq<Block>, keep: nat, vConnect: seq<Block>, user: string, h: int)
    requires Switch(chain, keep, vConnect) && h < keep + |vConnect|
  {
    var e := BelowFirst(index, chain, keep, vConnect, user, h);
    e.Some? && e.value.block in vConnect
  }

  /** After a switch lookups of a name are right exactly when no such entry was left over. */
  lemma {:induction false} SwitchLinkedIff(index: Index, chain: seq<Block>, keep: nat, vConnect: seq<Block>, index': Index,
                                           user: string)
    requires Switch(chain, keep, vConnect) && Linked(index, chain, user)
    requires Midway(index, chain, keep, vConnect, |vConnect|, index', user)
    ensures Linked(index', chain[..keep] + vConnect, user) <==> !LeftOver(index, chain, keep, vConnect, user)
  {
    var new_ := chain[..keep] + vConnect;
    assert Branch(chain, keep, vConnect, |vConnect|) == new_;
    LinkedIff(index', new_, user);
    forall h | 2 <= h && IsFirst(new_, user, h)
      ensures OffChain(index', new_, user, h - 1) <==> !LeftOverAt(index, chain, keep, vConnect, user, h)
    {
      FirstEntry(index, chain, keep, vConnect, index', user, h);
      OffIffLeftOver(index', chain, keep, vConnect, user, h);
    }
  }

  lemma {:induction false} FirstEntry(index: Index, chain: seq<Block>, keep: nat, vConnect: seq<Block>, index': Index,
                                      user: string, h: int)
    requires Switch(chain, keep, vConnect) && Linked(index, chain, user)
    requires Midway(index, chain, keep, vConnect, |vConnect|, index', user)
    requires 2 <= h && IsFirst(chain[..keep] + vConnect, user, h)
    ensures Get(index', user, h - 1) == BelowFirst(index, chain, keep, vConnect, user, h)
    ensures h < keep ==> OffChain(index', chain, user, h - 1)
  {
    var new_ := chain[..keep] + vConnect;
    assert Branch(chain, keep, vConnect, |vConnect|) == new_;
    if h < keep {
      assert new_[..keep] == chain[..keep];
      ScanKept(chain, keep, new_, user, h - 1);
      assert chain[h] == new_[h];
      assert LinkedBelow(index, chain, user, h);
    }
  }

  /** An entry below the first registration is on the new branch only through the blocks that were connected. */
  lemma {:induction false} OffIffLeftOver(index: Index, chain: seq<Block>, keep: nat, vConnect: seq<Block>, user: string, h: int)
    requires Switch(chain, keep, vConnect) && EntriesOk(index, user)
    requires 2 <= h && IsFirst(chain[..keep] + vConnect, user, h)
    requires h < keep ==> OffChain(index, chain, user, h - 1)
    ensures OffChain(index, chain[..keep] + vConnect, user, h - 1) <==>
            !(Get(index, user, h - 1).Some? && Get(index, user, h - 1).value.block in vConnect)
  {
    var new_, e := chain[..keep] + vConnect, Get(index, user, h - 1);
    if e.Some? {
      var g := e.value.block.nHeight;
      SamePos(e.value, user);
      if InMain(new_, e.value.block) && g >= keep {
        assert new_[g] == vConnect[g - keep];
      }
      if e.value.block in vConnect {
        var j :| 0 <= j < |vConnect| && vConnect[j] == e.value.block;
        assert new_[keep + j] == vConnect[j];
      }
    }
  }

  /** Blocks that no entry points at leave nothing over. */
  lemma {:induction false} FreshLeavesNothing(index: Index, chain: seq<Block>, keep: nat, vConnect: seq<Block>, user: string)
    requires Switch(chain, keep, vConnect)
    requires forall j, key :: 0 <= j < |vConnect| ==> !PointsTo(index, user, key, vConnect[j])
    ensures !LeftOver(index, chain, keep, vConnect, user)
  {
    forall h, j | 2 <= h && IsFirst(chain[..keep] + vConnect, user, h) && 0 <= j < |vConnect|
      ensures var e := BelowFirst(index, chain, keep, vConnect, user, h); e.Some? ==> e.value.block != vConnect[j]
    {
      RolledFresh(index, chain, keep, user, vConnect[j]);
      assert !PointsTo(index, user, h - 1, vConnect[j]);
    }
  }

  lemma {:induction false} RolledFresh(index: Index, chain: seq<Block>, n: nat, user: string, b: Block)
    requires n <= |chain| && forall key :: !PointsTo(index, user, key, b)
    ensures Rolled(index, chain, n, user).Some? ==> Rolled(index, chain, n, user).value.block != b
    decreases |chain| - n
  {
    assert !PointsTo(index, user, -1, b) && !PointsTo(index, user, n - 1, b);
    if n < |chain| {
      RolledFresh(index, chain, n + 1, user, b);
    }
  }

  // ----- the index after a switch that stopped -----

  /** Whether the index still answers for a name as before, when the k-th new block is refused at its f-th transaction. */
  ghost predicate Survives(index: Index, chain: seq<Block>, keep: nat, vConnect: seq<Block>, k: nat, f: nat, user: string)
    requires Switch(chain, keep, vConnect) && k < |vConnect|
  {
    if InBranch(vConnect, k, user) then Scan(chain, user, |chain| - 1).None?
    else
      && !(Before(vConnect[k], user, f) && Erases(index, chain, keep, user, keep + k))
      && Rolled(index, chain, keep, user) == Get(index, user, -1)
  }

  /** A name is registered among the first n transactions of a block. */
  ghost predicate Before(b: Block, user: string, n: nat)
  {
    exists i :: 1 <= i < n <= |b.vtx| && b.vtx[i].userName == user
  }

  /** The entries of a name when the checks of the k-th new block have come to its f-th transaction. */
  ghost predicate CheckedTo(index: Index, chain: seq<Block>, keep: nat, vConnect: seq<Block>, k: nat, f: nat,
                            index1: Index, index2: Index, user: string)
    requires Switch(chain, keep, vConnect) && k < |vConnect|
  {
    forall key :: Get(index2, user, key) ==
      if key == -1 && Before(vConnect[k], user, f) && !InBranch(vConnect, k, user) && Erases(index, chain, keep, user, keep + k)
      then None else Get(index1, user, key)
  }

  /** Lookups on the old branch are right after a stopped switch exactly for the names that survive it. */
  lemma {:induction false} StoppedLinkedIff(index: Index, chain: seq<Block>, keep: nat, vConnect: seq<Block>, k: nat, f: nat,
                                            index1: Index, index2: Index, user: string)
    requires Switch(chain, keep, vConnect) && k < |vConnect| && Linked(index, chain, user)
    requires Midway(index, chain, keep, vConnect, k, index1, user)
    requires CheckedTo(index, chain, keep, vConnect, k, f, index1, index2, user)
    ensures Linked(index2, chain, user) <==> Survives(index, chain, keep, vConnect, k, f, user)
  {
    assert EntriesOk(index2, user);
    if InBranch(vConnect, k, user) {
      assert OffChain(index2, chain, user, -1);
    } else {
      forall h | 2 <= h < |chain| && Registers(chain[h], user)
        ensures LinkedBelow(index2, chain, user, h)
      {
        assert LinkedBelow(index, chain, user, h);
      }
      if Scan(chain, user, |chain| - 1).None? {
        RolledUnregistered(index, chain, keep, user);
      }
    }
  }

  lemma {:induction false} RolledUnregistered(index: Index, chain: seq<Block>, n: nat, user: string)
    requires ChainOk(chain) && 1 <= n <= |chain| && Scan(chain, user, |chain| - 1).None?
    ensures Rolled(index, chain, n, user) == Get(index, user, -1)
    decreases |chain| - n
  {
    if n < |chain| {
      RolledUnregistered(index, chain, n + 1, user);
    }
  }
}
