/**
 Runs of switches: what they keep of the username index and of the histories of names, and the
 inputs on which they do not.
 */
module NameHistories {
  import opened Wrappers
  import opened UsernameIndex
  import opened NameRuns
  import opened NameSwitch
  import opened NameVerdicts
  import opened NameKeys
  import opened NameChain

  // ----- extending the tip -----

  /** Nothing was ever disconnected: every entry is on the main chain. */
  ghost predicate AllMain(index: Index, chain: seq<Block>)
  {
    forall user, key :: Get(index, user, key).Some? ==> InMain(chain, Get(index, user, key).value.block)
  }

  lemma {:induction false} MainGrows(index: Index, index': Index, chain: seq<Block>, b: Block)
    requires b.nHeight == |chain| && AllMain(index, chain) && Inherits(index, [b], index')
    ensures AllMain(index', chain + [b])
  {
    forall user, key | Get(index', user, key).Some?
      ensures InMain(chain + [b], Get(index', user, key).value.block)
    {
      var p := Get(index', user, key).value;
      assert Known(index, [b], user, p.block);
      if p.block != b {
        var key' :| PointsTo(index, user, key', p.block);
      }
    }
  }

  /** No entry points at the block: it was not connected before. */
  ghost predicate Unindexed(index: Index, b: Block)
  {
    forall user, key :: !PointsTo(index, user, key, b)
  }

  ghost predicate AllUnindexed(index: Index, blocks: seq<Block>)
  {
    forall b :: b in blocks ==> Unindexed(index, b)
  }

  lemma {:induction false} NothingLeftOver(index: Index, chain: seq<Block>, keep: nat, vConnect: seq<Block>)
    requires Switch(chain, keep, vConnect) && AllUnindexed(index, vConnect)
    ensures forall user :: !LeftOver(index, chain, keep, vConnect, user)
  {
    forall user
      ensures !LeftOver(index, chain, keep, vConnect, user)
    {
      assert forall j :: 0 <= j < |vConnect| ==> Unindexed(index, vConnect[j]);
      FreshLeavesNothing(index, chain, keep, vConnect, user);
    }
  }

  lemma MainUnindexed(index: Index, chain: seq<Block>, b: Block)
    requires b.nHeight == |chain| && AllMain(index, chain)
    ensures Unindexed(index, b)
  {
    forall user, key
      ensures !PointsTo(index, user, key, b)
    {
      assert Get(index, user, key).Some? ==> InMain(chain, Get(index, user, key).value.block);
    }
  }

  /** The block is well formed, its spam message is signed by a registered user or anonymous, and its registrations are permitted. */
  ghost predicate BlockPermitted(c: Crypto, chain: seq<Block>, b: Block)
    requires ChainOk(chain)
  {
    && WellFormed(b) && SpamOk(c, b.vtx[0], ScanPos(chain, b.vtx[0].userName, |chain| - 1))
    && forall i :: 1 <= i < |b.vtx| ==> Permitted(c, chain, b.vtx[i])
  }

  lemma {:induction false} PermittedIffAllowed(c: Crypto, chain: seq<Block>, b: Block)
    requires ChainOk(chain)
    ensures BlockPermitted(c, chain, b) <==> BlockAllowed(c, chain, b)
  {
    if WellFormed(b) {
      MessageIff(c, chain, |chain|, b.vtx[0]);
      forall i | 1 <= i < |b.vtx|
        ensures Permitted(c, chain, b.vtx[i]) <==> Allowed(c, chain, b.vtx[i])
      {
        AllowedIff(c, chain, b.vtx[i]);
      }
    }
  }

  /** On top of the tip the signer of a spam message is looked up as on the chain. */
  lemma {:induction false} ExtensionSpam(c: Crypto, index: Index, chain: seq<Block>, b: Block)
    requires |chain| > 0 && ChainOk(chain) && AllLinked(index, chain) && b.nHeight == |chain| && b.vtx != []
    requires Switch(chain, |chain|, [b])
    ensures SpamPasses(c, index, chain, |chain|, [b], 0) <==> SpamOk(c, b.vtx[0], ScanPos(chain, b.vtx[0].userName, |chain| - 1))
  {
    var user := b.vtx[0].userName;
    assert Linked(index, chain, user);
    if Scan(chain, user, |chain| - 1).Some? {
      ConsultedKept(index, chain, |chain|, user, |chain|);
    } else {
      assert Rolled(index, chain, |chain|, user) == Get(index, user, -1);
    }
  }

  /** One block on top of the tip is clean, and the verdicts on it are right. */
  lemma {:induction false} ExtensionExact(c: Crypto, index: Index, chain: seq<Block>, b: Block)
    requires |chain| > 0 && ChainOk(chain) && AllLinked(index, chain) && b.nHeight == |chain|
    ensures Switch(chain, |chain|, [b])
    ensures WellFormed(b) ==> Clean(c, [b])
    ensures PassTo(c, index, chain, |chain|, [b], 1) <==> BlockPermitted(c, chain, b)
  {
    assert Branch(chain, |chain|, [b], 0) == chain;
    forall i | 1 <= i < |b.vtx|
      ensures Refuses(c, index, chain, |chain|, [b], 0, i) <==> !Permitted(c, chain, b.vtx[i])
    {
      ExtensionVerdict(c, index, chain, b, i);
    }
    if WellFormed(b) {
      ExtensionSpam(c, index, chain, b);
    }
    assert [b][0] == b;
  }

  lemma {:induction false} ExtensionVerdict(c: Crypto, index: Index, chain: seq<Block>, b: Block, i: nat)
    requires |chain| > 0 && ChainOk(chain) && AllLinked(index, chain) && b.nHeight == |chain| && 1 <= i < |b.vtx|
    requires Switch(chain, |chain|, [b])
    ensures Refuses(c, index, chain, |chain|, [b], 0, i) <==> !Permitted(c, chain, b.vtx[i])
  {
    var user := b.vtx[i].userName;
    assert Linked(index, chain, user) && Branch(chain, |chain|, [b], 0) == chain;
    VerdictIff(c, index, chain, |chain|, [b], 0, i);
    if Scan(chain, user, |chain| - 1).None? {
      assert Rolled(index, chain, |chain|, user) == Get(index, user, -1);
    }
  }

  /** A refused extension of the tip leaves every lookup as it was. */
  lemma {:induction false} ExtensionSurvives(index: Index, chain: seq<Block>, b: Block, f: nat)
    requires |chain| > 0 && ChainOk(chain) && b.nHeight == |chain| && Switch(chain, |chain|, [b])
    ensures forall user :: Survives(index, chain, |chain|, [b], 0, f, user)
  {
  }

  /**
   Any run that only extends the tip: lookups keep agreeing with a scan, keys are handed on from each
   registration of a name to the next, and messages are signed. No name is taken from a key that never signs.
   */
  method ExtendRun(node: NameIndex, blocks: seq<Block>)
    requires node.Valid() && AllMain(node.txIndex, node.chain) && AllLegitimate(node.crypto, node.chain)
    modifies node
    ensures node.Valid() && AllMain(node.txIndex, node.chain) && AllLegitimate(node.crypto, node.chain)
    ensures old(node.chain) <= node.chain && Custody(node.crypto, node.chain)
    ensures HashesDiffer(node.crypto) ==> NothingTaken(node.crypto, node.chain)
    ensures MessagesSigned(node.crypto, old(node.chain)) ==> MessagesSigned(node.crypto, node.chain)
  {
    for i := 0 to |blocks|
      invariant node.Valid() && AllMain(node.txIndex, node.chain) && AllLegitimate(node.crypto, node.chain)
      invariant old(node.chain) <= node.chain
      invariant MessagesSigned(node.crypto, old(node.chain)) ==> MessagesSigned(node.crypto, node.chain)
    {
      if blocks[i].nHeight == |node.chain| {
        var ok := Extend(node, blocks[i]);
      }
    }
    CustodyIff(node.crypto, node.chain);
    if HashesDiffer(node.crypto) {
      CustodyKeeps(node.crypto, node.chain);
    }
  }

  /** Connects one block on top of the tip, if it is allowed there. */
  method Extend(node: NameIndex, b: Block) returns (ok: bool)
    requires node.Valid() && AllMain(node.txIndex, node.chain) && AllLegitimate(node.crypto, node.chain)
    requires b.nHeight == |node.chain|
    modifies node
    ensures node.Valid() && AllMain(node.txIndex, node.chain) && AllLegitimate(node.crypto, node.chain)
    ensures ok <==> BlockAllowed(node.crypto, old(node.chain), b)
    ensures node.chain == if ok then old(node.chain) + [b] else old(node.chain)
    ensures MessagesSigned(node.crypto, old(node.chain)) ==> MessagesSigned(node.crypto, node.chain)
  {
    ok := ExtendPermitted(node, b);
    PermittedIffAllowed(node.crypto, old(node.chain), b);
    if ok && MessagesSigned(node.crypto, old(node.chain)) {
      MessagesMore(node.crypto, old(node.chain), b);
    }
  }

  method ExtendPermitted(node: NameIndex, b: Block) returns (ok: bool)
    requires node.Valid() && AllMain(node.txIndex, node.chain) && AllLegitimate(node.crypto, node.chain)
    requires b.nHeight == |node.chain|
    modifies node
    ensures node.Valid() && AllMain(node.txIndex, node.chain) && AllLegitimate(node.crypto, node.chain)
    ensures ok <==> BlockPermitted(node.crypto, old(node.chain), b)
    ensures node.chain == if ok then old(node.chain) + [b] else old(node.chain)
  {
    ghost var index, chain := node.txIndex, node.chain;
    ExtensionExact(node.crypto, index, chain, b);
    MainUnindexed(index, chain, b);
    NothingLeftOver(index, chain, |chain|, [b]);
    ghost var keep, k, f;
    ok, keep, k, f := node.Reorganise(0, [b]);
    if ok {
      assert chain[..|chain|] + [b] == chain + [b];
      MainGrows(index, node.txIndex, chain, b);
    } else {
      ExtensionSurvives(index, chain, b, f);
      MainKept(index, chain, node.txIndex);
    }
  }

  lemma {:induction false} MainKept(index: Index, chain: seq<Block>, index': Index)
    requires AllMain(index, chain) && Inherits(index, [], index')
    ensures AllMain(index', chain)
  {
    forall user, key | Get(index', user, key).Some?
      ensures InMain(chain, Get(index', user, key).value.block)
    {
      var p := Get(index', user, key).value;
      assert Known(index, [], user, p.block);
      var key' :| PointsTo(index, user, key', p.block);
    }
  }

  // ----- switches between branches -----

  /** A change of tip: how many blocks are disconnected, and the blocks connected instead. */
  datatype Reorg = Reorg(nDisconnect: nat, vConnect: seq<Block>)

  ghost predicate Good(c: Crypto, chain: seq<Block>)
  {
    ChainOk(chain) && AllLegitimate(c, chain)
  }

  ghost predicate CleanReorg(c: Crypto, r: Reorg)
  {
    AllWellFormed(r.vConnect, |r.vConnect|) && Clean(c, r.vConnect)
  }

  /** What a node holds of names: the index and the by-height vector. */
  datatype Names = Names(index: Index, chain: seq<Block>)

  /** The new blocks stand on the chain, and are not fewer than those to disconnect. */
  ghost predicate Eligible(chain: seq<Block>, r: Reorg)
  {
    r.nDisconnect < |chain| && Switch(chain, |chain| - r.nDisconnect, r.vConnect) && r.nDisconnect <= |r.vConnect|
  }

  ghost predicate GoesThrough(c: Crypto, s: Names, r: Reorg)
  {
    Eligible(s.chain, r) && PassTo(c, s.index, s.chain, |s.chain| - r.nDisconnect, r.vConnect, |r.vConnect|)
  }

  /** A block is refused after others were disconnected, or perhaps connected. */
  ghost predicate StopsPartWay(c: Crypto, s: Names, r: Reorg)
  {
    Eligible(s.chain, r) && !GoesThrough(c, s, r) && (r.nDisconnect > 0 || |r.vConnect| > 1)
  }

  /** The chain moves exactly if the switch goes through, and histories are then legitimate exactly if the new blocks are clean. */
  ghost predicate Moved(c: Crypto, s: Names, r: Reorg, s': Names)
  {
    if GoesThrough(c, s, r)
    then
      && s'.chain == s.chain[..|s.chain| - r.nDisconnect] + r.vConnect
      && (Good(c, s.chain) ==> (Good(c, s'.chain) <==> CleanReorg(c, r)))
    else s'.chain == s.chain
  }

  /** Blocks of the reorganisations from the i-th on are not indexed, and differ from one to another. */
  ghost predicate Fresh(index: Index, reorgs: seq<Reorg>, i: nat)
  {
    && (forall j :: i <= j < |reorgs| ==> AllUnindexed(index, reorgs[j].vConnect))
    && forall j, k, b :: i <= j < k < |reorgs| && b in reorgs[j].vConnect ==> b !in reorgs[k].vConnect
  }

  lemma {:induction false} UnindexedKept(index: Index, blocks: seq<Block>, index': Index, b: Block)
    requires Inherits(index, blocks, index') && Unindexed(index, b) && b !in blocks
    ensures Unindexed(index', b)
  {
    forall user, key
      ensures !PointsTo(index', user, key, b)
    {
      assert Get(index', user, key).Some? ==> Known(index, blocks, user, Get(index', user, key).value.block);
    }
  }

  lemma {:induction false} FreshKept(index: Index, reorgs: seq<Reorg>, i: nat, k: nat, index': Index)
    requires i < |reorgs| && k <= |reorgs[i].vConnect| && Fresh(index, reorgs, i)
    requires Inherits(index, reorgs[i].vConnect[..k], index')
    ensures Fresh(index', reorgs, i + 1)
  {
    forall j | i + 1 <= j < |reorgs|
      ensures AllUnindexed(index', reorgs[j].vConnect)
    {
      assert AllUnindexed(index, reorgs[j].vConnect);
      forall b | b in reorgs[j].vConnect
        ensures Unindexed(index', b)
      {
        assert forall d :: d in reorgs[i].vConnect[..k] ==> d in reorgs[i].vConnect;
        UnindexedKept(index, reorgs[i].vConnect[..k], index', b);
      }
    }
  }

  /** One reorganisation to blocks that were never connected: lookups stay right unless it is stopped part-way. */
  method SwitchTo(node: NameIndex, r: Reorg) returns (live: bool, ghost k: nat)
    requires node.Valid() && AllUnindexed(node.txIndex, r.vConnect)
    modifies node
    ensures live ==> node.Valid()
    ensures live <==> !StopsPartWay(node.crypto, old(Names(node.txIndex, node.chain)), r)
    ensures Moved(node.crypto, old(Names(node.txIndex, node.chain)), r, Names(node.txIndex, node.chain))
    ensures k <= |r.vConnect| && Inherits(old(node.txIndex), r.vConnect[..k], node.txIndex)
  {
    live, k := true, 0;
    InheritsAll(node.txIndex);
    if r.nDisconnect < |node.chain| && Stands(node.chain, |node.chain| - r.nDisconnect, r.vConnect) {
      live, k := Perform(node, r);
    }
  }

  method Perform(node: NameIndex, r: Reorg) returns (live: bool, ghost k: nat)
    requires node.Valid() && AllUnindexed(node.txIndex, r.vConnect)
    requires r.nDisconnect < |node.chain| && Stands(node.chain, |node.chain| - r.nDisconnect, r.vConnect)
    modifies node
    ensures live ==> node.Valid()
    ensures live <==> !StopsPartWay(node.crypto, old(Names(node.txIndex, node.chain)), r)
    ensures Moved(node.crypto, old(Names(node.txIndex, node.chain)), r, Names(node.txIndex, node.chain))
    ensures k <= |r.vConnect| && Inherits(old(node.txIndex), r.vConnect[..k], node.txIndex)
  {
    ghost var s := Names(node.txIndex, node.chain);
    var ok;
    ghost var keep, f;
    ok, keep, k, f := node.Reorganise(r.nDisconnect, r.vConnect);
    assert s == old(Names(node.txIndex, node.chain));
    live := ok || |r.vConnect| < r.nDisconnect || (r.nDisconnect == 0 && |r.vConnect| == 1);
    LiveIff(node.crypto, s, r, ok);
    Performed(node.crypto, s, keep, r, ok, k, f, Names(node.txIndex, node.chain));
  }

  lemma {:induction false} Performed(c: Crypto, s: Names, keep: nat, r: Reorg, ok: bool, k: nat, f: nat, s': Names)
    requires keep == |s.chain| - r.nDisconnect && 0 < keep && Switch(s.chain, keep, r.vConnect)
    requires AllLinked(s.index, s.chain) && AllUnindexed(s.index, r.vConnect)
    requires ok <==> GoesThrough(c, s, r)
    requires ok ==> Switched(c, s.index, s.chain, keep, r.vConnect, s'.index, s'.chain)
    requires !ok ==> s'.chain == s.chain
    requires |r.vConnect| < r.nDisconnect ==> s'.index == s.index
    requires !ok && r.nDisconnect <= |r.vConnect| ==> Stopped(c, s.index, s.chain, keep, r.vConnect, k, f, s'.index)
    ensures Moved(c, s, r, s')
    ensures ok || |r.vConnect| < r.nDisconnect || (r.nDisconnect == 0 && |r.vConnect| == 1) ==>
              |s'.chain| > 0 && ChainOk(s'.chain) && AllLinked(s'.index, s'.chain)
  {
    if ok {
      SwitchedTo(c, s, keep, r, s');
    } else if r.nDisconnect == 0 && |r.vConnect| == 1 {
      StoppedExtension(c, s.index, s.chain, r.vConnect, k, f, s'.index);
    }
  }

  lemma LiveIff(c: Crypto, s: Names, r: Reorg, ok: bool)
    requires r.nDisconnect < |s.chain| && Switch(s.chain, |s.chain| - r.nDisconnect, r.vConnect)
    requires ok <==> r.nDisconnect <= |r.vConnect| && PassTo(c, s.index, s.chain, |s.chain| - r.nDisconnect, r.vConnect, |r.vConnect|)
    ensures ok <==> GoesThrough(c, s, r)
    ensures !StopsPartWay(c, s, r) <==> ok || |r.vConnect| < r.nDisconnect || (r.nDisconnect == 0 && |r.vConnect| == 1)
  {
    assert r.vConnect == [] ==> PassTo(c, s.index, s.chain, |s.chain| - r.nDisconnect, r.vConnect, 0);
  }

  lemma {:induction false} SwitchedTo(c: Crypto, s: Names, keep: nat, r: Reorg, s': Names)
    requires keep == |s.chain| - r.nDisconnect && Switch(s.chain, keep, r.vConnect) && GoesThrough(c, s, r)
    requires Switched(c, s.index, s.chain, keep, r.vConnect, s'.index, s'.chain) && AllUnindexed(s.index, r.vConnect)
    ensures |s'.chain| > 0 && ChainOk(s'.chain) && AllLinked(s'.index, s'.chain) && Moved(c, s, r, s')
  {
    SwitchedFresh(c, s.index, s.chain, keep, r.vConnect, s'.index, s'.chain);
    SwitchedMoves(c, s, keep, r, s');
  }

  lemma {:induction false} SwitchedFresh(c: Crypto, index: Index, chain: seq<Block>, keep: nat, vConnect: seq<Block>,
                                         index': Index, chain': seq<Block>)
    requires Switch(chain, keep, vConnect) && Switched(c, index, chain, keep, vConnect, index', chain')
    requires AllUnindexed(index, vConnect)
    ensures |chain'| > 0 && AllLinked(index', chain')
  {
    NothingLeftOver(index, chain, keep, vConnect);
    forall user
      ensures Linked(index', chain', user)
    {
      assert !LeftOver(index, chain, keep, vConnect, user);
    }
  }

  lemma SwitchedMoves(c: Crypto, s: Names, keep: nat, r: Reorg, s': Names)
    requires keep == |s.chain| - r.nDisconnect && Switch(s.chain, keep, r.vConnect) && GoesThrough(c, s, r)
    requires Switched(c, s.index, s.chain, keep, r.vConnect, s'.index, s'.chain)
    ensures Moved(c, s, r, s')
  {
  }

  lemma {:induction false} StoppedExtension(c: Crypto, index: Index, chain: seq<Block>, vConnect: seq<Block>, k: nat, f: nat,
                                            index': Index)
    requires |vConnect| == 1 && Switch(chain, |chain|, vConnect)
    requires Stopped(c, index, chain, |chain|, vConnect, k, f, index')
    ensures AllLinked(index', chain)
  {
    assert vConnect == [vConnect[0]];
    ExtensionSurvives(index, chain, vConnect[0], f);
  }

  /** One reorganisation of a run: from, what, to, and whether the run can go on. */
  type Step = (Names, Reorg, Names, bool) -> bool

  ghost function Took(c: Crypto): (step: Step)
  {
    (s, r, s', live) => Moved(c, s, r, s') && (live <==> !StopsPartWay(c, s, r))
  }

  /** The states before and after each of the reorganisations: only the last one may have been stopped part-way. */
  ghost predicate Ran(step: Step, states: seq<Names>, reorgs: seq<Reorg>, live: bool)
    decreases |states|
  {
    if |states| <= 1 then |states| == 1 && live
    else
      var n := |states| - 2;
      n < |reorgs| && Ran(step, states[..n + 1], reorgs, true) && step(states[n], reorgs[n], states[n + 1], live)
  }

  lemma {:induction false} RanOn(step: Step, states: seq<Names>, reorgs: seq<Reorg>, live: bool, s: Names)
    requires Ran(step, states, reorgs, true) && 1 <= |states| <= |reorgs|
    requires step(states[|states| - 1], reorgs[|states| - 1], s, live)
    ensures Ran(step, states + [s], reorgs, live)
  {
    assert (states + [s])[..|states|] == states;
  }

  /**
   Any run of reorganisations to new blocks, until one is stopped part-way: lookups stay right, and
   all histories on the way are legitimate exactly when every reorganisation that went through was clean.
   */
  method Run(node: NameIndex, reorgs: seq<Reorg>) returns (live: bool, ghost states: seq<Names>)
    requires node.Valid() && Fresh(node.txIndex, reorgs, 0)
    modifies node
    ensures Ran(Took(node.crypto), states, reorgs, live) && states[0] == old(Names(node.txIndex, node.chain))
    ensures states[|states| - 1] == Names(node.txIndex, node.chain)
    ensures live ==> |states| == |reorgs| + 1 && node.Valid()
    ensures |states| <= |reorgs| + 1
    ensures AllGood(node.crypto, states) <==> Good(node.crypto, states[0].chain) && AllClean(node.crypto, states, reorgs)
  {
    var n := 0;
    live, states := true, [Names(node.txIndex, node.chain)];
    while n < |reorgs| && live
      invariant n <= |reorgs| && |states| == n + 1 && Ran(Took(node.crypto), states, reorgs, live)
      invariant states[0] == old(Names(node.txIndex, node.chain)) && states[n] == Names(node.txIndex, node.chain)
      invariant live ==> node.Valid() && Fresh(node.txIndex, reorgs, n)
      decreases |reorgs| - n
    {
      ghost var index, k := node.txIndex, 0;
      live, k := SwitchTo(node, reorgs[n]);
      FreshKept(index, reorgs, n, k, node.txIndex);
      RanOn(Took(node.crypto), states, reorgs, live, Names(node.txIndex, node.chain));
      states := states + [Names(node.txIndex, node.chain)];
      n := n + 1;
    }
    GoodIffClean(node.crypto, states, reorgs, live);
  }

  ghost predicate AllGood(c: Crypto, states: seq<Names>)
  {
    forall j :: 0 <= j < |states| ==> Good(c, states[j].chain)
  }

  /** Every reorganisation that went through connected blocks that are clean among themselves. */
  ghost predicate AllClean(c: Crypto, states: seq<Names>, reorgs: seq<Reorg>)
    requires |states| <= |reorgs| + 1
    decreases |states|
  {
    |states| <= 1 ||
    (var n := |states| - 2;
     AllClean(c, states[..n + 1], reorgs) && (GoesThrough(c, states[n], reorgs[n]) ==> CleanReorg(c, reorgs[n])))
  }

  lemma {:induction false} GoodIffClean(c: Crypto, states: seq<Names>, reorgs: seq<Reorg>, live: bool)
    requires Ran(Took(c), states, reorgs, live)
    ensures |states| <= |reorgs| + 1
    ensures AllGood(c, states) <==> Good(c, states[0].chain) && AllClean(c, states, reorgs)
    decreases |states|
  {
    if |states| > 1 {
      var n := |states| - 2;
      GoodIffClean(c, states[..n + 1], reorgs, true);
      GoodMore(c, states);
    }
  }

  lemma GoodMore(c: Crypto, states: seq<Names>)
    requires |states| > 0
    ensures var n := |states| - 1; AllGood(c, states) <==> AllGood(c, states[..n]) && Good(c, states[n].chain)
  {
    assert states == states[..|states| - 1] + [states[|states| - 1]];
  }

  /**
   Two blocks at one height that both register a new name: connecting the first, undoing it for
   the second, and going back to the first makes lookups below that height run forever, also
   once the chain has grown.
   */
  lemma {:induction false} ReconnectLoops(chain: seq<Block>, b: Block, c: Block, user: string,
                                          i1: Index, i2: Index, i3: Index, i4: Index, i5: Index,
                                          chain': seq<Block>, rounds: nat)
    requires ChainOk(chain) && |chain| >= 2 && Scan(chain, user, |chain| - 1) == None && b != c
    requires WellFormed(b) && b.nHeight == |chain| && Registers(b, user)
    requires WellFormed(c) && c.nHeight == |chain| && Registers(c, user)
    requires Connected(map[], c, i1, user) && Disconnected(i1, c, i2, user)
    requires Connected(i2, b, i3, user) && Disconnected(i3, b, i4, user) && Connected(i4, c, i5, user)
    requires chain + [c] <= chain'
    ensures Walk(i5, chain', user, -1, |chain| - 1, rounds).None?
  {
    var h := |chain|;
    assert Get(i1, user, -1) == Some(PosIn(c, user)) && Get(i1, user, h - 1) == None;
    assert Get(i2, user, -1) == Some(PosIn(c, user)) && Get(i2, user, h - 1) == None;
    assert Get(i3, user, -1) == Some(PosIn(b, user)) && Get(i3, user, h - 1) == Some(PosIn(c, user));
    assert Get(i4, user, -1) == Some(PosIn(c, user)) && Get(i4, user, h - 1) == Some(PosIn(c, user));
    assert Get(i5, user, -1) == Some(PosIn(c, user)) && Get(i5, user, h - 1) == Some(PosIn(c, user));
    assert chain'[h] == (chain + [c])[h] == c;
    if rounds > 0 {
      LoopsAt(i5, chain', c, user, rounds - 1);
    }
  }

  /**
   In that sequence the first switch lets b's registration through if it succeeds c's, for instance
   because it is the same transaction, and the switch back is never refused.
   */
  lemma {:induction false} ReconnectVerdicts(crypto: Crypto, chain: seq<Block>, b: Block, c: Block, user: string,
                                             i1: Index, i2: Index, i3: Index, i: nat, j: nat)
    requires ChainOk(chain) && |chain| >= 2 && b != c
    requires WellFormed(b) && b.nHeight == |chain| && 1 <= i < |b.vtx| && b.vtx[i].userName == user
    requires WellFormed(c) && c.nHeight == |chain| && 1 <= j < |c.vtx| && c.vtx[j].userName == user
    requires Connected(map[], c, i1, user) && Disconnected(i1, c, i2, user) && Connected(i2, b, i3, user)
    ensures Switch(chain + [c], |chain|, [b]) && Switch(chain + [b], |chain|, [c])
    ensures Refuses(crypto, i1, chain + [c], |chain|, [b], 0, i) <==> !SucceedsAt(crypto, b.vtx[i], Pos(c, j))
    ensures !Refuses(crypto, i3, chain + [b], |chain|, [c], 0, j)
  {
    var h := |chain|;
    SamePos(Pos(b, i), user);
    SamePos(Pos(c, j), user);
    assert Get(i1, user, -1) == Some(Pos(c, j)) && Get(i1, user, h - 1) == None;
    assert Get(i2, user, -1) == Some(Pos(c, j)) && Get(i2, user, h - 1) == None;
    assert Get(i3, user, -1) == Some(Pos(b, i)) && Get(i3, user, h - 1) == Some(Pos(c, j));
    assert (chain + [c])[h] == c && (chain + [b])[h] == b;
    assert Rolled(i1, chain + [c], h + 1, user) == Some(Pos(c, j)) && Rolled(i3, chain + [b], h + 1, user) == Some(Pos(b, i));
    assert Rolled(i1, chain + [c], h, user) == Some(Pos(c, j));
    assert Rolled(i3, chain + [b], h, user) == Some(Pos(c, j));
  }

  lemma {:induction false} LoopsAt(index: Index, chain: seq<Block>, c: Block, user: string, rounds: nat)
    requires InMain(chain, c) && c.nHeight >= 2 && WellFormed(c) && Registers(c, user)
    requires Get(index, user, c.nHeight - 1) == Some(PosIn(c, user))
    ensures Walk(index, chain, user, c.nHeight - 1, c.nHeight - 1, rounds).None?
  {
    if rounds > 0 {
      LoopsAt(index, chain, c, user, rounds - 1);
    }
  }

  // ----- three switches -----

  /** A block that registers one name, if any, with a key and a signature on it. */
  function BlockOf(height: nat, name: string, signature: string, rest: nat): Block
  {
    Block(height, [Tx(NOBODY, true, None, 0)] + (if name == "" then [] else [Named(name, signature, rest)]), rest)
  }

  function Named(name: string, signature: string, rest: nat): Tx
  {
    Tx(name, false, Some(["key", signature]), rest)
  }

  /** Hashes that tell transactions apart, one good signature on keys, and good ones on all messages. */
  function OneSignature(): Crypto
  {
    Crypto((tx: Tx) => tx.rest, (key: string, signature: string) => if signature == "good" then Some(0) else None,
           (key: string) => 0, (tx: Tx) => Some(0))
  }

  lemma OneName(height: nat, name: string, signature: string, rest: nat, user: string)
    ensures var b := BlockOf(height, name, signature, rest);
            WellFormed(b) && (Registers(b, user) <==> name != "" && name == user)
    ensures var b := BlockOf(height, name, signature, rest);
            name != "" && height > 0 ==> Registers(b, name) && PosIn(b, name) == Pos(b, 1) && b.vtx[1] == Named(name, signature, rest)
  {
    var b := BlockOf(height, name, signature, rest);
    if name != "" {
      assert b.vtx[1].userName == name;
    }
  }

  /** Two blocks connected by one switch register a name with different keys, unsigned: both are accepted. */
  lemma {:induction false} TakeoverAccepted()
    ensures var c, chain := OneSignature(), [BlockOf(0, "", "", 0), BlockOf(1, "", "", 1)];
            var vConnect := [BlockOf(1, "u", "", 2), BlockOf(2, "u", "", 3)];
            && Switch(chain, 1, vConnect) && AllLinked(map[], chain) && AllLegitimate(c, chain)
            && PassTo(c, map[], chain, 1, vConnect, 2)
            && ChainOk(chain[..1] + vConnect) && !AllLegitimate(c, chain[..1] + vConnect)
  {
    var c, chain := OneSignature(), [BlockOf(0, "", "", 0), BlockOf(1, "", "", 1)];
    var vConnect := [BlockOf(1, "u", "", 2), BlockOf(2, "u", "", 3)];
    TakeoverPasses(c, chain, vConnect);
    SwitchLegitimateIff(c, map[], chain, 1, vConnect);
    TakeoverUnclean(c, vConnect);
  }

  lemma {:induction false} TakeoverUnclean(c: Crypto, vConnect: seq<Block>)
    requires c == OneSignature() && vConnect == [BlockOf(1, "u", "", 2), BlockOf(2, "u", "", 3)]
    ensures AllWellFormed(vConnect, 2) && !Clean(c, vConnect)
  {
    OneName(1, "u", "", 2, "u");
    OneName(2, "u", "", 3, "u");
    assert LastIn(vConnect, 1, "u") == Some(0);
    assert !CleanAt(c, vConnect, 1, 1);
  }

  lemma {:induction false} TakeoverPasses(c: Crypto, chain: seq<Block>, vConnect: seq<Block>)
    requires chain == [BlockOf(0, "", "", 0), BlockOf(1, "", "", 1)]
    requires vConnect == [BlockOf(1, "u", "", 2), BlockOf(2, "u", "", 3)]
    ensures Switch(chain, 1, vConnect) && AllLinked(map[], chain) && AllLegitimate(c, chain)
    ensures PassTo(c, map[], chain, 1, vConnect, 2)
  {
    forall user
      ensures Linked(map[], chain, user)
    {
      OneName(0, "", "", 0, user);
      OneName(1, "", "", 1, user);
    }
    OneName(0, "", "", 0, "u");
    OneName(1, "", "", 1, "u");
    OneName(1, "u", "", 2, "u");
    OneName(2, "u", "", 3, "u");
    assert InBranch(vConnect, 1, "u") by {
      assert Registers(vConnect[0], "u");
    }
    assert Rolled(map[], chain, 2, "u") == None && Rolled(map[], chain, 1, "u") == None;
    assert Passes(c, map[], chain, 1, vConnect, 0, 2);
    assert Passes(c, map[], chain, 1, vConnect, 1, 2);
  }

  /** A name that only the old branch has keeps the new branch from registering it with another key. */
  lemma {:induction false} NewcomerShutOut()
    ensures var c, old_, new_ := OneSignature(), BlockOf(1, "u", "", 1), BlockOf(1, "u", "", 2);
            var chain, index := [BlockOf(0, "", "", 0), old_], map[Key("u", -1) := Pos(old_, 1)];
            && Switch(chain, 1, [new_]) && AllLinked(index, chain)
            && ChainOk(chain[..1]) && Permitted(c, chain[..1], new_.vtx[1])
            && Refuses(c, index, chain, 1, [new_], 0, 1)
  {
    var c, old_, new_ := OneSignature(), BlockOf(1, "u", "", 1), BlockOf(1, "u", "", 2);
    var chain, index := [BlockOf(0, "", "", 0), old_], map[Key("u", -1) := Pos(old_, 1)];
    OldOnly(chain, index, old_);
    OneName(1, "u", "", 2, "u");
    OneName(0, "", "", 0, "u");
    assert Consulted(index, chain, 1, "u", 1) == Some(Pos(old_, 1));
  }

  /** A spam message is let through on the word of a registration that only the old branch has. */
  lemma {:induction false} SignerLeftBehind()
    ensures var c, old_ := OneSignature(), BlockOf(1, "u", "", 1);
            var new_ := Block(1, [Tx("u", true, None, 0)], 2);
            var chain, index := [BlockOf(0, "", "", 0), old_], map[Key("u", -1) := Pos(old_, 1)];
            && Switch(chain, 1, [new_]) && AllLinked(index, chain)
            && PassTo(c, index, chain, 1, [new_], 1) && ScanPos(chain[..1], "u", 0).None?
  {
    var old_, new_ := BlockOf(1, "u", "", 1), Block(1, [Tx("u", true, None, 0)], 2);
    var chain, index := [BlockOf(0, "", "", 0), old_], map[Key("u", -1) := Pos(old_, 1)];
    OldOnly(chain, index, old_);
    assert Consulted(index, chain, 1, "u", 1) == Some(Pos(old_, 1));
  }

  lemma {:induction false} OldOnly(chain: seq<Block>, index: Index, old_: Block)
    requires old_ == BlockOf(1, "u", "", 1)
    requires chain == [BlockOf(0, "", "", 0), old_] && index == map[Key("u", -1) := Pos(old_, 1)]
    ensures ChainOk(chain) && AllLinked(index, chain) && Rolled(index, chain, 1, "u") == Some(Pos(old_, 1))
  {
    forall user
      ensures Linked(index, chain, user)
    {
      OneName(0, "", "", 0, user);
      OneName(1, "u", "", 1, user);
      OneName(1, "u", "", 1, "u");
    }
    OneName(0, "", "", 0, "u");
    OneName(1, "u", "", 1, "u");
  }

  /** A refused switch forgets a key replacement on the branch that stays: the name then leads to its older key. */
  lemma {:induction false} ReplacementForgotten()
    ensures var c, first, second, other := OneSignature(), BlockOf(1, "u", "", 1), BlockOf(2, "u", "good", 2), BlockOf(2, "u", "", 3);
            var chain := [BlockOf(0, "", "", 0), first, second];
            var index := map[Key("u", -1) := Pos(second, 1), Key("u", 1) := Pos(first, 1)];
            && Switch(chain, 2, [other]) && AllLinked(index, chain) && AllLegitimate(c, chain)
            && StopsAt(c, index, chain, 2, [other], 0, 1) && !Survives(index, chain, 2, [other], 0, 1, "u")
            && Rolled(index, chain, 2, "u") == Some(Pos(first, 1))
  {
    var c, first, second, other := OneSignature(), BlockOf(1, "u", "", 1), BlockOf(2, "u", "good", 2), BlockOf(2, "u", "", 3);
    var chain := [BlockOf(0, "", "", 0), first, second];
    var index := map[Key("u", -1) := Pos(second, 1), Key("u", 1) := Pos(first, 1)];
    ReplacementLinked(chain, index, first, second);
    OneName(1, "u", "", 1, "u");
    OneName(2, "u", "good", 2, "u");
    OneName(2, "u", "", 3, "u");
    assert Rolled(index, chain, 3, "u") == Some(Pos(second, 1));
    assert Rolled(index, chain, 2, "u") == Some(Pos(first, 1));
    assert Consulted(index, chain, 2, "u", 2) == Some(Pos(first, 1));
  }

  lemma {:induction false} ReplacementLinked(chain: seq<Block>, index: Index, first: Block, second: Block)
    requires first == BlockOf(1, "u", "", 1) && second == BlockOf(2, "u", "good", 2)
    requires chain == [BlockOf(0, "", "", 0), first, second]
    requires index == map[Key("u", -1) := Pos(second, 1), Key("u", 1) := Pos(first, 1)]
    ensures ChainOk(chain) && AllLinked(index, chain) && AllLegitimate(OneSignature(), chain)
  {
    OneName(0, "", "", 0, "u");
    OneName(1, "u", "", 1, "u");
    OneName(2, "u", "good", 2, "u");
    assert ChainOk(chain);
    forall user
      ensures Linked(index, chain, user)
    {
      OneName(1, "u", "", 1, user);
      OneName(2, "u", "good", 2, user);
    }
    assert Scan(chain, "u", 0) == None && Scan(chain, "u", 1) == Some(1);
  }
}
