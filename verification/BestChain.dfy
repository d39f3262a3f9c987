/**
 Choosing the best chain: switching the tip to another block, trying candidates in order of
 work, and following soft checkpoints. How reading, connecting, disconnecting and writing turn
 out is given from outside.
 */
module BestChain {
  import opened Wrappers
  import opened BlockTree
  import opened ChainRules
  import opened ChainChoice
  import opened ChainRuns

  class ChainState {
    var mapBlockIndex: Tree
    var invalid: set<Hash>                       // blocks marked BLOCK_FAILED_VALID
    var failed: set<Hash>                        // blocks with either BLOCK_FAILED_MASK bit
    var vBlockIndexByHeight: seq<Option<Hash>>
    var pindexBest: Option<Hash>
    var coinsBest: Option<Hash>                  // best block of the coin view
    var setBlockIndexValid: set<Hash>

    ghost predicate TipOk()
      reads this
    {
      ChainOk(mapBlockIndex, failed, vBlockIndexByHeight, pindexBest)
    }

    ghost predicate Valid()
      reads this
    {
      && TipOk()
      && setBlockIndexValid <= mapBlockIndex.Keys
      && setBlockIndexValid !! failed
      && coinsBest == pindexBest
      && Justified(mapBlockIndex, invalid, failed)
    }

    ghost function Snapshot(): Snap
      reads this
    {
      Snap(mapBlockIndex, failed, setBlockIndexValid, pindexBest)
    }

    ghost function TipPath(): seq<Hash>
      requires TipOk()
      reads this
    {
      PathToTip(mapBlockIndex, pindexBest)
    }

    predicate IsInMainChain(h: Hash)
      requires h in mapBlockIndex
      reads this
    {
      InByHeight(mapBlockIndex, vBlockIndexByHeight, h)
    }

    function GetNextInMainChain(h: Hash): Option<Hash>
      requires h in mapBlockIndex
      reads this
    {
      NextByHeight(mapBlockIndex, vBlockIndexByHeight, h)
    }

    /** The constant-time test finds exactly the tip and its ancestors. */
    lemma InMainChainIff(h: Hash)
      requires TipOk() && h in mapBlockIndex
      ensures IsInMainChain(h) <==> pindexBest.Some? && IsAncestor(mapBlockIndex, h, pindexBest.value)
    {
    }

    constructor ()
      ensures Valid() && mapBlockIndex == map[] && invalid == failed == setBlockIndexValid == {} && pindexBest == None
    {
      mapBlockIndex, invalid, failed, vBlockIndexByHeight := map[], {}, {}, [];
      pindexBest, coinsBest, setBlockIndexValid := None, None, {};
    }

    /** How much of the current chain the path to a block shares, and the fork block itself. */
    method ForkPoint(pindexNew: Hash) returns (pfork: Option<Hash>, keep: nat)
      requires Valid() && pindexNew in mapBlockIndex
      ensures CommonLength(TipPath(), PathTo(mapBlockIndex, pindexNew), keep)
      ensures pfork.None? <==> keep == 0
      ensures pfork.Some? ==> pfork.value in mapBlockIndex && mapBlockIndex[pfork.value].nHeight == keep - 1
      ensures pfork.Some? ==> pindexBest.Some? && IsFork(mapBlockIndex, pfork.value, pindexBest.value, pindexNew)
    {
      if coinsBest.None? {
        return None, 0;
      }
      var f := FindFork(mapBlockIndex, coinsBest.value, pindexNew);
      ForkLength(mapBlockIndex, f, coinsBest.value, pindexNew);
      pfork, keep := Some(f), mapBlockIndex[f].nHeight + 1;
    }

    /** The blocks of the current chain above the fork. */
    method CollectDisconnect(pfork: Option<Hash>, ghost keep: nat) returns (vDisconnect: seq<Hash>)
      requires Valid() && keep <= |TipPath()|
      requires pfork == if keep == 0 then None else Some(TipPath()[keep - 1])
      ensures FromTop(TipPath(), keep, vDisconnect)
    {
      vDisconnect := [];
      var pindex := coinsBest;
      ghost var tip := TipPath();
      while pindex != pfork
        invariant keep + |vDisconnect| <= |tip| && FromTop(tip, |tip| - |vDisconnect|, vDisconnect)
        invariant pindex == if |vDisconnect| == |tip| then None else Some(tip[|tip| - 1 - |vDisconnect|])
        decreases |tip| - |vDisconnect|
      {
        StepDown(mapBlockIndex, coinsBest.value, |tip| - 1 - |vDisconnect|);
        vDisconnect := vDisconnect + [pindex.value];
        pindex := mapBlockIndex[pindex.value].pprev;
      }
    }

    /** The blocks to connect for a new tip, marking what a failed block on the way rules out. */
    method CollectConnect(pindexNew: Hash, pfork: Option<Hash>, ghost keep: nat) returns (vConnect: seq<Hash>)
      requires TreeOk(mapBlockIndex) && pindexNew in mapBlockIndex
      requires keep <= |PathTo(mapBlockIndex, pindexNew)|
      requires pfork == if keep == 0 then None else Some(PathTo(mapBlockIndex, pindexNew)[keep - 1])
      modifies this`failed, this`setBlockIndexValid
      ensures Collected(PathTo(mapBlockIndex, pindexNew), keep, vConnect, old(failed), failed,
                        old(setBlockIndexValid), setBlockIndexValid)
    {
      vConnect, failed, setBlockIndexValid :=
        CollectAbove(mapBlockIndex, pindexNew, pfork, failed, setBlockIndexValid, keep);
    }

    /** A block that turned out invalid. It is not part of the main chain, so nothing needs to be reorganised away. */
    method InvalidBlockFound(h: Hash)
      requires h in mapBlockIndex && !IsInMainChain(h)
      modifies this`invalid, this`failed, this`setBlockIndexValid
      ensures invalid == old(invalid) + {h} && failed == old(failed) + {h}
      ensures setBlockIndexValid == old(setBlockIndexValid) - {h} && GetNextInMainChain(h) == None
    {
      invalid := invalid + {h};
      failed := failed + {h};
      setBlockIndexValid := setBlockIndexValid - {h};
    }

    /**
     The block is the tip. Exactly if no failed block was in between, its path is recorded; then the
     coin view is there too, and nothing else has changed.
     */
    ghost predicate Became(pindexNew: Hash, failed0: set<Hash>, valid0: set<Hash>, keep: nat)
      reads this
    {
      && TreeOk(mapBlockIndex) && pindexNew in mapBlockIndex && keep <= |PathTo(mapBlockIndex, pindexNew)|
      && pindexBest == Some(pindexNew) && coinsBest == BelowFailed(PathTo(mapBlockIndex, pindexNew), failed0, keep)
      && (vBlockIndexByHeight == AllSome(PathTo(mapBlockIndex, pindexNew)) <==>
          NoneFailed(mapBlockIndex, pindexNew, failed0, keep))
      && (NoneFailed(mapBlockIndex, pindexNew, failed0, keep) ==>
            Valid() && failed == failed0 && setBlockIndexValid == valid0)
    }

    /** Makes a block the tip: disconnects down to the fork, connects up from it, then records the new chain. */
    method SetBestChain(pindexNew: Hash, w: World) returns (ok: bool, aborted: bool, ghost keep: nat, ghost q: nat)
      requires Valid() && pindexNew in mapBlockIndex
      modifies this`invalid, this`failed, this`setBlockIndexValid, this`vBlockIndexByHeight, this`pindexBest, this`coinsBest
      ensures CommonLength(old(TipPath()), PathTo(mapBlockIndex, pindexNew), keep)
      ensures q == FirstFailed(PathTo(mapBlockIndex, pindexNew), old(failed), keep)
      ensures ok <==> Goes(w, old(TipPath()), PathTo(mapBlockIndex, pindexNew), keep, q, pindexNew)
      ensures ok ==> !aborted && Became(pindexNew, old(failed), old(setBlockIndexValid), keep)
      ensures !ok ==> pindexBest == old(pindexBest) && vBlockIndexByHeight == old(vBlockIndexByHeight)
      ensures !ok && !aborted ==> Valid()
      ensures aborted ==> !w.flush(pindexNew)
      ensures Marked(old(TipPath()), PathTo(mapBlockIndex, pindexNew), keep, q, w, old(invalid), invalid, old(failed), failed,
                     old(setBlockIndexValid), setBlockIndexValid)
    {
      var k, vDisconnect, vConnect := Prepare(pindexNew);
      keep, q := k, FirstFailed(PathTo(mapBlockIndex, pindexNew), old(failed), k);
      ghost var bad, invalid1, failed1, valid1 := {}, invalid, failed, setBlockIndexValid;
      ok, aborted := false, false;
      GoesIff(w, TipPath(), PathTo(mapBlockIndex, pindexNew), keep, q, pindexNew, vDisconnect, vConnect);
      AddedNone(invalid, failed, setBlockIndexValid);
      if |vConnect| >= |vDisconnect| {
        ok, aborted, bad := Exchange(pindexNew, w, vDisconnect, vConnect, k, old(failed), old(setBlockIndexValid));
      }
      MarkedBy(old(TipPath()), PathTo(mapBlockIndex, pindexNew), keep, q, w, vDisconnect, vConnect, bad, invalid1, invalid,
               old(failed), failed1, failed, old(setBlockIndexValid), valid1, setBlockIndexValid);
    }

    /** Disconnects and connects the collected blocks; a block that turns out invalid is marked. */
    method Exchange(pindexNew: Hash, w: World, vDisconnect: seq<Hash>, vConnect: seq<Hash>, keep: nat,
                    ghost failed0: set<Hash>, ghost valid0: set<Hash>) returns (ok: bool, aborted: bool, ghost bad: set<Hash>)
      requires Valid() && pindexNew in mapBlockIndex && CommonLength(TipPath(), PathTo(mapBlockIndex, pindexNew), keep)
      requires Collected(PathTo(mapBlockIndex, pindexNew), keep, vConnect, failed0, failed, valid0, setBlockIndexValid)
      modifies this`invalid, this`failed, this`setBlockIndexValid, this`vBlockIndexByHeight, this`pindexBest, this`coinsBest
      ensures ok <==> w.flush(pindexNew) && Undone(w, vDisconnect) && AllConnect(w, vConnect)
      ensures ok ==> !aborted && Became(pindexNew, failed0, valid0, keep)
      ensures !ok ==> pindexBest == old(pindexBest) && vBlockIndexByHeight == old(vBlockIndexByHeight)
      ensures !ok && !aborted ==> Valid()
      ensures aborted ==> !w.flush(pindexNew)
      ensures bad == Found(w, vDisconnect, vConnect)
      ensures Added(old(invalid), invalid, old(failed), failed, old(setBlockIndexValid), setBlockIndexValid, bad)
    {
      ok, aborted := false, false;
      AddedNone(invalid, failed, setBlockIndexValid);
      var attempt := TryBlocks(w, vDisconnect, vConnect);
      bad := if attempt.Rejected? then {attempt.h} else {};
      if attempt.Stopped? {
        return;
      }
      if attempt.Rejected? {
        Reject(attempt.h, pindexNew, vConnect, keep, failed0, valid0);
        return;
      }
      ok := Commit(pindexNew, w, vConnect, keep, failed0, valid0);
      aborted := !ok;
    }

    /** Finds the fork, the number of blocks to disconnect and the blocks to connect. */
    method Prepare(pindexNew: Hash) returns (keep: nat, vDisconnect: seq<Hash>, vConnect: seq<Hash>)
      requires Valid() && pindexNew in mapBlockIndex
      modifies this`failed, this`setBlockIndexValid
      ensures Valid() && CommonLength(TipPath(), PathTo(mapBlockIndex, pindexNew), keep)
      ensures FromTop(TipPath(), keep, vDisconnect)
      ensures Collected(PathTo(mapBlockIndex, pindexNew), keep, vConnect, old(failed), failed,
                        old(setBlockIndexValid), setBlockIndexValid)
    {
      var pfork;
      pfork, keep := ForkPoint(pindexNew);
      ForkOnPaths(mapBlockIndex, TipPath(), pindexBest, pindexNew, pfork, keep);
      vDisconnect := CollectDisconnect(pfork, keep);
      vConnect := CollectConnect(pindexNew, pfork, keep);
      MarkedOffTip(mapBlockIndex, old(TipPath()), pindexBest, pindexNew, keep,
                   FirstFailed(PathTo(mapBlockIndex, pindexNew), old(failed), keep));
      CollectedJustified(mapBlockIndex, pindexNew, keep, vConnect, invalid, old(failed), failed, old(setBlockIndexValid),
                         setBlockIndexValid);
    }

    /** One of the blocks to connect is invalid. */
    method Reject(h: Hash, ghost pindexNew: Hash, vConnect: seq<Hash>, ghost keep: nat,
                  ghost failed0: set<Hash>, ghost valid0: set<Hash>)
      requires Valid() && pindexNew in mapBlockIndex && h in vConnect
      requires CommonLength(TipPath(), PathTo(mapBlockIndex, pindexNew), keep)
      requires Collected(PathTo(mapBlockIndex, pindexNew), keep, vConnect, failed0, failed, valid0, setBlockIndexValid)
      modifies this`invalid, this`failed, this`setBlockIndexValid
      ensures Valid() && Added(old(invalid), invalid, old(failed), failed, old(setBlockIndexValid), setBlockIndexValid, {h})
    {
      InvalidJustified(mapBlockIndex, invalid, failed, h);
      ConnectOffTip(mapBlockIndex, pindexBest, pindexNew, keep, vConnect, failed0, failed, valid0, setBlockIndexValid, h);
      InMainChainIff(h);
      InvalidBlockFound(h);
    }

    /** Pushes the coin view, flushes it to disk and only then records the new chain. */
    method Commit(pindexNew: Hash, w: World, vConnect: seq<Hash>, keep: nat, ghost failed0: set<Hash>, ghost valid0: set<Hash>)
      returns (ok: bool)
      requires Valid() && pindexNew in mapBlockIndex && CommonLength(TipPath(), PathTo(mapBlockIndex, pindexNew), keep)
      requires Collected(PathTo(mapBlockIndex, pindexNew), keep, vConnect, failed0, failed, valid0, setBlockIndexValid)
      modifies this`vBlockIndexByHeight, this`pindexBest, this`coinsBest
      ensures ok <==> w.flush(pindexNew)
      ensures !ok ==> pindexBest == old(pindexBest) && vBlockIndexByHeight == old(vBlockIndexByHeight)
      ensures coinsBest == BelowFailed(PathTo(mapBlockIndex, pindexNew), failed0, keep)
      ensures ok ==> Became(pindexNew, failed0, valid0, keep)
    {
      coinsBest := LastConnected(vBlockIndexByHeight, keep, vConnect);
      LastIs(mapBlockIndex, pindexBest, pindexNew, keep, vBlockIndexByHeight, failed, vConnect, failed0);
      ok := w.flush(pindexNew);
      if ok {
        Adopt(pindexNew, vConnect, keep, failed0, valid0);
      }
    }

    /** All blocks are connected: the new chain is recorded. */
    method Adopt(pindexNew: Hash, vConnect: seq<Hash>, keep: nat, ghost failed0: set<Hash>, ghost valid0: set<Hash>)
      requires TipOk() && pindexNew in mapBlockIndex && keep <= |PathTo(mapBlockIndex, pindexNew)|
      requires coinsBest == BelowFailed(PathTo(mapBlockIndex, pindexNew), failed0, keep)
      requires setBlockIndexValid <= mapBlockIndex.Keys && setBlockIndexValid !! failed
      requires Justified(mapBlockIndex, invalid, failed)
      requires CommonLength(TipPath(), PathTo(mapBlockIndex, pindexNew), keep)
      requires Collected(PathTo(mapBlockIndex, pindexNew), keep, vConnect, failed0, failed, valid0, setBlockIndexValid)
      modifies this`vBlockIndexByHeight, this`pindexBest
      ensures Became(pindexNew, failed0, valid0, keep)
    {
      var r := NewByHeight(mapBlockIndex, pindexBest, pindexNew, keep, vConnect, failed0, failed, valid0,
                           setBlockIndexValid, vBlockIndexByHeight);
      vBlockIndexByHeight := r;
      pindexBest := Some(pindexNew);
    }

    /** Walks down from a candidate to a failed block, or else to a block that the main chain builds on. */
    method CheckAncestry(pindexNewBest: Hash)
      returns (bad: bool, pindexTest: Hash, vAttach: seq<Hash>, ghost stop: nat, ghost first: nat)
      requires Valid() && pindexNewBest in mapBlockIndex
      ensures stop < |PathTo(mapBlockIndex, pindexNewBest)| && pindexTest == PathTo(mapBlockIndex, pindexNewBest)[stop]
      ensures Walked(mapBlockIndex, pindexNewBest, failed, pindexBest, stop + (if bad then 1 else 0), first, vAttach)
      ensures bad ==> pindexTest in failed
      ensures !bad ==> Joined(mapBlockIndex, pindexBest, pindexNewBest, stop)
    {
      bad, pindexTest, vAttach, stop, first := WalkDown(mapBlockIndex, failed, vBlockIndexByHeight, pindexBest, pindexNewBest);
    }

    /** Marks everything from a candidate down to (not including) a failed ancestor, and drops it from the candidates. */
    method MarkDescendants(pindexNewBest: Hash, pindexTest: Hash, ghost stop: nat)
      requires Valid() && pindexNewBest in setBlockIndexValid && stop < |PathTo(mapBlockIndex, pindexNewBest)|
      requires pindexTest == PathTo(mapBlockIndex, pindexNewBest)[stop] && pindexTest in failed
      modifies this`failed, this`setBlockIndexValid
      ensures Valid() && setBlockIndexValid < old(setBlockIndexValid)
      ensures failed == old(failed) + Elements(PathTo(mapBlockIndex, pindexNewBest)[stop..])
      ensures setBlockIndexValid == old(setBlockIndexValid) - Elements(PathTo(mapBlockIndex, pindexNewBest)[stop..])
    {
      FailedOffTip(mapBlockIndex, failed, pindexBest, pindexNewBest, stop);
      MarkJustified(mapBlockIndex, invalid, failed, pindexNewBest, stop);
      failed, setBlockIndexValid := MarkAbove(mapBlockIndex, pindexNewBest, pindexTest, failed, setBlockIndexValid, stop);
    }

    /** Makes the listed blocks the tip one after another. */
    method Attach(pindexNewBest: Hash, w: World, vAttach: seq<Hash>, ghost stop: nat, ghost first: nat)
      returns (ok: bool, aborted: bool)
      requires Valid() && Walked(mapBlockIndex, pindexNewBest, failed, pindexBest, stop, first, vAttach)
      requires Joined(mapBlockIndex, pindexBest, pindexNewBest, stop)
      modifies this`invalid, this`failed, this`setBlockIndexValid, this`vBlockIndexByHeight, this`pindexBest, this`coinsBest
      ensures !aborted || !ok
      ensures !aborted ==> Valid()
      ensures ok ==> pindexBest == (if vAttach == [] then old(pindexBest) else Some(pindexNewBest))
      ensures Advances(mapBlockIndex, old(pindexBest), pindexBest)
      ensures ok ==> setBlockIndexValid == old(setBlockIndexValid)
      ensures Dropped(old(failed), failed, old(setBlockIndexValid), setBlockIndexValid)
      ensures aborted ==> !DiskOk(w)
      ensures Sound(w) ==> AttachJudged(mapBlockIndex, old(pindexBest), w, pindexNewBest, first, vAttach, ok, failed, pindexBest)
    {
      AttachedNone(mapBlockIndex, failed, pindexBest, pindexNewBest, stop, first, vAttach, w);
      for j := 0 to |vAttach|
        invariant Valid() && failed == old(failed) && setBlockIndexValid == old(setBlockIndexValid)
        invariant AttachedTo(mapBlockIndex, failed, old(pindexBest), pindexBest, pindexNewBest, stop, first, vAttach, j, w)
      {
        ok, aborted := AttachOne(pindexNewBest, w, vAttach, j, stop, first, old(pindexBest));
        if !ok {
          return;
        }
      }
      AttachedAll(mapBlockIndex, failed, old(pindexBest), pindexBest, pindexNewBest, stop, first, vAttach, w);
      ok, aborted := true, false;
    }

    /** Makes one of the listed blocks the tip. */
    method AttachOne(ghost pindexNewBest: Hash, w: World, vAttach: seq<Hash>, j: nat, ghost stop: nat, ghost first: nat,
                     ghost best0: Option<Hash>) returns (ok: bool, aborted: bool)
      requires Valid() && j < |vAttach|
      requires AttachedTo(mapBlockIndex, failed, best0, pindexBest, pindexNewBest, stop, first, vAttach, j, w)
      modifies this`invalid, this`failed, this`setBlockIndexValid, this`vBlockIndexByHeight, this`pindexBest, this`coinsBest
      ensures ok ==> Valid() && !aborted && failed == old(failed) && setBlockIndexValid == old(setBlockIndexValid)
      ensures ok ==> AttachedTo(mapBlockIndex, failed, best0, pindexBest, pindexNewBest, stop, first, vAttach, j + 1, w)
      ensures !ok ==> pindexBest == old(pindexBest)
      ensures !aborted ==> Valid()
      ensures Dropped(old(failed), failed, old(setBlockIndexValid), setBlockIndexValid)
      ensures aborted ==> !DiskOk(w)
      ensures !ok && Sound(w) ==> AttachJudged(mapBlockIndex, best0, w, pindexNewBest, first, vAttach, false, failed, pindexBest)
    {
      ghost var keep, q;
      AttachedPath(mapBlockIndex, pindexNewBest, first, vAttach, j);
      ok, aborted, keep, q := SetBestChain(vAttach[j], w);
      AttachedNext(mapBlockIndex, old(failed), best0, old(pindexBest), pindexNewBest, stop, first, vAttach, j, keep, q, w, failed);
    }

    /** Makes the candidate with the most work the tip; a candidate above a failed block is dropped and the next one tried. */
    method ConnectBestBlock(w: World) returns (ok: bool, aborted: bool)
      requires Valid()
      modifies this`invalid, this`failed, this`setBlockIndexValid, this`vBlockIndexByHeight, this`pindexBest, this`coinsBest
      ensures !aborted ==> Valid()
      ensures ok ==> !aborted && TipLeads(mapBlockIndex, setBlockIndexValid, pindexBest)
      ensures Advances(mapBlockIndex, old(pindexBest), pindexBest)
      ensures Dropped(old(failed), failed, old(setBlockIndexValid), setBlockIndexValid)
      ensures aborted ==> !DiskOk(w)
      ensures Sound(w) ==>
                HeaviestJudged(mapBlockIndex, old(failed), old(setBlockIndexValid), old(pindexBest), w, ok, failed, pindexBest)
    {
      var done := false;
      ok, aborted := true, false;
      while !done && setBlockIndexValid != {}
        invariant !done ==> Valid() && pindexBest == old(pindexBest) && ok && !aborted
        invariant !done ==> CleanKept(mapBlockIndex, old(failed), failed, old(setBlockIndexValid), setBlockIndexValid)
        invariant Dropped(old(failed), failed, old(setBlockIndexValid), setBlockIndexValid)
        invariant done ==> (!aborted ==> Valid()) && Advances(mapBlockIndex, old(pindexBest), pindexBest)
        invariant done && ok ==> !aborted && TipLeads(mapBlockIndex, setBlockIndexValid, pindexBest)
        invariant aborted ==> !DiskOk(w)
        invariant done && Sound(w) ==>
                    HeaviestJudged(mapBlockIndex, old(failed), old(setBlockIndexValid), old(pindexBest), w, ok, failed, pindexBest)
        decreases !done, setBlockIndexValid
      {
        ghost var failed1, valid1 := failed, setBlockIndexValid;
        done, ok, aborted := TryGreatest(w);
        if done && Sound(w) {
          JudgedEarlier(mapBlockIndex, old(failed), failed1, old(setBlockIndexValid), valid1, old(pindexBest), w, ok, failed,
                        pindexBest);
        }
        if !done {
          CleanThrough(mapBlockIndex, old(failed), failed1, failed, old(setBlockIndexValid), valid1, setBlockIndexValid);
        }
      }
      if !done {
        NoneLeft(mapBlockIndex, old(failed), failed, old(setBlockIndexValid), pindexBest);
      }
    }

    /** One round: the candidate with the most work is attached, or dropped if it is above a failed block. */
    method TryGreatest(w: World) returns (done: bool, ok: bool, aborted: bool)
      requires Valid() && setBlockIndexValid != {}
      modifies this`invalid, this`failed, this`setBlockIndexValid, this`vBlockIndexByHeight, this`pindexBest, this`coinsBest
      ensures !done ==> Valid() && pindexBest == old(pindexBest) && ok && !aborted && setBlockIndexValid < old(setBlockIndexValid)
      ensures !done ==> CleanKept(mapBlockIndex, old(failed), failed, old(setBlockIndexValid), setBlockIndexValid)
      ensures Dropped(old(failed), failed, old(setBlockIndexValid), setBlockIndexValid)
      ensures done ==> (!aborted ==> Valid()) && Advances(mapBlockIndex, old(pindexBest), pindexBest)
      ensures done && ok ==> !aborted && TipLeads(mapBlockIndex, setBlockIndexValid, pindexBest)
      ensures aborted ==> !DiskOk(w)
      ensures done && Sound(w) ==>
                HeaviestJudged(mapBlockIndex, old(failed), old(setBlockIndexValid), old(pindexBest), w, ok, failed, pindexBest)
    {
      HasGreatest(mapBlockIndex, setBlockIndexValid);
      var pindexNewBest: Hash :|
        pindexNewBest in setBlockIndexValid && IsGreatest(mapBlockIndex, setBlockIndexValid, pindexNewBest);
      CleanSame(mapBlockIndex, failed, setBlockIndexValid);
      if pindexBest.Some? && (pindexNewBest == pindexBest.value ||
                              mapBlockIndex[pindexNewBest].nChainWork == mapBlockIndex[pindexBest.value].nChainWork) {
        NoneHeavier(mapBlockIndex, failed, failed, setBlockIndexValid, setBlockIndexValid, pindexBest, pindexNewBest);
        return true, true, false;
      }
      var bad, pindexTest, vAttach;
      ghost var stop, first;
      bad, pindexTest, vAttach, stop, first := CheckAncestry(pindexNewBest);
      if bad {
        MarkKeepsClean(mapBlockIndex, failed, failed, setBlockIndexValid, setBlockIndexValid, pindexNewBest, stop);
        MarkDescendants(pindexNewBest, pindexTest, stop);
        return false, true, false;
      }
      done := true;
      ok, aborted := AttachGreatest(pindexNewBest, w, vAttach, stop, first);
    }

    method AttachGreatest(g: Hash, w: World, vAttach: seq<Hash>, ghost stop: nat, ghost first: nat)
      returns (ok: bool, aborted: bool)
      requires Valid() && IsGreatest(mapBlockIndex, setBlockIndexValid, g)
      requires Walked(mapBlockIndex, g, failed, pindexBest, stop, first, vAttach)
      requires Joined(mapBlockIndex, pindexBest, g, stop)
      modifies this`invalid, this`failed, this`setBlockIndexValid, this`vBlockIndexByHeight, this`pindexBest, this`coinsBest
      ensures !aborted ==> Valid()
      ensures Advances(mapBlockIndex, old(pindexBest), pindexBest)
      ensures Dropped(old(failed), failed, old(setBlockIndexValid), setBlockIndexValid)
      ensures ok ==> !aborted && TipLeads(mapBlockIndex, setBlockIndexValid, pindexBest)
      ensures aborted ==> !DiskOk(w)
      ensures Sound(w) ==>
                HeaviestJudged(mapBlockIndex, old(failed), old(setBlockIndexValid), old(pindexBest), w, ok, failed, pindexBest)
    {
      LeadsAfter(mapBlockIndex, setBlockIndexValid, g, failed, pindexBest, stop, first, vAttach);
      ok, aborted := Attach(g, w, vAttach, stop, first);
      if Sound(w) {
        JudgedIs(mapBlockIndex, old(failed), old(setBlockIndexValid), old(pindexBest), w, g, stop, first, vAttach,
                 ok, failed, pindexBest);
      }
    }

    /** Enters a new block, without a failure mark, as a candidate. */
    method Insert(hash: Hash, hashPrevBlock: Hash, work: nat)
      requires Valid() && hash !in mapBlockIndex && (hashPrevBlock in mapBlockIndex || mapBlockIndex == map[])
      modifies this`mapBlockIndex, this`setBlockIndexValid
      ensures Valid() && mapBlockIndex == Extended(old(mapBlockIndex), hash, hashPrevBlock, work)
      ensures setBlockIndexValid == old(setBlockIndexValid) + {hash} && failed == old(failed) && invalid == old(invalid)
    {
      JustifiedGrows(mapBlockIndex, invalid, failed, hash, hashPrevBlock, work);
      ChainGrows(mapBlockIndex, failed, vBlockIndexByHeight, pindexBest, hash, hashPrevBlock, work);
      mapBlockIndex := Extended(mapBlockIndex, hash, hashPrevBlock, work);
      setBlockIndexValid := setBlockIndexValid + {hash};
    }

    /** A block with a known parent, or the very first one, becomes a candidate and the tip is chosen again. */
    method AddToBlockIndex(hash: Hash, hashPrevBlock: Hash, work: nat, w: World) returns (ok: bool, aborted: bool)
      requires Valid() && (hashPrevBlock in mapBlockIndex || mapBlockIndex == map[])
      modifies this
      ensures !aborted ==> Valid()
      ensures aborted ==> !DiskOk(w)
      ensures Arrived(old(Snapshot()), hash, hashPrevBlock, work, w, ok, Snapshot())
      ensures ok ==> !aborted && TipLeads(mapBlockIndex, setBlockIndexValid, pindexBest)
    {
      if hash in mapBlockIndex {
        return false, false;
      }
      Insert(hash, hashPrevBlock, work);
      if !w.write(hash) {
        return false, true;
      }
      ok, aborted := ConnectBestBlock(w);
    }

    /** The walk up from a checkpoint: some ancestor is on the main chain, unless there is no main chain yet. */
    method HasMainAncestor(cp: Hash) returns (r: bool)
      requires Valid() && cp in mapBlockIndex
      ensures r <==> pindexBest.Some?
    {
      var pindex := Some(cp);
      ghost var i: nat := mapBlockIndex[cp].nHeight;
      while pindex.Some? && !IsInMainChain(pindex.value)
        invariant pindex.Some? ==> i < |PathTo(mapBlockIndex, cp)| && pindex.value == PathTo(mapBlockIndex, cp)[i]
        invariant pindex.None? ==> !IsInMainChain(PathTo(mapBlockIndex, cp)[0])
        decreases pindex.Some?, i
      {
        StepDown(mapBlockIndex, cp, i);
        pindex := mapBlockIndex[pindex.value].pprev;
        i := if i > 0 then i - 1 else 0;
      }
      if pindexBest.Some? {
        SameGenesis(mapBlockIndex, pindexBest.value, cp);
      }
      r := pindex.Some?;
    }

    /** Follows the last soft checkpoint, whatever work it has and whatever failed below it. */
    method SetSoftCPBestChain(cp: Option<Hash>, w: World) returns (switched: bool, aborted: bool)
      requires Valid()
      modifies this`invalid, this`failed, this`setBlockIndexValid, this`vBlockIndexByHeight, this`pindexBest, this`coinsBest
      ensures Followed(old(Snapshot()), cp, w, Snapshot())
      ensures switched <==> Pending(old(Snapshot()), cp) && GoesTo(old(Snapshot()), cp.value, w)
      ensures switched ==> !aborted && (Valid() <==> Clean(mapBlockIndex, old(failed), cp.value))
      ensures switched ==> (coinsBest == pindexBest <==> Clean(mapBlockIndex, old(failed), cp.value))
      ensures !switched && !aborted ==> Valid()
      ensures !Pending(old(Snapshot()), cp) ==> !aborted && unchanged(this)
      ensures aborted ==> !DiskOk(w)
    {
      switched, aborted := false, false;
      if cp.None? || cp.value !in mapBlockIndex {
        return;
      }
      InMainChainIff(cp.value);
      if IsInMainChain(cp.value) {
        return;
      }
      var found := HasMainAncestor(cp.value);
      if !found {
        return;
      }
      ghost var before, keep, q := Snapshot(), 0, 0;
      switched, aborted, keep, q := SetBestChain(cp.value, w);
      BelowFailedIff(mapBlockIndex, cp.value, before.failed, keep);
      GoesToIff(before, cp.value, w, keep);
      CleanIff(before, cp.value, keep);
    }
  }

  /**
   Any number of arriving blocks and voted checkpoints. Blocks without a known parent wait
   elsewhere. After every accepted block the last soft checkpoint is followed. The account ends
   with a disk error, or where the coin view and the tip part.
   */
  method Receive(node: ChainState, events: seq<Event>) returns (status: Status, ghost trace: seq<Turn>)
    requires node.Valid()
    modifies node
    ensures Ran(events, trace, old(node.Snapshot()), node.Snapshot()) && Course(events, trace, status)
    ensures status == Running ==> |trace| == |events| && node.Valid()
    ensures TipKept(old(node.Snapshot()), node.Snapshot(), trace)
  {
    var lastSoftCP: Option<Hash> := None;
    ghost var first, last := node.Snapshot(), node.Snapshot();
    status, trace := Running, [];
    var i := 0;
    while i < |events| && status == Running
      invariant i == |trace| <= |events| && lastSoftCP == LastVote(events, i)
      invariant Ran(events, trace, first, last) && Course(events, trace, status)
      invariant node.Snapshot() == last && (status == Running ==> node.Valid())
      decreases |events| - i
    {
      if events[i].Votes? {
        lastSoftCP := Some(events[i].cp);
      }
      ghost var turn;
      status, turn := Take(node, events[i], lastSoftCP);
      RanOn(events, trace, first, last, turn);
      CourseOn(events, trace, turn, status);
      trace, last := trace + [turn], turn.after;
      i := i + 1;
    }
    RunKeeps(events, trace, first, last);
  }

  /** One event: a block with a known parent is added, and then the last soft checkpoint followed. */
  method Take(node: ChainState, e: Event, lastSoftCP: Option<Hash>) returns (status: Status, ghost turn: Turn)
    requires node.Valid()
    modifies node
    ensures turn.before == old(node.Snapshot()) && turn.after == node.Snapshot() && TurnOk(e, lastSoftCP, turn)
    ensures status == Running ==> node.Valid()
    ensures status == Aborted ==> !WorldsOk(e)
    ensures status == Derailed <==> Derails(turn)
  {
    ghost var before := node.Snapshot();
    var accepted, aborted := true, false;
    if e.Arrival? {
      accepted, aborted := Handle(node, e.hash, e.hashPrevBlock, e.work, e.w);
    }
    ghost var handled := node.Snapshot();
    status := if aborted then Aborted else Running;
    if accepted {
      status := Follow(node, lastSoftCP, e.w');
    }
    turn := Turn(before, handled, node.Snapshot(), accepted);
  }

  /** A block with a known parent is added. */
  method Handle(node: ChainState, hash: Hash, hashPrevBlock: Hash, work: nat, w: World) returns (accepted: bool, aborted: bool)
    requires node.Valid()
    modifies node
    ensures Arrived(old(node.Snapshot()), hash, hashPrevBlock, work, w, accepted, node.Snapshot())
    ensures !aborted ==> node.Valid()
    ensures aborted ==> !accepted && !DiskOk(w)
  {
    accepted, aborted := false, false;
    if hashPrevBlock in node.mapBlockIndex || node.mapBlockIndex == map[] {
      accepted, aborted := node.AddToBlockIndex(hash, hashPrevBlock, work, w);
    }
  }

  /** The last soft checkpoint is followed, if there is one; the coin view tells whether it stands above a failed block. */
  method Follow(node: ChainState, lastSoftCP: Option<Hash>, w: World) returns (status: Status)
    requires node.Valid()
    modifies node
    ensures Followed(old(node.Snapshot()), lastSoftCP, w, node.Snapshot())
    ensures status == Running ==> node.Valid()
    ensures status == Aborted ==> !DiskOk(w) && node.pindexBest == old(node.pindexBest)
    ensures status == Derailed <==> node.pindexBest != old(node.pindexBest) &&
                                    !Clean(node.mapBlockIndex, old(node.failed), node.pindexBest.value)
    ensures status == Derailed ==> !node.Valid()
  {
    var switched, aborted := node.SetSoftCPBestChain(lastSoftCP, w);
    status := if aborted then Aborted else if node.coinsBest != node.pindexBest then Derailed else Running;
  }
}
