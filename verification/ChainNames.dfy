/**
 The choice of the tip and the index of names together: a switch of the tip goes through exactly
 when the overwrite and spam checks let the new blocks pass, and it moves both records of the
 main chain to the same blocks.
 */
module ChainNames {
  import opened Wrappers
  import opened BlockTree
  import opened UsernameIndex
  import opened NameSwitch
  import opened NameVerdicts
  import opened NameHistories
  import ChainRules

  /** The blocks behind some hashes. */
  function Bodies(body: Hash -> Block, s: seq<Hash>): (r: seq<Block>)
    ensures |r| == |s| && forall i :: 0 <= i < |s| ==> r[i] == body(s[i])
  {
    seq(|s|, i requires 0 <= i < |s| => body(s[i]))
  }

  /** Blocks differ, and are at the heights that the tree has them at. */
  ghost predicate Fits(body: Hash -> Block, m: Tree)
  {
    && (forall x :: x in m ==> body(x).nHeight == m[x].nHeight)
    && (forall x, y {:trigger body(x), body(y)} :: x in m && y in m && body(x) == body(y) ==> x == y)
  }

  lemma {:induction false} FirstIsRoot(m: Tree, h: Hash)
    requires TreeOk(m) && h in m
    ensures IsRoot(m, PathTo(m, h)[0])
  {
    assert LinkOk(m, PathTo(m, h)[0]);
  }

  /** All chains have the genesis block. */
  lemma {:induction false} ForkAboveGenesis(m: Tree, a: Hash, b: Hash, keep: nat)
    requires TreeOk(m) && a in m && b in m && ChainRules.CommonLength(PathTo(m, a), PathTo(m, b), keep)
    ensures keep >= 1
  {
    FirstIsRoot(m, a);
    FirstIsRoot(m, b);
  }

  lemma FrontsMeet(a: seq<Hash>, b: seq<Hash>, n: nat, k: nat)
    requires k < n <= |a| && n <= |b| && a[..n] == b[..n]
    ensures a[k] == b[k]
  {
    assert a[..n][k] == b[..n][k];
  }

  /** Above the fork no block of the one chain is on the other. */
  lemma {:induction false} ApartAbove(m: Tree, a: Hash, b: Hash, keep: nat, i: nat)
    requires TreeOk(m) && a in m && b in m && ChainRules.CommonLength(PathTo(m, a), PathTo(m, b), keep)
    requires keep <= i < |PathTo(m, b)|
    ensures i < |PathTo(m, a)| ==> PathTo(m, a)[i] != PathTo(m, b)[i]
  {
    var tip, path := PathTo(m, a), PathTo(m, b);
    if i < |tip| && tip[i] == path[i] {
      ChainRules.PathsMeet(m, a, b, i);
      FrontsMeet(tip, path, i + 1, keep);
    }
  }

  /** The new blocks stand on the main chain at the fork. */
  lemma {:induction false} StandsAtFork(body: Hash -> Block, m: Tree, a: Hash, b: Hash, keep: nat, q: nat)
    requires TreeOk(m) && a in m && b in m && Fits(body, m) && keep <= q <= |PathTo(m, b)|
    requires ChainRules.CommonLength(PathTo(m, a), PathTo(m, b), keep)
    ensures Stands(Bodies(body, PathTo(m, a)), keep, Bodies(body, PathTo(m, b)[keep..q]))
  {
    var tip, path := PathTo(m, a), PathTo(m, b);
    var chain, vConnect := Bodies(body, tip), Bodies(body, path[keep..q]);
    ForkAboveGenesis(m, a, b, keep);
    forall j | 0 <= j < |vConnect|
      ensures vConnect[j].nHeight == keep + j && !InMain(chain, vConnect[j])
    {
      assert vConnect[j] == body(path[keep + j]) && path[keep + j] in m;
      ApartAbove(m, a, b, keep, keep + j);
      if keep + j < |tip| {
        assert chain[keep + j] == body(tip[keep + j]) && tip[keep + j] in m;
      }
    }
  }

  /** What the switch from the tip to h, as far as height q, does to names. */
  ghost function NameReorg(body: Hash -> Block, tip: seq<Hash>, path: seq<Hash>, keep: nat, q: nat): Reorg
    requires keep <= |tip| && keep <= q <= |path|
  {
    Reorg(|tip| - keep, Bodies(body, path[keep..q]))
  }

  /** The k-th new block is let through by the checks. */
  ghost predicate BlockPasses(c: Crypto, s: Names, r: Reorg, keep: nat, k: nat)
  {
    && Switch(s.chain, keep, r.vConnect) && k < |r.vConnect|
    && Passes(c, s.index, s.chain, keep, r.vConnect, k, |r.vConnect[k].vtx|)
  }

  /** Disconnecting and flushing succeed, and a block is connected exactly if the checks let it pass. */
  ghost predicate NamesDecide(w: ChainRules.World, c: Crypto, s: Names, r: Reorg, tip: seq<Hash>, path: seq<Hash>, keep: nat,
                              q: nat, h: Hash)
    requires keep <= |tip| && keep <= q <= |path|
  {
    && w.flush(h) && (forall i :: keep <= i < |tip| ==> w.undo(tip[i]))
    && forall i :: keep <= i < q ==> (w.connect(path[i]) == ChainRules.Connected <==> BlockPasses(c, s, r, keep, i - keep))
  }

  lemma {:induction false} ThroughIff(c: Crypto, s: Names, r: Reorg, keep: nat)
    requires r.nDisconnect < |s.chain| && keep == |s.chain| - r.nDisconnect && Switch(s.chain, keep, r.vConnect)
    ensures GoesThrough(c, s, r) <==>
            r.nDisconnect <= |r.vConnect| && forall k :: 0 <= k < |r.vConnect| ==> BlockPasses(c, s, r, keep, k)
  {
    if GoesThrough(c, s, r) {
      forall k | 0 <= k < |r.vConnect|
        ensures BlockPasses(c, s, r, keep, k)
      {
        assert r.vConnect[k] in r.vConnect;
      }
    }
    if forall k :: 0 <= k < |r.vConnect| ==> BlockPasses(c, s, r, keep, k) {
      forall k | 0 <= k < |r.vConnect|
        ensures Passes(c, s.index, s.chain, keep, r.vConnect, k, |r.vConnect[k].vtx|)
      {
        assert BlockPasses(c, s, r, keep, k);
      }
    }
  }

  lemma {:induction false} GoesIffThrough(w: ChainRules.World, c: Crypto, s: Names, r: Reorg, tip: seq<Hash>, path: seq<Hash>,
                                          keep: nat, q: nat, h: Hash)
    requires 1 <= keep <= |tip| == |s.chain| && keep <= q <= |path| && NamesDecide(w, c, s, r, tip, path, keep, q, h)
    requires r.nDisconnect == |tip| - keep && |r.vConnect| == q - keep && Switch(s.chain, keep, r.vConnect)
    ensures ChainRules.Goes(w, tip, path, keep, q, h) <==> GoesThrough(c, s, r)
  {
    ThroughIff(c, s, r, keep);
    if ChainRules.Goes(w, tip, path, keep, q, h) {
      forall k | 0 <= k < |r.vConnect|
        ensures BlockPasses(c, s, r, keep, k)
      {
        assert w.connect(path[keep + k]) == ChainRules.Connected;
      }
    }
    if GoesThrough(c, s, r) {
      forall i | keep <= i < q
        ensures w.connect(path[i]) == ChainRules.Connected
      {
        assert BlockPasses(c, s, r, keep, i - keep);
      }
    }
  }

  lemma {:induction false} ChainBodies(body: Hash -> Block, tip: seq<Hash>, path: seq<Hash>, keep: nat, q: nat)
    requires keep <= |tip| && keep <= q <= |path| && tip[..keep] == path[..keep]
    ensures Bodies(body, tip)[..keep] + Bodies(body, path[keep..q]) == Bodies(body, path[..q])
  {
    forall i | 0 <= i < keep
      ensures tip[i] == path[i]
    {
      assert tip[..keep][i] == path[..keep][i];
    }
  }

  /** A switch of the tip to h, where the names decide, goes through exactly when the index of names takes it. */
  lemma {:induction false} SwitchIff(w: ChainRules.World, c: Crypto, s: Names, body: Hash -> Block, m: Tree, best: Hash,
                                     h: Hash, keep: nat, q: nat, r: Reorg)
    requires TreeOk(m) && best in m && h in m && Fits(body, m) && keep <= q <= |PathTo(m, h)|
    requires ChainRules.CommonLength(PathTo(m, best), PathTo(m, h), keep)
    requires s.chain == Bodies(body, PathTo(m, best)) && UsernameIndex.ChainOk(s.chain)
    requires r == NameReorg(body, PathTo(m, best), PathTo(m, h), keep, q)
    requires NamesDecide(w, c, s, r, PathTo(m, best), PathTo(m, h), keep, q, h)
    ensures ChainRules.Goes(w, PathTo(m, best), PathTo(m, h), keep, q, h) <==> GoesThrough(c, s, r)
  {
    StandsAtFork(body, m, best, h, keep, q);
    ForkAboveGenesis(m, best, h, keep);
    GoesIffThrough(w, c, s, r, PathTo(m, best), PathTo(m, h), keep, q, h);
  }

  lemma MovedChain(c: Crypto, s: Names, r: Reorg, s': Names)
    requires Moved(c, s, r, s') && r.nDisconnect <= |s.chain|
    ensures s'.chain == if GoesThrough(c, s, r) then s.chain[..|s.chain| - r.nDisconnect] + r.vConnect else s.chain
  {
  }

  /** The main chain of the index follows the tip: it is the path to h as far as that was connected, or stays. */
  lemma {:induction false} InStep(c: Crypto, s: Names, body: Hash -> Block, tip: seq<Hash>, path: seq<Hash>, keep: nat, q: nat,
                                  r: Reorg, s': Names)
    requires ChainRules.CommonLength(tip, path, keep) && keep <= q <= |path| && s.chain == Bodies(body, tip)
    requires r == NameReorg(body, tip, path, keep, q) && Moved(c, s, r, s')
    ensures s'.chain == Bodies(body, if GoesThrough(c, s, r) then path[..q] else tip)
  {
    MovedChain(c, s, r, s');
    StepBodies(s.chain, body, tip, path, keep, q, r, s'.chain, GoesThrough(c, s, r));
  }

  lemma {:induction false} StepBodies(chain: seq<Block>, body: Hash -> Block, tip: seq<Hash>, path: seq<Hash>, keep: nat, q: nat,
                                      r: Reorg, chain': seq<Block>, goes: bool)
    requires ChainRules.CommonLength(tip, path, keep) && keep <= q <= |path| && chain == Bodies(body, tip)
    requires r == NameReorg(body, tip, path, keep, q)
    requires chain' == if goes then chain[..keep] + r.vConnect else chain
    ensures chain' == Bodies(body, if goes then path[..q] else tip)
  {
    ChainBodies(body, tip, path, keep, q);
  }
}
