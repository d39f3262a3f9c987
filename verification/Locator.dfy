/**
 Block locators: hashes at exponentially growing distances back from a block, sent to a peer
 that looks for the first one on its own main chain.
 */
module Locator {
  import opened Wrappers
  import opened BlockTree
  import opened ChainRules
  import opened BestChain

  /** The step taken after the i-th hash of a locator. */
  function Step(i: nat): (s: nat)
    ensures s > 0
  {
    if i <= 10 then 1 else 2 * Step(i - 1)
  }

  /** How far back the i-th hash of a locator is. */
  function Dist(i: nat): (d: nat)
    ensures d >= i
  {
    if i == 0 then 0 else Dist(i - 1) + Step(i - 1)
  }

  /** Distances at most double from one hash to the next. */
  lemma {:induction false} DistDoubles(i: nat)
    ensures i <= 11 ==> Dist(i) == i
    ensures i >= 11 ==> Dist(i) == 9 + Step(i) && Dist(i + 1) == 2 * Dist(i) - 9
  {
    if i > 0 {
      DistDoubles(i - 1);
    }
  }

  ghost predicate Entry(path: seq<Hash>, vHave: seq<Hash>, i: nat)
  {
    i < |vHave| && Dist(i) < |path| && vHave[i] == path[|path| - 1 - Dist(i)]
  }

  /** The first n hashes of a locator of the path. */
  ghost predicate Lists(path: seq<Hash>, n: nat, vHave: seq<Hash>)
  {
    forall i {:trigger Entry(path, vHave, i)} :: 0 <= i < n ==> Entry(path, vHave, i)
  }

  /** The locator of a path from genesis: as many steps as fit, then genesis again. */
  ghost predicate IsLocator(path: seq<Hash>, vHave: seq<Hash>, genesis: Hash)
  {
    && |vHave| > 0 && vHave[|vHave| - 1] == genesis
    && Lists(path, |vHave| - 1, vHave) && Dist(|vHave| - 1) >= |path|
  }

  /** Builds the locator of a block, or of nothing. */
  method Set(m: Tree, start: Option<Hash>, genesis: Hash) returns (vHave: seq<Hash>)
    requires KnownTip(m, start)
    ensures IsLocator(PathToTip(m, start), vHave, genesis)
  {
    ghost var path := PathToTip(m, start);
    var pindex := start;
    var nStep := 1;
    vHave := [];
    while pindex.Some?
      invariant Lists(path, |vHave|, vHave) && nStep == Step(|vHave|)
      invariant pindex == At(path, Dist(|vHave|))
      decreases |path| - |vHave|
    {
      ghost var n := |vHave|;
      ListsMore(path, n, vHave, pindex.value);
      vHave := vHave + [pindex.value];
      pindex := Back(m, start.value, pindex, Dist(n), nStep);
      if |vHave| > 10 {
        nStep := nStep * 2;
      }
    }
    ListsMore(path, |vHave|, vHave, genesis);
    vHave := vHave + [genesis];
  }

  /** The block a number of steps back from the end of a path, if the path is that long. */
  ghost function At(path: seq<Hash>, back: nat): Option<Hash>
  {
    if back < |path| then Some(path[|path| - 1 - back]) else None
  }

  lemma {:induction false} ListsMore(path: seq<Hash>, n: nat, vHave: seq<Hash>, h: Hash)
    requires Lists(path, n, vHave) && n == |vHave|
    ensures Lists(path, n, vHave + [h])
    ensures At(path, Dist(n)) == Some(h) ==> Lists(path, n + 1, vHave + [h])
  {
    forall i: nat | i < n
      ensures Entry(path, vHave + [h], i)
    {
      assert Entry(path, vHave, i);
    }
    if At(path, Dist(n)) == Some(h) {
      assert Entry(path, vHave + [h], n);
    }
  }

  /** The inner loop: a number of parent links back, or until there is no parent. */
  method Back(m: Tree, ghost tip: Hash, start: Option<Hash>, ghost d: nat, nStep: nat) returns (pindex: Option<Hash>)
    requires TreeOk(m) && tip in m && start == At(PathTo(m, tip), d)
    ensures pindex == At(PathTo(m, tip), d + nStep)
  {
    pindex := start;
    var i := 0;
    while pindex.Some? && i < nStep
      invariant i <= nStep && pindex == At(PathTo(m, tip), d + i)
    {
      StepDown(m, tip, |PathTo(m, tip)| - 1 - (d + i));
      pindex := m[pindex.value].pprev;
      i := i + 1;
    }
  }

  // ----- reading a locator against a main chain -----

  predicate OnMain(node: ChainState, h: Hash)
    reads node
  {
    h in node.mapBlockIndex && node.IsInMainChain(h)
  }

  /** The first listed block that is on the main chain, or genesis. */
  method GetBlockIndex(node: ChainState, vHave: seq<Hash>, genesis: Hash) returns (r: Hash)
    ensures exists k: nat :: FirstOf(MainSet(node), vHave, k) && r == if k < |vHave| then vHave[k] else genesis
  {
    for i := 0 to |vHave|
      invariant forall j :: 0 <= j < i ==> !OnMain(node, vHave[j])
    {
      var hash := vHave[i];
      if hash in node.mapBlockIndex {
        if node.IsInMainChain(hash) {
          assert FirstOf(MainSet(node), vHave, i);
          return hash;
        }
      }
    }
    assert FirstOf(MainSet(node), vHave, |vHave|);
    return genesis;
  }

  /** The distance of the first listed block on the main chain, retraced without the sender's blocks. */
  method GetDistanceBack(node: ChainState, vHave: seq<Hash>) returns (nDistance: nat)
    ensures exists k: nat :: FirstOf(MainSet(node), vHave, k) && nDistance == Dist(k)
  {
    nDistance := 0;
    var nStep := 1;
    for i := 0 to |vHave|
      invariant forall j :: 0 <= j < i ==> !OnMain(node, vHave[j])
      invariant nDistance == Dist(i) && nStep == Step(i)
    {
      var hash := vHave[i];
      if hash in node.mapBlockIndex {
        if node.IsInMainChain(hash) {
          assert FirstOf(MainSet(node), vHave, i);
          return;
        }
      }
      DistDoubles(i + 1);
      nDistance := nDistance + nStep;
      if nDistance > 10 {
        nStep := nStep * 2;
      }
    }
    assert FirstOf(MainSet(node), vHave, |vHave|);
  }

  /** Two nodes agree on the parents of the blocks that both know, as a hash fixes the parent. */
  ghost predicate Agree(sender: Tree, receiver: Tree)
  {
    forall h :: h in sender && h in receiver ==> sender[h].pprev == receiver[h].pprev
  }

  ghost function MainSet(node: ChainState): set<Hash>
    reads node
  {
    set h | h in node.mapBlockIndex && OnMain(node, h)
  }

  /** A sender's path is d blocks above its last block on the receiver's main chain. */
  ghost predicate IsDepth(main: set<Hash>, path: seq<Hash>, d: nat)
  {
    d < |path| && forall i :: 0 <= i < |path| ==> (path[i] in main <==> i <= |path| - 1 - d)
  }

  /** What the sender's path shares with the main chain is a front of the path. */
  lemma {:induction false} MainBelow(sender: Tree, t: Hash, node: ChainState, j: nat, k: nat)
    requires TreeOk(sender) && t in sender && node.Valid() && Agree(sender, node.mapBlockIndex)
    requires j <= k < |PathTo(sender, t)| && OnMain(node, PathTo(sender, t)[k])
    ensures OnMain(node, PathTo(sender, t)[j])
    decreases k - j
  {
    if j < k {
      var h := PathTo(sender, t)[k];
      StepDown(sender, t, k);
      node.InMainChainIff(h);
      ParentAncestor(node.mapBlockIndex, h, node.pindexBest.value);
      node.InMainChainIff(PathTo(sender, t)[k - 1]);
      MainBelow(sender, t, node, j, k - 1);
    }
  }

  /** Nodes that share the genesis block have such a depth. */
  lemma {:induction false} HasDepth(main: set<Hash>, path: seq<Hash>, k: nat) returns (d: nat)
    requires k < |path| && path[0] in main && (forall i :: k < i < |path| ==> path[i] !in main)
    requires forall i, j :: 0 <= j <= i < |path| && path[i] in main ==> path[j] in main
    ensures IsDepth(main, path, d)
    decreases k
  {
    if path[k] in main {
      d := |path| - 1 - k;
    } else {
      d := HasDepth(main, path, k - 1);
    }
  }

  lemma {:induction false} SharedDepth(sender: Tree, t: Hash, node: ChainState) returns (d: nat)
    requires TreeOk(sender) && t in sender && node.Valid() && Agree(sender, node.mapBlockIndex)
    requires OnMain(node, PathTo(sender, t)[0])
    ensures IsDepth(MainSet(node), PathTo(sender, t), d)
  {
    var path := PathTo(sender, t);
    forall i: nat, j: nat | j <= i < |path| && path[i] in MainSet(node)
      ensures path[j] in MainSet(node)
    {
      MainBelow(sender, t, node, j, i);
    }
    d := HasDepth(MainSet(node), path, |path| - 1);
  }

  /** The first listed block at or below the last shared one is at most twice as far back. */
  lemma {:induction false} AtMostDouble(d: nat, k: nat)
    requires k > 0 ==> Dist(k - 1) < d
    ensures Dist(k) <= 2 * d
  {
    DistDoubles(k);
    if k > 0 {
      DistDoubles(k - 1);
    }
  }

  /** k is the first listed block on the main chain, if any is. */
  ghost predicate FirstOf(main: set<Hash>, vHave: seq<Hash>, k: nat)
  {
    k <= |vHave| && (forall i :: 0 <= i < k ==> vHave[i] !in main) && (k < |vHave| ==> vHave[k] in main)
  }

  lemma SameFirst(main: set<Hash>, vHave: seq<Hash>, k: nat, k': nat)
    requires FirstOf(main, vHave, k) && FirstOf(main, vHave, k')
    ensures k == k'
  {
  }

  /** Which entry of a locator is found: the first at least d back, or else the appended genesis block. */
  lemma {:induction false} FoundEntry(path: seq<Hash>, main: set<Hash>, vHave: seq<Hash>, d: nat, k: nat)
    requires |path| > 0 && IsLocator(path, vHave, path[0]) && IsDepth(main, path, d) && FirstOf(main, vHave, k)
    ensures k < |vHave| && (k > 0 ==> Dist(k - 1) < d)
    ensures k < |vHave| - 1 ==> Entry(path, vHave, k) && d <= Dist(k)
  {
    assert vHave[|vHave| - 1] in main;
    if k > 0 {
      assert Entry(path, vHave, k - 1);
    }
    if k < |vHave| - 1 {
      assert Entry(path, vHave, k);
    }
  }

  /** Where the found block is, and when the retraced distance is right. */
  lemma {:induction false} FoundBlock(path: seq<Hash>, main: set<Hash>, vHave: seq<Hash>, d: nat, k: nat) returns (back: nat)
    requires |path| > 0 && IsLocator(path, vHave, path[0]) && IsDepth(main, path, d) && FirstOf(main, vHave, k)
    ensures d <= back <= 2 * d && back < |path|
    ensures k < |vHave| && vHave[k] == path[|path| - 1 - back] && vHave[k] in main
    ensures Dist(k) == back <==> SomeFits(d, |path|)
  {
    FoundEntry(path, main, vHave, d, k);
    AtMostDouble(d, k);
    var fits := k < |vHave| - 1;
    NoneFits(d, k, |path|, fits);
    back := if fits then Dist(k) else |path| - 1;
  }

  /** Some hash of a locator, other than the appended genesis block, is at least d back. */
  ghost predicate SomeFits(d: nat, length: nat)
  {
    exists i :: d <= Dist(i) < length
  }

  /**
   A locator read by another node: the block found is on the main chain, on the sender's path and
   at most twice as far back as the last shared block; the retraced distance is exact unless only
   the appended genesis block matched.
   */
  method ReadLocator(sender: Tree, t: Hash, genesis: Hash, node: ChainState)
    returns (r: Hash, nDistance: nat, ghost d: nat, ghost back: nat)
    requires TreeOk(sender) && t in sender && node.Valid() && Agree(sender, node.mapBlockIndex)
    requires genesis == PathTo(sender, t)[0] && OnMain(node, genesis)
    ensures IsDepth(MainSet(node), PathTo(sender, t), d)
    ensures d <= back <= 2 * d && back < |PathTo(sender, t)|
    ensures r == PathTo(sender, t)[|PathTo(sender, t)| - 1 - back] && OnMain(node, r)
    ensures nDistance == back <==> SomeFits(d, |PathTo(sender, t)|)
  {
    var vHave := Set(sender, Some(t), genesis);
    r := GetBlockIndex(node, vHave, genesis);
    nDistance := GetDistanceBack(node, vHave);
    ghost var k: nat :| FirstOf(MainSet(node), vHave, k) && r == if k < |vHave| then vHave[k] else genesis;
    ghost var k': nat :| FirstOf(MainSet(node), vHave, k') && nDistance == Dist(k');
    SameFirst(MainSet(node), vHave, k, k');
    d := SharedDepth(sender, t, node);
    back := FoundBlock(PathTo(sender, t), MainSet(node), vHave, d, k);
  }

  lemma {:induction false} NoneFits(d: nat, k: nat, length: nat, fits: bool)
    requires (k > 0 ==> Dist(k - 1) < d) && (if fits then d <= Dist(k) < length else Dist(k) >= length)
    ensures fits <==> SomeFits(d, length)
  {
    if !fits {
      forall i: nat
        ensures !(d <= Dist(i) < length)
      {
        if i < k {
          DistGrows(i, k - 1);
        } else {
          DistGrows(k, i);
        }
      }
    }
  }

  lemma {:induction false} DistGrows(i: nat, j: nat)
    requires i <= j
    ensures Dist(i) <= Dist(j)
    decreases j
  {
    if i < j {
      DistGrows(i, j - 1);
    }
  }
}
