/**
 The tree of known blocks: paths to the genesis block, common ancestors, and the order in
 which candidate tips are considered.
 */
module BlockTree {
  import opened Wrappers

  type Hash = nat

  datatype BlockIndex = BlockIndex(pprev: Option<Hash>, nHeight: nat, nChainWork: nat)

  type Tree = map<Hash, BlockIndex>

  /** A block is genesis, or one higher than a known parent and with at least its work. */
  ghost predicate LinkOk(m: Tree, h: Hash)
    requires h in m
  {
    match m[h].pprev
    case None => m[h].nHeight == 0
    case Some(p) => p in m && m[h].nHeight == m[p].nHeight + 1 && m[p].nChainWork <= m[h].nChainWork
  }

  /** Heights and work grow along parent links, and there is one genesis block. */
  ghost predicate TreeOk(m: Tree)
  {
    && (forall h {:trigger LinkOk(m, h)} :: h in m ==> LinkOk(m, h))
    && (forall a, b {:trigger IsRoot(m, a), IsRoot(m, b)} :: IsRoot(m, a) && IsRoot(m, b) ==> a == b)
  }

  ghost predicate IsRoot(m: Tree, h: Hash)
  {
    h in m && m[h].pprev.None?
  }

  /** The blocks from genesis to h. */
  ghost function PathTo(m: Tree, h: Hash): (path: seq<Hash>)
    requires TreeOk(m) && h in m
    ensures |path| == m[h].nHeight + 1 && path[|path| - 1] == h
    ensures forall k :: 0 <= k < |path| ==> path[k] in m && m[path[k]].nHeight == k
    decreases m[h].nHeight
  {
    assert LinkOk(m, h);
    match m[h].pprev
    case None => [h]
    case Some(p) => PathTo(m, p) + [h]
  }

  /** Every block of a path has the front of that path as its own. */
  lemma {:induction false} PathPrefix(m: Tree, h: Hash, k: nat)
    requires TreeOk(m) && h in m && k <= m[h].nHeight
    ensures PathTo(m, PathTo(m, h)[k]) == PathTo(m, h)[..k + 1]
    decreases m[h].nHeight
  {
    var path := PathTo(m, h);
    assert LinkOk(m, h);
    if k == m[h].nHeight {
      assert path[..k + 1] == path;
    } else {
      var p := m[h].pprev.value;
      PathPrefix(m, p, k);
      assert path[..k + 1] == PathTo(m, p)[..k + 1];
    }
  }

  /** a is h or one of its ancestors. */
  ghost predicate IsAncestor(m: Tree, a: Hash, h: Hash)
    requires TreeOk(m) && h in m
  {
    a in m && m[a].nHeight <= m[h].nHeight && PathTo(m, h)[m[a].nHeight] == a
  }

  lemma {:induction false} AncestorTransitive(m: Tree, a: Hash, b: Hash, c: Hash)
    requires TreeOk(m) && c in m && b in m && IsAncestor(m, b, c) && IsAncestor(m, a, b)
    ensures IsAncestor(m, a, c)
  {
    PathPrefix(m, c, m[b].nHeight);
    assert PathTo(m, b)[m[a].nHeight] == PathTo(m, c)[m[a].nHeight];
  }

  lemma {:induction false} ParentAncestor(m: Tree, a: Hash, h: Hash)
    requires TreeOk(m) && h in m && a in m && IsAncestor(m, a, h) && m[a].pprev.Some?
    ensures LinkOk(m, a) && IsAncestor(m, m[a].pprev.value, h)
  {
    assert LinkOk(m, a);
    var p := m[a].pprev.value;
    assert PathTo(m, a)[m[p].nHeight] == p;
    AncestorTransitive(m, p, a, h);
  }

  /** All paths start at the same genesis block. */
  lemma {:induction false} SameGenesis(m: Tree, a: Hash, b: Hash)
    requires TreeOk(m) && a in m && b in m
    ensures PathTo(m, a)[0] == PathTo(m, b)[0]
  {
    GenesisFirst(m, a);
    GenesisFirst(m, b);
    assert IsRoot(m, PathTo(m, a)[0]) && IsRoot(m, PathTo(m, b)[0]);
  }

  lemma {:induction false} GenesisFirst(m: Tree, h: Hash)
    requires TreeOk(m) && h in m
    ensures m[PathTo(m, h)[0]].pprev.None?
    decreases m[h].nHeight
  {
    assert LinkOk(m, h);
    if m[h].pprev.Some? {
      GenesisFirst(m, m[h].pprev.value);
      assert PathTo(m, h)[0] == PathTo(m, m[h].pprev.value)[0];
    }
  }

  /** The highest block on the paths to both a and b. */
  ghost predicate IsFork(m: Tree, f: Hash, a: Hash, b: Hash)
    requires TreeOk(m) && a in m && b in m
  {
    && IsAncestor(m, f, a) && IsAncestor(m, f, b)
    && forall c :: c in m && IsAncestor(m, c, a) && IsAncestor(m, c, b) ==> m[c].nHeight <= m[f].nHeight
  }

  /** Walks both branches down to their fork. */
  method FindFork(m: Tree, best: Hash, pindexNew: Hash) returns (pfork: Hash)
    requires TreeOk(m) && best in m && pindexNew in m
    ensures pfork in m && IsFork(m, pfork, best, pindexNew)
  {
    pfork := best;
    var plonger := pindexNew;
    while pfork != plonger
      invariant pfork in m && plonger in m && IsAncestor(m, pfork, best) && IsAncestor(m, plonger, pindexNew)
      invariant CommonBelow(m, best, pindexNew, m[pfork].nHeight) && CommonBelow(m, best, pindexNew, m[plonger].nHeight)
      decreases m[pfork].nHeight + m[plonger].nHeight
    {
      plonger := Descend(m, plonger, m[pfork].nHeight, best, pindexNew);
      if pfork == plonger {
        break;
      }
      ForkStep(m, best, pindexNew, pfork, plonger);
      pfork := m[pfork].pprev.value;
    }
  }

  /** No common ancestor is higher than the given height. */
  ghost predicate CommonBelow(m: Tree, a: Hash, b: Hash, height: nat)
    requires TreeOk(m) && a in m && b in m
  {
    forall c :: c in m && IsAncestor(m, c, a) && IsAncestor(m, c, b) ==> m[c].nHeight <= height
  }

  /** The inner loop: down the parent links to a given height. */
  method Descend(m: Tree, start: Hash, height: nat, ghost best: Hash, ghost pindexNew: Hash) returns (plonger: Hash)
    requires TreeOk(m) && best in m && pindexNew in m && start in m && IsAncestor(m, start, pindexNew)
    requires CommonBelow(m, best, pindexNew, height) && CommonBelow(m, best, pindexNew, m[start].nHeight)
    ensures plonger in m && IsAncestor(m, plonger, pindexNew) && m[plonger].nHeight <= height
    ensures m[plonger].nHeight <= m[start].nHeight && CommonBelow(m, best, pindexNew, m[plonger].nHeight)
  {
    plonger := start;
    while m[plonger].nHeight > height
      invariant plonger in m && IsAncestor(m, plonger, pindexNew) && m[plonger].nHeight <= m[start].nHeight
      invariant CommonBelow(m, best, pindexNew, m[plonger].nHeight)
      decreases m[plonger].nHeight
    {
      assert LinkOk(m, plonger);
      ParentAncestor(m, plonger, pindexNew);
      plonger := m[plonger].pprev.value;
    }
  }

  lemma {:induction false} ForkStep(m: Tree, best: Hash, pindexNew: Hash, pfork: Hash, plonger: Hash)
    requires TreeOk(m) && best in m && pindexNew in m && pfork in m && plonger in m && pfork != plonger
    requires IsAncestor(m, pfork, best) && IsAncestor(m, plonger, pindexNew) && m[plonger].nHeight <= m[pfork].nHeight
    requires CommonBelow(m, best, pindexNew, m[plonger].nHeight)
    ensures LinkOk(m, pfork) && m[pfork].pprev.Some?
    ensures IsAncestor(m, m[pfork].pprev.value, best)
    ensures CommonBelow(m, best, pindexNew, m[m[pfork].pprev.value].nHeight)
  {
    SameGenesis(m, best, pindexNew);
    assert m[pfork].nHeight > 0;
    assert LinkOk(m, pfork);
    ParentAncestor(m, pfork, best);
    CommonBelowFork(m, best, pindexNew, pfork, plonger);
  }

  lemma {:induction false} CommonBelowFork(m: Tree, best: Hash, pindexNew: Hash, pfork: Hash, plonger: Hash)
    requires TreeOk(m) && best in m && pindexNew in m && pfork in m && plonger in m && pfork != plonger
    requires IsAncestor(m, pfork, best) && IsAncestor(m, plonger, pindexNew)
    requires m[plonger].nHeight <= m[pfork].nHeight && m[pfork].nHeight > 0
    requires CommonBelow(m, best, pindexNew, m[plonger].nHeight)
    ensures CommonBelow(m, best, pindexNew, m[pfork].nHeight - 1)
  {
    forall c | c in m && IsAncestor(m, c, best) && IsAncestor(m, c, pindexNew)
      ensures m[c].nHeight <= m[pfork].nHeight - 1
    {
      NotAtFork(m, best, pindexNew, pfork, plonger, c);
    }
  }

  lemma {:induction false} NotAtFork(m: Tree, best: Hash, pindexNew: Hash, pfork: Hash, plonger: Hash, c: Hash)
    requires TreeOk(m) && best in m && pindexNew in m && pfork in m && plonger in m && pfork != plonger && c in m
    requires IsAncestor(m, pfork, best) && IsAncestor(m, plonger, pindexNew)
    requires IsAncestor(m, c, best) && IsAncestor(m, c, pindexNew) && m[c].nHeight <= m[plonger].nHeight <= m[pfork].nHeight
    ensures m[c].nHeight < m[pfork].nHeight
  {
    var a, b := PathTo(m, best), PathTo(m, pindexNew);
    assert a[m[c].nHeight] == c == b[m[c].nHeight];
  }

  /** The tree after a block is added below a known parent, or as the first block of all. */
  function Extended(m: Tree, hash: Hash, prev: Hash, work: nat): Tree
  {
    var block := if prev in m then BlockIndex(Some(prev), m[prev].nHeight + 1, m[prev].nChainWork + work)
                 else BlockIndex(None, 0, work);
    m[hash := block]
  }

  /** Adding a block keeps the tree well formed and changes no path. */
  lemma {:induction false} TreeGrows(m: Tree, hash: Hash, prev: Hash, work: nat)
    requires TreeOk(m) && hash !in m && (prev in m || m == map[])
    ensures TreeOk(Extended(m, hash, prev, work))
    ensures forall h :: h in m ==> PathTo(Extended(m, hash, prev, work), h) == PathTo(m, h)
  {
    var m' := Extended(m, hash, prev, work);
    forall h | h in m'
      ensures LinkOk(m', h)
    {
      assert h in m ==> LinkOk(m, h);
    }
    forall a: Hash, b: Hash | IsRoot(m', a) && IsRoot(m', b)
      ensures a == b
    {
      assert m != map[] ==> IsRoot(m, a) && IsRoot(m, b);
    }
    forall h | h in m
      ensures PathTo(m', h) == PathTo(m, h)
    {
      PathStable(m, m', h);
    }
  }

  lemma {:induction false} PathStable(m: Tree, m': Tree, h: Hash)
    requires TreeOk(m) && TreeOk(m') && h in m && (forall x :: x in m ==> x in m' && m'[x] == m[x])
    ensures PathTo(m', h) == PathTo(m, h)
    decreases m[h].nHeight
  {
    assert LinkOk(m, h);
    if m[h].pprev.Some? {
      PathStable(m, m', m[h].pprev.value);
    }
  }

  // ----- order of candidates -----

  /** CBlockIndexWorkComparator: less work first; among equal work the larger hash first. */
  predicate Less(m: Tree, a: Hash, b: Hash)
    requires a in m && b in m
  {
    m[a].nChainWork < m[b].nChainWork || (m[a].nChainWork == m[b].nChainWork && a > b)
  }

  predicate IsGreatest(m: Tree, s: set<Hash>, top: Hash)
    requires s <= m.Keys
  {
    top in s && forall x :: x in s && x != top ==> Less(m, x, top)
  }

  lemma {:induction false} HasGreatest(m: Tree, s: set<Hash>)
    requires s <= m.Keys && s != {}
    ensures exists top: Hash :: IsGreatest(m, s, top)
    decreases s
  {
    assert (forall y: Hash :: y !in s) ==> s == {};
    var y: Hash :| y in s;
    var rest := s - {y};
    if rest == {} {
      assert s == {y};
      assert IsGreatest(m, s, y);
    } else {
      HasGreatest(m, rest);
      var z: Hash :| IsGreatest(m, rest, z);
      var top := if Less(m, y, z) then z else y;
      assert s == rest + {y};
      assert IsGreatest(m, s, top);
    }
  }
}
