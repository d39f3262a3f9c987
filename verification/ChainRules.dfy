/**
 The rules behind choosing the best chain, on values: paths and forks, what is collected and
 marked on a switch of the tip, the recorded by-height vector, and failure marks.
 */
module ChainRules {
  import opened Wrappers
  import opened BlockTree

  datatype Outcome = Connected | Invalid | Failed

  /** How work on blocks outside this model turns out: disconnecting, connecting, flushing and writing. */
  datatype World = World(undo: Hash -> bool, connect: Hash -> Outcome, flush: Hash -> bool, write: Hash -> bool)

  ghost predicate AllGood(w: World)
  {
    forall h :: w.undo(h) && w.connect(h) == Connected && w.flush(h) && w.write(h)
  }

  /** Every write to disk succeeds. */
  ghost predicate DiskOk(w: World)
  {
    forall h :: w.flush(h) && w.write(h)
  }

  /** Nothing goes wrong but that blocks may turn out invalid. */
  ghost predicate Sound(w: World)
  {
    forall h :: w.undo(h) && w.connect(h) != Failed && w.flush(h) && w.write(h)
  }

  /**
   A switch goes through: the blocks that remain to be connected, up to the first failed one at
   height q, are no fewer than those to be disconnected, and all work on them succeeds.
   */
  ghost predicate Goes(w: World, tip: seq<Hash>, path: seq<Hash>, keep: nat, q: nat, pindexNew: Hash)
    requires keep <= |tip| && keep <= q <= |path|
  {
    && |tip| <= q && w.flush(pindexNew)
    && (forall i :: keep <= i < |tip| ==> w.undo(tip[i]))
    && (forall i :: keep <= i < q ==> w.connect(path[i]) == Connected)
  }

  function AllSome(s: seq<Hash>): (r: seq<Option<Hash>>)
    ensures |r| == |s| && forall i :: 0 <= i < |s| ==> r[i] == Some(s[i])
  {
    seq(|s|, i requires 0 <= i < |s| => Some(s[i]))
  }

  function Elements(s: seq<Hash>): set<Hash>
  {
    set i | 0 <= i < |s| :: s[i]
  }

  /** k is the length of the longest common front of two sequences. */
  ghost predicate CommonLength(a: seq<Hash>, b: seq<Hash>, k: nat)
  {
    k <= |a| && k <= |b| && a[..k] == b[..k] && (k < |a| && k < |b| ==> a[k] != b[k])
  }

  /** The blocks above the front of length `keep` that precede the first failed one. */
  ghost function FirstFailed(path: seq<Hash>, failed: set<Hash>, keep: nat): (q: nat)
    requires keep <= |path|
    ensures keep <= q <= |path|
    ensures q < |path| ==> path[q] in failed
    ensures forall i :: keep <= i < q ==> path[i] !in failed
    decreases |path| - keep
  {
    if keep == |path| || path[keep] in failed then keep else FirstFailed(path, failed, keep + 1)
  }

  /** Two paths that meet at some height agree below it. */
  lemma {:induction false} PathsMeet(m: Tree, a: Hash, b: Hash, i: nat)
    requires TreeOk(m) && a in m && b in m && i <= m[a].nHeight && i <= m[b].nHeight
    requires PathTo(m, a)[i] == PathTo(m, b)[i]
    ensures PathTo(m, a)[..i + 1] == PathTo(m, b)[..i + 1]
  {
    PathPrefix(m, a, i);
    PathPrefix(m, b, i);
  }

  /** The fork block is where the two paths part. */
  lemma {:induction false} ForkLength(m: Tree, f: Hash, a: Hash, b: Hash)
    requires TreeOk(m) && a in m && b in m && f in m && IsFork(m, f, a, b)
    ensures CommonLength(PathTo(m, a), PathTo(m, b), m[f].nHeight + 1)
  {
    var k := m[f].nHeight + 1;
    PathsMeet(m, a, b, k - 1);
    if k <= m[a].nHeight && k <= m[b].nHeight && PathTo(m, a)[k] == PathTo(m, b)[k] {
      var c := PathTo(m, a)[k];
      assert IsAncestor(m, c, a) && IsAncestor(m, c, b);
      assert false;
    }
  }

  ghost predicate KnownTip(m: Tree, best: Option<Hash>)
  {
    TreeOk(m) && (best.Some? ==> best.value in m)
  }

  /** The path to the tip; empty before the first block is connected. */
  ghost function PathToTip(m: Tree, best: Option<Hash>): seq<Hash>
    requires KnownTip(m, best)
  {
    match best case None => [] case Some(b) => PathTo(m, b)
  }

  /** The by-height vector is the path from genesis to the tip, without failed blocks. */
  ghost predicate ChainOk(m: Tree, failed: set<Hash>, v: seq<Option<Hash>>, best: Option<Hash>)
  {
    && KnownTip(m, best)
    && v == AllSome(PathToTip(m, best))
    && Elements(PathToTip(m, best)) !! failed
  }

  predicate InByHeight(m: Tree, v: seq<Option<Hash>>, h: Hash)
    requires h in m
  {
    var height := m[h].nHeight;
    height < |v| && v[height] == Some(h)
  }

  function NextByHeight(m: Tree, v: seq<Option<Hash>>, h: Hash): Option<Hash>
    requires h in m
  {
    var height := m[h].nHeight;
    if !InByHeight(m, v, h) || height + 1 >= |v| then None else v[height + 1]
  }

  lemma {:induction false} ChainGrows(m: Tree, failed: set<Hash>, v: seq<Option<Hash>>, best: Option<Hash>,
                                      hash: Hash, prev: Hash, work: nat)
    requires ChainOk(m, failed, v, best) && hash !in m && (prev in m || m == map[])
    ensures ChainOk(Extended(m, hash, prev, work), failed, v, best)
  {
    TreeGrows(m, hash, prev, work);
    assert PathToTip(Extended(m, hash, prev, work), best) == PathToTip(m, best);
  }

  /** No candidate has more work than the tip. */
  ghost predicate TipLeads(m: Tree, candidates: set<Hash>, best: Option<Hash>)
  {
    && candidates <= m.Keys && (best.Some? ==> best.value in m)
    && forall h :: h in candidates ==> !MoreWork(m, best, h)
  }

  /** The second tip has no less work and is no lower than the first. */
  ghost predicate NotBehind(m: Tree, best: Option<Hash>, best': Option<Hash>)
  {
    best.Some? ==>
      && best'.Some? && best.value in m && best'.value in m
      && m[best'.value].nChainWork >= m[best.value].nChainWork && m[best'.value].nHeight >= m[best.value].nHeight
  }

  /** The second tip is the first, or has more work and is no lower. */
  ghost predicate Advances(m: Tree, best: Option<Hash>, best': Option<Hash>)
  {
    && (best.Some? ==> best.value in m)
    && (best' == best ||
        (&& best'.Some? && best'.value in m
         && (best.Some? ==> m[best'.value].nChainWork > m[best.value].nChainWork && m[best'.value].nHeight >= m[best.value].nHeight)))
  }

  /** The second tip is no lower than the first. */
  ghost predicate NotLower(m: Tree, best: Option<Hash>, best': Option<Hash>)
  {
    best.Some? ==> best'.Some? && best.value in m && best'.value in m && m[best'.value].nHeight >= m[best.value].nHeight
  }

  /** More work than the tip has, or there is no tip yet. */
  predicate MoreWork(m: Tree, best: Option<Hash>, h: Hash)
    requires h in m && (best.Some? ==> best.value in m)
  {
    best.None? || m[h].nChainWork > m[best.value].nChainWork
  }

  /** From height `low` up, no block of the path failed, and those with more work than the tip are listed. */
  ghost predicate Walked(m: Tree, h: Hash, failed: set<Hash>, best: Option<Hash>, low: nat, first: nat, vAttach: seq<Hash>)
  {
    && KnownTip(m, best) && h in m
    && var path := PathTo(m, h);
       && low <= first <= |path| && vAttach == path[first..]
       && (forall i :: low <= i < |path| ==> path[i] !in failed)
       && (forall i :: low <= i < |path| ==> (i >= first <==> MoreWork(m, best, path[i])))
  }

  /** The loop that checks the ancestry of a candidate. */
  method WalkDown(m: Tree, failed: set<Hash>, v: seq<Option<Hash>>, best: Option<Hash>, pindexNewBest: Hash)
    returns (bad: bool, pindexTest: Hash, vAttach: seq<Hash>, ghost stop: nat, ghost first: nat)
    requires ChainOk(m, failed, v, best) && pindexNewBest in m
    ensures stop < |PathTo(m, pindexNewBest)| && pindexTest == PathTo(m, pindexNewBest)[stop]
    ensures Walked(m, pindexNewBest, failed, best, stop + (if bad then 1 else 0), first, vAttach)
    ensures bad ==> pindexTest in failed
    ensures !bad ==> Joined(m, best, pindexNewBest, stop)
  {
    ghost var path := PathTo(m, pindexNewBest);
    pindexTest := pindexNewBest;
    stop, first, vAttach := |path| - 1, |path|, [];
    while true
      invariant stop < |path| && pindexTest == path[stop]
      invariant Walked(m, pindexNewBest, failed, best, stop + 1, first, vAttach)
      decreases stop
    {
      if pindexTest in failed {
        return true, pindexTest, vAttach, stop, first;
      }
      WalkStep(m, pindexNewBest, failed, best, stop, first, vAttach);
      if MoreWork(m, best, pindexTest) {
        vAttach := [pindexTest] + vAttach;
        first := stop;
      }
      StepDown(m, pindexNewBest, stop);
      if m[pindexTest].pprev.None? || NextByHeight(m, v, pindexTest).Some? {
        JoinedAt(m, failed, v, best, pindexNewBest, stop);
        return false, pindexTest, vAttach, stop, first;
      }
      pindexTest := m[pindexTest].pprev.value;
      stop := stop - 1;
    }
  }

  lemma {:induction false} WalkStep(m: Tree, h: Hash, failed: set<Hash>, best: Option<Hash>, stop: nat, first: nat,
                                    vAttach: seq<Hash>)
    requires Walked(m, h, failed, best, stop + 1, first, vAttach) && stop < |PathTo(m, h)|
    requires PathTo(m, h)[stop] !in failed
    ensures var x := PathTo(m, h)[stop];
            if MoreWork(m, best, x) then Walked(m, h, failed, best, stop, stop, [x] + vAttach)
            else Walked(m, h, failed, best, stop, first, vAttach)
  {
    var path := PathTo(m, h);
    if MoreWork(m, best, path[stop]) {
      if stop + 1 < |path| {
        WorkGrows(m, h, stop, stop + 1);
      }
      assert first == stop + 1;
      assert [path[stop]] + path[stop + 1..] == path[stop..];
    }
  }

  /**
   The blocks from the fork up to the new tip. A failed block on the way makes it and
   everything collected above it failed, and the collection starts over below it.
   */
  method CollectAbove(m: Tree, pindexNew: Hash, pfork: Option<Hash>, failed0: set<Hash>, valid0: set<Hash>, ghost keep: nat)
    returns (vConnect: seq<Hash>, failed: set<Hash>, valid: set<Hash>)
    requires TreeOk(m) && pindexNew in m && keep <= |PathTo(m, pindexNew)|
    requires pfork == if keep == 0 then None else Some(PathTo(m, pindexNew)[keep - 1])
    ensures Collected(PathTo(m, pindexNew), keep, vConnect, failed0, failed, valid0, valid)
  {
    ghost var path := PathTo(m, pindexNew);
    ghost var i: nat := |path|;
    vConnect, failed, valid := [], failed0, valid0;
    var pindex := Some(pindexNew);
    while pindex != pfork
      invariant keep <= i <= |path|
      invariant pindex == if i == 0 then None else Some(path[i - 1])
      invariant (vConnect, failed, valid) == Collect(path, i, failed0, valid0)
      decreases i
    {
      var h := pindex.value;
      StepDown(m, pindexNew, i - 1);
      vConnect := [h] + vConnect;
      if h in failed {
        var bad := Elements(vConnect);
        vConnect, failed, valid := [], failed + bad, valid - bad;
      }
      pindex := m[h].pprev;
      i := i - 1;
    }
    if keep > 0 {
      PathDistinct(m, pindexNew, i - 1, keep - 1);
    }
    CollectIs(m, pindexNew, keep, failed0, valid0);
  }

  /** The collection from the top down to path[i], step by step. */
  ghost function Collect(path: seq<Hash>, i: nat, failed0: set<Hash>, valid0: set<Hash>): (seq<Hash>, set<Hash>, set<Hash>)
    requires i <= |path|
    decreases |path| - i
  {
    if i == |path| then ([], failed0, valid0)
    else var r := Collect(path, i + 1, failed0, valid0); Visit(path[i], r.0, r.1, r.2)
  }

  lemma {:induction false} CollectIs(m: Tree, h: Hash, i: nat, failed0: set<Hash>, valid0: set<Hash>)
    requires TreeOk(m) && h in m && i <= |PathTo(m, h)|
    ensures var r := Collect(PathTo(m, h), i, failed0, valid0);
            Collected(PathTo(m, h), i, r.0, failed0, r.1, valid0, r.2)
    decreases |PathTo(m, h)| - i
  {
    var path := PathTo(m, h);
    if i == |path| {
      CollectedNone(path, failed0, valid0);
    } else {
      CollectIs(m, h, i + 1, failed0, valid0);
      var r := Collect(path, i + 1, failed0, valid0);
      VisitStep(m, h, path, i + 1, r.0, failed0, r.1, valid0, r.2);
    }
  }

  lemma CollectedNone(path: seq<Hash>, failed0: set<Hash>, valid0: set<Hash>)
    ensures Collected(path, |path|, [], failed0, failed0, valid0, valid0)
  {
    assert path[|path|..] == [] && Elements([]) == {};
  }

  lemma PathDistinct(m: Tree, h: Hash, i: nat, j: nat)
    requires TreeOk(m) && h in m && i < |PathTo(m, h)| && j < |PathTo(m, h)| && PathTo(m, h)[i] == PathTo(m, h)[j]
    ensures i == j
  {
    assert m[PathTo(m, h)[i]].nHeight == i && m[PathTo(m, h)[j]].nHeight == j;
  }

  /** Work does not shrink along a path. */
  lemma {:induction false} WorkGrows(m: Tree, h: Hash, i: nat, j: nat)
    requires TreeOk(m) && h in m && i <= j <= m[h].nHeight
    ensures m[PathTo(m, h)[i]].nChainWork <= m[PathTo(m, h)[j]].nChainWork
    decreases j - i
  {
    if i < j {
      WorkGrows(m, h, i, j - 1);
      StepDown(m, h, j);
      assert LinkOk(m, PathTo(m, h)[j]);
    }
  }

  lemma {:induction false} StepDown(m: Tree, h: Hash, i: nat)
    requires TreeOk(m) && h in m && i <= m[h].nHeight
    ensures PathTo(m, h)[i] in m
    ensures m[PathTo(m, h)[i]].pprev == if i == 0 then None else Some(PathTo(m, h)[i - 1])
  {
    var x := PathTo(m, h)[i];
    PathPrefix(m, h, i);
    assert LinkOk(m, x);
    if i > 0 {
      assert PathTo(m, x)[i - 1] == PathTo(m, h)[i - 1];
      assert PathTo(m, x)[i - 1] == m[x].pprev.value by {
        var p := m[x].pprev.value;
        assert PathTo(m, x) == PathTo(m, p) + [x];
      }
    }
  }

  /** The state of the collection after visiting path[i..] from the top. */
  ghost predicate Collected(path: seq<Hash>, i: nat, vConnect: seq<Hash>, failed0: set<Hash>, failed: set<Hash>,
                            valid0: set<Hash>, valid: set<Hash>)
    requires i <= |path|
  {
    var q := FirstFailed(path, failed0, i);
    vConnect == path[i..q] && failed == failed0 + Elements(path[q..]) && valid == valid0 - Elements(path[q..])
  }

  /** One step of the collection. */
  ghost function Visit(h: Hash, vConnect: seq<Hash>, failed: set<Hash>, valid: set<Hash>): (seq<Hash>, set<Hash>, set<Hash>)
  {
    var bad := Elements([h] + vConnect);
    if h in failed then ([], failed + bad, valid - bad) else ([h] + vConnect, failed, valid)
  }

  lemma {:induction false} VisitStep(m: Tree, h: Hash, path: seq<Hash>, i: nat, vConnect: seq<Hash>,
                                     failed0: set<Hash>, failed: set<Hash>, valid0: set<Hash>, valid: set<Hash>)
    requires TreeOk(m) && h in m && path == PathTo(m, h) && 0 < i <= |path|
    requires Collected(path, i, vConnect, failed0, failed, valid0, valid)
    ensures var r := Visit(path[i - 1], vConnect, failed, valid);
            Collected(path, i - 1, r.0, failed0, r.1, valid0, r.2)
  {
    CollectStep(m, h, path, i, vConnect, failed0, failed, valid0, valid);
  }

  lemma {:induction false} CollectStep(m: Tree, h: Hash, path: seq<Hash>, i: nat, vConnect: seq<Hash>,
                                       failed0: set<Hash>, failed: set<Hash>, valid0: set<Hash>, valid: set<Hash>)
    requires TreeOk(m) && h in m && path == PathTo(m, h) && 0 < i <= |path|
    requires Collected(path, i, vConnect, failed0, failed, valid0, valid)
    ensures path[i - 1] in failed <==> path[i - 1] in failed0
    ensures path[i - 1] !in failed0 ==> Collected(path, i - 1, [path[i - 1]] + vConnect, failed0, failed, valid0, valid)
    ensures path[i - 1] in failed0 ==>
              var bad := Elements([path[i - 1]] + vConnect);
              Collected(path, i - 1, [], failed0, failed + bad, valid0, valid - bad)
  {
    OffPath(m, h, i - 1, FirstFailed(path, failed0, i));
    if path[i - 1] in failed0 {
      CollectBad(path, i, vConnect, failed0, failed, valid0, valid);
    } else {
      CollectGood(path, i, vConnect, failed0);
    }
  }

  lemma {:induction false} OffPath(m: Tree, h: Hash, i: nat, q: nat)
    requires TreeOk(m) && h in m && i < q <= |PathTo(m, h)|
    ensures PathTo(m, h)[i] !in Elements(PathTo(m, h)[q..])
  {
    var path := PathTo(m, h);
    forall j | 0 <= j < |path[q..]|
      ensures path[q..][j] != path[i]
    {
      assert m[path[q + j]].nHeight == q + j && m[path[i]].nHeight == i;
    }
  }

  lemma {:induction false} CollectGood(path: seq<Hash>, i: nat, vConnect: seq<Hash>, failed0: set<Hash>)
    requires 0 < i <= |path| && path[i - 1] !in failed0 && vConnect == path[i..FirstFailed(path, failed0, i)]
    ensures FirstFailed(path, failed0, i - 1) == FirstFailed(path, failed0, i)
    ensures [path[i - 1]] + vConnect == path[i - 1..FirstFailed(path, failed0, i)]
  {
  }

  lemma {:induction false} CollectBad(path: seq<Hash>, i: nat, vConnect: seq<Hash>, failed0: set<Hash>, failed: set<Hash>,
                                      valid0: set<Hash>, valid: set<Hash>)
    requires 0 < i <= |path| && path[i - 1] in failed0
    requires Collected(path, i, vConnect, failed0, failed, valid0, valid)
    ensures var bad := Elements([path[i - 1]] + vConnect);
            Collected(path, i - 1, [], failed0, failed + bad, valid0, valid - bad)
  {
    var q := FirstFailed(path, failed0, i);
    var bad := Elements([path[i - 1]] + vConnect);
    assert Elements(path[i - 1..]) == bad + Elements(path[q..]) by {
      assert [path[i - 1]] + vConnect == path[i - 1..q];
      ElementsJoin(path[i - 1..q], path[q..]);
      assert path[i - 1..q] + path[q..] == path[i - 1..];
    }
    assert FirstFailed(path, failed0, i - 1) == i - 1;
  }

  lemma ElementsJoin(a: seq<Hash>, b: seq<Hash>)
    ensures Elements(a + b) == Elements(a) + Elements(b)
  {
    forall x
      ensures x in Elements(a + b) <==> x in Elements(a) || x in Elements(b)
    {
      if x in Elements(a) {
        var i :| 0 <= i < |a| && a[i] == x;
        assert (a + b)[i] == x;
      }
      if x in Elements(b) {
        var i :| 0 <= i < |b| && b[i] == x;
        assert (a + b)[|a| + i] == x;
      }
      if x in Elements(a + b) {
        var i :| 0 <= i < |a + b| && (a + b)[i] == x;
        assert i < |a| ==> a[i] == x;
        assert i >= |a| ==> b[i - |a|] == x;
      }
    }
  }

  /** No block between the fork and the new tip carries a failure mark. */
  ghost predicate NoneFailed(m: Tree, pindexNew: Hash, failed: set<Hash>, keep: nat)
    requires TreeOk(m) && pindexNew in m && keep <= |PathTo(m, pindexNew)|
  {
    FirstFailed(PathTo(m, pindexNew), failed, keep) == |PathTo(m, pindexNew)|
  }

  lemma {:induction false} MeetBelow(m: Tree, a: Hash, b: Hash, i: nat, j: nat)
    requires TreeOk(m) && a in m && b in m && j <= i <= m[a].nHeight && i <= m[b].nHeight
    requires PathTo(m, a)[i] == PathTo(m, b)[i]
    ensures PathTo(m, a)[j] == PathTo(m, b)[j]
  {
    PathsMeet(m, a, b, i);
    assert PathTo(m, a)[..i + 1][j] == PathTo(m, b)[..i + 1][j];
  }

  /** Above the fork the new path shares no block with the current chain. */
  lemma {:induction false} OffTip(m: Tree, tip: seq<Hash>, best: Option<Hash>, pindexNew: Hash, keep: nat, i: nat)
    requires TreeOk(m) && pindexNew in m && KnownTip(m, best) && tip == PathToTip(m, best)
    requires CommonLength(tip, PathTo(m, pindexNew), keep) && keep <= i < |PathTo(m, pindexNew)|
    ensures PathTo(m, pindexNew)[i] !in Elements(tip)
    ensures best.Some? ==> !IsAncestor(m, PathTo(m, pindexNew)[i], best.value)
  {
    var path := PathTo(m, pindexNew);
    if i < |tip| && tip[i] == path[i] {
      MeetBelow(m, best.value, pindexNew, i, keep);
      assert false;
    }
    forall j | 0 <= j < |tip|
      ensures tip[j] != path[i]
    {
      assert m[tip[j]].nHeight == j && m[path[i]].nHeight == i;
    }
  }

  lemma {:induction false} ConnectOffTip(m: Tree, best: Option<Hash>, pindexNew: Hash, keep: nat, vConnect: seq<Hash>,
                                         failed0: set<Hash>, failed: set<Hash>, valid0: set<Hash>, valid: set<Hash>, h: Hash)
    requires KnownTip(m, best) && pindexNew in m && h in vConnect
    requires CommonLength(PathToTip(m, best), PathTo(m, pindexNew), keep)
    requires Collected(PathTo(m, pindexNew), keep, vConnect, failed0, failed, valid0, valid)
    ensures h in m && h !in Elements(PathToTip(m, best))
    ensures best.Some? ==> !IsAncestor(m, h, best.value)
  {
    var path := PathTo(m, pindexNew);
    var i := IndexIn(path, keep, FirstFailed(path, failed0, keep), h);
    OffTip(m, PathToTip(m, best), best, pindexNew, keep, i);
  }

  lemma IndexIn(s: seq<Hash>, lo: nat, hi: nat, h: Hash) returns (i: nat)
    requires lo <= hi <= |s| && h in s[lo..hi]
    ensures lo <= i < hi && s[i] == h
  {
    var j :| 0 <= j < hi - lo && s[lo..hi][j] == h;
    i := lo + j;
  }

  lemma {:induction false} MarkedOffTip(m: Tree, tip: seq<Hash>, best: Option<Hash>, pindexNew: Hash, keep: nat, q: nat)
    requires TreeOk(m) && pindexNew in m && KnownTip(m, best) && tip == PathToTip(m, best)
    requires CommonLength(tip, PathTo(m, pindexNew), keep) && keep <= q <= |PathTo(m, pindexNew)|
    ensures Elements(tip) !! Elements(PathTo(m, pindexNew)[q..])
  {
    var path := PathTo(m, pindexNew);
    forall x | x in Elements(path[q..])
      ensures x !in Elements(tip)
    {
      var j :| 0 <= j < |path[q..]| && path[q..][j] == x;
      OffTip(m, tip, best, pindexNew, keep, q + j);
    }
  }

  lemma {:induction false} ForkOnPaths(m: Tree, tip: seq<Hash>, best: Option<Hash>, pindexNew: Hash,
                                       pfork: Option<Hash>, keep: nat)
    requires TreeOk(m) && pindexNew in m && KnownTip(m, best) && tip == PathToTip(m, best)
    requires CommonLength(tip, PathTo(m, pindexNew), keep)
    requires pfork.None? <==> keep == 0
    requires pfork.Some? ==> pfork.value in m && m[pfork.value].nHeight == keep - 1
    requires pfork.Some? ==> best.Some? && IsFork(m, pfork.value, best.value, pindexNew)
    ensures pfork == if keep == 0 then None else Some(tip[keep - 1])
    ensures pfork == if keep == 0 then None else Some(PathTo(m, pindexNew)[keep - 1])
  {
  }

  datatype Attempt = Done | Stopped | Rejected(h: Hash)

  /** Disconnects and connects the blocks, as far as that goes. */
  method TryBlocks(w: World, vDisconnect: seq<Hash>, vConnect: seq<Hash>) returns (r: Attempt)
    ensures r.Done? <==> Undone(w, vDisconnect) && AllConnect(w, vConnect)
    ensures r.Rejected? ==> r.h in vConnect
    ensures (if r.Rejected? then {r.h} else {}) == Found(w, vDisconnect, vConnect)
  {
    for i := 0 to |vDisconnect|
      invariant forall j :: 0 <= j < i ==> w.undo(vDisconnect[j])
    {
      if !w.undo(vDisconnect[i]) {
        return Stopped;
      }
    }
    for i := 0 to |vConnect|
      invariant forall j :: 0 <= j < i ==> w.connect(vConnect[j]) == Connected
    {
      var outcome := w.connect(vConnect[i]);
      if outcome == Invalid {
        return Rejected(vConnect[i]);
      }
      if outcome == Failed {
        return Stopped;
      }
    }
    r := Done;
  }

  ghost predicate Undone(w: World, vDisconnect: seq<Hash>)
  {
    forall i :: 0 <= i < |vDisconnect| ==> w.undo(vDisconnect[i])
  }

  ghost predicate AllConnect(w: World, vConnect: seq<Hash>)
  {
    forall i :: 0 <= i < |vConnect| ==> w.connect(vConnect[i]) == Connected
  }

  /** Where the first block stands that does not connect. */
  ghost function FirstBad(w: World, blocks: seq<Hash>, from: nat): (i: nat)
    requires from <= |blocks|
    ensures from <= i <= |blocks| && (forall j :: from <= j < i ==> w.connect(blocks[j]) == Connected)
    ensures i < |blocks| ==> w.connect(blocks[i]) != Connected
    decreases |blocks| - from
  {
    if from == |blocks| || w.connect(blocks[from]) != Connected then from else FirstBad(w, blocks, from + 1)
  }

  /** The first block that does not connect, if it comes to connecting and the block is invalid. */
  ghost function Found(w: World, vDisconnect: seq<Hash>, vConnect: seq<Hash>): set<Hash>
  {
    var i := FirstBad(w, vConnect, 0);
    if Undone(w, vDisconnect) && i < |vConnect| && w.connect(vConnect[i]) == Invalid then {vConnect[i]} else {}
  }

  /** The block that a switch finds invalid; one to a shorter chain does not get that far. */
  ghost function Rejects(w: World, tip: seq<Hash>, path: seq<Hash>, keep: nat, q: nat): set<Hash>
    requires keep <= |tip| && keep <= q <= |path|
  {
    if |tip| <= q then Found(w, tip[keep..], path[keep..q]) else {}
  }

  /** The marks a switch sets: all from the first failed block on, and a block found invalid. */
  ghost predicate Marked(tip: seq<Hash>, path: seq<Hash>, keep: nat, q: nat, w: World, invalid: set<Hash>, invalid': set<Hash>,
                         failed: set<Hash>, failed': set<Hash>, valid: set<Hash>, valid': set<Hash>)
    requires keep <= |tip| && keep <= q <= |path|
  {
    var bad := Rejects(w, tip, path, keep, q);
    && invalid' == invalid + bad
    && failed' == failed + Elements(path[q..]) + bad
    && valid' == valid - Elements(path[q..]) - bad
  }

  /** Some blocks were found invalid, and nothing else was marked or dropped. */
  ghost predicate Added(invalid: set<Hash>, invalid': set<Hash>, failed: set<Hash>, failed': set<Hash>,
                        valid: set<Hash>, valid': set<Hash>, bad: set<Hash>)
  {
    invalid' == invalid + bad && failed' == failed + bad && valid' == valid - bad
  }

  lemma AddedNone(invalid: set<Hash>, failed: set<Hash>, valid: set<Hash>)
    ensures Added(invalid, invalid, failed, failed, valid, valid, {})
  {
  }

  /** What is marked while collecting and while connecting makes up the marks of the switch. */
  lemma {:induction false} MarkedBy(tip: seq<Hash>, path: seq<Hash>, keep: nat, q: nat, w: World, vDisconnect: seq<Hash>,
                                    vConnect: seq<Hash>, bad: set<Hash>, invalid: set<Hash>, invalid': set<Hash>,
                                    failed: set<Hash>, failed1: set<Hash>, failed': set<Hash>,
                                    valid: set<Hash>, valid1: set<Hash>, valid': set<Hash>)
    requires FromTop(tip, keep, vDisconnect) && keep <= |path| && q == FirstFailed(path, failed, keep)
    requires Collected(path, keep, vConnect, failed, failed1, valid, valid1)
    requires bad == if |vConnect| >= |vDisconnect| then Found(w, vDisconnect, vConnect) else {}
    requires Added(invalid, invalid', failed1, failed', valid1, valid', bad)
    ensures Marked(tip, path, keep, q, w, invalid, invalid', failed, failed', valid, valid')
  {
    UndoneFromTop(w, tip, keep, vDisconnect);
    assert bad == Rejects(w, tip, path, keep, q);
  }

  lemma {:induction false} UndoneFromTop(w: World, tip: seq<Hash>, keep: nat, vDisconnect: seq<Hash>)
    requires FromTop(tip, keep, vDisconnect)
    ensures Undone(w, vDisconnect) <==> Undone(w, tip[keep..])
  {
    if Undone(w, vDisconnect) {
      forall i | 0 <= i < |tip[keep..]|
        ensures w.undo(tip[keep..][i])
      {
        assert vDisconnect[|tip| - 1 - keep - i] == tip[keep + i];
      }
    }
    if Undone(w, tip[keep..]) {
      forall i | 0 <= i < |vDisconnect|
        ensures w.undo(vDisconnect[i])
      {
        assert tip[keep..][|tip| - 1 - i - keep] == tip[|tip| - 1 - i];
      }
    }
  }

  /** A switch that goes through rejects nothing; in a sound world one that is not shorter fails only by rejecting a block. */
  lemma {:induction false} RejectsIff(w: World, tip: seq<Hash>, path: seq<Hash>, keep: nat, q: nat, h: Hash)
    requires keep <= |tip| && keep <= q <= |path|
    ensures Goes(w, tip, path, keep, q, h) ==> Rejects(w, tip, path, keep, q) == {}
    ensures Sound(w) && |tip| <= q && !Goes(w, tip, path, keep, q, h) ==>
              exists i :: keep <= i < q && w.connect(path[i]) == Invalid && path[i] in Rejects(w, tip, path, keep, q)
  {
    var blocks := path[keep..q];
    var i := FirstBad(w, blocks, 0);
    if i < |blocks| {
      assert blocks[i] == path[keep + i];
    } else {
      forall k | keep <= k < q
        ensures w.connect(path[k]) == Connected
      {
        assert blocks[k - keep] == path[k];
      }
    }
  }

  /** The blocks of the current chain above the fork, from the top. */
  ghost predicate FromTop(tip: seq<Hash>, keep: nat, vDisconnect: seq<Hash>)
  {
    keep <= |tip| && |vDisconnect| == |tip| - keep &&
    forall i :: 0 <= i < |vDisconnect| ==> vDisconnect[i] == tip[|tip| - 1 - i]
  }

  /** When the listed work on a switch is all done. */
  lemma {:induction false} GoesIff(w: World, tip: seq<Hash>, path: seq<Hash>, keep: nat, q: nat, h: Hash,
                                   vDisconnect: seq<Hash>, vConnect: seq<Hash>)
    requires FromTop(tip, keep, vDisconnect) && keep <= q <= |path| && vConnect == path[keep..q]
    ensures Goes(w, tip, path, keep, q, h) <==>
            |vConnect| >= |vDisconnect| && w.flush(h) && Undone(w, vDisconnect) && AllConnect(w, vConnect)
  {
    if Goes(w, tip, path, keep, q, h) {
      assert forall i :: 0 <= i < |vConnect| ==> vConnect[i] == path[keep + i];
    }
    if Undone(w, vDisconnect) {
      forall i | keep <= i < |tip|
        ensures w.undo(tip[i])
      {
        assert vDisconnect[|tip| - 1 - i] == tip[i];
      }
    }
    if AllConnect(w, vConnect) {
      forall i | keep <= i < q
        ensures w.connect(path[i]) == Connected
      {
        assert vConnect[i - keep] == path[i];
      }
    }
  }

  /** Resizes the by-height vector and enters the connected blocks, which start at height `keep`. */
  method Record(v: seq<Option<Hash>>, nHeight: nat, vConnect: seq<Hash>, keep: nat) returns (r: seq<Option<Hash>>)
    requires keep + |vConnect| <= nHeight + 1
    ensures Entered(v, nHeight, vConnect, keep, r)
  {
    r := if |v| >= nHeight + 1 then v[..nHeight + 1] else v + seq(nHeight + 1 - |v|, _ => None);
    for j := 0 to |vConnect|
      invariant |r| == nHeight + 1
      invariant forall i :: 0 <= i <= nHeight ==>
                  r[i] == if keep <= i < keep + j then Some(vConnect[i - keep]) else if i < |v| then v[i] else None
    {
      r := r[keep + j := Some(vConnect[j])];
    }
  }

  ghost predicate Entered(v: seq<Option<Hash>>, nHeight: nat, vConnect: seq<Hash>, keep: nat, r: seq<Option<Hash>>)
  {
    && |r| == nHeight + 1
    && forall i :: 0 <= i <= nHeight ==>
         r[i] == if keep <= i < keep + |vConnect| then Some(vConnect[i - keep]) else if i < |v| then v[i] else None
  }

  /** The recorded vector is the new path exactly when no failed block was in the way. */
  lemma {:induction false} RecordedIff(m: Tree, best: Option<Hash>, pindexNew: Hash, keep: nat, q: nat, tip: seq<Hash>,
                                       r: seq<Option<Hash>>)
    requires TreeOk(m) && pindexNew in m && KnownTip(m, best) && tip == PathToTip(m, best)
    requires CommonLength(tip, PathTo(m, pindexNew), keep) && keep <= q <= |PathTo(m, pindexNew)|
    requires EnteredFrom(tip, PathTo(m, pindexNew), keep, q, r)
    ensures r == AllSome(PathTo(m, pindexNew)) <==> q == |PathTo(m, pindexNew)|
  {
    var path := PathTo(m, pindexNew);
    if q < |path| {
      OffTip(m, tip, best, pindexNew, keep, q);
      assert r[q] != Some(path[q]) by {
        if q < |tip| {
          assert tip[q] in Elements(tip);
        }
      }
    } else {
      forall i | 0 <= i < |r|
        ensures r[i] == Some(path[i])
      {
        if i < keep {
          assert tip[..keep][i] == path[..keep][i];
        }
      }
    }
  }

  /** The outcome of recording a new chain. */
  lemma {:induction false} Recorded(m: Tree, best: Option<Hash>, pindexNew: Hash, keep: nat, vConnect: seq<Hash>,
                                    failed0: set<Hash>, failed: set<Hash>, valid0: set<Hash>, valid: set<Hash>,
                                    v: seq<Option<Hash>>, r: seq<Option<Hash>>)
    requires ChainOk(m, failed, v, best) && pindexNew in m
    requires CommonLength(PathToTip(m, best), PathTo(m, pindexNew), keep)
    requires Collected(PathTo(m, pindexNew), keep, vConnect, failed0, failed, valid0, valid)
    requires Entered(v, m[pindexNew].nHeight, vConnect, keep, r)
    ensures r == AllSome(PathTo(m, pindexNew)) <==> NoneFailed(m, pindexNew, failed0, keep)
    ensures NoneFailed(m, pindexNew, failed0, keep) ==>
              ChainOk(m, failed, r, Some(pindexNew)) && failed == failed0 && valid == valid0
  {
    var q := FirstFailed(PathTo(m, pindexNew), failed0, keep);
    EnteredPath(PathToTip(m, best), PathTo(m, pindexNew), keep, q, v, vConnect, r);
    RecordedIff(m, best, pindexNew, keep, q, PathToTip(m, best), r);
    if NoneFailed(m, pindexNew, failed0, keep) {
      CleanPath(PathTo(m, pindexNew), keep, q, PathToTip(m, best), failed0, failed);
    }
  }

  method NewByHeight(m: Tree, ghost best: Option<Hash>, pindexNew: Hash, keep: nat, vConnect: seq<Hash>,
                     ghost failed0: set<Hash>, ghost failed: set<Hash>, ghost valid0: set<Hash>, ghost valid: set<Hash>,
                     v: seq<Option<Hash>>) returns (r: seq<Option<Hash>>)
    requires ChainOk(m, failed, v, best) && pindexNew in m
    requires CommonLength(PathToTip(m, best), PathTo(m, pindexNew), keep)
    requires Collected(PathTo(m, pindexNew), keep, vConnect, failed0, failed, valid0, valid)
    ensures r == AllSome(PathTo(m, pindexNew)) <==> NoneFailed(m, pindexNew, failed0, keep)
    ensures NoneFailed(m, pindexNew, failed0, keep) ==>
              ChainOk(m, failed, r, Some(pindexNew)) && failed == failed0 && valid == valid0
  {
    r := Record(v, m[pindexNew].nHeight, vConnect, keep);
    Recorded(m, best, pindexNew, keep, vConnect, failed0, failed, valid0, valid, v, r);
  }

  lemma EnteredPath(tip: seq<Hash>, path: seq<Hash>, keep: nat, q: nat, v: seq<Option<Hash>>, vConnect: seq<Hash>,
                    r: seq<Option<Hash>>)
    requires |path| > 0 && keep <= q <= |path| && v == AllSome(tip) && vConnect == path[keep..q]
    requires Entered(v, |path| - 1, vConnect, keep, r)
    ensures EnteredFrom(tip, path, keep, q, r)
  {
  }

  ghost predicate EnteredFrom(tip: seq<Hash>, path: seq<Hash>, keep: nat, q: nat, r: seq<Option<Hash>>)
    requires keep <= q <= |path|
  {
    && |r| == |path|
    && forall i :: 0 <= i < |r| ==>
         r[i] == if keep <= i < q then Some(path[i]) else if i < |tip| then Some(tip[i]) else None
  }

  /** Without failed blocks above the fork nothing was marked, and the whole new path is clean. */
  lemma {:induction false} CleanPath(path: seq<Hash>, keep: nat, q: nat, tip: seq<Hash>, failed0: set<Hash>, failed: set<Hash>)
    requires keep <= q == |path| && keep <= |tip| && tip[..keep] == path[..keep]
    requires q == FirstFailed(path, failed0, keep) && failed == failed0 + Elements(path[q..])
    requires Elements(tip) !! failed
    ensures Elements(path) !! failed && failed == failed0 && Elements(path[q..]) == {}
  {
    forall x | x in Elements(path)
      ensures x !in failed0
    {
      var i :| 0 <= i < |path| && path[i] == x;
      if i < keep {
        assert tip[..keep][i] == x;
        assert tip[i] in Elements(tip);
      }
    }
  }

  /** Nothing above a failed block is on the current chain. */
  lemma {:induction false} FailedOffTip(m: Tree, failed: set<Hash>, best: Option<Hash>, h: Hash, stop: nat)
    requires KnownTip(m, best) && h in m && stop < |PathTo(m, h)| && PathTo(m, h)[stop] in failed
    requires Elements(PathToTip(m, best)) !! failed
    ensures Elements(PathTo(m, h)[stop..]) !! Elements(PathToTip(m, best))
    ensures h in Elements(PathTo(m, h)[stop..])
  {
    var tip, path := PathToTip(m, best), PathTo(m, h);
    assert path[stop..][|path| - 1 - stop] == h;
    forall x | x in Elements(path[stop..])
      ensures x !in Elements(tip)
    {
      var i :| 0 <= i < |path[stop..]| && path[stop..][i] == x;
      if x in Elements(tip) {
        var j :| 0 <= j < |tip| && tip[j] == x;
        MeetAt(m, best.value, h, j, stop + i, stop);
        assert false;
      }
    }
  }

  /** The loop of MarkDescendants. */
  method MarkAbove(m: Tree, pindexNewBest: Hash, pindexTest: Hash, failed0: set<Hash>, valid0: set<Hash>, ghost stop: nat)
    returns (failed: set<Hash>, valid: set<Hash>)
    requires TreeOk(m) && pindexNewBest in m && stop < |PathTo(m, pindexNewBest)| && valid0 !! failed0
    requires pindexTest == PathTo(m, pindexNewBest)[stop] && pindexTest in failed0
    ensures failed == failed0 + Elements(PathTo(m, pindexNewBest)[stop..])
    ensures valid == valid0 - Elements(PathTo(m, pindexNewBest)[stop..])
  {
    ghost var path := PathTo(m, pindexNewBest);
    ghost var i: nat := |path| - 1;
    var pindexFailed := pindexNewBest;
    failed, valid := failed0, valid0;
    while pindexFailed != pindexTest
      invariant stop <= i < |path| && pindexFailed == path[i]
      invariant failed == failed0 + Elements(path[i + 1..]) && valid == valid0 - Elements(path[i + 1..])
      decreases i
    {
      failed, valid := failed + {pindexFailed}, valid - {pindexFailed};
      StepDown(m, pindexNewBest, i);
      ElementsFrom(path, i);
      pindexFailed := m[pindexFailed].pprev.value;
      i := i - 1;
    }
    assert i == stop;
    ElementsFrom(path, i);
  }

  lemma ElementsFrom(path: seq<Hash>, i: nat)
    requires i < |path|
    ensures Elements(path[i..]) == {path[i]} + Elements(path[i + 1..])
  {
    assert path[i..] == [path[i]] + path[i + 1..];
    ElementsJoin([path[i]], path[i + 1..]);
    assert Elements([path[i]]) == {path[i]} by {
      assert [path[i]][0] == path[i];
    }
  }

  // ----- failure marks -----

  /** Candidates are dropped only by being marked. */
  ghost predicate Dropped(failed0: set<Hash>, failed: set<Hash>, valid0: set<Hash>, valid: set<Hash>)
  {
    failed0 <= failed && valid <= valid0 && valid0 - valid <= failed
  }

  ghost predicate HasInvalid(m: Tree, invalid: set<Hash>, x: Hash)
    requires TreeOk(m) && x in m
  {
    exists a :: a in invalid && IsAncestor(m, a, x)
  }

  /** Every marked block is invalid itself or builds on an invalid block. */
  ghost predicate Justified(m: Tree, invalid: set<Hash>, failed: set<Hash>)
  {
    TreeOk(m) && forall x :: x in failed ==> x in m && HasInvalid(m, invalid, x)
  }

  /** Marking the descendants of a marked block is justified. */
  lemma {:induction false} MarkJustified(m: Tree, invalid: set<Hash>, failed: set<Hash>, h: Hash, q: nat)
    requires Justified(m, invalid, failed) && h in m && q <= |PathTo(m, h)|
    requires q < |PathTo(m, h)| ==> PathTo(m, h)[q] in failed
    ensures Justified(m, invalid, failed + Elements(PathTo(m, h)[q..]))
  {
    var path := PathTo(m, h);
    forall x | x in Elements(path[q..])
      ensures x in m && HasInvalid(m, invalid, x)
    {
      var i :| 0 <= i < |path[q..]| && path[q..][i] == x;
      DescendantJustified(m, invalid, h, q, q + i);
    }
  }

  lemma {:induction false} DescendantJustified(m: Tree, invalid: set<Hash>, h: Hash, q: nat, i: nat)
    requires TreeOk(m) && h in m && q <= i < |PathTo(m, h)| && HasInvalid(m, invalid, PathTo(m, h)[q])
    ensures HasInvalid(m, invalid, PathTo(m, h)[i])
  {
    var b, c := PathTo(m, h)[q], PathTo(m, h)[i];
    var a :| a in invalid && IsAncestor(m, a, b);
    PathPrefix(m, h, i);
    assert IsAncestor(m, b, c);
    AncestorTransitive(m, a, b, c);
  }

  lemma {:induction false} CollectedJustified(m: Tree, h: Hash, keep: nat, vConnect: seq<Hash>, invalid: set<Hash>,
                                              failed0: set<Hash>, failed: set<Hash>, valid0: set<Hash>, valid: set<Hash>)
    requires Justified(m, invalid, failed0) && h in m && keep <= |PathTo(m, h)|
    requires Collected(PathTo(m, h), keep, vConnect, failed0, failed, valid0, valid)
    ensures Justified(m, invalid, failed)
  {
    MarkJustified(m, invalid, failed0, h, FirstFailed(PathTo(m, h), failed0, keep));
  }

  lemma {:induction false} InvalidJustified(m: Tree, invalid: set<Hash>, failed: set<Hash>, h: Hash)
    requires Justified(m, invalid, failed) && h in m
    ensures Justified(m, invalid + {h}, failed + {h})
  {
    forall x | x in failed + {h}
      ensures x in m && HasInvalid(m, invalid + {h}, x)
    {
      if x == h {
        assert IsAncestor(m, h, x);
      } else {
        var a :| a in invalid && IsAncestor(m, a, x);
        assert a in invalid + {h};
      }
    }
  }

  lemma {:induction false} JustifiedGrows(m: Tree, invalid: set<Hash>, failed: set<Hash>, hash: Hash, prev: Hash, work: nat)
    requires Justified(m, invalid, failed) && hash !in m && (prev in m || m == map[])
    ensures Justified(Extended(m, hash, prev, work), invalid, failed)
  {
    TreeGrows(m, hash, prev, work);
    var m' := Extended(m, hash, prev, work);
    forall x | x in failed
      ensures x in m' && HasInvalid(m', invalid, x)
    {
      var a :| a in invalid && IsAncestor(m, a, x);
      assert IsAncestor(m', a, x);
    }
  }

  lemma {:induction false} MeetAt(m: Tree, a: Hash, b: Hash, j: nat, i: nat, stop: nat)
    requires TreeOk(m) && a in m && b in m && j < |PathTo(m, a)| && stop <= i < |PathTo(m, b)|
    requires PathTo(m, a)[j] == PathTo(m, b)[i]
    ensures PathTo(m, b)[stop] in Elements(PathTo(m, a))
  {
    assert m[PathTo(m, a)[j]].nHeight == j && m[PathTo(m, b)[i]].nHeight == i;
    MeetBelow(m, a, b, i, stop);
    assert PathTo(m, a)[stop] in Elements(PathTo(m, a));
  }

  /** The main chain and the path to h share the block at height `stop`, unless that is genesis. */
  ghost predicate Joined(m: Tree, best: Option<Hash>, h: Hash, stop: nat)
  {
    && KnownTip(m, best) && h in m && stop < |PathTo(m, h)|
    && (stop == 0 || (stop < |PathToTip(m, best)| && PathToTip(m, best)[stop] == PathTo(m, h)[stop]))
  }

  /** On a path without failed blocks from `stop` on, switching to any of its blocks meets none. */
  lemma {:induction false} NothingFailed(m: Tree, failed: set<Hash>, best: Option<Hash>, best0: Option<Hash>, h: Hash,
                                         stop: nat, first: nat, vAttach: seq<Hash>, j: nat, keep: nat)
    requires Joined(m, best, h, stop) && Walked(m, h, failed, best0, stop, first, vAttach) && j < |vAttach|
    requires vAttach[j] in m && CommonLength(PathToTip(m, best), PathTo(m, vAttach[j]), keep)
    ensures NoneFailed(m, vAttach[j], failed, keep) && Joined(m, Some(vAttach[j]), h, stop) && MoreWork(m, best0, vAttach[j])
  {
    var i, x := first + j, vAttach[j];
    AttachedPath(m, h, first, vAttach, j);
    assert x == PathTo(m, h)[i] && MoreWork(m, best0, x);
    SharesFront(m, best, h, stop, i, keep);
    CleanFront(m, failed, h, stop, i, keep);
  }

  lemma StaysAhead(m: Tree, best0: Option<Hash>, best: Option<Hash>, h: Hash)
    requires KnownTip(m, best0) && KnownTip(m, best) && Advances(m, best0, best) && h in m
    requires MoreWork(m, best0, h) && |PathToTip(m, best)| <= |PathTo(m, h)|
    ensures Advances(m, best0, Some(h))
  {
  }

  lemma {:induction false} CleanFront(m: Tree, failed: set<Hash>, h: Hash, stop: nat, j: nat, keep: nat)
    requires TreeOk(m) && h in m && j < |PathTo(m, h)| && stop <= keep <= |PathTo(m, PathTo(m, h)[j])|
    requires forall i :: stop <= i < |PathTo(m, h)| ==> PathTo(m, h)[i] !in failed
    ensures NoneFailed(m, PathTo(m, h)[j], failed, keep)
  {
    PathPrefix(m, h, j);
  }

  lemma JoinedAt(m: Tree, failed: set<Hash>, v: seq<Option<Hash>>, best: Option<Hash>, h: Hash, stop: nat)
    requires ChainOk(m, failed, v, best) && h in m && stop < |PathTo(m, h)|
    requires stop == 0 || (stop < |v| && v[stop] == Some(PathTo(m, h)[stop]))
    ensures Joined(m, best, h, stop)
  {
  }

  lemma {:induction false} SharesFront(m: Tree, best: Option<Hash>, h: Hash, stop: nat, j: nat, keep: nat)
    requires Joined(m, best, h, stop) && stop <= j < |PathTo(m, h)|
    requires CommonLength(PathToTip(m, best), PathTo(m, PathTo(m, h)[j]), keep)
    ensures keep >= stop && Joined(m, Some(PathTo(m, h)[j]), h, stop)
  {
    PathPrefix(m, h, j);
    if stop > 0 {
      FrontAgrees(m, best.value, PathTo(m, h)[j], stop, keep);
    }
  }

  lemma {:induction false} FrontAgrees(m: Tree, a: Hash, b: Hash, stop: nat, keep: nat)
    requires TreeOk(m) && a in m && b in m && stop <= m[a].nHeight && stop <= m[b].nHeight
    requires PathTo(m, a)[stop] == PathTo(m, b)[stop] && CommonLength(PathTo(m, a), PathTo(m, b), keep)
    ensures keep > stop
  {
    if keep <= stop {
      MeetBelow(m, a, b, stop, keep);
      assert false;
    }
  }

  // ----- the coin view after a switch -----

  /** The last block below the first failed one; the fork itself if that is the first above it. */
  ghost function BelowFailed(path: seq<Hash>, failed: set<Hash>, keep: nat): Option<Hash>
    requires keep <= |path|
  {
    var q := FirstFailed(path, failed, keep);
    if q == 0 then None else Some(path[q - 1])
  }

  lemma {:induction false} BelowFailedIff(m: Tree, h: Hash, failed: set<Hash>, keep: nat)
    requires TreeOk(m) && h in m && keep <= |PathTo(m, h)|
    ensures BelowFailed(PathTo(m, h), failed, keep) == Some(h) <==> NoneFailed(m, h, failed, keep)
  {
    var path, q := PathTo(m, h), FirstFailed(PathTo(m, h), failed, keep);
    if q > 0 && path[q - 1] == h {
      PathDistinct(m, h, q - 1, |path| - 1);
    }
  }

  /** The coin view's best block once the blocks above the fork are exchanged. */
  function LastConnected(v: seq<Option<Hash>>, keep: nat, vConnect: seq<Hash>): Option<Hash>
    requires keep <= |v|
  {
    if vConnect != [] then Some(vConnect[|vConnect| - 1]) else if keep == 0 then None else v[keep - 1]
  }

  lemma {:induction false} LastIs(m: Tree, best: Option<Hash>, pindexNew: Hash, keep: nat, v: seq<Option<Hash>>,
                                  failed: set<Hash>, vConnect: seq<Hash>, failed0: set<Hash>)
    requires ChainOk(m, failed, v, best) && pindexNew in m
    requires CommonLength(PathToTip(m, best), PathTo(m, pindexNew), keep)
    requires vConnect == PathTo(m, pindexNew)[keep..FirstFailed(PathTo(m, pindexNew), failed0, keep)]
    ensures LastConnected(v, keep, vConnect) == BelowFailed(PathTo(m, pindexNew), failed0, keep)
  {
    var tip, path := PathToTip(m, best), PathTo(m, pindexNew);
    if vConnect == [] && keep > 0 {
      assert tip[..keep][keep - 1] == path[..keep][keep - 1];
    }
  }

  lemma {:induction false} AttachedPath(m: Tree, h: Hash, first: nat, vAttach: seq<Hash>, j: nat)
    requires TreeOk(m) && h in m && first <= |PathTo(m, h)| && vAttach == PathTo(m, h)[first..] && j < |vAttach|
    ensures vAttach[j] == PathTo(m, h)[first + j] && vAttach[j] in m && |PathTo(m, vAttach[j])| == first + j + 1
  {
    PathPrefix(m, h, first + j);
  }
}
