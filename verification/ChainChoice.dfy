/**
 Which candidate becomes the tip, on values: the heaviest one without failed ancestors, if no
 ancestor of it that outweighs the tip is lower than the tip and its blocks turn out valid.
 */
module ChainChoice {
  import opened Wrappers
  import opened BlockTree
  import opened ChainRules

  // ----- the heaviest clean candidate -----

  /** No block on the path is marked failed. */
  ghost predicate Clean(m: Tree, failed: set<Hash>, h: Hash)
    requires TreeOk(m) && h in m
  {
    Elements(PathTo(m, h)) !! failed
  }

  /** Heavier than the tip, and the greatest of the candidates without a failed ancestor. */
  ghost predicate IsHeaviest(m: Tree, failed: set<Hash>, candidates: set<Hash>, best: Option<Hash>, top: Hash)
    requires KnownTip(m, best) && candidates <= m.Keys
  {
    && top in candidates && Clean(m, failed, top) && MoreWork(m, best, top)
    && forall x :: x in candidates && x != top && Clean(m, failed, x) ==> Less(m, x, top)
  }

  /** No block of the path with more work than the tip is lower than the tip. */
  ghost predicate NoHeavierBelow(m: Tree, best: Option<Hash>, h: Hash)
    requires KnownTip(m, best) && h in m
  {
    forall i :: 0 <= i < |PathTo(m, h)| && MoreWork(m, best, PathTo(m, h)[i]) ==> |PathToTip(m, best)| <= i + 1
  }

  /** Marks have made no clean block unclean, and no clean candidate was dropped. */
  ghost predicate CleanKept(m: Tree, failed0: set<Hash>, failed: set<Hash>, cands0: set<Hash>, cands: set<Hash>)
  {
    && TreeOk(m) && cands <= cands0 <= m.Keys && failed0 <= failed
    && (forall x {:trigger Clean(m, failed0, x)} :: x in m && Clean(m, failed0, x) ==> Clean(m, failed, x))
    && (forall x {:trigger Clean(m, failed0, x)} :: x in cands0 && Clean(m, failed0, x) ==> x in cands)
  }

  lemma {:induction false} CleanStays(m: Tree, failed: set<Hash>, h: Hash, stop: nat, x: Hash)
    requires TreeOk(m) && h in m && x in m && stop < |PathTo(m, h)| && PathTo(m, h)[stop] in failed && Clean(m, failed, x)
    ensures Clean(m, failed + Elements(PathTo(m, h)[stop..]), x) && x !in Elements(PathTo(m, h)[stop..])
  {
    FailedOffTip(m, failed, Some(x), h, stop);
    assert PathTo(m, x)[|PathTo(m, x)| - 1] == x;
    assert x in Elements(PathTo(m, x));
  }

  lemma {:induction false} MarkKeepsClean(m: Tree, failed0: set<Hash>, failed: set<Hash>, cands0: set<Hash>, cands: set<Hash>,
                                          h: Hash, stop: nat)
    requires CleanKept(m, failed0, failed, cands0, cands) && h in m
    requires stop < |PathTo(m, h)| && PathTo(m, h)[stop] in failed
    ensures CleanKept(m, failed0, failed + Elements(PathTo(m, h)[stop..]), cands0, cands - Elements(PathTo(m, h)[stop..]))
  {
    forall x: Hash | x in m && Clean(m, failed0, x)
      ensures Clean(m, failed + Elements(PathTo(m, h)[stop..]), x) && x !in Elements(PathTo(m, h)[stop..])
    {
      CleanStays(m, failed, h, stop, x);
    }
  }

  /** Where the greatest candidate does not outweigh the tip, no clean candidate does. */
  lemma {:induction false} NoneHeavier(m: Tree, failed0: set<Hash>, failed: set<Hash>, cands0: set<Hash>, cands: set<Hash>,
                                       best: Option<Hash>, g: Hash)
    requires CleanKept(m, failed0, failed, cands0, cands) && KnownTip(m, best) && best.Some?
    requires IsGreatest(m, cands, g) && (g == best.value || m[g].nChainWork == m[best.value].nChainWork)
    ensures forall top :: !IsHeaviest(m, failed0, cands0, best, top)
  {
    forall top: Hash
      ensures !IsHeaviest(m, failed0, cands0, best, top)
    {
      if top in cands0 && Clean(m, failed0, top) {
        assert top in cands;
      }
    }
  }

  lemma {:induction false} NoneLeft(m: Tree, failed0: set<Hash>, failed: set<Hash>, cands0: set<Hash>, best: Option<Hash>)
    requires CleanKept(m, failed0, failed, cands0, {}) && KnownTip(m, best)
    ensures forall top :: !IsHeaviest(m, failed0, cands0, best, top)
  {
    forall top: Hash
      ensures !IsHeaviest(m, failed0, cands0, best, top)
    {
      assert top in cands0 ==> !Clean(m, failed0, top);
    }
  }

  /** Every block on the way to h that is off the main chain connects. */
  ghost predicate Connects(m: Tree, best: Option<Hash>, h: Hash, w: World)
    requires KnownTip(m, best) && h in m
  {
    forall i :: 0 <= i < |PathTo(m, h)| && PathTo(m, h)[i] !in Elements(PathToTip(m, best)) ==>
      w.connect(PathTo(m, h)[i]) == Connected
  }

  /** A block on the way to h, off the main chain, was found invalid and is marked. */
  ghost predicate InvalidOn(m: Tree, best: Option<Hash>, h: Hash, w: World, failed: set<Hash>)
    requires KnownTip(m, best) && h in m
  {
    exists i :: 0 <= i < |PathTo(m, h)| && PathTo(m, h)[i] !in Elements(PathToTip(m, best)) &&
                PathTo(m, h)[i] in failed && w.connect(PathTo(m, h)[i]) == Invalid
  }

  /**
   The heaviest clean candidate becomes the tip exactly when no heavier ancestor of it is lower
   than the tip and all its blocks connect; otherwise an invalid block on the way is marked.
   */
  ghost predicate HeaviestJudged(m: Tree, failed: set<Hash>, cands: set<Hash>, best: Option<Hash>, w: World,
                                 ok: bool, failed': set<Hash>, best': Option<Hash>)
    requires KnownTip(m, best) && cands <= m.Keys
  {
    forall top :: IsHeaviest(m, failed, cands, best, top) ==> Judged(m, best, w, top, ok, failed', best')
  }

  ghost predicate Judged(m: Tree, best: Option<Hash>, w: World, top: Hash, ok: bool, failed': set<Hash>, best': Option<Hash>)
    requires KnownTip(m, best) && top in m
  {
    && (ok <==> NoHeavierBelow(m, best, top) && Connects(m, best, top, w))
    && (ok ==> best' == Some(top))
    && (!NoHeavierBelow(m, best, top) ==> best' == best)
    && (!ok && NoHeavierBelow(m, best, top) ==> InvalidOn(m, best, top, w, failed'))
  }

  /** The walk down from a candidate without meeting a failed block shows its whole path clean. */
  lemma {:induction false} WalkedClean(m: Tree, failed: set<Hash>, best: Option<Hash>, h: Hash, stop: nat, first: nat,
                                       vAttach: seq<Hash>)
    requires Walked(m, h, failed, best, stop, first, vAttach) && Joined(m, best, h, stop)
    requires Elements(PathToTip(m, best)) !! failed
    ensures Clean(m, failed, h)
    ensures NoHeavierBelow(m, best, h) <==> vAttach == [] || |PathToTip(m, best)| <= first + 1
  {
    var path := PathTo(m, h);
    forall i | 0 <= i < stop
      ensures path[i] !in failed && !MoreWork(m, best, path[i])
    {
      MeetBelow(m, best.value, h, stop, i);
      assert PathToTip(m, best)[i] in Elements(PathToTip(m, best));
      WorkGrows(m, best.value, i, m[best.value].nHeight);
    }
    if vAttach != [] {
      assert MoreWork(m, best, path[first]);
    }
  }

  lemma {:induction false} HeaviestIs(m: Tree, failed0: set<Hash>, failed: set<Hash>, cands0: set<Hash>, cands: set<Hash>,
                                      best: Option<Hash>, g: Hash, stop: nat, first: nat, vAttach: seq<Hash>)
    requires CleanKept(m, failed0, failed, cands0, cands) && IsGreatest(m, cands, g)
    requires Walked(m, g, failed, best, stop, first, vAttach) && Joined(m, best, g, stop)
    requires Elements(PathToTip(m, best)) !! failed
    ensures NoHeavierBelow(m, best, g) <==> vAttach == [] || |PathToTip(m, best)| <= first + 1
    ensures forall top :: IsHeaviest(m, failed0, cands0, best, top) ==> top == g && vAttach != []
  {
    WalkedClean(m, failed, best, g, stop, first, vAttach);
    forall top: Hash | IsHeaviest(m, failed0, cands0, best, top)
      ensures top == g && vAttach != []
    {
      assert Clean(m, failed0, top);
      assert Clean(m, failed0, g);
    }
  }

  lemma {:induction false} JudgedIs(m: Tree, failed: set<Hash>, cands: set<Hash>, best: Option<Hash>, w: World,
                                    g: Hash, stop: nat, first: nat, vAttach: seq<Hash>,
                                    ok: bool, failed': set<Hash>, best': Option<Hash>)
    requires cands <= m.Keys && IsGreatest(m, cands, g)
    requires Walked(m, g, failed, best, stop, first, vAttach) && Joined(m, best, g, stop)
    requires Elements(PathToTip(m, best)) !! failed
    requires AttachJudged(m, best, w, g, first, vAttach, ok, failed', best')
    ensures HeaviestJudged(m, failed, cands, best, w, ok, failed', best')
  {
    CleanSame(m, failed, cands);
    HeaviestIs(m, failed, failed, cands, cands, best, g, stop, first, vAttach);
  }

  /** What trying the listed blocks in turn comes to. */
  ghost predicate AttachJudged(m: Tree, best: Option<Hash>, w: World, g: Hash, first: nat, vAttach: seq<Hash>,
                               ok: bool, failed': set<Hash>, best': Option<Hash>)
    requires KnownTip(m, best) && g in m
  {
    if vAttach == [] then ok && best' == best
    else if |PathToTip(m, best)| > first + 1 then !ok && best' == best
    else
      && (ok <==> Connects(m, best, g, w)) && (ok ==> best' == Some(g))
      && (!ok ==> InvalidOn(m, best, g, w, failed'))
  }

  /** What making one of the listed blocks the tip depends on and what it keeps. */
  lemma {:induction false} AttachedStep(m: Tree, failed: set<Hash>, best: Option<Hash>, best0: Option<Hash>, h: Hash,
                                        stop: nat, first: nat, vAttach: seq<Hash>, j: nat, keep: nat, w: World)
    requires Joined(m, best, h, stop) && Walked(m, h, failed, best0, stop, first, vAttach) && j < |vAttach|
    requires vAttach[j] in m && CommonLength(PathToTip(m, best), PathTo(m, vAttach[j]), keep)
    requires Advances(m, best0, best)
    ensures NoneFailed(m, vAttach[j], failed, keep) && Joined(m, Some(vAttach[j]), h, stop)
    ensures var q := FirstFailed(PathTo(m, vAttach[j]), failed, keep);
            var goes := Goes(w, PathToTip(m, best), PathTo(m, vAttach[j]), keep, q, vAttach[j]);
            && (goes ==> |PathToTip(m, best)| <= first + j + 1 && Advances(m, best0, Some(vAttach[j])))
            && (Sound(w) ==> (goes <==> |PathToTip(m, best)| <= first + j + 1 && Connects(m, best, vAttach[j], w)))
  {
    AttachedPath(m, h, first, vAttach, j);
    NothingFailed(m, failed, best, best0, h, stop, first, vAttach, j, keep);
    GoesConnects(m, best, vAttach[j], keep, w);
    if |PathToTip(m, best)| <= first + j + 1 {
      StaysAhead(m, best0, best, vAttach[j]);
    }
  }

  lemma {:induction false} AboveForkOff(m: Tree, best: Option<Hash>, h: Hash, keep: nat)
    requires KnownTip(m, best) && h in m && CommonLength(PathToTip(m, best), PathTo(m, h), keep)
    ensures forall i :: 0 <= i < |PathTo(m, h)| ==> (PathTo(m, h)[i] !in Elements(PathToTip(m, best)) <==> i >= keep)
  {
    var tip, path := PathToTip(m, best), PathTo(m, h);
    forall i | 0 <= i < |path|
      ensures path[i] !in Elements(tip) <==> i >= keep
    {
      if i >= keep {
        OffTip(m, tip, best, h, keep, i);
      } else {
        assert tip[..keep][i] == path[..keep][i];
        assert tip[i] in Elements(tip);
      }
    }
  }

  /** In a sound world a switch over unmarked blocks goes through if it is not shorter and its blocks connect. */
  lemma {:induction false} GoesConnects(m: Tree, best: Option<Hash>, h: Hash, keep: nat, w: World)
    requires KnownTip(m, best) && h in m && CommonLength(PathToTip(m, best), PathTo(m, h), keep)
    ensures var tip, path := PathToTip(m, best), PathTo(m, h);
            && (Goes(w, tip, path, keep, |path|, h) ==> |tip| <= |path|)
            && (Sound(w) ==> (Goes(w, tip, path, keep, |path|, h) <==> |tip| <= |path| && Connects(m, best, h, w)))
  {
    AboveForkOff(m, best, h, keep);
  }

  /** Blocks that connect step by step connect altogether. */
  lemma {:induction false} ConnectsThrough(m: Tree, b0: Option<Hash>, b1: Hash, h: Hash, w: World)
    requires KnownTip(m, b0) && b1 in m && h in m && Connects(m, b0, b1, w) && Connects(m, Some(b1), h, w)
    ensures Connects(m, b0, h, w)
  {
    var path, mid := PathTo(m, h), PathTo(m, b1);
    forall i | 0 <= i < |path| && path[i] !in Elements(PathToTip(m, b0))
      ensures w.connect(path[i]) == Connected
    {
      if path[i] in Elements(mid) {
        var j :| 0 <= j < |mid| && mid[j] == path[i];
      }
    }
  }

  /** What does not connect on the way to a listed block does not connect on the way to the candidate. */
  lemma {:induction false} NotConnected(m: Tree, best0: Option<Hash>, best: Option<Hash>, failed: set<Hash>, h: Hash,
                                        stop: nat, first: nat, vAttach: seq<Hash>, j: nat, w: World)
    requires KnownTip(m, best) && Walked(m, h, failed, best0, stop, first, vAttach) && j < |vAttach|
    requires best == if j == 0 then best0 else Some(vAttach[j - 1])
    requires vAttach[j] in m && !Connects(m, best, vAttach[j], w)
    ensures !Connects(m, best0, h, w)
  {
    var path := PathTo(m, h);
    AttachedPath(m, h, first, vAttach, j);
    PathPrefix(m, h, first + j);
    var p := PathTo(m, vAttach[j]);
    var i :| 0 <= i < |p| && p[i] !in Elements(PathToTip(m, best)) && w.connect(p[i]) != Connected;
    assert p[i] == path[i];
    if j > 0 {
      OnListed(m, h, first, vAttach, j, i);
      HeavierOff(m, best0, h, first + j);
    }
  }

  /** The blocks below a listed one are on the way to the listed one before it. */
  lemma {:induction false} OnListed(m: Tree, h: Hash, first: nat, vAttach: seq<Hash>, j: nat, i: nat)
    requires TreeOk(m) && h in m && first <= |PathTo(m, h)| && vAttach == PathTo(m, h)[first..] && 0 < j < |vAttach|
    requires i <= first + j
    ensures vAttach[j - 1] in m && (i < first + j ==> PathTo(m, h)[i] in Elements(PathTo(m, vAttach[j - 1])))
  {
    AttachedPath(m, h, first, vAttach, j - 1);
    PathPrefix(m, h, first + j - 1);
    if i < first + j {
      assert PathTo(m, vAttach[j - 1])[i] == PathTo(m, h)[i];
    }
  }

  /** A block that outweighs the tip is off the main chain. */
  lemma {:induction false} HeavierOff(m: Tree, best: Option<Hash>, h: Hash, i: nat)
    requires KnownTip(m, best) && h in m && i < |PathTo(m, h)| && MoreWork(m, best, PathTo(m, h)[i])
    ensures PathTo(m, h)[i] !in Elements(PathToTip(m, best))
  {
    if best.Some? {
      forall k | 0 <= k < |PathTo(m, best.value)|
        ensures PathTo(m, best.value)[k] != PathTo(m, h)[i]
      {
        WorkGrows(m, best.value, k, m[best.value].nHeight);
      }
    }
  }

  /** An invalid block on the way to a listed block is on the way to the candidate, and off the chain it started from. */
  lemma {:induction false} InvalidBelow(m: Tree, best0: Option<Hash>, best: Option<Hash>, failed: set<Hash>, h: Hash, stop: nat,
                                        first: nat, vAttach: seq<Hash>, j: nat, w: World, failed': set<Hash>)
    requires KnownTip(m, best) && Walked(m, h, failed, best0, stop, first, vAttach) && j < |vAttach|
    requires best == if j == 0 then best0 else Some(vAttach[j - 1])
    requires vAttach[j] in m && InvalidOn(m, best, vAttach[j], w, failed')
    ensures InvalidOn(m, best0, h, w, failed')
  {
    AttachedPath(m, h, first, vAttach, j);
    PathPrefix(m, h, first + j);
    var p := PathTo(m, vAttach[j]);
    var i :| 0 <= i < |p| && p[i] !in Elements(PathToTip(m, best)) && p[i] in failed' && w.connect(p[i]) == Invalid;
    assert p[i] == PathTo(m, h)[i];
    if j > 0 {
      OnListed(m, h, first, vAttach, j, i);
      HeavierOff(m, best0, h, first + j);
    }
  }

  /** The first j of the listed blocks have become the tip in turn. */
  ghost predicate AttachedTo(m: Tree, failed: set<Hash>, best0: Option<Hash>, best: Option<Hash>, h: Hash, stop: nat,
                             first: nat, vAttach: seq<Hash>, j: nat, w: World)
  {
    && Walked(m, h, failed, best0, stop, first, vAttach) && j <= |vAttach|
    && best == (if j == 0 then best0 else Some(vAttach[j - 1]))
    && Joined(m, best, h, stop) && Advances(m, best0, best)
    && (j > 0 ==> |PathToTip(m, best)| == first + j && |PathToTip(m, best0)| <= first + 1)
    && (j > 0 && Sound(w) ==> Connects(m, best0, vAttach[j - 1], w))
  }

  lemma AttachedNone(m: Tree, failed: set<Hash>, best: Option<Hash>, h: Hash, stop: nat, first: nat, vAttach: seq<Hash>, w: World)
    requires Walked(m, h, failed, best, stop, first, vAttach) && Joined(m, best, h, stop)
    ensures AttachedTo(m, failed, best, best, h, stop, first, vAttach, 0, w)
  {
  }

  lemma {:induction false} AttachedAll(m: Tree, failed: set<Hash>, best0: Option<Hash>, best: Option<Hash>, h: Hash, stop: nat,
                                       first: nat, vAttach: seq<Hash>, w: World)
    requires AttachedTo(m, failed, best0, best, h, stop, first, vAttach, |vAttach|, w)
    ensures best == if vAttach == [] then best0 else Some(h)
    ensures Sound(w) ==> AttachJudged(m, best0, w, h, first, vAttach, true, failed, best)
  {
    assert PathTo(m, h)[|PathTo(m, h)| - 1] == h;
  }

  /** The next of the listed blocks becomes the tip if the switch to it goes through. */
  lemma {:induction false} AttachedNext(m: Tree, failed: set<Hash>, best0: Option<Hash>, best: Option<Hash>, h: Hash, stop: nat,
                                        first: nat, vAttach: seq<Hash>, j: nat, keep: nat, q: nat, w: World, failed': set<Hash>)
    requires AttachedTo(m, failed, best0, best, h, stop, first, vAttach, j, w) && j < |vAttach| && vAttach[j] in m
    requires CommonLength(PathToTip(m, best), PathTo(m, vAttach[j]), keep)
    requires q == FirstFailed(PathTo(m, vAttach[j]), failed, keep)
    requires Rejects(w, PathToTip(m, best), PathTo(m, vAttach[j]), keep, q) <= failed'
    ensures NoneFailed(m, vAttach[j], failed, keep)
    ensures if Goes(w, PathToTip(m, best), PathTo(m, vAttach[j]), keep, q, vAttach[j])
            then AttachedTo(m, failed, best0, Some(vAttach[j]), h, stop, first, vAttach, j + 1, w)
            else Sound(w) ==> AttachJudged(m, best0, w, h, first, vAttach, false, failed', best)
  {
    AttachedPath(m, h, first, vAttach, j);
    AttachedStep(m, failed, best, best0, h, stop, first, vAttach, j, keep, w);
    RejectsIff(w, PathToTip(m, best), PathTo(m, vAttach[j]), keep, q, vAttach[j]);
    AboveForkOff(m, best, vAttach[j], keep);
    if Sound(w) {
      if Goes(w, PathToTip(m, best), PathTo(m, vAttach[j]), keep, q, vAttach[j]) {
        if j > 0 {
          ConnectsThrough(m, best0, vAttach[j - 1], vAttach[j], w);
        }
      } else {
        AttachStops(m, best0, best, failed, h, stop, first, vAttach, j, w, failed');
      }
    }
  }

  /** One of the listed blocks does not become the tip. */
  lemma {:induction false} AttachStops(m: Tree, best0: Option<Hash>, best: Option<Hash>, failed: set<Hash>, h: Hash, stop: nat,
                                       first: nat, vAttach: seq<Hash>, j: nat, w: World, failed': set<Hash>)
    requires KnownTip(m, best) && Walked(m, h, failed, best0, stop, first, vAttach) && j < |vAttach| && vAttach[j] in m
    requires best == if j == 0 then best0 else Some(vAttach[j - 1])
    requires j > 0 ==> |PathToTip(m, best)| == first + j && |PathToTip(m, best0)| <= first + 1
    requires !(|PathToTip(m, best)| <= first + j + 1 && Connects(m, best, vAttach[j], w))
    requires |PathToTip(m, best)| <= first + j + 1 ==> InvalidOn(m, best, vAttach[j], w, failed')
    ensures AttachJudged(m, best0, w, h, first, vAttach, false, failed', best)
  {
    if |PathToTip(m, best)| <= first + j + 1 {
      NotConnected(m, best0, best, failed, h, stop, first, vAttach, j, w);
      InvalidBelow(m, best0, best, failed, h, stop, first, vAttach, j, w, failed');
    }
  }

  lemma CleanSame(m: Tree, failed: set<Hash>, cands: set<Hash>)
    requires TreeOk(m) && cands <= m.Keys
    ensures CleanKept(m, failed, failed, cands, cands)
  {
  }

  lemma {:induction false} CleanThrough(m: Tree, f0: set<Hash>, f1: set<Hash>, f2: set<Hash>, c0: set<Hash>, c1: set<Hash>,
                                        c2: set<Hash>)
    requires CleanKept(m, f0, f1, c0, c1) && CleanKept(m, f1, f2, c1, c2)
    ensures CleanKept(m, f0, f2, c0, c2)
  {
    forall x: Hash | x in m && Clean(m, f0, x)
      ensures Clean(m, f2, x) && (x in c0 ==> x in c2)
    {
      assert Clean(m, f1, x);
    }
  }

  lemma {:induction false} JudgedEarlier(m: Tree, f0: set<Hash>, f1: set<Hash>, c0: set<Hash>, c1: set<Hash>,
                                         best: Option<Hash>, w: World, ok: bool, failed': set<Hash>, best': Option<Hash>)
    requires CleanKept(m, f0, f1, c0, c1) && KnownTip(m, best) && HeaviestJudged(m, f1, c1, best, w, ok, failed', best')
    ensures HeaviestJudged(m, f0, c0, best, w, ok, failed', best')
  {
    forall top: Hash | IsHeaviest(m, f0, c0, best, top)
      ensures IsHeaviest(m, f1, c1, best, top)
    {
      assert Clean(m, f0, top);
      assert forall x :: x in c1 && Clean(m, f1, x) ==> Clean(m, f0, x);
    }
  }

  lemma {:induction false} LeadsAfter(m: Tree, cands: set<Hash>, g: Hash, failed: set<Hash>, best: Option<Hash>, stop: nat,
                                      first: nat, vAttach: seq<Hash>)
    requires cands <= m.Keys && IsGreatest(m, cands, g) && Walked(m, g, failed, best, stop, first, vAttach)
    requires stop < |PathTo(m, g)|
    ensures TipLeads(m, cands, if vAttach == [] then best else Some(g))
  {
    assert PathTo(m, g)[|PathTo(m, g)| - 1] == g;
  }
}
