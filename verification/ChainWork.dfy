/**
 The work that decides: over every run from an empty node the work of a chain is the sum of what its
 blocks carried when they arrived, and the tip is chosen by these sums.
 */
module ChainWork {
  import opened Wrappers
  import opened BlockTree
  import opened ChainRules
  import opened ChainChoice
  import opened ChainRuns
  import opened BestChain

  /** What the arrival of a block said of it; the first block of all has no parent. */
  datatype Told = Told(prev: Option<Hash>, work: nat)

  /** The blocks that the first n events made known: a block counts when it arrives first after its parent. */
  function Heard(events: seq<Event>, n: nat): (k: map<Hash, Told>)
    requires n <= |events|
  {
    if n == 0 then map[]
    else
      var k := Heard(events, n - 1);
      match events[n - 1]
      case Votes(_, _) => k
      case Arrival(hash, prev, work, _, _) =>
        if hash in k then k
        else if k == map[] then k[hash := Told(None, work)]
        else if prev in k then k[hash := Told(Some(prev), work)]
        else k
  }

  /** The sum of the work of some blocks. */
  ghost function TotalWork(k: map<Hash, Told>, path: seq<Hash>): (sum: nat)
  {
    if path == [] then 0
    else TotalWork(k, path[..|path| - 1]) + if path[|path| - 1] in k then k[path[|path| - 1]].work else 0
  }

  const NOTHING := Snap(map[], {}, {}, None)

  /** The tree holds what was heard, with links to parents, and work accumulates along them. */
  ghost predicate Agrees(m: Tree, k: map<Hash, Told>)
  {
    && m.Keys == k.Keys
    && forall h :: h in m ==>
         && m[h].pprev == k[h].prev && (m[h].pprev.Some? ==> m[h].pprev.value in m)
         && m[h].nChainWork == k[h].work + if m[h].pprev.Some? then m[m[h].pprev.value].nChainWork else 0
  }

  lemma {:induction false} AgreesOn(events: seq<Event>, n: nat, t: Turn, cp: Option<Hash>)
    requires n < |events| && Agrees(t.before.m, Heard(events, n)) && TurnOk(events[n], cp, t)
    ensures Agrees(t.after.m, Heard(events, n + 1))
  {
    var k := Heard(events, n);
    assert t.after.m == t.handled.m;
    if events[n].Arrival? && Enters(t.before.m, events[n].hash, events[n].hashPrevBlock) {
      assert t.before.m == map[] <==> k == map[] by {
        assert t.before.m == map[] <==> t.before.m.Keys == {};
        assert k == map[] <==> k.Keys == {};
      }
      AgreesMore(t.before.m, k, events[n].hash, events[n].hashPrevBlock, events[n].work);
    }
  }

  lemma {:induction false} AgreesMore(m: Tree, k: map<Hash, Told>, hash: Hash, prev: Hash, work: nat)
    requires Agrees(m, k) && Enters(m, hash, prev)
    ensures Agrees(Extended(m, hash, prev, work), k[hash := Told(if m == map[] then None else Some(prev), work)])
  {
  }

  lemma {:induction false} RunAgrees(events: seq<Event>, trace: seq<Turn>, last: Snap)
    requires Ran(events, trace, NOTHING, last)
    ensures |trace| <= |events| && Agrees(last.m, Heard(events, |trace|))
    decreases |trace|
  {
    if trace != [] {
      var n := |trace| - 1;
      RunAgrees(events, trace[..n], trace[n].before);
      AgreesOn(events, n, trace[n], LastVote(events, n + 1));
    }
  }

  lemma {:induction false} SumAlong(m: Tree, k: map<Hash, Told>, h: Hash)
    requires TreeOk(m) && Agrees(m, k) && h in m
    ensures m[h].nChainWork == TotalWork(k, PathTo(m, h))
    decreases m[h].nHeight
  {
    assert LinkOk(m, h);
    if m[h].pprev.Some? {
      SumAlong(m, k, m[h].pprev.value);
      assert PathTo(m, h)[..m[h].nHeight] == PathTo(m, m[h].pprev.value);
    } else {
      assert PathTo(m, h)[..0] == [];
    }
  }

  /** Over every run from an empty node: known blocks are those heard of, below the parents they named, and work adds up. */
  lemma {:induction false} WorkIsSum(events: seq<Event>, trace: seq<Turn>, last: Snap)
    requires Ran(events, trace, NOTHING, last)
    ensures |trace| <= |events| && TreeOk(last.m) && last.m.Keys == Heard(events, |trace|).Keys
    ensures forall h :: h in last.m ==>
              && last.m[h].pprev == Heard(events, |trace|)[h].prev
              && last.m[h].nChainWork == TotalWork(Heard(events, |trace|), PathTo(last.m, h))
  {
    RunAgrees(events, trace, last);
    RunTree(events, trace, last);
    forall h | h in last.m
      ensures last.m[h].nChainWork == TotalWork(Heard(events, |trace|), PathTo(last.m, h))
    {
      SumAlong(last.m, Heard(events, |trace|), h);
    }
  }

  lemma {:induction false} RunTree(events: seq<Event>, trace: seq<Turn>, last: Snap)
    requires Ran(events, trace, NOTHING, last)
    ensures TreeOk(last.m)
  {
    if trace != [] {
      var t := trace[|trace| - 1];
      if t.accepted {
        assert SnapOk(t.handled);
      } else {
        assert SnapOk(t.before);
        var e := events[|trace| - 1];
        if e.Arrival? && Enters(t.before.m, e.hash, e.hashPrevBlock) {
          TreeGrows(t.before.m, e.hash, e.hashPrevBlock, e.work);
        }
      }
    }
  }

  // ----- the choice by these sums -----

  /** The work of the chain that ends at h, from what was heard. */
  ghost function Weight(k: map<Hash, Told>, m: Tree, h: Hash): (sum: nat)
    requires TreeOk(m) && h in m
  {
    TotalWork(k, PathTo(m, h))
  }

  /** There is no tip yet, or h outweighs it. */
  ghost predicate Outweighs(k: map<Hash, Told>, m: Tree, best: Option<Hash>, h: Hash)
    requires TreeOk(m) && h in m && (best.Some? ==> best.value in m)
  {
    best.Some? ==> Weight(k, m, h) > Weight(k, m, best.value)
  }

  /** Of the candidates without a failed ancestor top weighs most and more than the tip; of equals the smaller hash counts. */
  ghost predicate TopByWork(k: map<Hash, Told>, m: Tree, failed: set<Hash>, cands: set<Hash>, best: Option<Hash>, top: Hash)
  {
    && TreeOk(m) && cands <= m.Keys && (best.Some? ==> best.value in m)
    && top in cands && Elements(PathTo(m, top)) !! failed && Outweighs(k, m, best, top)
    && forall x :: x in cands && x != top && Elements(PathTo(m, x)) !! failed ==>
         Weight(k, m, x) < Weight(k, m, top) || (Weight(k, m, x) == Weight(k, m, top) && top < x)
  }

  /** No block on the way to h that outweighs the tip is lower than the tip. */
  ghost predicate Unobstructed(k: map<Hash, Told>, m: Tree, best: Option<Hash>, h: Hash)
    requires TreeOk(m) && h in m && (best.Some? ==> best.value in m)
  {
    forall i :: 0 <= i < |PathTo(m, h)| && Outweighs(k, m, best, PathTo(m, h)[i]) ==>
      best.Some? ==> m[best.value].nHeight <= i
  }

  lemma {:induction false} RanFront(events: seq<Event>, trace: seq<Turn>, first: Snap, last: Snap, i: nat)
    requires Ran(events, trace, first, last) && i < |trace|
    ensures Ran(events, trace[..i + 1], first, trace[i].after)
    decreases |trace|
  {
    var front := trace[..|trace| - 1];
    if i < |front| {
      RanFront(events, front, first, trace[|front|].before, i);
      assert front[..i + 1] == trace[..i + 1] && front[i] == trace[i];
    } else {
      assert trace[..i + 1] == trace;
    }
  }

  /** In every turn of a run the recorded work is the weight. */
  lemma {:induction false} TurnWeights(events: seq<Event>, trace: seq<Turn>, last: Snap, i: nat)
    requires Ran(events, trace, NOTHING, last) && i < |trace|
    ensures i < |events| && TurnOk(events[i], LastVote(events, i + 1), trace[i])
    ensures TreeOk(trace[i].after.m) && trace[i].after.m == trace[i].handled.m
    ensures forall h :: h in trace[i].after.m ==>
              trace[i].after.m[h].nChainWork == Weight(Heard(events, i + 1), trace[i].after.m, h)
  {
    RanFront(events, trace, NOTHING, last, i);
    WorkIsSum(events, trace[..i + 1], trace[i].after);
    RanAt(events, trace, NOTHING, last, i);
  }

  /**
   The heaviest chain wins: where nothing but blocks can be bad, an arriving block makes the top
   candidate the tip exactly if its blocks connect and the way there is unobstructed.
   */
  lemma {:induction false} HeaviestWins(events: seq<Event>, trace: seq<Turn>, last: Snap, i: nat, top: Hash)
    requires Ran(events, trace, NOTHING, last) && i < |trace| && i < |events| && events[i].Arrival? && Sound(events[i].w)
    requires Enters(trace[i].before.m, events[i].hash, events[i].hashPrevBlock)
    requires TopByWork(Heard(events, i + 1), trace[i].after.m, trace[i].before.failed, trace[i].before.cands + {events[i].hash},
                       trace[i].before.best, top)
    ensures trace[i].accepted <==> Unobstructed(Heard(events, i + 1), trace[i].after.m, trace[i].before.best, top) &&
                                   Connects(trace[i].after.m, trace[i].before.best, top, events[i].w)
    ensures trace[i].accepted ==> trace[i].handled.best == Some(top)
  {
    TurnWeights(events, trace, last, i);
    var t, k := trace[i], Heard(events, i + 1);
    TopIsHeaviest(k, t.after.m, t.before.failed, t.before.cands + {events[i].hash}, t.before.best, top);
    assert Judged(t.after.m, t.before.best, events[i].w, top, t.accepted, t.handled.failed, t.handled.best);
    UnobstructedIff(k, t.after.m, t.before.best, top);
  }

  lemma {:induction false} TopIsHeaviest(k: map<Hash, Told>, m: Tree, failed: set<Hash>, cands: set<Hash>, best: Option<Hash>,
                                         top: Hash)
    requires TopByWork(k, m, failed, cands, best, top) && forall h :: h in m ==> m[h].nChainWork == Weight(k, m, h)
    ensures IsHeaviest(m, failed, cands, best, top)
  {
    forall x | x in cands && x != top && Clean(m, failed, x)
      ensures Less(m, x, top)
    {
      assert m[x].nChainWork == Weight(k, m, x) && m[top].nChainWork == Weight(k, m, top);
    }
  }

  lemma {:induction false} UnobstructedIff(k: map<Hash, Told>, m: Tree, best: Option<Hash>, top: Hash)
    requires TreeOk(m) && top in m && (best.Some? ==> best.value in m)
    requires forall h :: h in m ==> m[h].nChainWork == Weight(k, m, h)
    ensures Unobstructed(k, m, best, top) <==> NoHeavierBelow(m, best, top)
  {
    forall i | 0 <= i < |PathTo(m, top)|
      ensures Outweighs(k, m, best, PathTo(m, top)[i]) <==> MoreWork(m, best, PathTo(m, top)[i])
    {
      assert PathTo(m, top)[i] in m;
    }
  }

  /** An arriving block leaves the tip or moves it to one that weighs more; if it is accepted no candidate outweighs the tip. */
  lemma {:induction false} TipByWork(events: seq<Event>, trace: seq<Turn>, last: Snap, i: nat)
    requires Ran(events, trace, NOTHING, last) && i < |trace| && i < |events| && events[i].Arrival?
    ensures var t, k := trace[i], Heard(events, i + 1);
            && TreeOk(t.after.m) && (t.before.best.Some? ==> t.before.best.value in t.after.m)
            && (t.handled.best == t.before.best ||
                (&& t.handled.best.Some? && t.handled.best.value in t.after.m
                 && Outweighs(k, t.after.m, t.before.best, t.handled.best.value)))
            && (t.accepted ==> forall x :: x in t.handled.cands ==> x in t.after.m && !Outweighs(k, t.after.m, t.handled.best, x))
  {
    TurnWeights(events, trace, last, i);
  }

  /** A node that starts empty: its index of blocks is what the events said, as far as it took them. */
  method ReceiveAll(events: seq<Event>) returns (node: ChainState, status: Status, ghost n: nat)
    ensures fresh(node) && n <= |events| && (status == Running ==> n == |events| && node.Valid())
    ensures TreeOk(node.mapBlockIndex) && node.mapBlockIndex.Keys == Heard(events, n).Keys
    ensures forall h :: h in node.mapBlockIndex ==>
              && node.mapBlockIndex[h].pprev == Heard(events, n)[h].prev
              && node.mapBlockIndex[h].nChainWork == Weight(Heard(events, n), node.mapBlockIndex, h)
  {
    node := new ChainState();
    ghost var trace;
    status, trace := Receive(node, events);
    n := |trace|;
    WorkIsSum(events, trace, node.Snapshot());
  }
}
