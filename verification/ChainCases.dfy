/**
 Trees on which the choice of the best chain does not do what its documentation promises. They
 grow on a trunk of any length, so the branches may part below a change of difficulty: up to there
 blocks of one height have the same work, and from there on each branch has its own.
 */
module ChainCases {
  import opened Wrappers
  import opened BlockTree
  import opened ChainRules
  import opened ChainChoice
  import opened ChainRuns
  import opened BestChain

  function GoodWorld(): (w: World)
    ensures AllGood(w)
  {
    World(_ => true, _ => Connected, _ => true, _ => true)
  }

  /** h is a child of p with the given work of its own. */
  predicate Child(m: Tree, p: Hash, h: Hash, work: nat)
  {
    p in m && h in m && m[h] == BlockIndex(Some(p), m[p].nHeight + 1, m[p].nChainWork + work)
  }

  lemma PathToChild(m: Tree, p: Hash, h: Hash, work: nat)
    requires TreeOk(m) && Child(m, p, h, work)
    ensures PathTo(m, h) == PathTo(m, p) + [h]
  {
    assert LinkOk(m, h);
  }

  /** Two branches above the trunk t: siblings a1 and b1 of equal work, then blocks of their own difficulty. */
  ghost predicate Parts(m: Tree, t: Hash, a1: Hash, a2: Hash, b1: Hash, b2: Hash, d: nat, e: nat)
  {
    TreeOk(m) && a1 != b1 && Child(m, t, a1, d) && Child(m, a1, a2, d) && Child(m, t, b1, d) && Child(m, b1, b2, e)
  }

  lemma {:induction false} PartPaths(m: Tree, t: Hash, a1: Hash, a2: Hash, b1: Hash, b2: Hash, d: nat, e: nat)
    requires Parts(m, t, a1, a2, b1, b2, d, e)
    ensures PathTo(m, a2) == PathTo(m, t) + [a1, a2] && PathTo(m, b2) == PathTo(m, t) + [b1, b2]
  {
    PathToChild(m, t, a1, d);
    PathToChild(m, a1, a2, d);
    PathToChild(m, t, b1, d);
    PathToChild(m, b1, b2, e);
  }

  lemma CommonTrunk(trunk: seq<Hash>, a: seq<Hash>, b: seq<Hash>)
    requires a != [] && b != [] && a[0] != b[0]
    ensures CommonLength(trunk + a, trunk + b, |trunk|)
  {
    assert (trunk + a)[..|trunk|] == trunk == (trunk + b)[..|trunk|];
  }

  /** Three blocks against two with more work: the heaviest candidate, without a failed ancestor, is refused in the best of worlds. */
  lemma {:induction false} HeavierRefused(m: Tree, t: Hash, a1: Hash, a2: Hash, a3: Hash, b1: Hash, b2: Hash, d: nat, e: nat)
    requires Parts(m, t, a1, a2, b1, b2, d, e) && Child(m, a2, a3, d) && 0 < d && 2 * d < e
    ensures IsHeaviest(m, {}, {a1, a2, a3, b1, b2}, Some(a3), b2) && !NoHeavierBelow(m, Some(a3), b2)
    ensures var keep := m[t].nHeight + 1;
            CommonLength(PathTo(m, a3), PathTo(m, b2), keep) &&
            !Goes(GoodWorld(), PathTo(m, a3), PathTo(m, b2), keep, |PathTo(m, b2)|, b2)
  {
    PartPaths(m, t, a1, a2, b1, b2, d, e);
    PathToChild(m, a2, a3, d);
    var trunk := PathTo(m, t);
    assert PathTo(m, a3) == trunk + [a1, a2, a3];
    CommonTrunk(trunk, [a1, a2, a3], [b1, b2]);
    assert PathTo(m, b2)[|trunk| + 1] == b2 && MoreWork(m, Some(a3), b2);
  }

  /** A checkpoint of the tip's height with less work becomes the tip. */
  lemma {:induction false} LighterCheckpoint(m: Tree, t: Hash, a1: Hash, a2: Hash, b1: Hash, b2: Hash, d: nat, e: nat)
    requires Parts(m, t, a1, a2, b1, b2, d, e) && d < e
    ensures m[a2].nChainWork < m[b2].nChainWork
    ensures var keep := m[t].nHeight + 1;
            CommonLength(PathTo(m, b2), PathTo(m, a2), keep) &&
            Goes(GoodWorld(), PathTo(m, b2), PathTo(m, a2), keep, FirstFailed(PathTo(m, a2), {}, keep), a2)
  {
    PartPaths(m, t, a1, a2, b1, b2, d, e);
    CommonTrunk(PathTo(m, t), [b1, b2], [a1, a2]);
  }

  /** A checkpoint above a block that failed on top of the tip becomes the tip, but its path is not recorded. */
  lemma {:induction false} CheckpointAboveFailed(m: Tree, tip: Hash, bad: Hash, cp: Hash, d: nat, failed: set<Hash>)
    requires TreeOk(m) && Child(m, tip, bad, d) && Child(m, bad, cp, d)
    requires Clean(m, failed, tip) && bad in failed
    ensures var keep := m[tip].nHeight + 1;
            && CommonLength(PathTo(m, tip), PathTo(m, cp), keep) && !NoneFailed(m, cp, failed, keep)
            && Goes(GoodWorld(), PathTo(m, tip), PathTo(m, cp), keep, FirstFailed(PathTo(m, cp), failed, keep), cp)
  {
    PathToChild(m, tip, bad, d);
    PathToChild(m, bad, cp, d);
    var keep := m[tip].nHeight + 1;
    assert PathTo(m, cp) == PathTo(m, tip) + [bad, cp];
    assert PathTo(m, cp)[..keep] == PathTo(m, tip) == PathTo(m, tip)[..keep];
    assert PathTo(m, cp)[keep] == bad;
  }

  // ----- a run that ends on such a checkpoint -----

  /** In a sound world a block on top of a leading tip becomes the tip if it connects, and is marked if it does not. */
  lemma {:induction false} OnTopOfTip(s: Snap, hash: Hash, work: nat, w: World, ok: bool, s': Snap)
    requires SnapOk(s) && s.best.Some? && hash !in s.m && work > 0 && TipLeads(s.m, s.cands, s.best)
    requires Sound(w) && Arrived(s, hash, s.best.value, work, w, ok, s')
    ensures if w.connect(hash) == Connected then ok && s'.best == Some(hash) else !ok && hash in s'.failed
  {
    var m, tip := s'.m, s.best.value;
    TreeGrows(s.m, hash, tip, work);
    PathToChild(m, tip, hash, work);
    var path := PathTo(m, hash);
    assert path == PathTo(s.m, tip) + [hash] && PathToTip(m, s.best) == PathTo(s.m, tip);
    OnTopIsHeaviest(s, hash, work);
    assert Judged(m, s.best, w, hash, ok, s'.failed, s'.best);
    OnTopPath(m, s.best, hash, path, w, s'.failed);
  }

  lemma {:induction false} OnTopIsHeaviest(s: Snap, hash: Hash, work: nat)
    requires SnapOk(s) && s.best.Some? && hash !in s.m && work > 0 && TipLeads(s.m, s.cands, s.best)
    ensures var m := Extended(s.m, hash, s.best.value, work);
            KnownTip(m, s.best) && s.cands + {hash} <= m.Keys && IsHeaviest(m, s.failed, s.cands + {hash}, s.best, hash)
  {
    var m, tip := Extended(s.m, hash, s.best.value, work), s.best.value;
    TreeGrows(s.m, hash, tip, work);
    PathToChild(m, tip, hash, work);
    assert PathTo(m, hash) == PathTo(s.m, tip) + [hash];
    forall x | x in s.cands
      ensures Less(m, x, hash)
    {
      assert !MoreWork(s.m, s.best, x);
    }
  }

  lemma {:induction false} OnTopPath(m: Tree, best: Option<Hash>, hash: Hash, path: seq<Hash>, w: World, failed': set<Hash>)
    requires KnownTip(m, best) && best.Some? && hash in m && path == PathTo(m, hash) == PathTo(m, best.value) + [hash]
    requires MoreWork(m, best, hash) && Sound(w)
    ensures NoHeavierBelow(m, best, hash)
    ensures Connects(m, best, hash, w) <==> w.connect(hash) == Connected
    ensures InvalidOn(m, best, hash, w, failed') ==> hash in failed'
  {
    var n := |path| - 1;
    forall i | 0 <= i < n
      ensures path[i] in Elements(PathToTip(m, best)) && !MoreWork(m, best, path[i])
    {
      assert path[i] == PathTo(m, best.value)[i];
      WorkGrows(m, best.value, i, m[best.value].nHeight);
    }
    HeavierOff(m, best, hash, n);
  }

  /** The line of blocks 0, 1, 2, ..., each with a work of one. */
  function Line(n: nat): Tree
  {
    if n == 0 then map[] else Extended(Line(n - 1), n - 1, if n == 1 then 0 else n - 2, 1)
  }

  lemma {:induction false} LineAt(n: nat, h: Hash)
    ensures h in Line(n) <==> h < n
    ensures h < n ==> Line(n)[h] == BlockIndex(if h == 0 then None else Some(h - 1), h, h + 1)
  {
    if n > 0 {
      LineAt(n - 1, h);
      if n > 1 {
        LineAt(n - 1, n - 2);
      } else {
        assert Line(0) == map[];
      }
    }
  }

  lemma {:induction false} LineEnd(n: nat)
    ensures n !in Line(n) && (n > 0 ==> n - 1 in Line(n)) && (n == 0 ==> Line(n) == map[])
  {
    LineAt(n, n);
    if n > 0 {
      LineAt(n, n - 1);
    }
  }

  lemma {:induction false} LineOk(n: nat)
    ensures TreeOk(Line(n))
  {
    if n > 0 {
      var m := Line(n - 1);
      LineOk(n - 1);
      LineEnd(n - 1);
      TreeGrows(m, n - 1, if n == 1 then 0 else n - 2, 1);
    }
  }

  lemma {:induction false} LinePath(n: nat, h: nat, i: nat)
    requires i <= h < n
    ensures TreeOk(Line(n)) && h in Line(n) && |PathTo(Line(n), h)| == h + 1 && PathTo(Line(n), h)[i] == i
    decreases h
  {
    LineOk(n);
    LineAt(n, h);
    if i < h {
      LineAt(n, h - 1);
      LinePath(n, h - 1, i);
      PathToChild(Line(n), h - 1, h, 1);
    }
  }

  /** The end of a line leads. */
  lemma {:induction false} LineLeads(n: nat, cands: set<Hash>)
    requires n > 0 && cands <= Line(n).Keys
    ensures n - 1 in Line(n) && TipLeads(Line(n), cands, Some(n - 1))
  {
    LineAt(n, n - 1);
    forall x: Hash | x in cands
      ensures !MoreWork(Line(n), Some(n - 1), x)
    {
      LineAt(n, x);
    }
  }

  /** The first block becomes the tip. */
  lemma {:induction false} FirstBlock(w: World, ok: bool, s': Snap)
    requires AllGood(w) && Arrived(Snap(map[], {}, {}, None), 0, 0, 1, w, ok, s')
    ensures ok && s'.m == Line(1) && s'.best == Some(0)
  {
    assert Line(0) == map[] && s'.m == Line(1);
    LinePath(1, 0, 0);
    assert {} + {0} == {0} && IsHeaviest(s'.m, {}, {0}, None, 0);
    assert Judged(s'.m, None, w, 0, ok, s'.failed, s'.best);
  }

  /** On a line only block 1 is left as the tip once block 2 has failed, and the tip does not fall below it. */
  lemma {:induction false} OnlyOneLeft(s: Snap, n: nat)
    requires SnapOk(s) && s.m == Line(n) && n >= 3 && 2 in s.failed && NotBehind(s.m, Some(1), s.best)
    ensures s.best == Some(1)
  {
    var tip := s.best.value;
    LineAt(n, 1);
    LineAt(n, tip);
    if tip >= 2 {
      TwoOnPath(n, tip);
    }
  }

  lemma {:induction false} TwoOnPath(n: nat, h: nat)
    requires 2 <= h < n
    ensures TreeOk(Line(n)) && h in Line(n) && 2 in Elements(PathTo(Line(n), h))
  {
    LinePath(n, h, 2);
  }

  /** A world in which only block 2 turns out invalid. */
  function TwoInvalid(): (w: World)
    ensures Sound(w)
  {
    World(_ => true, h => if h == 2 then Invalid else Connected, _ => true, _ => true)
  }

  /** Blocks 0 and 1 become the tip in turn, 2 is invalid, 3 is built on 2, and votes name 3. */
  function Derailing(): seq<Event>
  {
    var good := GoodWorld();
    [Arrival(0, 0, 1, good, good), Arrival(1, 0, 1, good, good), Arrival(2, 1, 1, TwoInvalid(), good),
     Arrival(3, 2, 1, good, good), Votes(3, good)]
  }

  lemma {:induction false} TwoTurns(t0: Turn, t1: Turn)
    requires t0.before == Snap(map[], {}, {}, None) && t1.before == t0.after
    requires TurnOk(Derailing()[0], None, t0) && TurnOk(Derailing()[1], None, t1)
    ensures t1.after.m == Line(2) && t1.after.best == Some(1)
  {
    FirstBlock(GoodWorld(), t0.accepted, t0.handled);
    NoVotes(Derailing()[0], t0);
    LineAt(1, 0);
    LineAt(1, 1);
    LineLeads(1, t1.before.cands);
    OnTopOfTip(t1.before, 1, 1, GoodWorld(), t1.accepted, t1.handled);
    NoVotes(Derailing()[1], t1);
    assert t1.handled.m == Line(2);
  }

  lemma {:induction false} ThirdTurn(t: Turn)
    requires t.before.m == Line(2) && t.before.best == Some(1) && TurnOk(Derailing()[2], None, t)
    ensures t.after.m == Line(3) && 2 in t.after.failed && NotBehind(Line(3), Some(1), t.after.best)
  {
    LineAt(2, 1);
    LineAt(2, 2);
    LineLeads(2, t.before.cands);
    OnTopOfTip(t.before, 2, 1, TwoInvalid(), t.accepted, t.handled);
    NoVotes(Derailing()[2], t);
    assert t.handled.m == Line(3);
  }

  lemma {:induction false} FourthTurn(t: Turn)
    requires t.before.m == Line(3) && t.before.best == Some(1) && 2 in t.before.failed && TurnOk(Derailing()[3], None, t)
    ensures t.after.m == Line(4) && 2 in t.after.failed && NotBehind(Line(4), Some(1), t.after.best)
  {
    LineAt(3, 2);
    LineAt(3, 3);
    NoVotes(Derailing()[3], t);
    assert t.handled.m == Line(4);
  }

  lemma {:induction false} LastTurn(t: Turn)
    requires t.before.m == Line(4) && t.before.best == Some(1) && 2 in t.before.failed && TurnOk(Derailing()[4], Some(3), t)
    ensures Derails(t)
  {
    LineAt(4, 1);
    LineAt(4, 2);
    LineAt(4, 3);
    TwoOnPath(4, 3);
    CheckpointAboveFailed(Line(4), 1, 2, 3, 1, t.before.failed);
    assert GoesFrom(t.handled, 3, GoodWorld(), 2);
  }

  lemma {:induction false} FourTurns(t0: Turn, t1: Turn, t2: Turn, t3: Turn)
    requires t0.before == Snap(map[], {}, {}, None) && t1.before == t0.after && t2.before == t1.after && t3.before == t2.after
    requires TurnOk(Derailing()[0], None, t0) && TurnOk(Derailing()[1], None, t1) && TurnOk(Derailing()[2], None, t2)
    requires TurnOk(Derailing()[3], None, t3)
    ensures t3.after.m == Line(4) && 2 in t3.after.failed && NotBehind(Line(4), Some(1), t3.after.best)
  {
    TwoTurns(t0, t1);
    ThirdTurn(t2);
    OnlyOneLeft(t3.before, 3);
    FourthTurn(t3);
  }

  /** None of the first n events is a vote. */
  ghost predicate Quiet(events: seq<Event>, n: nat)
  {
    n <= |events| && forall i :: 0 <= i < n ==> events[i].Arrival?
  }

  lemma {:induction false} QuietNone(events: seq<Event>, n: nat)
    requires Quiet(events, n)
    ensures LastVote(events, n) == None
  {
    if n > 0 {
      QuietNone(events, n - 1);
    }
  }

  lemma {:induction false} QuietTurn(events: seq<Event>, trace: seq<Turn>, first: Snap, last: Snap, i: nat)
    requires Ran(events, trace, first, last) && i < |trace| && Quiet(events, i + 1)
    ensures TurnOk(events[i], None, trace[i]) && !Derails(trace[i])
    ensures trace[i].before == if i == 0 then first else trace[i - 1].after
  {
    RanAt(events, trace, first, last, i);
    QuietNone(events, i + 1);
    NoVotes(events[i], trace[i]);
  }

  /** With a vote at the end only and no disk error, all events are taken. */
  lemma {:induction false} AllTaken(events: seq<Event>, trace: seq<Turn>, first: Snap, last: Snap, status: Status)
    requires Ran(events, trace, first, last) && Course(events, trace, status) && (status == Running ==> |trace| == |events|)
    requires events != [] && Quiet(events, |events| - 1) && forall i :: 0 <= i < |events| ==> WorldsOk(events[i])
    ensures |trace| == |events|
  {
    if status == Derailed {
      RanAt(events, trace, first, last, |trace| - 1);
      if |trace| < |events| {
        QuietTurn(events, trace, first, last, |trace| - 1);
      }
    }
  }

  lemma DerailingOk()
    ensures |Derailing()| == 5 && Quiet(Derailing(), 4) && LastVote(Derailing(), 5) == Some(3)
    ensures forall i :: 0 <= i < 5 ==> WorldsOk(Derailing()[i])
  {
  }

  lemma {:induction false} BeforeVote(events: seq<Event>, trace: seq<Turn>, first: Snap, last: Snap)
    requires events == Derailing() && first == Snap(map[], {}, {}, None) && Ran(events, trace, first, last) && |trace| == 5
    ensures var s := trace[3].after; s.m == Line(4) && 2 in s.failed && NotBehind(Line(4), Some(1), s.best)
  {
    DerailingOk();
    QuietTurn(events, trace, first, last, 0);
    QuietTurn(events, trace, first, last, 1);
    QuietTurn(events, trace, first, last, 2);
    QuietTurn(events, trace, first, last, 3);
    FourTurns(trace[0], trace[1], trace[2], trace[3]);
  }

  lemma {:induction false} EndsDerailed(events: seq<Event>, trace: seq<Turn>, first: Snap, last: Snap)
    requires events == Derailing() && first == Snap(map[], {}, {}, None) && Ran(events, trace, first, last) && |trace| == 5
    ensures Derails(trace[4])
  {
    BeforeVote(events, trace, first, last);
    DerailingOk();
    RanAt(events, trace, first, last, 4);
    OnlyOneLeft(trace[4].before, 4);
    LastTurn(trace[4]);
  }

  /** The run on these events ends on the checkpoint above the failed block. */
  method DerailedRun() returns (status: Status)
    ensures status == Derailed
  {
    var node := new ChainState();
    var events := Derailing();
    ghost var trace;
    ghost var first := node.Snapshot();
    status, trace := Receive(node, events);
    DerailingOk();
    AllTaken(events, trace, first, node.Snapshot(), status);
    EndsDerailed(events, trace, first, node.Snapshot());
  }
}
