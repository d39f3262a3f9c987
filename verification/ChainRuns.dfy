/**
 Runs of a node on values: what an arriving block and a voted checkpoint do to the tree of blocks and
 its tip, and what every run of such steps keeps.
 */
module ChainRuns {
  import opened Wrappers
  import opened BlockTree
  import opened ChainRules
  import opened ChainChoice

  /** A block arrives, or enough votes name a soft checkpoint. */
  datatype Event =
    | Arrival(hash: Hash, hashPrevBlock: Hash, work: nat, w: World, w': World)
    | Votes(cp: Hash, w': World)

  /** Running, stopped by a disk error, or on a checkpoint above a failed block. */
  datatype Status = Running | Aborted | Derailed

  /** The tree, the marked blocks, the candidates and the tip. */
  datatype Snap = Snap(m: Tree, failed: set<Hash>, cands: set<Hash>, best: Option<Hash>)

  /** The way to the tip has no failed block. */
  ghost predicate SnapOk(s: Snap)
  {
    && KnownTip(s.m, s.best) && s.cands <= s.m.Keys && s.failed <= s.m.Keys
    && Elements(PathToTip(s.m, s.best)) !! s.failed
  }

  /** A new block with a known parent, or the very first one. */
  predicate Enters(m: Tree, hash: Hash, prev: Hash)
  {
    hash !in m && (prev in m || m == map[])
  }

  /**
   A block is entered and the tip chosen again: it stays or gains work and loses no height, candidates are
   dropped only by being marked, and in a sound world the heaviest one is judged.
   */
  ghost predicate Arrived(s: Snap, hash: Hash, prev: Hash, work: nat, w: World, ok: bool, s': Snap)
  {
    if !Enters(s.m, hash, prev) then !ok && s' == s
    else
      && s'.m == Extended(s.m, hash, prev, work) && KnownTip(s'.m, s.best) && s.cands + {hash} <= s'.m.Keys
      && Advances(s'.m, s.best, s'.best) && (ok ==> TipLeads(s'.m, s'.cands, s'.best))
      && Dropped(s.failed, s'.failed, s.cands + {hash}, s'.cands)
      && (Sound(w) ==> HeaviestJudged(s'.m, s.failed, s.cands + {hash}, s.best, w, ok, s'.failed, s'.best))
  }

  ghost predicate Handled(s: Snap, e: Event, accepted: bool, s': Snap)
  {
    match e
    case Arrival(hash, prev, work, w, _) => Arrived(s, hash, prev, work, w, accepted, s')
    case Votes(_, _) => accepted && s' == s
  }

  /** The last soft checkpoint is known and off the main chain, so that it is to become the tip. */
  ghost predicate Pending(s: Snap, cp: Option<Hash>)
    requires KnownTip(s.m, s.best)
  {
    cp.Some? && cp.value in s.m && s.best.Some? && !IsAncestor(s.m, cp.value, s.best.value)
  }

  /** The switch to h goes through. */
  ghost predicate GoesTo(s: Snap, h: Hash, w: World)
    requires KnownTip(s.m, s.best) && h in s.m
  {
    exists keep: nat :: GoesFrom(s, h, w, keep)
  }

  ghost predicate GoesFrom(s: Snap, h: Hash, w: World, keep: nat)
    requires KnownTip(s.m, s.best) && h in s.m
  {
    && CommonLength(PathToTip(s.m, s.best), PathTo(s.m, h), keep)
    && Goes(w, PathToTip(s.m, s.best), PathTo(s.m, h), keep, FirstFailed(PathTo(s.m, h), s.failed, keep), h)
  }

  /** A pending checkpoint becomes the tip exactly if the switch to it goes through; otherwise the tip stays. */
  ghost predicate Followed(s: Snap, cp: Option<Hash>, w: World, s': Snap)
    requires KnownTip(s.m, s.best)
  {
    && s'.m == s.m && s.failed <= s'.failed
    && s'.best == if Pending(s, cp) && GoesTo(s, cp.value, w) then cp else s.best
  }

  lemma CommonLongest(a: seq<Hash>, b: seq<Hash>, k: nat, l: nat)
    requires CommonLength(a, b, k) && l <= |a| && l <= |b| && a[..l] == b[..l]
    ensures l <= k
  {
    forall i | 0 <= i < l
      ensures a[i] == b[i]
    {
      assert a[..l][i] == b[..l][i];
    }
  }

  lemma {:induction false} GoesToIff(s: Snap, h: Hash, w: World, keep: nat)
    requires KnownTip(s.m, s.best) && h in s.m && CommonLength(PathToTip(s.m, s.best), PathTo(s.m, h), keep)
    ensures GoesTo(s, h, w) <==>
            Goes(w, PathToTip(s.m, s.best), PathTo(s.m, h), keep, FirstFailed(PathTo(s.m, h), s.failed, keep), h)
  {
    if GoesTo(s, h, w) {
      var k: nat :| GoesFrom(s, h, w, k);
      CommonLongest(PathToTip(s.m, s.best), PathTo(s.m, h), k, keep);
      CommonLongest(PathToTip(s.m, s.best), PathTo(s.m, h), keep, k);
    } else {
      assert !GoesFrom(s, h, w, keep);
    }
  }

  /** From a clean tip, no failed block above the fork is none at all. */
  lemma {:induction false} CleanIff(s: Snap, h: Hash, keep: nat)
    requires SnapOk(s) && h in s.m && CommonLength(PathToTip(s.m, s.best), PathTo(s.m, h), keep)
    ensures NoneFailed(s.m, h, s.failed, keep) <==> Clean(s.m, s.failed, h)
  {
    var tip, path := PathToTip(s.m, s.best), PathTo(s.m, h);
    forall i | 0 <= i < keep
      ensures path[i] !in s.failed
    {
      assert tip[..keep][i] == path[..keep][i];
      assert tip[i] in Elements(tip);
    }
    if !NoneFailed(s.m, h, s.failed, keep) {
      assert path[FirstFailed(path, s.failed, keep)] in Elements(path);
    }
  }

  // ----- whole runs -----

  /** One event: the state before it, after the block is handled, and after the checkpoint is followed. */
  datatype Turn = Turn(before: Snap, handled: Snap, after: Snap, accepted: bool)

  /** The checkpoint named last by the first n events. */
  function LastVote(events: seq<Event>, n: nat): Option<Hash>
    requires n <= |events|
  {
    if n == 0 then None else if events[n - 1].Votes? then Some(events[n - 1].cp) else LastVote(events, n - 1)
  }

  ghost predicate TurnOk(e: Event, cp: Option<Hash>, t: Turn)
  {
    && SnapOk(t.before) && Handled(t.before, e, t.accepted, t.handled)
    && if t.accepted then SnapOk(t.handled) && Followed(t.handled, cp, e.w', t.after) else t.after == t.handled
  }

  /** The checkpoint that was followed has less work than the tip had. */
  ghost predicate Lighter(t: Turn)
  {
    && t.handled.best.Some? && t.after.best.Some? && t.handled.best.value in t.after.m && t.after.best.value in t.after.m
    && t.after.m[t.after.best.value].nChainWork < t.after.m[t.handled.best.value].nChainWork
  }

  /** The checkpoint that was followed stands above a failed block. */
  ghost predicate Derails(t: Turn)
  {
    && t.after.best != t.handled.best && t.after.best.Some? && TreeOk(t.handled.m) && t.after.best.value in t.handled.m
    && !Clean(t.handled.m, t.handled.failed, t.after.best.value)
  }

  /** The turns of the first events, one after another from the first state to the last. */
  ghost predicate Ran(events: seq<Event>, trace: seq<Turn>, first: Snap, last: Snap)
    decreases |trace|
  {
    if trace == [] then first == last
    else
      var n := |trace| - 1;
      && n < |events| && Ran(events, trace[..n], first, trace[n].before)
      && TurnOk(events[n], LastVote(events, n + 1), trace[n]) && last == trace[n].after
  }

  lemma {:induction false} RanOn(events: seq<Event>, trace: seq<Turn>, first: Snap, last: Snap, t: Turn)
    requires Ran(events, trace, first, last) && |trace| < |events| && t.before == last
    requires TurnOk(events[|trace|], LastVote(events, |trace| + 1), t)
    ensures Ran(events, trace + [t], first, t.after)
  {
    assert (trace + [t])[..|trace|] == trace;
  }

  /** Every turn of a run is one, and starts where the one before it ended. */
  lemma {:induction false} RanAt(events: seq<Event>, trace: seq<Turn>, first: Snap, last: Snap, i: nat)
    requires Ran(events, trace, first, last) && i < |trace|
    ensures i < |events| && TurnOk(events[i], LastVote(events, i + 1), trace[i])
    ensures trace[i].before == if i == 0 then first else trace[i - 1].after
    decreases |trace|
  {
    var n := |trace| - 1;
    if i < n {
      RanAt(events, trace[..n], first, trace[n].before, i);
    }
  }

  /** Without a vote no turn follows a checkpoint. */
  lemma NoVotes(e: Event, t: Turn)
    requires TurnOk(e, None, t)
    ensures t.after.m == t.handled.m && t.after.best == t.handled.best && t.handled.failed <= t.after.failed && !Derails(t)
  {
  }

  /** No checkpoint above a failed block was followed. */
  ghost predicate OnCourse(trace: seq<Turn>)
  {
    forall i :: 0 <= i < |trace| ==> !Derails(trace[i])
  }

  /** No checkpoint with less work was followed. */
  ghost predicate NeverLighter(trace: seq<Turn>)
  {
    forall i :: 0 <= i < |trace| ==> !Lighter(trace[i])
  }

  lemma {:induction false} TurnKeeps(e: Event, cp: Option<Hash>, t: Turn)
    requires TurnOk(e, cp, t)
    ensures forall h :: h in t.before.m ==> h in t.after.m && t.after.m[h] == t.before.m[h]
    ensures NotLower(t.after.m, t.before.best, t.after.best)
    ensures !Lighter(t) ==> NotBehind(t.after.m, t.before.best, t.after.best)
  {
    if t.accepted && Pending(t.handled, cp) && GoesTo(t.handled, cp.value, e.w') {
      var keep: nat :| GoesFrom(t.handled, cp.value, e.w', keep);
    }
  }

  /** Blocks stay known, the tip is not lower, and it has not lost work unless a lighter checkpoint was followed. */
  ghost predicate TipKept(first: Snap, last: Snap, trace: seq<Turn>)
  {
    && (forall h :: h in first.m ==> h in last.m && last.m[h] == first.m[h])
    && NotLower(last.m, first.best, last.best)
    && (NeverLighter(trace) ==> NotBehind(last.m, first.best, last.best))
  }

  /** No write to disk fails during an event. */
  ghost predicate WorldsOk(e: Event)
  {
    DiskOk(e.w') && (e.Arrival? ==> DiskOk(e.w))
  }

  /** While running no turn derailed; otherwise the last one did, or met a disk error. */
  ghost predicate Course(events: seq<Event>, trace: seq<Turn>, status: Status)
  {
    && (trace != [] ==> OnCourse(trace[..|trace| - 1]))
    && (status == Running ==> OnCourse(trace))
    && (status != Running ==> trace != [])
    && (status == Aborted ==> |trace| <= |events| && !WorldsOk(events[|trace| - 1]))
    && (status == Derailed <==> trace != [] && Derails(trace[|trace| - 1]))
  }

  lemma {:induction false} CourseOn(events: seq<Event>, trace: seq<Turn>, turn: Turn, status: Status)
    requires Course(events, trace, Running) && |trace| < |events|
    requires status == Aborted ==> !WorldsOk(events[|trace|])
    requires status == Derailed <==> Derails(turn)
    ensures Course(events, trace + [turn], status)
  {
    assert (trace + [turn])[..|trace|] == trace;
  }

  /** No run makes the tip lower, and it loses work only where a lighter checkpoint was followed. */
  lemma {:induction false} RunKeeps(events: seq<Event>, trace: seq<Turn>, first: Snap, last: Snap)
    requires Ran(events, trace, first, last) && KnownTip(first.m, first.best)
    ensures TipKept(first, last, trace)
    decreases |trace|
  {
    if trace != [] {
      var n := |trace| - 1;
      var t := trace[n];
      RunKeeps(events, trace[..n], first, t.before);
      TurnKeeps(events[n], LastVote(events, n + 1), t);
    }
  }
}
