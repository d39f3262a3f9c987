/**
 The username index: (user, -1) leads to the latest registration of a name, and (user, h - 1)
 to the one that a registration at height h superseded. Blocks are values, and a position in
 the block files is a block with the place of a transaction in it.
 */
module UsernameIndex {
  import opened Wrappers

  /** `pushes` is the push data of the public key script, if it is a list of pushes; `rest` is everything else. */
  datatype Tx = Tx(userName: string, spam: bool, pushes: Option<seq<string>>, rest: nat)

  datatype Block = Block(nHeight: nat, vtx: seq<Tx>, nonce: nat)

  datatype Pos = Pos(block: Block, i: nat)

  datatype Key = Key(userName: string, height: int)

  type Index = map<Key, Pos>

  /** What CheckBlock demands: one spam message first, then registrations of distinct names. */
  predicate WellFormed(b: Block)
  {
    && |b.vtx| > 0 && b.vtx[0].spam
    && (forall i :: 1 <= i < |b.vtx| ==> !b.vtx[i].spam)
    && (forall i, j :: 1 <= i < j < |b.vtx| ==> b.vtx[i].userName != b.vtx[j].userName)
  }

  ghost predicate Registers(b: Block, user: string)
  {
    exists i :: 1 <= i < |b.vtx| && b.vtx[i].userName == user
  }

  /** p is where its block registers the user; the genesis block registers nobody. */
  ghost predicate At(p: Pos, user: string)
  {
    p.block.nHeight > 0 && WellFormed(p.block) && 1 <= p.i < |p.block.vtx| && p.block.vtx[p.i].userName == user
  }

  ghost function PosIn(b: Block, user: string): (p: Pos)
    requires b.nHeight > 0 && WellFormed(b) && Registers(b, user)
    ensures p.block == b && At(p, user)
  {
    var i :| 1 <= i < |b.vtx| && b.vtx[i].userName == user;
    Pos(b, i)
  }

  lemma SamePos(p: Pos, user: string)
    requires At(p, user)
    ensures Registers(p.block, user) && p == PosIn(p.block, user)
  {
  }

  /** The main chain, genesis first. */
  ghost predicate ChainOk(chain: seq<Block>)
  {
    forall h :: 0 <= h < |chain| ==> chain[h].nHeight == h && WellFormed(chain[h])
  }

  predicate InMain(chain: seq<Block>, b: Block)
  {
    b.nHeight < |chain| && chain[b.nHeight] == b
  }

  /** The height of the last registration at or below a height, found by scanning the chain. */
  ghost function Scan(chain: seq<Block>, user: string, m: int): (r: Option<nat>)
    ensures r.Some? ==> 1 <= r.value <= m && r.value < |chain| && Registers(chain[r.value], user)
    ensures forall h :: 1 <= h <= m && h < |chain| && Registers(chain[h], user) ==> r.Some? && h <= r.value
    decreases m
  {
    if m < 1 then None
    else if m < |chain| && Registers(chain[m], user) then Some(m)
    else Scan(chain, user, m - 1)
  }

  ghost function ScanPos(chain: seq<Block>, user: string, m: int): (r: Option<Pos>)
    requires ChainOk(chain)
  {
    match Scan(chain, user, m) case None => None case Some(h) => Some(PosIn(chain[h], user))
  }

  function Get(index: Index, user: string, key: int): (r: Option<Pos>)
  {
    if Key(user, key) in index then Some(index[Key(user, key)]) else None
  }

  /** Entries of a user point at registrations of that user. */
  ghost predicate EntriesOk(index: Index, user: string)
  {
    forall key :: Get(index, user, key).Some? ==> At(Get(index, user, key).value, user)
  }

  /** One key answers for everything up to height m: it leads to the last registration, or off the main chain. */
  ghost predicate LinkAt(index: Index, chain: seq<Block>, user: string, key: int, m: int)
    requires ChainOk(chain)
  {
    match Scan(chain, user, m)
    case None => Get(index, user, key).None? || !InMain(chain, Get(index, user, key).value.block)
    case Some(h) => Get(index, user, key) == Some(PosIn(chain[h], user))
  }

  /** The chain of entries of a user mirrors the registrations on the main chain. */
  ghost predicate Linked(index: Index, chain: seq<Block>, user: string)
  {
    && ChainOk(chain) && EntriesOk(index, user)
    && LinkAt(index, chain, user, -1, |chain| - 1)
    && forall h {:trigger LinkedBelow(index, chain, user, h)} ::
         2 <= h < |chain| && Registers(chain[h], user) ==> LinkedBelow(index, chain, user, h)
  }

  ghost predicate LinkedBelow(index: Index, chain: seq<Block>, user: string, h: int)
    requires ChainOk(chain)
  {
    LinkAt(index, chain, user, h - 1, h - 1)
  }

  // ----- looking a name up -----

  /** What one round of the lookup reads: an entry that is on the main chain. */
  function Fetch(index: Index, chain: seq<Block>, user: string, key: int): (r: Option<Pos>)
  {
    match Get(index, user, key)
    case None => None
    case Some(p) =>
      if p.i < |p.block.vtx| && p.block.vtx[p.i].userName == user && InMain(chain, p.block) then Some(p) else None
  }

  /** The lookup, cut off after a number of rounds; None means that it has not finished. */
  ghost function Walk(index: Index, chain: seq<Block>, user: string, key: int, m: int, rounds: nat): Option<Option<Pos>>
    decreases rounds
  {
    if rounds == 0 then None
    else match Fetch(index, chain, user, key)
         case None => Some(None)
         case Some(p) =>
           if p.block.nHeight <= m then Some(Some(p))
           else if p.block.nHeight - 1 > 0 && p.block.nHeight - 1 >= m
           then Walk(index, chain, user, p.block.nHeight - 1, m, rounds - 1)
           else Some(None)
  }

  /** Every lookup ends, with the registration that a scan of the chain finds. */
  ghost predicate Faithful(index: Index, chain: seq<Block>, user: string)
    requires ChainOk(chain)
  {
    forall m: nat {:trigger ScanPos(chain, user, m)} :: Answers(index, chain, user, m, ScanPos(chain, user, m))
  }

  ghost predicate Answers(index: Index, chain: seq<Block>, user: string, m: nat, r: Option<Pos>)
  {
    exists rounds: nat :: Walk(index, chain, user, -1, m, rounds) == Some(r)
  }

  lemma {:induction false} ScanStep(chain: seq<Block>, user: string, bound: int, m: int)
    requires m <= bound || bound == |chain| - 1
    ensures Scan(chain, user, bound).None? ==> Scan(chain, user, m).None?
    ensures Scan(chain, user, bound).Some? && Scan(chain, user, bound).value <= m ==>
              Scan(chain, user, m) == Scan(chain, user, bound)
  {
  }

  /** Following correct links finds what the scan finds. */
  lemma {:induction false} WalkFaithful(index: Index, chain: seq<Block>, user: string, key: int, bound: int, m: int,
                                        rounds: nat)
    requires Linked(index, chain, user) && LinkAt(index, chain, user, key, bound)
    requires 0 <= m && (m <= bound || bound == |chain| - 1) && rounds > 0 && rounds >= bound + 2
    ensures Walk(index, chain, user, key, m, rounds) == Some(ScanPos(chain, user, m))
    decreases rounds
  {
    FetchLink(index, chain, user, key, bound);
    var r := Scan(chain, user, bound);
    if r.Some? && r.value > m && r.value >= 2 {
      var h := r.value;
      assert LinkedBelow(index, chain, user, h);
      WalkFaithful(index, chain, user, h - 1, h - 1, m, rounds - 1);
      WalkOn(index, chain, user, key, m, rounds, PosIn(chain[h], user));
    } else {
      WalkEnds(index, chain, user, key, bound, m, rounds);
    }
  }

  lemma WalkOn(index: Index, chain: seq<Block>, user: string, key: int, m: int, rounds: nat, p: Pos)
    requires rounds > 0 && Fetch(index, chain, user, key) == Some(p) && p.block.nHeight > m && p.block.nHeight >= 2
    ensures Walk(index, chain, user, key, m, rounds) == Walk(index, chain, user, p.block.nHeight - 1, m, rounds - 1)
  {
  }

  lemma {:induction false} WalkEnds(index: Index, chain: seq<Block>, user: string, key: int, bound: int, m: int, rounds: nat)
    requires ChainOk(chain) && Fetch(index, chain, user, key) == ScanPos(chain, user, bound)
    requires 0 <= m && (m <= bound || bound == |chain| - 1) && rounds > 0
    requires var r := Scan(chain, user, bound); r.None? || r.value <= m || r.value < 2
    ensures Walk(index, chain, user, key, m, rounds) == Some(ScanPos(chain, user, m))
  {
    ScanStep(chain, user, bound, m);
  }

  lemma FetchLink(index: Index, chain: seq<Block>, user: string, key: int, bound: int)
    requires ChainOk(chain) && EntriesOk(index, user) && LinkAt(index, chain, user, key, bound)
    ensures Fetch(index, chain, user, key) == ScanPos(chain, user, bound)
  {
  }

  /** A lookup that finishes with correct links above h passes through the key h - 1 and stops there. */
  lemma {:induction false} WalkThrough(index: Index, chain: seq<Block>, user: string, h: nat, key: int, rounds: nat)
    requires ChainOk(chain) && EntriesOk(index, user) && 2 <= h < |chain| && Registers(chain[h], user)
    requires forall g {:trigger LinkedBelow(index, chain, user, g)} ::
               h < g < |chain| && Registers(chain[g], user) ==> LinkedBelow(index, chain, user, g)
    requires key == h - 1 || LeadsDown(index, chain, user, key, h)
    requires Walk(index, chain, user, key, h - 1, rounds).Some?
    ensures Walk(index, chain, user, key, h - 1, rounds) == Some(Fetch(index, chain, user, h - 1))
    ensures Fetch(index, chain, user, h - 1).Some? ==> Fetch(index, chain, user, h - 1).value.block.nHeight < h
    decreases rounds
  {
    NextKey(index, chain, user, h, key);
    var f := Fetch(index, chain, user, key);
    if f.Some? && f.value.block.nHeight >= h {
      WalkThrough(index, chain, user, h, f.value.block.nHeight - 1, rounds - 1);
    }
  }

  lemma {:induction false} NextKey(index: Index, chain: seq<Block>, user: string, h: nat, key: int)
    requires ChainOk(chain) && EntriesOk(index, user) && 2 <= h < |chain| && Registers(chain[h], user)
    requires forall g {:trigger LinkedBelow(index, chain, user, g)} ::
               h < g < |chain| && Registers(chain[g], user) ==> LinkedBelow(index, chain, user, g)
    requires key == h - 1 || LeadsDown(index, chain, user, key, h)
    ensures var f := Fetch(index, chain, user, key);
            if f.Some? && f.value.block.nHeight >= h
            then f.value.block.nHeight == h || LeadsDown(index, chain, user, f.value.block.nHeight - 1, h)
            else key == h - 1
  {
    if LeadsDown(index, chain, user, key, h) {
      var bound :| h <= bound && LinkAt(index, chain, user, key, bound);
      FetchLink(index, chain, user, key, bound);
    }
    var f := Fetch(index, chain, user, key);
    if f.Some? && f.value.block.nHeight > h {
      SamePos(f.value, user);
      assert LinkedBelow(index, chain, user, f.value.block.nHeight);
    }
  }

  /** The key leads to the last registration at or below some height that is not below h. */
  ghost predicate LeadsDown(index: Index, chain: seq<Block>, user: string, key: int, h: int)
    requires ChainOk(chain)
  {
    exists bound :: h <= bound && LinkAt(index, chain, user, key, bound)
  }

  lemma {:induction false} FaithfulLinks(index: Index, chain: seq<Block>, user: string, h: nat)
    requires ChainOk(chain) && EntriesOk(index, user) && Faithful(index, chain, user)
    requires LinkAt(index, chain, user, -1, |chain| - 1)
    requires 2 <= h
    ensures forall g {:trigger LinkedBelow(index, chain, user, g)} ::
              h <= g < |chain| && Registers(chain[g], user) ==> LinkedBelow(index, chain, user, g)
    decreases |chain| - h
  {
    if h < |chain| {
      FaithfulLinks(index, chain, user, h + 1);
      if Registers(chain[h], user) {
        assert Answers(index, chain, user, h - 1, ScanPos(chain, user, h - 1));
        var rounds: nat :| Walk(index, chain, user, -1, h - 1, rounds) == Some(ScanPos(chain, user, h - 1));
        assert LeadsDown(index, chain, user, -1, h);
        WalkThrough(index, chain, user, h, -1, rounds);
        assert LinkedBelow(index, chain, user, h);
      }
    }
  }

  /** Every lookup of a name ends and agrees with a scan of the chain exactly when the entries mirror the chain. */
  lemma {:induction false} FaithfulIffLinked(index: Index, chain: seq<Block>, user: string)
    requires ChainOk(chain) && EntriesOk(index, user)
    ensures Faithful(index, chain, user) <==> Linked(index, chain, user)
  {
    if Linked(index, chain, user) {
      forall m: nat
        ensures Answers(index, chain, user, m, ScanPos(chain, user, m))
      {
        WalkFaithful(index, chain, user, -1, |chain| - 1, m, |chain| + 1);
      }
    }
    if Faithful(index, chain, user) {
      FirstLink(index, chain, user);
      FaithfulLinks(index, chain, user, 2);
    }
  }

  lemma {:induction false} FirstLink(index: Index, chain: seq<Block>, user: string)
    requires ChainOk(chain) && EntriesOk(index, user) && Faithful(index, chain, user)
    ensures LinkAt(index, chain, user, -1, |chain| - 1)
  {
    if |chain| > 0 {
      var m := |chain| - 1;
      assert Answers(index, chain, user, m, ScanPos(chain, user, m));
      var rounds: nat :| Walk(index, chain, user, -1, m, rounds) == Some(ScanPos(chain, user, m));
    }
  }

  /** A finished lookup does not change with more rounds. */
  lemma {:induction false} WalkStable(index: Index, chain: seq<Block>, user: string, key: int, m: int, rounds: nat, more: nat)
    requires rounds <= more && Walk(index, chain, user, key, m, rounds).Some?
    ensures Walk(index, chain, user, key, m, more) == Walk(index, chain, user, key, m, rounds)
    decreases rounds
  {
    var f := Fetch(index, chain, user, key);
    if f.Some? && f.value.block.nHeight > m && f.value.block.nHeight - 1 > 0 {
      WalkStable(index, chain, user, f.value.block.nHeight - 1, m, rounds - 1, more - 1);
    }
  }

  /** Where lookups are right, the scan is the only answer. */
  lemma {:induction false} OnlyAnswer(index: Index, chain: seq<Block>, user: string, m: nat, r: Option<Pos>)
    requires Linked(index, chain, user)
    ensures Answers(index, chain, user, m, r) <==> r == ScanPos(chain, user, m)
  {
    WalkFaithful(index, chain, user, -1, |chain| - 1, m, |chain| + 1);
    if Answers(index, chain, user, m, r) {
      var rounds: nat :| Walk(index, chain, user, -1, m, rounds) == Some(r);
      if rounds <= |chain| + 1 {
        WalkStable(index, chain, user, -1, m, rounds, |chain| + 1);
      } else {
        WalkStable(index, chain, user, -1, m, |chain| + 1, rounds);
      }
    }
  }
}
