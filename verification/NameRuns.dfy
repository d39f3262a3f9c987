/**
 Connecting and disconnecting blocks at the tip, and what every run of them keeps about the
 username index.
 */
module NameRuns {
  import opened Wrappers
  import opened UsernameIndex

  ghost predicate PointsTo(index: Index, user: string, key: int, b: Block)
  {
    Get(index, user, key).Some? && Get(index, user, key).value.block == b
  }

  /** An entry after connecting b: b's registrations become the latest, and what they supersede moves to the key below. */
  ghost function EntryConnected(index: Index, b: Block, user: string, key: int): Option<Pos>
    requires WellFormed(b) && b.nHeight > 0
  {
    if !Registers(b, user) then Get(index, user, key)
    else if key == -1 then Some(PosIn(b, user))
    else if key == b.nHeight - 1 && Get(index, user, -1).Some? && !PointsTo(index, user, -1, b) then Get(index, user, -1)
    else Get(index, user, key)
  }

  /** An entry after disconnecting b: what b superseded is the latest again; otherwise the entry stays behind. */
  ghost function EntryDisconnected(index: Index, b: Block, user: string, key: int): Option<Pos>
  {
    if Registers(b, user) && key == -1 && Get(index, user, b.nHeight - 1).Some? then Get(index, user, b.nHeight - 1)
    else Get(index, user, key)
  }

  ghost predicate Connected(index: Index, b: Block, index': Index, user: string)
    requires WellFormed(b) && b.nHeight > 0
  {
    forall key :: Get(index', user, key) == EntryConnected(index, b, user, key)
  }

  ghost predicate Disconnected(index: Index, b: Block, index': Index, user: string)
  {
    forall key :: Get(index', user, key) == EntryDisconnected(index, b, user, key)
  }

  /** A left-over entry, right below the first registration of the name, already points at the block to be connected. */
  ghost predicate Stale(index: Index, chain: seq<Block>, b: Block, user: string)
  {
    Registers(b, user) && exists h :: StaleAt(index, chain, b, user, h)
  }

  ghost predicate StaleAt(index: Index, chain: seq<Block>, b: Block, user: string, h: int)
  {
    && 2 <= h <= |chain| && (h < |chain| ==> Registers(chain[h], user)) && Scan(chain, user, h - 1).None?
    && PointsTo(index, user, h - 1, b)
    && (h == |chain| ==> Get(index, user, -1).None? || PointsTo(index, user, -1, b))
  }

  lemma {:induction false} ScanExtend(chain: seq<Block>, b: Block, user: string, m: int)
    requires m < |chain|
    ensures Scan(chain + [b], user, m) == Scan(chain, user, m)
    decreases m
  {
    if m >= 1 {
      assert (chain + [b])[m] == chain[m];
      ScanExtend(chain, b, user, m - 1);
    }
  }

  lemma {:induction false} ConnectEntries(index: Index, index': Index, chain: seq<Block>, b: Block, user: string)
    requires EntriesOk(index, user) && WellFormed(b) && b.nHeight > 0 && Connected(index, b, index', user)
    ensures EntriesOk(index', user)
  {
    forall key | Get(index', user, key).Some?
      ensures At(Get(index', user, key).value, user)
    {
      assert Get(index', user, key) == EntryConnected(index, b, user, key);
      assert Get(index, user, key).Some? ==> At(Get(index, user, key).value, user);
      assert Get(index, user, -1).Some? ==> At(Get(index, user, -1).value, user);
    }
  }

  /** The links below registrations that were there before. */
  lemma {:induction false} ConnectBelow(index: Index, index': Index, chain: seq<Block>, b: Block, user: string, h: nat)
    requires Linked(index, chain, user) && WellFormed(b) && b.nHeight == |chain| > 0 && Connected(index, b, index', user)
    requires ChainOk(chain + [b]) && 2 <= h < |chain| && Registers(chain[h], user)
    ensures LinkedBelow(index', chain + [b], user, h) <==> !(Registers(b, user) && StaleAt(index, chain, b, user, h))
  {
    ScanExtend(chain, b, user, h - 1);
    assert LinkedBelow(index, chain, user, h);
    assert Get(index', user, h - 1) == Get(index, user, h - 1);
    if PointsTo(index, user, h - 1, b) {
      SamePos(Get(index, user, h - 1).value, user);
    }
  }

  /** The link below the new registration. */
  lemma {:induction false} ConnectTop(index: Index, index': Index, chain: seq<Block>, b: Block, user: string)
    requires Linked(index, chain, user) && WellFormed(b) && b.nHeight == |chain| >= 2 && Connected(index, b, index', user)
    requires ChainOk(chain + [b]) && Registers(b, user)
    ensures LinkedBelow(index', chain + [b], user, |chain|) <==> !StaleAt(index, chain, b, user, |chain|)
  {
    var H := |chain|;
    ScanExtend(chain, b, user, H - 1);
    assert Get(index', user, H - 1) == EntryConnected(index, b, user, H - 1);
    if Get(index, user, H - 1).Some? {
      SamePos(Get(index, user, H - 1).value, user);
    }
  }

  lemma {:induction false} ConnectLatest(index: Index, index': Index, chain: seq<Block>, b: Block, user: string)
    requires Linked(index, chain, user) && WellFormed(b) && b.nHeight == |chain| > 0 && Connected(index, b, index', user)
    requires ChainOk(chain + [b])
    ensures LinkAt(index', chain + [b], user, -1, |chain|)
  {
    ScanExtend(chain, b, user, |chain| - 1);
    assert Get(index', user, -1) == EntryConnected(index, b, user, -1);
    if Get(index, user, -1).Some? {
      SamePos(Get(index, user, -1).value, user);
    }
  }

  /** Connecting a block keeps the index right exactly when no left-over entry is stale for it. */
  lemma {:induction false} ConnectKeeps(index: Index, index': Index, chain: seq<Block>, b: Block, user: string)
    requires Linked(index, chain, user) && WellFormed(b) && b.nHeight == |chain| > 0 && Connected(index, b, index', user)
    ensures Linked(index', chain + [b], user) <==> !Stale(index, chain, b, user)
  {
    var chain' := chain + [b];
    ConnectEntries(index, index', chain, b, user);
    assert ChainOk(chain');
    ConnectLatest(index, index', chain, b, user);
    forall h | 2 <= h < |chain'| && Registers(chain'[h], user)
      ensures LinkedBelow(index', chain', user, h) <==> !(Registers(b, user) && StaleAt(index, chain, b, user, h))
    {
      if h < |chain| {
        ConnectBelow(index, index', chain, b, user, h);
      } else {
        ConnectTop(index, index', chain, b, user);
      }
    }
    if Stale(index, chain, b, user) {
      var h :| StaleAt(index, chain, b, user, h);
      assert Registers(chain'[h], user);
      assert !LinkedBelow(index', chain', user, h);
    }
  }

  /** Connecting a block to a chain whose lookups are right: they stay right exactly when no left-over entry is stale. */
  lemma {:induction false} ConnectFaithfulIff(index: Index, index': Index, chain: seq<Block>, b: Block, user: string)
    requires ChainOk(chain) && EntriesOk(index, user) && Faithful(index, chain, user)
    requires WellFormed(b) && b.nHeight == |chain| > 0 && Connected(index, b, index', user)
    ensures ChainOk(chain + [b])
    ensures Faithful(index', chain + [b], user) <==> !Stale(index, chain, b, user)
  {
    FaithfulIffLinked(index, chain, user);
    ConnectKeeps(index, index', chain, b, user);
    ConnectEntries(index, index', chain, b, user);
    assert ChainOk(chain + [b]);
    FaithfulIffLinked(index', chain + [b], user);
  }

  /** Disconnecting the tip always keeps the index right. */
  lemma {:induction false} DisconnectKeeps(index: Index, index': Index, chain: seq<Block>, b: Block, user: string)
    requires Linked(index, chain + [b], user) && b.nHeight == |chain| > 0 && Disconnected(index, b, index', user)
    ensures Linked(index', chain, user)
  {
    var chain', H := chain + [b], |chain|;
    assert forall h :: 0 <= h < |chain| ==> chain[h] == chain'[h];
    DisconnectEntries(index, index', b, user);
    DisconnectLatest(index, index', chain, b, user);
    forall h | 2 <= h < |chain| && Registers(chain[h], user)
      ensures LinkedBelow(index', chain, user, h)
    {
      assert chain'[h] == chain[h];
      assert LinkedBelow(index, chain', user, h);
      ScanExtend(chain, b, user, h - 1);
      assert Get(index', user, h - 1) == Get(index, user, h - 1);
    }
  }

  lemma {:induction false} DisconnectEntries(index: Index, index': Index, b: Block, user: string)
    requires EntriesOk(index, user) && Disconnected(index, b, index', user)
    ensures EntriesOk(index', user)
  {
    forall key | Get(index', user, key).Some?
      ensures At(Get(index', user, key).value, user)
    {
      assert Get(index', user, key) == EntryDisconnected(index, b, user, key);
    }
  }

  lemma {:induction false} DisconnectLatest(index: Index, index': Index, chain: seq<Block>, b: Block, user: string)
    requires ChainOk(chain) && Linked(index, chain + [b], user) && b.nHeight == |chain| > 0
    requires Disconnected(index, b, index', user)
    ensures LinkAt(index', chain, user, -1, |chain| - 1)
  {
    var chain', H := chain + [b], |chain|;
    ScanExtend(chain, b, user, H - 1);
    assert chain'[H] == b;
    assert Get(index', user, -1) == EntryDisconnected(index, b, user, -1);
    if Registers(b, user) && H >= 2 {
      assert LinkedBelow(index, chain', user, H);
    }
  }

  /** From any state where lookups are right, connecting a block and disconnecting it again changes no answer. */
  lemma {:induction false} AnswersUnchanged(index: Index, index1: Index, index2: Index, chain: seq<Block>, b: Block,
                                            user: string, m: nat, r: Option<Pos>)
    requires Linked(index, chain, user) && WellFormed(b) && b.nHeight == |chain| > 0
    requires Connected(index, b, index1, user) && Disconnected(index1, b, index2, user)
    ensures Answers(index2, chain, user, m, r) <==> Answers(index, chain, user, m, r)
  {
    ConnectDisconnect(index, index1, index2, chain, b, user);
    OnlyAnswer(index, chain, user, m, r);
    OnlyAnswer(index2, chain, user, m, r);
  }

  lemma {:induction false} ConnectDisconnect(index: Index, index1: Index, index2: Index, chain: seq<Block>, b: Block,
                                             user: string)
    requires Linked(index, chain, user) && WellFormed(b) && b.nHeight == |chain| > 0
    requires Connected(index, b, index1, user) && Disconnected(index1, b, index2, user)
    ensures Linked(index2, chain, user)
  {
    var H := |chain|;
    ConnectEntries(index, index1, chain, b, user);
    DisconnectEntries(index1, index2, b, user);
    assert Get(index2, user, -1) == EntryDisconnected(index1, b, user, -1);
    assert Get(index1, user, H - 1) == EntryConnected(index, b, user, H - 1);
    assert Get(index1, user, -1) == EntryConnected(index, b, user, -1);
    if Get(index, user, H - 1).Some? {
      SamePos(Get(index, user, H - 1).value, user);
    }
    forall h | 2 <= h < |chain| && Registers(chain[h], user)
      ensures LinkedBelow(index2, chain, user, h)
    {
      assert LinkedBelow(index, chain, user, h);
      assert Get(index2, user, h - 1) == EntryDisconnected(index1, b, user, h - 1);
      assert Get(index1, user, h - 1) == EntryConnected(index, b, user, h - 1);
    }
  }
}
