/**
 The address manager's own consistency check, and what exactly it establishes.
 */
module AddrCheck {
  import opened AddrTables
  import opened AddrManager
  import opened AddrRuns

  /** operator[] of a map: a missing key reads as zero. */
  function LookupOrZero(ma: map<NetAddr, int>, host: NetAddr): int
  {
    if host in ma then ma[host] else 0
  }

  /** The error code that one entry causes, or zero. */
  function EntryCode(id: int, info: AddrInfo, ma: map<NetAddr, int>, vr: seq<int>): int
  {
    if info.fInTried && info.nLastSuccess == 0 then -1
    else if info.fInTried && info.nRefCount != 0 then -2
    else if !info.fInTried && (info.nRefCount < 0 || info.nRefCount > NEW_BUCKETS_PER_ADDRESS) then -3
    else if !info.fInTried && info.nRefCount == 0 then -4
    else if LookupOrZero(ma, info.service.host) != id then -5
    else if info.nRandomPos < 0 || info.nRandomPos >= |vr| || vr[info.nRandomPos] != id then -14
    else if info.nLastTry < 0 then -6
    else if info.nLastSuccess < 0 then -8
    else 0
  }

  /** A map of positive counts read as a multiset. */
  ghost predicate Tally(counts: map<int, int>, ms: multiset<int>)
  {
    && (forall id :: id in counts ==> counts[id] == ms[id] > 0)
    && (forall id :: id in ms ==> id in counts)
  }

  /** What remains to be found in the buckets after a successful pass over the entries. */
  ghost predicate Expected(mi: Infos, ids: set<int>, setTried: set<int>, ms: multiset<int>)
  {
    && ids <= mi.Keys
    && (forall id :: id in setTried <==> id in ids && mi[id].fInTried)
    && (forall id :: id in ms ==> id in ids && !mi[id].fInTried)
    && (forall id :: id in ids && !mi[id].fInTried ==> ms[id] == mi[id].nRefCount)
  }

  /** The code of the entry with the lowest id among those at fault, or zero. */
  ghost function FirstFault(mi: Infos, ma: map<NetAddr, int>, vr: seq<int>, ids: set<int>): (code: int)
    requires ids <= mi.Keys
    ensures code == 0 <==> forall id :: id in ids ==> EntryCode(id, mi[id], ma, vr) == 0
    decreases ids
  {
    if ids == {} then 0
    else
      var n := MinOf(ids);
      var code := EntryCode(n, mi[n], ma, vr);
      if code != 0 then code else FirstFault(mi, ma, vr, ids - {n})
  }

  /** mapAddr is read only for entries whose role and count are right. */
  predicate Reads(code: int)
  {
    code == 0 || code < -4
  }

  /** The hosts for which mapAddr is read, up to the first entry at fault. */
  ghost function HostsRead(mi: Infos, ma: map<NetAddr, int>, vr: seq<int>, ids: set<int>): (hosts: set<NetAddr>)
    requires ids <= mi.Keys
    decreases ids
  {
    if ids == {} then {}
    else
      var n := MinOf(ids);
      var code := EntryCode(n, mi[n], ma, vr);
      (if Reads(code) then {mi[n].service.host} else {}) + (if code != 0 then {} else HostsRead(mi, ma, vr, ids - {n}))
  }

  /** The map with an entry of zero for every host that was read and missing. */
  ghost function Grown(ma: map<NetAddr, int>, hosts: set<NetAddr>): map<NetAddr, int>
  {
    map h | h in ma.Keys + hosts :: LookupOrZero(ma, h)
  }

  method CheckEntries(mi: Infos, ma: map<NetAddr, int>, vr: seq<int>)
    returns (code: int, setTried: set<int>, mapNew: map<int, int>, grown: map<NetAddr, int>, ghost ms: multiset<int>)
    ensures code == FirstFault(mi, ma, vr, mi.Keys)
    ensures code == 0 ==> Expected(mi, mi.Keys, setTried, ms) && Tally(mapNew, ms)
    ensures grown == Grown(ma, HostsRead(mi, ma, vr, mi.Keys))
  {
    setTried, mapNew, grown, ms := {}, map[], ma, multiset{};
    var ahead := mi.Keys;
    ghost var done, read := {}, {};
    while ahead != {}
      invariant done !! ahead && done + ahead == mi.Keys
      invariant grown == Grown(ma, read) && Pending(mi, ma, vr, ahead, read)
      invariant Expected(mi, done, setTried, ms) && Tally(mapNew, ms)
      decreases ahead
    {
      var n := MinOf(ahead);
      assert n in mi.Keys;
      var info := mi[n];
      PendingStep(mi, ma, vr, ahead, read);
      code, grown, read := CheckEntry(n, info, ma, grown, vr, read);
      if code != 0 {
        return;
      }
      ExpectedStep(mi, done, setTried, ms, mapNew, n);
      if info.fInTried {
        setTried := setTried + {n};
      } else {
        mapNew := mapNew[n := info.nRefCount];
        ms := ms[n := info.nRefCount];
      }
      done, ahead := done + {n}, ahead - {n};
    }
    code := 0;
    assert done == mi.Keys;
  }

  /** What is left to report and to read is up to the ids ahead. */
  ghost predicate Pending(mi: Infos, ma: map<NetAddr, int>, vr: seq<int>, ahead: set<int>, read: set<NetAddr>)
  {
    && ahead <= mi.Keys
    && FirstFault(mi, ma, vr, ahead) == FirstFault(mi, ma, vr, mi.Keys)
    && read + HostsRead(mi, ma, vr, ahead) == HostsRead(mi, ma, vr, mi.Keys)
  }

  lemma {:induction false} PendingStep(mi: Infos, ma: map<NetAddr, int>, vr: seq<int>, ahead: set<int>, read: set<NetAddr>)
    requires ahead != {} && Pending(mi, ma, vr, ahead, read)
    ensures var n := MinOf(ahead);
            var code := EntryCode(n, mi[n], ma, vr);
            var read' := read + (if Reads(code) then {mi[n].service.host} else {});
            if code == 0 then Pending(mi, ma, vr, ahead - {n}, read')
            else code == FirstFault(mi, ma, vr, mi.Keys) && read' == HostsRead(mi, ma, vr, mi.Keys)
  {
  }

  /** The tests on one entry. */
  method CheckEntry(n: int, info: AddrInfo, ghost ma: map<NetAddr, int>, grown0: map<NetAddr, int>, vr: seq<int>,
                    ghost read0: set<NetAddr>)
    returns (code: int, grown: map<NetAddr, int>, ghost read: set<NetAddr>)
    requires grown0 == Grown(ma, read0)
    ensures code == EntryCode(n, info, ma, vr)
    ensures read == read0 + (if Reads(code) then {info.service.host} else {}) && grown == Grown(ma, read)
  {
    grown, read := grown0, read0;
    code := EntryCode(n, info, grown, vr);
    if Reads(code) {
      GrowsBy(ma, read, info.service.host);
      grown := if info.service.host in grown then grown else grown[info.service.host := 0];
      read := read + {info.service.host};
    } else {
      assert read0 + {} == read0;
    }
  }

  lemma GrowsBy(ma: map<NetAddr, int>, read: set<NetAddr>, host: NetAddr)
    ensures var grown := Grown(ma, read);
            Grown(ma, read + {host}) == if host in grown then grown else grown[host := 0]
  {
  }

  /** Where mapAddr is right, reading it adds nothing. */
  lemma {:induction false} GrownSame(mi: Infos, ma: map<NetAddr, int>, vr: seq<int>, ids: set<int>)
    requires AddrOk(mi, ma) && ids <= mi.Keys
    ensures Grown(ma, HostsRead(mi, ma, vr, ids)) == ma && HostsRead(mi, ma, vr, ids) <= ma.Keys
    decreases ids
  {
    if ids != {} {
      GrownSame(mi, ma, vr, ids - {MinOf(ids)});
    }
  }

  lemma ExpectedStep(mi: Infos, done: set<int>, setTried: set<int>, ms: multiset<int>, mapNew: map<int, int>, n: int)
    requires Expected(mi, done, setTried, ms) && Tally(mapNew, ms) && n in mi && n !in done
    ensures mi[n].fInTried ==> Expected(mi, done + {n}, setTried + {n}, ms)
    ensures !mi[n].fInTried && mi[n].nRefCount > 0 ==>
              Expected(mi, done + {n}, setTried, ms[n := mi[n].nRefCount])
              && Tally(mapNew[n := mi[n].nRefCount], ms[n := mi[n].nRefCount])
  {
  }

  /** Strikes the slots of one tried bucket off the list; fails on a stranger or a second occurrence. */
  method CheckTriedBucket(setTried: set<int>, bucket: seq<int>) returns (code: int, rest: set<int>)
    ensures code == if multiset(bucket) <= multiset(setTried) then 0 else -11
    ensures code == 0 ==> multiset(rest) == multiset(setTried) - multiset(bucket)
  {
    rest := setTried;
    for i := 0 to |bucket|
      invariant multiset(bucket[..i]) <= multiset(setTried)
      invariant multiset(rest) == multiset(setTried) - multiset(bucket[..i])
    {
      var x := bucket[i];
      assert bucket[..i + 1] == bucket[..i] + [x];
      if x !in rest {
        assert multiset(rest)[x] == 0;
        PrefixCount(bucket, i + 1, x);
        return -11, rest;
      }
      SetShrinks(rest, x);
      rest := rest - {x};
    }
    assert bucket[..|bucket|] == bucket;
    code := 0;
  }

  lemma PrefixCount(s: seq<int>, i: nat, x: int)
    requires i <= |s|
    ensures multiset(s[..i])[x] <= multiset(s)[x]
  {
    assert s == s[..i] + s[i..];
  }

  method CheckTried(setTried: set<int>, vt: seq<seq<int>>) returns (code: int, rest: set<int>)
    ensures code == if ListSlots(vt) <= multiset(setTried) then 0 else -11
    ensures code == 0 ==> multiset(rest) == multiset(setTried) - ListSlots(vt)
    ensures code == 0 && rest == {} <==> ListSlots(vt) == multiset(setTried)
  {
    rest := setTried;
    for n := 0 to |vt|
      invariant ListSlots(vt) <= multiset(setTried) <==> ListSlots(vt[n..]) <= multiset(rest)
      invariant ListSlots(vt) <= multiset(setTried) ==> multiset(rest) - ListSlots(vt[n..]) == multiset(setTried) - ListSlots(vt)
    {
      assert vt[n..][0] == vt[n] && vt[n..][1..] == vt[n + 1..];
      ghost var before := rest;
      code, rest := CheckTriedBucket(rest, vt[n]);
      StrikeOff(multiset(before), multiset(vt[n]), ListSlots(vt[n + 1..]));
      if code != 0 {
        return;
      }
    }
    code := 0;
    assert vt[|vt|..] == [];
    NoneLeft(setTried, ListSlots(vt), rest);
  }

  lemma NoneLeft(all: set<int>, found: multiset<int>, rest: set<int>)
    requires found <= multiset(all) && multiset(rest) == multiset(all) - found
    ensures rest == {} <==> found == multiset(all)
  {
    if rest == {} {
      assert multiset(all) == found + multiset(rest);
    } else {
      var x := MinOf(rest);
      assert multiset(rest)[x] > 0;
    }
  }

  lemma StrikeOff(all: multiset<int>, part: multiset<int>, others: multiset<int>)
    ensures part + others <= all <==> part <= all && others <= all - part
    ensures part <= all ==> (all - part) - others == all - (part + others)
  {
    if part + others <= all {
      assert part <= all;
    }
  }

  /** Counts down one reference for every id of a new bucket. */
  method CheckNewBucket(mapNew: map<int, int>, bucket: set<int>, ghost ms: multiset<int>)
    returns (code: int, rest: map<int, int>, ghost left: multiset<int>)
    requires Tally(mapNew, ms)
    ensures code == if multiset(bucket) <= ms then 0 else -12
    ensures code == 0 ==> left == ms - multiset(bucket) && Tally(rest, left)
  {
    rest, left := mapNew, ms;
    var ahead := bucket;
    while ahead != {}
      invariant Tally(rest, left)
      invariant multiset(bucket) <= ms <==> multiset(ahead) <= left
      invariant multiset(bucket) <= ms ==> left - multiset(ahead) == ms - multiset(bucket)
      decreases ahead
    {
      var x := MinOf(ahead);
      StrikeOne(left, ahead, x);
      if x !in rest {
        assert left[x] == 0;
        return -12, rest, left;
      }
      TallyStep(rest, left, x);
      left := left - multiset{x};
      if rest[x] - 1 == 0 {
        rest := rest - {x};
      } else {
        rest := rest[x := rest[x] - 1];
      }
      ahead := ahead - {x};
    }
    code := 0;
  }

  lemma StrikeOne(left: multiset<int>, ahead: set<int>, x: int)
    requires x in ahead
    ensures multiset(ahead) <= left <==> left[x] > 0 && multiset(ahead - {x}) <= left - multiset{x}
    ensures multiset(ahead) <= left ==> left - multiset(ahead) == (left - multiset{x}) - multiset(ahead - {x})
  {
    SetShrinks(ahead, x);
    var one, others := multiset{x}, multiset(ahead - {x});
    assert multiset(ahead) == one + others;
  }

  lemma TallyStep(counts: map<int, int>, ms: multiset<int>, x: int)
    requires Tally(counts, ms) && x in counts
    ensures Tally(if counts[x] == 1 then counts - {x} else counts[x := counts[x] - 1], ms - multiset{x})
  {
  }

  method CheckNew(mapNew: map<int, int>, vn: seq<set<int>>, ghost ms: multiset<int>)
    returns (code: int, rest: map<int, int>)
    requires Tally(mapNew, ms)
    ensures code == if NewSlots(vn) <= ms then 0 else -12
    ensures code == 0 ==> Tally(rest, ms - NewSlots(vn))
    ensures code == 0 && rest == map[] <==> NewSlots(vn) == ms
  {
    rest := mapNew;
    ghost var left := ms;
    for n := 0 to |vn|
      invariant Tally(rest, left)
      invariant NewSlots(vn) <= ms <==> NewSlots(vn[n..]) <= left
      invariant NewSlots(vn) <= ms ==> left - NewSlots(vn[n..]) == ms - NewSlots(vn)
    {
      assert vn[n..][0] == vn[n] && vn[n..][1..] == vn[n + 1..];
      ghost var before := left;
      code, rest, left := CheckNewBucket(rest, vn[n], left);
      StrikeOff(before, multiset(vn[n]), NewSlots(vn[n + 1..]));
      if code != 0 {
        return;
      }
    }
    code := 0;
    assert vn[|vn|..] == [];
    TallyEmpty(rest, left);
    assert left == ms - NewSlots(vn);
    Remainder(ms, NewSlots(vn), left);
  }

  lemma Remainder(all: multiset<int>, found: multiset<int>, left: multiset<int>)
    requires found <= all && left == all - found
    ensures left == multiset{} <==> found == all
  {
    assert all == found + left;
  }

  lemma TallyEmpty(counts: map<int, int>, ms: multiset<int>)
    requires Tally(counts, ms)
    ensures counts == map[] <==> ms == multiset{}
  {
    if counts == map[] {
      assert forall id: int :: id !in ms;
    }
    if ms == multiset{} {
      assert forall id: int :: id !in counts;
    }
  }

  /** What a passing self-check has established. */
  ghost predicate Passes(mi: Infos, ma: map<NetAddr, int>, vr: seq<int>, vt: seq<seq<int>>, vn: seq<set<int>>,
                         nTried: int, nNew: int)
  {
    && |vr| == nTried + nNew
    && (forall id :: id in mi ==> EntryCode(id, mi[id], ma, vr) == 0)
    && CountersOk(mi, nTried, nNew)
    && ListSlots(vt) == multiset(TriedIds(mi))
    && (forall id :: NewSlots(vn)[id] == NewRefs(mi, id))
  }

  function NewRefs(mi: Infos, id: int): int
  {
    if id in mi && !mi[id].fInTried then mi[id].nRefCount else 0
  }

  /** The code of the first test that fails. */
  ghost function CheckCode(mi: Infos, ma: map<NetAddr, int>, vr: seq<int>, vt: seq<seq<int>>, vn: seq<set<int>>,
                           nTried: int, nNew: int): int
  {
    if |vr| != nTried + nNew then -7
    else if FirstFault(mi, ma, vr, mi.Keys) != 0 then FirstFault(mi, ma, vr, mi.Keys)
    else if |TriedIds(mi)| != nTried then -9
    else if |NewIds(mi)| != nNew then -10
    else if !(ListSlots(vt) <= multiset(TriedIds(mi))) then -11
    else if exists id :: NewSlots(vn)[id] > NewRefs(mi, id) then -12
    else if ListSlots(vt) != multiset(TriedIds(mi)) then -13
    else if exists id :: NewSlots(vn)[id] != NewRefs(mi, id) then -15
    else 0
  }

  lemma CodeZeroIff(mi: Infos, ma: map<NetAddr, int>, vr: seq<int>, vt: seq<seq<int>>, vn: seq<set<int>>,
                    nTried: int, nNew: int)
    ensures CheckCode(mi, ma, vr, vt, vn, nTried, nNew) == 0 <==> Passes(mi, ma, vr, vt, vn, nTried, nNew)
  {
  }

  // ----- what the codes say -----

  /** What is wrong with an entry that causes a code. */
  predicate EntryFault(code: int, id: int, info: AddrInfo, ma: map<NetAddr, int>, vr: seq<int>)
  {
    match code
    case -1 => info.fInTried && info.nLastSuccess == 0
    case -2 => info.fInTried && info.nRefCount != 0
    case -3 => !info.fInTried && (info.nRefCount < 0 || info.nRefCount > 4)
    case -4 => !info.fInTried && info.nRefCount == 0
    case -5 => info.service.host in ma ==> ma[info.service.host] != id
    case -14 => 0 <= info.nRandomPos < |vr| ==> vr[info.nRandomPos] != id
    case -6 => info.nLastTry < 0
    case -8 => info.nLastSuccess < 0
    case _ => false
  }

  /** The code names something that is wrong with the tables. */
  ghost predicate Explained(mi: Infos, ma: map<NetAddr, int>, vr: seq<int>, vt: seq<seq<int>>, vn: seq<set<int>>,
                            nTried: int, nNew: int, code: int)
  {
    match code
    case -7 => |vr| != nTried + nNew
    case -9 => |TriedIds(mi)| != nTried
    case -10 => |NewIds(mi)| != nNew
    case -11 => exists id :: ListSlots(vt)[id] > if id in mi && mi[id].fInTried then 1 else 0
    case -12 => exists id :: NewSlots(vn)[id] > if id in mi && !mi[id].fInTried then mi[id].nRefCount else 0
    case -13 => exists id :: id in mi && mi[id].fInTried && ListSlots(vt)[id] == 0
    case -15 => exists id :: id in mi && !mi[id].fInTried && NewSlots(vn)[id] < mi[id].nRefCount
    case _ => code == 0 || exists id :: id in mi && EntryFault(code, id, mi[id], ma, vr)
  }

  lemma {:induction false} FaultFound(mi: Infos, ma: map<NetAddr, int>, vr: seq<int>, ids: set<int>)
    requires ids <= mi.Keys && FirstFault(mi, ma, vr, ids) != 0
    ensures exists id :: id in mi && EntryFault(FirstFault(mi, ma, vr, ids), id, mi[id], ma, vr)
    ensures FirstFault(mi, ma, vr, ids) in {-1, -2, -3, -4, -5, -14, -6, -8}
    decreases ids
  {
    var n := MinOf(ids);
    var code := EntryCode(n, mi[n], ma, vr);
    if code == 0 {
      FaultFound(mi, ma, vr, ids - {n});
    } else {
      assert n in mi.Keys;
      assert EntryFault(code, n, mi[n], ma, vr);
    }
  }

  /** Every code of the self-check is true of the tables. */
  lemma {:induction false} CodeExplained(mi: Infos, ma: map<NetAddr, int>, vr: seq<int>, vt: seq<seq<int>>, vn: seq<set<int>>,
                                         nTried: int, nNew: int)
    ensures Explained(mi, ma, vr, vt, vn, nTried, nNew, CheckCode(mi, ma, vr, vt, vn, nTried, nNew))
  {
    var code := CheckCode(mi, ma, vr, vt, vn, nTried, nNew);
    if |vr| != nTried + nNew {
      assert code == -7;
    } else if FirstFault(mi, ma, vr, mi.Keys) != 0 {
      FaultFound(mi, ma, vr, mi.Keys);
    } else if code == -11 {
      TooMany(ListSlots(vt), mi);
    } else if code == -12 {
      var id :| NewSlots(vn)[id] > NewRefs(mi, id);
    } else if code == -13 {
      TooFew(ListSlots(vt), mi);
    } else if code == -15 {
      var id :| NewSlots(vn)[id] != NewRefs(mi, id);
      assert NewSlots(vn)[id] < NewRefs(mi, id);
    }
  }

  lemma TooMany(slots: multiset<int>, mi: Infos)
    requires !(slots <= multiset(TriedIds(mi)))
    ensures exists id :: slots[id] > if id in mi && mi[id].fInTried then 1 else 0
  {
    Excess(slots, multiset(TriedIds(mi)));
    var id: int :| slots[id] > multiset(TriedIds(mi))[id];
  }

  lemma Excess(a: multiset<int>, b: multiset<int>)
    ensures a <= b || exists id: int :: a[id] > b[id]
  {
    if forall id: int :: a[id] <= b[id] {
      assert a <= b;
    }
  }

  lemma TooFew(slots: multiset<int>, mi: Infos)
    requires slots <= multiset(TriedIds(mi)) && slots != multiset(TriedIds(mi))
    ensures exists id :: id in mi && mi[id].fInTried && slots[id] == 0
  {
    Excess(multiset(TriedIds(mi)), slots);
    assert exists id: int :: multiset(TriedIds(mi))[id] > slots[id];
    var id: int :| multiset(TriedIds(mi))[id] > slots[id];
    assert id in TriedIds(mi);
  }

  /** The self-check; reading mapAddr may insert missing addresses with id zero. */
  method Check_(am: Manager) returns (code: int)
    modifies am`mapAddr
    ensures code == CheckCode(am.mapInfo, old(am.mapAddr), am.vRandom, am.vvTried, am.vvNew, am.nTried, am.nNew)
    ensures code == 0 <==> Passes(am.mapInfo, old(am.mapAddr), am.vRandom, am.vvTried, am.vvNew, am.nTried, am.nNew)
    ensures Explained(am.mapInfo, old(am.mapAddr), am.vRandom, am.vvTried, am.vvNew, am.nTried, am.nNew, code)
    ensures am.mapAddr == if code == -7 then old(am.mapAddr)
                          else Grown(old(am.mapAddr), HostsRead(am.mapInfo, old(am.mapAddr), am.vRandom, am.mapInfo.Keys))
    ensures AddrOk(am.mapInfo, old(am.mapAddr)) ==> am.mapAddr == old(am.mapAddr)
  {
    ghost var ma := am.mapAddr;
    CodeZeroIff(am.mapInfo, ma, am.vRandom, am.vvTried, am.vvNew, am.nTried, am.nNew);
    CodeExplained(am.mapInfo, ma, am.vRandom, am.vvTried, am.vvNew, am.nTried, am.nNew);
    if AddrOk(am.mapInfo, ma) {
      GrownSame(am.mapInfo, ma, am.vRandom, am.mapInfo.Keys);
    }
    var grown;
    code, grown := CheckTables(am.mapInfo, am.mapAddr, am.vRandom, am.vvTried, am.vvNew, am.nTried, am.nNew);
    am.mapAddr := grown;
  }

  method CheckTables(mi: Infos, ma: map<NetAddr, int>, vr: seq<int>, vt: seq<seq<int>>, vn: seq<set<int>>,
                     nTried: int, nNew: int)
    returns (code: int, grown: map<NetAddr, int>)
    ensures code == CheckCode(mi, ma, vr, vt, vn, nTried, nNew)
    ensures grown == if code == -7 then ma else Grown(ma, HostsRead(mi, ma, vr, mi.Keys))
  {
    if |vr| != nTried + nNew {
      return -7, ma;
    }
    var setTried, mapNew;
    ghost var ms := multiset{};
    NotSeven(mi, ma, vr, mi.Keys);
    code, setTried, mapNew, grown, ms := CheckEntries(mi, ma, vr);
    if code != 0 {
      return;
    }
    ExpectedCounts(mi, setTried, mapNew, ms);
    code := CheckBuckets(mi, setTried, mapNew, vt, vn, nTried, nNew, ms);
  }

  /** The tests on sizes and buckets. */
  method CheckBuckets(mi: Infos, setTried: set<int>, mapNew: map<int, int>, vt: seq<seq<int>>, vn: seq<set<int>>,
                      nTried: int, nNew: int, ghost ms: multiset<int>)
    returns (code: int)
    requires Expected(mi, mi.Keys, setTried, ms) && Tally(mapNew, ms)
    requires setTried == TriedIds(mi) && |mapNew| == |NewIds(mi)|
    ensures code != -7
    ensures code == if |TriedIds(mi)| != nTried then -9
                    else if |NewIds(mi)| != nNew then -10
                    else if !(ListSlots(vt) <= multiset(TriedIds(mi))) then -11
                    else if exists id :: NewSlots(vn)[id] > NewRefs(mi, id) then -12
                    else if ListSlots(vt) != multiset(TriedIds(mi)) then -13
                    else if exists id :: NewSlots(vn)[id] != NewRefs(mi, id) then -15
                    else 0
  {
    if |setTried| != nTried {
      return -9;
    }
    if |mapNew| != nNew {
      return -10;
    }
    var rest, left;
    code, rest := CheckTried(setTried, vt);
    if code != 0 {
      return;
    }
    code, left := CheckNew(mapNew, vn, ms);
    ExpectedSlots(mi, vn, setTried, ms);
    if code != 0 {
      return;
    }
    if rest != {} {
      return -13;
    }
    if left != map[] {
      return -15;
    }
  }

  lemma {:induction false} NotSeven(mi: Infos, ma: map<NetAddr, int>, vr: seq<int>, ids: set<int>)
    requires ids <= mi.Keys
    ensures FirstFault(mi, ma, vr, ids) != -7
    decreases ids
  {
    if ids != {} {
      NotSeven(mi, ma, vr, ids - {MinOf(ids)});
    }
  }

  lemma ExpectedCounts(mi: Infos, setTried: set<int>, mapNew: map<int, int>, ms: multiset<int>)
    requires Expected(mi, mi.Keys, setTried, ms) && Tally(mapNew, ms)
    requires forall id :: id in mi && !mi[id].fInTried ==> mi[id].nRefCount > 0
    ensures setTried == TriedIds(mi) && mapNew.Keys == NewIds(mi) && |mapNew| == |NewIds(mi)|
  {
    forall id
      ensures id in mapNew.Keys <==> id in NewIds(mi)
    {
      if id in NewIds(mi) {
        assert ms[id] == mi[id].nRefCount;
      }
    }
    assert mapNew.Keys == NewIds(mi);
    forall id
      ensures id in setTried <==> id in TriedIds(mi)
    {
      assert id in setTried <==> id in mi.Keys && mi[id].fInTried;
    }
  }

  lemma ExpectedSlots(mi: Infos, vn: seq<set<int>>, setTried: set<int>, ms: multiset<int>)
    requires Expected(mi, mi.Keys, setTried, ms)
    ensures NewSlots(vn) <= ms <==> forall id :: NewSlots(vn)[id] <= NewRefs(mi, id)
    ensures NewSlots(vn) == ms <==> forall id :: NewSlots(vn)[id] == NewRefs(mi, id)
  {
    forall id
      ensures ms[id] == NewRefs(mi, id)
    {
      assert id in ms ==> id in mi.Keys && !mi[id].fInTried;
      assert id in mi.Keys && !mi[id].fInTried ==> ms[id] == mi[id].nRefCount;
    }
    SameCounts(NewSlots(vn), ms, id => NewRefs(mi, id));
  }

  lemma SameCounts(found: multiset<int>, ms: multiset<int>, refs: int -> int)
    requires forall id :: ms[id] == refs(id)
    ensures found <= ms <==> forall id :: found[id] <= refs(id)
    ensures found == ms <==> forall id :: found[id] == refs(id)
  {
    if forall id :: found[id] <= refs(id) {
      assert forall id :: found[id] <= ms[id];
    }
    if forall id :: found[id] == refs(id) {
      assert forall id :: found[id] == ms[id];
    }
  }

  /** What the self-check does not look at: bucket limits, id range, and addresses that mapAddr lacks or has too many. */
  ghost predicate Unchecked(mi: Infos, ma: map<NetAddr, int>, vt: seq<seq<int>>, vn: seq<set<int>>, nIdCount: int)
  {
    && |vt| == TRIED_BUCKET_COUNT && (forall b :: 0 <= b < |vt| ==> |vt[b]| <= TRIED_BUCKET_SIZE)
    && |vn| == NEW_BUCKET_COUNT && (forall b :: 0 <= b < |vn| ==> |vn[b]| <= NEW_BUCKET_SIZE)
    && (forall a :: a in ma ==> ma[a] in mi && mi[ma[a]].service.host == a)
    && (forall id :: id in mi ==> mi[id].service.host in ma && 0 <= id < nIdCount)
  }

  /** The self-check passes on consistent tables with proper times, and only on those, up to what it does not look at. */
  lemma {:induction false} CheckDecidesConsistency(mi: Infos, ma: map<NetAddr, int>, vr: seq<int>, vt: seq<seq<int>>,
                                                   vn: seq<set<int>>, nIdCount: int, nTried: int, nNew: int)
    ensures Consistent(mi, ma, vr, vt, vn, nIdCount, nTried, nNew, {}) && TimesOk(mi) <==>
            Passes(mi, ma, vr, vt, vn, nTried, nNew) && Unchecked(mi, ma, vt, vn, nIdCount)
  {
    if Consistent(mi, ma, vr, vt, vn, nIdCount, nTried, nNew, {}) && TimesOk(mi) {
      ConsistentPasses(mi, ma, vr, vt, vn, nIdCount, nTried, nNew);
    }
    if Passes(mi, ma, vr, vt, vn, nTried, nNew) && Unchecked(mi, ma, vt, vn, nIdCount) {
      PassesConsistent(mi, ma, vr, vt, vn, nIdCount, nTried, nNew);
    }
  }

  lemma {:induction false} ConsistentPasses(mi: Infos, ma: map<NetAddr, int>, vr: seq<int>, vt: seq<seq<int>>,
                                            vn: seq<set<int>>, nIdCount: int, nTried: int, nNew: int)
    requires Consistent(mi, ma, vr, vt, vn, nIdCount, nTried, nNew, {}) && TimesOk(mi)
    ensures Passes(mi, ma, vr, vt, vn, nTried, nNew) && Unchecked(mi, ma, vt, vn, nIdCount)
  {
    TablesBounded(mi, vr, vt, vn, nIdCount, nTried, nNew);
    forall id | id in mi
      ensures EntryCode(id, mi[id], ma, vr) == 0
    {
      assert RefOk(mi[id]) && TimeOk(mi[id]);
    }
    forall id
      ensures NewSlots(vn)[id] == NewRefs(mi, id)
    {
      assert NewSlots(vn)[id] == Owed(mi, {}, id);
      assert id in mi ==> RefOk(mi[id]);
    }
  }

  lemma {:induction false} PassesConsistent(mi: Infos, ma: map<NetAddr, int>, vr: seq<int>, vt: seq<seq<int>>,
                                            vn: seq<set<int>>, nIdCount: int, nTried: int, nNew: int)
    requires Passes(mi, ma, vr, vt, vn, nTried, nNew) && Unchecked(mi, ma, vt, vn, nIdCount)
    ensures Consistent(mi, ma, vr, vt, vn, nIdCount, nTried, nNew, {}) && TimesOk(mi)
  {
    RolesPartition(mi);
    forall id | id in mi
      ensures 0 <= mi[id].nRandomPos < |vr| && vr[mi[id].nRandomPos] == id && RefOk(mi[id]) && TimeOk(mi[id])
      ensures mi[id].service.host in ma && ma[mi[id].service.host] == id
    {
      assert EntryCode(id, mi[id], ma, vr) == 0;
    }
    PlacesCover(mi, vr);
    forall id
      ensures NewSlots(vn)[id] == Owed(mi, {}, id)
    {
      assert NewSlots(vn)[id] == NewRefs(mi, id);
    }
  }

  ghost function Places(mi: Infos, ids: set<int>): set<int>
    requires ids <= mi.Keys
  {
    set id | id in ids :: mi[id].nRandomPos
  }

  lemma {:induction false} PlacesCount(mi: Infos, vr: seq<int>, ids: set<int>)
    requires ids <= mi.Keys
    requires forall id :: id in mi ==> 0 <= mi[id].nRandomPos < |vr| && vr[mi[id].nRandomPos] == id
    ensures |Places(mi, ids)| == |ids|
    decreases ids
  {
    if ids == {} {
      assert Places(mi, ids) == {};
    } else {
      var id := MinOf(ids);
      PlacesCount(mi, vr, ids - {id});
      assert mi[id].nRandomPos !in Places(mi, ids - {id});
      assert Places(mi, ids) == Places(mi, ids - {id}) + {mi[id].nRandomPos};
    }
  }

  ghost function Below(n: nat): (r: set<int>)
    ensures forall i :: i in r <==> 0 <= i < n
    ensures |r| == n
  {
    if n == 0 then {} else Below(n - 1) + {n - 1}
  }

  /** As many entries as places, each at its own place: then every place is taken by the entry it names. */
  lemma {:induction false} PlacesCover(mi: Infos, vr: seq<int>)
    requires forall id :: id in mi ==> 0 <= mi[id].nRandomPos < |vr| && vr[mi[id].nRandomPos] == id
    requires |vr| == |mi.Keys|
    ensures RandomOk(mi, vr)
  {
    PlacesCount(mi, vr, mi.Keys);
    FullSubset(Places(mi, mi.Keys), Below(|vr|));
    forall i | 0 <= i < |vr|
      ensures vr[i] in mi && mi[vr[i]].nRandomPos == i
    {
      assert i in Places(mi, mi.Keys);
    }
  }

  lemma FullSubset(a: set<int>, b: set<int>)
    requires a <= b && |a| == |b|
    ensures a == b
  {
    assert b == a + (b - a);
    assert |b - a| == 0;
  }

  /** After any run with clock times the self-check reports nothing. */
  method RunAndCheck(ops: seq<Op>, triedBucket: Service -> TriedIndex, newBucket: (NetAddr, NetAddr) -> NewIndex,
                     routable: NetAddr -> bool, defaultPort: nat) returns (code: int)
    ensures (forall i :: 0 <= i < |ops| ==> OpTimeOk(ops[i])) ==> code == 0
  {
    var am := Run(ops, triedBucket, newBucket, routable, defaultPort);
    CheckDecidesConsistency(am.mapInfo, am.mapAddr, am.vRandom, am.vvTried, am.vvNew, am.nIdCount, am.nTried, am.nNew);
    code := Check_(am);
  }
}
