/**
 Whole runs of the address manager: every sequence of operations keeps the tables
 consistent and bounded; and the two recounts that selection falls back on.
 */
module AddrRuns {
  import opened Wrappers
  import opened AddrTables
  import opened AddrManager
  import opened AddrHomes

  // ----- sizes -----

  function ListTotal(vt: seq<seq<int>>): nat
  {
    if vt == [] then 0 else |vt[0]| + ListTotal(vt[1..])
  }

  function NewTotal(vn: seq<set<int>>): nat
  {
    if vn == [] then 0 else |vn[0]| + NewTotal(vn[1..])
  }

  lemma {:induction false} ListSlotCount(vt: seq<seq<int>>)
    ensures |ListSlots(vt)| == ListTotal(vt)
  {
    if vt != [] {
      ListSlotCount(vt[1..]);
    }
  }

  lemma {:induction false} NewSlotCount(vn: seq<set<int>>)
    ensures |NewSlots(vn)| == NewTotal(vn)
  {
    if vn != [] {
      NewSlotCount(vn[1..]);
    }
  }

  lemma {:induction false} ListTotalBound(vt: seq<seq<int>>, limit: nat)
    requires forall b :: 0 <= b < |vt| ==> |vt[b]| <= limit
    ensures ListTotal(vt) <= |vt| * limit
  {
    if vt != [] {
      ListTotalBound(vt[1..], limit);
      assert |vt| * limit == limit + |vt[1..]| * limit;
    }
  }

  lemma {:induction false} NewTotalBound(vn: seq<set<int>>, limit: nat)
    requires forall b :: 0 <= b < |vn| ==> |vn[b]| <= limit
    ensures NewTotal(vn) <= |vn| * limit
  {
    if vn != [] {
      NewTotalBound(vn[1..], limit);
      assert |vn| * limit == limit + |vn[1..]| * limit;
    }
  }

  /** New entries have at least one slot each. */
  lemma {:induction false} NewIdsHaveSlots(mi: Infos, vn: seq<set<int>>, nIdCount: int)
    requires NewOk(mi, vn, {}) && EntriesOk(mi, nIdCount)
    ensures multiset(NewIds(mi)) <= NewSlots(vn)
  {
    forall id | id in NewIds(mi)
      ensures NewSlots(vn)[id] >= 1
    {
      assert NewSlots(vn)[id] == Owed(mi, {}, id);
    }
  }

  lemma MultisetCardinality(a: multiset<int>, b: multiset<int>)
    requires a <= b
    ensures |a| <= |b| && (|a| == |b| <==> a == b)
  {
    assert b == a + (b - a);
    if a != b {
      assert b - a != multiset{} by {
        assert b - a == multiset{} ==> a + (b - a) == a;
      }
    }
  }

  /** A sequence without repetitions has as many elements as the set of them. */
  lemma {:induction false} DistinctCount(s: seq<int>, keys: set<int>)
    requires forall i, j :: 0 <= i < j < |s| ==> s[i] != s[j]
    requires forall x :: x in keys <==> x in s
    ensures |s| == |keys|
  {
    if s == [] {
      forall x: int
        ensures x !in keys
      {
        assert x !in s;
      }
      assert keys == {};
    } else {
      DistinctCount(s[1..], keys - {s[0]});
    }
  }

  lemma {:induction false} RandomCount(mi: Infos, vr: seq<int>)
    requires RandomOk(mi, vr)
    ensures |vr| == |mi.Keys|
  {
    forall i, j | 0 <= i < j < |vr|
      ensures vr[i] != vr[j]
    {
      assert mi[vr[i]].nRandomPos == i && mi[vr[j]].nRandomPos == j;
    }
    forall x
      ensures x in mi.Keys <==> x in vr
    {
      if x in mi {
        assert vr[mi[x].nRandomPos] == x;
      }
    }
    DistinctCount(vr, mi.Keys);
  }

  lemma {:induction false} RolesPartition(mi: Infos)
    ensures |TriedIds(mi)| + |NewIds(mi)| == |mi.Keys|
  {
    assert TriedIds(mi) + NewIds(mi) == mi.Keys;
    assert TriedIds(mi) !! NewIds(mi);
  }

  /** The counters are the sizes of the tables, and the bucket limits bound the whole. */
  lemma {:induction false} TablesBounded(mi: Infos, vr: seq<int>, vt: seq<seq<int>>, vn: seq<set<int>>,
                                         nIdCount: int, nTried: int, nNew: int)
    requires RandomOk(mi, vr) && NewOk(mi, vn, {}) && TriedOk(mi, vt)
    requires EntriesOk(mi, nIdCount) && CountersOk(mi, nTried, nNew)
    ensures |vr| == |mi.Keys| == nTried + nNew
    ensures nTried == ListTotal(vt) <= TRIED_BUCKET_COUNT * TRIED_BUCKET_SIZE
    ensures nNew <= NewTotal(vn) <= NEW_BUCKET_COUNT * NEW_BUCKET_SIZE
  {
    RandomCount(mi, vr);
    RolesPartition(mi);
    ListSlotCount(vt);
    ListTotalBound(vt, TRIED_BUCKET_SIZE);
    NewIdsHaveSlots(mi, vn, nIdCount);
    MultisetCardinality(multiset(NewIds(mi)), NewSlots(vn));
    NewSlotCount(vn);
    NewTotalBound(vn, NEW_BUCKET_SIZE);
  }

  // ----- runs -----

  datatype Op =
    | OpAdd(addr: Address, source: NetAddr, nTimePenalty: int, now: int)
    | OpGood(service: Service, nTime: int)
    | OpAttempt(service: Service, nTime: int)
    | OpConnected(service: Service, nTime: int)
    | OpGetAddr

  /** Times handed to the manager come from a clock: attempts not before time zero, successes after it. */
  predicate OpTimeOk(op: Op)
  {
    match op
    case OpGood(_, nTime) => nTime > 0
    case OpAttempt(_, nTime) => nTime >= 0
    case _ => true
  }

  /** The service that an operation brings news of, if any. */
  function HeardOf(op: Op, routable: NetAddr -> bool): (s: Option<Service>)
  {
    if op.OpAdd? && routable(op.addr.service.host) then Some(op.addr.service) else None
  }

  /** Entries leave their homes only as their services change. */
  ghost predicate HomeLaw(mi: Infos, vt: seq<seq<int>>, m: Infos, vt': seq<seq<int>>, triedBucket: Service -> TriedIndex)
  {
    Homed(mi, vt, triedBucket) ==> (Homed(m, vt', triedBucket) <==> HomesStay(mi, m, triedBucket))
  }

  /** One operation of any kind, with any random choices. */
  method Apply(am: Manager, op: Op)
    requires am.Valid()
    modifies am
    ensures am.Valid() && (OpTimeOk(op) && TimesOk(old(am.mapInfo)) ==> TimesOk(am.mapInfo))
    ensures ServicesAfter(old(am.mapInfo), am.mapInfo, HeardOf(op, am.routable), am.defaultPort)
    ensures HomeLaw(old(am.mapInfo), old(am.vvTried), am.mapInfo, am.vvTried, am.triedBucket)
  {
    match op
    case OpAdd(addr, source, penalty, now) =>
      ApplyAdd(am, addr, source, penalty, now);
    case OpGood(service, time) =>
      ApplyGood(am, service, time);
    case OpAttempt(service, time) =>
      am.Attempt_(service, time);
      StatisticsOnly(old(am.mapInfo), am.mapInfo, am.vvTried, am.triedBucket, am.defaultPort);
    case OpConnected(service, time) =>
      am.Connected_(service, time);
      StatisticsOnly(old(am.mapInfo), am.mapInfo, am.vvTried, am.triedBucket, am.defaultPort);
    case OpGetAddr =>
      var vAddr := am.GetAddr_();
      PlacesTimes(old(am.mapInfo), am.mapInfo);
      PlacesServices(old(am.mapInfo), am.mapInfo);
      StatisticsOnly(old(am.mapInfo), am.mapInfo, am.vvTried, am.triedBucket, am.defaultPort);
  }

  lemma PlacesServices(a: Infos, b: Infos)
    requires b.Keys == a.Keys && EntriesKept(a, b, {})
    ensures forall id :: id in b ==> id in a && b[id].service == a[id].service && b[id].fInTried == a[id].fInTried
  {
    forall id | id in b
      ensures id in a && b[id].service == a[id].service && b[id].fInTried == a[id].fInTried
    {
      assert id in b.Keys;
      assert id in a && SameEntry(a[id], b[id]);
    }
  }

  /** Services and tables are as they were. */
  lemma {:induction false} StatisticsOnly(mi: Infos, m: Infos, vt: seq<seq<int>>, triedBucket: Service -> TriedIndex, defaultPort: nat)
    requires m.Keys == mi.Keys
    requires forall id :: id in m ==> id in mi && m[id].service == mi[id].service && m[id].fInTried == mi[id].fInTried
    ensures ServicesAfter(mi, m, None, defaultPort) && HomeLaw(mi, vt, m, vt, triedBucket)
  {
    ServicesSame(mi, m, defaultPort);
  }

  method ApplyAdd(am: Manager, addr: Address, source: NetAddr, penalty: int, now: int)
    requires am.Valid()
    modifies am
    ensures am.Valid() && (TimesOk(old(am.mapInfo)) ==> TimesOk(am.mapInfo))
    ensures ServicesAfter(old(am.mapInfo), am.mapInfo, if am.routable(addr.service.host) then Some(addr.service) else None,
                          am.defaultPort)
    ensures HomeLaw(old(am.mapInfo), old(am.vvTried), am.mapInfo, am.vvTried, am.triedBucket)
  {
    var fNew;
    ghost var lost, touched, draw;
    ghost var mi, ma, vn, vt := am.mapInfo, am.mapAddr, am.vvNew, am.vvTried;
    ghost var b := am.newBucket(addr.service.host, source);
    ghost var nextId := am.nIdCount;
    fNew, lost, touched, draw := am.Add_(addr, source, penalty, now);
    if fNew {
      ServicesUnknown(mi, ma, am.mapInfo, addr, am.defaultPort, vn[b], now, touched, nextId);
    } else if am.routable(addr.service.host) {
      ghost var id := ma[addr.service.host];
      ghost var r := Refreshed(mi[id], addr, penalty, now, am.defaultPort);
      ServicesKnown(mi, ma, am.mapInfo, addr, penalty, now, am.defaultPort, vn[b], touched,
                    id !in vn[b] && MayGain(r, addr) && draw == 0);
    }
    SameTried(mi, am.mapInfo, vt);
    if Homed(mi, vt, am.triedBucket) {
      HomedIff(mi, am.mapInfo, vt, am.triedBucket);
    }
  }

  /** The tried table says which entries are tried. */
  lemma {:induction false} SameTried(mi: Infos, m: Infos, vt: seq<seq<int>>)
    requires TriedOk(mi, vt) && TriedOk(m, vt)
    ensures forall id :: id in m && m[id].fInTried <==> id in mi && mi[id].fInTried
  {
    forall id
      ensures id in TriedIds(m) <==> id in TriedIds(mi)
    {
      assert id in multiset(TriedIds(m)) <==> id in multiset(TriedIds(mi));
    }
    forall id
      ensures id in m && m[id].fInTried <==> id in mi && mi[id].fInTried
    {
      assert id in TriedIds(m) <==> id in TriedIds(mi);
    }
  }

  method ApplyGood(am: Manager, service: Service, time: int)
    requires am.Valid()
    modifies am
    ensures am.Valid() && (time > 0 && TimesOk(old(am.mapInfo)) ==> TimesOk(am.mapInfo))
    ensures ServicesAfter(old(am.mapInfo), am.mapInfo, None, am.defaultPort)
    ensures HomeLaw(old(am.mapInfo), old(am.vvTried), am.mapInfo, am.vvTried, am.triedBucket)
  {
    ghost var mi, vt := am.mapInfo, am.vvTried;
    ghost var e, origin := am.Good_(service, time);
    if Known(mi, am.mapAddr, service) {
      ghost var id := am.mapAddr[service.host];
      ghost var seen := mi[id := Succeeded(mi[id], time)];
      if time > 0 && TimesOk(mi) {
        assert TimesOk(seen);
        if !mi[id].fInTried {
          TriedTimes(seen, am.mapInfo, id, OutOf(e));
        }
      }
      if mi[id].fInTried {
        StatisticsOnly(mi, am.mapInfo, vt, am.triedBucket, am.defaultPort);
      } else {
        GoodHomes(mi, seen, am.mapInfo, vt, am.vvTried, id, e, am.triedBucket, am.defaultPort);
      }
    } else {
      StatisticsOnly(mi, am.mapInfo, vt, am.triedBucket, am.defaultPort);
    }
  }

  lemma {:induction false} GoodHomes(mi: Infos, seen: Infos, m: Infos, vt: seq<seq<int>>, vt': seq<seq<int>>, id: int,
                                     e: Option<Eviction>, triedBucket: Service -> TriedIndex, defaultPort: nat)
    requires id in mi && id in seen && seen == mi[id := seen[id]] && seen[id].service == mi[id].service
    requires seen[id].fInTried == mi[id].fInTried && MadeTried(seen, m, id, OutOf(e))
    requires TriedTook(seen, vt, vt', triedBucket(seen[id].service), id, e)
    ensures ServicesAfter(mi, m, None, defaultPort) && HomeLaw(mi, vt, m, vt', triedBucket)
  {
    assert forall x :: x in m ==> x in mi && m[x].service == mi[x].service;
    ServicesSame(mi, m, defaultPort);
    if Homed(mi, vt, triedBucket) {
      MadeHomed(seen, m, vt, vt', id, e, triedBucket);
    }
  }

  lemma TriedTimes(a: Infos, b: Infos, id: int, evicted: Option<int>)
    requires MadeTried(a, b, id, evicted) && TimesOk(a) && a[id].nLastSuccess != 0
    ensures TimesOk(b)
  {
  }

  lemma PlacesTimes(a: Infos, b: Infos)
    requires b.Keys == a.Keys && EntriesKept(a, b, {})
    ensures TimesOk(a) ==> TimesOk(b)
  {
    if TimesOk(a) {
      forall i | i in b
        ensures TimeOk(b[i])
      {
        assert i in b.Keys;
        assert i in a && SameEntry(a[i], b[i]) && TimeOk(a[i]);
      }
    }
  }

  /** A host is always heard of with the same port. */
  predicate OnePort(ops: seq<Op>)
  {
    forall i, j :: 0 <= i < |ops| && 0 <= j < |ops| && ops[i].OpAdd? && ops[j].OpAdd? ==>
      ops[i].addr.service.host == ops[j].addr.service.host ==> ops[i].addr.service == ops[j].addr.service
  }

  /** The service of every entry was heard of. */
  ghost predicate AllHeardOf(mi: Infos, ops: seq<Op>, n: nat)
  {
    forall id :: id in mi ==> exists i :: 0 <= i < n <= |ops| && ops[i].OpAdd? && ops[i].addr.service == mi[id].service
  }

  /** With one port for each host no service changes. */
  lemma {:induction false} NoneMoves(mi: Infos, m: Infos, ops: seq<Op>, n: nat, routable: NetAddr -> bool, defaultPort: nat,
                                     triedBucket: Service -> TriedIndex)
    requires n < |ops| && OnePort(ops) && AllHeardOf(mi, ops, n)
    requires ServicesAfter(mi, m, HeardOf(ops[n], routable), defaultPort)
    ensures HomesStay(mi, m, triedBucket) && AllHeardOf(m, ops, n + 1)
  {
    forall id | id in m
      ensures exists i :: 0 <= i < n + 1 && ops[i].OpAdd? && ops[i].addr.service == m[id].service
      ensures id in mi ==> m[id].service == mi[id].service
    {
      if id in mi {
        var i :| 0 <= i < n && ops[i].OpAdd? && ops[i].addr.service == mi[id].service;
        assert m[id].service == mi[id].service;
      } else {
        assert ops[n].OpAdd? && ops[n].addr.service == m[id].service;
      }
    }
  }

  /**
   Any run of operations, with any random choices, ends in consistent tables of bounded size, and
   with every tried entry in its home if no host was heard of with two ports.
   */
  method Run(ops: seq<Op>, triedBucket: Service -> TriedIndex, newBucket: (NetAddr, NetAddr) -> NewIndex,
             routable: NetAddr -> bool, defaultPort: nat) returns (am: Manager)
    ensures fresh(am) && am.Valid() && am.triedBucket == triedBucket
    ensures |am.mapInfo.Keys| == |am.vRandom| == am.nTried + am.nNew
    ensures |am.vRandom| <= 64 * 64 + 256 * 64
    ensures (forall i :: 0 <= i < |ops| ==> OpTimeOk(ops[i])) ==> TimesOk(am.mapInfo)
    ensures OnePort(ops) ==> Homed(am.mapInfo, am.vvTried, triedBucket) && AllHeardOf(am.mapInfo, ops, |ops|)
  {
    am := new Manager(triedBucket, newBucket, routable, defaultPort);
    for i := 0 to |ops|
      invariant fresh(am) && am.Valid() && am.triedBucket == triedBucket
      invariant (forall j :: 0 <= j < i ==> OpTimeOk(ops[j])) ==> TimesOk(am.mapInfo)
      invariant OnePort(ops) ==> Homed(am.mapInfo, am.vvTried, triedBucket) && AllHeardOf(am.mapInfo, ops, i)
    {
      ghost var mi := am.mapInfo;
      Apply(am, ops[i]);
      if OnePort(ops) {
        NoneMoves(mi, am.mapInfo, ops, i, am.routable, am.defaultPort, triedBucket);
      }
    }
    TablesBounded(am.mapInfo, am.vRandom, am.vvTried, am.vvNew, am.nIdCount, am.nTried, am.nNew);
  }

  // ----- the recounts of Select_ -----

  /** Recounting the tried entries changes nothing. */
  method RecountTried(am: Manager)
    requires am.Valid()
    modifies am`nTried
    ensures am.nTried == old(am.nTried) && am.Valid()
  {
    TablesBounded(am.mapInfo, am.vRandom, am.vvTried, am.vvNew, am.nIdCount, am.nTried, am.nNew);
    var total := 0;
    for n := 0 to |am.vvTried|
      invariant am.Valid() && am.nTried == old(am.nTried) == ListTotal(am.vvTried)
      invariant total + ListTotal(am.vvTried[n..]) == ListTotal(am.vvTried)
    {
      assert am.vvTried[n..][1..] == am.vvTried[n + 1..];
      total := total + |am.vvTried[n]|;
    }
    am.nTried := total;
  }

  /** Sum of the reference counts of some entries. */
  ghost function RefSum(mi: Infos, ids: set<int>): int
    requires ids <= mi.Keys
  {
    if ids == {} then 0 else
    var id := MinOf(ids);
    mi[id].nRefCount + RefSum(mi, ids - {id})
  }

  lemma {:induction false} SlotsSum(mi: Infos, slots: multiset<int>, ids: set<int>)
    requires ids <= mi.Keys
    requires forall id :: id in ids ==> slots[id] == mi[id].nRefCount
    requires forall id :: id in slots ==> id in ids
    ensures |slots| == RefSum(mi, ids)
    decreases ids
  {
    if ids == {} {
      forall id: int
        ensures slots[id] == 0
      {
        assert id !in ids;
      }
      assert slots == multiset{};
    } else {
      var id := MinOf(ids);
      var rest := slots[id := 0];
      assert |slots| == |rest| + slots[id];
      SlotsSum(mi, rest, ids - {id});
    }
  }

  /**
   Recounting the new entries adds up bucket sizes: the result is the sum of the reference
   counts, so consistency survives exactly when no new entry is in more than one bucket.
   */
  method RecountNew(am: Manager)
    requires am.Valid()
    modifies am`nNew
    ensures am.mapInfo == old(am.mapInfo) && am.nNew == RefSum(am.mapInfo, NewIds(am.mapInfo))
    ensures am.Valid() <==> forall id :: id in am.mapInfo && !am.mapInfo[id].fInTried ==> am.mapInfo[id].nRefCount == 1
  {
    var total := 0;
    for n := 0 to |am.vvNew|
      invariant am.Valid() && am.nNew == old(am.nNew)
      invariant total + NewTotal(am.vvNew[n..]) == NewTotal(am.vvNew)
    {
      assert am.vvNew[n..][1..] == am.vvNew[n + 1..];
      total := total + |am.vvNew[n]|;
    }
    RecountIsRefSum(am.mapInfo, am.vvNew, am.nIdCount);
    RecountExact(am.mapInfo, am.vvNew, am.nIdCount);
    am.nNew := total;
  }

  lemma {:induction false} RecountIsRefSum(mi: Infos, vn: seq<set<int>>, nIdCount: int)
    requires NewOk(mi, vn, {}) && EntriesOk(mi, nIdCount)
    ensures NewTotal(vn) == RefSum(mi, NewIds(mi))
  {
    NewSlotCount(vn);
    forall id | id in NewIds(mi)
      ensures NewSlots(vn)[id] == mi[id].nRefCount
    {
      assert NewSlots(vn)[id] == Owed(mi, {}, id);
    }
    forall id | id in NewSlots(vn)
      ensures id in NewIds(mi)
    {
      assert NewSlots(vn)[id] == Owed(mi, {}, id);
    }
    SlotsSum(mi, NewSlots(vn), NewIds(mi));
  }

  lemma {:induction false} RecountExact(mi: Infos, vn: seq<set<int>>, nIdCount: int)
    requires NewOk(mi, vn, {}) && EntriesOk(mi, nIdCount)
    ensures NewTotal(vn) == |NewIds(mi)| <==> forall id :: id in mi && !mi[id].fInTried ==> mi[id].nRefCount == 1
  {
    NewSlotCount(vn);
    NewIdsHaveSlots(mi, vn, nIdCount);
    MultisetCardinality(multiset(NewIds(mi)), NewSlots(vn));
    if NewSlots(vn) == multiset(NewIds(mi)) {
      forall id | id in mi && !mi[id].fInTried
        ensures mi[id].nRefCount == 1
      {
        assert NewSlots(vn)[id] == Owed(mi, {}, id);
        assert id in NewIds(mi);
      }
    }
    if forall id :: id in mi && !mi[id].fInTried ==> mi[id].nRefCount == 1 {
      forall id
        ensures NewSlots(vn)[id] == multiset(NewIds(mi))[id]
      {
        assert NewSlots(vn)[id] == Owed(mi, {}, id);
      }
    }
  }

  /** Two references make the recount wrong: one entry, in any two of the new buckets, is counted twice. */
  lemma {:induction false} CountedTwice(info: AddrInfo, b: NewIndex, c: NewIndex, vt: seq<seq<int>>, vn: seq<set<int>>)
    requires b != c && !info.fInTried && info.nRefCount == 2 && info.nRandomPos == 0
    requires |vt| == TRIED_BUCKET_COUNT && forall i :: 0 <= i < |vt| ==> vt[i] == []
    requires |vn| == NEW_BUCKET_COUNT && forall i :: 0 <= i < |vn| ==> vn[i] == if i == b || i == c then {0} else {}
    ensures Consistent(map[0 := info], map[info.service.host := 0], [0], vt, vn, 1, 0, 1, {})
    ensures NewTotal(vn) == 2 && !CountersOk(map[0 := info], 0, NewTotal(vn))
  {
    EmptyListSlots(vt);
    TwoSlots(b, c, vn);
    NewSlotCount(vn);
    assert TriedIds(map[0 := info]) == {} && NewIds(map[0 := info]) == {0};
  }

  lemma {:induction false} TwoSlots(b: NewIndex, c: NewIndex, vn: seq<set<int>>)
    requires b != c && |vn| == NEW_BUCKET_COUNT
    requires forall i :: 0 <= i < |vn| ==> vn[i] == if i == b || i == c then {0} else {}
    ensures NewSlots(vn) == multiset{0, 0}
  {
    var one: seq<set<int>> := vn[c := {}];
    OneSlot(b, one);
    NewSlotsUpdate(one, c, {0});
    assert vn == one[c := {0}];
  }

  lemma {:induction false} OneSlot(b: NewIndex, vn: seq<set<int>>)
    requires |vn| == NEW_BUCKET_COUNT && forall i :: 0 <= i < |vn| ==> vn[i] == if i == b then {0} else {}
    ensures NewSlots(vn) == multiset{0}
  {
    var none: seq<set<int>> := vn[b := {}];
    EmptyNewSlots(none);
    NewSlotsUpdate(none, b, {0});
    assert vn == none[b := {0}];
  }
}
