/**
 The tables of the address manager as values: entries, buckets, the consistency predicate,
 and one lemma for each way in which the operations change the tables.
 */
module AddrTables {

  const TRIED_BUCKET_COUNT: nat := 64
  const TRIED_BUCKET_SIZE: nat := 64
  const NEW_BUCKET_COUNT: nat := 256
  const NEW_BUCKET_SIZE: nat := 64
  const NEW_BUCKETS_PER_ADDRESS: nat := 4
  const TRIED_ENTRIES_INSPECT_ON_EVICT: nat := 4
  const HORIZON_DAYS: nat := 30
  const RETRIES: nat := 3
  const MAX_FAILURES: nat := 10
  const MIN_FAIL_DAYS: nat := 7
  const GETADDR_MAX_PCT: nat := 100
  const GETADDR_MAX: nat := 2500

  datatype NetAddr = NetAddr(ip: nat)

  datatype Service = Service(host: NetAddr, port: nat)

  /** An address as received from the network, with its time stamp. */
  datatype Address = Address(service: Service, nServices: set<nat>, nTime: nat)

  datatype AddrInfo = AddrInfo(
    service: Service, nServices: set<nat>, nTime: nat, source: NetAddr,
    nLastSuccess: int, nLastTry: int, nAttempts: int,
    nRefCount: int, fInTried: bool, nRandomPos: int)

  type TriedIndex = i: nat | i < TRIED_BUCKET_COUNT
  type NewIndex = i: nat | i < NEW_BUCKET_COUNT

  type Infos = map<int, AddrInfo>

  /** Statistics bad enough for an entry of the new table to be dropped. */
  predicate IsTerrible(info: AddrInfo, now: int)
  {
    if info.nLastTry != 0 && info.nLastTry >= now - 60 then false
    else if info.nTime > now + 10 * 60 then true
    else if info.nTime == 0 || now - info.nTime > HORIZON_DAYS * 86400 then true
    else if info.nLastSuccess == 0 && info.nAttempts >= RETRIES then true
    else now - info.nLastSuccess > MIN_FAIL_DAYS * 86400 && info.nAttempts >= MAX_FAILURES
  }

  // ----- consistency -----

  ghost function TriedIds(mi: Infos): set<int>
  {
    set id | id in mi && mi[id].fInTried
  }

  ghost function NewIds(mi: Infos): set<int>
  {
    set id | id in mi && !mi[id].fInTried
  }

  /** All slots of the new table together; the multiplicity of an id is the number of buckets holding it. */
  ghost function NewSlots(vn: seq<set<int>>): multiset<int>
  {
    if vn == [] then multiset{} else multiset(vn[0]) + NewSlots(vn[1..])
  }

  /** All slots of a table of lists together, such as the tried table. */
  ghost function ListSlots(vt: seq<seq<int>>): multiset<int>
  {
    if vt == [] then multiset{} else multiset(vt[0]) + ListSlots(vt[1..])
  }

  /** vRandom lists every id once, and each entry knows its place in it. */
  ghost predicate RandomOk(mi: Infos, vr: seq<int>)
  {
    && (forall i :: 0 <= i < |vr| ==> vr[i] in mi && mi[vr[i]].nRandomPos == i)
    && (forall id :: id in mi ==> 0 <= mi[id].nRandomPos < |vr| && vr[mi[id].nRandomPos] == id)
  }

  /** mapAddr and mapInfo are inverse to one another. */
  ghost predicate AddrOk(mi: Infos, ma: map<NetAddr, int>)
  {
    && (forall a :: a in ma ==> ma[a] in mi && mi[ma[a]].service.host == a)
    && (forall id :: id in mi ==> mi[id].service.host in ma && ma[mi[id].service.host] == id)
  }

  /** The new buckets are within bounds, and reference counts count them; ids in `pending` are owed one slot. */
  ghost predicate NewOk(mi: Infos, vn: seq<set<int>>, pending: set<int>)
  {
    && |vn| == NEW_BUCKET_COUNT
    && (forall b :: 0 <= b < |vn| ==> |vn[b]| <= NEW_BUCKET_SIZE)
    && forall id :: NewSlots(vn)[id] == Owed(mi, pending, id)
  }

  ghost function Owed(mi: Infos, pending: set<int>, id: int): int
  {
    if id in mi then mi[id].nRefCount - (if id in pending then 1 else 0) else 0
  }

  /** The tried buckets are within bounds, and their slots are exactly the tried ids, each once. */
  ghost predicate TriedOk(mi: Infos, vt: seq<seq<int>>)
  {
    && |vt| == TRIED_BUCKET_COUNT
    && (forall b :: 0 <= b < |vt| ==> |vt[b]| <= TRIED_BUCKET_SIZE)
    && ListSlots(vt) == multiset(TriedIds(mi))
  }

  /** An entry is either tried, without references, or new with one to four of them. */
  predicate RefOk(info: AddrInfo)
  {
    if info.fInTried then info.nRefCount == 0 else 1 <= info.nRefCount <= NEW_BUCKETS_PER_ADDRESS
  }

  ghost predicate EntriesOk(mi: Infos, nIdCount: int)
  {
    forall id :: id in mi ==> 0 <= id < nIdCount && RefOk(mi[id])
  }

  /** As EntriesOk, but one entry may have any number of references below the limit. */
  ghost predicate EntriesOkBut(mi: Infos, nIdCount: int, id: int)
  {
    && (forall i :: i in mi ==> 0 <= i < nIdCount && (i == id || RefOk(mi[i])))
    && id in mi && !mi[id].fInTried && 0 <= mi[id].nRefCount < NEW_BUCKETS_PER_ADDRESS
  }

  ghost predicate CountersOk(mi: Infos, nTried: int, nNew: int)
  {
    nTried == |TriedIds(mi)| && nNew == |NewIds(mi)|
  }

  /** The whole consistency predicate; ids in `pending` are owed one new slot. */
  ghost predicate Consistent(mi: Infos, ma: map<NetAddr, int>, vr: seq<int>, vt: seq<seq<int>>, vn: seq<set<int>>,
                             nIdCount: int, nTried: int, nNew: int, pending: set<int>)
  {
    && RandomOk(mi, vr)
    && AddrOk(mi, ma)
    && NewOk(mi, vn, pending)
    && TriedOk(mi, vt)
    && EntriesOk(mi, nIdCount)
    && CountersOk(mi, nTried, nNew)
  }

  // ----- slots of the tables -----

  lemma {:induction false} NewSlotsUpdate(vn: seq<set<int>>, b: nat, s: set<int>)
    requires b < |vn|
    ensures multiset(vn[b]) <= NewSlots(vn)
    ensures NewSlots(vn[b := s]) == NewSlots(vn) - multiset(vn[b]) + multiset(s)
  {
    if b == 0 {
      assert vn[0 := s][1..] == vn[1..];
    } else {
      NewSlotsUpdate(vn[1..], b - 1, s);
      assert vn[b := s][1..] == vn[1..][b - 1 := s];
    }
  }

  lemma {:induction false} ListSlotsUpdate(vt: seq<seq<int>>, b: nat, s: seq<int>)
    requires b < |vt|
    ensures multiset(vt[b]) <= ListSlots(vt)
    ensures ListSlots(vt[b := s]) == ListSlots(vt) - multiset(vt[b]) + multiset(s)
  {
    if b == 0 {
      assert vt[0 := s][1..] == vt[1..];
    } else {
      ListSlotsUpdate(vt[1..], b - 1, s);
      assert vt[b := s][1..] == vt[1..][b - 1 := s];
    }
  }

  /** An id has a slot exactly when some bucket holds it. */
  lemma {:induction false} NewSlotMember(vn: seq<set<int>>, id: int)
    ensures NewSlots(vn)[id] > 0 <==> exists b :: 0 <= b < |vn| && id in vn[b]
  {
    if vn != [] {
      NewSlotMember(vn[1..], id);
      if id in vn[0] {
        assert 0 <= 0 < |vn| && id in vn[0];
      }
      if b :| 0 <= b < |vn[1..]| && id in vn[1..][b] {
        assert id in vn[b + 1];
      }
      if b :| 0 <= b < |vn| && id in vn[b] {
        assert b > 0 ==> id in vn[1..][b - 1];
      }
    }
  }

  /** Every id in a bucket is a new entry of mapInfo. */
  lemma {:induction false} BucketMember(mi: Infos, vn: seq<set<int>>, pending: set<int>, nIdCount: int, b: nat, id: int)
    requires NewOk(mi, vn, pending) && EntriesOk(mi, nIdCount) && b < |vn| && id in vn[b]
    ensures id in mi && !mi[id].fInTried
  {
    NewSlotMember(vn, id);
    assert NewSlots(vn)[id] == Owed(mi, pending, id);
  }

  /** Every id in a tried bucket is a tried entry of mapInfo. */
  lemma {:induction false} TriedMember(mi: Infos, vt: seq<seq<int>>, b: nat, id: int)
    requires TriedOk(mi, vt) && b < |vt| && id in vt[b]
    ensures id in mi && mi[id].fInTried
  {
    ListSlotsUpdate(vt, b, []);
    assert id in multiset(vt[b]);
    assert id in ListSlots(vt);
  }

  /** The slots of a tried bucket hold different entries. */
  lemma {:induction false} TriedSlotsDiffer(mi: Infos, vt: seq<seq<int>>, b: nat, p: nat, q: nat)
    requires TriedOk(mi, vt) && b < |vt| && p < |vt[b]| && q < |vt[b]|
    ensures vt[b][p] == vt[b][q] <==> p == q
  {
    ListSlotsUpdate(vt, b, []);
    var x := vt[b][p];
    assert multiset(vt[b])[x] <= ListSlots(vt)[x] <= 1;
    RepeatedCount(vt[b], p, q);
  }

  lemma RepeatedCount(s: seq<int>, p: nat, q: nat)
    requires p < |s| && q < |s|
    ensures p != q && s[p] == s[q] ==> multiset(s)[s[p]] >= 2
  {
    if p != q && s[p] == s[q] {
      var t := s[p := s[p] + 1];
      SlotReplaced(s, p, s[p] + 1);
      assert t[q] == s[p] && s[p] in multiset(t);
    }
  }

  // ----- changes that keep consistency -----

  /** Nothing that the buckets and mapAddr depend on is different. */
  predicate SameSlots(a: AddrInfo, b: AddrInfo)
  {
    a.service.host == b.service.host && a.nRefCount == b.nRefCount && a.fInTried == b.fInTried
  }

  ghost predicate SameSlotsAll(mi: Infos, m: Infos)
  {
    m.Keys == mi.Keys && forall id :: id in mi ==> SameSlots(mi[id], m[id])
  }

  /** Changing only statistics, ports and places in vRandom keeps the buckets and mapAddr consistent. */
  lemma {:induction false} SlotsKept(mi: Infos, m: Infos, ma: map<NetAddr, int>, vt: seq<seq<int>>,
                                     vn: seq<set<int>>, pending: set<int>)
    requires SameSlotsAll(mi, m)
    ensures TriedIds(m) == TriedIds(mi) && NewIds(m) == NewIds(mi)
    ensures AddrOk(mi, ma) ==> AddrOk(m, ma)
    ensures TriedOk(mi, vt) ==> TriedOk(m, vt)
    ensures NewOk(mi, vn, pending) ==> NewOk(m, vn, pending)
  {
    forall id | id in mi
      ensures id in m && SameSlots(mi[id], m[id])
    {
    }
    assert forall id :: id in m <==> id in mi;
    assert TriedIds(m) == TriedIds(mi);
    forall i ensures Owed(m, pending, i) == Owed(mi, pending, i) {
    }
  }

  /** Swapping two places of vRandom together with the entries' records of them. */
  lemma SwapKeepsRandom(mi: Infos, vr: seq<int>, p: nat, q: nat)
    requires RandomOk(mi, vr) && p < |vr| && q < |vr| && p != q
    ensures vr[p] in mi && vr[q] in mi && vr[p] != vr[q]
    ensures var m := mi[vr[p] := mi[vr[p]].(nRandomPos := q)][vr[q] := mi[vr[q]].(nRandomPos := p)];
            RandomOk(m, vr[p := vr[q]][q := vr[p]]) && SameSlotsAll(mi, m)
  {
  }

  /** Forgetting the entry at the end of vRandom. */
  lemma ForgetLast(mi: Infos, vr: seq<int>, ma: map<NetAddr, int>, id: int)
    requires RandomOk(mi, vr) && AddrOk(mi, ma) && id in mi && mi[id].nRandomPos == |vr| - 1
    ensures RandomOk(mi - {id}, vr[..|vr| - 1])
    ensures AddrOk(mi - {id}, ma - {mi[id].service.host})
    ensures !mi[id].fInTried ==> TriedIds(mi - {id}) == TriedIds(mi) && NewIds(mi - {id}) == NewIds(mi) - {id}
  {
  }

  /** A fresh entry, not yet in any bucket. */
  lemma CreateEntry(mi: Infos, vr: seq<int>, ma: map<NetAddr, int>, vt: seq<seq<int>>, vn: seq<set<int>>,
                    id: int, info: AddrInfo)
    requires RandomOk(mi, vr) && AddrOk(mi, ma) && TriedOk(mi, vt) && NewOk(mi, vn, {})
    requires id !in mi && info.service.host !in ma
    requires info.nRandomPos == |vr| && info.nRefCount == 0 && !info.fInTried
    ensures RandomOk(mi[id := info], vr + [id])
    ensures AddrOk(mi[id := info], ma[info.service.host := id])
    ensures TriedOk(mi[id := info], vt) && NewOk(mi[id := info], vn, {})
    ensures TriedIds(mi[id := info]) == TriedIds(mi) && NewIds(mi[id := info]) == NewIds(mi) + {id}
  {
    assert TriedIds(mi[id := info]) == TriedIds(mi);
    forall i ensures Owed(mi[id := info], {}, i) == Owed(mi, {}, i) {
    }
  }

  /** Moving an entry without references into a tried bucket with room. */
  lemma {:induction false} PushTried(mi: Infos, vt: seq<seq<int>>, b: nat, id: int, info: AddrInfo)
    requires TriedOk(mi, vt) && b < |vt| && |vt[b]| < TRIED_BUCKET_SIZE
    requires id in mi && !mi[id].fInTried && info.fInTried
    ensures TriedOk(mi[id := info], vt[b := vt[b] + [id]])
    ensures TriedIds(mi[id := info]) == TriedIds(mi) + {id} && NewIds(mi[id := info]) == NewIds(mi) - {id}
  {
    ListSlotsUpdate(vt, b, vt[b] + [id]);
    PartGrows(ListSlots(vt), multiset(vt[b]), id);
    SetGrows(TriedIds(mi), id);
    assert TriedIds(mi[id := info]) == TriedIds(mi) + {id};
  }

  lemma PartGrows(all: multiset<int>, part: multiset<int>, id: int)
    requires part <= all
    ensures all - part + (part + multiset{id}) == all + multiset{id}
  {
  }

  lemma PartSwaps(all: multiset<int>, part: multiset<int>, gone: int, id: int)
    requires part <= all && gone in part
    ensures all - part + (part - multiset{gone} + multiset{id}) == all - multiset{gone} + multiset{id}
  {
  }

  lemma SetGrows(s: set<int>, id: int)
    requires id !in s
    ensures multiset(s + {id}) == multiset(s) + multiset{id}
  {
  }

  lemma SetShrinks(s: set<int>, id: int)
    requires id in s
    ensures multiset(s - {id}) == multiset(s) - multiset{id}
  {
  }

  /** Replacing one tried slot by another entry. */
  lemma {:induction false} ReplaceTried(mi: Infos, vt: seq<seq<int>>, b: nat, p: nat, id: int,
                                        info: AddrInfo, evicted: AddrInfo)
    requires TriedOk(mi, vt) && b < |vt| && p < |vt[b]|
    requires id in mi && !mi[id].fInTried && info.fInTried && !evicted.fInTried
    ensures vt[b][p] in mi && mi[vt[b][p]].fInTried && vt[b][p] != id
    ensures var m := mi[vt[b][p] := evicted][id := info];
            && TriedOk(m, vt[b := vt[b][p := id]])
            && TriedIds(m) == TriedIds(mi) - {vt[b][p]} + {id}
            && NewIds(m) == NewIds(mi) - {id} + {vt[b][p]}
  {
    var out := vt[b][p];
    TriedMember(mi, vt, b, out);
    var m := mi[out := evicted][id := info];
    ListSlotsUpdate(vt, b, vt[b][p := id]);
    SlotReplaced(vt[b], p, id);
    PartSwaps(ListSlots(vt), multiset(vt[b]), out, id);
    SetShrinks(TriedIds(mi), out);
    SetGrows(TriedIds(mi) - {out}, id);
    assert TriedIds(m) == TriedIds(mi) - {out} + {id};
  }

  lemma SlotReplaced(s: seq<int>, p: nat, id: int)
    requires p < |s|
    ensures multiset(s[p := id]) == multiset(s) - multiset{s[p]} + multiset{id}
  {
  }

  /** Any rearrangement of one tried bucket. */
  lemma {:induction false} PermuteTried(mi: Infos, vt: seq<seq<int>>, b: nat, s: seq<int>)
    requires TriedOk(mi, vt) && b < |vt| && multiset(s) == multiset(vt[b])
    ensures TriedOk(mi, vt[b := s])
  {
    ListSlotsUpdate(vt, b, s);
    assert |s| == |multiset(s)| == |multiset(vt[b])| == |vt[b]|;
  }

  /** A new slot for an id that is owed one. */
  lemma {:induction false} PayPending(mi: Infos, vn: seq<set<int>>, id: int, b: nat)
    requires NewOk(mi, vn, {id}) && b < |vn| && id !in vn[b] && |vn[b]| < NEW_BUCKET_SIZE && id in mi
    ensures NewOk(mi, vn[b := vn[b] + {id}], {})
  {
    NewSlotsUpdate(vn, b, vn[b] + {id});
    SetGrows(vn[b], id);
    PartGrows(NewSlots(vn), multiset(vn[b]), id);
    forall i
      ensures NewSlots(vn[b := vn[b] + {id}])[i] == Owed(mi, {}, i)
    {
      assert NewSlots(vn)[i] == Owed(mi, {id}, i);
    }
  }

  /** Raising the reference count of an entry makes it owed a slot. */
  lemma {:induction false} RaiseRef(mi: Infos, vn: seq<set<int>>, id: int)
    requires NewOk(mi, vn, {}) && id in mi
    ensures NewOk(mi[id := mi[id].(nRefCount := mi[id].nRefCount + 1)], vn, {id})
  {
    var m := mi[id := mi[id].(nRefCount := mi[id].nRefCount + 1)];
    forall i
      ensures NewSlots(vn)[i] == Owed(m, {id}, i)
    {
      assert NewSlots(vn)[i] == Owed(mi, {}, i);
    }
  }

  /** Dropping an id from one bucket, with its count; an id without remaining references may be forgotten. */
  lemma {:induction false} DropSlot(mi: Infos, m: Infos, vn: seq<set<int>>, pending: set<int>, b: nat, id: int)
    requires NewOk(mi, vn, pending) && b < |vn| && id in vn[b] && id in mi && id !in pending
    requires forall i :: i != id ==> Owed(m, pending, i) == Owed(mi, pending, i)
    requires Owed(m, pending, id) == mi[id].nRefCount - 1
    ensures NewOk(m, vn[b := vn[b] - {id}], pending)
  {
    NewSlotsUpdate(vn, b, vn[b] - {id});
    assert multiset(vn[b] - {id}) == multiset(vn[b]) - multiset{id};
    forall i
      ensures NewSlots(vn[b := vn[b] - {id}])[i] == Owed(m, pending, i)
    {
      assert NewSlots(vn)[i] == Owed(mi, pending, i);
    }
  }

  /** A first slot for an entry that had none. */
  lemma {:induction false} FirstSlot(mi: Infos, vn: seq<set<int>>, b: nat, id: int, info: AddrInfo)
    requires NewOk(mi, vn, {}) && b < |vn| && |vn[b]| < NEW_BUCKET_SIZE
    requires id in mi && mi[id].nRefCount == 0 && info.nRefCount == 1
    ensures NewOk(mi[id := info], vn[b := vn[b] + {id}], {})
  {
    assert NewSlots(vn)[id] == Owed(mi, {}, id);
    NewSlotMember(vn, id);
    NewSlotsUpdate(vn, b, vn[b] + {id});
    SetGrows(vn[b], id);
    PartGrows(NewSlots(vn), multiset(vn[b]), id);
    var m := mi[id := info];
    forall i
      ensures NewSlots(vn[b := vn[b] + {id}])[i] == Owed(m, {}, i)
    {
      assert NewSlots(vn)[i] == Owed(mi, {}, i);
    }
  }

  /** Hosts and places in vRandom are unchanged. */
  ghost predicate SamePlaces(mi: Infos, m: Infos)
  {
    m.Keys == mi.Keys && forall id :: id in mi ==> SamePlace(mi[id], m[id])
  }

  predicate SamePlace(a: AddrInfo, b: AddrInfo)
  {
    a.service.host == b.service.host && a.nRandomPos == b.nRandomPos
  }

  lemma {:induction false} PlacesKept(mi: Infos, m: Infos, vr: seq<int>, ma: map<NetAddr, int>)
    requires SamePlaces(mi, m) && RandomOk(mi, vr) && AddrOk(mi, ma)
    ensures RandomOk(m, vr) && AddrOk(m, ma)
  {
    forall i | 0 <= i < |vr|
      ensures vr[i] in m && m[vr[i]].nRandomPos == i
    {
      var id := vr[i];
      assert id in mi && SamePlace(mi[id], m[id]);
    }
    forall a | a in ma
      ensures ma[a] in m && m[ma[a]].service.host == a
    {
      var id := ma[a];
      assert id in mi && SamePlace(mi[id], m[id]);
    }
    forall id | id in m
      ensures id in mi && SamePlace(mi[id], m[id])
    {
      assert id in m.Keys;
    }
  }

  // ----- ordered traversal of a bucket -----

  function MinOf(s: set<int>): (m: int)
    requires s != {}
    ensures m in s && forall x :: x in s ==> m <= x
  {
    HasMin(s);
    var m :| m in s && forall x :: x in s ==> m <= x;
    m
  }

  lemma SomeMember(s: set<int>) returns (y: int)
    requires s != {}
    ensures y in s
  {
    assert (forall y: int :: y !in s) ==> s == {};
    y :| y in s;
  }

  lemma {:induction false} HasMin(s: set<int>)
    requires s != {}
    ensures exists m :: m in s && forall x :: x in s ==> m <= x
  {
    var y := SomeMember(s);
    var rest := s - {y};
    assert s == rest + {y};
    if rest == {} {
      assert s == {y};
    } else {
      HasMin(rest);
      var z :| z in rest && forall x :: x in rest ==> z <= x;
      var m := if y < z then y else z;
      assert m in s && forall x :: x in s ==> m <= x;
    }
  }

  /** The elements of an ordered set, as its iterator visits them. */
  function Ascending(s: set<int>): (r: seq<int>)
    ensures |r| == |s|
    ensures forall x :: x in r <==> x in s
    ensures forall i, j :: 0 <= i < j < |r| ==> r[i] < r[j]
    decreases |s|
  {
    if s == {} then [] else
    var m := MinOf(s);
    var rest := Ascending(s - {m});
    LeastFirst(s, m, rest);
    [m] + rest
  }

  lemma {:induction false} LeastFirst(s: set<int>, m: int, rest: seq<int>)
    requires m in s && (forall x :: x in s ==> m <= x) && (forall x :: x in rest <==> x in s - {m})
    requires forall i, j :: 0 <= i < j < |rest| ==> rest[i] < rest[j]
    ensures forall x :: x in [m] + rest <==> x in s
    ensures forall i, j :: 0 <= i < j < |[m] + rest| ==> ([m] + rest)[i] < ([m] + rest)[j]
  {
    assert forall i :: 0 <= i < |rest| ==> rest[i] in rest;
  }
}
