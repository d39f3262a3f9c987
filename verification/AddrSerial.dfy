/**
 The peers file: writing the address manager and reading it back, with the tables that are
 not written rebuilt on the way in. Both sides use the same number of new buckets.
 */
module AddrSerial {
  import opened AddrTables
  import opened AddrManager
  import opened AddrHomes
  import opened AddrRuns
  import opened AddrCheck

  /** The part of an entry that is written. */
  datatype Stored = Stored(service: Service, nServices: set<nat>, nTime: nat, source: NetAddr,
                           nLastSuccess: int, nAttempts: int)

  datatype PeersFile = PeersFile(newInfos: seq<Stored>, triedInfos: seq<Stored>, buckets: seq<seq<int>>)

  function ToStored(info: AddrInfo): Stored
  {
    Stored(info.service, info.nServices, info.nTime, info.source, info.nLastSuccess, info.nAttempts)
  }

  /** All of an entry is written but the time of its last attempt and its place in the tables. */
  lemma StoredIff(a: AddrInfo, b: AddrInfo)
    ensures ToStored(a) == ToStored(b) <==>
            && SameEnds(a, b) && a.nServices == b.nServices && a.nTime == b.nTime
            && a.nLastSuccess == b.nLastSuccess && a.nAttempts == b.nAttempts
  {
  }

  function Loaded(s: Stored, pos: int, fInTried: bool): AddrInfo
  {
    AddrInfo(s.service, s.nServices, s.nTime, s.source, s.nLastSuccess, 0, s.nAttempts, 0, fInTried, pos)
  }

  ghost predicate Distinct(s: seq<int>)
  {
    forall i, j :: 0 <= i < j < |s| ==> s[i] != s[j]
  }

  ghost predicate DistinctHosts(infos: seq<Stored>)
  {
    forall i, j :: 0 <= i < j < |infos| ==> infos[i].service.host != infos[j].service.host
  }

  /** A file as a consistent manager writes it. */
  ghost predicate WellFormed(f: PeersFile)
  {
    && DistinctHosts(f.newInfos + f.triedInfos)
    && |f.buckets| == NEW_BUCKET_COUNT
    && (forall b :: 0 <= b < |f.buckets| ==> |f.buckets[b]| <= NEW_BUCKET_SIZE && Distinct(f.buckets[b]))
    && (forall n :: if 0 <= n < |f.newInfos| then 1 <= ListSlots(f.buckets)[n] <= NEW_BUCKETS_PER_ADDRESS
                    else ListSlots(f.buckets)[n] == 0)
  }

  // ----- writing -----

  /** Writes the entries of one role in ascending order of id; `order` lists the ids written. */
  method WriteInfos(mi: Infos, tried: bool, count: nat)
    returns (infos: seq<Stored>, index: map<int, int>, ghost order: seq<int>)
    requires count == |if tried then TriedIds(mi) else NewIds(mi)|
    requires forall id :: id in mi ==> RefOk(mi[id])
    ensures |infos| == |order| && Distinct(order)
    ensures forall id :: id in order <==> id in mi && mi[id].fInTried == tried
    ensures forall i :: 0 <= i < |order| ==> order[i] in mi && infos[i] == ToStored(mi[order[i]])
    ensures forall id :: id in order ==> id in index && 0 <= index[id] < |order| && order[index[id]] == id
  {
    infos, index, order := [], map[], [];
    ghost var wanted := if tried then TriedIds(mi) else NewIds(mi);
    var ahead := mi.Keys;
    while ahead != {} && |infos| != count
      invariant ahead <= mi.Keys && |infos| == |order| && Distinct(order)
      invariant forall id :: id in order <==> id in wanted && id !in ahead
      invariant forall i :: 0 <= i < |order| ==> order[i] in mi && infos[i] == ToStored(mi[order[i]])
      invariant forall id :: id in order ==> id in index && 0 <= index[id] < |order| && order[index[id]] == id
      decreases ahead
    {
      var id := MinOf(ahead);
      assert id in mi.Keys && id !in order;
      index := index[id := |infos|];
      assert RefOk(mi[id]);
      if if tried then mi[id].fInTried else mi[id].nRefCount != 0 {
        infos := infos + [ToStored(mi[id])];
        order := order + [id];
      }
      ahead := ahead - {id};
    }
    OrderCovers(order, wanted, ahead);
  }

  lemma {:induction false} OrderCovers(order: seq<int>, wanted: set<int>, ahead: set<int>)
    requires Distinct(order) && forall id :: id in order <==> id in wanted && id !in ahead
    requires ahead == {} || |order| == |wanted|
    ensures forall id :: id in order <==> id in wanted
  {
    DistinctCount(order, wanted - ahead);
    if ahead != {} {
      FullSubset(wanted - ahead, wanted);
    }
  }

  /** The written form of one new bucket: the indices of its entries. */
  method WriteBucket(bucket: set<int>, index: map<int, int>, ghost order: seq<int>) returns (r: seq<int>)
    requires Distinct(order)
    requires forall id :: id in bucket ==> id in index && 0 <= index[id] < |order| && order[index[id]] == id
    ensures |r| == |bucket| && Distinct(r)
    ensures forall n :: n in r <==> 0 <= n < |order| && order[n] in bucket
  {
    r := [];
    var ahead := bucket;
    while ahead != {}
      invariant ahead <= bucket && |r| + |ahead| == |bucket| && Distinct(r)
      invariant forall n :: n in r <==> 0 <= n < |order| && order[n] in bucket && order[n] !in ahead
      decreases ahead
    {
      var id := MinOf(ahead);
      assert index[id] !in r;
      r := r + [index[id]];
      ahead := ahead - {id};
    }
  }

  /** The file says of a manager's new table what the manager says, with ids replaced by indices. */
  ghost predicate SameBuckets(buckets: seq<seq<int>>, vn: seq<set<int>>, order: seq<int>)
  {
    && |buckets| == |vn|
    && forall b :: 0 <= b < |vn| ==> SameBucket(buckets[b], vn[b], order)
  }

  ghost predicate SameBucket(list: seq<int>, bucket: set<int>, order: seq<int>)
  {
    |list| == |bucket| && Distinct(list) && forall n :: n in list <==> 0 <= n < |order| && order[n] in bucket
  }

  /** An order lists entries by their written form. */
  ghost predicate Lists(mi: Infos, order: seq<int>, infos: seq<Stored>, tried: bool)
  {
    && |infos| == |order| && Distinct(order)
    && (forall id :: id in order <==> id in mi && mi[id].fInTried == tried)
    && (forall i :: 0 <= i < |order| ==> order[i] in mi && infos[i] == ToStored(mi[order[i]]))
  }

  method Serialize(am: Manager) returns (f: PeersFile, ghost newOrder: seq<int>, ghost triedOrder: seq<int>)
    requires am.Valid()
    ensures WellFormed(f)
    ensures Lists(am.mapInfo, newOrder, f.newInfos, false) && Lists(am.mapInfo, triedOrder, f.triedInfos, true)
    ensures SameBuckets(f.buckets, am.vvNew, newOrder)
  {
    var newInfos, index := [], map[];
    newInfos, index, newOrder := WriteInfos(am.mapInfo, false, am.nNew);
    var triedInfos, unused := [], map[];
    triedInfos, unused, triedOrder := WriteInfos(am.mapInfo, true, am.nTried);
    var buckets := [];
    for b := 0 to |am.vvNew|
      invariant |buckets| == b
      invariant forall c :: 0 <= c < b ==> SameBucket(buckets[c], am.vvNew[c], newOrder)
    {
      forall id | id in am.vvNew[b]
        ensures id in newOrder
      {
        BucketMember(am.mapInfo, am.vvNew, {}, am.nIdCount, b, id);
      }
      var list := WriteBucket(am.vvNew[b], index, newOrder);
      buckets := buckets + [list];
    }
    f := PeersFile(newInfos, triedInfos, buckets);
    WrittenHosts(am.mapInfo, am.mapAddr, newOrder, triedOrder, newInfos, triedInfos);
    WrittenSlots(am.mapInfo, am.vvNew, am.nIdCount, buckets, newOrder);
  }

  lemma {:induction false} WrittenHosts(mi: Infos, ma: map<NetAddr, int>, newOrder: seq<int>, triedOrder: seq<int>,
                                        newInfos: seq<Stored>, triedInfos: seq<Stored>)
    requires AddrOk(mi, ma)
    requires Lists(mi, newOrder, newInfos, false) && Lists(mi, triedOrder, triedInfos, true)
    ensures DistinctHosts(newInfos + triedInfos)
  {
    var order, infos := newOrder + triedOrder, newInfos + triedInfos;
    forall i, j | 0 <= i < j < |infos|
      ensures infos[i].service.host != infos[j].service.host
    {
      var a, b := order[i], order[j];
      assert i < |newOrder| ==> a == newOrder[i] && a in newOrder;
      assert i >= |newOrder| ==> a == triedOrder[i - |newOrder|] && a in triedOrder;
      assert j < |newOrder| ==> b == newOrder[j] && b in newOrder;
      assert j >= |newOrder| ==> b == triedOrder[j - |newOrder|] && b in triedOrder;
      assert a != b;
      assert infos[i] == ToStored(mi[a]) && infos[j] == ToStored(mi[b]);
      assert ma[mi[a].service.host] == a && ma[mi[b].service.host] == b;
    }
  }

  /** Slots of the written buckets count the references of the entries they stand for. */
  lemma {:induction false} SameBucketSlots(buckets: seq<seq<int>>, vn: seq<set<int>>, order: seq<int>, n: int)
    requires SameBuckets(buckets, vn, order)
    ensures ListSlots(buckets)[n] == if 0 <= n < |order| then NewSlots(vn)[order[n]] else 0
  {
    if buckets == [] {
      assert vn == [];
    } else {
      assert SameBucket(buckets[0], vn[0], order);
      forall b | 0 <= b < |vn[1..]|
        ensures SameBucket(buckets[1..][b], vn[1..][b], order)
      {
        assert SameBucket(buckets[b + 1], vn[b + 1], order);
      }
      SameBucketSlots(buckets[1..], vn[1..], order, n);
      DistinctOnce(buckets[0], n);
    }
  }

  lemma {:induction false} DistinctOnce(s: seq<int>, n: int)
    requires Distinct(s)
    ensures multiset(s)[n] == if n in s then 1 else 0
    decreases |s|
  {
    if s != [] {
      var rest := s[1..];
      assert forall i :: 0 <= i < |rest| ==> rest[i] == s[i + 1];
      DistinctOnce(rest, n);
      assert s == [s[0]] + rest;
      assert s[0] !in rest;
    }
  }

  lemma {:induction false} WrittenSlots(mi: Infos, vn: seq<set<int>>, nIdCount: int, buckets: seq<seq<int>>,
                                        order: seq<int>)
    requires NewOk(mi, vn, {}) && EntriesOk(mi, nIdCount) && SameBuckets(buckets, vn, order)
    requires forall id :: id in order <==> id in mi && !mi[id].fInTried
    ensures forall b :: 0 <= b < |buckets| ==> |buckets[b]| <= NEW_BUCKET_SIZE && Distinct(buckets[b])
    ensures forall n :: if 0 <= n < |order| then 1 <= ListSlots(buckets)[n] <= NEW_BUCKETS_PER_ADDRESS
                        else ListSlots(buckets)[n] == 0
  {
    forall b | 0 <= b < |buckets|
      ensures |buckets[b]| <= NEW_BUCKET_SIZE && Distinct(buckets[b])
    {
      assert SameBucket(buckets[b], vn[b], order);
    }
    forall n
      ensures if 0 <= n < |order| then 1 <= ListSlots(buckets)[n] <= NEW_BUCKETS_PER_ADDRESS
              else ListSlots(buckets)[n] == 0
    {
      SameBucketSlots(buckets, vn, order, n);
      if 0 <= n < |order| {
        var id := order[n];
        assert id in order;
        assert NewSlots(vn)[id] == Owed(mi, {}, id);
        assert RefOk(mi[id]);
      }
    }
  }

  // ----- reading -----

  ghost predicate IdsBelow(mi: Infos, n: nat)
  {
    forall id :: id in mi <==> 0 <= id < n
  }

  /** The tables after reading the first n new entries. */
  ghost predicate NewRead(infos: seq<Stored>, n: nat, mi: Infos, ma: map<NetAddr, int>, vr: seq<int>)
    requires n <= |infos|
  {
    && IdsBelow(mi, n) && |vr| == n
    && (forall i :: 0 <= i < n ==> i in mi && mi[i] == Loaded(infos[i], i, false))
    && RandomOk(mi, vr) && AddrOk(mi, ma)
  }

  lemma NewReadStep(infos: seq<Stored>, n: nat, mi: Infos, ma: map<NetAddr, int>, vr: seq<int>)
    requires n < |infos| && NewRead(infos, n, mi, ma, vr) && DistinctHosts(infos)
    ensures var info := Loaded(infos[n], n, false);
            NewRead(infos, n + 1, mi[n := info], ma[info.service.host := n], vr + [n])
  {
    var info := Loaded(infos[n], n, false);
    forall a | a in ma
      ensures a != info.service.host
    {
      var i := ma[a];
      assert i in mi && mi[i] == Loaded(infos[i], i, false);
    }
    AppendEntry(mi, ma, vr, n, info);
  }

  /** New entries get the ids 0, 1, 2, ... in file order. */
  method ReadNewInfos(infos: seq<Stored>) returns (mi: Infos, ma: map<NetAddr, int>, vr: seq<int>)
    requires DistinctHosts(infos)
    ensures NewRead(infos, |infos|, mi, ma, vr)
  {
    mi, ma, vr := map[], map[], [];
    for n := 0 to |infos|
      invariant NewRead(infos, n, mi, ma, vr)
    {
      var info := Loaded(infos[n], |vr|, false);
      NewReadStep(infos, n, mi, ma, vr);
      mi := mi[n := info];
      ma := ma[info.service.host := n];
      vr := vr + [n];
    }
  }

  lemma AppendEntry(mi: Infos, ma: map<NetAddr, int>, vr: seq<int>, id: int, info: AddrInfo)
    requires RandomOk(mi, vr) && AddrOk(mi, ma)
    requires id !in mi && info.service.host !in ma && info.nRandomPos == |vr|
    ensures RandomOk(mi[id := info], vr + [id])
    ensures AddrOk(mi[id := info], ma[info.service.host := id])
  {
  }

  /** Where each tried entry of the file ended up: restored as it was, or lost to a full bucket. */
  ghost predicate TriedRestored(infos: seq<Stored>, triedBucket: Service -> TriedIndex, mi: Infos,
                                ma: map<NetAddr, int>, vt: seq<seq<int>>, upTo: nat)
  {
    && |vt| == TRIED_BUCKET_COUNT && upTo <= |infos|
    && forall t :: 0 <= t < upTo ==> OneRestored(infos[t], triedBucket, mi, ma, vt)
  }

  ghost predicate OneRestored(s: Stored, triedBucket: Service -> TriedIndex, mi: Infos,
                              ma: map<NetAddr, int>, vt: seq<seq<int>>)
    requires |vt| == TRIED_BUCKET_COUNT
  {
    if s.service.host in ma
    then
      && ma[s.service.host] in mi && mi[ma[s.service.host]].fInTried && ToStored(mi[ma[s.service.host]]) == s
      && ma[s.service.host] in vt[triedBucket(s.service)]
    else |vt[triedBucket(s.service)]| == TRIED_BUCKET_SIZE
  }

  /** Everything tried stands for an entry of the file. */
  ghost predicate TriedFromFile(infos: seq<Stored>, mi: Infos, first: nat)
  {
    forall id :: id in mi && id >= first ==> mi[id].fInTried && ToStored(mi[id]) in infos
  }

  datatype Tables = Tables(mi: Infos, ma: map<NetAddr, int>, vr: seq<int>, vt: seq<seq<int>>, nIdCount: nat)

  /** State of the reader while the tried entries come in. */
  ghost predicate Reading(t: Tables, start: Tables, first: nat)
  {
    && RandomOk(t.mi, t.vr) && AddrOk(t.mi, t.ma) && TriedOk(t.mi, t.vt)
    && first <= t.nIdCount && IdsBelow(t.mi, t.nIdCount)
    && (forall id :: id in t.mi ==> (t.mi[id].fInTried <==> id >= first))
    && (forall n :: 0 <= n < first ==> n in start.mi && n in t.mi && t.mi[n] == start.mi[n])
    && (forall id :: id in t.mi ==> t.mi[id].nRefCount == 0) && NeverTried(t.mi)
  }

  /** No entry has been tried since the file was read. */
  ghost predicate NeverTried(mi: Infos)
  {
    forall id :: id in mi ==> mi[id].nLastTry == 0
  }

  /** One tried entry appended to a bucket. */
  function WithTried(s: Stored, b: TriedIndex, t: Tables): Tables
    requires |t.vt| == TRIED_BUCKET_COUNT
  {
    Tables(t.mi[t.nIdCount := Loaded(s, |t.vr|, true)], t.ma[s.service.host := t.nIdCount], t.vr + [t.nIdCount],
           t.vt[b := t.vt[b] + [t.nIdCount]], t.nIdCount + 1)
  }

  lemma {:induction false} ReadingStep(s: Stored, b: TriedIndex, t: Tables, start: Tables, first: nat, r: Tables)
    requires Reading(t, start, first) && s.service.host !in t.ma && |t.vt[b]| < TRIED_BUCKET_SIZE
    requires r == WithTried(s, b, t)
    ensures Reading(r, start, first) && |TriedIds(r.mi)| == |TriedIds(t.mi)| + 1
  {
    var info := Loaded(s, |t.vr|, true);
    AppendEntry(t.mi, t.ma, t.vr, t.nIdCount, info);
    AppendTried(t.mi, t.vt, b, t.nIdCount, info);
  }

  lemma {:induction false} AppendTried(mi: Infos, vt: seq<seq<int>>, b: nat, id: int, info: AddrInfo)
    requires TriedOk(mi, vt) && b < |vt| && |vt[b]| < TRIED_BUCKET_SIZE && id !in mi && info.fInTried
    ensures TriedOk(mi[id := info], vt[b := vt[b] + [id]])
    ensures |TriedIds(mi[id := info])| == |TriedIds(mi)| + 1
  {
    var bare := mi[id := info.(fInTried := false)];
    assert TriedIds(bare) == TriedIds(mi);
    PushTried(bare, vt, b, id, info);
    assert bare[id := info] == mi[id := info];
  }

  ghost function HostSet(infos: seq<Stored>): set<NetAddr>
  {
    set i | 0 <= i < |infos| :: infos[i].service.host
  }

  lemma NextHost(all: seq<Stored>, k: nat)
    requires k < |all| && DistinctHosts(all)
    ensures all[k].service.host !in HostSet(all[..k])
    ensures HostSet(all[..k + 1]) == HostSet(all[..k]) + {all[k].service.host}
  {
    assert all[..k + 1] == all[..k] + [all[k]];
    forall h
      ensures h in HostSet(all[..k + 1]) <==> h in HostSet(all[..k]) || h == all[k].service.host
    {
      if h in HostSet(all[..k]) {
        var i :| 0 <= i < k && all[..k][i].service.host == h;
        assert all[..k + 1][i].service.host == h;
      }
      if h == all[k].service.host {
        assert all[..k + 1][k].service.host == h;
      }
      if h in HostSet(all[..k + 1]) {
        var i :| 0 <= i < k + 1 && all[..k + 1][i].service.host == h;
        assert i < k ==> all[..k][i].service.host == h;
      }
    }
  }

  /** After n tried entries of the file, which follow its `first` new ones in `all`. */
  ghost predicate TriedSoFar(all: seq<Stored>, first: nat, n: nat, triedBucket: Service -> TriedIndex, t: Tables,
                             start: Tables, nLost: nat)
  {
    && first + n <= |all| && Reading(t, start, first) && |TriedIds(t.mi)| + nLost == n
    && t.ma.Keys <= HostSet(all[..first + n])
    && TriedRestored(all[first..], triedBucket, t.mi, t.ma, t.vt, n)
    && TriedFromFile(all[first..], t.mi, first)
  }

  /** What was restored or lost stays so when a further entry is read. */
  lemma {:induction false} RestoredKept(all: seq<Stored>, first: nat, n: nat, triedBucket: Service -> TriedIndex,
                                        t: Tables, start: Tables, r: Tables)
    requires first + n < |all| && DistinctHosts(all) && Reading(t, start, first)
    requires TriedRestored(all[first..], triedBucket, t.mi, t.ma, t.vt, n)
    requires |t.vt[triedBucket(all[first + n].service)]| < TRIED_BUCKET_SIZE
    requires r == WithTried(all[first + n], triedBucket(all[first + n].service), t)
    ensures TriedRestored(all[first..], triedBucket, r.mi, r.ma, r.vt, n + 1)
  {
    var infos := all[first..];
    forall k | 0 <= k < n + 1
      ensures OneRestored(infos[k], triedBucket, r.mi, r.ma, r.vt)
    {
      assert infos[k] == all[first + k];
      if k < n {
        assert OneRestored(infos[k], triedBucket, t.mi, t.ma, t.vt);
        assert all[first + k].service.host != all[first + n].service.host;
      }
    }
  }

  lemma {:induction false} KeepTried(all: seq<Stored>, first: nat, n: nat, triedBucket: Service -> TriedIndex,
                                     t: Tables, start: Tables, nLost: nat, r: Tables)
    requires DistinctHosts(all) && first + n < |all| && TriedSoFar(all, first, n, triedBucket, t, start, nLost)
    requires |t.vt[triedBucket(all[first + n].service)]| < TRIED_BUCKET_SIZE
    requires r == WithTried(all[first + n], triedBucket(all[first + n].service), t)
    ensures TriedSoFar(all, first, n + 1, triedBucket, r, start, nLost)
  {
    KeepEntries(all, first, n, triedBucket, t, start, nLost, r);
    KeepReading(all, first, n, triedBucket, t, start, nLost, r);
  }

  lemma {:induction false} KeepEntries(all: seq<Stored>, first: nat, n: nat, triedBucket: Service -> TriedIndex,
                                       t: Tables, start: Tables, nLost: nat, r: Tables)
    requires DistinctHosts(all) && first + n < |all| && TriedSoFar(all, first, n, triedBucket, t, start, nLost)
    requires |t.vt[triedBucket(all[first + n].service)]| < TRIED_BUCKET_SIZE
    requires r == WithTried(all[first + n], triedBucket(all[first + n].service), t)
    ensures TriedRestored(all[first..], triedBucket, r.mi, r.ma, r.vt, n + 1) && TriedFromFile(all[first..], r.mi, first)
  {
    var s := all[first + n];
    assert all[first..][n] == s;
    FromFileKept(all[first..], n, triedBucket(s.service), t, first, r);
    RestoredKept(all, first, n, triedBucket, t, start, r);
  }

  lemma {:induction false} KeepReading(all: seq<Stored>, first: nat, n: nat, triedBucket: Service -> TriedIndex,
                                       t: Tables, start: Tables, nLost: nat, r: Tables)
    requires DistinctHosts(all) && first + n < |all| && TriedSoFar(all, first, n, triedBucket, t, start, nLost)
    requires |t.vt[triedBucket(all[first + n].service)]| < TRIED_BUCKET_SIZE
    requires r == WithTried(all[first + n], triedBucket(all[first + n].service), t)
    ensures Reading(r, start, first) && |TriedIds(r.mi)| + nLost == n + 1 && r.ma.Keys <= HostSet(all[..first + n + 1])
  {
    HostsMore(all, first + n, t.ma, t.nIdCount);
    ReadingStep(all[first + n], triedBucket(all[first + n].service), t, start, first, r);
  }

  lemma SoFar(all: seq<Stored>, first: nat, n: nat, triedBucket: Service -> TriedIndex, t: Tables, start: Tables, nLost: nat)
    requires first + n <= |all| && Reading(t, start, first) && |TriedIds(t.mi)| + nLost == n
    requires t.ma.Keys <= HostSet(all[..first + n])
    requires TriedRestored(all[first..], triedBucket, t.mi, t.ma, t.vt, n) && TriedFromFile(all[first..], t.mi, first)
    ensures TriedSoFar(all, first, n, triedBucket, t, start, nLost)
  {
  }

  lemma HostsMore(all: seq<Stored>, k: nat, ma: map<NetAddr, int>, id: int)
    requires DistinctHosts(all) && k < |all| && ma.Keys <= HostSet(all[..k])
    ensures all[k].service.host !in ma && ma[all[k].service.host := id].Keys <= HostSet(all[..k + 1])
    ensures ma.Keys <= HostSet(all[..k + 1])
  {
    NextHost(all, k);
    assert ma[all[k].service.host := id].Keys == ma.Keys + {all[k].service.host};
    assert all[k].service.host !in ma.Keys;
  }

  lemma FromFileKept(infos: seq<Stored>, n: nat, b: TriedIndex, t: Tables, first: nat, r: Tables)
    requires n < |infos| && TriedFromFile(infos, t.mi, first) && |t.vt| == TRIED_BUCKET_COUNT
    requires r == WithTried(infos[n], b, t)
    ensures TriedFromFile(infos, r.mi, first)
  {
    assert infos[n] in infos;
    assert ToStored(Loaded(infos[n], |t.vr|, true)) == infos[n];
  }

  lemma {:induction false} LoseTried(all: seq<Stored>, first: nat, n: nat, triedBucket: Service -> TriedIndex,
                                     t: Tables, start: Tables, nLost: nat)
    requires DistinctHosts(all) && first + n < |all| && TriedSoFar(all, first, n, triedBucket, t, start, nLost)
    requires |t.vt[triedBucket(all[first + n].service)]| >= TRIED_BUCKET_SIZE
    ensures TriedSoFar(all, first, n + 1, triedBucket, t, start, nLost + 1)
  {
    HostsMore(all, first + n, t.ma, 0);
    assert all[first..][n] == all[first + n];
    LostToo(all[first..], n, triedBucket, t.mi, t.ma, t.vt);
    SoFar(all, first, n + 1, triedBucket, t, start, nLost + 1);
  }

  lemma LostToo(infos: seq<Stored>, n: nat, triedBucket: Service -> TriedIndex, mi: Infos, ma: map<NetAddr, int>,
                vt: seq<seq<int>>)
    requires n < |infos| && TriedRestored(infos, triedBucket, mi, ma, vt, n) && infos[n].service.host !in ma
    requires |vt[triedBucket(infos[n].service)]| == TRIED_BUCKET_SIZE
    ensures TriedRestored(infos, triedBucket, mi, ma, vt, n + 1)
  {
  }

  /** How many of the entries belong to a tried bucket. */
  ghost function Homes(infos: seq<Stored>, triedBucket: Service -> TriedIndex, b: int): nat
  {
    if infos == [] then 0
    else
      var n := |infos| - 1;
      Homes(infos[..n], triedBucket, b) + if triedBucket(infos[n].service) == b then 1 else 0
  }

  /** No bucket is home to more entries than it holds. */
  ghost predicate Roomy(infos: seq<Stored>, triedBucket: Service -> TriedIndex)
  {
    forall b :: 0 <= b < TRIED_BUCKET_COUNT ==> Homes(infos, triedBucket, b) <= TRIED_BUCKET_SIZE
  }

  /** Every bucket holds what it is home to, up to its size; and nothing was lost exactly if there was room. */
  ghost predicate Filled(vt: seq<seq<int>>, infos: seq<Stored>, triedBucket: Service -> TriedIndex, nLost: nat)
  {
    && |vt| == TRIED_BUCKET_COUNT
    && (forall b :: 0 <= b < TRIED_BUCKET_COUNT ==>
          |vt[b]| == (var h := Homes(infos, triedBucket, b); if h < TRIED_BUCKET_SIZE then h else TRIED_BUCKET_SIZE))
    && (nLost == 0 <==> Roomy(infos, triedBucket))
  }

  lemma HomesMore(infos: seq<Stored>, s: Stored, triedBucket: Service -> TriedIndex, b: int)
    ensures Homes(infos + [s], triedBucket, b) ==
            Homes(infos, triedBucket, b) + if triedBucket(s.service) == b then 1 else 0
  {
    assert (infos + [s])[..|infos|] == infos;
  }

  lemma {:induction false} FilledMore(vt: seq<seq<int>>, infos: seq<Stored>, s: Stored, triedBucket: Service -> TriedIndex,
                                      nLost: nat, x: int)
    requires Filled(vt, infos, triedBucket, nLost)
    ensures var b := triedBucket(s.service);
            if |vt[b]| < TRIED_BUCKET_SIZE then Filled(vt[b := vt[b] + [x]], infos + [s], triedBucket, nLost)
            else Filled(vt, infos + [s], triedBucket, nLost + 1)
  {
    forall b | 0 <= b < TRIED_BUCKET_COUNT
      ensures Homes(infos + [s], triedBucket, b) ==
              Homes(infos, triedBucket, b) + if triedBucket(s.service) == b then 1 else 0
    {
      HomesMore(infos, s, triedBucket, b);
    }
    var home := triedBucket(s.service);
    assert |vt[home]| == (var h := Homes(infos, triedBucket, home); if h < TRIED_BUCKET_SIZE then h else TRIED_BUCKET_SIZE);
    if |vt[home]| < TRIED_BUCKET_SIZE {
      RoomyKept(infos, s, triedBucket);
    } else {
      assert !Roomy(infos + [s], triedBucket) by {
        assert Homes(infos + [s], triedBucket, home) > TRIED_BUCKET_SIZE;
      }
    }
  }

  lemma {:induction false} RoomyKept(infos: seq<Stored>, s: Stored, triedBucket: Service -> TriedIndex)
    requires Homes(infos, triedBucket, triedBucket(s.service)) < TRIED_BUCKET_SIZE
    ensures Roomy(infos + [s], triedBucket) <==> Roomy(infos, triedBucket)
  {
    forall b | 0 <= b < TRIED_BUCKET_COUNT
      ensures Homes(infos + [s], triedBucket, b) <= TRIED_BUCKET_SIZE <==> Homes(infos, triedBucket, b) <= TRIED_BUCKET_SIZE
    {
      HomesMore(infos, s, triedBucket, b);
    }
  }

  /** The hosts of the entries are all known. */
  ghost predicate AllPresent(infos: seq<Stored>, ma: map<NetAddr, int>)
  {
    forall i :: 0 <= i < |infos| ==> infos[i].service.host in ma
  }

  lemma {:induction false} PresentMore(infos: seq<Stored>, n: nat, ma: map<NetAddr, int>, id: int)
    requires n < |infos| && (forall i :: 0 <= i < n ==> infos[i].service.host != infos[n].service.host)
    requires infos[n].service.host !in ma
    ensures AllPresent(infos[..n + 1], ma[infos[n].service.host := id]) <==> AllPresent(infos[..n], ma)
    ensures !AllPresent(infos[..n + 1], ma)
  {
    var host := infos[n].service.host;
    assert infos[..n + 1][n] == infos[n];
    forall i | 0 <= i < n
      ensures infos[..n + 1][i].service.host in ma[host := id] <==> infos[..n][i].service.host in ma
    {
      assert infos[i].service.host != host;
    }
  }

  /** Tried entries go to their recomputed buckets, or are lost when those are full. */
  method ReadTriedInfos(ghost newInfos: seq<Stored>, infos: seq<Stored>, triedBucket: Service -> TriedIndex, start: Tables)
    returns (t: Tables, nLost: nat)
    requires DistinctHosts(newInfos + infos) && start.nIdCount == |newInfos|
    requires Reading(start, start, start.nIdCount) && TriedIds(start.mi) == {}
    requires start.ma.Keys <= HostSet(newInfos) && forall b :: 0 <= b < |start.vt| ==> start.vt[b] == []
    ensures TriedSoFar(newInfos + infos, |newInfos|, |infos|, triedBucket, t, start, nLost)
    ensures AllPresent(infos, t.ma) <==> Roomy(infos, triedBucket)
  {
    ghost var all, first := newInfos + infos, |newInfos|;
    assert all[..first] == newInfos;
    ReadStart(all, first, infos, triedBucket, start);
    t, nLost := ReadTried(all, first, infos, triedBucket, start);
    ReadEnd(all, first, infos, triedBucket, t, start, nLost);
  }

  method ReadTried(ghost all: seq<Stored>, ghost first: nat, infos: seq<Stored>, triedBucket: Service -> TriedIndex,
                   start: Tables)
    returns (t: Tables, nLost: nat)
    requires DistinctHosts(all) && ReadSoFar(all, first, infos, 0, triedBucket, start, start, 0)
    ensures ReadSoFar(all, first, infos, |infos|, triedBucket, t, start, nLost)
  {
    t, nLost := start, 0;
    for n := 0 to |infos|
      invariant ReadSoFar(all, first, infos, n, triedBucket, t, start, nLost)
    {
      t, nLost := ReadOneTried(all, first, infos, n, triedBucket, t, start, nLost);
    }
  }

  method ReadOneTried(ghost all: seq<Stored>, ghost first: nat, infos: seq<Stored>, n: nat, triedBucket: Service -> TriedIndex,
                      t0: Tables, ghost start: Tables, nLost0: nat)
    returns (t: Tables, nLost: nat)
    requires n < |infos| && DistinctHosts(all) && ReadSoFar(all, first, infos, n, triedBucket, t0, start, nLost0)
    ensures ReadSoFar(all, first, infos, n + 1, triedBucket, t, start, nLost)
  {
    ReadNext(all, first, infos, n, triedBucket, t0, start, nLost0);
    t, nLost := t0, nLost0;
    var b := triedBucket(infos[n].service);
    if |t.vt[b]| < TRIED_BUCKET_SIZE {
      t := WithTried(infos[n], b, t);
    } else {
      nLost := nLost + 1;
    }
  }

  lemma ReadEnd(all: seq<Stored>, first: nat, infos: seq<Stored>, triedBucket: Service -> TriedIndex, t: Tables,
                start: Tables, nLost: nat)
    requires ReadSoFar(all, first, infos, |infos|, triedBucket, t, start, nLost)
    ensures AllPresent(infos, t.ma) <==> Roomy(infos, triedBucket)
  {
    assert infos[..|infos|] == infos;
  }

  ghost predicate ReadSoFar(all: seq<Stored>, first: nat, infos: seq<Stored>, n: nat, triedBucket: Service -> TriedIndex,
                            t: Tables, start: Tables, nLost: nat)
  {
    && first <= |all| && all[first..] == infos && |t.vt| == TRIED_BUCKET_COUNT
    && TriedSoFar(all, first, n, triedBucket, t, start, nLost)
    && Placed(infos, n, triedBucket, t.vt, t.ma, nLost)
  }

  lemma {:induction false} ReadStart(all: seq<Stored>, first: nat, infos: seq<Stored>, triedBucket: Service -> TriedIndex,
                                     start: Tables)
    requires DistinctHosts(all) && first <= |all| && all[first..] == infos && start.nIdCount == first
    requires Reading(start, start, start.nIdCount) && TriedIds(start.mi) == {}
    requires start.ma.Keys <= HostSet(all[..first]) && forall b :: 0 <= b < |start.vt| ==> start.vt[b] == []
    ensures ReadSoFar(all, first, infos, 0, triedBucket, start, start, 0)
  {
  }

  /** One more entry is kept if its bucket has room, and lost otherwise. */
  lemma {:induction false} ReadNext(all: seq<Stored>, first: nat, infos: seq<Stored>, n: nat, triedBucket: Service -> TriedIndex,
                                    t: Tables, start: Tables, nLost: nat)
    requires DistinctHosts(all) && ReadSoFar(all, first, infos, n, triedBucket, t, start, nLost) && n < |infos|
    ensures var b := triedBucket(infos[n].service);
            if |t.vt[b]| < TRIED_BUCKET_SIZE
            then ReadSoFar(all, first, infos, n + 1, triedBucket, WithTried(infos[n], b, t), start, nLost)
            else ReadSoFar(all, first, infos, n + 1, triedBucket, t, start, nLost + 1)
  {
    assert all[first + n] == infos[n];
    PlaceNext(all, first, infos, n, triedBucket, t.vt, t.ma, nLost, t.nIdCount);
    if |t.vt[triedBucket(infos[n].service)]| < TRIED_BUCKET_SIZE {
      var s := infos[n];
      KeepTried(all, first, n, triedBucket, t, start, nLost, WithTried(s, triedBucket(s.service), t));
    } else {
      LoseTried(all, first, n, triedBucket, t, start, nLost);
    }
  }

  /** The first n entries are placed or lost, and nothing is missing exactly if there was room. */
  ghost predicate Placed(infos: seq<Stored>, n: nat, triedBucket: Service -> TriedIndex, vt: seq<seq<int>>,
                         ma: map<NetAddr, int>, nLost: nat)
  {
    n <= |infos| && Filled(vt, infos[..n], triedBucket, nLost) && (nLost == 0 <==> AllPresent(infos[..n], ma))
  }

  lemma {:induction false} PlaceNext(all: seq<Stored>, first: nat, infos: seq<Stored>, n: nat, triedBucket: Service -> TriedIndex,
                                     vt: seq<seq<int>>, ma: map<NetAddr, int>, nLost: nat, id: int)
    requires DistinctHosts(all) && first <= |all| && all[first..] == infos && n < |infos|
    requires ma.Keys <= HostSet(all[..first + n]) && Placed(infos, n, triedBucket, vt, ma, nLost)
    ensures var b := triedBucket(infos[n].service);
            if |vt[b]| < TRIED_BUCKET_SIZE
            then Placed(infos, n + 1, triedBucket, vt[b := vt[b] + [id]], ma[infos[n].service.host := id], nLost)
            else Placed(infos, n + 1, triedBucket, vt, ma, nLost + 1)
  {
    NextTried(all, first, infos, n, ma, id);
    FilledMore(vt, infos[..n], infos[n], triedBucket, nLost, id);
    assert infos[..n + 1] == infos[..n] + [infos[n]];
  }

  lemma {:induction false} NextTried(all: seq<Stored>, first: nat, infos: seq<Stored>, n: nat, ma: map<NetAddr, int>, id: int)
    requires DistinctHosts(all) && first <= |all| && all[first..] == infos && n < |infos|
    requires ma.Keys <= HostSet(all[..first + n])
    ensures AllPresent(infos[..n + 1], ma[infos[n].service.host := id]) <==> AllPresent(infos[..n], ma)
    ensures !AllPresent(infos[..n + 1], ma)
  {
    assert forall i :: 0 <= i < |infos| ==> infos[i] == all[first + i];
    NextHost(all, first + n);
    PresentMore(infos, n, ma, id);
  }

  // ----- reading the new buckets -----

  lemma {:induction false} PrefixSlots(buckets: seq<seq<int>>, b: nat, n: int)
    requires b < |buckets|
    ensures ListSlots(buckets[..b + 1])[n] == ListSlots(buckets[..b])[n] + multiset(buckets[b])[n]
    ensures ListSlots(buckets[..b + 1])[n] <= ListSlots(buckets)[n]
  {
    ListSlotsJoin(buckets[..b], [buckets[b]]);
    assert buckets[..b + 1] == buckets[..b] + [buckets[b]];
    ListSlotsJoin(buckets[..b + 1], buckets[b + 1..]);
    assert buckets == buckets[..b + 1] + buckets[b + 1..];
  }

  lemma {:induction false} ListSlotsJoin(a: seq<seq<int>>, b: seq<seq<int>>)
    ensures ListSlots(a + b) == ListSlots(a) + ListSlots(b)
  {
    if a == [] {
      assert a + b == b;
    } else {
      ListSlotsJoin(a[1..], b);
      assert a + b == [a[0]] + (a[1..] + b);
      ListSlotsFirst(a[0], a[1..] + b);
      SumsAssociate(multiset(a[0]), ListSlots(a[1..]), ListSlots(b));
    }
  }

  lemma ListSlotsFirst(x: seq<int>, rest: seq<seq<int>>)
    ensures ListSlots([x] + rest) == multiset(x) + ListSlots(rest)
  {
    assert ([x] + rest)[1..] == rest;
  }

  /** Entries whose reference counts went up by their occurrences in a list. */
  ghost predicate Counted(mi: Infos, r: Infos, added: multiset<int>)
  {
    r.Keys == mi.Keys && forall id :: id in mi ==> r[id] == mi[id].(nRefCount := mi[id].nRefCount + added[id])
  }

  /** One bucket is read as far as the j-th index. */
  ghost predicate BucketRead(list: seq<int>, j: nat, mi: Infos, r: Infos, vn: seq<set<int>>, vs: seq<set<int>>, b: NewIndex)
    requires j <= |list|
  {
    && |vs| == |vn| == NEW_BUCKET_COUNT && NewOk(r, vs, {}) && Counted(mi, r, multiset(list[..j]))
    && vs == vn[b := vs[b]] && |vs[b]| == j && forall x :: x in vs[b] <==> x in list[..j]
  }

  method ReadBucket(list: seq<int>, mi: Infos, vn: seq<set<int>>, b: NewIndex) returns (r: Infos, vs: seq<set<int>>)
    requires NewOk(mi, vn, {}) && vn[b] == {} && Distinct(list) && |list| <= NEW_BUCKET_SIZE
    requires forall n :: n in list ==> n in mi && mi[n].nRefCount < NEW_BUCKETS_PER_ADDRESS
    ensures NewOk(r, vs, {}) && Counted(mi, r, multiset(list))
    ensures |vs| == |vn| && vs == vn[b := vs[b]] && forall x :: x in vs[b] <==> x in list
  {
    r, vs := mi, vn;
    for j := 0 to |list|
      invariant BucketRead(list, j, mi, r, vn, vs, b)
    {
      var n := list[j];
      NotYetCounted(mi, r, list, j);
      if r[n].nRefCount < NEW_BUCKETS_PER_ADDRESS {
        BucketReadOn(list, j, mi, r, vn, vs, b);
        r := r[n := r[n].(nRefCount := r[n].nRefCount + 1)];
        vs := vs[b := vs[b] + {n}];
      }
    }
    assert list[..|list|] == list;
  }

  lemma {:induction false} BucketReadOn(list: seq<int>, j: nat, mi: Infos, r: Infos, vn: seq<set<int>>, vs: seq<set<int>>,
                                        b: NewIndex)
    requires j < |list| <= NEW_BUCKET_SIZE && BucketRead(list, j, mi, r, vn, vs, b)
    requires list[j] !in list[..j] && list[j] in r
    ensures var n := list[j];
            BucketRead(list, j + 1, mi, r[n := r[n].(nRefCount := r[n].nRefCount + 1)], vn, vs[b := vs[b] + {n}], b)
  {
    var n := list[j];
    CountedStep(mi, r, r[n := r[n].(nRefCount := r[n].nRefCount + 1)], list, j);
    RaiseAndPay(r, vs, n, b);
    assert list[..j + 1] == list[..j] + [n];
    assert vs[b := vs[b] + {n}] == vn[b := vs[b] + {n}];
  }

  lemma {:induction false} RaiseAndPay(mi: Infos, vn: seq<set<int>>, id: int, b: nat)
    requires NewOk(mi, vn, {}) && id in mi && b < |vn| && id !in vn[b] && |vn[b]| < NEW_BUCKET_SIZE
    ensures NewOk(mi[id := mi[id].(nRefCount := mi[id].nRefCount + 1)], vn[b := vn[b] + {id}], {})
  {
    RaiseRef(mi, vn, id);
    PayPending(mi[id := mi[id].(nRefCount := mi[id].nRefCount + 1)], vn, id, b);
  }

  lemma NotYetCounted(mi: Infos, r: Infos, list: seq<int>, j: nat)
    requires j < |list| && Distinct(list) && Counted(mi, r, multiset(list[..j])) && list[j] in mi
    ensures list[j] !in list[..j] && list[j] in list && list[j] in r && r[list[j]] == mi[list[j]]
  {
    assert list[j] !in list[..j];
    assert list[j] !in multiset(list[..j]);
  }

  lemma CountedStep(mi: Infos, was: Infos, r: Infos, list: seq<int>, j: nat)
    requires j < |list| && Counted(mi, was, multiset(list[..j])) && list[j] in was
    requires r == was[list[j] := was[list[j]].(nRefCount := was[list[j]].nRefCount + 1)]
    ensures Counted(mi, r, multiset(list[..j + 1]))
  {
    assert list[..j + 1] == list[..j] + [list[j]];
  }

  /** The first b buckets are read. */
  ghost predicate BucketsRead(buckets: seq<seq<int>>, b: nat, mi: Infos, r: Infos, vn: seq<set<int>>)
    requires b <= |buckets| == NEW_BUCKET_COUNT
  {
    && |vn| == NEW_BUCKET_COUNT && Counted(mi, r, ListSlots(buckets[..b]))
    && (forall c, x :: 0 <= c < b ==> (x in vn[c] <==> x in buckets[c]))
    && (forall c :: b <= c < NEW_BUCKET_COUNT ==> vn[c] == {})
  }

  /** The new buckets are filled again from the indices in the file, and references counted. */
  method ReadBuckets(buckets: seq<seq<int>>, mi: Infos, ghost first: nat) returns (r: Infos, vn: seq<set<int>>)
    requires |buckets| == NEW_BUCKET_COUNT && forall id :: id in mi ==> mi[id].nRefCount == 0
    requires forall b :: 0 <= b < |buckets| ==> |buckets[b]| <= NEW_BUCKET_SIZE && Distinct(buckets[b])
    requires SlotsBounded(buckets, mi, first)
    ensures NewOk(r, vn, {}) && Counted(mi, r, ListSlots(buckets))
    ensures forall b, x :: 0 <= b < NEW_BUCKET_COUNT ==> (x in vn[b] <==> x in buckets[b])
  {
    r := mi;
    vn := seq(NEW_BUCKET_COUNT, _ => {});
    EmptyNewSlots(vn);
    for b := 0 to |buckets|
      invariant NewOk(r, vn, {}) && BucketsRead(buckets, b, mi, r, vn)
    {
      RoomLeft(buckets, b, mi, r, vn, first);
      ghost var before, was := r, vn;
      r, vn := ReadBucket(buckets[b], r, vn, b);
      CountedMore(mi, before, r, buckets, b);
      BucketsReadOn(buckets, b, mi, before, was, r, vn);
    }
    assert buckets[..|buckets|] == buckets;
  }

  /** No index occurs too often, and none is out of range. */
  ghost predicate SlotsBounded(buckets: seq<seq<int>>, mi: Infos, first: nat)
  {
    forall n :: if 0 <= n < first then n in mi && ListSlots(buckets)[n] <= NEW_BUCKETS_PER_ADDRESS
                else ListSlots(buckets)[n] == 0
  }

  lemma {:induction false} RoomLeft(buckets: seq<seq<int>>, b: nat, mi: Infos, r: Infos, vn: seq<set<int>>, first: nat)
    requires b < |buckets| == NEW_BUCKET_COUNT && BucketsRead(buckets, b, mi, r, vn) && SlotsBounded(buckets, mi, first)
    requires forall id :: id in mi ==> mi[id].nRefCount == 0
    ensures forall n :: n in buckets[b] ==> n in r && r[n].nRefCount < NEW_BUCKETS_PER_ADDRESS
  {
    forall n | n in buckets[b]
      ensures n in r && r[n].nRefCount < NEW_BUCKETS_PER_ADDRESS
    {
      PrefixSlots(buckets, b, n);
      assert n in multiset(buckets[b]);
      assert r[n] == mi[n].(nRefCount := mi[n].nRefCount + ListSlots(buckets[..b])[n]);
    }
  }

  lemma {:induction false} BucketsReadOn(buckets: seq<seq<int>>, b: nat, mi: Infos, was: Infos, vn: seq<set<int>>, r: Infos,
                                         vs: seq<set<int>>)
    requires b < |buckets| == NEW_BUCKET_COUNT && BucketsRead(buckets, b, mi, was, vn)
    requires Counted(mi, r, ListSlots(buckets[..b + 1]))
    requires |vs| == |vn| && vs == vn[b := vs[b]] && forall x :: x in vs[b] <==> x in buckets[b]
    ensures BucketsRead(buckets, b + 1, mi, r, vs)
  {
    assert forall c :: 0 <= c < |vn| && c != b ==> vs[c] == vn[c];
  }

  lemma CountedMore(mi: Infos, was: Infos, r: Infos, buckets: seq<seq<int>>, b: nat)
    requires b < |buckets| && Counted(mi, was, ListSlots(buckets[..b])) && Counted(was, r, multiset(buckets[b]))
    ensures Counted(mi, r, ListSlots(buckets[..b + 1]))
  {
    forall id | id in mi
      ensures id in r && r[id] == mi[id].(nRefCount := mi[id].nRefCount + ListSlots(buckets[..b + 1])[id])
    {
      PrefixSlots(buckets, b, id);
    }
  }

  lemma SumsAssociate(x: multiset<int>, y: multiset<int>, z: multiset<int>)
    ensures x + (y + z) == (x + y) + z
  {
  }

  // ----- reading a file, and the round trip -----

  /** Counting references leaves the other tables consistent. */
  lemma {:induction false} CountedKeeps(mi: Infos, r: Infos, added: multiset<int>, ma: map<NetAddr, int>, vr: seq<int>,
                                        vt: seq<seq<int>>)
    requires Counted(mi, r, added) && RandomOk(mi, vr) && AddrOk(mi, ma) && TriedOk(mi, vt)
    ensures RandomOk(r, vr) && AddrOk(r, ma) && TriedOk(r, vt) && TriedIds(r) == TriedIds(mi)
  {
    forall id | id in mi
      ensures id in r && SamePlace(mi[id], r[id]) && mi[id].fInTried == r[id].fInTried
    {
      assert id in mi.Keys;
    }
    PlacesKept(mi, r, vr, ma);
    forall id
      ensures id in TriedIds(r) <==> id in TriedIds(mi)
    {
      assert id in r.Keys <==> id in mi.Keys;
    }
  }

  /** The loaded table of new entries is the first `first` ids. */
  lemma {:induction false} LoadedCounts(t: Tables, start: Tables, first: nat, r: Infos, buckets: seq<seq<int>>)
    requires Reading(t, start, first) && Counted(t.mi, r, ListSlots(buckets))
    requires forall id :: id in t.mi ==> t.mi[id].nRefCount == 0
    requires forall n :: if 0 <= n < first then 1 <= ListSlots(buckets)[n] <= NEW_BUCKETS_PER_ADDRESS
                         else ListSlots(buckets)[n] == 0
    ensures EntriesOk(r, t.nIdCount) && |NewIds(r)| == first
  {
    CountsOk(t, start, first, r, ListSlots(buckets));
    forall id
      ensures id in NewIds(r) <==> id in Below(first)
    {
      assert id in r.Keys <==> id in t.mi.Keys;
    }
    assert NewIds(r) == Below(first);
  }

  lemma {:induction false} CountsOk(t: Tables, start: Tables, first: nat, r: Infos, added: multiset<int>)
    requires Reading(t, start, first) && Counted(t.mi, r, added)
    requires forall id :: id in t.mi ==> t.mi[id].nRefCount == 0
    requires forall n :: if 0 <= n < first then 1 <= added[n] <= NEW_BUCKETS_PER_ADDRESS else added[n] == 0
    ensures EntriesOk(r, t.nIdCount)
  {
    forall id | id in r
      ensures 0 <= id < t.nIdCount && RefOk(r[id])
    {
      assert id in t.mi.Keys;
      assert r[id] == t.mi[id].(nRefCount := t.mi[id].nRefCount + added[id]);
    }
  }

  lemma {:induction false} RestoredCounted(infos: seq<Stored>, triedBucket: Service -> TriedIndex, mi: Infos, r: Infos,
                                           ma: map<NetAddr, int>, vt: seq<seq<int>>, added: multiset<int>, first: nat)
    requires Counted(mi, r, added)
    requires TriedRestored(infos, triedBucket, mi, ma, vt, |infos|) && TriedFromFile(infos, mi, first)
    ensures TriedRestored(infos, triedBucket, r, ma, vt, |infos|) && TriedFromFile(infos, r, first)
    ensures NeverTried(mi) ==> NeverTried(r)
  {
    forall id | id in r
      ensures id in mi && r[id].nLastTry == mi[id].nLastTry && ToStored(r[id]) == ToStored(mi[id]) && r[id].fInTried == mi[id].fInTried
    {
      assert id in mi.Keys;
    }
    forall t | 0 <= t < |infos|
      ensures OneRestored(infos[t], triedBucket, r, ma, vt)
    {
      assert OneRestored(infos[t], triedBucket, mi, ma, vt);
      var h := infos[t].service.host;
      if h in ma {
        var id := ma[h];
        assert id in mi.Keys;
        assert id in r;
      }
    }
  }

  lemma StartReading(f: PeersFile, mi: Infos, ma: map<NetAddr, int>, vr: seq<int>, vt: seq<seq<int>>)
    requires NewRead(f.newInfos, |f.newInfos|, mi, ma, vr)
    requires |vt| == TRIED_BUCKET_COUNT && forall b :: 0 <= b < |vt| ==> vt[b] == []
    ensures Reading(Tables(mi, ma, vr, vt, |f.newInfos|), Tables(mi, ma, vr, vt, |f.newInfos|), |f.newInfos|)
    ensures TriedIds(mi) == {} && ma.Keys <= HostSet(f.newInfos)
  {
    EmptyListSlots(vt);
    forall id
      ensures id !in TriedIds(mi)
    {
      assert id in mi ==> mi[id] == Loaded(f.newInfos[id], id, false);
    }
    assert TriedIds(mi) == {};
    forall a | a in ma.Keys
      ensures a in HostSet(f.newInfos)
    {
      var i := ma[a];
      assert i in mi && mi[i] == Loaded(f.newInfos[i], i, false);
    }
  }

  /** Both kinds of entries, before the new buckets are filled. */
  method ReadEntries(f: PeersFile, triedBucket: Service -> TriedIndex) returns (t: Tables, nLost: nat, ghost start: Tables)
    requires WellFormed(f)
    ensures Reading(t, start, |f.newInfos|) && |TriedIds(t.mi)| + nLost == |f.triedInfos|
    ensures forall n :: 0 <= n < |f.newInfos| ==> n in start.mi && start.mi[n] == Loaded(f.newInfos[n], n, false)
    ensures TriedRestored(f.triedInfos, triedBucket, t.mi, t.ma, t.vt, |f.triedInfos|)
    ensures TriedFromFile(f.triedInfos, t.mi, |f.newInfos|)
    ensures AllPresent(f.triedInfos, t.ma) <==> Roomy(f.triedInfos, triedBucket)
  {
    FrontDistinct(f.newInfos, f.triedInfos);
    var mi, ma, vr := ReadNewInfos(f.newInfos);
    var vt := seq(TRIED_BUCKET_COUNT, _ => []);
    StartReading(f, mi, ma, vr, vt);
    var begin := Tables(mi, ma, vr, vt, |f.newInfos|);
    t, nLost := ReadTriedInfos(f.newInfos, f.triedInfos, triedBucket, begin);
    assert (f.newInfos + f.triedInfos)[|f.newInfos|..] == f.triedInfos;
    start := begin;
  }

  /** The whole reader on values. */
  method Load(f: PeersFile, triedBucket: Service -> TriedIndex) returns (t: Tables, vn: seq<set<int>>, nLost: nat)
    requires WellFormed(f)
    ensures Consistent(t.mi, t.ma, t.vr, t.vt, vn, t.nIdCount, |f.triedInfos| - nLost, |f.newInfos|, {})
    ensures NewLoaded(f.newInfos, t.mi) && NeverTried(t.mi)
    ensures forall b, x :: 0 <= b < NEW_BUCKET_COUNT ==> (x in vn[b] <==> x in f.buckets[b])
    ensures TriedFromFile(f.triedInfos, t.mi, |f.newInfos|)
    ensures TriedRestored(f.triedInfos, triedBucket, t.mi, t.ma, t.vt, |f.triedInfos|)
    ensures AllPresent(f.triedInfos, t.ma) <==> Roomy(f.triedInfos, triedBucket)
  {
    ghost var start;
    t, nLost, start := ReadEntries(f, triedBucket);
    SlotsAllowed(f, t, start);
    var r;
    r, vn := ReadBuckets(f.buckets, t.mi, |f.newInfos|);
    CountedKeeps(t.mi, r, ListSlots(f.buckets), t.ma, t.vr, t.vt);
    LoadedCounts(t, start, |f.newInfos|, r, f.buckets);
    RestoredCounted(f.triedInfos, triedBucket, t.mi, r, t.ma, t.vt, ListSlots(f.buckets), |f.newInfos|);
    LoadedNew(f, t, start, r);
    t := t.(mi := r);
  }

  /** The first ids are the new entries, as the file has them, and there are no other new entries. */
  ghost predicate NewLoaded(infos: seq<Stored>, mi: Infos)
  {
    && (forall n :: 0 <= n < |infos| ==> n in mi && !mi[n].fInTried && ToStored(mi[n]) == infos[n])
    && (forall id :: id in mi && !mi[id].fInTried ==> 0 <= id < |infos|)
  }

  method Unserialize(am: Manager, f: PeersFile)
    requires WellFormed(f)
    modifies am
    ensures am.Valid() && NewLoaded(f.newInfos, am.mapInfo) && NeverTried(am.mapInfo)
    ensures forall b, x :: 0 <= b < NEW_BUCKET_COUNT ==> (x in am.vvNew[b] <==> x in f.buckets[b])
    ensures TriedFromFile(f.triedInfos, am.mapInfo, |f.newInfos|)
    ensures TriedRestored(f.triedInfos, am.triedBucket, am.mapInfo, am.mapAddr, am.vvTried, |f.triedInfos|)
    ensures AllPresent(f.triedInfos, am.mapAddr) <==> Roomy(f.triedInfos, am.triedBucket)
  {
    var t, vn, nLost := Load(f, am.triedBucket);
    am.nIdCount, am.mapInfo, am.mapAddr, am.vRandom := t.nIdCount, t.mi, t.ma, t.vr;
    am.vvTried, am.vvNew := t.vt, vn;
    am.nNew, am.nTried := |f.newInfos|, |f.triedInfos| - nLost;
  }

  lemma FrontDistinct(a: seq<Stored>, b: seq<Stored>)
    requires DistinctHosts(a + b)
    ensures DistinctHosts(a)
  {
    forall i, j | 0 <= i < j < |a|
      ensures a[i].service.host != a[j].service.host
    {
      assert (a + b)[i] == a[i] && (a + b)[j] == a[j];
    }
  }

  lemma SlotsAllowed(f: PeersFile, t: Tables, start: Tables)
    requires WellFormed(f) && Reading(t, start, |f.newInfos|)
    ensures SlotsBounded(f.buckets, t.mi, |f.newInfos|)
  {
  }

  lemma LoadedNew(f: PeersFile, t: Tables, start: Tables, r: Infos)
    requires Reading(t, start, |f.newInfos|) && Counted(t.mi, r, ListSlots(f.buckets))
    requires forall n :: 0 <= n < |f.newInfos| ==> n in start.mi && start.mi[n] == Loaded(f.newInfos[n], n, false)
    ensures NewLoaded(f.newInfos, r)
  {
    forall n | 0 <= n < |f.newInfos|
      ensures n in r && !r[n].fInTried && ToStored(r[n]) == f.newInfos[n]
    {
      assert n in t.mi.Keys;
    }
    forall id | id in r && !r[id].fInTried
      ensures 0 <= id < |f.newInfos|
    {
      assert id in t.mi.Keys;
    }
  }

  /** The tried entries whose recomputed bucket is the given one. */
  ghost function HomeIds(mi: Infos, triedBucket: Service -> TriedIndex, ids: set<int>, b: int): set<int>
    requires ids <= mi.Keys
  {
    set id | id in ids && triedBucket(mi[id].service) == b
  }

  /** No recomputed bucket gets more tried entries than it holds. */
  ghost predicate RoomForTried(mi: Infos, triedBucket: Service -> TriedIndex)
  {
    forall b :: 0 <= b < TRIED_BUCKET_COUNT ==> |HomeIds(mi, triedBucket, TriedIds(mi), b)| <= TRIED_BUCKET_SIZE
  }

  ghost function IdsOf(order: seq<int>): (ids: set<int>)
    ensures forall id :: id in ids <==> id in order
  {
    set id | id in order
  }

  lemma {:induction false} HomesAre(mi: Infos, order: seq<int>, infos: seq<Stored>, triedBucket: Service -> TriedIndex, b: int)
    requires |infos| == |order| && Distinct(order)
    requires forall i :: 0 <= i < |order| ==> order[i] in mi && infos[i] == ToStored(mi[order[i]])
    ensures IdsOf(order) <= mi.Keys && Homes(infos, triedBucket, b) == |HomeIds(mi, triedBucket, IdsOf(order), b)|
    decreases |order|
  {
    if order == [] {
      assert HomeIds(mi, triedBucket, IdsOf(order), b) == {};
    } else {
      var n := |order| - 1;
      HomesAre(mi, order[..n], infos[..n], triedBucket, b);
      IdsMore(order);
      HomeMore(mi, triedBucket, IdsOf(order[..n]), order[n], b);
    }
  }

  lemma IdsMore(order: seq<int>)
    requires order != [] && Distinct(order)
    ensures var n := |order| - 1; IdsOf(order) == IdsOf(order[..n]) + {order[n]} && order[n] !in IdsOf(order[..n])
  {
    var n := |order| - 1;
    assert order == order[..n] + [order[n]];
  }

  lemma HomeMore(mi: Infos, triedBucket: Service -> TriedIndex, ids: set<int>, id: int, b: int)
    requires ids <= mi.Keys && id in mi && id !in ids
    ensures |HomeIds(mi, triedBucket, ids + {id}, b)| ==
            |HomeIds(mi, triedBucket, ids, b)| + if triedBucket(mi[id].service) == b then 1 else 0
  {
    var before, after := HomeIds(mi, triedBucket, ids, b), HomeIds(mi, triedBucket, ids + {id}, b);
    if triedBucket(mi[id].service) == b {
      assert after == before + {id};
    } else {
      assert after == before;
    }
  }

  lemma {:induction false} RoomyIff(mi: Infos, order: seq<int>, infos: seq<Stored>, triedBucket: Service -> TriedIndex)
    requires Lists(mi, order, infos, true)
    ensures Roomy(infos, triedBucket) <==> RoomForTried(mi, triedBucket)
  {
    OrderIsTried(mi, order, infos);
    forall b | 0 <= b < TRIED_BUCKET_COUNT
      ensures Homes(infos, triedBucket, b) == |HomeIds(mi, triedBucket, TriedIds(mi), b)|
    {
      HomesAre(mi, order, infos, triedBucket, b);
    }
  }

  lemma OrderIsTried(mi: Infos, order: seq<int>, infos: seq<Stored>)
    requires Lists(mi, order, infos, true)
    ensures IdsOf(order) == TriedIds(mi)
  {
    forall id
      ensures id in IdsOf(order) <==> id in TriedIds(mi)
    {
      assert id in order <==> id in mi && mi[id].fInTried;
    }
  }

  /** Every tried entry of one set of tables has its host in another. */
  ghost predicate TriedPresent(mi: Infos, ma: map<NetAddr, int>)
  {
    forall id :: id in mi && mi[id].fInTried ==> mi[id].service.host in ma
  }

  lemma {:induction false} PresentIff(mi: Infos, order: seq<int>, infos: seq<Stored>, ma: map<NetAddr, int>)
    requires Lists(mi, order, infos, true)
    ensures AllPresent(infos, ma) <==> TriedPresent(mi, ma)
  {
    if AllPresent(infos, ma) {
      forall id | id in mi && mi[id].fInTried
        ensures mi[id].service.host in ma
      {
        assert id in order;
        var i :| 0 <= i < |order| && order[i] == id;
        assert infos[i].service.host in ma;
      }
    }
    if TriedPresent(mi, ma) {
      forall i | 0 <= i < |infos|
        ensures infos[i].service.host in ma
      {
        assert order[i] in order;
        assert infos[i] == ToStored(mi[order[i]]);
      }
    }
  }

  /**
   Saving and loading: consistent again, the same new addresses in the same buckets up to
   renumbering, nothing invented, and a tried address lost only to a full recomputed bucket.
   No address is lost exactly if no recomputed bucket gets more tried entries than it holds.
   */
  method SaveAndLoad(am: Manager) returns (am2: Manager, ghost order: seq<int>)
    requires am.Valid()
    ensures fresh(am2) && am2.Valid()
    ensures Distinct(order) && forall id :: id in order <==> id in am.mapInfo && !am.mapInfo[id].fInTried
    ensures forall n :: n in am2.mapInfo && !am2.mapInfo[n].fInTried <==> 0 <= n < |order|
    ensures forall n :: 0 <= n < |order| ==>
              n in am2.mapInfo && order[n] in am.mapInfo && ToStored(am2.mapInfo[n]) == ToStored(am.mapInfo[order[n]])
    ensures forall b, n :: 0 <= b < NEW_BUCKET_COUNT && 0 <= n < |order| ==>
              (n in am2.vvNew[b] <==> order[n] in am.vvNew[b])
    ensures forall id :: id in am.mapInfo && am.mapInfo[id].fInTried ==>
              OneRestored(ToStored(am.mapInfo[id]), am.triedBucket, am2.mapInfo, am2.mapAddr, am2.vvTried)
    ensures forall n :: n in am2.mapInfo && am2.mapInfo[n].fInTried ==>
              exists id :: id in am.mapInfo && am.mapInfo[id].fInTried && ToStored(am.mapInfo[id]) == ToStored(am2.mapInfo[n])
    ensures TriedPresent(am.mapInfo, am2.mapAddr) <==> RoomForTried(am.mapInfo, am.triedBucket)
    ensures TimesOk(am.mapInfo) ==> TimesOk(am2.mapInfo)
    ensures Homed(am2.mapInfo, am2.vvTried, am.triedBucket)
    ensures Homed(am.mapInfo, am.vvTried, am.triedBucket) ==> TriedPresent(am.mapInfo, am2.mapAddr)
  {
    var f;
    ghost var triedOrder;
    f, order, triedOrder := Serialize(am);
    am2 := new Manager(am.triedBucket, am.newBucket, am.routable, am.defaultPort);
    Unserialize(am2, f);
    RoomyIff(am.mapInfo, triedOrder, f.triedInfos, am.triedBucket);
    PresentIff(am.mapInfo, triedOrder, f.triedInfos, am2.mapAddr);
    SavedBuckets(f.buckets, am.vvNew, order, am2.vvNew);
    SavedTried(am.mapInfo, triedOrder, f.triedInfos, am.triedBucket, am2.mapInfo, am2.mapAddr, am2.vvTried, |order|);
    if TimesOk(am.mapInfo) {
      SavedTimes(am.mapInfo, order, am2.mapInfo);
    }
    LoadedHomed(am.mapInfo, am.triedBucket, am2.mapInfo, am2.mapAddr, am2.vvTried);
    if Homed(am.mapInfo, am.vvTried, am.triedBucket) {
      HomedHasRoom(am.mapInfo, am.vvTried, am.triedBucket);
    }
  }

  /** What is read back is at home. */
  lemma {:induction false} LoadedHomed(mi: Infos, triedBucket: Service -> TriedIndex, mi2: Infos, ma2: map<NetAddr, int>,
                                       vt2: seq<seq<int>>)
    requires AddrOk(mi2, ma2) && |vt2| == TRIED_BUCKET_COUNT
    requires forall id :: id in mi && mi[id].fInTried ==> OneRestored(ToStored(mi[id]), triedBucket, mi2, ma2, vt2)
    requires forall n :: n in mi2 && mi2[n].fInTried ==>
               exists id :: id in mi && mi[id].fInTried && ToStored(mi[id]) == ToStored(mi2[n])
    ensures Homed(mi2, vt2, triedBucket)
  {
    forall n | n in mi2 && mi2[n].fInTried
      ensures n in vt2[triedBucket(mi2[n].service)]
    {
      var id :| id in mi && mi[id].fInTried && ToStored(mi[id]) == ToStored(mi2[n]);
      assert OneRestored(ToStored(mi[id]), triedBucket, mi2, ma2, vt2);
      assert ma2[mi2[n].service.host] == n;
    }
  }

  /** Where every tried entry is at home, no bucket is home to more than it holds. */
  lemma {:induction false} HomedHasRoom(mi: Infos, vt: seq<seq<int>>, triedBucket: Service -> TriedIndex)
    requires TriedOk(mi, vt) && Homed(mi, vt, triedBucket)
    ensures RoomForTried(mi, triedBucket)
  {
    forall b | 0 <= b < TRIED_BUCKET_COUNT
      ensures |HomeIds(mi, triedBucket, TriedIds(mi), b)| <= TRIED_BUCKET_SIZE
    {
      forall id | id in HomeIds(mi, triedBucket, TriedIds(mi), b)
        ensures id in vt[b]
      {
        assert id in TriedIds(mi);
      }
      InList(HomeIds(mi, triedBucket, TriedIds(mi), b), vt[b]);
    }
  }

  lemma {:induction false} InList(ids: set<int>, list: seq<int>)
    requires forall id :: id in ids ==> id in list
    ensures |ids| <= |list|
  {
    if list == [] {
      forall id
        ensures id !in ids
      {
        assert id !in list;
      }
      assert ids == {};
    } else {
      var rest := ids - {list[0]};
      forall id | id in rest
        ensures id in list[1..]
      {
        assert id in list;
      }
      InList(rest, list[1..]);
    }
  }

  /** The time stamps of the self-check survive: times of attempts start again at zero, and successes are written. */
  lemma {:induction false} SavedTimes(mi: Infos, order: seq<int>, mi2: Infos)
    requires TimesOk(mi) && NeverTried(mi2)
    requires forall n :: n in mi2 && !mi2[n].fInTried ==> 0 <= n < |order|
    requires forall n :: 0 <= n < |order| ==> n in mi2 && order[n] in mi && ToStored(mi2[n]) == ToStored(mi[order[n]])
    requires forall n :: n in mi2 && mi2[n].fInTried ==>
               exists id :: id in mi && mi[id].fInTried && ToStored(mi[id]) == ToStored(mi2[n])
    ensures TimesOk(mi2)
  {
    forall n | n in mi2
      ensures TimeOk(mi2[n])
    {
      if mi2[n].fInTried {
        var id :| id in mi && mi[id].fInTried && ToStored(mi[id]) == ToStored(mi2[n]);
        assert TimeOk(mi[id]);
      } else {
        var id := order[n];
        assert id in mi && TimeOk(mi[id]) && ToStored(mi2[n]) == ToStored(mi[id]);
      }
    }
  }

  lemma {:induction false} SavedBuckets(buckets: seq<seq<int>>, vn: seq<set<int>>, order: seq<int>, vn2: seq<set<int>>)
    requires |vn| == |vn2| == NEW_BUCKET_COUNT && SameBuckets(buckets, vn, order) && |buckets| == NEW_BUCKET_COUNT
    requires forall b, x :: 0 <= b < NEW_BUCKET_COUNT ==> (x in vn2[b] <==> x in buckets[b])
    ensures forall b, n :: 0 <= b < NEW_BUCKET_COUNT && 0 <= n < |order| ==> (n in vn2[b] <==> order[n] in vn[b])
  {
    forall b, n | 0 <= b < NEW_BUCKET_COUNT && 0 <= n < |order|
      ensures n in vn2[b] <==> order[n] in vn[b]
    {
      assert SameBucket(buckets[b], vn[b], order);
    }
  }

  lemma {:induction false} SavedTried(mi: Infos, order: seq<int>, infos: seq<Stored>, triedBucket: Service -> TriedIndex,
                                      mi2: Infos, ma2: map<NetAddr, int>, vt2: seq<seq<int>>, first: nat)
    requires Lists(mi, order, infos, true) && |vt2| == TRIED_BUCKET_COUNT
    requires TriedFromFile(infos, mi2, first) && TriedRestored(infos, triedBucket, mi2, ma2, vt2, |infos|)
    requires forall id :: id in mi2 && id < first ==> !mi2[id].fInTried
    ensures forall id :: id in mi && mi[id].fInTried ==> OneRestored(ToStored(mi[id]), triedBucket, mi2, ma2, vt2)
    ensures forall n :: n in mi2 && mi2[n].fInTried ==>
              exists id :: id in mi && mi[id].fInTried && ToStored(mi[id]) == ToStored(mi2[n])
  {
    forall id | id in mi && mi[id].fInTried
      ensures OneRestored(ToStored(mi[id]), triedBucket, mi2, ma2, vt2)
    {
      assert id in order;
      var t :| 0 <= t < |order| && order[t] == id;
      assert OneRestored(infos[t], triedBucket, mi2, ma2, vt2);
    }
    forall n | n in mi2 && mi2[n].fInTried
      ensures exists id :: id in mi && mi[id].fInTried && ToStored(mi[id]) == ToStored(mi2[n])
    {
      var t :| 0 <= t < |infos| && infos[t] == ToStored(mi2[n]);
      assert order[t] in order;
    }
  }

  /** After any run in which each host has one port, writing and reading back loses no address. */
  method RunAndReload(ops: seq<Op>, triedBucket: Service -> TriedIndex, newBucket: (NetAddr, NetAddr) -> NewIndex,
                      routable: NetAddr -> bool, defaultPort: nat) returns (am: Manager, am2: Manager)
    ensures am.Valid() && am2.Valid()
    ensures OnePort(ops) ==> TriedPresent(am.mapInfo, am2.mapAddr)
    ensures OnePort(ops) ==> forall id :: id in am.mapInfo ==> am.mapInfo[id].service.host in am2.mapAddr
  {
    ghost var order;
    am := Run(ops, triedBucket, newBucket, routable, defaultPort);
    am2, order := SaveAndLoad(am);
    forall id | id in am.mapInfo && !am.mapInfo[id].fInTried
      ensures am.mapInfo[id].service.host in am2.mapAddr
    {
      assert id in order;
      var n :| 0 <= n < |order| && order[n] == id;
      assert ToStored(am2.mapInfo[n]) == ToStored(am.mapInfo[id]);
      assert am2.mapInfo[n].service.host in am2.mapAddr;
    }
  }
}
