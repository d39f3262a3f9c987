/**
 The address manager: five tables changed together, with random choices left open.
 Clock readings, routability and the keyed bucket hashes are parameters.
 */
module AddrManager {
  import opened Wrappers
  import opened AddrTables

  /** A random choice; any value in range. */
  method GetRandInt(nMax: nat) returns (r: nat)
    ensures nMax > 0 ==> r < nMax
    ensures nMax == 0 ==> r == 0
  {
    if nMax == 0 {
      return 0;
    }
    r :| 0 <= r < nMax;
  }

  /** Conversion of a 64-bit time to the unsigned 32-bit field that stores it. */
  function ToUint32(x: int): nat
  {
    x % 0x1_0000_0000
  }

  function Max(a: int, b: int): int
  {
    if a > b then a else b
  }

  /** Equal apart from the place in vRandom. */
  predicate SameEntry(a: AddrInfo, b: AddrInfo)
  {
    a.(nRandomPos := 0) == b.(nRandomPos := 0)
  }

  /** All entries but the named ones are still there and, apart from places, unchanged. */
  ghost predicate EntriesKept(mi: Infos, m: Infos, except: set<int>)
  {
    forall i :: i in mi && i !in except ==> i in m && SameEntry(mi[i], m[i])
  }

  /** The entry of a known address after hearing of it again: newer time, more services, a replaced default port. */
  function Refreshed(info: AddrInfo, addr: Address, nTimePenalty: int, now: int, defaultPort: nat): (r: AddrInfo)
    ensures SameSlots(info, r) && r.nRandomPos == info.nRandomPos
  {
    var fCurrentlyOnline := now - addr.nTime < 24 * 60 * 60;
    var nUpdateInterval := if fCurrentlyOnline then 60 * 60 else 24 * 60 * 60;
    var time := if addr.nTime != 0 && (info.nTime == 0 || info.nTime < addr.nTime - nUpdateInterval - nTimePenalty)
                then ToUint32(Max(0, addr.nTime - nTimePenalty)) else info.nTime;
    var port := if info.service.port != addr.service.port && info.service.port == defaultPort
                then addr.service.port else info.service.port;
    info.(nTime := time, nServices := info.nServices + addr.nServices, service := info.service.(port := port))
  }

  /** The entry that an unknown address starts with, before it has a slot. */
  function FreshEntry(addr: Address, source: NetAddr, nTimePenalty: int): AddrInfo
  {
    AddrInfo(addr.service, addr.nServices, ToUint32(Max(0, addr.nTime - nTimePenalty)), source, 0, 0, 0, 0, false, 0)
  }

  function Raised(info: AddrInfo): AddrInfo
  {
    info.(nRefCount := info.nRefCount + 1)
  }

  function TwoTo(n: nat): (p: nat)
    ensures p > 0
  {
    if n == 0 then 1 else 2 * TwoTo(n - 1)
  }

  /** There is news of an entry that is not tried and has references to spare. */
  predicate MayGain(info: AddrInfo, addr: Address)
  {
    && addr.nTime != 0 && (info.nTime == 0 || addr.nTime > info.nTime)
    && !info.fInTried && info.nRefCount < NEW_BUCKETS_PER_ADDRESS
  }

  /** A known entry was refreshed to r and, if it may and the draw is zero, gained a slot in bucket b, the only one touched. */
  ghost predicate KnownUpdated(vn: seq<set<int>>, m: Infos, vn': seq<set<int>>, id: int, b: nat, r: AddrInfo, addr: Address,
                               draw: nat)
  {
    && id in m && b < |vn| == |vn'| && vn' == vn[b := vn'[b]] && r.nRefCount >= 0 && draw < TwoTo(r.nRefCount)
    && var gains := id !in vn[b] && MayGain(r, addr) && draw == 0;
       && SameEntry(if gains then Raised(r) else r, m[id])
       && (if gains then id in vn'[b] else vn' == vn)
  }

  function Lowered(info: AddrInfo): AddrInfo
  {
    info.(nRefCount := info.nRefCount - 1)
  }

  /** Which entry a full new bucket gives up: its first terrible one or, without any, the oldest of up to four. */
  ghost predicate GivenUp(mi: Infos, bucket: set<int>, now: int, victim: int)
  {
    && bucket <= mi.Keys && victim in bucket
    && (if IsTerrible(mi[victim], now)
        then forall id :: id in bucket && id < victim ==> !IsTerrible(mi[id], now)
        else (forall id :: id in bucket ==> !IsTerrible(mi[id], now)) &&
             exists drawn: set<int> :: drawn <= bucket && |drawn| <= 4 && victim in drawn &&
                                       forall id :: id in drawn ==> mi[victim].nTime <= mi[id].nTime)
  }

  lemma {:induction false} GivenUpSame(a: Infos, b: Infos, bucket: set<int>, now: int, victim: int)
    requires GivenUp(a, bucket, now, victim) && forall id :: id in bucket ==> id in b && a[id] == b[id]
    ensures GivenUp(b, bucket, now, victim)
  {
    assert forall id :: id in bucket ==> id in b.Keys;
  }

  /** Apart from the named entries at most one has changed: one that a full bucket gave up, which lost a reference. */
  ghost predicate OneTouched(mi: Infos, m: Infos, bucket: set<int>, now: int, touched: set<int>, named: set<int>)
  {
    && |touched| <= 1 && touched <= bucket && EntriesKept(mi, m, touched + named)
    && forall t :: t in touched ==>
         && |bucket| == NEW_BUCKET_SIZE && GivenUp(mi, bucket, now, t) && (t in m ==> SameEntry(Lowered(mi[t]), m[t]))
  }

  /** The number of slots inspected. */
  function Inspected(size: nat): nat
  {
    if size < TRIED_ENTRIES_INSPECT_ON_EVICT then size else TRIED_ENTRIES_INSPECT_ON_EVICT
  }

  /** One random number for each slot, within what lies from that slot on. */
  predicate DrawsOk(draws: seq<nat>, size: nat)
  {
    |draws| == Inspected(size) && forall i :: 0 <= i < |draws| ==> draws[i] < size - i
  }

  method DrawAll(size: nat) returns (draws: seq<nat>)
    ensures DrawsOk(draws, size)
  {
    draws := [];
    for i := 0 to Inspected(size)
      invariant |draws| == i && forall j :: 0 <= j < i ==> draws[j] < size - j
    {
      var draw := GetRandInt(size - i);
      draws := draws + [draw];
    }
  }

  /** The bucket after i steps of the shuffle: each slot in turn changes places with one drawn from there on. */
  ghost function Shuffled(bucket: seq<int>, draws: seq<nat>, i: nat): (r: seq<int>)
    requires DrawsOk(draws, |bucket|) && i <= |draws|
    ensures |r| == |bucket| && multiset(r) == multiset(bucket)
  {
    if i == 0 then bucket
    else
      var t := Shuffled(bucket, draws, i - 1);
      SwapMultiset(t, i - 1, draws[i - 1] + i - 1);
      Swapped(t, i - 1, draws[i - 1] + i - 1)
  }

  function Swapped(s: seq<int>, i: nat, p: nat): seq<int>
    requires i < |s| && p < |s|
  {
    s[p := s[i]][i := s[p]]
  }

  /**
   Shuffles the first few slots of a tried bucket and looks for the least recently successful
   of them. That entry ends at slot k, but the position returned is the one it was drawn from.
   */
  method ShuffleAndPick(bucket: seq<int>, mi: Infos, draws: seq<nat>) returns (r: seq<int>, pos: nat, ghost k: nat)
    requires bucket != [] && AllIn(bucket, mi) && DrawsOk(draws, |bucket|)
    ensures r == Shuffled(bucket, draws, |draws|)
    ensures Oldest(r, mi, |draws|, k) && pos == k + draws[k] < |r|
  {
    r := bucket;
    var oldest, oldestPos := -1, 0;
    k := 0;
    ghost var steps := [bucket];
    var i := 0;
    while i < TRIED_ENTRIES_INSPECT_ON_EVICT && i < |r|
      invariant 0 <= i <= |draws| && |r| == |bucket| && AllIn(r, mi)
      invariant Trace(draws, steps, i) && steps[0] == bucket && steps[i] == r
      invariant i > 0 ==> Oldest(r, mi, i, k) && oldestPos == k + draws[k] && oldest == r[k]
    {
      r, oldest, oldestPos, k := PickStep(r, mi, i, draws[i], oldest, oldestPos, k);
      steps := steps + [r];
      i := i + 1;
    }
    assert i == |draws|;
    TraceShuffles(bucket, draws, steps, i);
    pos := oldestPos;
  }

  predicate AllIn(r: seq<int>, mi: Infos)
  {
    forall j :: 0 <= j < |r| ==> r[j] in mi
  }

  /** The bucket before and after each of the first n steps. */
  ghost predicate Trace(draws: seq<nat>, steps: seq<seq<int>>, n: nat)
  {
    && n <= |draws| && |steps| == n + 1
    && forall j {:trigger draws[j]} :: 0 <= j < n ==>
         draws[j] + j < |steps[j]| && steps[j + 1] == Swapped(steps[j], j, draws[j] + j)
  }

  lemma {:induction false} TraceShuffles(bucket: seq<int>, draws: seq<nat>, steps: seq<seq<int>>, n: nat)
    requires DrawsOk(draws, |bucket|) && Trace(draws, steps, n) && steps[0] == bucket
    ensures steps[n] == Shuffled(bucket, draws, n)
  {
    if n > 0 {
      TraceShuffles(bucket, draws, steps[..n], n - 1);
      var last := draws[n - 1];
    }
  }

  /** One step of the shuffle, which keeps the least recent entry so far and where it was drawn from. */
  method PickStep(r0: seq<int>, mi: Infos, i: nat, draw: nat, oldest0: int, oldestPos0: nat, ghost k0: nat)
    returns (r: seq<int>, oldest: int, oldestPos: nat, ghost k: nat)
    requires i + draw < |r0| && AllIn(r0, mi) && (i > 0 ==> Oldest(r0, mi, i, k0) && oldest0 == r0[k0])
    ensures r == Swapped(r0, i, draw + i) && AllIn(r, mi) && Oldest(r, mi, i + 1, k) && oldest == r[k]
    ensures if k == i then oldestPos == draw + i else k == k0 && oldestPos == oldestPos0
  {
    OldestStep(r0, mi, i, draw + i, k0);
    var temp := r0[draw + i];
    r, oldest, oldestPos, k := Swapped(r0, i, draw + i), oldest0, oldestPos0, k0;
    if i == 0 || mi[temp].nLastSuccess < mi[oldest].nLastSuccess {
      oldest, oldestPos := temp, draw + i;
      k := i;
    }
  }

  /** Slot k holds the first of the least recent entries among the first n. */
  ghost predicate Oldest(r: seq<int>, mi: Infos, n: nat, k: nat)
  {
    && k < n <= |r| && r[k] in mi
    && (forall j :: 0 <= j < n ==> r[j] in mi && mi[r[k]].nLastSuccess <= mi[r[j]].nLastSuccess)
    && forall j :: 0 <= j < k ==> mi[r[j]].nLastSuccess != mi[r[k]].nLastSuccess
  }

  lemma {:induction false} OldestStep(r: seq<int>, mi: Infos, i: nat, p: nat, k: nat)
    requires i <= p < |r| && r[p] in mi && (i > 0 ==> Oldest(r, mi, i, k))
    ensures var newer := i > 0 && mi[r[p]].nLastSuccess >= mi[r[k]].nLastSuccess;
            Oldest(Swapped(r, i, p), mi, i + 1, if newer then k else i)
  {
    var r' := Swapped(r, i, p);
    assert r'[i] == r[p] && forall j :: 0 <= j < i ==> r'[j] == r[j];
  }

  /** The shuffle and the position picked by it: the least recent entry is there exactly if its slot was drawn for itself. */
  ghost predicate Picked(bucket: seq<int>, r: seq<int>, mi: Infos, draws: seq<nat>, k: nat, pos: nat)
  {
    && DrawsOk(draws, |bucket|) && r == Shuffled(bucket, draws, |draws|) && Oldest(r, mi, |draws|, k)
    && pos == k + draws[k] < |r| && (r[pos] == r[k] <==> draws[k] == 0)
  }

  /** How room was made in a full tried bucket: the shuffle, the position picked, and the entry that was there. */
  datatype Eviction = Eviction(out: int, shuffled: seq<int>, draws: seq<nat>, k: nat, pos: nat)

  function OutOf(e: Option<Eviction>): Option<int>
  {
    match e case None => None case Some(e) => Some(e.out)
  }

  /** Tried bucket b took the entry, as its last one or in place of the one evicted; the other buckets are as before. */
  ghost predicate TriedTook(mi: Infos, vt: seq<seq<int>>, vt': seq<seq<int>>, b: nat, id: int, e: Option<Eviction>)
  {
    && b < |vt| == |vt'| && vt' == vt[b := vt'[b]]
    && match e
       case None => |vt[b]| < TRIED_BUCKET_SIZE && vt'[b] == vt[b] + [id]
       case Some(e) =>
         && |vt[b]| == TRIED_BUCKET_SIZE && Picked(vt[b], e.shuffled, mi, e.draws, e.k, e.pos)
         && e.out == e.shuffled[e.pos] && vt'[b] == e.shuffled[e.pos := id]
  }

  /** The new bucket that an evicted entry returns to: its own if that has room, else the one that the new entry came from. */
  function ReturnsTo(vn: seq<set<int>>, own: NewIndex, origin: NewIndex): NewIndex
    requires |vn| == NEW_BUCKET_COUNT
  {
    if |vn[own]| < NEW_BUCKET_SIZE then own else origin
  }

  /** The entry has left every new bucket, and the evicted one is in the bucket it returns to. */
  ghost predicate NewGave(mi: Infos, vn: seq<set<int>>, vn': seq<set<int>>, id: int, origin: NewIndex, e: Option<Eviction>,
                          newBucket: (NetAddr, NetAddr) -> NewIndex)
  {
    && |vn| == |vn'| == NEW_BUCKET_COUNT
    && exists cleared: seq<set<int>> ::
         && |cleared| == NEW_BUCKET_COUNT && (forall b :: 0 <= b < NEW_BUCKET_COUNT ==> cleared[b] == vn[b] - {id})
         && match e
            case None => vn' == cleared
            case Some(e) =>
              && e.out in mi
              && var own := newBucket(mi[e.out].service.host, mi[e.out].source);
                 var b := if |cleared[own]| < 64 then own else origin;
                 vn' == cleared[b := cleared[b] + {e.out}]
  }

  lemma ShuffledNext(bucket: seq<int>, draws: seq<nat>, i: nat)
    requires DrawsOk(draws, |bucket|) && i < |draws|
    ensures Shuffled(bucket, draws, i + 1) == Swapped(Shuffled(bucket, draws, i), i, draws[i] + i)
  {
  }

  lemma SwapSelf(s: seq<int>, i: nat)
    requires i < |s|
    ensures Swapped(s, i, i) == s
  {
  }

  /** Draws of zero leave the bucket as the first draw has left it. */
  lemma {:induction false} FirstSwapOnly(bucket: seq<int>, draws: seq<nat>, i: nat)
    requires DrawsOk(draws, |bucket|) && i < |draws| && forall j :: 1 <= j < |draws| ==> draws[j] == 0
    ensures Shuffled(bucket, draws, i + 1) == Swapped(bucket, 0, draws[0])
  {
    ShuffledNext(bucket, draws, i);
    if i > 0 {
      FirstSwapOnly(bucket, draws, i - 1);
      SwapSelf(Shuffled(bucket, draws, i), i);
    }
  }

  /**
   The position picked can hold a more recent entry: in every full bucket whose second entry is the
   least recent of the inspected ones, if the first two change places and nothing else does.
   */
  lemma {:induction false} PicksMoreRecent(bucket: seq<int>, mi: Infos, draws: seq<nat>, r: seq<int>, k: nat, pos: nat)
    requires |bucket| == TRIED_BUCKET_SIZE && draws == [1, 0, 0, 0] && bucket[1] in mi
    requires forall j :: 0 <= j < 4 && j != 1 ==> bucket[j] in mi && mi[bucket[1]].nLastSuccess < mi[bucket[j]].nLastSuccess
    ensures Picked(bucket, r, mi, draws, k, pos) <==> r == Swapped(bucket, 0, 1) && k == 0 && pos == 1
    ensures r == Swapped(bucket, 0, 1) ==> r[0] == bucket[1] && r[1] == bucket[0]
  {
    FirstSwapOnly(bucket, draws, 3);
    OnlyFirst(bucket, mi, k);
  }

  lemma OnlyFirst(bucket: seq<int>, mi: Infos, k: nat)
    requires |bucket| >= 4 && bucket[1] in mi
    requires forall j :: 0 <= j < 4 && j != 1 ==> bucket[j] in mi && mi[bucket[1]].nLastSuccess < mi[bucket[j]].nLastSuccess
    ensures Oldest(Swapped(bucket, 0, 1), mi, 4, k) <==> k == 0
  {
    var r := Swapped(bucket, 0, 1);
    assert r[0] == bucket[1] && r[1] == bucket[0] && r[2] == bucket[2] && r[3] == bucket[3];
  }

  /** The time stamps of the self-check: none negative, and tried entries have succeeded once. */
  ghost predicate TimesOk(mi: Infos)
  {
    forall id :: id in mi ==> TimeOk(mi[id])
  }

  predicate TimeOk(info: AddrInfo)
  {
    info.nLastTry >= 0 && info.nLastSuccess >= 0 && (info.fInTried ==> info.nLastSuccess != 0)
  }

  /** Every entry was there before, with the same time stamps and in the same table. */
  ghost predicate TimesFrom(a: Infos, b: Infos)
  {
    forall i :: i in b ==> i in a && SameTimes(a[i], b[i])
  }

  predicate SameTimes(a: AddrInfo, b: AddrInfo)
  {
    a.nLastTry == b.nLastTry && a.nLastSuccess == b.nLastSuccess && a.fInTried == b.fInTried
  }

  lemma TimesThrough(a: Infos, b: Infos)
    requires TimesFrom(a, b)
    ensures TimesOk(a) ==> TimesOk(b)
  {
    if TimesOk(a) {
      forall i | i in b
        ensures TimeOk(b[i])
      {
        assert i in a && SameTimes(a[i], b[i]) && TimeOk(a[i]);
      }
    }
  }

  lemma KeptTimes(mi: Infos, m: Infos, id: int)
    requires m.Keys <= mi.Keys && EntriesKept(mi, m, {id})
    requires id in m ==> SameTimes(mi[id], m[id])
    ensures TimesFrom(mi, m)
  {
    forall i | i in m
      ensures i in mi && SameTimes(mi[i], m[i])
    {
      assert i in mi.Keys;
      assert i != id ==> SameEntry(mi[i], m[i]);
    }
  }

  class Manager {
    const triedBucket: Service -> TriedIndex
    const newBucket: (NetAddr, NetAddr) -> NewIndex
    const routable: NetAddr -> bool
    const defaultPort: nat

    var nIdCount: nat
    var mapInfo: Infos
    var mapAddr: map<NetAddr, int>
    var vRandom: seq<int>
    var nTried: int
    var vvTried: seq<seq<int>>
    var nNew: int
    var vvNew: seq<set<int>>

    ghost predicate Inv(pending: set<int>)
      reads this
    {
      Consistent(mapInfo, mapAddr, vRandom, vvTried, vvNew, nIdCount, nTried, nNew, pending)
    }

    ghost predicate Valid()
      reads this
    {
      Inv({})
    }

    constructor (triedBucket: Service -> TriedIndex, newBucket: (NetAddr, NetAddr) -> NewIndex,
                 routable: NetAddr -> bool, defaultPort: nat)
      ensures Valid() && mapInfo == map[] && nIdCount == 0
      ensures this.triedBucket == triedBucket && this.newBucket == newBucket
      ensures this.routable == routable && this.defaultPort == defaultPort
    {
      this.triedBucket, this.newBucket, this.routable, this.defaultPort := triedBucket, newBucket, routable, defaultPort;
      nIdCount, mapInfo, mapAddr, vRandom, nTried, nNew := 0, map[], map[], [], 0, 0;
      vvTried := seq(TRIED_BUCKET_COUNT, _ => []);
      vvNew := seq(NEW_BUCKET_COUNT, _ => {});
      new;
      EmptyTables();
      assert TriedIds(map[]) == {};
    }

    method Find(host: NetAddr) returns (r: Option<int>)
      requires AddrOk(mapInfo, mapAddr)
      ensures r == if host in mapAddr then Some(mapAddr[host]) else None
      ensures r.Some? ==> r.value in mapInfo && mapInfo[r.value].service.host == host
    {
      if host !in mapAddr {
        return None;
      }
      r := Some(mapAddr[host]);
    }

    method Create(addr: Address, source: NetAddr) returns (id: int)
      requires Valid() && addr.service.host !in mapAddr
      modifies this`nIdCount, this`mapInfo, this`mapAddr, this`vRandom
      ensures id == old(nIdCount) && nIdCount == old(nIdCount) + 1 && id !in old(mapInfo)
      ensures mapInfo == old(mapInfo)[id := AddrInfo(addr.service, addr.nServices, addr.nTime, source,
                                                     0, 0, 0, 0, false, |old(vRandom)|)]
      ensures mapAddr == old(mapAddr)[addr.service.host := id]
      ensures vRandom == old(vRandom) + [id]
    {
      id := nIdCount;
      nIdCount := nIdCount + 1;
      mapInfo := mapInfo[id := AddrInfo(addr.service, addr.nServices, addr.nTime, source, 0, 0, 0, 0, false, -1)];
      mapAddr := mapAddr[addr.service.host := id];
      mapInfo := mapInfo[id := mapInfo[id].(nRandomPos := |vRandom|)];
      vRandom := vRandom + [id];
    }

    method SwapRandom(p: nat, q: nat)
      requires RandomOk(mapInfo, vRandom) && p < |vRandom| && q < |vRandom|
      modifies this`mapInfo, this`vRandom
      ensures RandomOk(mapInfo, vRandom) && SameSlotsAll(old(mapInfo), mapInfo)
      ensures EntriesKept(old(mapInfo), mapInfo, {})
      ensures vRandom == old(vRandom)[p := old(vRandom)[q]][q := old(vRandom)[p]]
    {
      if p == q {
        return;
      }
      SwapKeepsRandom(mapInfo, vRandom, p, q);
      var id1, id2 := vRandom[p], vRandom[q];
      mapInfo := mapInfo[id1 := mapInfo[id1].(nRandomPos := q)];
      mapInfo := mapInfo[id2 := mapInfo[id2].(nRandomPos := p)];
      vRandom := vRandom[p := id2];
      vRandom := vRandom[q := id1];
    }

    /** The deletion of an entry that has just lost its last reference. */
    method Forget(id: int)
      requires RandomOk(mapInfo, vRandom) && AddrOk(mapInfo, mapAddr) && id in mapInfo && !mapInfo[id].fInTried
      requires CountersOk(mapInfo, nTried, nNew) && TriedOk(mapInfo, vvTried)
      modifies this`mapInfo, this`vRandom, this`mapAddr, this`nNew
      ensures RandomOk(mapInfo, vRandom) && AddrOk(mapInfo, mapAddr) && TriedOk(mapInfo, vvTried)
      ensures mapInfo.Keys == old(mapInfo).Keys - {id} && EntriesKept(old(mapInfo), mapInfo, {id})
      ensures CountersOk(mapInfo, nTried, nNew)
    {
      SwapRandom(mapInfo[id].nRandomPos, |vRandom| - 1);
      ForgetOk(old(mapInfo), mapInfo, vRandom, mapAddr, vvTried, id, nTried, nNew);
      vRandom := vRandom[..|vRandom| - 1];
      mapAddr := mapAddr - {mapInfo[id].service.host};
      mapInfo := mapInfo - {id};
      nNew := nNew - 1;
    }

    /** Lowers a reference count and deletes the entry when it reaches zero. */
    method LoseReference(id: int, ghost pending: set<int>)
      requires Inv(pending) && id in mapInfo && !mapInfo[id].fInTried && id !in pending
      modifies this`mapInfo, this`vRandom, this`mapAddr, this`nNew
      ensures RandomOk(mapInfo, vRandom) && AddrOk(mapInfo, mapAddr) && TriedOk(mapInfo, vvTried)
      ensures EntriesOk(mapInfo, nIdCount) && CountersOk(mapInfo, nTried, nNew)
      ensures old(mapInfo).Keys - {id} <= mapInfo.Keys <= old(mapInfo).Keys
      ensures EntriesKept(old(mapInfo), mapInfo, {id}) && TimesFrom(old(mapInfo), mapInfo)
      ensures id in mapInfo <==> old(mapInfo)[id].nRefCount > 1
      ensures id in mapInfo ==> SameEntry(Lowered(old(mapInfo)[id]), mapInfo[id])
    {
      ghost var mi := mapInfo;
      mapInfo := mapInfo[id := mapInfo[id].(nRefCount := mapInfo[id].nRefCount - 1)];
      LowerRef(mi, id, mapAddr, vRandom, vvTried);
      if mapInfo[id].nRefCount == 0 {
        ghost var lowered := mapInfo;
        Forget(id);
        KeptTwice(mi, lowered, mapInfo, {id});
      }
      DropWithinBounds(mi, mapInfo, nIdCount, id);
      KeptTimes(mi, mapInfo, id);
    }

    /** Takes an entry out of one new bucket, deleting it with its last reference. */
    method DropFromNew(b: NewIndex, id: int, ghost pending: set<int>)
      requires Inv(pending) && id in vvNew[b] && id !in pending
      modifies this`mapInfo, this`vRandom, this`mapAddr, this`nNew, this`vvNew
      ensures Inv(pending)
      ensures vvNew == old(vvNew)[b := old(vvNew)[b] - {id}]
      ensures old(mapInfo).Keys - {id} <= mapInfo.Keys <= old(mapInfo).Keys
      ensures EntriesKept(old(mapInfo), mapInfo, {id}) && TimesFrom(old(mapInfo), mapInfo)
      ensures id in old(mapInfo) && (id in mapInfo <==> old(mapInfo)[id].nRefCount > 1)
      ensures id in mapInfo ==> SameEntry(Lowered(old(mapInfo)[id]), mapInfo[id])
      ensures !old(mapInfo)[id].fInTried
    {
      BucketMember(mapInfo, vvNew, pending, nIdCount, b, id);
      LoseReference(id, pending);
      OwedKept(old(mapInfo), mapInfo, pending, id);
      DropSlot(old(mapInfo), mapInfo, vvNew, pending, b, id);
      vvNew := vvNew[b := vvNew[b] - {id}];
    }

    /** Makes room in a new bucket: drops its first terrible entry, or else the oldest of up to four drawn ones. */
    method ShrinkNew(b: NewIndex, now: int, ghost pending: set<int>)
      returns (r: int, ghost victim: int, ghost drawn: set<int>)
      requires Inv(pending) && vvNew[b] != {} && pending !! vvNew[b]
      modifies this`mapInfo, this`vRandom, this`mapAddr, this`nNew, this`vvNew
      ensures Inv(pending)
      ensures victim in old(vvNew)[b] && vvNew == old(vvNew)[b := old(vvNew)[b] - {victim}]
      ensures old(mapInfo).Keys - {victim} <= mapInfo.Keys <= old(mapInfo).Keys
      ensures EntriesKept(old(mapInfo), mapInfo, {victim}) && TimesFrom(old(mapInfo), mapInfo)
      ensures old(vvNew)[b] <= old(mapInfo).Keys && !old(mapInfo)[victim].fInTried
      ensures victim in mapInfo ==> SameEntry(Lowered(old(mapInfo)[victim]), mapInfo[victim])
      ensures r == 0 || r == 1
      ensures r == 0 ==> IsTerrible(old(mapInfo)[victim], now)
      ensures forall id :: id in old(vvNew)[b] && (r == 1 || id < victim) ==> !IsTerrible(old(mapInfo)[id], now)
      ensures r == 1 ==> victim in drawn && drawn <= old(vvNew)[b] && |drawn| <= 4
      ensures r == 1 ==> forall id :: id in drawn ==> old(mapInfo)[victim].nTime <= old(mapInfo)[id].nTime
    {
      var order := Ascending(vvNew[b]);
      forall id | id in vvNew[b]
        ensures id in mapInfo && !mapInfo[id].fInTried && id >= 0
      {
        BucketMember(mapInfo, vvNew, pending, nIdCount, b, id);
      }
      assert forall k :: 0 <= k < |order| ==> order[k] in order;
      var i := FirstTerrible(mapInfo, order, now);
      if i < |order| {
        BeforeInOrder(vvNew[b], i);
        DropFromNew(b, order[i], pending);
        return 0, order[i], {};
      }
      var oldest;
      oldest, drawn := OldestOfFour(b);
      assert forall id :: id in vvNew[b] ==> id in order;
      DropFromNew(b, oldest, pending);
      r, victim := 1, oldest;
    }

    /** Draws four positions in a bucket and picks the entry among them that was seen longest ago. */
    method OldestOfFour(b: NewIndex) returns (oldest: int, ghost drawn: set<int>)
      requires |vvNew| == NEW_BUCKET_COUNT && vvNew[b] != {}
      requires forall id :: id in vvNew[b] ==> id in mapInfo && id >= 0
      ensures oldest in drawn && drawn <= vvNew[b] && |drawn| <= 4
      ensures forall id :: id in drawn ==> mapInfo[oldest].nTime <= mapInfo[id].nTime
    {
      var order := Ascending(vvNew[b]);
      var n0 := GetRandInt(|order|);
      var n1 := GetRandInt(|order|);
      var n2 := GetRandInt(|order|);
      var n3 := GetRandInt(|order|);
      oldest := -1;
      drawn := {};
      ghost var all := {order[n0], order[n1], order[n2], order[n3]};
      for i := 0 to |order|
        invariant drawn <= vvNew[b] && drawn <= all
        invariant oldest == -1 <==> drawn == {}
        invariant oldest != -1 ==> oldest in drawn && forall id :: id in drawn ==> mapInfo[oldest].nTime <= mapInfo[id].nTime
        invariant n0 < i ==> drawn != {}
      {
        assert order[i] in order;
        if i == n0 || i == n1 || i == n2 || i == n3 {
          if oldest == -1 || mapInfo[order[i]].nTime < mapInfo[oldest].nTime {
            oldest := order[i];
          }
          drawn := drawn + {order[i]};
        }
      }
      FourAtMost(order[n0], order[n1], order[n2], order[n3], drawn);
    }

    /** Consistent but for one new entry, which may still be without references. */
    ghost predicate Open(id: int)
      reads this
    {
      && RandomOk(mapInfo, vRandom)
      && AddrOk(mapInfo, mapAddr)
      && NewOk(mapInfo, vvNew, {})
      && TriedOk(mapInfo, vvTried)
      && EntriesOkBut(mapInfo, nIdCount, id)
      && CountersOk(mapInfo, nTried, nNew)
    }

    /** Raises the reference count and gives the entry its slot, shrinking a full bucket first. */
    method FillSlot(b: NewIndex, id: int, now: int) returns (ghost lost: set<int>, ghost touched: set<int>)
      requires Open(id) && id !in vvNew[b]
      modifies this`mapInfo, this`vRandom, this`mapAddr, this`nNew, this`vvNew
      ensures Valid() && id in vvNew[b] && vvNew == old(vvNew)[b := vvNew[b]]
      ensures id in mapInfo && SameEntry(Raised(old(mapInfo)[id]), mapInfo[id])
      ensures |lost| <= 1 && lost <= NewIds(old(mapInfo)) && id !in lost
      ensures mapInfo.Keys == old(mapInfo).Keys - lost
      ensures lost != {} ==> |old(vvNew)[b]| == NEW_BUCKET_SIZE
      ensures OneTouched(old(mapInfo), mapInfo, old(vvNew)[b], now, touched, {id})
      ensures EntriesKept(old(mapInfo), mapInfo, NewIds(old(mapInfo))) && TimesFrom(old(mapInfo), mapInfo)
    {
      RaiseReference(id);
      ghost var raised := mapInfo;
      lost, touched := {}, {};
      if |vvNew[b]| == NEW_BUCKET_SIZE {
        lost, touched := ShrinkFor(b, id, now);
      }
      TakeSlot(b, id);
      RaisedThrough(old(mapInfo), raised, mapInfo, old(vvNew)[b], now, touched, id);
    }

    method TakeSlot(b: NewIndex, id: int)
      requires Inv({id}) && id in mapInfo && id !in vvNew[b] && |vvNew[b]| < NEW_BUCKET_SIZE
      modifies this`vvNew
      ensures Valid() && vvNew == old(vvNew)[b := old(vvNew)[b] + {id}]
    {
      PayPending(mapInfo, vvNew, id, b);
      vvNew := vvNew[b := vvNew[b] + {id}];
    }

    method RaiseReference(id: int)
      requires Open(id)
      modifies this`mapInfo
      ensures Inv({id}) && mapInfo == old(mapInfo)[id := old(mapInfo)[id].(nRefCount := old(mapInfo)[id].nRefCount + 1)]
      ensures NewIds(mapInfo) == NewIds(old(mapInfo))
    {
      RaiseRef(mapInfo, vvNew, id);
      RaiseElsewhere(mapInfo, id, mapAddr, vRandom, vvTried);
      mapInfo := mapInfo[id := mapInfo[id].(nRefCount := mapInfo[id].nRefCount + 1)];
    }

    method ShrinkFor(b: NewIndex, id: int, now: int) returns (ghost lost: set<int>, ghost touched: set<int>)
      requires Inv({id}) && id in mapInfo && id !in vvNew[b] && |vvNew[b]| == NEW_BUCKET_SIZE
      modifies this`mapInfo, this`vRandom, this`mapAddr, this`nNew, this`vvNew
      ensures Inv({id}) && id in mapInfo && id !in vvNew[b] && |vvNew[b]| < NEW_BUCKET_SIZE
      ensures SameEntry(old(mapInfo)[id], mapInfo[id])
      ensures vvNew == old(vvNew)[b := vvNew[b]]
      ensures |lost| <= 1 && lost <= NewIds(old(mapInfo)) && id !in lost
      ensures mapInfo.Keys == old(mapInfo).Keys - lost
      ensures OneTouched(old(mapInfo), mapInfo, old(vvNew)[b], now, touched, {})
      ensures EntriesKept(old(mapInfo), mapInfo, NewIds(old(mapInfo))) && TimesFrom(old(mapInfo), mapInfo)
    {
      ghost var victim, drawn;
      var r;
      r, victim, drawn := ShrinkNew(b, now, {id});
      touched := {victim};
      lost := if victim in mapInfo then {} else {victim};
      assert victim in NewIds(old(mapInfo));
      assert mapInfo.Keys == old(mapInfo).Keys - lost;
      GivenUpBy(old(mapInfo), old(vvNew)[b], now, victim, r, drawn);
    }

    /** A known address: refreshes its entry, and says whether it may gain another new bucket. */
    method Refresh(id: int, addr: Address, nTimePenalty: int, now: int) returns (worth: bool, ghost draw: nat)
      requires Valid() && id in mapInfo
      modifies this`mapInfo
      ensures Valid() && mapInfo == old(mapInfo)[id := Refreshed(old(mapInfo)[id], addr, nTimePenalty, now, defaultPort)]
      ensures SameSlotsAll(old(mapInfo), mapInfo)
      ensures mapInfo[id].nRefCount >= 0 && draw < TwoTo(mapInfo[id].nRefCount) && (worth <==> MayGain(mapInfo[id], addr) && draw == 0)
    {
      var info := Refreshed(mapInfo[id], addr, nTimePenalty, now, defaultPort);
      assert RefOk(mapInfo[id]);
      Replace(id, info);
      if addr.nTime == 0 || (info.nTime != 0 && addr.nTime <= info.nTime) {
        return false, 0;
      }
      if info.fInTried || info.nRefCount == NEW_BUCKETS_PER_ADDRESS {
        return false, 0;
      }
      worth, draw := StochasticTest(info.nRefCount);
    }

    /** With n references already, one chance in 2^n: the draw from that many numbers is zero. */
    static method StochasticTest(nRefCount: nat) returns (pass: bool, ghost draw: nat)
      ensures draw < TwoTo(nRefCount) && (pass <==> draw == 0)
    {
      var nFactor := 1;
      for n := 0 to nRefCount
        invariant nFactor == TwoTo(n)
      {
        nFactor := nFactor * 2;
      }
      draw := 0;
      if nFactor > 1 {
        var drawn := GetRandInt(nFactor);
        return drawn == 0, drawn;
      }
      pass := true;
    }

    /** Overwrites an entry without changing what the tables depend on. */
    method Replace(id: int, info: AddrInfo)
      requires Valid() && id in mapInfo
      requires SameSlots(mapInfo[id], info) && info.nRandomPos == mapInfo[id].nRandomPos
      modifies this`mapInfo
      ensures Valid() && mapInfo == old(mapInfo)[id := info]
      ensures SameSlotsAll(old(mapInfo), mapInfo) && EntriesKept(old(mapInfo), mapInfo, {id})
    {
      ghost var mi := mapInfo;
      mapInfo := mapInfo[id := info];
      SlotsKept(mi, mapInfo, mapAddr, vvTried, vvNew, {});
      PlacesKept(mi, mapInfo, vRandom, mapAddr);
    }

    /** An unknown address: a fresh entry, counted as new but without a slot yet. */
    method AddEntry(addr: Address, source: NetAddr, nTimePenalty: int) returns (id: int)
      requires Valid() && addr.service.host !in mapAddr
      modifies this`nIdCount, this`mapInfo, this`mapAddr, this`vRandom, this`nNew
      ensures Open(id) && id == old(nIdCount) && id !in old(mapInfo)
      ensures mapInfo == old(mapInfo)[id := mapInfo[id]] && IsFresh(mapInfo[id])
      ensures SameEntry(FreshEntry(addr, source, nTimePenalty), mapInfo[id])
      ensures mapAddr == old(mapAddr)[addr.service.host := id]
    {
      ghost var mi, vr, ma := mapInfo, vRandom, mapAddr;
      id := Create(addr, source);
      var info := mapInfo[id].(nTime := ToUint32(Max(0, mapInfo[id].nTime - nTimePenalty)));
      mapInfo := mapInfo[id := info];
      assert mapInfo == mi[id := info];
      CreateEntry(mi, vr, ma, vvTried, vvNew, id, info);
      CreatedCounts(mi, id, info, nTried, nNew);
      nNew := nNew + 1;
    }

    /** Adding an address that has an entry. */
    method AddKnown(id: int, addr: Address, source: NetAddr, nTimePenalty: int, now: int)
      returns (ghost lost: set<int>, ghost touched: set<int>, ghost draw: nat)
      requires Valid() && id in mapInfo
      modifies this`mapInfo, this`mapAddr, this`vRandom, this`nNew, this`vvNew
      ensures Valid() && id in mapInfo && mapInfo[id].service.host == old(mapInfo)[id].service.host
      ensures KnownUpdated(old(vvNew), mapInfo, vvNew, id, newBucket(old(mapInfo)[id].service.host, source),
                           Refreshed(old(mapInfo)[id], addr, nTimePenalty, now, defaultPort), addr, draw)
      ensures OneTouched(old(mapInfo), mapInfo, old(vvNew)[newBucket(old(mapInfo)[id].service.host, source)], now, touched,
                         {id})
      ensures |lost| <= 1 && lost <= NewIds(old(mapInfo)) && mapInfo.Keys == old(mapInfo).Keys - lost
      ensures TriedKept(old(mapInfo), mapInfo) && (TimesOk(old(mapInfo)) ==> TimesOk(mapInfo))
    {
      lost, touched := {}, {};
      var worth;
      worth, draw := Refresh(id, addr, nTimePenalty, now);
      ghost var mi := mapInfo;
      SameTriedIds(old(mapInfo), mi);
      var b := newBucket(mapInfo[id].service.host, source);
      assert TimesFrom(old(mapInfo), mi);
      if worth && id !in vvNew[b] {
        lost, touched := FillSlot(b, id, now);
      }
      RefreshedTouched(old(mapInfo), mi, mapInfo, old(vvNew)[b], now, touched, id);
      TimesThrough(old(mapInfo), mi);
      TriedKeptThrough(old(mapInfo), mi, mapInfo);
      TimesThrough(mi, mapInfo);
    }

    /** Adding an address that has none. */
    method AddUnknown(addr: Address, source: NetAddr, nTimePenalty: int, now: int)
      returns (id: int, ghost lost: set<int>, ghost touched: set<int>)
      requires Valid() && addr.service.host !in mapAddr
      modifies this`nIdCount, this`mapInfo, this`mapAddr, this`vRandom, this`nNew, this`vvNew
      ensures Valid() && id == old(nIdCount) && id !in old(mapInfo) && id in mapInfo
      ensures SameEntry(Raised(FreshEntry(addr, source, nTimePenalty)), mapInfo[id])
      ensures id in vvNew[newBucket(addr.service.host, source)]
      ensures vvNew == old(vvNew)[newBucket(addr.service.host, source) := vvNew[newBucket(addr.service.host, source)]]
      ensures OneTouched(old(mapInfo), mapInfo, old(vvNew)[newBucket(addr.service.host, source)], now, touched, {})
      ensures |lost| <= 1 && lost <= NewIds(old(mapInfo)) && mapInfo.Keys == old(mapInfo).Keys - lost + {id}
      ensures TriedKept(old(mapInfo), mapInfo) && (TimesOk(old(mapInfo)) ==> TimesOk(mapInfo))
    {
      id := AddEntry(addr, source, nTimePenalty);
      ghost var mi := mapInfo;
      var b := newBucket(mapInfo[id].service.host, source);
      FreshHasNoSlot(id, b);
      lost, touched := FillSlot(b, id, now);
      AddedOutcome(old(mapInfo), mi, mapInfo, id, lost);
      AddedTouched(old(mapInfo), mi, mapInfo, old(vvNew)[b], now, touched, id);
    }

    method Add_(addr: Address, source: NetAddr, nTimePenalty: int, now: int)
      returns (fNew: bool, ghost lost: set<int>, ghost touched: set<int>, ghost draw: nat)
      requires Valid()
      modifies this`nIdCount, this`mapInfo, this`mapAddr, this`vRandom, this`nNew, this`vvNew
      ensures Valid()
      ensures fNew <==> routable(addr.service.host) && addr.service.host !in old(mapAddr)
      ensures !routable(addr.service.host) ==> unchanged(this)
      ensures routable(addr.service.host) ==> addr.service.host in mapAddr
      ensures fNew ==> var id := old(nIdCount);
                       id in mapInfo && id in vvNew[newBucket(addr.service.host, source)] &&
                       SameEntry(Raised(FreshEntry(addr, source, nTimePenalty)), mapInfo[id])
      ensures routable(addr.service.host) && !fNew ==>
                var id := old(mapAddr)[addr.service.host];
                id in old(mapInfo) &&
                KnownUpdated(old(vvNew), mapInfo, vvNew, id, newBucket(addr.service.host, source),
                             Refreshed(old(mapInfo)[id], addr, nTimePenalty, now, defaultPort), addr, draw)
      ensures OneTouched(old(mapInfo), mapInfo, old(vvNew)[newBucket(addr.service.host, source)], now, touched,
                         if addr.service.host in old(mapAddr) then {old(mapAddr)[addr.service.host]} else {})
      ensures |lost| <= 1 && lost <= NewIds(old(mapInfo))
      ensures mapInfo.Keys == old(mapInfo).Keys - lost + if fNew then {old(nIdCount)} else {}
      ensures TriedKept(old(mapInfo), mapInfo) && (TimesOk(old(mapInfo)) ==> TimesOk(mapInfo))
    {
      if !routable(addr.service.host) {
        return false, {}, {}, 0;
      }
      draw := 0;
      var found := Find(addr.service.host);
      if found.Some? {
        lost, touched, draw := AddKnown(found.value, addr, source, nTimePenalty, now);
        fNew := false;
      } else {
        var id;
        id, lost, touched := AddUnknown(addr, source, nTimePenalty, now);
        fNew := true;
      }
    }

    /** Position in a tried bucket to replace; the bucket is left shuffled. */
    method SelectTried(b: TriedIndex) returns (pos: nat, ghost k: nat, ghost draws: seq<nat>)
      requires TriedOk(mapInfo, vvTried) && vvTried[b] != []
      modifies this`vvTried
      ensures TriedOk(mapInfo, vvTried) && vvTried == old(vvTried)[b := vvTried[b]]
      ensures multiset(vvTried[b]) == multiset(old(vvTried)[b]) && |vvTried[b]| == |old(vvTried)[b]| && pos < |vvTried[b]|
      ensures Picked(old(vvTried)[b], vvTried[b], mapInfo, draws, k, pos)
    {
      forall j | 0 <= j < |vvTried[b]|
        ensures vvTried[b][j] in mapInfo
      {
        TriedMember(mapInfo, vvTried, b, vvTried[b][j]);
      }
      var shuffled;
      var drawn := DrawAll(|vvTried[b]|);
      shuffled, pos, k := ShuffleAndPick(vvTried[b], mapInfo, drawn);
      draws := drawn;
      PermuteTried(mapInfo, vvTried, b, shuffled);
      vvTried := vvTried[b := shuffled];
      TriedSlotsDiffer(mapInfo, vvTried, b, pos, k);
    }

    /** Removes an entry from all new buckets, counting its references down. */
    method ClearNewSlots(id: int)
      requires NewOk(mapInfo, vvNew, {}) && id in mapInfo
      modifies this`mapInfo, this`vvNew
      ensures NewOk(mapInfo, vvNew, {})
      ensures mapInfo == old(mapInfo)[id := old(mapInfo)[id].(nRefCount := 0)]
      ensures forall b :: 0 <= b < NEW_BUCKET_COUNT ==> vvNew[b] == old(vvNew)[b] - {id}
    {
      mapInfo, vvNew := ClearSlots(mapInfo, vvNew, id);
    }

    /** Consistent but for one entry that has left the new table and not yet entered the tried one. */
    ghost predicate Detached(id: int)
      reads this
    {
      && RandomOk(mapInfo, vRandom)
      && AddrOk(mapInfo, mapAddr)
      && NewOk(mapInfo, vvNew, {})
      && TriedOk(mapInfo, vvTried)
      && EntriesOkBut(mapInfo, nIdCount, id)
      && CountersOk(mapInfo, nTried, nNew + 1)
      && mapInfo[id].nRefCount == 0
    }

    method Detach(id: int, origin: NewIndex)
      requires Valid() && id in vvNew[origin]
      modifies this`mapInfo, this`vvNew, this`nNew
      ensures Detached(id) && |vvNew[origin]| < NEW_BUCKET_SIZE && nNew == old(nNew) - 1
      ensures id in old(mapInfo) && mapInfo == old(mapInfo)[id := old(mapInfo)[id].(nRefCount := 0)]
      ensures forall b :: 0 <= b < NEW_BUCKET_COUNT ==> vvNew[b] == old(vvNew)[b] - {id}
    {
      BucketMember(mapInfo, vvNew, {}, nIdCount, origin, id);
      ghost var mi := mapInfo;
      ClearNewSlots(id);
      DetachedRest(mi, id, mapAddr, vRandom, vvTried);
      nNew := nNew - 1;
    }

    /** There is room in the tried bucket. */
    method PlaceTried(id: int, b: TriedIndex)
      requires Detached(id) && |vvTried[b]| < TRIED_BUCKET_SIZE
      modifies this`mapInfo, this`vvTried, this`nTried
      ensures Valid() && mapInfo == old(mapInfo)[id := old(mapInfo)[id].(fInTried := true)]
      ensures nTried == old(nTried) + 1 && TriedTook(old(mapInfo), old(vvTried), vvTried, b, id, None)
    {
      var info := mapInfo[id].(fInTried := true);
      PushTried(mapInfo, vvTried, b, id, info);
      BecomesTried(mapInfo, id, info, mapAddr, vRandom, vvNew, nIdCount);
      vvTried := vvTried[b := vvTried[b] + [id]];
      nTried := nTried + 1;
      mapInfo := mapInfo[id := info];
    }

    /** The tried bucket is full: one of its entries goes back to a new bucket. */
    method EvictTried(id: int, b: TriedIndex, origin: NewIndex) returns (ghost e: Eviction)
      requires Detached(id) && |vvTried[b]| == TRIED_BUCKET_SIZE && |vvNew[origin]| < NEW_BUCKET_SIZE
      modifies this`mapInfo, this`vvTried, this`vvNew, this`nNew
      ensures Valid() && nNew == old(nNew) + 1
      ensures e.out in old(mapInfo) && old(mapInfo)[e.out].fInTried && e.out != id
      ensures mapInfo == old(mapInfo)[e.out := old(mapInfo)[e.out].(fInTried := false, nRefCount := 1)]
                                     [id := old(mapInfo)[id].(fInTried := true)]
      ensures TriedTook(old(mapInfo), old(vvTried), vvTried, b, id, Some(e))
      ensures var to := ReturnsTo(old(vvNew), newBucket(mapInfo[e.out].service.host, mapInfo[e.out].source), origin);
              vvNew == old(vvNew)[to := old(vvNew)[to] + {e.out}]
    {
      ghost var k, draws;
      var pos;
      pos, k, draws := SelectTried(b);
      e := Eviction(vvTried[b][pos], vvTried[b], draws, k, pos);
      SwapIn(id, b, pos, origin);
    }

    /** The entry takes the position of another one, which returns to the new table. */
    method SwapIn(id: int, b: TriedIndex, pos: nat, origin: NewIndex)
      requires Detached(id) && pos < |vvTried[b]| && |vvNew[origin]| < NEW_BUCKET_SIZE
      modifies this`mapInfo, this`vvTried, this`vvNew, this`nNew
      ensures Valid() && nNew == old(nNew) + 1
      ensures var out := old(vvTried)[b][pos];
              && out in old(mapInfo) && old(mapInfo)[out].fInTried && out != id
              && mapInfo == old(mapInfo)[out := old(mapInfo)[out].(fInTried := false, nRefCount := 1)]
                                        [id := old(mapInfo)[id].(fInTried := true)]
              && var to := ReturnsTo(old(vvNew), newBucket(old(mapInfo)[out].service.host, old(mapInfo)[out].source), origin);
                 vvNew == old(vvNew)[to := old(vvNew)[to] + {out}]
      ensures vvTried == old(vvTried)[b := old(vvTried)[b][pos := id]]
    {
      var gone := vvTried[b][pos];
      var info := mapInfo[id].(fInTried := true);
      TriedMember(mapInfo, vvTried, b, gone);
      var evicted := mapInfo[gone].(fInTried := false, nRefCount := 1);
      var target := ReturnsTo(vvNew, newBucket(mapInfo[gone].service.host, mapInfo[gone].source), origin);
      FirstSlot(mapInfo, vvNew, target, gone, evicted);
      ChangesPlaces(mapInfo, id, info, gone, evicted, mapAddr, vRandom, vvNew[target := vvNew[target] + {gone}], nIdCount);
      ReplaceCounted(mapInfo, vvTried, b, pos, id, info, evicted, nTried, nNew + 1);
      vvNew := vvNew[target := vvNew[target] + {gone}];
      nNew := nNew + 1;
      mapInfo := mapInfo[gone := evicted];
      vvTried := vvTried[b := vvTried[b][pos := id]];
      mapInfo := mapInfo[id := info];
    }

    /** Moves an entry to the tried bucket of its service, where another one may have to make room. */
    method MakeTried(id: int, origin: NewIndex) returns (ghost e: Option<Eviction>)
      requires Valid() && id in vvNew[origin]
      modifies this`mapInfo, this`vvTried, this`vvNew, this`nNew, this`nTried
      ensures Valid() && MadeTried(old(mapInfo), mapInfo, id, OutOf(e))
      ensures TriedTook(old(mapInfo), old(vvTried), vvTried, triedBucket(old(mapInfo)[id].service), id, e)
      ensures NewGave(old(mapInfo), old(vvNew), vvNew, id, origin, e, newBucket)
      ensures nTried == old(nTried) + if e.None? then 1 else 0
      ensures nTried + nNew == old(nTried) + old(nNew)
    {
      Detach(id, origin);
      ghost var detached, cleared, vt := mapInfo, vvNew, vvTried;
      var b := triedBucket(mapInfo[id].service);
      if |vvTried[b]| < TRIED_BUCKET_SIZE {
        PlaceTried(id, b);
        e := None;
      } else {
        ghost var room := EvictTried(id, b, origin);
        e := Some(room);
      }
      MadeTriedIs(old(mapInfo), detached, mapInfo, id, OutOf(e));
      TookSame(old(mapInfo), detached, vt, vvTried, b, id, e);
      GaveIs(old(mapInfo), mapInfo, old(vvNew), cleared, vvNew, id, origin, e, newBucket);
    }

    /** Scans the new buckets from a random start for one that holds the entry. */
    method FindBucket(id: int) returns (nUBucket: int)
      requires Valid()
      ensures -1 <= nUBucket < NEW_BUCKET_COUNT
      ensures nUBucket >= 0 ==> id in vvNew[nUBucket]
      ensures id in mapInfo && !mapInfo[id].fInTried ==> nUBucket >= 0
    {
      var nRnd := GetRandInt(|vvNew|);
      nUBucket := -1;
      for n := 0 to |vvNew|
        invariant forall m :: 0 <= m < n ==> id !in vvNew[Rotated(m, nRnd)]
      {
        var nB := Rotated(n, nRnd);
        if id in vvNew[nB] {
          return nB;
        }
      }
      ScannedAll(vvNew, id, nRnd);
      NewSlotMember(vvNew, id);
      assert NewSlots(vvNew)[id] == Owed(mapInfo, {}, id);
    }

    /** A connection succeeded: the entry is refreshed and, unless tried already, moves to the tried table. */
    method Good_(addr: Service, nTime: int) returns (ghost e: Option<Eviction>, ghost origin: NewIndex)
      requires Valid()
      modifies this`mapInfo, this`vvTried, this`vvNew, this`nNew, this`nTried
      ensures Valid()
      ensures !Known(old(mapInfo), mapAddr, addr) ==>
                mapInfo == old(mapInfo) && vvTried == old(vvTried) && vvNew == old(vvNew)
      ensures Known(old(mapInfo), mapAddr, addr) ==>
                var id := mapAddr[addr.host];
                var seen := old(mapInfo)[id := Succeeded(old(mapInfo)[id], nTime)];
                if old(mapInfo)[id].fInTried
                then mapInfo == seen && vvTried == old(vvTried) && vvNew == old(vvNew)
                else
                  && MadeTried(seen, mapInfo, id, OutOf(e)) && TriedTook(seen, old(vvTried), vvTried, triedBucket(addr), id, e)
                  && |old(vvNew)| == NEW_BUCKET_COUNT && id in old(vvNew)[origin]
                  && NewGave(seen, old(vvNew), vvNew, id, origin, e, newBucket)
      ensures nTried + nNew == old(nTried) + old(nNew) && nTried >= old(nTried)
    {
      e, origin := None, 0;
      var found := Find(addr.host);
      if found.None? || mapInfo[found.value].service != addr {
        return;
      }
      var id := found.value;
      Replace(id, Succeeded(mapInfo[id], nTime));
      if mapInfo[id].fInTried {
        return;
      }
      var nUBucket := FindBucket(id);
      if nUBucket == -1 {
        return;
      }
      origin := nUBucket;
      e := MakeTried(id, nUBucket);
    }

    /** A connection attempt started. */
    method Attempt_(addr: Service, nTime: int)
      requires Valid()
      modifies this`mapInfo
      ensures Valid()
      ensures mapInfo == if !Known(old(mapInfo), mapAddr, addr) then old(mapInfo)
                         else var id := mapAddr[addr.host];
                              var info := old(mapInfo)[id];
                              old(mapInfo)[id := info.(nLastTry := nTime, nAttempts := info.nAttempts + 1)]
    {
      var found := Find(addr.host);
      if found.None? || mapInfo[found.value].service != addr {
        return;
      }
      var info := mapInfo[found.value];
      Replace(found.value, info.(nLastTry := nTime, nAttempts := info.nAttempts + 1));
    }

    /** The peer is still connected: its time advances in steps of twenty minutes. */
    method Connected_(addr: Service, nTime: int)
      requires Valid()
      modifies this`mapInfo
      ensures Valid()
      ensures mapInfo == if !Known(old(mapInfo), mapAddr, addr) then old(mapInfo)
                         else var id := mapAddr[addr.host];
                              var info := old(mapInfo)[id];
                              if nTime - info.nTime > 20 * 60 then old(mapInfo)[id := info.(nTime := ToUint32(nTime))]
                              else old(mapInfo)
    {
      var found := Find(addr.host);
      if found.None? || mapInfo[found.value].service != addr {
        return;
      }
      var info := mapInfo[found.value];
      if nTime - info.nTime > 20 * 60 {
        Replace(found.value, info.(nTime := ToUint32(nTime)));
      }
    }

    /** A random selection without repetition, drawn by shuffling the front of vRandom. */
    method GetAddr_() returns (vAddr: seq<Address>)
      requires Valid()
      modifies this`mapInfo, this`vRandom
      ensures Valid() && SameSlotsAll(old(mapInfo), mapInfo) && EntriesKept(old(mapInfo), mapInfo, {})
      ensures |vAddr| == if |vRandom| < 2500 then |vRandom| else 2500
      ensures |vRandom| == |old(vRandom)|
      ensures forall i :: 0 <= i < |vAddr| ==> vRandom[i] in mapInfo && vAddr[i] == AddressOf(mapInfo[vRandom[i]])
      ensures forall i, j :: 0 <= i < j < |vAddr| ==> vAddr[i].service.host != vAddr[j].service.host
    {
      var nNodes := GETADDR_MAX_PCT * |vRandom| / 100;
      if nNodes > GETADDR_MAX {
        nNodes := GETADDR_MAX;
      }
      vAddr := [];
      NothingDrawn(mapInfo, vRandom);
      for n := 0 to nNodes
        invariant |vRandom| == |old(vRandom)| && Drawn(old(mapInfo), mapInfo, vRandom, vAddr) && |vAddr| == n
      {
        var next := DrawNext(vAddr, old(mapInfo));
        vAddr := vAddr + [next];
      }
      SlotsKept(old(mapInfo), mapInfo, mapAddr, vvTried, vvNew, {});
      GetAddrRest(old(mapInfo), mapInfo, vRandom, mapAddr, vAddr, nIdCount);
    }

    /** Draws one more address, from those that are not yet in front. */
    method DrawNext(vAddr: seq<Address>, ghost mi: Infos) returns (next: Address)
      requires |vAddr| < |vRandom| && Drawn(mi, mapInfo, vRandom, vAddr)
      modifies this`mapInfo, this`vRandom
      ensures |vRandom| == |old(vRandom)| && Drawn(mi, mapInfo, vRandom, vAddr + [next])
    {
      var n := |vAddr|;
      var draw := GetRandInt(|vRandom| - n);
      SwapRandom(n, draw + n);
      next := AddressOf(mapInfo[vRandom[n]]);
      DrawnOn(mi, old(mapInfo), old(vRandom), vAddr, mapInfo, vRandom, next);
    }

    /** An entry without references is in no bucket. */
    lemma FreshHasNoSlot(id: int, b: NewIndex)
      requires Open(id) && mapInfo[id].nRefCount == 0
      ensures id !in vvNew[b]
    {
      NewSlotMember(vvNew, id);
      assert NewSlots(vvNew)[id] == Owed(mapInfo, {}, id);
    }
  }

  /** Tried entries stay, as tried entries of the same host. */
  ghost predicate TriedKept(a: Infos, b: Infos)
  {
    forall i :: i in TriedIds(a) ==> i in b && SameSlots(a[i], b[i])
  }

  lemma TriedKeptThrough(a: Infos, b: Infos, c: Infos)
    requires SameSlotsAll(a, b) || EntriesKept(a, b, {})
    requires EntriesKept(b, c, NewIds(b))
    ensures TriedKept(a, c)
  {
    forall i | i in TriedIds(a)
      ensures i in c && SameSlots(a[i], c[i])
    {
      if SameSlotsAll(a, b) {
        assert i in b.Keys && SameSlots(a[i], b[i]);
      } else {
        assert SameEntry(a[i], b[i]);
      }
      assert SameEntry(b[i], c[i]);
    }
  }

  lemma SameTriedIds(a: Infos, b: Infos)
    requires SameSlotsAll(a, b)
    ensures TriedIds(a) == TriedIds(b) && NewIds(a) == NewIds(b)
  {
    SlotsKept(a, b, map[], [], [], {});
  }

  /** What a full bucket loses is the same whether counted before or after the new reference. */
  lemma {:induction false} RaisedThrough(a: Infos, b: Infos, c: Infos, bucket: set<int>, now: int, touched: set<int>, id: int)
    requires id in a && !a[id].fInTried && id in c && b == a[id := Raised(a[id])] && id !in bucket
    requires OneTouched(b, c, bucket, now, touched, {}) && EntriesKept(b, c, NewIds(b)) && TimesFrom(b, c)
    ensures OneTouched(a, c, bucket, now, touched, {id}) && EntriesKept(a, c, NewIds(a)) && TimesFrom(a, c)
  {
    forall t | t in touched
      ensures GivenUp(a, bucket, now, t) && a[t] == b[t]
    {
      GivenUpSame(b, a, bucket, now, t);
    }
    forall i | i in a && i !in touched + {id}
      ensures i in c && SameEntry(a[i], c[i])
    {
      assert i in b && i !in touched + {} && a[i] == b[i];
    }
    forall i | i in a && i !in NewIds(a)
      ensures i in c && SameEntry(a[i], c[i])
    {
      assert i in b && i !in NewIds(b) && a[i] == b[i];
    }
    forall i | i in c
      ensures i in a && SameTimes(a[i], c[i])
    {
      assert i in b && SameTimes(b[i], c[i]);
    }
  }

  lemma {:induction false} ForgetOk(mi: Infos, m: Infos, vr: seq<int>, ma: map<NetAddr, int>, vt: seq<seq<int>>, id: int,
                                    nTried: int, nNew: int)
    requires SameSlotsAll(mi, m) && EntriesKept(mi, m, {}) && RandomOk(m, vr) && AddrOk(mi, ma) && TriedOk(mi, vt)
    requires CountersOk(mi, nTried, nNew) && id in m && !m[id].fInTried && m[id].nRandomPos == |vr| - 1
    ensures RandomOk(m - {id}, vr[..|vr| - 1]) && AddrOk(m - {id}, ma - {m[id].service.host}) && TriedOk(m - {id}, vt)
    ensures (m - {id}).Keys == mi.Keys - {id} && EntriesKept(mi, m - {id}, {id})
    ensures CountersOk(m - {id}, nTried, nNew - 1)
  {
    SlotsKept(mi, m, ma, vt, [], {});
    ForgetLast(m, vr, ma, id);
  }

  lemma KeptTwice(a: Infos, b: Infos, c: Infos, except: set<int>)
    requires EntriesKept(a, b, except) && EntriesKept(b, c, except)
    ensures EntriesKept(a, c, except)
  {
    forall i | i in a && i !in except
      ensures i in c && SameEntry(a[i], c[i])
    {
      assert SameEntry(a[i], b[i]) && SameEntry(b[i], c[i]);
    }
  }

  /** The loop over all new buckets. */
  method ClearSlots(mi0: Infos, vn0: seq<set<int>>, id: int) returns (mi: Infos, vn: seq<set<int>>)
    requires NewOk(mi0, vn0, {}) && id in mi0
    ensures NewOk(mi, vn, {}) && mi == mi0[id := mi0[id].(nRefCount := 0)]
    ensures forall b :: 0 <= b < NEW_BUCKET_COUNT ==> vn[b] == vn0[b] - {id}
  {
    mi, vn := mi0, vn0;
    var i := 0;
    while i < |vn|
      invariant ClearedTo(mi0, vn0, mi, vn, id, i)
    {
      ClearNext(mi0, vn0, mi, vn, id, i);
      if id in vn[i] {
        mi := mi[id := mi[id].(nRefCount := mi[id].nRefCount - 1)];
        vn := vn[i := vn[i] - {id}];
      }
      i := i + 1;
    }
    NewSlotMember(vn, id);
    assert NewSlots(vn)[id] == Owed(mi, {}, id);
  }

  /** The first i buckets are cleared of the entry, and its references have gone down with them. */
  ghost predicate ClearedTo(mi0: Infos, vn0: seq<set<int>>, mi: Infos, vn: seq<set<int>>, id: int, i: nat)
  {
    && id in mi0 && id in mi && NewOk(mi, vn, {}) && mi == mi0[id := mi0[id].(nRefCount := mi[id].nRefCount)]
    && i <= |vn| == |vn0| == NEW_BUCKET_COUNT
    && (forall b :: 0 <= b < |vn| ==> vn[b] == if b < i then vn0[b] - {id} else vn0[b])
  }

  lemma {:induction false} ClearNext(mi0: Infos, vn0: seq<set<int>>, mi: Infos, vn: seq<set<int>>, id: int, i: nat)
    requires ClearedTo(mi0, vn0, mi, vn, id, i) && i < |vn|
    ensures if id in vn[i]
            then ClearedTo(mi0, vn0, mi[id := mi[id].(nRefCount := mi[id].nRefCount - 1)], vn[i := vn[i] - {id}], id, i + 1)
            else ClearedTo(mi0, vn0, mi, vn, id, i + 1)
  {
    if id in vn[i] {
      DropOne(mi, vn, i, id);
      var mi', vn' := mi[id := mi[id].(nRefCount := mi[id].nRefCount - 1)], vn[i := vn[i] - {id}];
      forall b | 0 <= b < |vn'|
        ensures vn'[b] == if b < i + 1 then vn0[b] - {id} else vn0[b]
      {
        assert vn[b] == if b < i then vn0[b] - {id} else vn0[b];
      }
      assert ClearedTo(mi0, vn0, mi', vn', id, i + 1);
    } else {
      assert vn[i] == vn0[i] == vn0[i] - {id};
    }
  }

  lemma {:induction false} DropOne(mi: Infos, vn: seq<set<int>>, b: nat, id: int)
    requires NewOk(mi, vn, {}) && b < |vn| && id in vn[b] && id in mi
    ensures NewOk(mi[id := mi[id].(nRefCount := mi[id].nRefCount - 1)], vn[b := vn[b] - {id}], {})
  {
    DropSlot(mi, mi[id := mi[id].(nRefCount := mi[id].nRefCount - 1)], vn, {}, b, id);
  }

  /** The first entry in order that is terrible, if any is. */
  method FirstTerrible(mi: Infos, order: seq<int>, now: int) returns (i: nat)
    requires forall k :: 0 <= k < |order| ==> order[k] in mi
    ensures i <= |order| && (forall j :: 0 <= j < i ==> !IsTerrible(mi[order[j]], now))
    ensures i < |order| ==> IsTerrible(mi[order[i]], now)
  {
    i := 0;
    while i < |order|
      invariant i <= |order| && forall j :: 0 <= j < i ==> !IsTerrible(mi[order[j]], now)
    {
      if IsTerrible(mi[order[i]], now) {
        return;
      }
      i := i + 1;
    }
  }

  lemma BeforeInOrder(s: set<int>, i: nat)
    requires i < |Ascending(s)|
    ensures forall id :: id in s && id < Ascending(s)[i] ==> exists j :: 0 <= j < i && Ascending(s)[j] == id
  {
    var order := Ascending(s);
    forall id | id in s && id < order[i]
      ensures exists j :: 0 <= j < i && order[j] == id
    {
      assert id in order;
      var j :| 0 <= j < |order| && order[j] == id;
      assert j < i;
    }
  }

  lemma FourAtMost(a: int, b: int, c: int, d: int, s: set<int>)
    requires s <= {a, b, c, d}
    ensures |s| <= 4
  {
    SubsetSize(s, {a, b, c, d});
  }

  lemma {:induction false} SubsetSize(a: set<int>, b: set<int>)
    requires a <= b
    ensures |a| <= |b|
  {
    assert b == a + (b - a);
  }

  lemma RaiseElsewhere(mi: Infos, id: int, ma: map<NetAddr, int>, vr: seq<int>, vt: seq<seq<int>>)
    requires id in mi && RandomOk(mi, vr) && AddrOk(mi, ma) && TriedOk(mi, vt)
    ensures var m := mi[id := mi[id].(nRefCount := mi[id].nRefCount + 1)];
            && RandomOk(m, vr) && AddrOk(m, ma) && TriedOk(m, vt)
            && TriedIds(m) == TriedIds(mi) && NewIds(m) == NewIds(mi)
  {
    var m := mi[id := mi[id].(nRefCount := mi[id].nRefCount + 1)];
    assert TriedIds(m) == TriedIds(mi);
  }

  predicate IsFresh(info: AddrInfo)
  {
    info.nRefCount == 0 && !info.fInTried && info.nLastTry == 0 && info.nLastSuccess == 0
  }

  lemma CreatedCounts(mi: Infos, id: int, info: AddrInfo, nTried: int, nNew: int)
    requires EntriesOk(mi, id) && CountersOk(mi, nTried, nNew) && id >= 0 && IsFresh(info)
    ensures EntriesOkBut(mi[id := info], id + 1, id)
    ensures CountersOk(mi[id := info], nTried, nNew + 1)
  {
    CreatedRoles(mi, id, info);
  }

  lemma CreatedRoles(mi: Infos, id: int, info: AddrInfo)
    requires id !in mi && !info.fInTried
    ensures id !in NewIds(mi) && NewIds(mi[id := info]) == NewIds(mi) + {id} && TriedIds(mi[id := info]) == TriedIds(mi)
  {
  }

  lemma CreatedRest(mi: Infos, id: int, info: AddrInfo)
    requires id !in mi && IsFresh(info)
    ensures EntriesKept(mi, mi[id := info], {})
    ensures NewIds(mi[id := info]) == NewIds(mi) + {id}
    ensures TimesOk(mi) ==> TimesOk(mi[id := info])
  {
  }

  lemma SwapMultiset(s: seq<int>, i: nat, p: nat)
    requires i < |s| && p < |s|
    ensures multiset(s[p := s[i]][i := s[p]]) == multiset(s)
  {
  }

  /** One entry became tried; if its bucket was full, one tried entry became new again. */
  ghost predicate MadeTried(a: Infos, b: Infos, id: int, evicted: Option<int>)
  {
    && id in a && !a[id].fInTried
    && match evicted
       case None => b == a[id := a[id].(nRefCount := 0, fInTried := true)]
       case Some(out) =>
         && out in a && a[out].fInTried
         && b == a[out := a[out].(fInTried := false, nRefCount := 1)][id := a[id].(nRefCount := 0, fInTried := true)]
  }

  lemma MadeTriedIs(a: Infos, detached: Infos, b: Infos, id: int, evicted: Option<int>)
    requires id in a && !a[id].fInTried && detached == a[id := a[id].(nRefCount := 0)]
    requires match evicted
             case None => b == detached[id := detached[id].(fInTried := true)]
             case Some(out) =>
               && out in detached && detached[out].fInTried && out != id
               && b == detached[out := detached[out].(fInTried := false, nRefCount := 1)][id := detached[id].(fInTried := true)]
    ensures MadeTried(a, b, id, evicted)
  {
  }

  /** The count of references of another entry plays no part in picking. */
  lemma {:induction false} TookSame(mi: Infos, m: Infos, vt: seq<seq<int>>, vt': seq<seq<int>>, b: nat, id: int, e: Option<Eviction>)
    requires id in mi && m == mi[id := mi[id].(nRefCount := 0)] && TriedTook(m, vt, vt', b, id, e)
    ensures TriedTook(mi, vt, vt', b, id, e)
  {
    if e.Some? {
      OldestSame(mi, m, e.value.shuffled, |e.value.draws|, e.value.k);
    }
  }

  lemma OldestSame(mi: Infos, m: Infos, r: seq<int>, n: nat, k: nat)
    requires m.Keys == mi.Keys && (forall i :: i in mi ==> m[i].nLastSuccess == mi[i].nLastSuccess) && Oldest(r, m, n, k)
    ensures Oldest(r, mi, n, k)
  {
    forall j | 0 <= j < n
      ensures r[j] in mi && m[r[j]].nLastSuccess == mi[r[j]].nLastSuccess
    {
      var id := r[j];
      assert id in m.Keys;
      assert id in mi;
    }
  }

  lemma {:induction false} GaveIs(mi: Infos, m: Infos, vn: seq<set<int>>, cleared: seq<set<int>>, vn': seq<set<int>>, id: int,
                                  origin: NewIndex, e: Option<Eviction>, newBucket: (NetAddr, NetAddr) -> NewIndex)
    requires |vn| == |cleared| == NEW_BUCKET_COUNT && forall b :: 0 <= b < NEW_BUCKET_COUNT ==> cleared[b] == vn[b] - {id}
    requires match e
             case None => vn' == cleared
             case Some(e) =>
               && e.out in mi && e.out in m && SameEnds(mi[e.out], m[e.out])
               && var b := ReturnsTo(cleared, newBucket(m[e.out].service.host, m[e.out].source), origin);
                  vn' == cleared[b := cleared[b] + {e.out}]
    ensures NewGave(mi, vn, vn', id, origin, e, newBucket)
  {
  }

  /** The service and the source of the address are the same. */
  predicate SameEnds(a: AddrInfo, b: AddrInfo)
  {
    a.service == b.service && a.source == b.source
  }

  lemma {:induction false} DetachedRest(mi: Infos, id: int, ma: map<NetAddr, int>, vr: seq<int>, vt: seq<seq<int>>)
    requires id in mi && RandomOk(mi, vr) && AddrOk(mi, ma) && TriedOk(mi, vt)
    ensures var m := mi[id := mi[id].(nRefCount := 0)];
            && RandomOk(m, vr) && AddrOk(m, ma) && TriedOk(m, vt)
            && TriedIds(m) == TriedIds(mi) && NewIds(m) == NewIds(mi)
  {
    var m := mi[id := mi[id].(nRefCount := 0)];
    assert TriedIds(m) == TriedIds(mi);
  }

  lemma {:induction false} BecomesTried(mi: Infos, id: int, info: AddrInfo, ma: map<NetAddr, int>, vr: seq<int>,
                                        vn: seq<set<int>>, nIdCount: int)
    requires RandomOk(mi, vr) && AddrOk(mi, ma) && NewOk(mi, vn, {}) && EntriesOkBut(mi, nIdCount, id)
    requires mi[id].nRefCount == 0 && info == mi[id].(fInTried := true)
    ensures RandomOk(mi[id := info], vr) && AddrOk(mi[id := info], ma)
    ensures NewOk(mi[id := info], vn, {}) && EntriesOk(mi[id := info], nIdCount)
  {
    var m := mi[id := info];
    PlacesKept(mi, m, vr, ma);
    forall i ensures Owed(m, {}, i) == Owed(mi, {}, i) {
    }
  }

  lemma {:induction false} ReplaceCounted(mi: Infos, vt: seq<seq<int>>, b: nat, p: nat, id: int,
                                          info: AddrInfo, evicted: AddrInfo, nTried: int, nNew: int)
    requires TriedOk(mi, vt) && b < |vt| && p < |vt[b]| && CountersOk(mi, nTried, nNew)
    requires id in mi && !mi[id].fInTried && info.fInTried && !evicted.fInTried
    ensures var m := mi[vt[b][p] := evicted][id := info];
            TriedOk(m, vt[b := vt[b][p := id]]) && CountersOk(m, nTried, nNew)
  {
    ReplaceTried(mi, vt, b, p, id, info, evicted);
    assert |TriedIds(mi) - {vt[b][p]} + {id}| == |TriedIds(mi)|;
    assert |NewIds(mi) - {id} + {vt[b][p]}| == |NewIds(mi)|;
  }

  lemma {:induction false} ChangesPlaces(mi: Infos, id: int, info: AddrInfo, out: int, evicted: AddrInfo,
                                         ma: map<NetAddr, int>, vr: seq<int>, vn: seq<set<int>>, nIdCount: int)
    requires RandomOk(mi, vr) && AddrOk(mi, ma) && EntriesOkBut(mi, nIdCount, id) && out in mi && out != id
    requires mi[id].nRefCount == 0 && info == mi[id].(fInTried := true)
    requires evicted == mi[out].(fInTried := false, nRefCount := 1)
    requires NewOk(mi[out := evicted], vn, {})
    ensures var m := mi[out := evicted][id := info];
            RandomOk(m, vr) && AddrOk(m, ma) && NewOk(m, vn, {}) && EntriesOk(m, nIdCount)
  {
    var m := mi[out := evicted][id := info];
    PlacesKept(mi, m, vr, ma);
    var m0 := mi[out := evicted];
    forall i ensures Owed(m, {}, i) == Owed(m0, {}, i) {
    }
  }

  function Rotated(n: nat, start: nat): nat
  {
    (n + start) % NEW_BUCKET_COUNT
  }

  lemma ScannedAll(vn: seq<set<int>>, id: int, start: nat)
    requires |vn| == NEW_BUCKET_COUNT && start < NEW_BUCKET_COUNT
    requires forall m :: 0 <= m < NEW_BUCKET_COUNT ==> id !in vn[Rotated(m, start)]
    ensures forall b :: 0 <= b < |vn| ==> id !in vn[b]
  {
    forall b | 0 <= b < |vn|
      ensures id !in vn[b]
    {
      var m := if b >= start then b - start else b - start + NEW_BUCKET_COUNT;
      assert Rotated(m, start) == b;
    }
  }

  /** The tables hold this very service, port included. */
  predicate Known(mi: Infos, ma: map<NetAddr, int>, addr: Service)
  {
    addr.host in ma && ma[addr.host] in mi && mi[ma[addr.host]].service == addr
  }

  function Succeeded(info: AddrInfo, nTime: int): AddrInfo
  {
    info.(nLastSuccess := nTime, nLastTry := nTime, nTime := ToUint32(nTime), nAttempts := 0)
  }

  function AddressOf(info: AddrInfo): Address
  {
    Address(info.service, info.nServices, info.nTime)
  }

  lemma KeptChain(a: Infos, b: Infos, c: Infos)
    requires SameSlotsAll(a, b) && EntriesKept(a, b, {}) && SameSlotsAll(b, c) && EntriesKept(b, c, {})
    ensures SameSlotsAll(a, c) && EntriesKept(a, c, {})
  {
    KeptTwice(a, b, c, {});
    forall i | i in a
      ensures SameSlots(a[i], c[i])
    {
      assert i in b && SameSlots(a[i], b[i]) && SameSlots(b[i], c[i]);
    }
  }

  /** The addresses drawn so far are those in front of vRandom; entries have only changed places. */
  ghost predicate Drawn(mi: Infos, m: Infos, vr: seq<int>, vAddr: seq<Address>)
  {
    && RandomOk(m, vr) && SameSlotsAll(mi, m) && EntriesKept(mi, m, {}) && |vAddr| <= |vr|
    && forall i :: 0 <= i < |vAddr| ==> vr[i] in m && vAddr[i] == AddressOf(m[vr[i]])
  }

  lemma NothingDrawn(mi: Infos, vr: seq<int>)
    requires RandomOk(mi, vr)
    ensures Drawn(mi, mi, vr, [])
  {
  }

  lemma {:induction false} DrawnOn(mi: Infos, was: Infos, vr: seq<int>, vAddr: seq<Address>, m: Infos, vs: seq<int>, next: Address)
    requires Drawn(mi, was, vr, vAddr) && RandomOk(m, vs) && SameSlotsAll(was, m) && EntriesKept(was, m, {})
    requires |vAddr| < |vr| == |vs| && vr[..|vAddr|] == vs[..|vAddr|]
    requires vs[|vAddr|] in m && next == AddressOf(m[vs[|vAddr|]])
    ensures Drawn(mi, m, vs, vAddr + [next])
  {
    KeptChain(mi, was, m);
    assert forall i :: 0 <= i < |vAddr| ==> vs[i] == vr[..|vAddr|][i] == vr[i];
    AddressesKept(was, m, vs, vAddr, |vAddr|);
  }

  /** Places in vRandom do not show in the addresses handed out. */
  lemma AddressesKept(mi: Infos, m: Infos, vr: seq<int>, vAddr: seq<Address>, n: nat)
    requires EntriesKept(mi, m, {}) && n <= |vr| && n <= |vAddr|
    requires forall i :: 0 <= i < n ==> vr[i] in mi && vAddr[i] == AddressOf(mi[vr[i]])
    ensures forall i :: 0 <= i < n ==> vr[i] in m && vAddr[i] == AddressOf(m[vr[i]])
  {
    forall i | 0 <= i < n
      ensures vr[i] in m && vAddr[i] == AddressOf(m[vr[i]])
    {
      var id := vr[i];
      assert id in mi && SameEntry(mi[id], m[id]);
    }
  }

  lemma GetAddrRest(mi: Infos, m: Infos, vr: seq<int>, ma: map<NetAddr, int>, vAddr: seq<Address>, nIdCount: int)
    requires EntriesOk(mi, nIdCount) && SameSlotsAll(mi, m) && RandomOk(m, vr) && AddrOk(m, ma) && |vAddr| <= |vr|
    requires forall i :: 0 <= i < |vAddr| ==> vr[i] in m && vAddr[i] == AddressOf(m[vr[i]])
    ensures EntriesOk(m, nIdCount)
    ensures forall i, j :: 0 <= i < j < |vAddr| ==> vAddr[i].service.host != vAddr[j].service.host
  {
    forall id | id in m
      ensures 0 <= id < nIdCount && RefOk(m[id])
    {
      assert id in m.Keys;
      assert id in mi && SameSlots(mi[id], m[id]);
    }
    forall i, j | 0 <= i < j < |vAddr|
      ensures vAddr[i].service.host != vAddr[j].service.host
    {
      var a, b := vr[i], vr[j];
      assert m[a].nRandomPos == i && m[b].nRandomPos == j;
      assert ma[m[a].service.host] == a && ma[m[b].service.host] == b;
    }
  }

  lemma {:induction false} AddedTouched(was: Infos, mi: Infos, m: Infos, bucket: set<int>, now: int, touched: set<int>, id: int)
    requires id !in was && id in mi && mi == was[id := mi[id]] && OneTouched(mi, m, bucket, now, touched, {id}) && id !in bucket
    ensures OneTouched(was, m, bucket, now, touched, {})
  {
    forall t | t in touched
      ensures GivenUp(was, bucket, now, t) && was[t] == mi[t]
    {
      GivenUpSame(mi, was, bucket, now, t);
    }
  }

  lemma {:induction false} GivenUpBy(mi: Infos, bucket: set<int>, now: int, victim: int, r: int, drawn: set<int>)
    requires bucket <= mi.Keys && victim in bucket && (r == 0 ==> IsTerrible(mi[victim], now))
    requires forall id :: id in bucket && (r == 1 || id < victim) ==> !IsTerrible(mi[id], now)
    requires (r == 0 || r == 1) && (r == 1 ==> victim in drawn && drawn <= bucket && |drawn| <= 4)
    requires r == 1 ==> forall id :: id in drawn ==> mi[victim].nTime <= mi[id].nTime
    ensures GivenUp(mi, bucket, now, victim)
  {
  }

  /** Refreshing an entry outside the bucket makes no difference to what the bucket gave up. */
  lemma {:induction false} RefreshedTouched(a: Infos, b: Infos, c: Infos, bucket: set<int>, now: int, touched: set<int>, id: int)
    requires id in a && id in b && b == a[id := b[id]] && OneTouched(b, c, bucket, now, touched, {id}) && (touched != {} ==> id !in bucket)
    ensures OneTouched(a, c, bucket, now, touched, {id})
  {
    forall t | t in touched
      ensures GivenUp(a, bucket, now, t) && a[t] == b[t]
    {
      GivenUpSame(b, a, bucket, now, t);
    }
  }

  lemma AddedOutcome(was: Infos, mi: Infos, m: Infos, id: int, lost: set<int>)
    requires id !in was && id in mi && IsFresh(mi[id]) && mi == was[id := mi[id]]
    requires EntriesKept(mi, m, NewIds(mi)) && TimesFrom(mi, m)
    requires lost <= NewIds(mi) && id !in lost && m.Keys == mi.Keys - lost
    ensures lost <= NewIds(was) && m.Keys == was.Keys - lost + {id}
    ensures TriedKept(was, m) && (TimesOk(was) ==> TimesOk(m))
  {
    CreatedRest(was, id, mi[id]);
    TriedKeptThrough(was, mi, m);
    TimesThrough(mi, m);
  }

  lemma EmptyTables()
    ensures var vt: seq<seq<int>> := seq(TRIED_BUCKET_COUNT, _ => []);
            ListSlots(vt) == multiset{}
    ensures var vn: seq<set<int>> := seq(NEW_BUCKET_COUNT, _ => {});
            NewSlots(vn) == multiset{}
  {
    EmptyListSlots(seq(TRIED_BUCKET_COUNT, _ => []));
    EmptyNewSlots(seq(NEW_BUCKET_COUNT, _ => {}));
  }

  lemma {:induction false} EmptyListSlots(vt: seq<seq<int>>)
    requires forall b :: 0 <= b < |vt| ==> vt[b] == []
    ensures ListSlots(vt) == multiset{}
  {
    if vt != [] {
      EmptyListSlots(vt[1..]);
    }
  }

  lemma {:induction false} EmptyNewSlots(vn: seq<set<int>>)
    requires forall b :: 0 <= b < |vn| ==> vn[b] == {}
    ensures NewSlots(vn) == multiset{}
  {
    if vn != [] {
      EmptyNewSlots(vn[1..]);
    }
  }

  /** A lower reference count alone does not concern the other tables. */
  lemma {:induction false} LowerRef(mi: Infos, id: int, ma: map<NetAddr, int>, vr: seq<int>, vt: seq<seq<int>>)
    requires id in mi && RandomOk(mi, vr) && AddrOk(mi, ma) && TriedOk(mi, vt)
    ensures var m := mi[id := mi[id].(nRefCount := mi[id].nRefCount - 1)];
            && RandomOk(m, vr) && AddrOk(m, ma) && TriedOk(m, vt)
            && TriedIds(m) == TriedIds(mi) && NewIds(m) == NewIds(mi)
  {
    var m := mi[id := mi[id].(nRefCount := mi[id].nRefCount - 1)];
    assert TriedIds(m) == TriedIds(mi);
  }

  lemma {:induction false} OwedKept(mi: Infos, m: Infos, pending: set<int>, id: int)
    requires mi.Keys - {id} <= m.Keys <= mi.Keys && EntriesKept(mi, m, {id})
    ensures forall i :: i != id ==> Owed(m, pending, i) == Owed(mi, pending, i)
  {
    forall i | i != id
      ensures Owed(m, pending, i) == Owed(mi, pending, i)
    {
      if i in mi {
        assert SameEntry(mi[i], m[i]);
      }
    }
  }

  lemma {:induction false} DropWithinBounds(mi: Infos, m: Infos, nIdCount: int, id: int)
    requires EntriesOk(mi, nIdCount) && id in mi && !mi[id].fInTried
    requires m.Keys <= mi.Keys && EntriesKept(mi, m, {id})
    requires id in m ==> m[id].nRefCount == mi[id].nRefCount - 1 && m[id].nRefCount > 0 && !m[id].fInTried
    ensures EntriesOk(m, nIdCount)
  {
    forall i | i in m
      ensures 0 <= i < nIdCount && RefOk(m[i])
    {
      if i != id {
        assert SameEntry(mi[i], m[i]);
      }
    }
  }
}
