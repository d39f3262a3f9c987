/**
 Homes: the tried bucket that belongs to the service of an entry. Entries are tried in their homes, and
 leave them only when an address is heard of with another port; while they are there, the peers file
 loses none of them.
 */
module AddrHomes {
  import opened Wrappers
  import opened AddrTables
  import opened AddrManager

  /** Every tried entry is in the bucket of its service. */
  ghost predicate Homed(mi: Infos, vt: seq<seq<int>>, triedBucket: Service -> TriedIndex)
  {
    |vt| == TRIED_BUCKET_COUNT && forall id :: id in mi && mi[id].fInTried ==> id in vt[triedBucket(mi[id].service)]
  }

  /** An entry that stays tried has the home that it had. */
  ghost predicate HomesStay(mi: Infos, m: Infos, triedBucket: Service -> TriedIndex)
  {
    forall id :: id in mi && id in m && mi[id].fInTried && m[id].fInTried ==> triedBucket(m[id].service) == triedBucket(mi[id].service)
  }

  /** No entry is in two tried buckets. */
  lemma {:induction false} OneHome(mi: Infos, vt: seq<seq<int>>, b: nat, c: nat, id: int)
    requires TriedOk(mi, vt) && b < |vt| && c < |vt| && id in vt[b] && id in vt[c]
    ensures b == c
  {
    if b != c {
      InTwo(vt, b, c, id);
    }
  }

  lemma {:induction false} InTwo(vt: seq<seq<int>>, b: nat, c: nat, id: int)
    requires b < |vt| && c < |vt| && b != c && id in vt[b] && id in vt[c]
    ensures ListSlots(vt)[id] >= 2
  {
    var less := vt[b := []];
    ListSlotsUpdate(vt, b, []);
    ListSlotsUpdate(less, c, []);
    assert id in multiset(vt[b]) && id in multiset(less[c]);
  }

  /** The tried table is as it was, and so are the tried entries but for their services. */
  lemma {:induction false} HomedIff(mi: Infos, m: Infos, vt: seq<seq<int>>, triedBucket: Service -> TriedIndex)
    requires TriedOk(mi, vt) && Homed(mi, vt, triedBucket)
    requires forall id :: id in m && m[id].fInTried <==> id in mi && mi[id].fInTried
    ensures Homed(m, vt, triedBucket) <==> HomesStay(mi, m, triedBucket)
  {
    if Homed(m, vt, triedBucket) {
      forall id | id in mi && id in m && mi[id].fInTried && m[id].fInTried
        ensures triedBucket(m[id].service) == triedBucket(mi[id].service)
      {
        OneHome(mi, vt, triedBucket(m[id].service), triedBucket(mi[id].service), id);
      }
    }
  }

  /** An entry that becomes tried does so at home, and the others stay where they are. */
  lemma {:induction false} MadeHomed(mi: Infos, m: Infos, vt: seq<seq<int>>, vt': seq<seq<int>>, id: int, e: Option<Eviction>,
                                     triedBucket: Service -> TriedIndex)
    requires Homed(mi, vt, triedBucket) && MadeTried(mi, m, id, OutOf(e))
    requires TriedTook(mi, vt, vt', triedBucket(mi[id].service), id, e)
    ensures Homed(m, vt', triedBucket)
  {
    var b := triedBucket(mi[id].service);
    forall x | x in m && m[x].fInTried
      ensures x in vt'[triedBucket(m[x].service)]
    {
      if x == id {
        TookIt(mi, vt, vt', b, id, e);
      } else {
        assert x in mi && mi[x].fInTried && m[x].service == mi[x].service && (e.Some? ==> x != e.value.out);
        KeptIt(mi, vt, vt', b, id, e, triedBucket(mi[x].service), x);
      }
    }
  }

  lemma TookIt(mi: Infos, vt: seq<seq<int>>, vt': seq<seq<int>>, b: nat, id: int, e: Option<Eviction>)
    requires TriedTook(mi, vt, vt', b, id, e)
    ensures id in vt'[b]
  {
    if e.Some? {
      assert vt'[b][e.value.pos] == id;
    }
  }

  lemma {:induction false} KeptIt(mi: Infos, vt: seq<seq<int>>, vt': seq<seq<int>>, b: nat, id: int, e: Option<Eviction>, c: nat,
                                  x: int)
    requires TriedTook(mi, vt, vt', b, id, e) && c < |vt| && x in vt[c] && (e.Some? ==> x != e.value.out)
    ensures x in vt'[c]
  {
    if c == b && e.Some? {
      var r, pos := e.value.shuffled, e.value.pos;
      assert x in multiset(vt[b]);
      assert x in multiset(r);
      var i :| 0 <= i < |r| && r[i] == x;
      assert r[pos := id][i] == x;
    }
  }

  // ----- services -----

  /** What hearing of an address makes of the service of its entry: a default port gives way to another one. */
  function PortHeard(known: Service, heard: Service, defaultPort: nat): Service
  {
    if known.host == heard.host && known.port == defaultPort && heard.port != defaultPort then heard else known
  }

  /** The services of the entries after an operation: only an address heard of brings in or changes one. */
  ghost predicate ServicesAfter(mi: Infos, m: Infos, heard: Option<Service>, defaultPort: nat)
  {
    forall id :: id in m ==>
      if id in mi
      then m[id].service == if heard.Some? then PortHeard(mi[id].service, heard.value, defaultPort) else mi[id].service
      else heard == Some(m[id].service)
  }

  /** Entries that only changed places, times and tables have the services they had. */
  lemma ServicesSame(mi: Infos, m: Infos, defaultPort: nat)
    requires forall id :: id in m ==> id in mi && m[id].service == mi[id].service
    ensures ServicesAfter(mi, m, None, defaultPort)
  {
  }

  /** Hearing of an address that has an entry. */
  lemma {:induction false} ServicesKnown(mi: Infos, ma: map<NetAddr, int>, m: Infos, addr: Address, nTimePenalty: int, now: int,
                                         defaultPort: nat, bucket: set<int>, touched: set<int>, gained: bool)
    requires AddrOk(mi, ma) && addr.service.host in ma && m.Keys <= mi.Keys && ma[addr.service.host] in m
    requires OneTouched(mi, m, bucket, now, touched, {ma[addr.service.host]}) && ma[addr.service.host] !in touched
    requires var r := Refreshed(mi[ma[addr.service.host]], addr, nTimePenalty, now, defaultPort);
             SameEntry(if gained then Raised(r) else r, m[ma[addr.service.host]])
    ensures ServicesAfter(mi, m, Some(addr.service), defaultPort)
  {
    var known := ma[addr.service.host];
    forall id | id in m
      ensures id in mi && m[id].service == PortHeard(mi[id].service, addr.service, defaultPort)
    {
      assert id in mi.Keys;
      if id != known {
        assert mi[id].service.host != addr.service.host;
        if id !in touched {
          assert SameEntry(mi[id], m[id]);
        }
      }
    }
  }

  /** Hearing of an address that has none. */
  lemma {:induction false} ServicesUnknown(mi: Infos, ma: map<NetAddr, int>, m: Infos, addr: Address, defaultPort: nat,
                                           bucket: set<int>, now: int, touched: set<int>, newId: int)
    requires AddrOk(mi, ma) && addr.service.host !in ma && newId in m && m.Keys <= mi.Keys + {newId} && newId !in mi
    requires OneTouched(mi, m, bucket, now, touched, {}) && m[newId].service == addr.service
    ensures ServicesAfter(mi, m, Some(addr.service), defaultPort)
  {
    forall id | id in m && id != newId
      ensures id in mi && m[id].service == PortHeard(mi[id].service, addr.service, defaultPort)
    {
      assert id in m.Keys;
      assert mi[id].service.host in ma;
      if id !in touched {
        assert SameEntry(mi[id], m[id]);
      }
    }
  }

  /** A tried entry leaves its home when its host is heard of with a port that belongs to another bucket. */
  lemma LeavesHome(mi: Infos, m: Infos, id: int, heard: Service, defaultPort: nat, triedBucket: Service -> TriedIndex)
    requires ServicesAfter(mi, m, Some(heard), defaultPort) && id in mi && id in m && mi[id].fInTried && m[id].fInTried
    requires mi[id].service == Service(heard.host, defaultPort) && triedBucket(heard) != triedBucket(mi[id].service)
    ensures m[id].service == heard && !HomesStay(mi, m, triedBucket)
  {
  }
}
