// The tables of the address manager (src/addrman.h, src/addrman.cpp) as values, what each
// operation does to them, and the invariant that the source's Check_ describes.
module AddrTables {
  import opened Common

  const TRIED_BUCKET_COUNT: nat := 64
  const TRIED_BUCKET_SIZE: nat := 64
  const NEW_BUCKET_COUNT: nat := 256
  const NEW_BUCKET_SIZE: nat := 64
  const NEW_BUCKETS_PER_ADDRESS: int := 4
  const TRIED_ENTRIES_INSPECT_ON_EVICT: nat := 4

  // CNetAddr is the network address alone; CService adds the port.
  type NetAddr = nat
  datatype Service = Service(ip: NetAddr, port: nat)

  // `services` is the set of service bits.
  datatype AddrInfo = AddrInfo(
    service: Service, services: set<nat>, time: int, source: NetAddr,
    lastSuccess: int, lastTry: int, attempts: int,
    refCount: int, inTried: bool, randomPos: int)

  // The keyed bucket hashes, as arbitrary functions.
  datatype Key = Key(triedHash: Service -> nat, newHash: (NetAddr, NetAddr) -> nat) {
    function TriedBucket(info: AddrInfo): (k: nat)
      ensures k < TRIED_BUCKET_COUNT
    {
      triedHash(info.service) % TRIED_BUCKET_COUNT
    }

    function NewBucket(info: AddrInfo, source: NetAddr): (b: nat)
      ensures b < NEW_BUCKET_COUNT
    {
      newHash(info.service.ip, source) % NEW_BUCKET_COUNT
    }
  }

  datatype Tables = Tables(
    idCount: int,
    info: map<int, AddrInfo>,
    addr: map<NetAddr, int>,
    random: seq<int>,
    nTried: int,
    triedBuckets: seq<seq<int>>,
    nNew: int,
    newBuckets: seq<set<int>>)

  const HORIZON_DAYS: int := 30
  const RETRIES: int := 3
  const MAX_FAILURES: int := 10
  const MIN_FAIL_DAYS: int := 7

  // Whether the statistics of an entry are bad enough to just delete it.
  predicate IsTerrible(info: AddrInfo, now: int) {
    if info.lastTry != 0 && info.lastTry >= now - 60 then false
    else
      || info.time > now + 10 * 60
      || info.time == 0 || now - info.time > HORIZON_DAYS * 86400
      || (info.lastSuccess == 0 && info.attempts >= RETRIES)
      || (now - info.lastSuccess > MIN_FAIL_DAYS * 86400 && info.attempts >= MAX_FAILURES)
  }

  // In numbers: never within a minute of an attempt; otherwise when it is dated more than ten minutes
  // ahead, has no date or one more than 30 days old, or failed three times without ever a success, or
  // ten times with none in the last seven days.
  lemma TerribleExactly(info: AddrInfo, now: int)
    ensures IsTerrible(info, now) <==>
              && (info.lastTry == 0 || now - info.lastTry > 60)
              && (|| info.time > now + 600 || info.time == 0 || info.time < now - 2592000
                  || (info.attempts >= 3 && info.lastSuccess == 0)
                  || (info.attempts >= 10 && info.lastSuccess < now - 604800))
  {
  }

  // ---------------------------------------------------------------- the invariant

  // The "new" buckets that hold an id.
  function Buckets(newBuckets: seq<set<int>>, id: int): set<nat> {
    set b: nat | b < |newBuckets| && id in newBuckets[b]
  }

  lemma BucketsGrow(nb: seq<set<int>>, n: nat, id: int)
    requires n < |nb|
    ensures |Buckets(nb[..n + 1], id)| == |Buckets(nb[..n], id)| + if id in nb[n] then 1 else 0
    ensures |Buckets(nb[..n + 1], id)| <= |Buckets(nb, id)|
  {
    assert n !in Buckets(nb[..n], id);
    assert Buckets(nb[..n + 1], id) == Buckets(nb[..n], id) + if id in nb[n] then {n} else {};
    assert Buckets(nb[..n + 1], id) <= Buckets(nb, id);
    SetWithin(Buckets(nb[..n + 1], id), Buckets(nb, id));
  }

  function NewIds(t: Tables): set<int> { set id | id in t.info && !t.info[id].inTried }
  function TriedIds(t: Tables): set<int> { set id | id in t.info && t.info[id].inTried }

  predicate Sized(t: Tables) {
    && |t.newBuckets| == NEW_BUCKET_COUNT && |t.triedBuckets| == TRIED_BUCKET_COUNT
    && (forall b :: 0 <= b < |t.newBuckets| ==> |t.newBuckets[b]| <= NEW_BUCKET_SIZE)
    && (forall k :: 0 <= k < |t.triedBuckets| ==> |t.triedBuckets[k]| <= TRIED_BUCKET_SIZE)
  }

  // mapInfo, mapAddr and vRandom are mutually inverse.
  predicate EntryIndexed(t: Tables, id: int) {
    && id in t.info && 0 <= id < t.idCount
    && 0 <= t.info[id].randomPos < |t.random| && t.random[t.info[id].randomPos] == id
    && t.info[id].service.ip in t.addr && t.addr[t.info[id].service.ip] == id
  }

  predicate Indexed(t: Tables) {
    && (forall id :: id in t.info ==> EntryIndexed(t, id))
    && (forall p :: 0 <= p < |t.random| ==> t.random[p] in t.info && t.info[t.random[p]].randomPos == p)
    && (forall a :: a in t.addr ==> t.addr[a] in t.info && t.info[t.addr[a]].service.ip == a)
  }

  // A new id lies in exactly refCount buckets, at least one and at most four; a tried id in none.
  // While an address is being added, the count of id `loose` runs `ahead` of its buckets.
  predicate EntryCounted(t: Tables, id: int, loose: int, ahead: int) {
    id in t.info &&
    if t.info[id].inTried then t.info[id].refCount == 0 && Buckets(t.newBuckets, id) == {}
    else
      && t.info[id].refCount == |Buckets(t.newBuckets, id)| + (if id == loose then ahead else 0)
      && 1 <= t.info[id].refCount <= NEW_BUCKETS_PER_ADDRESS
  }

  predicate NewOk(t: Tables, loose: int, ahead: int) {
    && (forall id :: id in t.info ==> EntryCounted(t, id, loose, ahead))
    && (forall b, id :: 0 <= b < |t.newBuckets| && id in t.newBuckets[b] ==> id in t.info)
  }

  // A tried id lies exactly once in its home bucket, and nothing else lies in a tried bucket.
  predicate TriedOk(t: Tables, key: Key) {
    && |t.triedBuckets| == TRIED_BUCKET_COUNT
    && (forall k, i :: 0 <= k < |t.triedBuckets| && 0 <= i < |t.triedBuckets[k]| ==>
          t.triedBuckets[k][i] in t.info && t.info[t.triedBuckets[k][i]].inTried
              && key.TriedBucket(t.info[t.triedBuckets[k][i]]) == k)
    && (forall k, i, j ::
          0 <= k < |t.triedBuckets| && 0 <= i < j < |t.triedBuckets[k]|
          ==> t.triedBuckets[k][i] != t.triedBuckets[k][j])
    && (forall id :: id in t.info && t.info[id].inTried ==> id in t.triedBuckets[key.TriedBucket(t.info[id])])
  }

  predicate Counted(t: Tables) {
    t.nNew == |NewIds(t)| && t.nTried == |TriedIds(t)|
  }

  predicate InvWith(t: Tables, key: Key, loose: int, ahead: int) {
    Sized(t) && Indexed(t) && NewOk(t, loose, ahead) && TriedOk(t, key) && Counted(t)
  }

  predicate Inv(t: Tables, key: Key) { InvWith(t, key, -1, 0) }

  // The remaining conditions of Check_: times are never negative, and tried entries succeeded once.
  predicate TimesOk(t: Tables) {
    forall id :: id in t.info ==>
      t.info[id].lastTry >= 0 && t.info[id].lastSuccess >= 0 && (t.info[id].inTried ==> t.info[id].lastSuccess != 0)
  }

  // The entries of u are those of t with the same success and try times, or new and untouched.
  predicate HistoriesFrom(t: Tables, u: Tables) {
    forall id :: id in u.info ==>
      if id in t.info
      then u.info[id].lastTry == t.info[id].lastTry && u.info[id].lastSuccess == t.info[id].lastSuccess
           && u.info[id].inTried == t.info[id].inTried
      else u.info[id].lastTry == 0 && u.info[id].lastSuccess == 0 && !u.info[id].inTried
  }

  lemma TimesFrom(t: Tables, u: Tables)
    requires TimesOk(t) && HistoriesFrom(t, u)
    ensures TimesOk(u)
  {
  }

  lemma HistoriesThrough(t: Tables, u: Tables, v: Tables)
    requires HistoriesFrom(t, u) && HistoriesFrom(u, v) && (forall id :: id in v.info && id in t.info ==> id in u.info)
    ensures HistoriesFrom(t, v)
  {
  }

  // ---------------------------------------------------------------- consequences

  lemma {:induction false} DistinctCount(s: seq<int>)
    requires forall i, j :: 0 <= i < j < |s| ==> s[i] != s[j]
    ensures |set x | x in s| == |s|
  {
    if s != [] {
      var init, last := s[..|s| - 1], s[|s| - 1];
      DistinctCount(init);
      assert s == init + [last];
      assert (set x | x in s) == (set x | x in init) + {last};
    }
  }

  lemma RandomListsAll(t: Tables)
    requires Indexed(t)
    ensures (set x | x in t.random) == t.info.Keys && |t.random| == |t.info.Keys|
  {
    forall id | id in t.info ensures id in t.random { assert EntryIndexed(t, id); }
    forall i, j | 0 <= i < j < |t.random| ensures t.random[i] != t.random[j] {
      assert t.info[t.random[i]].randomPos == i && t.info[t.random[j]].randomPos == j;
    }
    DistinctCount(t.random);
  }

  lemma NewOrTried(t: Tables)
    ensures |t.info.Keys| == |NewIds(t)| + |TriedIds(t)|
  {
    assert NewIds(t) !! TriedIds(t) && NewIds(t) + TriedIds(t) == t.info.Keys;
  }

  // nNew + nTried = |vRandom| = number of entries.
  lemma SizesAgree(t: Tables, key: Key, loose: int, ahead: int)
    requires InvWith(t, key, loose, ahead)
    ensures |t.random| == |t.info| == t.nNew + t.nTried
  {
    hide NewOk, TriedOk, Sized, Indexed, NewIds, TriedIds;
    RandomListsAll(t);
    NewOrTried(t);
  }

  // A new id is in some bucket, so the search of Good_ always finds one.
  lemma NewIdHasBucket(t: Tables, key: Key, id: int)
    requires Inv(t, key) && id in t.info && !t.info[id].inTried && id != -1
    ensures Buckets(t.newBuckets, id) != {}
    ensures exists b :: 0 <= b < |t.newBuckets| && id in t.newBuckets[b]
  {
    assert EntryCounted(t, id, -1, 0);
    var b :| b in Buckets(t.newBuckets, id);
  }

  // ---------------------------------------------------------------- SwapRandom

  function Swapped(t: Tables, p1: nat, p2: nat): Tables
    requires p1 < |t.random| && p2 < |t.random| && t.random[p1] in t.info && t.random[p2] in t.info
  {
    var id1, id2 := t.random[p1], t.random[p2];
    if p1 == p2 then t
    else
      var info1 := t.info[id1 := t.info[id1].(randomPos := p2)];
      t.(info := info1[id2 := info1[id2].(randomPos := p1)], random := t.random[p1 := id2][p2 := id1])
  }

  predicate SameButPos(x: AddrInfo, y: AddrInfo) { y == x.(randomPos := y.randomPos) }

  // The two tables differ at most in the order of vRandom.
  predicate SameButOrder(t: Tables, u: Tables) {
    && u == t.(info := u.info, random := u.random)
    && u.info.Keys == t.info.Keys
    && forall id :: id in t.info ==> SameButPos(t.info[id], u.info[id])
  }

  lemma SwappedEntry(t: Tables, p1: nat, p2: nat, id: int)
    requires p1 < |t.random| && p2 < |t.random| && Indexed(t) && id in t.info
    ensures var u := Swapped(t, p1, p2);
            && id in u.info && SameButPos(t.info[id], u.info[id])
            && EntryIndexed(u, id)
  {
    assert EntryIndexed(t, id);
  }

  lemma SwappedSlot(t: Tables, p1: nat, p2: nat, p: nat)
    requires p1 < |t.random| && p2 < |t.random| && Indexed(t) && p < |t.random|
    ensures var u := Swapped(t, p1, p2);
            && |u.random| == |t.random| && u.random[p] in u.info && u.info[u.random[p]].randomPos == p
            && u.random[p] == t.random[if p == p1 then p2 else if p == p2 then p1 else p]
  {
  }

  lemma SwappedIndexed(t: Tables, p1: nat, p2: nat)
    requires p1 < |t.random| && p2 < |t.random| && Indexed(t)
    ensures Indexed(Swapped(t, p1, p2)) && SameButOrder(t, Swapped(t, p1, p2))
    ensures |Swapped(t, p1, p2).random| == |t.random|
    ensures Swapped(t, p1, p2).random[p2] == t.random[p1] && Swapped(t, p1, p2).random[p1] == t.random[p2]
  {
    var u := Swapped(t, p1, p2);
    assert u.info.Keys == t.info.Keys && u == t.(info := u.info, random := u.random);
    hide Swapped;
    SwappedSlot(t, p1, p2, p1);
    SwappedSlot(t, p1, p2, p2);
    forall id | id in u.info ensures EntryIndexed(u, id) && SameButPos(t.info[id], u.info[id]) {
      SwappedEntry(t, p1, p2, id);
    }
    forall p | 0 <= p < |u.random| ensures u.random[p] in u.info && u.info[u.random[p]].randomPos == p {
      SwappedSlot(t, p1, p2, p);
    }
  }

  // Nothing but Indexed speaks about the order.
  lemma OrderIrrelevant(t: Tables, u: Tables, key: Key, loose: int, ahead: int)
    requires SameButOrder(t, u) && InvWith(t, key, loose, ahead) && Indexed(u)
    ensures InvWith(u, key, loose, ahead)
  {
    forall id | id in t.info
      ensures u.info[id].inTried == t.info[id].inTried && u.info[id].refCount == t.info[id].refCount
      ensures u.info[id].service == t.info[id].service
    {
      assert SameButPos(t.info[id], u.info[id]);
    }
    assert NewOk(u, loose, ahead) by {
      forall id | id in u.info ensures EntryCounted(u, id, loose, ahead) { assert EntryCounted(t, id, loose, ahead); }
    }
    assert NewIds(u) == NewIds(t) && TriedIds(u) == TriedIds(t);
  }

  lemma SwappedKeeps(t: Tables, p1: nat, p2: nat, key: Key, loose: int, ahead: int)
    requires p1 < |t.random| && p2 < |t.random| && InvWith(t, key, loose, ahead)
    ensures InvWith(Swapped(t, p1, p2), key, loose, ahead)
  {
    SwappedIndexed(t, p1, p2);
    OrderIrrelevant(t, Swapped(t, p1, p2), key, loose, ahead);
  }

  // ---------------------------------------------------------------- Create

  function Created(t: Tables, service: Service, services: set<nat>, time: int, source: NetAddr): Tables {
    var info := AddrInfo(service, services, time, source, 0, 0, 0, 0, false, |t.random|);
    t.(idCount := t.idCount + 1,
       info := t.info[t.idCount := info],
       addr := t.addr[service.ip := t.idCount],
       random := t.random + [t.idCount])
  }

  // ---------------------------------------------------------------- removing from a "new" bucket

  // Moves the entry to the end of vRandom and drops it from every index but the buckets.
  function Deleted(t: Tables, id: int): Tables
    requires Indexed(t) && id in t.info
  {
    assert EntryIndexed(t, id);
    var u := Swapped(t, t.info[id].randomPos, |t.random| - 1);
    WithoutLast(u, id, t.info[id].service.ip)
  }

  function WithInfo(t: Tables, id: int, info: AddrInfo): Tables { t.(info := t.info[id := info]) }

  lemma WithInfoIndexed(t: Tables, id: int, info: AddrInfo)
    requires Indexed(t) && id in t.info
    requires info.service.ip == t.info[id].service.ip && info.randomPos == t.info[id].randomPos
    ensures Indexed(WithInfo(t, id, info))
  {
    var u := WithInfo(t, id, info);
    forall x | x in u.info ensures EntryIndexed(u, x) { assert EntryIndexed(t, x); }
  }

  // One reference less for an id in bucket b; the last reference takes the entry with it.
  function Dropped(t: Tables, b: nat, id: int): Tables
    requires Indexed(t) && id in t.info && b < |t.newBuckets|
  {
    var u := WithInfo(t, id, t.info[id].(refCount := t.info[id].refCount - 1));
    WithInfoIndexed(t, id, u.info[id]);
    var v := if u.info[id].refCount == 0 then Deleted(u, id) else u;
    v.(newBuckets := v.newBuckets[b := v.newBuckets[b] - {id}])
  }

  // The last element of vRandom and its entry leave together.
  function WithoutLast(s: Tables, id: int, ip: NetAddr): Tables
    requires s.random != []
  {
    s.(random := s.random[..|s.random| - 1], addr := s.addr - {ip}, info := s.info - {id}, nNew := s.nNew - 1)
  }

  lemma WithoutLastIndexed(s: Tables, id: int)
    requires Indexed(s) && id in s.info && s.random != [] && s.random[|s.random| - 1] == id
    ensures Indexed(WithoutLast(s, id, s.info[id].service.ip))
  {
    var u := WithoutLast(s, id, s.info[id].service.ip);
    assert EntryIndexed(s, id);
    forall x | x in u.info ensures EntryIndexed(u, x) { assert EntryIndexed(s, x); }
  }

  lemma DeletedIndexed(t: Tables, id: int)
    requires Indexed(t) && id in t.info
    ensures Indexed(Deleted(t, id))
    ensures var u := Deleted(t, id);
            && u.info.Keys == t.info.Keys - {id}
            && forall x :: x in u.info ==> SameButPos(t.info[x], u.info[x])
  {
    hide Swapped;
    assert EntryIndexed(t, id);
    var s := Swapped(t, t.info[id].randomPos, |t.random| - 1);
    SwappedIndexed(t, t.info[id].randomPos, |t.random| - 1);
    assert s.random[|s.random| - 1] == id;
    assert SameButPos(t.info[id], s.info[id]);
    WithoutLastIndexed(s, id);
  }

  // Buckets play no part in Indexed.
  lemma IndexedIgnoresBuckets(t: Tables, newBuckets: seq<set<int>>, triedBuckets: seq<seq<int>>, nNew: int, nTried: int)
    requires Indexed(t)
    ensures Indexed(t.(newBuckets := newBuckets, triedBuckets := triedBuckets, nNew := nNew, nTried := nTried))
  {
    var u := t.(newBuckets := newBuckets, triedBuckets := triedBuckets, nNew := nNew, nTried := nTried);
    forall id | id in u.info ensures EntryIndexed(u, id) { assert EntryIndexed(t, id); }
  }

  lemma BucketsRemove(nb: seq<set<int>>, b: nat, id: int, x: int)
    requires b < |nb|
    ensures var nb' := nb[b := nb[b] - {id}];
            Buckets(nb', x) == if x == id then Buckets(nb, x) - {b} else Buckets(nb, x)
  {
  }

  lemma BucketsInsert(nb: seq<set<int>>, b: nat, id: int, x: int)
    requires b < |nb|
    ensures var nb' := nb[b := nb[b] + {id}];
            Buckets(nb', x) == if x == id then Buckets(nb, x) + {b} else Buckets(nb, x)
  {
  }

  // u is t without one reference of `id` from bucket b; `gone` says whether the entry went too.
  predicate OneReferenceLess(t: Tables, b: nat, id: int, u: Tables) {
    var gone := id in t.info && t.info[id].refCount == 1;
    && id in t.info && b < |t.newBuckets|
    && u.info.Keys == (if gone then t.info.Keys - {id} else t.info.Keys)
    && (forall x :: x in u.info && x != id ==> SameButPos(t.info[x], u.info[x]))
    && (!gone ==> SameButPos(t.info[id].(refCount := t.info[id].refCount - 1), u.info[id]))
    && u == t.(info := u.info, addr := u.addr, random := u.random,
               newBuckets := t.newBuckets[b := t.newBuckets[b] - {id}],
               nNew := if gone then t.nNew - 1 else t.nNew)
    && |u.random| == (if gone then |t.random| - 1 else |t.random|)
    && Indexed(u)
  }

  lemma DroppedFacts(t: Tables, b: nat, id: int)
    requires Indexed(t) && id in t.info && b < |t.newBuckets|
    ensures OneReferenceLess(t, b, id, Dropped(t, b, id))
  {
    hide Deleted, EntryIndexed;
    var info := t.info[id].(refCount := t.info[id].refCount - 1);
    var u := WithInfo(t, id, info);
    WithInfoIndexed(t, id, info);
    var nb := t.newBuckets[b := t.newBuckets[b] - {id}];
    if info.refCount == 0 {
      DeletedIndexed(u, id);
      DeletedRest(u, id);
      IndexedIgnoresBuckets(Deleted(u, id), nb, t.triedBuckets, t.nNew - 1, t.nTried);
    } else {
      IndexedIgnoresBuckets(u, nb, t.triedBuckets, t.nNew, t.nTried);
    }
  }

  lemma DeletedRest(t: Tables, id: int)
    requires Indexed(t) && id in t.info
    ensures var u := Deleted(t, id);
            && u == t.(info := u.info, addr := u.addr, random := u.random, nNew := t.nNew - 1)
            && |u.random| == |t.random| - 1
  {
    assert EntryIndexed(t, id);
  }

  lemma OneReferenceLessKeeps(t: Tables, b: nat, id: int, u: Tables, key: Key, loose: int, ahead: int)
    requires InvWith(t, key, loose, ahead) && OneReferenceLess(t, b, id, u)
    requires id in t.newBuckets[b] && id != loose
    ensures InvWith(u, key, loose, ahead)
  {
    hide OneReferenceLess, NewOk, TriedOk, Indexed, NewIds, TriedIds;
    OneLessFields(t, b, id, u);
    InBucketIsNew(t, b, id, loose, ahead);
    OneReferenceLessNew(t, b, id, u, loose, ahead);
    TriedUnaffected(t, u, id, key);
    NewIdsLess(t, u, id);
  }

  lemma InBucketIsNew(t: Tables, b: nat, id: int, loose: int, ahead: int)
    requires NewOk(t, loose, ahead) && id in t.info && b < |t.newBuckets| && id in t.newBuckets[b] && id != loose
    ensures !t.info[id].inTried
  {
    assert EntryCounted(t, id, loose, ahead) && b in Buckets(t.newBuckets, id);
  }

  lemma OneLessFields(t: Tables, b: nat, id: int, u: Tables)
    requires OneReferenceLess(t, b, id, u)
    ensures var gone := t.info[id].refCount == 1;
            && id in t.info && b < |t.newBuckets| && Indexed(u)
            && u.info.Keys == (if gone then t.info.Keys - {id} else t.info.Keys)
            && u.newBuckets == t.newBuckets[b := t.newBuckets[b] - {id}] && u.triedBuckets == t.triedBuckets
            && u.idCount == t.idCount
            && u.nNew == (if gone then t.nNew - 1 else t.nNew) && u.nTried == t.nTried
            && |u.random| == (if gone then |t.random| - 1 else |t.random|)
    ensures forall x :: x in u.info ==>
              && u.info[x].inTried == t.info[x].inTried && u.info[x].service == t.info[x].service
              && u.info[x].refCount == t.info[x].refCount - if x == id then 1 else 0
  {
    hide Indexed;
    forall x | x in u.info
      ensures u.info[x].inTried == t.info[x].inTried && u.info[x].service == t.info[x].service
      ensures u.info[x].refCount == t.info[x].refCount - if x == id then 1 else 0
    {
      assert SameButPos(if x == id then t.info[id].(refCount := t.info[id].refCount - 1) else t.info[x], u.info[x]);
    }
  }

  lemma NewIdsLess(t: Tables, u: Tables, id: int)
    requires id in t.info && !t.info[id].inTried
    requires u.info.Keys == t.info.Keys || u.info.Keys == t.info.Keys - {id}
    requires forall x :: x in u.info ==> u.info[x].inTried == t.info[x].inTried
    ensures id in NewIds(t) && NewIds(u) == if id in u.info then NewIds(t) else NewIds(t) - {id}
  {
    forall x ensures x in NewIds(u) <==> x in NewIds(t) && (x != id || id in u.info) { }
  }

  // The tried side does not notice changes to the new id `id`.
  lemma TriedUnaffected(t: Tables, u: Tables, id: int, key: Key)
    requires TriedOk(t, key) && u.triedBuckets == t.triedBuckets
    requires id in t.info ==> !t.info[id].inTried
    requires t.info.Keys - {id} <= u.info.Keys <= t.info.Keys + {id}
    requires forall x :: x in u.info && x in t.info ==>
               u.info[x].inTried == t.info[x].inTried && u.info[x].service == t.info[x].service
    requires id in u.info ==> !u.info[id].inTried
    ensures TriedOk(u, key) && TriedIds(u) == TriedIds(t)
  {
    forall k, i | 0 <= k < |u.triedBuckets| && 0 <= i < |u.triedBuckets[k]|
      ensures u.triedBuckets[k][i] in u.info && u.info[u.triedBuckets[k][i]].inTried
              && key.TriedBucket(u.info[u.triedBuckets[k][i]]) == k
    {
      assert t.triedBuckets[k][i] != id;
    }
    forall x | x in u.info && u.info[x].inTried ensures x in u.triedBuckets[key.TriedBucket(u.info[x])] {
      assert x in t.info && x in t.triedBuckets[key.TriedBucket(t.info[x])];
    }
    forall x ensures x in TriedIds(u) <==> x in TriedIds(t) { }
  }

  lemma OneReferenceLessNew(t: Tables, b: nat, id: int, u: Tables, loose: int, ahead: int)
    requires NewOk(t, loose, ahead) && OneReferenceLess(t, b, id, u)
    requires id in t.newBuckets[b] && id != loose && !t.info[id].inTried
    requires forall x :: x in u.info ==>
               && u.info[x].inTried == t.info[x].inTried
               && u.info[x].refCount == t.info[x].refCount - if x == id then 1 else 0
    ensures NewOk(u, loose, ahead)
  {
    assert EntryCounted(t, id, loose, ahead) && b in Buckets(t.newBuckets, id);
    forall x | x in u.info ensures EntryCounted(u, x, loose, ahead) {
      assert EntryCounted(t, x, loose, ahead);
      BucketsRemove(t.newBuckets, b, id, x);
    }
    forall c, x | 0 <= c < |u.newBuckets| && x in u.newBuckets[c] ensures x in u.info {
      assert x in t.newBuckets[c];
      if x == id {
        assert {b, c} <= Buckets(t.newBuckets, id);
        assert |Buckets(t.newBuckets, id) - {b}| == |Buckets(t.newBuckets, id)| - 1;
      }
    }
  }

  // ShrinkNew's effect keeps the invariant, also while another id's count is ahead.
  lemma DroppedKeeps(t: Tables, b: nat, id: int, key: Key, loose: int, ahead: int)
    requires InvWith(t, key, loose, ahead) && b < |t.newBuckets| && id in t.newBuckets[b] && id != loose
    ensures id in t.info && InvWith(Dropped(t, b, id), key, loose, ahead)
    ensures OneReferenceLess(t, b, id, Dropped(t, b, id))
  {
    DroppedFacts(t, b, id);
    OneReferenceLessKeeps(t, b, id, Dropped(t, b, id), key, loose, ahead);
  }

  lemma IdsAfterUpdate(t: Tables, u: Tables, id: int, info: AddrInfo)
    requires u.info == t.info[id := info]
    ensures NewIds(u) == if info.inTried then NewIds(t) - {id} else NewIds(t) + {id}
    ensures TriedIds(u) == if info.inTried then TriedIds(t) + {id} else TriedIds(t) - {id}
  {
    forall x ensures x in NewIds(u) <==> if x == id then !info.inTried else x in NewIds(t) { }
    forall x ensures x in TriedIds(u) <==> if x == id then info.inTried else x in TriedIds(t) { }
  }

  // ---------------------------------------------------------------- adding to a "new" bucket

  // Create, with the counters that Add_ raises right after it: the entry is one reference ahead.
  function Admitted(t: Tables, service: Service, services: set<nat>, time: int, source: NetAddr): Tables {
    var u := Created(t, service, services, time, source);
    WithInfo(u, t.idCount, u.info[t.idCount].(refCount := 1)).(nNew := t.nNew + 1)
  }

  lemma AdmittedIndexed(t: Tables, service: Service, services: set<nat>, time: int, source: NetAddr)
    requires Indexed(t) && service.ip !in t.addr && t.idCount >= 0 && t.idCount !in t.info
    ensures Indexed(Admitted(t, service, services, time, source))
  {
    var u, id := Admitted(t, service, services, time, source), t.idCount;
    assert u.random == t.random + [id] && u.info[id].randomPos == |t.random|;
    assert u.addr == t.addr[service.ip := id] && u.info[id].service == service;
    assert forall x :: x in t.info ==> u.info[x] == t.info[x];
    hide Admitted;
    forall x | x in u.info ensures EntryIndexed(u, x) { if x != id { assert EntryIndexed(t, x); } }
  }

  lemma AdmittedNew(t: Tables, service: Service, services: set<nat>, time: int, source: NetAddr)
    requires NewOk(t, -1, 0) && t.idCount >= 0 && t.idCount !in t.info
    ensures NewOk(Admitted(t, service, services, time, source), t.idCount, 1)
  {
    var u, id := Admitted(t, service, services, time, source), t.idCount;
    assert Buckets(t.newBuckets, id) == {};
    assert u.newBuckets == t.newBuckets && u.info.Keys == t.info.Keys + {id};
    forall x | x in u.info ensures EntryCounted(u, x, id, 1) { if x != id { assert EntryCounted(t, x, -1, 0); } }
  }

  lemma AdmittedKeeps(t: Tables, key: Key, service: Service, services: set<nat>, time: int, source: NetAddr)
    requires Inv(t, key) && service.ip !in t.addr && t.idCount >= 0
    ensures InvWith(Admitted(t, service, services, time, source), key, t.idCount, 1)
    ensures forall b :: 0 <= b < |t.newBuckets| ==> t.idCount !in t.newBuckets[b]
  {
    var u, id := Admitted(t, service, services, time, source), t.idCount;
    assert id !in t.info;
    AdmittedIndexed(t, service, services, time, source);
    AdmittedNew(t, service, services, time, source);
    GrowsByNew(t, u, id, u.info[id], key);
    NotInBuckets(t, id);
    hide Indexed, NewOk, TriedOk, Counted;
    assert Sized(u);
  }

  // Tried buckets and counters when a new id appears.
  lemma GrowsByNew(t: Tables, u: Tables, id: int, info: AddrInfo, key: Key)
    requires TriedOk(t, key) && Counted(t) && id !in t.info && !info.inTried && u.info == t.info[id := info]
    requires u.triedBuckets == t.triedBuckets && u.nNew == t.nNew + 1 && u.nTried == t.nTried
    ensures TriedOk(u, key) && Counted(u)
  {
    TriedUnaffected(t, u, id, key);
    IdsAfterUpdate(t, u, id, info);
    NotAnId(t, id);
    hide TriedOk, NewIds, TriedIds;
  }

  lemma NotAnId(t: Tables, id: int)
    requires id !in t.info
    ensures id !in NewIds(t) && id !in TriedIds(t)
  {
  }

  lemma NotInBuckets(t: Tables, id: int)
    requires NewOk(t, -1, 0) && id !in t.info
    ensures forall b :: 0 <= b < |t.newBuckets| ==> id !in t.newBuckets[b]
  {
  }

  // One more reference than buckets, for a new id that can take one more.
  lemma AheadKeeps(t: Tables, key: Key, id: int)
    requires Inv(t, key) && id in t.info && !t.info[id].inTried && t.info[id].refCount < NEW_BUCKETS_PER_ADDRESS
             && id >= 0
    ensures InvWith(WithInfo(t, id, t.info[id].(refCount := t.info[id].refCount + 1)), key, id, 1)
  {
    var u := WithInfo(t, id, t.info[id].(refCount := t.info[id].refCount + 1));
    WithInfoIndexed(t, id, u.info[id]);
    assert NewOk(u, id, 1) by {
      forall x | x in u.info ensures EntryCounted(u, x, id, 1) { assert EntryCounted(t, x, -1, 0); }
    }
    TriedUnaffected(t, u, id, key);
    NewIdsLess(t, u, id);
  }

  function Inserted(t: Tables, b: nat, id: int): Tables
    requires b < |t.newBuckets|
  {
    t.(newBuckets := t.newBuckets[b := t.newBuckets[b] + {id}])
  }

  lemma InsertedKeeps(t: Tables, key: Key, b: nat, id: int)
    requires InvWith(t, key, id, 1) && id in t.info && !t.info[id].inTried && id >= 0
    requires b < |t.newBuckets| && id !in t.newBuckets[b] && |t.newBuckets[b]| < NEW_BUCKET_SIZE
    ensures Inv(Inserted(t, b, id), key)
  {
    hide Indexed, NewOk, TriedOk, NewIds, TriedIds;
    var u := Inserted(t, b, id);
    IndexedIgnoresBuckets(t, u.newBuckets, t.triedBuckets, t.nNew, t.nTried);
    InsertedNew(t, b, id);
    TriedUnaffected(t, u, id, key);
    NewIdsLess(t, u, id);
  }

  lemma InsertedNew(t: Tables, b: nat, id: int)
    requires NewOk(t, id, 1) && id in t.info && !t.info[id].inTried && id >= 0
    requires b < |t.newBuckets| && id !in t.newBuckets[b]
    ensures NewOk(Inserted(t, b, id), -1, 0)
  {
    var u := Inserted(t, b, id);
    forall x | x in u.info ensures EntryCounted(u, x, -1, 0) {
      assert EntryCounted(t, x, id, 1);
      BucketsInsert(t.newBuckets, b, id, x);
    }
  }

  // ---------------------------------------------------------------- updating an entry's history

  // The entries differ at most in times, services and attempts.
  predicate SamePlace(x: AddrInfo, y: AddrInfo) {
    y == x.(services := y.services, time := y.time, lastSuccess := y.lastSuccess, lastTry := y.lastTry,
            attempts := y.attempts)
  }

  // An entry after hearing of its address again: a later time replaces an old one, less the
  // penalty, and services accumulate.
  function Refreshed(info: AddrInfo, services: set<nat>, time: int, penalty: int, now: int): AddrInfo {
    var interval := if now - time < 24 * 60 * 60 then 60 * 60 else 24 * 60 * 60;
    var newer := time != 0 && (info.time == 0 || info.time < time - interval - penalty);
    info.(time := if newer then Max(0, time - penalty) else info.time, services := info.services + services)
  }

  // The entry of an address heard of for the first time, once it is in its bucket.
  function FirstHeard(service: Service, services: set<nat>, time: int, source: NetAddr, penalty: int): AddrInfo {
    AddrInfo(service, services, Max(0, time - penalty), source, 0, 0, 0, 1, false, 0)
  }

  // The entry was refreshed, perhaps moved in vRandom, and perhaps took one more reference.
  predicate Heard(x: AddrInfo, y: AddrInfo, services: set<nat>, time: int, penalty: int, now: int) {
    && SameButPos(Refreshed(x, services, time, penalty, now).(refCount := y.refCount), y)
    && (y.refCount == x.refCount || (y.refCount == x.refCount + 1 && time != 0 && (y.time == 0 || y.time < time)))
  }

  // Every entry but `id` is as it was, except for its place in vRandom.  Only `lost` lost a
  // reference, and is gone if that was its last one.
  predicate OthersKept(t: Tables, u: Tables, id: int, lost: int) {
    && (forall x :: x in u.info && x != id ==>
          x in t.info && SameButPos(if x == lost then t.info[x].(refCount := t.info[x].refCount - 1)
                                    else t.info[x], u.info[x]))
    && (forall x :: x in t.info && x != id && x !in u.info ==> x == lost && t.info[x].refCount == 1)
  }

  // Those play no part in the invariant.
  lemma HistoryKeeps(t: Tables, key: Key, id: int, info: AddrInfo)
    requires Inv(t, key) && id in t.info && SamePlace(t.info[id], info)
    ensures Inv(WithInfo(t, id, info), key)
  {
    var u := WithInfo(t, id, info);
    WithInfoIndexed(t, id, info);
    assert NewOk(u, -1, 0) by {
      forall x | x in u.info ensures EntryCounted(u, x, -1, 0) { assert EntryCounted(t, x, -1, 0); }
    }
    assert NewIds(u) == NewIds(t) && TriedIds(u) == TriedIds(t);
    assert TriedOk(u, key) by {
      forall x | x in u.info && u.info[x].inTried ensures x in u.triedBuckets[key.TriedBucket(u.info[x])] {
        assert x in t.triedBuckets[key.TriedBucket(t.info[x])];
      }
    }
  }

  // ---------------------------------------------------------------- MakeTried

  // Every bucket without the id.
  function Without(nb: seq<set<int>>, id: int): (r: seq<set<int>>)
    ensures |r| == |nb| && forall b :: 0 <= b < |nb| ==> r[b] == nb[b] - {id}
  {
    seq(|nb|, b requires 0 <= b < |nb| => nb[b] - {id})
  }

  lemma BucketsWithout(nb: seq<set<int>>, id: int, x: int)
    ensures Buckets(Without(nb, id), x) == if x == id then {} else Buckets(nb, x)
  {
  }

  // The entry moves from its "new" buckets into its home "tried" bucket, which has room.
  function MovedToTried(t: Tables, key: Key, id: int): Tables
    requires id in t.info && |t.triedBuckets| == TRIED_BUCKET_COUNT
  {
    var k := key.TriedBucket(t.info[id]);
    t.(newBuckets := Without(t.newBuckets, id),
       info := t.info[id := t.info[id].(refCount := 0, inTried := true)],
       triedBuckets := t.triedBuckets[k := t.triedBuckets[k] + [id]],
       nNew := t.nNew - 1,
       nTried := t.nTried + 1)
  }

  // Where an evicted entry goes: its own "new" bucket, or the one the promoted entry came from.
  function EvictionBucket(t: Tables, key: Key, id: int, origin: nat, evicted: int): (b: nat)
    requires evicted in t.info && |t.newBuckets| == NEW_BUCKET_COUNT && origin < NEW_BUCKET_COUNT
    ensures b < NEW_BUCKET_COUNT
  {
    var b := key.NewBucket(t.info[evicted], t.info[evicted].source);
    if |t.newBuckets[b] - {id}| < NEW_BUCKET_SIZE then b else origin
  }

  // The home bucket is full: after its shuffle to `v`, the entry at `pos` goes back to "new".
  function Exchanged(t: Tables, key: Key, id: int, origin: nat, v: seq<int>, pos: nat): Tables
    requires id in t.info && pos < |v| && v[pos] in t.info && |t.triedBuckets| == TRIED_BUCKET_COUNT
    requires |t.newBuckets| == NEW_BUCKET_COUNT && origin < NEW_BUCKET_COUNT
  {
    var k := key.TriedBucket(t.info[id]);
    var evicted := v[pos];
    var b := EvictionBucket(t, key, id, origin, evicted);
    var nb := Without(t.newBuckets, id);
    var info1 := t.info[evicted := t.info[evicted].(inTried := false, refCount := 1)];
    t.(newBuckets := nb[b := nb[b] + {evicted}],
       info := info1[id := info1[id].(refCount := 0, inTried := true)],
       triedBuckets := t.triedBuckets[k := v[pos := id]])
  }

  predicate Distinct(s: seq<int>) { forall i, j :: 0 <= i < j < |s| ==> s[i] != s[j] }

  // Same elements, none repeated.
  ghost predicate Shuffle(s: seq<int>, v: seq<int>) {
    |s| == |v| && Distinct(v) && (forall x :: x in s <==> x in v) && multiset(s) == multiset(v)
  }

  lemma MovedNew(t: Tables, key: Key, id: int)
    requires NewOk(t, -1, 0) && id in t.info && |t.triedBuckets| == TRIED_BUCKET_COUNT
    ensures NewOk(MovedToTried(t, key, id), -1, 0)
  {
    var u := MovedToTried(t, key, id);
    assert u.newBuckets == Without(t.newBuckets, id)
           && u.info == t.info[id := t.info[id].(refCount := 0, inTried := true)];
    hide MovedToTried;
    forall x | x in u.info ensures EntryCounted(u, x, -1, 0) {
      assert EntryCounted(t, x, -1, 0);
      BucketsWithout(t.newBuckets, id, x);
    }
  }

  lemma MovedIndexed(t: Tables, key: Key, id: int)
    requires Indexed(t) && id in t.info && |t.triedBuckets| == TRIED_BUCKET_COUNT
    ensures Indexed(MovedToTried(t, key, id))
  {
    var u := MovedToTried(t, key, id);
    WithInfoIndexed(t, id, u.info[id]);
    IndexedIgnoresBuckets(WithInfo(t, id, u.info[id]), u.newBuckets, u.triedBuckets, u.nNew, u.nTried);
  }

  lemma MovedKeeps(t: Tables, key: Key, id: int)
    requires Inv(t, key) && id in t.info && !t.info[id].inTried
    requires |t.triedBuckets[key.TriedBucket(t.info[id])]| < TRIED_BUCKET_SIZE
    ensures Inv(MovedToTried(t, key, id), key)
  {
    var u := MovedToTried(t, key, id);
    MovedIndexed(t, key, id);
    MovedNew(t, key, id);
    MovedTried(t, key, id, u);
    MovedCounted(t, key, id);
    hide Indexed, NewOk, TriedOk, NewIds, TriedIds, Counted;
    assert Sized(u);
  }

  lemma MovedCounted(t: Tables, key: Key, id: int)
    requires Counted(t) && id in t.info && !t.info[id].inTried && |t.triedBuckets| == TRIED_BUCKET_COUNT
    ensures Counted(MovedToTried(t, key, id))
  {
    var u := MovedToTried(t, key, id);
    IdsAfterUpdate(t, u, id, u.info[id]);
    assert id in NewIds(t) && id !in TriedIds(t);
  }

  lemma MovedTried(t: Tables, key: Key, id: int, u: Tables)
    requires TriedOk(t, key) && id in t.info && !t.info[id].inTried
    requires u.info == t.info[id := t.info[id].(refCount := 0, inTried := true)]
    requires var k := key.TriedBucket(t.info[id]); u.triedBuckets == t.triedBuckets[k := t.triedBuckets[k] + [id]]
    ensures TriedOk(u, key)
  {
    var home := key.TriedBucket(t.info[id]);
    forall k, i | 0 <= k < |t.triedBuckets| && 0 <= i < |t.triedBuckets[k]| ensures t.triedBuckets[k][i] != id { }
    forall x | x in u.info && u.info[x].inTried ensures x in u.triedBuckets[key.TriedBucket(u.info[x])] {
      if x == id {
        assert u.triedBuckets[home][|t.triedBuckets[home]|] == id;
      } else {
        assert x in t.triedBuckets[key.TriedBucket(t.info[x])];
      }
    }
  }

  lemma ExchangedNew(t: Tables, key: Key, id: int, origin: nat, v: seq<int>, pos: nat)
    requires NewOk(t, -1, 0) && id in t.info && !t.info[id].inTried
    requires pos < |v| && v[pos] in t.info && t.info[v[pos]].inTried
    requires |t.triedBuckets| == TRIED_BUCKET_COUNT && |t.newBuckets| == NEW_BUCKET_COUNT && origin < NEW_BUCKET_COUNT
    ensures NewOk(Exchanged(t, key, id, origin, v, pos), -1, 0)
  {
    var u, evicted := Exchanged(t, key, id, origin, v, pos), v[pos];
    var b := EvictionBucket(t, key, id, origin, evicted);
    var nb := Without(t.newBuckets, id);
    assert u.newBuckets == nb[b := nb[b] + {evicted}];
    assert u.info[evicted] == t.info[evicted].(inTried := false, refCount := 1);
    assert u.info[id] == t.info[id].(inTried := true, refCount := 0);
    assert forall x :: x in t.info && x != id && x != evicted ==> u.info[x] == t.info[x];
    assert u.info.Keys == t.info.Keys;
    hide Exchanged, EvictionBucket;
    forall x | x in u.info ensures EntryCounted(u, x, -1, 0) {
      assert EntryCounted(t, x, -1, 0);
      BucketsWithout(t.newBuckets, id, x);
      BucketsInsert(nb, b, evicted, x);
    }
  }

  lemma ExchangedIndexed(t: Tables, key: Key, id: int, origin: nat, v: seq<int>, pos: nat)
    requires Indexed(t) && id in t.info && pos < |v| && v[pos] in t.info && v[pos] != id
    requires |t.triedBuckets| == TRIED_BUCKET_COUNT && |t.newBuckets| == NEW_BUCKET_COUNT && origin < NEW_BUCKET_COUNT
    ensures Indexed(Exchanged(t, key, id, origin, v, pos))
  {
    var u := Exchanged(t, key, id, origin, v, pos);
    var t1 := WithInfo(t, v[pos], u.info[v[pos]]);
    WithInfoIndexed(t, v[pos], u.info[v[pos]]);
    WithInfoIndexed(t1, id, u.info[id]);
    IndexedIgnoresBuckets(WithInfo(t1, id, u.info[id]), u.newBuckets, u.triedBuckets, u.nNew, u.nTried);
  }

  lemma ShuffleIn(s: seq<int>, v: seq<int>, x: int)
    requires Shuffle(s, v)
    ensures x in s <==> x in v
  {
  }

  lemma ExchangedTried(t: Tables, u: Tables, key: Key, id: int, v: seq<int>, pos: nat)
    requires TriedOk(t, key) && id in t.info && !t.info[id].inTried
    requires Shuffle(t.triedBuckets[key.TriedBucket(t.info[id])], v) && pos < |v|
    requires u.triedBuckets == t.triedBuckets[key.TriedBucket(t.info[id]) := v[pos := id]]
    requires u.info.Keys == t.info.Keys
    requires forall x :: x in t.info ==> u.info[x].service == t.info[x].service
    requires forall x :: x in t.info ==> u.info[x].inTried == if x == id then true else if x == v[pos] then false
             else t.info[x].inTried
    ensures TriedOk(u, key)
  {
    var home := key.TriedBucket(t.info[id]);
    ShuffleIn(t.triedBuckets[home], v, v[pos]);
    forall k, i | 0 <= k < |u.triedBuckets| && 0 <= i < |u.triedBuckets[k]|
      ensures u.triedBuckets[k][i] in u.info && u.info[u.triedBuckets[k][i]].inTried
              && key.TriedBucket(u.info[u.triedBuckets[k][i]]) == k
    {
      ExchangedSlot(t, u, key, id, v, pos, k, i);
    }
    forall x | x in u.info && u.info[x].inTried ensures x in u.triedBuckets[key.TriedBucket(u.info[x])] {
      if x == id {
        assert u.triedBuckets[home][pos] == id;
      } else {
        assert x in t.triedBuckets[key.TriedBucket(t.info[x])];
        if key.TriedBucket(t.info[x]) == home {
          ShuffleIn(t.triedBuckets[home], v, x);
          var i :| 0 <= i < |v| && v[i] == x;
          assert u.triedBuckets[home][i] == x;
        }
      }
    }
    forall i | 0 <= i < |v| ensures v[i] != id {
      ShuffleIn(t.triedBuckets[home], v, v[i]);
    }
  }

  lemma ExchangedSlot(t: Tables, u: Tables, key: Key, id: int, v: seq<int>, pos: nat, k: nat, i: nat)
    requires TriedOk(t, key) && id in t.info && !t.info[id].inTried
    requires Shuffle(t.triedBuckets[key.TriedBucket(t.info[id])], v) && pos < |v|
    requires u.triedBuckets == t.triedBuckets[key.TriedBucket(t.info[id]) := v[pos := id]]
    requires u.info.Keys == t.info.Keys
    requires forall x :: x in t.info ==> u.info[x].service == t.info[x].service
    requires forall x :: x in t.info ==> u.info[x].inTried == if x == id then true else if x == v[pos] then false
             else t.info[x].inTried
    requires k < |u.triedBuckets| && i < |u.triedBuckets[k]|
    ensures u.triedBuckets[k][i] in u.info && u.info[u.triedBuckets[k][i]].inTried
            && key.TriedBucket(u.info[u.triedBuckets[k][i]]) == k
  {
    var home := key.TriedBucket(t.info[id]);
    if k == home {
      if i != pos {
        ShuffleIn(t.triedBuckets[home], v, v[i]);
        assert v[i] in v && v[i] != v[pos];
        var j :| 0 <= j < |t.triedBuckets[home]| && t.triedBuckets[home][j] == v[i];
      }
    } else {
      var x := t.triedBuckets[k][i];
      assert u.triedBuckets[k][i] == x && key.TriedBucket(t.info[x]) == k;
      ShuffleIn(t.triedBuckets[home], v, v[pos]);
      assert v[pos] in v;
      var j :| 0 <= j < |t.triedBuckets[home]| && t.triedBuckets[home][j] == v[pos];
    }
  }

  lemma ExchangedSized(t: Tables, key: Key, id: int, origin: nat, v: seq<int>, pos: nat)
    requires Sized(t) && id in t.info && origin < NEW_BUCKET_COUNT && id in t.newBuckets[origin]
    requires |v| == |t.triedBuckets[key.TriedBucket(t.info[id])]| && pos < |v| && v[pos] in t.info
    ensures Sized(Exchanged(t, key, id, origin, v, pos))
  {
    var b := EvictionBucket(t, key, id, origin, v[pos]);
    assert |t.newBuckets[b] - {id}| < NEW_BUCKET_SIZE by { RoomAfterLeaving(t.newBuckets[origin], id); }
    RoomForEvicted(t.newBuckets, id, b, v[pos], Exchanged(t, key, id, origin, v, pos).newBuckets);
  }

  lemma RoomAfterLeaving(s: set<int>, id: int)
    requires id in s && |s| <= NEW_BUCKET_SIZE
    ensures |s - {id}| < NEW_BUCKET_SIZE
  {
  }

  lemma RoomForEvicted(nb: seq<set<int>>, id: int, b: nat, evicted: int, r: seq<set<int>>)
    requires b < |nb| && |nb[b] - {id}| < NEW_BUCKET_SIZE
    requires forall c :: 0 <= c < |nb| ==> |nb[c]| <= NEW_BUCKET_SIZE
    requires r == Without(nb, id)[b := Without(nb, id)[b] + {evicted}]
    ensures forall c :: 0 <= c < |r| ==> |r[c]| <= NEW_BUCKET_SIZE
  {
    forall c | 0 <= c < |r| ensures |r[c]| <= NEW_BUCKET_SIZE {
      if c != b {
        SetWithin(nb[c] - {id}, nb[c]);
      }
    }
  }

  lemma ExchangedKeeps(t: Tables, key: Key, id: int, origin: nat, v: seq<int>, pos: nat)
    requires Inv(t, key) && id in t.info && !t.info[id].inTried && origin < NEW_BUCKET_COUNT
             && id in t.newBuckets[origin]
    requires Shuffle(t.triedBuckets[key.TriedBucket(t.info[id])], v) && pos < |v|
    ensures v[pos] in t.info && Inv(Exchanged(t, key, id, origin, v, pos), key)
  {
    hide Sized, Indexed, NewOk, TriedOk, Counted;
    TriedInBucket(t, key, id, v, pos);
    BucketCounts(t);
    var u := Exchanged(t, key, id, origin, v, pos);
    ExchangedSized(t, key, id, origin, v, pos);
    ExchangedIndexed(t, key, id, origin, v, pos);
    ExchangedNew(t, key, id, origin, v, pos);
    ExchangedTried(t, u, key, id, v, pos);
    ExchangedCounted(t, u, id, v[pos]);
  }

  lemma BucketCounts(t: Tables)
    requires Sized(t)
    ensures |t.newBuckets| == NEW_BUCKET_COUNT && |t.triedBuckets| == TRIED_BUCKET_COUNT
  {
  }

  lemma TriedInBucket(t: Tables, key: Key, id: int, v: seq<int>, pos: nat)
    requires TriedOk(t, key) && id in t.info && !t.info[id].inTried
    requires Shuffle(t.triedBuckets[key.TriedBucket(t.info[id])], v) && pos < |v|
    ensures v[pos] in t.info && t.info[v[pos]].inTried && v[pos] != id
  {
    assert v[pos] in v && v[pos] in t.triedBuckets[key.TriedBucket(t.info[id])];
  }

  lemma ExchangedCounted(t: Tables, u: Tables, id: int, evicted: int)
    requires Counted(t) && id in t.info && !t.info[id].inTried && evicted in t.info && t.info[evicted].inTried
    requires var info1 := t.info[evicted := t.info[evicted].(inTried := false, refCount := 1)];
             u.info == info1[id := info1[id].(refCount := 0, inTried := true)]
    requires u.nNew == t.nNew && u.nTried == t.nTried
    ensures Counted(u)
  {
    var info1 := t.info[evicted := t.info[evicted].(inTried := false, refCount := 1)];
    IdsAfterUpdate(t, t.(info := info1), evicted, info1[evicted]);
    IdsAfterUpdate(t.(info := info1), u, id, u.info[id]);
    assert id in NewIds(t) && evicted in TriedIds(t) && id !in TriedIds(t) && evicted !in NewIds(t);
    hide NewIds, TriedIds;
    assert |NewIds(t) + {evicted} - {id}| == |NewIds(t)|;
    assert |TriedIds(t) - {evicted} + {id}| == |TriedIds(t)|;
  }
}
