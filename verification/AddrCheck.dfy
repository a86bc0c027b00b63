// The consistency check the source ships for debugging (src/addrman.cpp, Check_): exactly what it
// accepts, and what separates that from the invariant.
module AddrCheck {
  import opened Common
  import opened AddrTables
  import opened SetWalk

  ghost predicate Good(t: Tables, key: Key) { Inv(t, key) && TimesOk(t) }

  // mapAddr[...]: an absent address reads as 0.
  function IdAt(t: Tables, ip: NetAddr): int { if ip in t.addr then t.addr[ip] else 0 }

  // The error code of one entry, or 0.
  function EntryError(t: Tables, id: int): int
    requires id in t.info
  {
    var info := t.info[id];
    if info.inTried && info.lastSuccess == 0 then -1
    else if info.inTried && info.refCount != 0 then -2
    else if !info.inTried && (info.refCount < 0 || info.refCount > NEW_BUCKETS_PER_ADDRESS) then -3
    else if !info.inTried && info.refCount == 0 then -4
    else if IdAt(t, info.service.ip) != id then -5
    else if info.randomPos < 0 || info.randomPos >= |t.random| || t.random[info.randomPos] != id then -14
    else if info.lastTry < 0 then -6
    else if info.lastSuccess < 0 then -8
    else 0
  }

  predicate EntriesOk(t: Tables) { forall id :: id in t.info ==> EntryError(t, id) == 0 }

  // What the first pass has collected when the ids `rest` are still to come.
  ghost predicate Collected(t: Tables, rest: set<int>, setTried: set<int>, mapNew: map<int, int>) {
    && setTried == TriedIds(t) - rest
    && mapNew.Keys == NewIds(t) - rest
    && forall id :: id in mapNew ==> id in t.info && mapNew[id] == t.info[id].refCount
  }

  lemma CollectOne(t: Tables, rest: set<int>, id: int, setTried: set<int>, mapNew: map<int, int>)
    requires Collected(t, rest, setTried, mapNew) && id in rest && id in t.info
    ensures if t.info[id].inTried then Collected(t, rest - {id}, setTried + {id}, mapNew)
            else Collected(t, rest - {id}, setTried, mapNew[id := t.info[id].refCount])
  {
    forall x ensures x in TriedIds(t) - (rest - {id}) <==> x in TriedIds(t) - rest || (x == id && t.info[id].inTried) {
    }
    forall x ensures x in NewIds(t) - (rest - {id}) <==> x in NewIds(t) - rest || (x == id && !t.info[id].inTried) { }
  }

  lemma CollectedAtStart(t: Tables)
    ensures Collected(t, t.info.Keys, {}, map[])
  {
    assert TriedIds(t) - t.info.Keys == {} && NewIds(t) - t.info.Keys == {};
  }

  lemma CollectedAll(t: Tables, setTried: set<int>, mapNew: map<int, int>)
    requires Collected(t, {}, setTried, mapNew)
    ensures setTried == TriedIds(t) && mapNew == map id | id in NewIds(t) :: t.info[id].refCount
  {
    assert TriedIds(t) - {} == TriedIds(t) && NewIds(t) - {} == NewIds(t);
    var all := map id | id in NewIds(t) :: t.info[id].refCount;
    assert all.Keys == NewIds(t);
    forall id | id in all ensures id in mapNew && mapNew[id] == all[id] { }
  }

  // First pass: the tried ids, and the reference counts of the others.
  method CheckEntries(t: Tables) returns (r: int, setTried: set<int>, mapNew: map<int, int>)
    ensures r == 0 <==> EntriesOk(t)
    ensures r == 0 ==> setTried == TriedIds(t) && mapNew == map id | id in NewIds(t) :: t.info[id].refCount
  {
    hide Collected, EntryError;
    setTried, mapNew := {}, map[];
    var rest := t.info.Keys;
    CollectedAtStart(t);
    while rest != {}
      invariant rest <= t.info.Keys && Collected(t, rest, setTried, mapNew)
      invariant forall id :: id in t.info && id !in rest ==> EntryError(t, id) == 0
      decreases |rest|
    {
      var id := Least(rest);
      var e := EntryError(t, id);
      if e != 0 {
        return e, setTried, mapNew;
      }
      CollectOne(t, rest, id, setTried, mapNew);
      if t.info[id].inTried {
        setTried := setTried + {id};
      } else {
        mapNew := mapNew[id := t.info[id].refCount];
      }
      rest := rest - {id};
    }
    CollectedAll(t, setTried, mapNew);
    r := 0;
  }

  // The ids of the first n "tried" buckets.
  function Listed(tb: seq<seq<int>>, n: nat): set<int>
    requires n <= |tb|
  {
    set k, i | 0 <= k < n && 0 <= i < |tb[k]| :: tb[k][i]
  }

  // A slot of a "tried" bucket holds a tried id that no earlier slot holds.
  predicate SlotOk(t: Tables, n: nat, i: nat)
    requires n < |t.triedBuckets| && i < |t.triedBuckets[n]|
  {
    var x := t.triedBuckets[n][i];
    x in TriedIds(t) && x !in Listed(t.triedBuckets, n) && forall j :: 0 <= j < i ==> t.triedBuckets[n][j] != x
  }

  // The "tried" buckets together hold every tried id exactly once, and nothing else.
  predicate TriedListed(t: Tables) {
    && (forall n, i :: 0 <= n < |t.triedBuckets| && 0 <= i < |t.triedBuckets[n]| ==> SlotOk(t, n, i))
    && TriedIds(t) <= Listed(t.triedBuckets, |t.triedBuckets|)
  }

  lemma ListedMore(tb: seq<seq<int>>, n: nat)
    requires n < |tb|
    ensures Listed(tb, n + 1) == Listed(tb, n) + set j | 0 <= j < |tb[n]| :: tb[n][j]
  {
    forall x ensures x in Listed(tb, n + 1) <==> x in Listed(tb, n) || x in (set j | 0 <= j < |tb[n]| :: tb[n][j]) {
      if x in Listed(tb, n + 1) {
        var k, i :| 0 <= k < n + 1 && 0 <= i < |tb[k]| && tb[k][i] == x;
        if k < n { assert tb[k][i] in Listed(tb, n); } else { assert x in set j | 0 <= j < |tb[n]| :: tb[n][j]; }
      }
      if x in Listed(tb, n) {
        var k, i :| 0 <= k < n && 0 <= i < |tb[k]| && tb[k][i] == x;
        assert tb[k][i] in Listed(tb, n + 1);
      }
      if x in set j | 0 <= j < |tb[n]| :: tb[n][j] {
        var j :| 0 <= j < |tb[n]| && tb[n][j] == x;
        assert tb[n][j] in Listed(tb, n + 1);
      }
    }
  }

  // Second pass: every entry of a "tried" bucket is crossed off once, and none is left.
  method CheckTried(t: Tables, setTried0: set<int>) returns (r: int, setTried: set<int>)
    requires setTried0 == TriedIds(t)
    ensures r == 0 && setTried == {} <==> TriedListed(t)
  {
    setTried := setTried0;
    for n := 0 to |t.triedBuckets|
      invariant setTried == TriedIds(t) - Listed(t.triedBuckets, n)
      invariant forall m, i :: 0 <= m < n && 0 <= i < |t.triedBuckets[m]| ==> SlotOk(t, m, i)
    {
      var vTried := t.triedBuckets[n];
      for i := 0 to |vTried|
        invariant setTried == TriedIds(t) - Listed(t.triedBuckets, n) - set j | 0 <= j < i :: vTried[j]
        invariant forall j :: 0 <= j < i ==> SlotOk(t, n, j)
      {
        assert SlotOk(t, n, i) <==> vTried[i] in setTried;
        if vTried[i] !in setTried {
          return -11, setTried;
        }
        setTried := setTried - {vTried[i]};
        assert (set j | 0 <= j < i + 1 :: vTried[j]) == (set j | 0 <= j < i :: vTried[j]) + {vTried[i]};
      }
      ListedMore(t.triedBuckets, n);
    }
    Difference(TriedIds(t), Listed(t.triedBuckets, |t.triedBuckets|));
    r := 0;
  }

  lemma Difference(a: set<int>, b: set<int>)
    ensures a - b == {} <==> a <= b
  {
    forall x ensures x in a - b <==> x in a && x !in b { }
  }

  function RefCount(t: Tables, id: int): int { if id in t.info then t.info[id].refCount else 0 }

  // The "new" buckets hold every new id as often as it is referenced, and nothing else.
  predicate NewListed(t: Tables) {
    && (forall b, id :: 0 <= b < |t.newBuckets| && id in t.newBuckets[b] ==> id in NewIds(t))
    && (forall id :: id in NewIds(t) ==> RefCount(t, id) == |Buckets(t.newBuckets, id)|)
  }

  // References to an id among the first n buckets and the ids `seen` of the next one.
  function Seen(t: Tables, n: nat, seen: set<int>, id: int): nat
    requires n <= |t.newBuckets|
  {
    |Buckets(t.newBuckets[..n], id)| + if id in seen then 1 else 0
  }

  ghost predicate CountLeft(t: Tables, n: nat, seen: set<int>, mapNew: map<int, int>, id: int)
    requires n <= |t.newBuckets|
  {
    && (id in mapNew <==> id in NewIds(t) && Seen(t, n, seen, id) < RefCount(t, id))
    && (id in mapNew ==> mapNew[id] == RefCount(t, id) - Seen(t, n, seen, id))
    && (id in NewIds(t) ==> Seen(t, n, seen, id) <= RefCount(t, id))
    && (Seen(t, n, seen, id) > 0 ==> id in NewIds(t))
  }

  ghost predicate CountsLeft(t: Tables, n: nat, seen: set<int>, mapNew: map<int, int>)
    requires n <= |t.newBuckets|
  {
    forall id :: CountLeft(t, n, seen, mapNew, id)
  }

  lemma CountsAtStart(t: Tables, mapNew: map<int, int>)
    requires EntriesOk(t) && mapNew == map id | id in NewIds(t) :: t.info[id].refCount
    ensures CountsLeft(t, 0, {}, mapNew)
  {
    forall id ensures CountLeft(t, 0, {}, mapNew, id) {
      assert Buckets(t.newBuckets[..0], id) == {};
      if id in NewIds(t) { assert EntryError(t, id) == 0; }
    }
  }

  lemma CountsNext(t: Tables, n: nat, mapNew: map<int, int>)
    requires n < |t.newBuckets| && CountsLeft(t, n, t.newBuckets[n], mapNew)
    ensures CountsLeft(t, n + 1, {}, mapNew)
  {
    var next := n + 1;
    forall id ensures CountLeft(t, next, {}, mapNew, id) {
      BucketsGrow(t.newBuckets, n, id);
      assert CountLeft(t, n, t.newBuckets[n], mapNew, id);
    }
  }

  // With all buckets walked, nothing is left exactly when every count was right.
  lemma CountsAtEnd(t: Tables, mapNew: map<int, int>)
    requires CountsLeft(t, |t.newBuckets|, {}, mapNew)
    ensures mapNew == map[] <==> NewListed(t)
  {
    assert t.newBuckets[..|t.newBuckets|] == t.newBuckets;
    forall b, id | 0 <= b < |t.newBuckets| && id in t.newBuckets[b] ensures id in NewIds(t) {
      assert CountLeft(t, |t.newBuckets|, {}, mapNew, id) && b in Buckets(t.newBuckets, id);
    }
    if id :| id in mapNew {
      assert CountLeft(t, |t.newBuckets|, {}, mapNew, id);
    } else {
      forall id ensures id !in mapNew { }
      forall id | id in NewIds(t) ensures RefCount(t, id) == |Buckets(t.newBuckets, id)| {
        assert CountLeft(t, |t.newBuckets|, {}, mapNew, id);
      }
    }
  }

  // Crossing one reference off; where none is left to cross off, the count was wrong.
  lemma CountsStep(t: Tables, n: nat, seen: set<int>, x: int, mapNew: map<int, int>)
    requires n < |t.newBuckets| && x in t.newBuckets[n] && x !in seen && CountsLeft(t, n, seen, mapNew)
    ensures x !in mapNew ==> !NewListed(t)
    ensures x in mapNew ==> CountsLeft(t, n, seen + {x}, if mapNew[x] == 1 then mapNew - {x}
                                       else mapNew[x := mapNew[x] - 1])
  {
    BucketsGrow(t.newBuckets, n, x);
    assert CountLeft(t, n, seen, mapNew, x);
    if x in mapNew {
      var mapNew' := if mapNew[x] == 1 then mapNew - {x} else mapNew[x := mapNew[x] - 1];
      forall id ensures CountLeft(t, n, seen + {x}, mapNew', id) {
        assert CountLeft(t, n, seen, mapNew, id);
      }
    }
  }

  // Third pass: every reference from a "new" bucket is counted down, and none is left.
  method CheckNew(t: Tables, mapNew0: map<int, int>) returns (r: int, mapNew: map<int, int>)
    requires EntriesOk(t) && mapNew0 == map id | id in NewIds(t) :: t.info[id].refCount
    ensures r == 0 && mapNew == map[] <==> NewListed(t)
  {
    hide CountsLeft, NewListed, EntriesOk;
    mapNew := mapNew0;
    CountsAtStart(t, mapNew);
    for n := 0 to |t.newBuckets|
      invariant CountsLeft(t, n, {}, mapNew)
    {
      var rest := t.newBuckets[n];
      assert t.newBuckets[n] - rest == {};
      while rest != {}
        invariant rest <= t.newBuckets[n]
        invariant CountsLeft(t, n, t.newBuckets[n] - rest, mapNew)
        decreases |rest|
      {
        var x := Least(rest);
        CountsStep(t, n, t.newBuckets[n] - rest, x, mapNew);
        if x !in mapNew {
          return -12, mapNew;
        }
        if mapNew[x] == 1 {
          mapNew := mapNew - {x};
        } else {
          mapNew := mapNew[x := mapNew[x] - 1];
        }
        assert t.newBuckets[n] - (rest - {x}) == t.newBuckets[n] - rest + {x};
        rest := rest - {x};
      }
      assert t.newBuckets[n] - rest == t.newBuckets[n];
      CountsNext(t, n, mapNew);
    }
    CountsAtEnd(t, mapNew);
    r := 0;
  }

  // What the check accepts.
  predicate Checked(t: Tables) {
    && |t.random| == t.nTried + t.nNew && Counted(t)
    && EntriesOk(t) && TriedListed(t) && NewListed(t)
  }

  method Check_(t: Tables) returns (r: int)
    ensures r == 0 <==> Checked(t)
  {
    hide EntriesOk, TriedListed, NewListed;
    if |t.random| != t.nTried + t.nNew {
      return -7;
    }
    var setTried, mapNew;
    r, setTried, mapNew := CheckEntries(t);
    if r != 0 {
      return;
    }
    if |setTried| != t.nTried {
      return -9;
    }
    assert mapNew.Keys == NewIds(t);
    if |mapNew| != t.nNew {
      return -10;
    }
    r, setTried := CheckTried(t, setTried);
    if r != 0 {
      return;
    }
    r, mapNew := CheckNew(t, mapNew);
    if r != 0 {
      return;
    }
    if |setTried| != 0 {
      return -13;
    }
    if |mapNew| != 0 {
      return -15;
    }
  }

  // What the check does not look at: the sizes of the buckets, the range of the ids, addresses
  // without an entry or the other way round, and whether a tried entry lies in its home bucket.
  predicate Unchecked(t: Tables, key: Key) {
    && Sized(t)
    && (forall id :: id in t.info ==> 0 <= id < t.idCount && t.info[id].service.ip in t.addr)
    && (forall a :: a in t.addr ==> t.addr[a] in t.info && t.info[t.addr[a]].service.ip == a)
    && (forall k, i :: 0 <= k < |t.triedBuckets| && 0 <= i < |t.triedBuckets[k]| ==>
          t.triedBuckets[k][i] in t.info ==> key.TriedBucket(t.info[t.triedBuckets[k][i]]) == k)
  }

  // The places of some entries in vRandom.
  lemma {:induction false} Places(t: Tables, ids: set<int>) returns (places: set<nat>)
    requires ids <= t.info.Keys
    requires forall id :: id in ids ==> 0 <= t.info[id].randomPos < |t.random| && t.random[t.info[id].randomPos] == id
    ensures |places| == |ids|
    ensures forall p :: p in places ==> p < |t.random| && t.random[p] in ids && t.info[t.random[p]].randomPos == p
  {
    if ids == {} {
      places := {};
    } else {
      var id := SomeMember(ids);
      var rest := Places(t, ids - {id});
      places := rest + {t.info[id].randomPos};
    }
  }

  lemma {:induction false} Below(n: nat) returns (all: set<nat>)
    ensures |all| == n && forall p: nat :: p in all <==> p < n
  {
    if n == 0 {
      all := {};
    } else {
      all := Below(n - 1);
      all := all + {n - 1};
    }
  }

  // As many entries as places, each at its own: so every place has its entry.
  lemma PlacesFilled(t: Tables, p: nat)
    requires |t.random| == |t.info.Keys| && p < |t.random|
    requires forall id :: id in t.info ==>
               0 <= t.info[id].randomPos < |t.random| && t.random[t.info[id].randomPos] == id
    ensures t.random[p] in t.info && t.info[t.random[p]].randomPos == p
  {
    var places := Places(t, t.info.Keys);
    var all := Below(|t.random|);
    if p !in places {
      SetWithin(places + {p}, all);
    }
  }

  lemma CheckedIndexed(t: Tables, key: Key)
    requires Checked(t) && Unchecked(t, key)
    ensures Indexed(t) && TimesOk(t)
  {
    hide TriedListed, NewListed, Sized;
    NewOrTried(t);
    forall id | id in t.info ensures EntryIndexed(t, id) {
      assert EntryError(t, id) == 0;
    }
    forall p | 0 <= p < |t.random| ensures t.random[p] in t.info && t.info[t.random[p]].randomPos == p {
      PlacesFilled(t, p);
    }
    forall id | id in t.info
      ensures t.info[id].lastTry >= 0 && t.info[id].lastSuccess >= 0
              && (t.info[id].inTried ==> t.info[id].lastSuccess != 0)
    {
      assert EntryError(t, id) == 0;
    }
  }

  lemma CheckedBuckets(t: Tables, key: Key)
    requires Checked(t) && Unchecked(t, key)
    ensures NewOk(t, -1, 0) && TriedOk(t, key)
  {
    forall id | id in t.info ensures EntryCounted(t, id, -1, 0) {
      assert EntryError(t, id) == 0;
      if t.info[id].inTried {
        assert Buckets(t.newBuckets, id) == {};
      } else {
        assert id in NewIds(t);
      }
    }
    var tb := t.triedBuckets;
    forall k, i | 0 <= k < |tb| && 0 <= i < |tb[k]|
      ensures tb[k][i] in t.info && t.info[tb[k][i]].inTried && key.TriedBucket(t.info[tb[k][i]]) == k
    {
      assert SlotOk(t, k, i);
    }
    forall k, i, j | 0 <= k < |tb| && 0 <= i < j < |tb[k]| ensures tb[k][i] != tb[k][j] {
      assert SlotOk(t, k, j);
    }
    forall b, id | 0 <= b < |t.newBuckets| && id in t.newBuckets[b] ensures id in t.info {
      assert id in NewIds(t);
    }
    forall id | id in t.info && t.info[id].inTried ensures id in tb[key.TriedBucket(t.info[id])] {
      assert id in TriedIds(t) && id in Listed(tb, |tb|);
      var k, i :| 0 <= k < |tb| && 0 <= i < |tb[k]| && tb[k][i] == id;
    }
  }

  lemma GoodListed(t: Tables, key: Key)
    requires Good(t, key)
    ensures Checked(t) && Unchecked(t, key)
  {
    SizesAgree(t, key, -1, 0);
    forall id | id in t.info ensures EntryError(t, id) == 0 && 0 <= id < t.idCount && t.info[id].service.ip in t.addr {
      assert EntryIndexed(t, id) && EntryCounted(t, id, -1, 0);
    }
    var tb := t.triedBuckets;
    forall n, i | 0 <= n < |tb| && 0 <= i < |tb[n]| ensures SlotOk(t, n, i) {
      var x := tb[n][i];
      assert x in t.info && key.TriedBucket(t.info[x]) == n;
    }
    forall id | id in TriedIds(t) ensures id in Listed(tb, |tb|) {
      var k := key.TriedBucket(t.info[id]);
      var i :| 0 <= i < |tb[k]| && tb[k][i] == id;
      assert tb[k][i] in Listed(tb, |tb|);
    }
    forall b, id | 0 <= b < |t.newBuckets| && id in t.newBuckets[b] ensures id in NewIds(t) {
      assert b in Buckets(t.newBuckets, id) && EntryCounted(t, id, -1, 0);
    }
    forall id | id in NewIds(t) ensures RefCount(t, id) == |Buckets(t.newBuckets, id)| {
      assert EntryCounted(t, id, -1, 0);
    }
  }

  // The invariant is what the check accepts together with what it does not look at.
  lemma CheckExactly(t: Tables, key: Key)
    ensures Inv(t, key) && TimesOk(t) <==> Checked(t) && Unchecked(t, key)
  {
    if Good(t, key) {
      GoodListed(t, key);
    }
    if Checked(t) && Unchecked(t, key) {
      CheckedIndexed(t, key);
      CheckedBuckets(t, key);
    }
  }

  // One tried entry, in bucket 5: the check passes, whatever the entry's home bucket is.
  function Misplaced(): Tables {
    Tables(1, map[0 := AddrInfo(Service(7, 1), {}, 1, 0, 1, 0, 0, 0, true, 0)], map[7 := 0], [0],
           1, seq(TRIED_BUCKET_COUNT, k => if k == 5 then [0] else []), 0, seq(NEW_BUCKET_COUNT, _ => {}))
  }

  lemma CheckMisses(key: Key)
    ensures Checked(Misplaced()) && TimesOk(Misplaced())
    ensures Inv(Misplaced(), key) <==> key.TriedBucket(Misplaced().info[0]) == 5
  {
    MisplacedChecked();
    MisplacedUnchecked(key);
    CheckExactly(Misplaced(), key);
    assert TimesOk(Misplaced());
    hide Checked, Unchecked, TimesOk, Inv, Misplaced;
  }

  lemma MisplacedChecked()
    ensures Checked(Misplaced())
  {
    var t := Misplaced();
    var tb := t.triedBuckets;
    assert NewIds(t) == {} && TriedIds(t) == {0};
    assert EntryError(t, 0) == 0;
    MisplacedListed(tb);
    forall n, i | 0 <= n < |tb| && 0 <= i < |tb[n]| ensures SlotOk(t, n, i) {
      assert n == 5 && i == 0;
    }
    hide SlotOk, Listed;
  }

  lemma MisplacedListed(tb: seq<seq<int>>)
    requires |tb| == TRIED_BUCKET_COUNT && forall k :: 0 <= k < |tb| ==> tb[k] == if k == 5 then [0] else []
    ensures 0 in Listed(tb, |tb|) && 0 !in Listed(tb, 5)
  {
    assert tb[5][0] in Listed(tb, |tb|);
  }

  lemma MisplacedUnchecked(key: Key)
    ensures Unchecked(Misplaced(), key) <==> key.TriedBucket(Misplaced().info[0]) == 5
  {
    var t := Misplaced();
    assert t.triedBuckets[5][0] == 0;
    hide Key.TriedBucket;
  }
}
