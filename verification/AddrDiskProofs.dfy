// Reading back what was saved gives the same tables up to the names of the ids.
module AddrDiskProofs {
  import opened Common
  import opened AddrTables
  import opened AddrDisk
  import opened SetWalk

  ghost predicate Saved(d: Disk, t: Tables, key: Key, newIds: seq<int>, triedIds: seq<int>) {
    IsSaveOf(d, t, key, newIds, triedIds) && Inv(t, key)
  }

  lemma ListLength(s: seq<int>, ids: set<int>)
    requires Lists(s, ids)
    ensures |s| == |ids|
  {
    DistinctCount(s);
    assert (set x | x in s) == ids;
  }

  lemma SavedWellFormed(d: Disk, t: Tables, key: Key, newIds: seq<int>, triedIds: seq<int>)
    requires Saved(d, t, key, newIds, triedIds)
    ensures WellFormed(d) && d.nNew == |newIds| && d.nTried == |triedIds|
  {
    ListLength(newIds, NewIds(t));
    ListLength(triedIds, TriedIds(t));
  }

  lemma Listed(s: seq<int>, ids: set<int>, i: nat)
    requires Lists(s, ids) && i < |s|
    ensures s[i] in ids
  {
    assert s[i] in s;
  }

  lemma DistinctConcat(a: seq<int>, b: seq<int>)
    requires Distinct(a) && Distinct(b) && forall x :: x in a ==> x !in b
    ensures Distinct(a + b)
  {
    forall i, j | 0 <= i < |a| && 0 <= j < |b| ensures a[i] != b[j] { assert a[i] in a && b[j] in b; }
  }

  // The place of a saved entry tells its table: new ones come first.
  lemma PlacesDiffer(t: Tables, newIds: seq<int>, triedIds: seq<int>)
    requires Lists(newIds, NewIds(t)) && Lists(triedIds, TriedIds(t))
    ensures Distinct(newIds + triedIds) && forall id :: id in t.info <==> id in newIds + triedIds
    ensures forall x :: 0 <= x < |newIds + triedIds| ==>
              (newIds + triedIds)[x] in t.info && (t.info[(newIds + triedIds)[x]].inTried <==> x >= |newIds|)
  {
    var ids := newIds + triedIds;
    forall x | 0 <= x < |ids| ensures ids[x] in t.info && (t.info[ids[x]].inTried <==> x >= |newIds|) {
      if x < |newIds| {
        Listed(newIds, NewIds(t), x);
      } else {
        Listed(triedIds, TriedIds(t), x - |newIds|);
      }
    }
    forall id ensures id in t.info <==> id in ids {
      assert id in t.info <==> id in NewIds(t) || id in TriedIds(t);
      assert id in ids <==> id in newIds || id in triedIds;
    }
    assert NewIds(t) !! TriedIds(t);
    DistinctConcat(newIds, triedIds);
  }

  // ---------------------------------------------------------------- the entries

  predicate EntryRead(u: Tables, t: Tables, ids: seq<int>, x: int)
    requires 0 <= x < |ids|
  {
    && x in u.info && ids[x] in t.info
    && u.info[x] == t.info[ids[x]].(lastTry := 0, randomPos := x, refCount := u.info[x].refCount)
    && u.info[x].service.ip in u.addr && u.addr[u.info[x].service.ip] == x
  }

  // u holds the first m of the saved entries, under their places as ids.
  ghost predicate Holds(u: Tables, t: Tables, ids: seq<int>, m: nat) {
    && m <= |ids| && |u.random| == m && (forall p :: 0 <= p < m ==> u.random[p] == p)
    && (forall x :: x in u.info <==> 0 <= x < m)
    && (forall x :: 0 <= x < m ==> EntryRead(u, t, ids, x))
    && (forall a :: a in u.addr ==> 0 <= u.addr[a] < m && u.info[u.addr[a]].service.ip == a)
  }

  lemma AppendedHolds(u: Tables, t: Tables, ids: seq<int>, m: nat, refCount: int)
    requires Holds(u, t, ids, m) && m < |ids| && Distinct(ids) && ids[m] in t.info && Indexed(t)
    ensures Holds(Appended(u, m, ToDisk(t.info[ids[m]]), refCount, t.info[ids[m]].inTried), t, ids, m + 1)
  {
    var v := Appended(u, m, ToDisk(t.info[ids[m]]), refCount, t.info[ids[m]].inTried);
    assert EntryIndexed(t, ids[m]);
    forall x | 0 <= x < m + 1 ensures EntryRead(v, t, ids, x) {
      if x < m {
        assert EntryRead(u, t, ids, x) && EntryIndexed(t, ids[x]);
      }
    }
  }

  // A complete reading is indexed, and its address table is the old one renamed.
  lemma HoldsIndexed(u: Tables, t: Tables, ids: seq<int>)
    requires Holds(u, t, ids, |ids|) && Indexed(t) && (forall id :: id in t.info <==> id in ids) && u.idCount == |ids|
    ensures Indexed(u) && (forall a :: a in u.addr <==> a in t.addr)
    ensures forall a :: a in u.addr ==> 0 <= u.addr[a] < |ids| && ids[u.addr[a]] == t.addr[a]
  {
    forall x | x in u.info ensures EntryIndexed(u, x) { assert EntryRead(u, t, ids, x); }
    forall a | a in u.addr ensures a in t.addr && ids[u.addr[a]] == t.addr[a] {
      assert EntryRead(u, t, ids, u.addr[a]) && EntryIndexed(t, ids[u.addr[a]]);
    }
    forall a | a in t.addr ensures a in u.addr {
      var id := t.addr[a];
      assert id in t.info && id in ids;
      var x :| 0 <= x < |ids| && ids[x] == t.addr[a];
      assert EntryRead(u, t, ids, x);
    }
  }

  lemma {:induction false} NewRead(d: Disk, t: Tables, key: Key, newIds: seq<int>, triedIds: seq<int>, n: nat)
    requires Saved(d, t, key, newIds, triedIds) && n <= |d.newInfos|
    ensures var u := AfterNew(d, n);
            && Holds(u, t, newIds + triedIds, n)
            && u.newBuckets == seq(NEW_BUCKET_COUNT, _ => {}) && u.triedBuckets == seq(TRIED_BUCKET_COUNT, _ => [])
            && u.nNew == d.nNew && u.nTried == d.nTried
            && forall x :: x in u.info ==> u.info[x].refCount == 0
  {
    if n > 0 {
      NewRead(d, t, key, newIds, triedIds, n - 1);
      var u, ids := AfterNew(d, n - 1), newIds + triedIds;
      PlacesDiffer(t, newIds, triedIds);
      assert d.newInfos[n - 1] == ToDisk(t.info[ids[n - 1]]) && !t.info[ids[n - 1]].inTried && Indexed(t);
      assert AfterNew(d, n) == Appended(u, n - 1, d.newInfos[n - 1], 0, false);
      hide *;
      AppendedHolds(u, t, ids, n - 1, 0);
      AppendedFields(u, n - 1, d.newInfos[n - 1], 0, false);
    }
  }

  lemma AppendedFields(u: Tables, id: int, r: SavedInfo, refCount: int, inTried: bool)
    ensures var v := Appended(u, id, r, refCount, inTried);
            && v.newBuckets == u.newBuckets && v.triedBuckets == u.triedBuckets && v.idCount == u.idCount
            && v.nNew == u.nNew && v.nTried == u.nTried && v.info.Keys == u.info.Keys + {id}
            && forall x :: x in v.info ==> v.info[x].refCount == if x == id then refCount else u.info[x].refCount
  {
  }

  // ---------------------------------------------------------------- the tried buckets

  // The places read so far, from n up to m, lie in their home buckets.
  ghost predicate TriedRead(u: Tables, t: Tables, key: Key, ids: seq<int>, n: nat, m: nat) {
    && m <= |ids| && |u.triedBuckets| == TRIED_BUCKET_COUNT
    && forall k :: 0 <= k < TRIED_BUCKET_COUNT ==> TriedBucketRead(u.triedBuckets[k], t, key, ids, n, m, k)
  }

  ghost predicate TriedBucketRead(bucket: seq<int>, t: Tables, key: Key, ids: seq<int>, n: nat, m: nat, k: nat)
    requires m <= |ids|
  {
    && Distinct(bucket)
    && forall x :: x in bucket <==> n <= x < m && ids[x] in t.info && key.TriedBucket(t.info[ids[x]]) == k
  }

  lemma DistinctFits(s: seq<int>, v: seq<int>)
    requires Distinct(s) && forall x :: x in s ==> x in v
    ensures |s| <= |v|
  {
    DistinctCount(s);
    var elems := set x | x in v;
    assert (set x | x in s) <= elems;
    SetWithin((set x | x in s), elems);
    SequenceCovers(v);
  }

  lemma {:induction false} SequenceCovers(v: seq<int>)
    ensures |set x | x in v| <= |v|
  {
    if v != [] {
      var init := v[..|v| - 1];
      SequenceCovers(init);
      assert v == init + [v[|v| - 1]];
      assert (set x | x in v) == (set x | x in init) + {v[|v| - 1]};
    }
  }

  // What a bucket holds so far, with one more to come, fits in the bucket it is read from.
  lemma RoomInTried(bucket: seq<int>, t: Tables, key: Key, ids: seq<int>, n: nat, m: nat, k: nat)
    requires TriedOk(t, key) && Sized(t) && Distinct(ids) && m < |ids| && ids[m] in t.info && k < TRIED_BUCKET_COUNT
    requires forall x :: n <= x <= m && ids[x] in t.info ==> t.info[ids[x]].inTried
    requires TriedBucketRead(bucket, t, key, ids, n, m, k) && n <= m && key.TriedBucket(t.info[ids[m]]) == k
    ensures |bucket| < TRIED_BUCKET_SIZE
  {
    var more := bucket + [m];
    forall i | 0 <= i < |bucket|
      ensures n <= bucket[i] < m && ids[bucket[i]] in t.info && key.TriedBucket(t.info[ids[bucket[i]]]) == k {
      assert bucket[i] in bucket;
    }
    var names := seq(|more|, i requires 0 <= i < |more| => ids[more[i]]);
    assert Distinct(names);
    forall i | 0 <= i < |names| ensures names[i] in t.triedBuckets[k] {
      var id := names[i];
      assert id == ids[more[i]] && n <= more[i] <= m && id in t.info && t.info[id].inTried
             && key.TriedBucket(t.info[id]) == k;
      assert id in t.triedBuckets[key.TriedBucket(t.info[id])];
    }
    forall x | x in names ensures x in t.triedBuckets[k] {
      var i :| 0 <= i < |names| && names[i] == x;
    }
    DistinctFits(names, t.triedBuckets[k]);
  }

  // What is known of the tried entry to be read next.
  lemma SavedTried(d: Disk, t: Tables, key: Key, newIds: seq<int>, triedIds: seq<int>, j: nat)
    requires Saved(d, t, key, newIds, triedIds) && j < |triedIds| == |d.triedInfos|
    ensures var ids, id := newIds + triedIds, |newIds| + j;
            && id < |ids| && ids[id] == triedIds[j] && triedIds[j] in t.info && t.info[triedIds[j]].inTried
            && (forall x :: |newIds| <= x <= id && ids[x] in t.info ==> t.info[ids[x]].inTried)
            && Distinct(ids) && TriedOk(t, key) && Sized(t) && Indexed(t)
            && d.key == key && d.triedInfos[j] == ToDisk(t.info[triedIds[j]])
  {
    PlacesDiffer(t, newIds, triedIds);
    hide Distinct, TriedOk, Sized, Indexed;
  }

  lemma BucketIsRead(u: Tables, t: Tables, key: Key, ids: seq<int>, n: nat, m: nat, k: nat)
    requires TriedRead(u, t, key, ids, n, m) && k < TRIED_BUCKET_COUNT
    ensures m <= |ids| && k < |u.triedBuckets| == TRIED_BUCKET_COUNT
    ensures TriedBucketRead(u.triedBuckets[k], t, key, ids, n, m, k)
  {
  }

  lemma TriedStepRead(u: Tables, d: Disk, t: Tables, key: Key, newIds: seq<int>, triedIds: seq<int>, j: nat)
    requires Saved(d, t, key, newIds, triedIds) && j < |d.triedInfos| && |triedIds| == |d.triedInfos|
    requires TriedRead(u, t, key, newIds + triedIds, |newIds|, |newIds| + j) && u.idCount == |newIds| + j
    ensures var id := |newIds| + j;
            var k := key.TriedBucket(t.info[triedIds[j]]);
            && triedIds[j] in t.info && t.info[triedIds[j]].inTried && d.triedInfos[j] == ToDisk(t.info[triedIds[j]])
            && TriedStep(u, d, j) == Appended(u, id, d.triedInfos[j], 0, true)
                 .(triedBuckets := u.triedBuckets[k := u.triedBuckets[k] + [id]], idCount := id + 1)
            && TriedRead(TriedStep(u, d, j), t, key, newIds + triedIds, |newIds|, id + 1)
  {
    hide *;
    SavedTried(d, t, key, newIds, triedIds, j);
    var ids, id := newIds + triedIds, |newIds| + j;
    var k := key.TriedBucket(t.info[triedIds[j]]);
    BucketIsRead(u, t, key, ids, |newIds|, id, k);
    RoomInTried(u.triedBuckets[k], t, key, ids, |newIds|, id, k);
    TriedStepIs(u, d, j, t.info[triedIds[j]]);
    OneMoreTried(u, TriedStep(u, d, j), t, key, ids, |newIds|, id);
  }

  // Reading a tried entry back into a bucket with room.
  lemma TriedStepIs(u: Tables, d: Disk, j: nat, x: AddrInfo)
    requires j < |d.triedInfos| && |u.triedBuckets| == TRIED_BUCKET_COUNT && d.triedInfos[j] == ToDisk(x)
    requires |u.triedBuckets[d.key.TriedBucket(x)]| < TRIED_BUCKET_SIZE
    ensures var k, id := d.key.TriedBucket(x), u.idCount;
            TriedStep(u, d, j) == Appended(u, id, d.triedInfos[j], 0, true)
              .(triedBuckets := u.triedBuckets[k := u.triedBuckets[k] + [id]], idCount := id + 1)
  {
  }

  lemma OneMoreTried(u: Tables, v: Tables, t: Tables, key: Key, ids: seq<int>, n: nat, m: nat)
    requires TriedRead(u, t, key, ids, n, m) && n <= m < |ids| && ids[m] in t.info
    requires var k := key.TriedBucket(t.info[ids[m]]);
             v.triedBuckets == u.triedBuckets[k := u.triedBuckets[k] + [m]]
    ensures TriedRead(v, t, key, ids, n, m + 1)
  {
    hide Distinct;
    forall c | 0 <= c < TRIED_BUCKET_COUNT ensures TriedBucketRead(v.triedBuckets[c], t, key, ids, n, m + 1, c) {
      assert TriedBucketRead(u.triedBuckets[c], t, key, ids, n, m, c);
      if c == key.TriedBucket(t.info[ids[m]]) {
        DistinctSnoc(u.triedBuckets[c], m);
      }
    }
  }

  lemma DistinctSnoc(s: seq<int>, x: int)
    requires Distinct(s) && x !in s
    ensures Distinct(s + [x])
  {
  }

  // What holds once the new entries and j of the tried ones are read.
  ghost predicate EntriesRead(u: Tables, d: Disk, t: Tables, key: Key, ids: seq<int>, n: nat, m: nat) {
    && Holds(u, t, ids, m) && TriedRead(u, t, key, ids, n, m) && u.idCount == m
    && u.newBuckets == seq(NEW_BUCKET_COUNT, _ => {}) && u.nNew == d.nNew && u.nTried == d.nTried
    && forall x :: x in u.info ==> u.info[x].refCount == 0
  }

  lemma {:induction false} AllTriedRead(d: Disk, t: Tables, key: Key, newIds: seq<int>, triedIds: seq<int>, j: nat)
    requires Saved(d, t, key, newIds, triedIds) && WellFormed(d) && j <= |d.triedInfos| == |triedIds|
    ensures EntriesRead(AfterTried(d, j), d, t, key, newIds + triedIds, |newIds|, |newIds| + j)
  {
    hide *;
    if j == 0 {
      NoTriedRead(d, t, key, newIds, triedIds);
    } else {
      var before := AfterTried(d, j - 1);
      AllTriedRead(d, t, key, newIds, triedIds, j - 1);
      NextTriedRead(before, d, t, key, newIds, triedIds, j - 1);
      TriedFold(d, j);
    }
  }

  lemma TriedFold(d: Disk, j: nat)
    requires 0 < j <= |d.triedInfos|
    ensures AfterTried(d, j) == TriedStep(AfterTried(d, j - 1), d, j - 1)
  {
  }

  lemma NoTriedRead(d: Disk, t: Tables, key: Key, newIds: seq<int>, triedIds: seq<int>)
    requires Saved(d, t, key, newIds, triedIds)
    ensures EntriesRead(AfterTried(d, 0), d, t, key, newIds + triedIds, |newIds|, |newIds|)
  {
    var ids := newIds + triedIds;
    SavedWellFormed(d, t, key, newIds, triedIds);
    NewRead(d, t, key, newIds, triedIds, |d.newInfos|);
    var u, v := AfterNew(d, |d.newInfos|), AfterTried(d, 0);
    hide Inv, Lists, AfterNew, Holds;
    HoldsElsewhere(u, v, t, ids, |newIds|);
    forall k | 0 <= k < TRIED_BUCKET_COUNT
      ensures TriedBucketRead(v.triedBuckets[k], t, key, ids, |newIds|, |newIds|, k) {
    }
  }

  lemma NextTriedRead(u: Tables, d: Disk, t: Tables, key: Key, newIds: seq<int>, triedIds: seq<int>, j: nat)
    requires Saved(d, t, key, newIds, triedIds) && j < |d.triedInfos| && |triedIds| == |d.triedInfos|
    requires EntriesRead(u, d, t, key, newIds + triedIds, |newIds|, |newIds| + j)
    ensures EntriesRead(TriedStep(u, d, j), d, t, key, newIds + triedIds, |newIds|, |newIds| + j + 1)
  {
    var ids, id := newIds + triedIds, |newIds| + j;
    hide Saved, TriedRead, TriedStep, Distinct, Holds, Appended, Indexed, TriedOk, Sized;
    SavedTried(d, t, key, newIds, triedIds, j);
    TriedStepRead(u, d, t, key, newIds, triedIds, j);
    BucketIsRead(u, t, key, ids, |newIds|, id, 0);
    AppendedHolds(u, t, ids, id, 0);
    AppendedFields(u, id, d.triedInfos[j], 0, true);
    HoldsElsewhere(Appended(u, id, d.triedInfos[j], 0, true), TriedStep(u, d, j), t, ids, id + 1);
  }

  lemma HoldsElsewhere(u: Tables, v: Tables, t: Tables, ids: seq<int>, m: nat)
    requires Holds(u, t, ids, m) && v.info == u.info && v.addr == u.addr && v.random == u.random
    ensures Holds(v, t, ids, m)
  {
    forall x | 0 <= x < m ensures EntryRead(v, t, ids, x) { assert EntryRead(u, t, ids, x); }
  }

  // ---------------------------------------------------------------- the "new" buckets

  // Whether the lists up to the first m entries of bucket b name x in bucket c.
  predicate Named(d: Disk, b: nat, m: nat, c: nat, x: int)
    requires b < |d.buckets| ==> m <= |d.buckets[b]|
  {
    (c < b && c < |d.buckets| && x in d.buckets[c]) || (c == b && b < |d.buckets| && x in d.buckets[b][..m])
  }

  // u is s with those places in the buckets, and references counted accordingly.
  ghost predicate BucketsRead(u: Tables, s: Tables, d: Disk, b: nat, m: nat)
    requires b < |d.buckets| ==> m <= |d.buckets[b]|
  {
    && NamesAre(u.newBuckets, d, b, m)
    && (forall x :: x in u.info ==> u.info[x].refCount == |Buckets(u.newBuckets, x)|)
    && SameButRefs(s, u)
  }

  ghost predicate NamesAre(nb: seq<set<int>>, d: Disk, b: nat, m: nat)
    requires b < |d.buckets| ==> m <= |d.buckets[b]|
  {
    && |nb| == NEW_BUCKET_COUNT
    && forall c, x :: 0 <= c < NEW_BUCKET_COUNT ==> (x in nb[c] <==> Named(d, b, m, c, x))
  }

  predicate SameButRefs(s: Tables, u: Tables) {
    && u == s.(info := u.info, newBuckets := u.newBuckets) && u.info.Keys == s.info.Keys
    && forall x :: x in s.info ==> u.info[x] == s.info[x].(refCount := u.info[x].refCount)
  }

  lemma NamedNext(d: Disk, b: nat, m: nat, c: nat, x: int)
    requires b < |d.buckets| && m < |d.buckets[b]|
    ensures Named(d, b, m + 1, c, x) <==> Named(d, b, m, c, x) || (c == b && x == d.buckets[b][m])
  {
    assert d.buckets[b][..m + 1] == d.buckets[b][..m] + [d.buckets[b][m]];
  }

  lemma NamedWhole(d: Disk, b: nat, c: nat, x: int)
    requires b < |d.buckets|
    ensures Named(d, b + 1, 0, c, x) <==> Named(d, b, |d.buckets[b]|, c, x)
  {
    assert d.buckets[b][..|d.buckets[b]|] == d.buckets[b];
  }

  lemma NamedIn(d: Disk, t: Tables, key: Key, newIds: seq<int>, triedIds: seq<int>, b: nat, m: nat, c: nat, x: int)
    requires Saved(d, t, key, newIds, triedIds) && (b < |d.buckets| ==> m <= |d.buckets[b]|) && Named(d, b, m, c, x)
    ensures c < |t.newBuckets| && 0 <= x < |newIds| && newIds[x] in t.newBuckets[c]
  {
    assert c < |d.buckets| && x in d.buckets[c];
    var i :| 0 <= i < |d.buckets[c]| && d.buckets[c][i] == x;
    assert BucketSaved(d.buckets[c], t.newBuckets[c], newIds);
  }

  // The reference limit is not reached before the last name.
  lemma RoomForReference(u: Tables, s: Tables, d: Disk, t: Tables, key: Key, newIds: seq<int>, triedIds: seq<int>,
                         b: nat, m: nat)
    requires Saved(d, t, key, newIds, triedIds) && b < |d.buckets| && m < |d.buckets[b]| && BucketsRead(u, s, d, b, m)
    ensures var i := d.buckets[b][m];
            && |Buckets(u.newBuckets, i)| < NEW_BUCKETS_PER_ADDRESS && i !in u.newBuckets[b] && 0 <= i < |newIds|
  {
    var i := d.buckets[b][m];
    assert BucketSaved(d.buckets[b], t.newBuckets[b], newIds);
    assert i in d.buckets[b] && !Named(d, b, m, b, i);
    var id := newIds[i];
    assert id in newIds && id in NewIds(t) && EntryCounted(t, id, -1, 0);
    hide Inv, IsSaveOf, Distinct, EntryCounted;
    forall c | c in Buckets(u.newBuckets, i) ensures c in Buckets(t.newBuckets, id) - {b} {
      NamedIn(d, t, key, newIds, triedIds, b, m, c, i);
    }
    assert b in Buckets(t.newBuckets, id);
    SetWithin(Buckets(u.newBuckets, i), Buckets(t.newBuckets, id) - {b});
    ReferenceLimit(t, key, id);
  }

  lemma ReferenceLimit(t: Tables, key: Key, id: int)
    requires Inv(t, key) && id in t.info
    ensures |Buckets(t.newBuckets, id)| <= NEW_BUCKETS_PER_ADDRESS
  {
    assert EntryCounted(t, id, -1, 0);
  }

  lemma NextNameRead(u: Tables, s: Tables, d: Disk, t: Tables, key: Key, newIds: seq<int>, triedIds: seq<int>, b: nat,
                     m: nat)
    requires Saved(d, t, key, newIds, triedIds) && b < |d.buckets| == NEW_BUCKET_COUNT && m < |d.buckets[b]|
    requires BucketsRead(u, s, d, b, m) && d.buckets[b][m] in u.info
    ensures BucketsRead(BucketStep(u, d, b, d.buckets[b][m]), s, d, b, m + 1)
  {
    var i := d.buckets[b][m];
    hide Saved, Named, NamesAre, Buckets, BucketStep, SameButRefs;
    RoomForReference(u, s, d, t, key, newIds, triedIds, b, m);
    BucketsAre(u.newBuckets, d, b, m);
    BucketStepIs(u, d, b, i);
    OneMoreRef(s, u, b, i);
    NamesNext(u.newBuckets, d, b, m);
    var v := BucketStep(u, d, b, i);
    NotInBucket(u.newBuckets, b, i);
    forall x | x in v.info ensures v.info[x].refCount == |Buckets(v.newBuckets, x)| {
      BucketsInsert(u.newBuckets, b, i, x);
    }
  }

  lemma BucketsAre(nb: seq<set<int>>, d: Disk, b: nat, m: nat)
    requires b < |d.buckets| && m <= |d.buckets[b]| && NamesAre(nb, d, b, m)
    ensures |nb| == NEW_BUCKET_COUNT
  {
  }

  lemma OneMoreRef(s: Tables, u: Tables, b: nat, i: int)
    requires SameButRefs(s, u) && i in u.info && b < |u.newBuckets|
    ensures SameButRefs(s, u.(info := u.info[i := u.info[i].(refCount := u.info[i].refCount + 1)],
                              newBuckets := u.newBuckets[b := u.newBuckets[b] + {i}]))
  {
  }

  // A name of an entry below the limit adds a reference.
  lemma BucketStepIs(u: Tables, d: Disk, b: nat, i: int)
    requires |u.newBuckets| == |d.buckets| == NEW_BUCKET_COUNT && b < |d.buckets| && i in u.info
    requires u.info[i].refCount < NEW_BUCKETS_PER_ADDRESS
    ensures BucketStep(u, d, b, i) == u.(info := u.info[i := u.info[i].(refCount := u.info[i].refCount + 1)],
                                         newBuckets := u.newBuckets[b := u.newBuckets[b] + {i}])
  {
  }

  lemma NamesNext(nb: seq<set<int>>, d: Disk, b: nat, m: nat)
    requires b < |d.buckets| == NEW_BUCKET_COUNT && m < |d.buckets[b]| && NamesAre(nb, d, b, m)
    ensures NamesAre(nb[b := nb[b] + {d.buckets[b][m]}], d, b, m + 1)
  {
    hide Named;
    var v := nb[b := nb[b] + {d.buckets[b][m]}];
    forall c, x | 0 <= c < NEW_BUCKET_COUNT ensures x in v[c] <==> Named(d, b, m + 1, c, x) {
      NamedNext(d, b, m, c, x);
    }
  }

  lemma NotInBucket(nb: seq<set<int>>, b: nat, i: int)
    requires b < |nb| && i !in nb[b]
    ensures b !in Buckets(nb, i)
  {
  }

  lemma {:induction false} AllNamesRead(d: Disk, t: Tables, key: Key, newIds: seq<int>, triedIds: seq<int>, b: nat,
                                        m: nat)
    requires Saved(d, t, key, newIds, triedIds) && WellFormed(d) && |d.buckets| == NEW_BUCKET_COUNT
    requires b <= |d.buckets| && (if b == |d.buckets| then m == 0 else m <= |d.buckets[b]|)
    requires NothingNamed(AfterTried(d, |d.triedInfos|), d)
             && forall x :: 0 <= x < |newIds| ==> x in AfterTried(d, |d.triedInfos|).info
    ensures BucketsRead(AfterBuckets(d, b, m), AfterTried(d, |d.triedInfos|), d, b, m)
    decreases b, m
  {
    hide Saved, Named, BucketStep, BucketsRead, AfterTried;
    var s := AfterTried(d, |d.triedInfos|);
    if m > 0 {
      AllNamesRead(d, t, key, newIds, triedIds, b, m - 1);
      NameIsThere(AfterBuckets(d, b, m - 1), s, d, t, key, newIds, triedIds, b, m - 1);
      NextNameRead(AfterBuckets(d, b, m - 1), s, d, t, key, newIds, triedIds, b, m - 1);
    } else if b > 0 {
      AllNamesRead(d, t, key, newIds, triedIds, b - 1, |d.buckets[b - 1]|);
      WholeBucketRead(AfterBuckets(d, b, 0), s, d, b - 1);
    } else {
      NoNamesRead(s, d);
    }
  }

  // A saved bucket names entries that were read.
  lemma NameIsThere(u: Tables, s: Tables, d: Disk, t: Tables, key: Key, newIds: seq<int>, triedIds: seq<int>, b: nat,
                    m: nat)
    requires Saved(d, t, key, newIds, triedIds) && b < |d.buckets| && m < |d.buckets[b]| && BucketsRead(u, s, d, b, m)
    requires forall x :: 0 <= x < |newIds| ==> x in s.info
    ensures d.buckets[b][m] in u.info
  {
    assert BucketSaved(d.buckets[b], t.newBuckets[b], newIds);
  }

  ghost predicate NothingNamed(s: Tables, d: Disk) {
    && s.newBuckets == seq(NEW_BUCKET_COUNT, _ => {})
    && forall x :: x in s.info ==> s.info[x].refCount == 0
  }

  lemma WholeBucketRead(u: Tables, s: Tables, d: Disk, b: nat)
    requires b < |d.buckets| && BucketsRead(u, s, d, b, |d.buckets[b]|)
    ensures BucketsRead(u, s, d, b + 1, 0)
  {
    hide Named;
    forall c, x | 0 <= c < NEW_BUCKET_COUNT ensures x in u.newBuckets[c] <==> Named(d, b + 1, 0, c, x) {
      NamedWhole(d, b, c, x);
    }
  }

  lemma NoNamesRead(s: Tables, d: Disk)
    requires NothingNamed(s, d)
    ensures BucketsRead(s, s, d, 0, 0)
  {
    forall x | x in s.info ensures Buckets(s.newBuckets, x) == {} { }
  }

  // ---------------------------------------------------------------- the round trip

  // Everything the reading established, about one table u.
  ghost predicate AllRead(u: Tables, d: Disk, t: Tables, key: Key, newIds: seq<int>, triedIds: seq<int>) {
    var ids := newIds + triedIds;
    exists s :: EntriesRead(s, d, t, key, ids, |newIds|, |ids|) && BucketsRead(u, s, d, |d.buckets|, 0)
  }

  lemma LoadedAllRead(d: Disk, t: Tables, key: Key, newIds: seq<int>, triedIds: seq<int>)
    requires Saved(d, t, key, newIds, triedIds)
    ensures WellFormed(d) && AllRead(Loaded(d), d, t, key, newIds, triedIds)
  {
    SavedWellFormed(d, t, key, newIds, triedIds);
    AllTriedRead(d, t, key, newIds, triedIds, |triedIds|);
    assert |newIds + triedIds| == |newIds| + |triedIds| && |d.triedInfos| == |triedIds|
           && |d.buckets| == NEW_BUCKET_COUNT;
    hide *;
    NothingNamedYet(AfterTried(d, |d.triedInfos|), d, t, key, newIds, triedIds);
    AllNamesRead(d, t, key, newIds, triedIds, |d.buckets|, 0);
    BothRead(AfterTried(d, |d.triedInfos|), AfterBuckets(d, |d.buckets|, 0), d, t, key, newIds, triedIds);
    LoadedIs(d);
  }

  lemma NothingNamedYet(s: Tables, d: Disk, t: Tables, key: Key, newIds: seq<int>, triedIds: seq<int>)
    requires EntriesRead(s, d, t, key, newIds + triedIds, |newIds|, |newIds + triedIds|)
    ensures NothingNamed(s, d)
  {
  }

  lemma BothRead(s: Tables, u: Tables, d: Disk, t: Tables, key: Key, newIds: seq<int>, triedIds: seq<int>)
    requires EntriesRead(s, d, t, key, newIds + triedIds, |newIds|, |newIds + triedIds|)
             && BucketsRead(u, s, d, |d.buckets|, 0)
    ensures AllRead(u, d, t, key, newIds, triedIds)
  {
  }

  lemma LoadedIs(d: Disk)
    requires WellFormed(d)
    ensures Loaded(d) == AfterBuckets(d, |d.buckets|, 0)
  {
  }

  lemma NewBucketsRenamed(u: Tables, s: Tables, d: Disk, t: Tables, key: Key, newIds: seq<int>, triedIds: seq<int>,
                          b: nat, x: int)
    requires Saved(d, t, key, newIds, triedIds) && BucketsRead(u, s, d, |d.buckets|, 0) && b < NEW_BUCKET_COUNT
    ensures var ids := newIds + triedIds;
            && |t.newBuckets| == NEW_BUCKET_COUNT
            && (x in u.newBuckets[b] <==> 0 <= x < |ids| && ids[x] in t.newBuckets[b])
            && (x in u.newBuckets[b] <==> x in d.buckets[b])
  {
    var ids := newIds + triedIds;
    assert x in u.newBuckets[b] <==> Named(d, |d.buckets|, 0, b, x);
    if x in d.buckets[b] {
      NamedIn(d, t, key, newIds, triedIds, |d.buckets|, 0, b, x);
    }
    if 0 <= x < |ids| && ids[x] in t.newBuckets[b] {
      PlacesDiffer(t, newIds, triedIds);
      NewInBuckets(t, key, b, ids[x]);
      assert BucketSaved(d.buckets[b], t.newBuckets[b], newIds);
    }
  }

  lemma NewInBuckets(t: Tables, key: Key, b: nat, id: int)
    requires Inv(t, key) && b < |t.newBuckets| && id in t.newBuckets[b]
    ensures id in t.info && !t.info[id].inTried
  {
    assert id in t.info && EntryCounted(t, id, -1, 0);
    assert b in Buckets(t.newBuckets, id);
  }

  // References are counted back to what they were.
  lemma CountsRestored(u: Tables, s: Tables, d: Disk, t: Tables, key: Key, newIds: seq<int>, triedIds: seq<int>, x: int)
    requires Saved(d, t, key, newIds, triedIds) && BucketsRead(u, s, d, |d.buckets|, 0) && x in u.info
    requires 0 <= x < |newIds + triedIds| && (newIds + triedIds)[x] in t.info
    ensures u.info[x].refCount == t.info[(newIds + triedIds)[x]].refCount
  {
    var id := (newIds + triedIds)[x];
    forall b ensures b in Buckets(u.newBuckets, x) <==> b in Buckets(t.newBuckets, id) {
      if 0 <= b < NEW_BUCKET_COUNT {
        NewBucketsRenamed(u, s, d, t, key, newIds, triedIds, b, x);
      }
    }
    assert |t.newBuckets| == NEW_BUCKET_COUNT;
    assert Buckets(u.newBuckets, x) == Buckets(t.newBuckets, id);
    assert EntryCounted(t, id, -1, 0);
  }

  lemma TriedBucketsRenamed(bucket: seq<int>, t: Tables, key: Key, ids: seq<int>, n: nat, k: nat)
    requires TriedBucketRead(bucket, t, key, ids, n, |ids|, k) && TriedOk(t, key) && k < TRIED_BUCKET_COUNT
    requires forall y :: 0 <= y < |ids| ==> ids[y] in t.info && (t.info[ids[y]].inTried <==> y >= n)
    ensures ListRenamed(t.triedBuckets[k], bucket, ids)
  {
    forall x | x in bucket ensures 0 <= x < |ids| && ids[x] in t.triedBuckets[k] {
      var id := ids[x];
      assert n <= x < |ids| && id in t.info && t.info[id].inTried;
      assert id in t.triedBuckets[key.TriedBucket(t.info[id])];
    }
    forall x | 0 <= x < |ids| && ids[x] in t.triedBuckets[k] ensures x in bucket {
      var i :| 0 <= i < |t.triedBuckets[k]| && t.triedBuckets[k][i] == ids[x];
      assert key.TriedBucket(t.info[ids[x]]) == k && n <= x;
    }
  }

  lemma EntriesRenamed(u: Tables, s: Tables, d: Disk, t: Tables, key: Key, newIds: seq<int>, triedIds: seq<int>, x: int)
    requires Saved(d, t, key, newIds, triedIds) && 0 <= x < |newIds + triedIds|
    requires EntriesRead(s, d, t, key, newIds + triedIds, |newIds|, |newIds + triedIds|)
             && BucketsRead(u, s, d, |d.buckets|, 0)
    ensures var ids := newIds + triedIds;
            && x in u.info && ids[x] in t.info
            && u.info[x] == t.info[ids[x]].(lastTry := 0, randomPos := x)
  {
    assert EntryRead(s, t, newIds + triedIds, x);
    CountsRestored(u, s, d, t, key, newIds, triedIds, x);
  }

  // What the two readings leave, and what is known of the places.
  ghost predicate ReadBack(u: Tables, s: Tables, d: Disk, t: Tables, key: Key, newIds: seq<int>, triedIds: seq<int>) {
    && Saved(d, t, key, newIds, triedIds)
    && EntriesRead(s, d, t, key, newIds + triedIds, |newIds|, |newIds + triedIds|)
    && BucketsRead(u, s, d, |d.buckets|, 0)
  }

  lemma EntriesBack(u: Tables, s: Tables, d: Disk, t: Tables, key: Key, newIds: seq<int>, triedIds: seq<int>)
    requires ReadBack(u, s, d, t, key, newIds, triedIds)
    ensures var ids := newIds + triedIds;
            && (forall x :: x in u.info <==> 0 <= x < |ids|)
            && (forall x :: 0 <= x < |ids| ==>
                  ids[x] in t.info && u.info[x] == t.info[ids[x]].(lastTry := 0, randomPos := x))
  {
    var ids := newIds + triedIds;
    assert forall x :: x in u.info <==> 0 <= x < |ids|;
    hide Saved, BucketsRead, Buckets, EntriesRead;
    forall x | 0 <= x < |ids|
      ensures ids[x] in t.info && u.info[x] == t.info[ids[x]].(lastTry := 0, randomPos := x)
    {
      EntriesRenamed(u, s, d, t, key, newIds, triedIds, x);
    }
  }

  lemma NewBucketsBack(u: Tables, s: Tables, d: Disk, t: Tables, key: Key, newIds: seq<int>, triedIds: seq<int>)
    requires ReadBack(u, s, d, t, key, newIds, triedIds)
    ensures var ids := newIds + triedIds;
            && |u.newBuckets| == |t.newBuckets| == |d.buckets| == NEW_BUCKET_COUNT
            && forall b :: 0 <= b < |u.newBuckets| ==> SetRenamed(t.newBuckets[b], u.newBuckets[b], ids)
  {
    var ids := newIds + triedIds;
    assert |u.newBuckets| == |t.newBuckets| == |d.buckets| == NEW_BUCKET_COUNT;
    hide Saved, BucketsRead, EntriesRead;
    forall b | 0 <= b < |u.newBuckets| ensures SetRenamed(t.newBuckets[b], u.newBuckets[b], ids) {
      forall x ensures x in u.newBuckets[b] <==> 0 <= x < |ids| && ids[x] in t.newBuckets[b] {
        NewBucketsRenamed(u, s, d, t, key, newIds, triedIds, b, x);
      }
    }
  }

  lemma TriedBucketsBack(u: Tables, s: Tables, d: Disk, t: Tables, key: Key, newIds: seq<int>, triedIds: seq<int>)
    requires ReadBack(u, s, d, t, key, newIds, triedIds)
    ensures var ids := newIds + triedIds;
            && |u.triedBuckets| == |t.triedBuckets| == TRIED_BUCKET_COUNT
            && forall k :: 0 <= k < |u.triedBuckets| ==> ListRenamed(t.triedBuckets[k], u.triedBuckets[k], ids)
  {
    var ids := newIds + triedIds;
    assert TriedOk(t, key) && |t.triedBuckets| == TRIED_BUCKET_COUNT && u.triedBuckets == s.triedBuckets;
    PlacesDiffer(t, newIds, triedIds);
    hide Saved, BucketsRead, TriedOk, Distinct, Holds, ListRenamed, TriedBucketRead;
    forall k | 0 <= k < |u.triedBuckets| ensures ListRenamed(t.triedBuckets[k], u.triedBuckets[k], ids) {
      TriedBucketsRenamed(s.triedBuckets[k], t, key, ids, |newIds|, k);
    }
  }

  lemma AddressesBack(u: Tables, s: Tables, d: Disk, t: Tables, key: Key, newIds: seq<int>, triedIds: seq<int>)
    requires ReadBack(u, s, d, t, key, newIds, triedIds)
    ensures var ids := newIds + triedIds;
            && Indexed(u) && u.idCount == |ids| && u.nNew == t.nNew && u.nTried == t.nTried && |u.random| == |t.random|
            && Distinct(ids) && (forall id :: id in t.info <==> id in ids)
            && (forall a :: a in u.addr <==> a in t.addr)
            && (forall a :: a in u.addr ==> 0 <= u.addr[a] < |ids| && ids[u.addr[a]] == t.addr[a])
  {
    var ids := newIds + triedIds;
    PlacesDiffer(t, newIds, triedIds);
    SavedWellFormed(d, t, key, newIds, triedIds);
    SizesAgree(t, key, -1, 0);
    assert Indexed(t) && d.nNew == t.nNew && d.nTried == t.nTried && |u.random| == |s.random| == |ids|;
    assert SameButRefs(s, u);
    hide Saved, BucketsRead, WellFormed, Holds, TriedRead, Distinct, Indexed;
    HoldsIndexed(s, t, ids);
    RefsIndexed(s, u);
  }

  // Every entry, both address indexes and every bucket come back, under the new names.
  lemma ReadBackRenamed(u: Tables, s: Tables, d: Disk, t: Tables, key: Key, newIds: seq<int>, triedIds: seq<int>)
    requires ReadBack(u, s, d, t, key, newIds, triedIds)
    ensures Renamed(t, u, newIds + triedIds)
  {
    hide Saved, BucketsRead, EntriesRead, Indexed, Distinct, Buckets, ReadBack, SetRenamed, ListRenamed;
    AddressesBack(u, s, d, t, key, newIds, triedIds);
    EntriesBack(u, s, d, t, key, newIds, triedIds);
    NewBucketsBack(u, s, d, t, key, newIds, triedIds);
    TriedBucketsBack(u, s, d, t, key, newIds, triedIds);
  }

  lemma RefsIndexed(s: Tables, u: Tables)
    requires SameButRefs(s, u) && Indexed(s)
    ensures Indexed(u)
  {
    forall x | x in u.info ensures EntryIndexed(u, x) { assert EntryIndexed(s, x); }
    forall p | 0 <= p < |u.random| ensures u.random[p] in u.info && u.info[u.random[p]].randomPos == p {
      assert u.random[p] == s.random[p] && s.random[p] in s.info;
    }
    forall a | a in u.addr ensures u.addr[a] in u.info && u.info[u.addr[a]].service.ip == a {
      assert u.addr[a] == s.addr[a] && s.addr[a] in s.info;
    }
  }

  // ---------------------------------------------------------------- the invariant again

  lemma {:induction false} SetRenamedSize(bucket: set<int>, renamed: set<int>, ids: seq<int>)
    requires SetRenamed(bucket, renamed, ids) && Distinct(ids) && forall id :: id in bucket ==> id in ids
    ensures |renamed| == |bucket|
    decreases |renamed|
  {
    forall id | id in bucket ensures exists x :: x in renamed && 0 <= x < |ids| && ids[x] == id {
      var x :| 0 <= x < |ids| && ids[x] == id;
      assert x in renamed;
    }
    if renamed == {} {
      assert bucket == {};
    } else {
      var x := SomeMember(renamed);
      assert forall y :: y in renamed - {x} ==> ids[y] != ids[x];
      SetRenamedSize(bucket - {ids[x]}, renamed - {x}, ids);
    }
  }

  lemma ListRenamedSize(bucket: seq<int>, renamed: seq<int>, ids: seq<int>)
    requires ListRenamed(bucket, renamed, ids) && Distinct(ids)
    ensures |renamed| <= |bucket|
  {
    forall i | 0 <= i < |renamed| ensures 0 <= renamed[i] < |ids| && ids[renamed[i]] in bucket {
      assert renamed[i] in renamed;
    }
    var names := seq(|renamed|, i requires 0 <= i < |renamed| => ids[renamed[i]]);
    assert Distinct(names);
    DistinctFits(names, bucket);
  }

  lemma RenamedSized(t: Tables, u: Tables, key: Key, ids: seq<int>)
    requires Inv(t, key) && Renamed(t, u, ids)
    ensures Sized(u)
  {
    assert Sized(t) && NewOk(t, -1, 0);
    hide Indexed, NewOk, TriedOk, Distinct, SetRenamed, ListRenamed, Inv;
    forall b | 0 <= b < |u.newBuckets| ensures |u.newBuckets[b]| <= NEW_BUCKET_SIZE {
      NewBucketIds(t, key, b);
      SetRenamedSize(t.newBuckets[b], u.newBuckets[b], ids);
    }
    forall k | 0 <= k < |u.triedBuckets| ensures |u.triedBuckets[k]| <= TRIED_BUCKET_SIZE {
      ListRenamedSize(t.triedBuckets[k], u.triedBuckets[k], ids);
    }
  }

  lemma NewBucketIds(t: Tables, key: Key, b: nat)
    requires Inv(t, key) && b < |t.newBuckets|
    ensures forall id :: id in t.newBuckets[b] ==> id in t.info
  {
  }

  lemma RenamedNew(t: Tables, u: Tables, ids: seq<int>)
    requires NewOk(t, -1, 0) && Renamed(t, u, ids)
    ensures NewOk(u, -1, 0)
  {
    forall b, x | 0 <= b < |u.newBuckets| && x in u.newBuckets[b] ensures x in u.info {
      assert SetRenamed(t.newBuckets[b], u.newBuckets[b], ids);
    }
    forall x | x in u.info ensures EntryCounted(u, x, -1, 0) {
      var id := ids[x];
      assert id in t.info && EntryCounted(t, id, -1, 0);
      forall b ensures b in Buckets(u.newBuckets, x) <==> b in Buckets(t.newBuckets, id) {
        assert 0 <= b < |u.newBuckets| ==> SetRenamed(t.newBuckets[b], u.newBuckets[b], ids);
      }
      assert Buckets(u.newBuckets, x) == Buckets(t.newBuckets, id);
    }
  }

  lemma RenamedTried(t: Tables, u: Tables, key: Key, ids: seq<int>)
    requires TriedOk(t, key) && Renamed(t, u, ids)
    ensures TriedOk(u, key)
  {
    forall k, i | 0 <= k < |u.triedBuckets| && 0 <= i < |u.triedBuckets[k]|
      ensures u.triedBuckets[k][i] in u.info && u.info[u.triedBuckets[k][i]].inTried
              && key.TriedBucket(u.info[u.triedBuckets[k][i]]) == k
    {
      var x := u.triedBuckets[k][i];
      assert ListRenamed(t.triedBuckets[k], u.triedBuckets[k], ids) && x in u.triedBuckets[k];
      var j :| 0 <= j < |t.triedBuckets[k]| && t.triedBuckets[k][j] == ids[x];
    }
    forall x | x in u.info && u.info[x].inTried ensures x in u.triedBuckets[key.TriedBucket(u.info[x])] {
      var id := ids[x];
      var k := key.TriedBucket(t.info[id]);
      assert id in t.info && t.info[id].inTried && id in t.triedBuckets[k];
      assert ListRenamed(t.triedBuckets[k], u.triedBuckets[k], ids);
    }
    forall k, i, j | 0 <= k < |u.triedBuckets| && 0 <= i < j < |u.triedBuckets[k]|
      ensures u.triedBuckets[k][i] != u.triedBuckets[k][j] {
      assert ListRenamed(t.triedBuckets[k], u.triedBuckets[k], ids);
    }
  }

  lemma RenamedCounted(t: Tables, u: Tables, ids: seq<int>)
    requires Counted(t) && Renamed(t, u, ids)
    ensures Counted(u)
  {
    forall x | x in u.info ensures 0 <= x < |ids| && ids[x] in t.info && u.info[x].inTried == t.info[ids[x]].inTried {
      assert ids[x] in ids;
    }
    assert SetRenamed(NewIds(t), NewIds(u), ids) && SetRenamed(TriedIds(t), TriedIds(u), ids);
    assert forall id :: id in NewIds(t) || id in TriedIds(t) ==> id in t.info;
    SetRenamedSize(NewIds(t), NewIds(u), ids);
    SetRenamedSize(TriedIds(t), TriedIds(u), ids);
  }

  // Renaming keeps the whole invariant.
  lemma RenamedKeeps(t: Tables, u: Tables, key: Key, ids: seq<int>)
    requires Inv(t, key) && Renamed(t, u, ids) && Indexed(u)
    ensures Inv(u, key)
  {
    assert NewOk(t, -1, 0) && TriedOk(t, key) && Counted(t);
    hide Indexed, NewOk, TriedOk, Counted, Sized, Renamed;
    RenamedSized(t, u, key, ids);
    RenamedNew(t, u, ids);
    RenamedTried(t, u, key, ids);
    RenamedCounted(t, u, ids);
  }

  // Saving and loading loses nothing: the tables come back under new names and keep the invariant.
  lemma RoundTrip(d: Disk, t: Tables, key: Key, newIds: seq<int>, triedIds: seq<int>)
    requires IsSaveOf(d, t, key, newIds, triedIds) && Inv(t, key)
    ensures WellFormed(d) && Renamed(t, Loaded(d), newIds + triedIds) && Inv(Loaded(d), key)
    ensures TimesOk(t) ==> TimesOk(Loaded(d))
  {
    assert Saved(d, t, key, newIds, triedIds);
    hide *;
    LoadedAllRead(d, t, key, newIds, triedIds);
    FromReading(Loaded(d), d, t, key, newIds, triedIds);
    if TimesOk(t) {
      RenamedTimes(t, Loaded(d), newIds + triedIds);
    }
  }

  lemma RenamedTimes(t: Tables, u: Tables, ids: seq<int>)
    requires TimesOk(t) && Renamed(t, u, ids)
    ensures TimesOk(u)
  {
    forall x | x in u.info
      ensures u.info[x].lastTry >= 0 && u.info[x].lastSuccess >= 0 && (u.info[x].inTried ==> u.info[x].lastSuccess != 0)
    {
      assert ids[x] in ids && ids[x] in t.info;
    }
  }

  lemma FromReading(u: Tables, d: Disk, t: Tables, key: Key, newIds: seq<int>, triedIds: seq<int>)
    requires Saved(d, t, key, newIds, triedIds) && AllRead(u, d, t, key, newIds, triedIds)
    ensures Renamed(t, u, newIds + triedIds) && Inv(u, key)
  {
    hide IsSaveOf, Inv, EntriesRead, BucketsRead, Renamed, Indexed;
    var ids := newIds + triedIds;
    var s :| EntriesRead(s, d, t, key, ids, |newIds|, |ids|) && BucketsRead(u, s, d, |d.buckets|, 0);
    assert ReadBack(u, s, d, t, key, newIds, triedIds);
    ReadBackRenamed(u, s, d, t, key, newIds, triedIds);
    AddressesBack(u, s, d, t, key, newIds, triedIds);
    RenamedKeeps(t, u, key, ids);
  }
}
