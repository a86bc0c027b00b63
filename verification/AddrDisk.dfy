// The saved form of the address manager's tables (src/addrman.h) and how reading it rebuilds
// them: ids are renumbered, the indexes and reference counts are built again.
module AddrDisk {
  import opened Common
  import opened AddrTables

  // What is written of an entry; the other fields live in memory only.
  datatype SavedInfo = SavedInfo(
    service: Service, services: set<nat>, time: int, source: NetAddr, lastSuccess: int, attempts: int)

  function ToDisk(x: AddrInfo): SavedInfo {
    SavedInfo(x.service, x.services, x.time, x.source, x.lastSuccess, x.attempts)
  }

  function FromDisk(r: SavedInfo, refCount: int, inTried: bool, pos: nat): AddrInfo {
    AddrInfo(r.service, r.services, r.time, r.source, r.lastSuccess, 0, r.attempts, refCount, inTried, pos)
  }

  // A bucket lists the places of its entries among `newInfos`; a damaged file may name anything.
  datatype Disk = Disk(key: Key, nNew: int, nTried: int,
                       newInfos: seq<SavedInfo>, triedInfos: seq<SavedInfo>, buckets: seq<seq<int>>)

  // The lists are as long as the counts announce, and there are no more buckets than the table has.
  predicate WellFormed(d: Disk) {
    |d.newInfos| == Max(0, d.nNew) && |d.triedInfos| == Max(0, d.nTried) && |d.buckets| <= NEW_BUCKET_COUNT
  }

  // ---------------------------------------------------------------- reading

  function Cleared(d: Disk): Tables {
    Tables(0, map[], map[], [], d.nTried, seq(TRIED_BUCKET_COUNT, _ => []), d.nNew, seq(NEW_BUCKET_COUNT, _ => {}))
  }

  // The entry joins mapInfo, mapAddr and vRandom under the given id.
  function Appended(t: Tables, id: int, r: SavedInfo, refCount: int, inTried: bool): Tables {
    t.(info := t.info[id := FromDisk(r, refCount, inTried, |t.random|)],
       addr := t.addr[r.service.ip := id],
       random := t.random + [id])
  }

  // A file with another number of buckets leaves each new entry in its default bucket.
  function NewStep(t: Tables, d: Disk, n: nat): Tables
    requires n < |d.newInfos| && |t.newBuckets| == NEW_BUCKET_COUNT
  {
    var r := d.newInfos[n];
    if |d.buckets| == NEW_BUCKET_COUNT then Appended(t, n, r, 0, false)
    else
      var u := Appended(t, n, r, 1, false);
      var b := d.key.NewBucket(u.info[n], r.source);
      u.(newBuckets := u.newBuckets[b := u.newBuckets[b] + {n}])
  }

  function AfterNew(d: Disk, n: nat): (t: Tables)
    requires n <= |d.newInfos|
    ensures |t.newBuckets| == NEW_BUCKET_COUNT && |t.triedBuckets| == TRIED_BUCKET_COUNT && t.nTried == d.nTried
  {
    if n == 0 then Cleared(d) else NewStep(AfterNew(d, n - 1), d, n - 1)
  }

  // A tried entry whose bucket is full is lost.
  function TriedStep(t: Tables, d: Disk, j: nat): Tables
    requires j < |d.triedInfos| && |t.triedBuckets| == TRIED_BUCKET_COUNT
  {
    var r := d.triedInfos[j];
    var k := d.key.TriedBucket(FromDisk(r, 0, false, 0));
    if |t.triedBuckets[k]| < TRIED_BUCKET_SIZE then
      Appended(t, t.idCount, r, 0, true).(triedBuckets := t.triedBuckets[k := t.triedBuckets[k] + [t.idCount]],
                                         idCount := t.idCount + 1)
    else t.(nTried := t.nTried - 1)
  }

  function AfterTried(d: Disk, j: nat): (t: Tables)
    requires j <= |d.triedInfos|
    ensures |t.newBuckets| == NEW_BUCKET_COUNT && |t.triedBuckets| == TRIED_BUCKET_COUNT
  {
    if j == 0 then AfterNew(d, |d.newInfos|).(idCount := d.nNew) else TriedStep(AfterTried(d, j - 1), d, j - 1)
  }

  // The entry that mapInfo makes up for an id it does not have: no address, and no place in vRandom.
  const UNKNOWN := AddrInfo(Service(0, 0), {0}, 100000000, 0, 0, 0, 0, 0, false, -1)

  function MadeUp(t: Tables, i: int): Tables { if i in t.info then t else t.(info := t.info[i := UNKNOWN]) }

  // One bucket entry, not counted when the file has another number of buckets or the entry has enough.
  function BucketStep(t: Tables, d: Disk, b: nat, i: int): Tables
    requires b < |t.newBuckets|
  {
    var u := MadeUp(t, i);
    if |d.buckets| == NEW_BUCKET_COUNT && u.info[i].refCount < NEW_BUCKETS_PER_ADDRESS then
      u.(info := u.info[i := u.info[i].(refCount := u.info[i].refCount + 1)],
         newBuckets := u.newBuckets[b := u.newBuckets[b] + {i}])
    else u
  }

  // Buckets before b, and the first m entries of b.
  function AfterBuckets(d: Disk, b: nat, m: nat): (t: Tables)
    requires WellFormed(d) && b <= |d.buckets| && (if b == |d.buckets| then m == 0 else m <= |d.buckets[b]|)
    ensures |t.newBuckets| == NEW_BUCKET_COUNT
    decreases b, m
  {
    if m > 0 then BucketStep(AfterBuckets(d, b, m - 1), d, b, d.buckets[b][m - 1])
    else if b > 0 then AfterBuckets(d, b - 1, |d.buckets[b - 1]|)
    else AfterTried(d, |d.triedInfos|)
  }

  function Loaded(d: Disk): Tables
    requires WellFormed(d)
  {
    AfterBuckets(d, |d.buckets|, 0)
  }

  // ---------------------------------------------------------------- what was saved

  // d lists the new and the tried entries of t, each once, in the order of newIds and triedIds.
  ghost predicate IsSaveOf(d: Disk, t: Tables, key: Key, newIds: seq<int>, triedIds: seq<int>) {
    && d.key == key && d.nNew == t.nNew && d.nTried == t.nTried
    && Lists(newIds, NewIds(t)) && Lists(triedIds, TriedIds(t))
    && Records(d.newInfos, t, newIds) && Records(d.triedInfos, t, triedIds)
    && |d.buckets| == NEW_BUCKET_COUNT == |t.newBuckets|
    && forall b :: 0 <= b < |d.buckets| ==> BucketSaved(d.buckets[b], t.newBuckets[b], newIds)
  }

  ghost predicate Lists(s: seq<int>, ids: set<int>) {
    Distinct(s) && forall x :: x in s <==> x in ids
  }

  predicate Records(infos: seq<SavedInfo>, t: Tables, ids: seq<int>) {
    |infos| == |ids| && forall i :: 0 <= i < |ids| ==> ids[i] in t.info && infos[i] == ToDisk(t.info[ids[i]])
  }

  // The list names the bucket's elements by their places in newIds, each once.
  ghost predicate BucketSaved(list: seq<int>, bucket: set<int>, newIds: seq<int>) {
    && |list| == |bucket| && Distinct(list)
    && (forall i :: 0 <= i < |list| ==> 0 <= list[i] < |newIds|)
    && (forall x :: 0 <= x < |newIds| ==> (x in list <==> newIds[x] in bucket))
  }

  ghost predicate SetRenamed(bucket: set<int>, renamed: set<int>, ids: seq<int>) {
    forall x :: x in renamed <==> 0 <= x < |ids| && ids[x] in bucket
  }

  // Order aside.
  ghost predicate ListRenamed(bucket: seq<int>, renamed: seq<int>, ids: seq<int>) {
    Distinct(renamed) && forall x :: x in renamed <==> 0 <= x < |ids| && ids[x] in bucket
  }

  // u is t with id ids[x] called x, and with what lives in memory only rebuilt.
  ghost predicate Renamed(t: Tables, u: Tables, ids: seq<int>) {
    && Distinct(ids) && (forall id :: id in t.info <==> id in ids) && u.idCount == |ids|
    && (forall x :: x in u.info <==> 0 <= x < |ids|)
    && (forall x :: 0 <= x < |ids| ==> u.info[x] == t.info[ids[x]].(lastTry := 0, randomPos := x))
    && (forall a :: a in u.addr <==> a in t.addr) && (forall a ::
          a in u.addr ==> 0 <= u.addr[a] < |ids| && ids[u.addr[a]] == t.addr[a])
    && |u.newBuckets| == |t.newBuckets| && |u.triedBuckets| == |t.triedBuckets|
    && (forall b :: 0 <= b < |u.newBuckets| ==> SetRenamed(t.newBuckets[b], u.newBuckets[b], ids))
    && (forall k :: 0 <= k < |u.triedBuckets| ==> ListRenamed(t.triedBuckets[k], u.triedBuckets[k], ids))
    && u.nNew == t.nNew && u.nTried == t.nTried && |u.random| == |t.random|
  }
}
