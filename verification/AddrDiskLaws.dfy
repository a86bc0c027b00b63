// What reading any well-formed address file gives (src/addrman.h), also one that no manager wrote: how
// many entries each bucket takes, how many are lost, and how many references an entry can have.
module AddrDiskLaws {
  import opened Common
  import opened AddrTables
  import opened AddrDisk

  // ---------------------------------------------------------------- the new entries

  // Entry x comes from record x, in order.  A file with another number of buckets than 256 gives it one
  // reference, any other file none yet.
  lemma {:induction false} NewEntries(d: Disk, n: nat)
    requires n <= |d.newInfos|
    ensures var u := AfterNew(d, n);
            && (forall x :: x in u.info <==> 0 <= x < n)
            && (forall x :: 0 <= x < n ==>
                  u.info[x] == FromDisk(d.newInfos[x], if |d.buckets| == 256 then 0 else 1, false, x))
            && u.random == seq(n, x => x)
  {
    hide AfterNew;
    if n == 0 {
      NoneRead(d);
    } else {
      NewEntries(d, n - 1);
      OneRead(d, n);
      assert seq(n - 1, x => x) + [n - 1] == seq(n, x => x);
    }
  }

  // The reference is that of the one bucket its address and source name.
  lemma {:induction false} NewEntryIn(d: Disk, n: nat, b: nat, x: int)
    requires n <= |d.newInfos| && b < 256
    ensures x in AfterNew(d, n).newBuckets[b] <==>
              0 <= x < n && |d.buckets| != 256
              && d.key.newHash(d.newInfos[x].service.ip, d.newInfos[x].source) % 256 == b
  {
    hide AfterNew;
    if n == 0 {
      NoneRead(d);
    } else {
      NewEntryIn(d, n - 1, b, x);
      OneRead(d, n);
    }
  }

  lemma NoneRead(d: Disk)
    ensures AfterNew(d, 0) == Cleared(d)
  {
  }

  lemma OneRead(d: Disk, n: nat)
    requires 0 < n <= |d.newInfos|
    ensures var t, u, r := AfterNew(d, n - 1), AfterNew(d, n), d.newInfos[n - 1];
            && u.info == t.info[n - 1 := FromDisk(r, if |d.buckets| == 256 then 0 else 1, false, |t.random|)]
            && u.random == t.random + [n - 1]
            && if |d.buckets| == 256 then u.newBuckets == t.newBuckets
               else
                 var b := d.key.newHash(r.service.ip, r.source) % 256;
                 u.newBuckets == t.newBuckets[b := t.newBuckets[b] + {n - 1}]
  {
  }

  // ---------------------------------------------------------------- the tried entries

  // How many of the first j tried records belong in bucket k.
  function Homes(d: Disk, j: nat, k: nat): nat
    requires j <= |d.triedInfos|
  {
    if j == 0 then 0
    else Homes(d, j - 1, k) + if d.key.triedHash(d.triedInfos[j - 1].service) % 64 == k then 1 else 0
  }

  // Each tried bucket takes the first 64 of its records; every other one is lost and lowers the count.
  lemma {:induction false} TriedEntries(d: Disk, j: nat)
    requires j <= |d.triedInfos|
    ensures var u := AfterTried(d, j);
            && (forall k :: 0 <= k < 64 ==> |u.triedBuckets[k]| == Min(64, Homes(d, j, k)))
            && u.idCount - d.nNew + (d.nTried - u.nTried) == j
    ensures j > 0 ==>
              var t, u := AfterTried(d, j - 1), AfterTried(d, j);
              var k := d.key.triedHash(d.triedInfos[j - 1].service) % 64;
              if Homes(d, j - 1, k) < 64 then
                && u.triedBuckets[k] == t.triedBuckets[k] + [t.idCount] && u.idCount == t.idCount + 1
                && u.info == t.info[t.idCount := FromDisk(d.triedInfos[j - 1], 0, true, |t.random|)]
                && u.nTried == t.nTried
              else u == t.(nTried := t.nTried - 1)
  {
    if j == 0 {
      NoneTried(d, |d.newInfos|);
    } else {
      hide Homes;
      HomesNext(d, j);
      TriedEntries(d, j - 1);
    }
  }

  lemma HomesNext(d: Disk, j: nat)
    requires 0 < j <= |d.triedInfos|
    ensures forall k :: 0 <= k < 64 ==>
              Homes(d, j, k)
              == Homes(d, j - 1, k) + if d.key.triedHash(d.triedInfos[j - 1].service) % 64 == k then 1 else 0
  {
  }

  lemma {:induction false} NoneTried(d: Disk, n: nat)
    requires n <= |d.newInfos|
    ensures AfterNew(d, n).triedBuckets == seq(64, _ => []) && AfterNew(d, n).nTried == d.nTried
  {
    if n > 0 {
      NoneTried(d, n - 1);
    }
  }

  // ---------------------------------------------------------------- the references

  // No entry gets a fifth reference, and a bucket holds nothing the file does not name in it.
  lemma {:induction false} References(d: Disk, b: nat, m: nat)
    requires WellFormed(d) && b <= |d.buckets| && (if b == |d.buckets| then m == 0 else m <= |d.buckets[b]|)
    requires |d.buckets| == 256
    ensures forall x :: x in AfterBuckets(d, b, m).info ==> AfterBuckets(d, b, m).info[x].refCount <= 4
    ensures forall c, x :: 0 <= c < 256 && x in AfterBuckets(d, b, m).newBuckets[c] ==> x in d.buckets[c]
    decreases b, m
  {
    hide AfterBuckets, BucketStep, AfterTried;
    NamesRead(d, b, m);
    if m > 0 {
      References(d, b, m - 1);
      ReferenceNext(AfterBuckets(d, b, m - 1), d, b, d.buckets[b][m - 1]);
    } else if b > 0 {
      References(d, b - 1, |d.buckets[b - 1]|);
    } else {
      NoReferences(d, |d.triedInfos|);
    }
  }

  // The buckets are read one after the other, and each from its first name.
  lemma NamesRead(d: Disk, b: nat, m: nat)
    requires WellFormed(d) && b <= |d.buckets| && (if b == |d.buckets| then m == 0 else m <= |d.buckets[b]|)
    ensures m > 0 ==> AfterBuckets(d, b, m) == BucketStep(AfterBuckets(d, b, m - 1), d, b, d.buckets[b][m - 1])
    ensures m == 0 && b > 0 ==> AfterBuckets(d, b, 0) == AfterBuckets(d, b - 1, |d.buckets[b - 1]|)
    ensures m == 0 && b == 0 ==> AfterBuckets(d, 0, 0) == AfterTried(d, |d.triedInfos|)
  {
    hide BucketStep, AfterTried;
  }

  // One name: a reference more if the entry has fewer than four; an unknown one is made up first.
  lemma ReferenceNext(t: Tables, d: Disk, b: nat, i: int)
    requires b < |t.newBuckets| && |d.buckets| == 256
    ensures var u, had := BucketStep(t, d, b, i), if i in t.info then t.info[i].refCount else 0;
            && i in u.info && u.info[i].refCount == (if had < 4 then had + 1 else had)
            && (forall x :: x in u.info && x != i ==> x in t.info && u.info[x] == t.info[x])
            && u.newBuckets == if had < 4 then t.newBuckets[b := t.newBuckets[b] + {i}] else t.newBuckets
  {
  }

  lemma {:induction false} NoReferences(d: Disk, j: nat)
    requires j <= |d.triedInfos| && |d.buckets| == 256
    ensures var u := AfterTried(d, j);
            && (forall x :: x in u.info ==> u.info[x].refCount == 0)
            && forall c :: 0 <= c < 256 ==> u.newBuckets[c] == {}
  {
    if j > 0 {
      NoReferences(d, j - 1);
      assert AfterTried(d, j) == TriedStep(AfterTried(d, j - 1), d, j - 1);
    } else {
      NewEntries(d, |d.newInfos|);
      forall c, x | 0 <= c < 256 ensures x !in AfterNew(d, |d.newInfos|).newBuckets[c] {
        NewEntryIn(d, |d.newInfos|, c, x);
      }
    }
  }
}
