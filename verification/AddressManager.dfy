// The address manager's operations (src/addrman.cpp), step by step, each proved against the
// table functions of module AddrTables.  Random choices are arbitrary values in range.
module AddressManager {
  import opened Common
  import opened AddrTables
  import opened AddrDisk
  import opened SetWalk

  // A random number below n.
  method GetRandInt(n: nat) returns (r: nat)
    requires n > 0
    ensures r < n
  {
    r :| 0 <= r < n;
  }

  method DrawFour(size: nat) returns (n: seq<nat>)
    requires size > 0
    ensures |n| == 4 && forall k :: 0 <= k < 4 ==> n[k] < size
  {
    var n0 := GetRandInt(size);
    var n1 := GetRandInt(size);
    var n2 := GetRandInt(size);
    var n3 := GetRandInt(size);
    n := [n0, n1, n2, n3];
  }

  // Among the drawn places before `end`, none has an older entry, and no equal one comes earlier.
  ghost predicate OldestSoFar(order: seq<int>, info: map<int, AddrInfo>, n: seq<nat>, end: nat, oldest: int)
    requires |n| == 4 && forall k :: 0 <= k < 4 ==> n[k] < |order|
  {
    && (exists k :: 0 <= k < 4 && n[k] < end && order[n[k]] == oldest)
    && oldest in info
    && forall k :: 0 <= k < 4 && n[k] < end ==>
         order[n[k]] in info
         && (info[oldest].time < info[order[n[k]]].time
             || (info[oldest].time == info[order[n[k]]].time && oldest <= order[n[k]]))
  }

  ghost predicate SoFar(order: seq<int>, info: map<int, AddrInfo>, n: seq<nat>, end: nat, oldest: int)
    requires |n| == 4 && forall k :: 0 <= k < 4 ==> n[k] < |order|
  {
    if oldest == -1 then forall k :: 0 <= k < 4 ==> n[k] >= end else OldestSoFar(order, info, n, end, oldest)
  }

  lemma OneMoreSeen(order: seq<int>, info: map<int, AddrInfo>, n: seq<nat>, i: nat, oldest: int)
    requires |n| == 4 && forall k :: 0 <= k < 4 ==> n[k] < |order|
    requires Increasing(order) && i < |order| && order[i] in info && order[i] != -1 && SoFar(order, info, n, i, oldest)
    ensures oldest != -1 ==> oldest in info
    ensures var drawn := i == n[0] || i == n[1] || i == n[2] || i == n[3];
            var next := if drawn && (oldest == -1 || info[order[i]].time < info[oldest].time) then order[i] else oldest;
            SoFar(order, info, n, i + 1, next)
  {
    if oldest != -1 {
      var k :| 0 <= k < 4 && n[k] < i && order[n[k]] == oldest;
      assert oldest < order[i];
    }
    assert forall k :: 0 <= k < 4 && n[k] == i ==> i == n[0] || i == n[1] || i == n[2] || i == n[3];
  }

  lemma NothingSeen(order: seq<int>, info: map<int, AddrInfo>, n: seq<nat>)
    requires |n| == 4 && forall k :: 0 <= k < 4 ==> n[k] < |order|
    ensures SoFar(order, info, n, 0, -1)
  {
  }

  lemma AllSeen(ids: set<int>, info: map<int, AddrInfo>, n: seq<nat>, oldest: int)
    requires |n| == 4 && (forall k :: 0 <= k < 4 ==> n[k] < |ids|) && SoFar(Ascending(ids), info, n, |ids|, oldest)
    ensures OldestDrawn(ids, info, n, oldest)
  {
    assert n[0] < |ids|;
  }

  // The oldest of four draws from a bucket.
  ghost predicate OldestDrawn(ids: set<int>, info: map<int, AddrInfo>, n: seq<nat>, oldest: int) {
    |n| == 4 && (forall k :: 0 <= k < 4 ==> n[k] < |ids|) && OldestSoFar(Ascending(ids), info, n, |ids|, oldest)
  }

  // The oldest is one of the four drawn, none of which is older, or as old with a smaller id.
  lemma OldestExactly(ids: set<int>, info: map<int, AddrInfo>, n: seq<nat>, oldest: int)
    ensures OldestDrawn(ids, info, n, oldest) <==>
              && |n| == 4 && (forall k :: 0 <= k < 4 ==> n[k] < |ids|) && oldest in info
              && (exists k :: 0 <= k < 4 && Ascending(ids)[n[k]] == oldest)
              && forall k :: 0 <= k < 4 ==>
                   var x := Ascending(ids)[n[k]];
                   x in info && (info[x].time > info[oldest].time || (info[x].time == info[oldest].time && x >= oldest))
  {
    hide OldestSoFar;
    if |n| == 4 && forall k :: 0 <= k < 4 ==> n[k] < |ids| {
      OldestInOrder(Ascending(ids), info, n, oldest);
    }
  }

  lemma OldestInOrder(order: seq<int>, info: map<int, AddrInfo>, n: seq<nat>, oldest: int)
    requires |n| == 4 && forall k :: 0 <= k < 4 ==> n[k] < |order|
    ensures OldestSoFar(order, info, n, |order|, oldest) <==>
              && oldest in info && (exists k :: 0 <= k < 4 && order[n[k]] == oldest)
              && forall k :: 0 <= k < 4 ==>
                   var x := order[n[k]];
                   x in info && (info[x].time > info[oldest].time || (info[x].time == info[oldest].time && x >= oldest))
  {
  }

  lemma OldestIsThere(ids: set<int>, info: map<int, AddrInfo>, n: seq<nat>, oldest: int)
    requires OldestDrawn(ids, info, n, oldest)
    ensures oldest in ids
  {
    var k :| 0 <= k < 4 && Ascending(ids)[n[k]] == oldest;
    assert Ascending(ids)[n[k]] in Ascending(ids);
  }

  // Which entry of a full "new" bucket is given up: the first terrible one, or, if there is none, the
  // oldest of four drawn.
  ghost predicate MustGo(bucket: set<int>, info: map<int, AddrInfo>, lost: int, draws: seq<nat>, now: int) {
    && lost in bucket && (forall x :: x in bucket ==> x in info)
    && (forall x :: x in bucket && x < lost && IsTerrible(info[lost], now) ==> !IsTerrible(info[x], now))
    && (IsTerrible(info[lost], now) ||
          ((forall x :: x in bucket ==> !IsTerrible(info[x], now)) && OldestDrawn(bucket, info, draws, lost)))
  }

  lemma MustGoAlike(bucket: set<int>, info: map<int, AddrInfo>, info': map<int, AddrInfo>, lost: int, draws: seq<nat>,
                    now: int)
    requires MustGo(bucket, info, lost, draws, now)
    requires forall x :: x in bucket ==> x in info' && info'[x] == info[x]
    ensures MustGo(bucket, info', lost, draws, now)
  {
    hide IsTerrible;
    forall k | 0 <= k < 4 && OldestDrawn(bucket, info, draws, lost) ensures Ascending(bucket)[draws[k]] in bucket {
      assert Ascending(bucket)[draws[k]] in Ascending(bucket);
    }
  }

  // Bucket b gained `id`; if it held 64 entries it lost one, and nothing else moved.
  ghost predicate Gained(nb: seq<set<int>>, nb': seq<set<int>>, info: map<int, AddrInfo>, b: nat, id: int, lost: int,
                         draws: seq<nat>, now: int) {
    && b < |nb| && id !in nb[b]
    && if |nb[b]| < NEW_BUCKET_SIZE then nb' == nb[b := nb[b] + {id}] && lost == -1
       else nb' == nb[b := nb[b] - {lost} + {id}] && MustGo(nb[b], info, lost, draws, now)
  }

  lemma GainedExactly(nb: seq<set<int>>, nb': seq<set<int>>, info: map<int, AddrInfo>, b: nat, id: int, lost: int,
                      draws: seq<nat>, now: int)
    requires Gained(nb, nb', info, b, id, lost, draws, now)
    ensures |nb'| == |nb| && b < |nb| && (forall c :: 0 <= c < |nb| && c != b ==> nb'[c] == nb[c])
    ensures |nb[b]| < 64 ==> lost == -1 && nb'[b] == nb[b] + {id}
    ensures |nb[b]| >= 64 ==> lost in nb[b] && nb'[b] == nb[b] - {lost} + {id}
    ensures |nb[b]| >= 64 ==>
              && (forall x :: x in nb[b] ==> x in info)
              && (IsTerrible(info[lost], now) ==> forall x :: x in nb[b] && x < lost ==> !IsTerrible(info[x], now))
              && (!IsTerrible(info[lost], now) ==>
                    (forall x :: x in nb[b] ==> !IsTerrible(info[x], now))
                    && |draws| == 4 && (forall k :: 0 <= k < 4 ==> draws[k] < |nb[b]|)
                    && (exists k :: 0 <= k < 4 && Ascending(nb[b])[draws[k]] == lost)
                    && forall k :: 0 <= k < 4 ==>
                         var x := Ascending(nb[b])[draws[k]];
                         x in info && (info[x].time > info[lost].time
                                       || (info[x].time == info[lost].time && x >= lost)))
  {
    hide IsTerrible;
  }

  const GETADDR_MAX_PCT: nat := 23
  const GETADDR_MAX: nat := 2500

  // The n-th bucket looked at from a random start.
  function Turn(n: nat, start: nat): (b: nat)
    ensures b < NEW_BUCKET_COUNT
  {
    (n + start) % NEW_BUCKET_COUNT
  }

  lemma TurnReaches(c: nat, start: nat) returns (n: nat)
    requires c < NEW_BUCKET_COUNT && start < NEW_BUCKET_COUNT
    ensures n < NEW_BUCKET_COUNT && Turn(n, start) == c
  {
    n := if c >= start then c - start else c + NEW_BUCKET_COUNT - start;
  }

  predicate AllKnown(v: seq<int>, info: map<int, AddrInfo>) { forall j :: 0 <= j < |v| ==> v[j] in info && v[j] >= 0 }

  // Of the first n entries, the one at `oldest` succeeded least recently, and is the first such one.
  predicate LeastRecent(v: seq<int>, info: map<int, AddrInfo>, oldest: nat, n: nat)
    requires AllKnown(v, info) && n <= |v|
  {
    && oldest < n
    && forall j :: 0 <= j < n ==>
         info[v[oldest]].lastSuccess < info[v[j]].lastSuccess
             || (info[v[oldest]].lastSuccess == info[v[j]].lastSuccess && oldest <= j)
  }

  // The places drawn for the first slots of a bucket: each from its slot on.
  predicate LegalDraws(draws: seq<nat>, size: nat) {
    |draws| <= size && forall i :: 0 <= i < |draws| ==> i <= draws[i] < size
  }

  // The bucket after each draw was swapped into its slot.
  function Drawn(s: seq<int>, draws: seq<nat>): (v: seq<int>)
    requires LegalDraws(draws, |s|)
    ensures |v| == |s|
    decreases |draws|
  {
    if draws == [] then s
    else
      var i := |draws| - 1;
      Transposed(Drawn(s, draws[..i]), draws[i], i)
  }

  function Transposed(v: seq<int>, a: nat, i: nat): (w: seq<int>)
    requires a < |v| && i < |v|
    ensures |w| == |v|
  {
    v[a := v[i]][i := v[a]]
  }

  // Swapping an element into place i leaves the first i alone and keeps the bucket's contents.
  lemma SwapIn(s: seq<int>, v: seq<int>, a: nat, i: nat, info: map<int, AddrInfo>)
    requires Shuffle(s, v) && i <= a < |v| && AllKnown(v, info)
    ensures var w := v[a := v[i]][i := v[a]];
            Shuffle(s, w) && AllKnown(w, info) && w[..i] == v[..i] && w[i] == v[a]
  {
    SwapPermutes(v, a, i);
  }

  lemma SwapPermutes(v: seq<int>, a: nat, i: nat)
    requires i < |v| && a < |v|
    ensures multiset(v[a := v[i]][i := v[a]]) == multiset(v)
    ensures forall x :: x in v[a := v[i]][i := v[a]] <==> x in v
  {
    var w := v[a := v[i]][i := v[a]];
    assert multiset(w) == multiset(v);
    forall x ensures x in w <==> x in v {
      assert x in w <==> x in multiset(w);
    }
  }

  // After the draws were swapped to the front of the bucket, the one that gave way stands where the
  // least recently successful of the first four was drawn from.
  ghost predicate EvictedFrom(bucket: seq<int>, info: map<int, AddrInfo>, draws: seq<nat>, oldest: nat, e: int) {
    && LegalDraws(draws, |bucket|) && |draws| == 4 && AllKnown(Drawn(bucket, draws), info)
    && LeastRecent(Drawn(bucket, draws), info, oldest, 4) && e == Drawn(bucket, draws)[draws[oldest]]
  }

  // It is back in its own "new" bucket if that had room, otherwise in the one vacated.
  ghost predicate Rehoused(t: Tables, nb: seq<set<int>>, key: Key, id: int, origin: nat, e: int) {
    && e in t.info && |nb| == |t.newBuckets| == NEW_BUCKET_COUNT && origin < NEW_BUCKET_COUNT
    && var b := EvictionBucket(t, key, id, origin, e);
    nb == Without(t.newBuckets, id)[b := Without(t.newBuckets, id)[b] + {e}]
  }

  // What promoting the new entry `id`, found in bucket `origin`, does to the buckets.
  ghost predicate Promoted(t: Tables, u: Tables, key: Key, id: int, origin: nat, evicted: Option<int>, draws: seq<nat>,
                           oldest: nat) {
    && id in t.info && |t.triedBuckets| == TRIED_BUCKET_COUNT
    && var k := key.TriedBucket(t.info[id]);
    if evicted.None? then
      && u.newBuckets == Without(t.newBuckets, id) && u.triedBuckets == t.triedBuckets[k := t.triedBuckets[k] + [id]]
    else
      && EvictedFrom(t.triedBuckets[k], t.info, draws, oldest, evicted.value)
      && Rehoused(t, u.newBuckets, key, id, origin, evicted.value)
      && u.triedBuckets == t.triedBuckets[k := Drawn(t.triedBuckets[k], draws)[draws[oldest] := id]]
  }

  // The promoted entry leaves every new bucket.  An evicted one joins one: the bucket its address and
  // source name if that has fewer than 64 others, otherwise the one the promoted entry was found in.
  lemma PromotedNew(t: Tables, u: Tables, key: Key, id: int, origin: nat, evicted: Option<int>, draws: seq<nat>,
                    oldest: nat)
    requires Promoted(t, u, key, id, origin, evicted, draws, oldest)
    ensures |u.newBuckets| == |t.newBuckets|
    ensures evicted.None? ==> forall c :: 0 <= c < |t.newBuckets| ==> u.newBuckets[c] == t.newBuckets[c] - {id}
    ensures evicted.Some? ==>
              var e := evicted.value;
              && e in t.info && |t.newBuckets| == 256
              && var b := key.NewBucket(t.info[e], t.info[e].source);
              forall c :: 0 <= c < 256 ==>
                u.newBuckets[c] == t.newBuckets[c] - {id}
                                   + if c == (if |t.newBuckets[b] - {id}| < 64 then b else origin) then {e} else {}
  {
    hide EvictedFrom, Drawn;
  }

  // It joins its home tried bucket: at the end if there is room, otherwise in the place of the entry
  // that gives way.  The draws exchange slots 0 to 3 with later ones; the place is the one from which
  // the least recently successful of the four was drawn, the first of equals.
  lemma PromotedTried(t: Tables, u: Tables, key: Key, id: int, origin: nat, evicted: Option<int>, draws: seq<nat>,
                      oldest: nat)
    requires Promoted(t, u, key, id, origin, evicted, draws, oldest)
    ensures id in t.info && |t.triedBuckets| == 64
    ensures var k := key.TriedBucket(t.info[id]);
            evicted.None? ==> u.triedBuckets == t.triedBuckets[k := t.triedBuckets[k] + [id]]
    ensures var k := key.TriedBucket(t.info[id]);
            evicted.Some? ==>
              && |draws| == 4 && oldest < 4 && LegalDraws(draws, |t.triedBuckets[k]|)
              && (forall i :: 0 <= i < 4 ==> i <= draws[i] < |t.triedBuckets[k]|)
              && var v := Drawn(t.triedBuckets[k], draws);
              && evicted.value == v[draws[oldest]]
              && u.triedBuckets == t.triedBuckets[k := v[draws[oldest] := id]]
              && (forall j :: 0 <= j < |v| ==> v[j] in t.info)
              && forall j :: 0 <= j < 4 && j != oldest ==>
                   t.info[v[oldest]].lastSuccess < t.info[v[j]].lastSuccess
                   || (t.info[v[oldest]].lastSuccess == t.info[v[j]].lastSuccess && oldest < j)
  {
    hide Drawn;
  }

  // The history of the promoted entry itself plays no part.
  lemma PromotedAlike(t: Tables, t': Tables, u: Tables, key: Key, id: int, origin: nat, evicted: Option<int>,
                      draws: seq<nat>, oldest: nat)
    requires Promoted(t', u, key, id, origin, evicted, draws, oldest) && Inv(t, key)
    requires id in t.info && !t.info[id].inTried && id in t'.info && t'.info[id].service == t.info[id].service
    requires t' == t.(info := t.info[id := t'.info[id]])
    ensures Promoted(t, u, key, id, origin, evicted, draws, oldest)
  {
    if evicted.Some? {
      var k := key.TriedBucket(t.info[id]);
      hide Drawn, Without;
      OthersDrawn(t, key, id, k, draws);
    }
  }

  // The draws keep the bucket's contents, which are tried entries.
  lemma OthersDrawn(t: Tables, key: Key, id: int, k: nat, draws: seq<nat>)
    requires Inv(t, key) && id in t.info && !t.info[id].inTried && k < |t.triedBuckets|
    requires LegalDraws(draws, |t.triedBuckets[k]|)
    ensures forall j :: 0 <= j < |t.triedBuckets[k]| ==>
              Drawn(t.triedBuckets[k], draws)[j] in t.info && Drawn(t.triedBuckets[k], draws)[j] != id
  {
    DrawnWithin(t.triedBuckets[k], draws);
    forall j | 0 <= j < |t.triedBuckets[k]|
      ensures Drawn(t.triedBuckets[k], draws)[j] in t.info && Drawn(t.triedBuckets[k], draws)[j] != id
    {
      assert Drawn(t.triedBuckets[k], draws)[j] in t.triedBuckets[k];
    }
  }

  lemma {:induction false} DrawnWithin(s: seq<int>, draws: seq<nat>)
    requires LegalDraws(draws, |s|)
    ensures forall j :: 0 <= j < |s| ==> Drawn(s, draws)[j] in s
  {
    if draws != [] {
      DrawnWithin(s, draws[..|draws| - 1]);
    }
  }

  lemma MovedPromoted(t: Tables, key: Key, id: int, origin: nat)
    requires id in t.info && |t.triedBuckets| == TRIED_BUCKET_COUNT
    ensures Promoted(t, MovedToTried(t, key, id), key, id, origin, None, [], 0)
  {
  }

  lemma ExchangedPromoted(t: Tables, key: Key, id: int, origin: nat, draws: seq<nat>, oldest: nat,
                          info: map<int, AddrInfo>)
    requires Inv(t, key) && id in t.info && !t.info[id].inTried && origin < NEW_BUCKET_COUNT
    requires id in info && info == t.info[id := info[id]]
    requires var k := key.TriedBucket(t.info[id]);
             && |t.triedBuckets| == TRIED_BUCKET_COUNT && |t.newBuckets| == NEW_BUCKET_COUNT
             && LegalDraws(draws, |t.triedBuckets[k]|) && |draws| == 4 && oldest < 4
             && AllKnown(Drawn(t.triedBuckets[k], draws), info)
             && LeastRecent(Drawn(t.triedBuckets[k], draws), info, oldest, 4)
             && Drawn(t.triedBuckets[k], draws)[draws[oldest]] in t.info
    ensures var v := Drawn(t.triedBuckets[key.TriedBucket(t.info[id])], draws);
            Promoted(t, Exchanged(t, key, id, origin, v, draws[oldest]), key, id, origin, Some(v[draws[oldest]]), draws,
                     oldest)
  {
    hide Drawn, Without;
    OthersDrawn(t, key, id, key.TriedBucket(t.info[id]), draws);
  }

  method DrawSlots(size: nat) returns (draws: seq<nat>)
    ensures LegalDraws(draws, size) && |draws| == Min(size, TRIED_ENTRIES_INSPECT_ON_EVICT)
  {
    draws := [];
    while |draws| < TRIED_ENTRIES_INSPECT_ON_EVICT && |draws| < size
      invariant LegalDraws(draws, size) && |draws| <= TRIED_ENTRIES_INSPECT_ON_EVICT
    {
      var draw := GetRandInt(size - |draws|);
      draws := draws + [draw + |draws|];
    }
  }

  lemma NothingDrawn(s: seq<int>, draws: seq<nat>)
    requires LegalDraws(draws, |s|)
    ensures LegalDraws(draws[..0], |s|) && Drawn(s, draws[..0]) == s && draws[..|draws|] == draws
  {
  }

  lemma DrawnNext(s: seq<int>, draws: seq<nat>, i: nat)
    requires LegalDraws(draws, |s|) && i < |draws|
    ensures LegalDraws(draws[..i], |s|) && LegalDraws(draws[..i + 1], |s|)
    ensures var v := Drawn(s, draws[..i]);
            Drawn(s, draws[..i + 1]) == v[draws[i] := v[i]][i := v[draws[i]]]
  {
    hide Drawn;
    assert draws[..i + 1][..i] == draws[..i];
    DrawnLast(s, draws[..i + 1]);
  }

  lemma DrawnLast(s: seq<int>, draws: seq<nat>)
    requires LegalDraws(draws, |s|) && draws != []
    ensures var i := |draws| - 1;
            LegalDraws(draws[..i], |s|) && var v := Drawn(s, draws[..i]);
            Drawn(s, draws) == v[draws[i] := v[i]][i := v[draws[i]]]
  {
    DrawnStep(s, draws);
    hide Drawn;
  }

  lemma DrawnStep(s: seq<int>, draws: seq<nat>)
    requires LegalDraws(draws, |s|) && draws != []
    ensures var i := |draws| - 1;
            LegalDraws(draws[..i], |s|) && Drawn(s, draws) == Transposed(Drawn(s, draws[..i]), draws[i], i)
  {
    hide Transposed, LegalDraws;
    FewerDraws(draws, |s|, |draws| - 1);
  }

  lemma FewerDraws(draws: seq<nat>, size: nat, n: nat)
    requires LegalDraws(draws, size) && n <= |draws|
    ensures LegalDraws(draws[..n], size) && |draws| <= size && forall i :: 0 <= i < |draws| ==> i <= draws[i] < size
  {
  }

  // The least recent of the first i, or the next one.
  lemma LeastNext(v: seq<int>, w: seq<int>, info: map<int, AddrInfo>, i: nat, oldest: nat)
    requires AllKnown(v, info) && AllKnown(w, info) && i < |w| == |v| && w[..i] == v[..i]
    requires i > 0 ==> LeastRecent(v, info, oldest, i)
    ensures i > 0 ==> oldest < i && w[oldest] == v[oldest]
    ensures LeastRecent(w, info, if i == 0 || info[w[i]].lastSuccess < info[v[oldest]].lastSuccess then i else oldest,
                        i + 1)
  {
    forall j | 0 <= j < i ensures w[j] == v[j] {
      assert w[..i][j] == v[..i][j];
    }
  }

  // Swaps the drawn places into the first slots, remembering from where the least recently
  // successful of them was drawn.
  method ShuffleFirst(bucket: seq<int>, info: map<int, AddrInfo>, draws: seq<nat>)
    returns (v: seq<int>, pos: nat, ghost oldest: nat)
    requires bucket != [] && Shuffle(bucket, bucket) && AllKnown(bucket, info)
    requires LegalDraws(draws, |bucket|) && |draws| == Min(|bucket|, TRIED_ENTRIES_INSPECT_ON_EVICT)
    ensures Shuffle(bucket, v) && AllKnown(v, info) && v == Drawn(bucket, draws)
    ensures LeastRecent(v, info, oldest, |draws|) && pos == draws[oldest]
  {
    hide Shuffle, Drawn, LeastRecent;
    NothingDrawn(bucket, draws);
    v := bucket;
    var nOldest := -1;
    var i := 0;
    pos, oldest := 0, 0;
    while i < TRIED_ENTRIES_INSPECT_ON_EVICT && i < |v|
      invariant i <= |draws| && |v| == |bucket| && Shuffle(bucket, v) && AllKnown(v, info)
      invariant v == Drawn(bucket, draws[..i])
      invariant i == 0 ==> nOldest == -1
      invariant i > 0 ==> oldest < i && LeastRecent(v, info, oldest, i) && nOldest == v[oldest] && pos == draws[oldest]
    {
      var nPos := draws[i];
      var nTemp := v[nPos];
      SwapIn(bucket, v, nPos, i, info);
      DrawnNext(bucket, draws, i);
      LeastNext(v, v[nPos := v[i]][i := nTemp], info, i, oldest);
      v := v[nPos := v[i]][i := nTemp];
      if nOldest == -1 || info[nTemp].lastSuccess < info[nOldest].lastSuccess {
        nOldest := nTemp;
        pos, oldest := nPos, i;
      }
      i := i + 1;
    }
    assert draws[..|draws|] == draws;
  }

  // A full bucket in which entry 1 succeeded least recently, drawn into the first slot from the
  // second place: the place returned then holds another entry.
  lemma OtherEntryReturned()
    ensures var s, draws := seq(TRIED_BUCKET_SIZE, i => i), [1, 1, 2, 3];
            var info := map i: nat | i < TRIED_BUCKET_SIZE ::
                AddrInfo(Service(i, 1), {}, 0, 0, if i == 1 then 1 else 2, 0, 0, 0, true, 0);
            && LegalDraws(draws, |s|) && AllKnown(Drawn(s, draws), info)
            && LeastRecent(Drawn(s, draws), info, 0, |draws|)
            && Drawn(s, draws)[0] == 1 && Drawn(s, draws)[draws[0]] == 0
  {
    var s: seq<int> := seq(TRIED_BUCKET_SIZE, i => i);
    var d1: seq<nat>, d2: seq<nat>, d3: seq<nat>, d4: seq<nat> := [1], [1, 1], [1, 1, 2], [1, 1, 2, 3];
    assert d4[..3] == d3 && d3[..2] == d2 && d2[..1] == d1 && d1[..0] == [];
    assert Drawn(s, []) == s;
    var v := s[1 := 0][0 := 1];
    assert Drawn(s, d1) == v;
    assert Drawn(s, d2) == v && Drawn(s, d3) == v && Drawn(s, d4) == v;
  }

  class AddrMan {
    const key: Key
    const routable: Service -> bool
    var idCount: int
    var mapInfo: map<int, AddrInfo>
    var mapAddr: map<NetAddr, int>
    var vRandom: seq<int>
    var nTried: int
    var vvTried: seq<seq<int>>
    var nNew: int
    var vvNew: seq<set<int>>

    ghost function Now(): Tables
      reads this
    {
      Tables(idCount, mapInfo, mapAddr, vRandom, nTried, vvTried, nNew, vvNew)
    }

    ghost predicate Valid()
      reads this
    {
      Inv(Now(), key) && idCount >= 0
    }

    constructor (key: Key, routable: Service -> bool)
      ensures Valid() && mapInfo == map[] && this.key == key && this.routable == routable
    {
      this.key, this.routable := key, routable;
      idCount, mapInfo, mapAddr, vRandom, nTried, nNew := 0, map[], map[], [], 0, 0;
      vvTried := seq(TRIED_BUCKET_COUNT, _ => []);
      vvNew := seq(NEW_BUCKET_COUNT, _ => {});
    }

    method Find(ip: NetAddr) returns (id: Option<int>)
      requires Indexed(Now())
      ensures id == if ip in mapAddr then Some(mapAddr[ip]) else None
      ensures id.Some? ==> id.value in mapInfo && mapInfo[id.value].service.ip == ip
    {
      if ip !in mapAddr {
        return None;
      }
      id := Some(mapAddr[ip]);
    }

    method Create(service: Service, services: set<nat>, time: int, source: NetAddr) returns (id: int)
      modifies this
      ensures id == old(idCount) && Now() == Created(old(Now()), service, services, time, source)
    {
      id := idCount;
      idCount := idCount + 1;
      mapInfo := mapInfo[id := AddrInfo(service, services, time, source, 0, 0, 0, 0, false, 0)];
      mapAddr := mapAddr[service.ip := id];
      mapInfo := mapInfo[id := mapInfo[id].(randomPos := |vRandom|)];
      vRandom := vRandom + [id];
    }

    method SwapRandom(p1: nat, p2: nat)
      requires p1 < |vRandom| && p2 < |vRandom| && Indexed(Now())
      modifies this`vRandom, this`mapInfo
      ensures Now() == Swapped(old(Now()), p1, p2)
      ensures |vRandom| == |old(vRandom)| && vvNew == old(vvNew)
    {
      if p1 == p2 {
        return;
      }
      var id1, id2 := vRandom[p1], vRandom[p2];
      mapInfo := mapInfo[id1 := mapInfo[id1].(randomPos := p2)];
      mapInfo := mapInfo[id2 := mapInfo[id2].(randomPos := p1)];
      vRandom := vRandom[p1 := id2];
      vRandom := vRandom[p2 := id1];
    }

    // The part of ShrinkNew both of its branches share: one reference less, and the entry goes
    // when that was the last one.
    method DropReference(b: nat, id: int)
      requires Indexed(Now()) && id in mapInfo && b < |vvNew|
      modifies this
      ensures Now() == Dropped(old(Now()), b, id)
    {
      hide Deleted;
      var info := mapInfo[id].(refCount := mapInfo[id].refCount - 1);
      WithInfoIndexed(Now(), id, info);
      mapInfo := mapInfo[id := info];
      if info.refCount == 0 {
        DeleteEntry(id);
      }
      vvNew := vvNew[b := vvNew[b] - {id}];
    }

    method DeleteEntry(id: int)
      requires Indexed(Now()) && id in mapInfo
      modifies this
      ensures Now() == Deleted(old(Now()), id) && vvNew == old(vvNew)
    {
      hide Swapped;
      assert EntryIndexed(Now(), id);
      var ip := mapInfo[id].service.ip;
      SwapRandom(mapInfo[id].randomPos, |vRandom| - 1);
      vRandom := vRandom[..|vRandom| - 1];
      mapAddr := mapAddr - {ip};
      mapInfo := mapInfo - {id};
      nNew := nNew - 1;
    }

    // The first deletable entry in ascending order, if any.
    method FindTerrible(b: nat, now: int) returns (id: Option<int>)
      requires b < |vvNew| && forall x :: x in vvNew[b] ==> x in mapInfo
      ensures id.None? ==> forall x :: x in vvNew[b] ==> !IsTerrible(mapInfo[x], now)
      ensures id.Some? ==> id.value in vvNew[b] && id.value in mapInfo && IsTerrible(mapInfo[id.value], now)
      ensures id.Some? ==> forall x :: x in vvNew[b] && x < id.value ==> !IsTerrible(mapInfo[x], now)
    {
      hide IsTerrible;
      var rest := vvNew[b];
      ghost var seen: set<int> := {};
      while rest != {}
        invariant rest + seen == vvNew[b]
        invariant forall x, y :: x in seen && y in rest ==> x < y
        invariant forall x :: x in seen ==> !IsTerrible(mapInfo[x], now)
        decreases |rest|
      {
        var x := Least(rest);
        seen := seen + {x};
        if IsTerrible(mapInfo[x], now) {
          return Some(x);
        }
        rest := rest - {x};
      }
      id := None;
    }

    // The oldest of the entries at four places of the ascending walk, the first of equals.
    method OldestOfFour(b: nat, n: seq<nat>) returns (oldest: int)
      requires b < |vvNew| && |n| == 4 && forall k :: 0 <= k < 4 ==> n[k] < |vvNew[b]|
      requires forall x :: x in vvNew[b] ==> x in mapInfo && x >= 0
      ensures OldestDrawn(vvNew[b], mapInfo, n, oldest)
    {
      hide SoFar, OldestSoFar, OldestDrawn, Ascending;
      var ids := vvNew[b];
      ghost var order := Ascending(ids);
      oldest := -1;
      var nI := 0;
      var rest := ids;
      NothingSeen(order, mapInfo, n);
      while rest != {}
        invariant nI + |rest| == |order| && (forall y :: y in rest <==> y in order[nI..])
        invariant SoFar(order, mapInfo, n, nI, oldest)
        decreases |rest|
      {
        var x := Least(rest);
        NextPlace(order, rest, nI, x);
        OneMoreSeen(order, mapInfo, n, nI, oldest);
        if (nI == n[0] || nI == n[1] || nI == n[2] || nI == n[3])
            && (oldest == -1 || mapInfo[x].time < mapInfo[oldest].time) {
          oldest := x;
        }
        nI := nI + 1;
        rest := rest - {x};
      }
      AllSeen(ids, mapInfo, n, oldest);
    }

    static lemma NextPlace(order: seq<int>, rest: set<int>, i: nat, x: int)
      requires Increasing(order) && i <= |order| && forall y :: y in rest <==> y in order[i..]
      requires x in rest && forall y :: y in rest ==> x <= y
      ensures i < |order| && x == order[i] && forall y :: y in rest - {x} <==> y in order[i + 1..]
    {
      assert x in order[i..];
      assert order[i..] == [order[i]] + order[i + 1..];
      assert order[i] in rest;
    }

    // Removes one reference from a full "new" bucket.  `loose` is an id whose count is one ahead.
    method ShrinkNew(b: nat, now: int, ghost loose: int, ghost ahead: int)
      returns (r: int, ghost victim: int, ghost draws: seq<nat>)
      requires InvWith(Now(), key, loose, ahead) && b < |vvNew| && vvNew[b] != {} && loose !in vvNew[b]
      modifies this
      ensures InvWith(Now(), key, loose, ahead)
      ensures victim in old(vvNew[b]) && victim in old(mapInfo) && Now() == Dropped(old(Now()), b, victim)
      ensures OneReferenceLess(old(Now()), b, victim, Now())
      ensures r == 0 ==> IsTerrible(old(mapInfo)[victim], now)
      ensures r != 0 ==> r == 1 && forall x ::
                x in old(vvNew[b]) && x in old(mapInfo) ==> !IsTerrible(old(mapInfo)[x], now)
      ensures r != 0 ==> OldestDrawn(old(vvNew[b]), old(mapInfo), draws, victim)
      ensures MustGo(old(vvNew[b]), old(mapInfo), victim, draws, now)
    {
      hide InvWith, OldestSoFar, IsTerrible, OldestDrawn;
      BucketIdsKnown(Now(), key, loose, ahead, b);
      ghost var before := Now();
      var terrible := FindTerrible(b, now);
      if terrible.Some? {
        victim := terrible.value;
        DroppedKeeps(before, b, victim, key, loose, ahead);
        DropReference(b, terrible.value);
        return 0, victim, [];
      }
      var n := DrawFour(|vvNew[b]|);
      var oldest := OldestOfFour(b, n);
      victim, draws := oldest, n;
      OldestIsThere(vvNew[b], mapInfo, n, oldest);
      DroppedKeeps(before, b, victim, key, loose, ahead);
      DropReference(b, oldest);
      r := 1;
    }

    lemma BucketIdsKnown(t: Tables, k: Key, loose: int, ahead: int, b: nat)
      requires InvWith(t, k, loose, ahead) && b < |t.newBuckets|
      ensures Indexed(t) && |t.newBuckets| == NEW_BUCKET_COUNT
      ensures forall x :: x in t.newBuckets[b] ==> x in t.info && x >= 0
    {
      forall x | x in t.newBuckets[b] ensures x in t.info && x >= 0 { assert EntryIndexed(t, x); }
    }

    // ---------------------------------------------------------------- promoting to "tried"

    // Shuffles the first entries of a full "tried" bucket from the whole bucket.  The place returned
    // is the one from which the least recently successful of them was drawn; it holds that entry
    // exactly when the entry was drawn from its own slot.
    method SelectTried(k: nat) returns (pos: nat, ghost draws: seq<nat>, ghost oldest: nat)
      requires Indexed(Now()) && TriedOk(Now(), key) && k < |vvTried| && vvTried[k] != []
      modifies this`vvTried
      ensures |vvTried| == |old(vvTried)| && vvTried == old(vvTried)[k := vvTried[k]]
      ensures LegalDraws(draws, |old(vvTried[k])|) && |draws| == Min(|old(vvTried[k])|, TRIED_ENTRIES_INSPECT_ON_EVICT)
      ensures vvTried[k] == Drawn(old(vvTried[k]), draws) && Shuffle(old(vvTried[k]), vvTried[k])
      ensures AllKnown(vvTried[k], mapInfo) && LeastRecent(vvTried[k], mapInfo, oldest, |draws|)
      ensures pos == draws[oldest]
      ensures vvTried[k][pos] == vvTried[k][oldest] <==> draws[oldest] == oldest
    {
      BucketShuffle(Now(), key, k);
      hide Shuffle, TriedOk, Indexed;
      var slots := DrawSlots(|vvTried[k]|);
      var v;
      v, pos, oldest := ShuffleFirst(vvTried[k], mapInfo, slots);
      draws := slots;
      ShuffleDistinct(vvTried[k], v, pos, oldest);
      vvTried := vvTried[k := v];
    }

    lemma ShuffleDistinct(s: seq<int>, v: seq<int>, i: nat, j: nat)
      requires Shuffle(s, v) && i < |v| && j < |v|
      ensures v[i] == v[j] <==> i == j
    {
    }

    lemma BucketShuffle(t: Tables, kk: Key, k: nat)
      requires Indexed(t) && TriedOk(t, kk) && k < |t.triedBuckets|
      ensures Shuffle(t.triedBuckets[k], t.triedBuckets[k])
      ensures forall i :: 0 <= i < |t.triedBuckets[k]| ==> t.triedBuckets[k][i] in t.info && t.triedBuckets[k][i] >= 0
    {
      forall i | 0 <= i < |t.triedBuckets[k]| ensures t.triedBuckets[k][i] in t.info && t.triedBuckets[k][i] >= 0 {
        assert EntryIndexed(t, t.triedBuckets[k][i]);
      }
    }

    // Moves an entry from the "new" buckets to its home "tried" bucket; a full bucket gives one
    // entry back, for which there is always room in the bucket the promoted entry came from.
    method MakeTried(id: int, origin: nat)
      returns (ghost evicted: Option<int>, ghost draws: seq<nat>, ghost oldest: nat)
      requires Valid() && id in mapInfo && !mapInfo[id].inTried && origin < NEW_BUCKET_COUNT && id in vvNew[origin]
      modifies this
      ensures Valid() && mapInfo.Keys == old(mapInfo.Keys) && mapAddr == old(mapAddr) && vRandom == old(vRandom)
      ensures mapInfo[id] == old(mapInfo[id]).(refCount := 0, inTried := true)
      ensures id in vvTried[key.TriedBucket(old(mapInfo[id]))]
      ensures evicted.None? <==> |old(vvTried[key.TriedBucket(mapInfo[id])])| < TRIED_BUCKET_SIZE
      ensures evicted.Some? ==>
                && evicted.value in old(vvTried[key.TriedBucket(mapInfo[id])])
                && evicted.value in old(mapInfo) && old(mapInfo[evicted.value]).inTried
                && mapInfo[evicted.value] == old(mapInfo[evicted.value]).(inTried := false, refCount := 1)
      ensures forall x :: x in mapInfo && x != id && evicted != Some(x) ==> mapInfo[x] == old(mapInfo[x])
      ensures evicted.None? ==> nNew == old(nNew) - 1 && nTried == old(nTried) + 1
      ensures evicted.Some? ==> nNew == old(nNew) && nTried == old(nTried)
      ensures Promoted(old(Now()), Now(), key, id, origin, evicted, draws, oldest)
      ensures evicted.Some? ==>
                var e := evicted.value;
                && e in old(mapInfo) && |vvNew| == |old(vvNew)| == 256
                && var b := key.NewBucket(old(mapInfo)[e], old(mapInfo)[e].source);
                forall c :: 0 <= c < 256 ==>
                  vvNew[c] == old(vvNew)[c] - {id}
                              + if c == (if |old(vvNew)[b] - {id}| < 64 then b else origin) then {e} else {}
    {
      hide Inv, Without, Buckets, Promoted;
      draws, oldest := [], 0;
      ghost var before := Now();
      KnownCount(before, key, id);
      BucketsAreMany(before, key);
      LeaveNewBuckets(id);
      nNew := nNew - 1;
      assert mapInfo[id].refCount == 0;

      var k := key.TriedBucket(mapInfo[id]);
      if |vvTried[k]| < TRIED_BUCKET_SIZE {
        JoinTried(id, k, before);
        MovedPromoted(before, key, id, origin);
        evicted := None;
        return;
      }
      evicted, draws, oldest := Exchange(id, origin, k, before);
      PromotedNew(before, Now(), key, id, origin, evicted, draws, oldest);
    }

    lemma KnownCount(t: Tables, k: Key, id: int)
      requires Inv(t, k) && id in t.info && !t.info[id].inTried
      ensures t.info[id].refCount == |Buckets(t.newBuckets, id)|
    {
      assert EntryCounted(t, id, -1, 0);
    }

    // The home bucket has room.
    method JoinTried(id: int, k: nat, ghost before: Tables)
      requires Inv(before, key) && idCount >= 0 && id in before.info && !before.info[id].inTried
      requires |before.triedBuckets| == TRIED_BUCKET_COUNT && k == key.TriedBucket(before.info[id])
               && |before.triedBuckets[k]| < TRIED_BUCKET_SIZE
      requires Now() == before.(info := before.info[id := before.info[id].(refCount := 0)],
                                newBuckets := Without(before.newBuckets, id), nNew := before.nNew - 1)
      modifies this
      ensures Valid() && Now() == MovedToTried(before, key, id) && k < |vvTried| && id in vvTried[k]
    {
      hide Inv, Without;
      MovedKeeps(before, key, id);
      BucketsAreMany(before, key);
      vvTried := vvTried[k := vvTried[k] + [id]];
      nTried := nTried + 1;
      mapInfo := mapInfo[id := mapInfo[id].(inTried := true)];
      assert mapInfo == before.info[id := before.info[id].(refCount := 0, inTried := true)];
      assert vvTried == before.triedBuckets[k := before.triedBuckets[k] + [id]];
      assert vvTried[k][|before.triedBuckets[k]|] == id;
    }

    lemma BucketsAreMany(t: Tables, kk: Key)
      requires Inv(t, kk)
      ensures |t.triedBuckets| == TRIED_BUCKET_COUNT && |t.newBuckets| == NEW_BUCKET_COUNT
    {
    }

    // Removes the entry from all "new" buckets, counting its references down.
    method LeaveNewBuckets(id: int)
      requires id in mapInfo
      modifies this`vvNew, this`mapInfo
      ensures vvNew == Without(old(vvNew), id)
      ensures mapInfo == old(mapInfo)
                         [id := old(mapInfo[id]).(refCount := old(mapInfo[id]).refCount - |Buckets(old(vvNew), id)|)]
    {
      hide Buckets;
      ghost var nb, info := vvNew, mapInfo[id];
      NoBuckets(nb[..0], id);
      for b := 0 to |vvNew|
        invariant |vvNew| == |nb|
        invariant forall c :: 0 <= c < b ==> vvNew[c] == nb[c] - {id}
        invariant forall c :: b <= c < |nb| ==> vvNew[c] == nb[c]
        invariant id in mapInfo && mapInfo == old(mapInfo)
                                           [id := info.(refCount := info.refCount - |Buckets(nb[..b], id)|)]
      {
        BucketsGrow(nb, b, id);
        if id in vvNew[b] {
          vvNew := vvNew[b := vvNew[b] - {id}];
          mapInfo := mapInfo[id := mapInfo[id].(refCount := mapInfo[id].refCount - 1)];
        } else {
          assert vvNew[b] - {id} == vvNew[b];
        }
      }
      assert nb[..|nb|] == nb;
    }

    lemma NoBuckets(nb: seq<set<int>>, id: int)
      requires nb == []
      ensures |Buckets(nb, id)| == 0
    {
    }

    // The home bucket is full: the entry takes the place of another one.
    method Exchange(id: int, origin: nat, k: nat, ghost before: Tables)
      returns (ghost evicted: Option<int>, ghost draws: seq<nat>, ghost oldest: nat)
      requires Inv(before, key) && idCount >= 0 && id in before.info && !before.info[id].inTried
      requires origin < NEW_BUCKET_COUNT && id in before.newBuckets[origin] && k == key.TriedBucket(before.info[id])
      requires |before.triedBuckets[k]| >= TRIED_BUCKET_SIZE
      requires Now() == before.(info := before.info[id := before.info[id].(refCount := 0)],
                                newBuckets := Without(before.newBuckets, id), nNew := before.nNew - 1)
      modifies this
      ensures Valid() && evicted.Some? && evicted.value in before.triedBuckets[k] && evicted.value in before.info
      ensures Now() == before.(info := mapInfo, newBuckets := vvNew, triedBuckets := vvTried)
      ensures mapInfo == before.info[evicted.value := before.info[evicted.value].(inTried := false, refCount := 1)]
                                    [id := before.info[id].(refCount := 0, inTried := true)]
      ensures evicted.value != id && id in vvTried[k] && before.info[evicted.value].inTried
      ensures Promoted(before, Now(), key, id, origin, evicted, draws, oldest)
    {
      hide Inv, TriedOk, Indexed, Promoted, Drawn;
      BucketsAreMany(before, key);
      TriedWhileMoving(before, key, id);
      var pos;
      pos, draws, oldest := SelectTried(k);
      ghost var v := vvTried[k];
      evicted := Some(v[pos]);
      EvictedFacts(before, id, k, v, pos);
      ExchangedKeeps(before, key, id, origin, v, pos);
      ExchangedPromoted(before, key, id, origin, draws, oldest, mapInfo);
      Replace(id, origin, k, pos, before);
    }

    lemma EvictedFacts(t: Tables, id: int, k: nat, v: seq<int>, pos: nat)
      requires Inv(t, key) && id in t.info && !t.info[id].inTried && k == key.TriedBucket(t.info[id])
      requires Shuffle(t.triedBuckets[k], v) && pos < |v|
      ensures v[pos] in t.triedBuckets[k] && v[pos] in t.info && t.info[v[pos]].inTried && v[pos] != id
    {
      ShuffleIn(t.triedBuckets[k], v, v[pos]);
    }

    // Sends the entry at `pos` back to a "new" bucket and puts `id` in its place.
    method Replace(id: int, origin: nat, k: nat, pos: nat, ghost before: Tables)
      requires id in before.info && k < |before.triedBuckets| == TRIED_BUCKET_COUNT == |vvTried| && pos < |vvTried[k]|
      requires k == key.TriedBucket(before.info[id]) && vvTried[k][pos] in before.info && vvTried[k][pos] != id
      requires |before.newBuckets| == NEW_BUCKET_COUNT && origin < NEW_BUCKET_COUNT
      requires Now() == before.(info := before.info[id := before.info[id].(refCount := 0)],
                                newBuckets := Without(before.newBuckets, id), nNew := before.nNew - 1,
                                triedBuckets := before.triedBuckets[k := vvTried[k]])
      modifies this
      ensures Now() == Exchanged(before, key, id, origin, old(vvTried[k]), pos)
      ensures idCount == old(idCount) && id in vvTried[k]
      ensures Now() == before.(info := mapInfo, newBuckets := vvNew, triedBuckets := vvTried)
      ensures mapInfo == before.info
                           [old(vvTried[k][pos]) := before.info[old(vvTried[k][pos])].(inTried := false, refCount := 1)]
                                    [id := before.info[id].(refCount := 0, inTried := true)]
    {
      hide Exchanged, EvictionBucket;
      var evicted := vvTried[k][pos];
      ghost var v := vvTried[k];
      ghost var b' := EvictionBucket(before, key, id, origin, evicted);
      ghost var nb := vvNew;
      ExchangedParts(before, key, id, origin, v, pos);
      var b := key.NewBucket(mapInfo[evicted], mapInfo[evicted].source);
      mapInfo := mapInfo[evicted := mapInfo[evicted].(inTried := false, refCount := 1)];
      PutBack(evicted, b, origin);
      assert vvNew == nb[b' := nb[b'] + {evicted}];
      nNew := nNew + 1;
      vvTried := vvTried[k := vvTried[k][pos := id]];
      assert vvTried[k][pos] == id;
      mapInfo := mapInfo[id := mapInfo[id].(inTried := true)];
    }

    method PutBack(evicted: int, b: nat, origin: nat)
      requires b < |vvNew| && origin < |vvNew|
      modifies this`vvNew
      ensures var c := if |old(vvNew)[b]| < 64 then b else origin;
              vvNew == old(vvNew)[c := old(vvNew)[c] + {evicted}]
    {
      if |vvNew[b]| < NEW_BUCKET_SIZE {
        vvNew := vvNew[b := vvNew[b] + {evicted}];
      } else {
        vvNew := vvNew[origin := vvNew[origin] + {evicted}];
      }
    }

    // The new tables, part by part.
    lemma ExchangedParts(t: Tables, k: Key, id: int, origin: nat, v: seq<int>, pos: nat)
      requires id in t.info && pos < |v| && v[pos] in t.info && |t.triedBuckets| == TRIED_BUCKET_COUNT
      requires |t.newBuckets| == NEW_BUCKET_COUNT && origin < NEW_BUCKET_COUNT
      ensures var e, nb, b := v[pos], Without(t.newBuckets, id), EvictionBucket(t, k, id, origin, v[pos]);
              var home := k.NewBucket(t.info[e], t.info[e].source);
              && b == (if |nb[home]| < NEW_BUCKET_SIZE then home else origin)
              && Exchanged(t, k, id, origin, v, pos) ==
                 t.(newBuckets := nb[b := nb[b] + {e}],
                    info := t.info[e := t.info[e].(inTried := false, refCount := 1)]
                                  [id := (if id == e then t.info[e].(inTried := false, refCount := 1) else t.info[id])
                                           .(refCount := 0, inTried := true)],
                    triedBuckets := t.triedBuckets[k.TriedBucket(t.info[id]) := v[pos := id]])
    {
      hide Key.TriedBucket, Key.NewBucket;
    }

    lemma TriedWhileMoving(t: Tables, kk: Key, id: int)
      requires Inv(t, kk) && id in t.info && !t.info[id].inTried
      ensures var u := t.(info := t.info[id := t.info[id].(refCount := 0)], newBuckets := Without(t.newBuckets, id),
                          nNew := t.nNew - 1);
              Indexed(u) && TriedOk(u, kk)
    {
      var info := t.info[id].(refCount := 0);
      var u := t.(info := t.info[id := info], newBuckets := Without(t.newBuckets, id), nNew := t.nNew - 1);
      WithInfoIndexed(t, id, info);
      IndexedIgnoresBuckets(WithInfo(t, id, info), u.newBuckets, u.triedBuckets, u.nNew, u.nTried);
      TriedUnaffected(t, u, id, kk);
    }

    // ---------------------------------------------------------------- the public operations

    lemma IdFacts(t: Tables, k: Key, id: int)
      requires Inv(t, k) && id in t.info
      ensures id >= 0 && Indexed(t) && |t.newBuckets| == NEW_BUCKET_COUNT
      ensures !t.info[id].inTried ==> exists b :: 0 <= b < |t.newBuckets| && id in t.newBuckets[b]
    {
      assert EntryIndexed(t, id);
      if !t.info[id].inTried {
        NewIdHasBucket(t, k, id);
      }
    }

    lemma KnownEntry(t: Tables, k: Key, id: int)
      requires Inv(t, k) && id in t.info
      ensures t.info[id].inTried ==> t.info[id].refCount == 0 && |t.triedBuckets| == TRIED_BUCKET_COUNT
      ensures t.info[id].inTried ==> id in t.triedBuckets[k.TriedBucket(t.info[id])]
    {
      assert EntryCounted(t, id, -1, 0);
    }

    // A "new" bucket that holds the id, searched from a random start; there always is one.
    method FindNewBucket(id: int) returns (b: nat)
      requires |vvNew| == NEW_BUCKET_COUNT && exists c :: 0 <= c < |vvNew| && id in vvNew[c]
      ensures b < NEW_BUCKET_COUNT && id in vvNew[b]
    {
      ghost var c :| 0 <= c < |vvNew| && id in vvNew[c];
      var nRnd := GetRandInt(|vvNew|);
      ghost var last := TurnReaches(c, nRnd);
      hide Turn;
      var n := 0;
      while id !in vvNew[Turn(n, nRnd)]
        invariant n <= last
        decreases last - n
      {
        n := n + 1;
      }
      b := Turn(n, nRnd);
    }

    // Whether exactly this service (address and port) has an entry.
    ghost predicate Knows(service: Service)
      reads this
    {
      service.ip in mapAddr && mapAddr[service.ip] in mapInfo && mapInfo[mapAddr[service.ip]].service == service
    }

    // The entry of exactly this service, if there is one.
    method FindService(service: Service) returns (id: Option<int>)
      requires Valid()
      ensures id == if Knows(service) then Some(mapAddr[service.ip]) else None
      ensures id.Some? ==> id.value in mapInfo && mapInfo[id.value].service == service
    {
      id := Find(service.ip);
      if id.Some? && mapInfo[id.value].service != service {
        return None;
      }
    }

    // Overwrites the part of an entry that its place in the tables does not depend on.
    method Record(id: int, info: AddrInfo)
      requires Valid() && id in mapInfo && SamePlace(mapInfo[id], info)
      modifies this`mapInfo
      ensures Valid() && mapInfo == old(mapInfo)[id := info]
    {
      HistoryKeeps(Now(), key, id, info);
      hide Inv;
      mapInfo := mapInfo[id := info];
    }

    // Marks an entry good and, if it was new, moves it to "tried", which may send one entry back.
    method Good_(service: Service, time: int)
      returns (ghost evicted: Option<int>, ghost origin: nat, ghost draws: seq<nat>, ghost oldest: nat)
      requires Valid()
      modifies this
      ensures Valid() && mapInfo.Keys == old(mapInfo.Keys) && mapAddr == old(mapAddr) && vRandom == old(vRandom)
      ensures !old(Knows(service)) ==> Now() == old(Now())
      ensures old(Knows(service)) ==>
                var id := mapAddr[service.ip];
                && mapInfo[id] == old(mapInfo[id]).(lastSuccess := time, lastTry := time, time := time, attempts := 0,
                                                    refCount := 0, inTried := true)
                && id in vvTried[key.TriedBucket(mapInfo[id])]
                && (forall x :: x in mapInfo && x != id && evicted != Some(x) ==> mapInfo[x] == old(mapInfo[x]))
      ensures evicted.Some? ==>
                && old(Knows(service)) && evicted.value in old(mapInfo) && old(mapInfo[evicted.value]).inTried
                && mapInfo[evicted.value] == old(mapInfo[evicted.value]).(inTried := false, refCount := 1)
      ensures old(Knows(service)) && old(mapInfo[mapAddr[service.ip]].inTried) ==>
                evicted.None? && vvNew == old(vvNew) && vvTried == old(vvTried)
      ensures old(Knows(service)) && !old(mapInfo[mapAddr[service.ip]].inTried) ==>
                var id := mapAddr[service.ip];
                && origin < |old(vvNew)| && id in old(vvNew)[origin]
                && Promoted(old(Now()), Now(), key, id, origin, evicted, draws, oldest)
      ensures evicted.Some? ==>
                var e := evicted.value;
                && e in old(mapInfo) && |vvNew| == |old(vvNew)| == 256
                && var b := key.NewBucket(old(mapInfo)[e], old(mapInfo)[e].source);
                forall c :: 0 <= c < 256 ==>
                  vvNew[c] == old(vvNew)[c] - {mapAddr[service.ip]}
                              + if c == (if |old(vvNew)[b] - {mapAddr[service.ip]}| < 64 then b else origin) then {e}
                                  else {}
    {
      hide Inv, Promoted;
      evicted, origin, draws, oldest := None, 0, [], 0;
      ghost var before := Now();
      var found := FindService(service);
      if found.None? {
        return;
      }
      var id := found.value;
      KnownEntry(Now(), key, id);
      Record(id, mapInfo[id].(lastSuccess := time, lastTry := time, time := time, attempts := 0));
      IdFacts(Now(), key, id);
      if mapInfo[id].inTried {
        KnownEntry(Now(), key, id);
        return;
      }
      evicted, origin, draws, oldest := Promote(id, before);
    }

    // The entry is new; only its history differs from `before`.
    method Promote(id: int, ghost before: Tables)
      returns (ghost evicted: Option<int>, ghost origin: nat, ghost draws: seq<nat>, ghost oldest: nat)
      requires Valid() && Inv(before, key) && id in before.info && id in mapInfo && !mapInfo[id].inTried
      requires !before.info[id].inTried && mapInfo[id].service == before.info[id].service
      requires Now() == before.(info := before.info[id := mapInfo[id]])
      modifies this
      ensures Valid() && mapInfo.Keys == before.info.Keys && mapAddr == before.addr && vRandom == before.random
      ensures mapInfo[id] == old(mapInfo[id]).(refCount := 0, inTried := true)
      ensures id in vvTried[key.TriedBucket(mapInfo[id])]
      ensures forall x :: x in mapInfo && x != id && evicted != Some(x) ==> mapInfo[x] == before.info[x]
      ensures evicted.Some? ==>
                && evicted.value in before.info && before.info[evicted.value].inTried
                && mapInfo[evicted.value] == before.info[evicted.value].(inTried := false, refCount := 1)
      ensures origin < |before.newBuckets| && id in before.newBuckets[origin]
      ensures Promoted(before, Now(), key, id, origin, evicted, draws, oldest)
      ensures evicted.Some? ==>
                var e := evicted.value;
                && |vvNew| == |before.newBuckets| == 256
                && var b := key.NewBucket(before.info[e], before.info[e].source);
                forall c :: 0 <= c < 256 ==>
                  vvNew[c] == before.newBuckets[c] - {id}
                              + if c == (if |before.newBuckets[b] - {id}| < 64 then b else origin) then {e} else {}
    {
      hide Inv, Promoted;
      IdFacts(Now(), key, id);
      var b := FindNewBucket(id);
      origin := b;
      ghost var between := Now();
      evicted, draws, oldest := MakeTried(id, b);
      PromotedAlike(before, between, Now(), key, id, b, evicted, draws, oldest);
      PromotedNew(before, Now(), key, id, b, evicted, draws, oldest);
    }

    // With a positive time, Good_ keeps the time conditions of Check_.
    lemma GoodTimes(t: Tables, u: Tables, id: int, time: int, evicted: Option<int>)
      requires TimesOk(t) && u.info.Keys == t.info.Keys && id in u.info && time > 0
      requires u.info[id].lastSuccess == u.info[id].lastTry == time
      requires forall x :: x in u.info && x != id && evicted != Some(x) ==> u.info[x] == t.info[x]
      requires evicted.Some? && evicted.value in t.info ==>
                 u.info[evicted.value] == t.info[evicted.value].(inTried := false, refCount := 1)
      ensures TimesOk(u)
    {
      forall x | x in u.info
        ensures u.info[x].lastTry >= 0 && u.info[x].lastSuccess >= 0
                && (u.info[x].inTried ==> u.info[x].lastSuccess != 0)
      {
      }
    }

    // Counts a connection attempt.
    method Attempt_(service: Service, time: int)
      requires Valid()
      modifies this`mapInfo
      ensures Valid()
      ensures mapInfo == if !old(Knows(service)) then old(mapInfo) else
                var id := mapAddr[service.ip];
                old(mapInfo)[id := old(mapInfo[id]).(lastTry := time, attempts := old(mapInfo[id]).attempts + 1)]
    {
      hide Inv;
      var found := FindService(service);
      if found.Some? {
        Record(found.value, mapInfo[found.value].(lastTry := time, attempts := mapInfo[found.value].attempts + 1));
      }
    }

    // Refreshes the time of an entry we are connected to, at most every twenty minutes.
    method Connected_(service: Service, time: int)
      requires Valid()
      modifies this`mapInfo
      ensures Valid() && HistoriesFrom(old(Now()), Now())
      ensures mapInfo == if !old(Knows(service)) || time - old(mapInfo[mapAddr[service.ip]]).time <= 20 * 60
              then old(mapInfo) else
                var id := mapAddr[service.ip];
                old(mapInfo)[id := old(mapInfo[id]).(time := time)]
    {
      hide Inv;
      var found := FindService(service);
      if found.Some? && time - mapInfo[found.value].time > 20 * 60 {
        Record(found.value, mapInfo[found.value].(time := time));
      }
    }

    // What Add_ does to an address it already knows; true if it wants one more bucket for it.
    method Refresh(id: int, services: set<nat>, time: int, penalty: int, now: int) returns (more: bool)
      requires Valid() && id in mapInfo
      modifies this`mapInfo
      ensures Valid() && HistoriesFrom(old(Now()), Now())
      ensures mapInfo == old(mapInfo)[id := Refreshed(old(mapInfo[id]), services, time, penalty, now)]
      ensures mapInfo[id].services == old(mapInfo[id].services) + services
      ensures var known, stale := old(mapInfo[id].time), if time > now - 86400 then 3600 else 86400;
              mapInfo[id].time == if time != 0 && (known == 0 || time - penalty > known + stale)
                                  then Max(0, time - penalty) else known
      ensures more ==> time != 0 && (mapInfo[id].time == 0 || mapInfo[id].time < time)
      ensures more ==> !mapInfo[id].inTried && mapInfo[id].refCount < NEW_BUCKETS_PER_ADDRESS
    {
      hide Inv;
      NewCount(Now(), key, id);
      var interval := if now - time < 24 * 60 * 60 then 60 * 60 else 24 * 60 * 60;
      var info := mapInfo[id];
      if time != 0 && (info.time == 0 || info.time < time - interval - penalty) {
        info := info.(time := Max(0, time - penalty));
      }
      info := info.(services := info.services + services);
      Record(id, info);
      if time == 0 || (info.time != 0 && time <= info.time) {
        return false;
      }
      if info.inTried || info.refCount == NEW_BUCKETS_PER_ADDRESS {
        return false;
      }
      more := TwoToTheNTimesHarder(info.refCount);
    }

    // True with chance one in two to the n.
    method TwoToTheNTimesHarder(n: nat) returns (lucky: bool)
      ensures n == 0 ==> lucky
    {
      var factor := 1;
      for i := 0 to n
        invariant factor >= 1 && (i == 0 ==> factor == 1)
      {
        factor := factor * 2;
      }
      if factor > 1 {
        var draw := GetRandInt(factor);
        return draw == 0;
      }
      lucky := true;
    }

    lemma NewCount(t: Tables, k: Key, id: int)
      requires Inv(t, k) && id in t.info
      ensures !t.info[id].inTried ==> 1 <= t.info[id].refCount <= NEW_BUCKETS_PER_ADDRESS
    {
      assert EntryCounted(t, id, -1, 0);
    }

    // Puts an id, one reference ahead of its buckets, into a bucket, making room if it is full.
    method PutIntoBucket(id: int, b: nat, now: int) returns (ghost lost: int, ghost draws: seq<nat>)
      requires InvWith(Now(), key, id, 1) && id in mapInfo && !mapInfo[id].inTried && id >= 0 && idCount >= 0
      requires b < |vvNew| && id !in vvNew[b]
      modifies this
      ensures Valid() && id in mapInfo && SameButPos(old(mapInfo[id]), mapInfo[id]) && b < |vvNew| && id in vvNew[b]
      ensures nTried == old(nTried) && vvTried == old(vvTried)
      ensures |old(vvNew[b])| < NEW_BUCKET_SIZE ==> mapInfo == old(mapInfo)
      ensures lost != id && OthersKept(old(Now()), Now(), id, lost) && HistoriesFrom(old(Now()), Now())
      ensures Gained(old(vvNew), vvNew, old(mapInfo), b, id, lost, draws, now)
    {
      hide InvWith, HistoriesFrom, OthersKept, MustGo;
      ghost var before := Now();
      lost, draws := MakeRoom(id, b, now);
      ghost var between := Now();
      InsertedKeeps(between, key, b, id);
      InsertedHistories(before, between, b, id);
      SameEntries(before, between, Inserted(between, b, id), id, lost);
      hide Inv;
      vvNew := vvNew[b := vvNew[b] + {id}];
    }

    // Nothing is lost when nothing changes; -1 is no id.
    lemma NothingLost(t: Tables, k: Key)
      requires Inv(t, k)
      ensures forall id :: OthersKept(t, t, id, -1)
    {
      assert forall x :: x in t.info ==> EntryIndexed(t, x);
    }

    lemma NothingLostAhead(t: Tables, k: Key, id: int)
      requires InvWith(t, k, id, 1)
      ensures OthersKept(t, t, id, -1)
    {
      assert forall x :: x in t.info ==> EntryIndexed(t, x);
    }

    // A change to the entry `id` alone, before the others are looked at.
    lemma OthersThrough(t: Tables, u: Tables, v: Tables, id: int, lost: int)
      requires forall x :: x != id ==> (x in u.info <==> x in t.info) && (x in t.info ==> u.info[x] == t.info[x])
      requires OthersKept(u, v, id, lost)
      ensures OthersKept(t, v, id, lost)
    {
    }

    lemma SameEntries(t: Tables, u: Tables, v: Tables, id: int, lost: int)
      requires OthersKept(t, u, id, lost) && v.info == u.info
      ensures OthersKept(t, v, id, lost)
    {
    }

    lemma InsertedHistories(t: Tables, u: Tables, b: nat, id: int)
      requires HistoriesFrom(t, u) && b < |u.newBuckets|
      ensures HistoriesFrom(t, Inserted(u, b, id))
    {
    }

    // Leaves room for one more in bucket b, giving up one of its references if it is full.
    method MakeRoom(id: int, b: nat, now: int) returns (ghost lost: int, ghost draws: seq<nat>)
      requires InvWith(Now(), key, id, 1) && id in mapInfo && !mapInfo[id].inTried && id >= 0 && idCount >= 0
      requires b < |vvNew| && id !in vvNew[b]
      modifies this
      ensures InvWith(Now(), key, id, 1) && id in mapInfo && SameButPos(old(mapInfo[id]), mapInfo[id])
      ensures b < |vvNew| && id !in vvNew[b] && |vvNew[b]| < NEW_BUCKET_SIZE
      ensures nTried == old(nTried) && vvTried == old(vvTried) && idCount == old(idCount)
      ensures |old(vvNew[b])| < NEW_BUCKET_SIZE ==> Now() == old(Now())
      ensures lost != id && OthersKept(old(Now()), Now(), id, lost) && HistoriesFrom(old(Now()), Now())
      ensures |old(vvNew[b])| < NEW_BUCKET_SIZE ==> lost == -1
      ensures |old(vvNew[b])| >= NEW_BUCKET_SIZE ==>
                vvNew == old(vvNew)[b := old(vvNew)[b] - {lost}]
                    && MustGo(old(vvNew[b]), old(mapInfo), lost, draws, now)
    {
      hide InvWith, OneReferenceLess, Dropped, HistoriesFrom, OthersKept, MustGo, IsTerrible, OldestDrawn;
      ghost var before := Now();
      NothingHappened(before);
      SizedAt(before, b, id);
      NothingLostAhead(before, key, id);
      lost, draws := -1, [];
      if |vvNew[b]| == NEW_BUCKET_SIZE {
        assert vvNew[b] != {};
        var r, victim, sampled := ShrinkNew(b, now, id, 1);
        ShrinkFacts(before, b, victim, Now(), id);
        lost, draws := victim, sampled;
      }
    }

    lemma NothingHappened(t: Tables)
      ensures HistoriesFrom(t, t)
    {
    }

    lemma SizedAt(t: Tables, b: nat, loose: int)
      requires InvWith(t, key, loose, 1) && b < |t.newBuckets|
      ensures |t.newBuckets[b]| <= NEW_BUCKET_SIZE
    {
    }

    lemma ShrinkFacts(t: Tables, b: nat, victim: int, u: Tables, id: int)
      requires OneReferenceLess(t, b, victim, u) && victim in t.newBuckets[b] && |t.newBuckets[b]| <= NEW_BUCKET_SIZE
      requires id in t.info && id !in t.newBuckets[b]
      ensures id in u.info && SameButPos(t.info[id], u.info[id]) && u.nTried == t.nTried
              && u.triedBuckets == t.triedBuckets
      ensures |u.newBuckets| == |t.newBuckets| && id !in u.newBuckets[b] && |u.newBuckets[b]| < NEW_BUCKET_SIZE
      ensures u.newBuckets == t.newBuckets[b := t.newBuckets[b] - {victim}]
      ensures t.info.Keys - {victim} <= u.info.Keys <= t.info.Keys && u.idCount == t.idCount
      ensures HistoriesFrom(t, u) && OthersKept(t, u, id, victim)
    {
      forall x | x in u.info ensures x in t.info && u.info[x].lastTry == t.info[x].lastTry
                                     && u.info[x].lastSuccess == t.info[x].lastSuccess
                                     && u.info[x].inTried == t.info[x].inTried {
        assert SameButPos(if x == victim then t.info[victim].(refCount := t.info[victim].refCount - 1)
                          else t.info[x], u.info[x]);
      }
      RoomAfterLeaving(t.newBuckets[b], victim);
    }

    // The new entry that Add_ makes for an unknown address, one reference ahead of its buckets.
    method Admit(service: Service, services: set<nat>, time: int, source: NetAddr, penalty: int) returns (id: int)
      requires Valid() && service.ip !in mapAddr
      modifies this
      ensures Now() == Admitted(old(Now()), service, services, Max(0, time - penalty), source)
      ensures InvWith(Now(), key, id, 1) && id == old(idCount) && id !in old(mapInfo)
      ensures HistoriesFrom(old(Now()), Now())
      ensures forall b :: 0 <= b < |vvNew| ==> id !in vvNew[b]
    {
      AdmittedKeeps(Now(), key, service, services, Max(0, time - penalty), source);
      hide InvWith;
      id := Create(service, services, time, source);
      mapInfo := mapInfo[id := mapInfo[id].(time := Max(0, time - penalty))];
      nNew := nNew + 1;
      mapInfo := mapInfo[id := mapInfo[id].(refCount := mapInfo[id].refCount + 1)];
    }

    // Adds an address to a "new" bucket.  `lost` is the one other entry that may have to make room.
    method Add_(service: Service, services: set<nat>, time: int, source: NetAddr, penalty: int, now: int)
      returns (fNew: bool, ghost lost: int, ghost draws: seq<nat>)
      requires Valid()
      modifies this
      ensures Valid() && nTried == old(nTried) && vvTried == old(vvTried)
      ensures fNew <==> routable(service) && service.port != 0 && service.ip !in old(mapAddr)
      ensures !routable(service) || service.port == 0 ==> Now() == old(Now())
      ensures routable(service) && service.port != 0 ==> service.ip in mapAddr
      ensures fNew ==> var id := mapAddr[service.ip];
                       && id == old(idCount) && id in mapInfo
                       && SameButPos(FirstHeard(service, services, time, source, penalty), mapInfo[id])
                       && id in vvNew[key.NewBucket(mapInfo[id], source)]
      ensures routable(service) && service.port != 0 && !fNew ==>
                var id := old(mapAddr)[service.ip];
                id in mapInfo && id in old(mapInfo) && Heard(old(mapInfo[id]), mapInfo[id], services, time, penalty,
                                                             now)
      ensures fNew ==>
                var x := mapInfo[mapAddr[service.ip]];
                && x.service == service && x.services == services && x.source == source
                && x.time == (if time > penalty then time - penalty else 0)
                && x.lastSuccess == 0 && x.lastTry == 0 && x.attempts == 0 && x.refCount == 1 && !x.inTried
      ensures routable(service) && service.port != 0 && !fNew ==>
                var x, y := old(mapInfo[mapAddr[service.ip]]), mapInfo[old(mapAddr)[service.ip]];
                && y.service == x.service && y.services == x.services + services && y.source == x.source
                && y.time == (if time != 0 && (x.time == 0 || time - penalty
                                               > x.time + if time > now - 86400 then 3600 else 86400)
                              then Max(0, time - penalty) else x.time)
                && y.inTried == x.inTried && y.attempts == x.attempts
                && (y.refCount != x.refCount ==> !x.inTried && x.refCount < 4 && y.refCount == x.refCount + 1)
      ensures HistoriesFrom(old(Now()), Now())
      ensures OthersKept(old(Now()), Now(), if service.ip in mapAddr then mapAddr[service.ip] else -1, lost)
      ensures routable(service) && service.port != 0 ==>
                var id := mapAddr[service.ip];
                && id in mapInfo && (!fNew ==> id in old(mapInfo))
                && if fNew || mapInfo[id].refCount != old(mapInfo[id].refCount)
                   then Gained(old(vvNew), vvNew, old(mapInfo), key.NewBucket(mapInfo[id], source), id, lost, draws,
                               now)
                   else vvNew == old(vvNew) && lost == -1
    {
      hide Inv, Heard, SameButPos, OthersKept, Gained, FirstHeard, HistoriesFrom;
      NothingLost(Now(), key);
      NothingHappened(Now());
      fNew, lost, draws := false, -1, [];
      if !routable(service) || service.port == 0 {
        return;
      }
      ValidIndexed();
      var found := Find(service.ip);
      if found.Some? {
        ghost var before := mapInfo[found.value];
        lost, draws := AddKnown(found.value, services, time, source, penalty, now);
        HeardExactly(before, mapInfo[found.value], services, time, penalty, now);
      } else {
        fNew := true;
        lost, draws := AddUnknown(service, services, time, source, penalty, now);
        FirstHeardExactly(service, services, time, source, penalty, mapInfo[mapAddr[service.ip]]);
      }
    }

    lemma HeardExactly(x: AddrInfo, y: AddrInfo, services: set<nat>, time: int, penalty: int, now: int)
      requires Heard(x, y, services, time, penalty, now)
      ensures y.service == x.service && y.services == x.services + services && y.source == x.source
      ensures y.time == if time != 0 && (x.time == 0 || time - penalty
                                         > x.time + if time > now - 86400 then 3600 else 86400)
                        then Max(0, time - penalty) else x.time
      ensures y.inTried == x.inTried && y.attempts == x.attempts
      ensures y.refCount == x.refCount || y.refCount == x.refCount + 1
    {
    }

    lemma FirstHeardExactly(service: Service, services: set<nat>, time: int, source: NetAddr, penalty: int, x: AddrInfo)
      requires SameButPos(FirstHeard(service, services, time, source, penalty), x)
      ensures x.service == service && x.services == services && x.source == source
      ensures x.time == if time > penalty then time - penalty else 0
      ensures x.lastSuccess == 0 && x.lastTry == 0 && x.attempts == 0 && x.refCount == 1 && !x.inTried
    {
    }

    lemma ValidIndexed()
      requires Valid()
      ensures Indexed(Now())
    {
    }

    method AddUnknown(service: Service, services: set<nat>, time: int, source: NetAddr, penalty: int, now: int)
      returns (ghost lost: int, ghost draws: seq<nat>)
      requires Valid() && service.ip !in mapAddr
      modifies this
      ensures Valid() && nTried == old(nTried) && vvTried == old(vvTried)
      ensures service.ip in mapAddr && mapAddr[service.ip] == old(idCount) && old(idCount) in mapInfo
      ensures var id := old(idCount);
              && SameButPos(FirstHeard(service, services, time, source, penalty), mapInfo[id])
              && id in vvNew[key.NewBucket(mapInfo[id], source)]
      ensures HistoriesFrom(old(Now()), Now())
      ensures OthersKept(old(Now()), Now(), old(idCount), lost)
      ensures Gained(old(vvNew), vvNew, old(mapInfo), key.NewBucket(mapInfo[old(idCount)], source), old(idCount), lost,
                     draws, now)
    {
      hide Inv, InvWith, HistoriesFrom, OthersKept, MustGo;
      ghost var before := Now();
      BucketsAreMany(before, key);
      var id := Admit(service, services, time, source, penalty);
      ghost var between := Now();
      ghost var b := key.NewBucket(mapInfo[id], source);
      lost, draws := PutIntoBucket(id, key.NewBucket(mapInfo[id], source), now);
      GainedAlike(before, between, vvNew, b, id, lost, draws, now);
      HistoriesThrough(before, between, Now());
      OthersThrough(before, between, Now(), id, lost);
      KnownAddress(Now(), key, id);
    }

    method AddKnown(id: int, services: set<nat>, time: int, source: NetAddr, penalty: int, now: int)
      returns (ghost lost: int, ghost draws: seq<nat>)
      requires Valid() && id in mapInfo
      modifies this
      ensures Valid() && nTried == old(nTried) && vvTried == old(vvTried)
      ensures id in mapInfo && Heard(old(mapInfo[id]), mapInfo[id], services, time, penalty, now)
      ensures old(mapInfo[id].service.ip) in mapAddr && mapAddr[old(mapInfo[id].service.ip)] == id
      ensures mapInfo[id].refCount != old(mapInfo[id].refCount) ==>
                !old(mapInfo[id]).inTried && old(mapInfo[id]).refCount < NEW_BUCKETS_PER_ADDRESS
                && id !in old(vvNew)[key.NewBucket(mapInfo[id], source)]
                && id in vvNew[key.NewBucket(mapInfo[id], source)]
      ensures HistoriesFrom(old(Now()), Now())
      ensures OthersKept(old(Now()), Now(), id, lost)
      ensures if mapInfo[id].refCount != old(mapInfo[id].refCount)
              then Gained(old(vvNew), vvNew, old(mapInfo), key.NewBucket(mapInfo[id], source), id, lost, draws, now)
              else vvNew == old(vvNew) && lost == -1
    {
      hide Inv, HistoriesFrom, OthersKept, MustGo;
      lost, draws := -1, [];
      ghost var before := Now();
      var more := Refresh(id, services, time, penalty, now);
      ghost var between := Now();
      NotNegative(Now(), key, id);
      NothingLost(Now(), key);
      OthersThrough(before, between, between, id, -1);
      if more {
        var b := key.NewBucket(mapInfo[id], source);
        if id !in vvNew[b] {
          lost, draws := RaiseReference(id, b, now);
          GainedAlike(before, between, vvNew, b, id, lost, draws, now);
          HistoriesThrough(before, between, Now());
          OthersThrough(before, between, Now(), id, lost);
        }
      }
      KnownAddress(Now(), key, id);
    }

    // The fields of an entry that is not in the bucket play no part.
    lemma GainedAlike(t: Tables, u: Tables, nb: seq<set<int>>, b: nat, id: int, lost: int, draws: seq<nat>, now: int)
      requires t.newBuckets == u.newBuckets && Gained(u.newBuckets, nb, u.info, b, id, lost, draws, now)
      requires forall x :: x != id ==> (x in u.info <==> x in t.info) && (x in t.info ==> u.info[x] == t.info[x])
      ensures Gained(t.newBuckets, nb, t.info, b, id, lost, draws, now)
    {
      hide MustGo;
      if |t.newBuckets[b]| >= NEW_BUCKET_SIZE {
        MustGoKnown(t.newBuckets[b], u.info, lost, draws, now);
        MustGoAlike(t.newBuckets[b], u.info, t.info, lost, draws, now);
      }
    }

    lemma MustGoKnown(bucket: set<int>, info: map<int, AddrInfo>, lost: int, draws: seq<nat>, now: int)
      requires MustGo(bucket, info, lost, draws, now)
      ensures forall x :: x in bucket ==> x in info
    {
    }

    method RaiseReference(id: int, b: nat, now: int) returns (ghost lost: int, ghost draws: seq<nat>)
      requires Valid() && id in mapInfo && id >= 0 && !mapInfo[id].inTried
               && mapInfo[id].refCount < NEW_BUCKETS_PER_ADDRESS
      requires b < |vvNew| && id !in vvNew[b]
      modifies this
      ensures Valid() && nTried == old(nTried) && vvTried == old(vvTried)
      ensures id in mapInfo && SameButPos(old(mapInfo[id]).(refCount := old(mapInfo[id]).refCount + 1), mapInfo[id])
      ensures b < |vvNew| && id in vvNew[b]
      ensures HistoriesFrom(old(Now()), Now())
      ensures OthersKept(old(Now()), Now(), id, lost)
      ensures Gained(old(vvNew), vvNew, old(mapInfo), b, id, lost, draws, now)
    {
      hide Inv, InvWith, HistoriesFrom, OthersKept, MustGo;
      AheadKeeps(Now(), key, id);
      AheadHistories(Now(), id);
      ghost var before := Now();
      mapInfo := mapInfo[id := mapInfo[id].(refCount := mapInfo[id].refCount + 1)];
      ghost var between := Now();
      lost, draws := PutIntoBucket(id, b, now);
      GainedAlike(before, between, vvNew, b, id, lost, draws, now);
      HistoriesThrough(before, between, Now());
      OthersThrough(before, between, Now(), id, lost);
    }

    lemma AheadHistories(t: Tables, id: int)
      requires id in t.info
      ensures HistoriesFrom(t, WithInfo(t, id, t.info[id].(refCount := t.info[id].refCount + 1)))
    {
    }

    lemma KnownAddress(t: Tables, k: Key, id: int)
      requires Inv(t, k) && id in t.info
      ensures t.info[id].service.ip in t.addr && t.addr[t.info[id].service.ip] == id
    {
      assert EntryIndexed(t, id);
    }

    lemma NotNegative(t: Tables, k: Key, id: int)
      requires Inv(t, k) && id in t.info
      ensures id >= 0 && |t.newBuckets| == NEW_BUCKET_COUNT
    {
      assert EntryIndexed(t, id);
    }

    // Shuffles the first entries of vRandom from all of it and returns their addresses: at most
    // 23 percent of the table and at most 2500, all different.
    method GetAddr_() returns (vAddr: seq<Service>)
      requires Valid()
      modifies this`vRandom, this`mapInfo
      ensures Valid() && SameButOrder(old(Now()), Now()) && HistoriesFrom(old(Now()), Now())
      ensures |vAddr| == Min(GETADDR_MAX_PCT * |vRandom| / 100, GETADDR_MAX) && |vRandom| == old(|vRandom|)
      ensures |vAddr| == Min(23 * |vRandom| / 100, 2500) <= |vRandom|
      ensures forall i :: 0 <= i < |vAddr| ==> vRandom[i] in mapInfo && vAddr[i] == mapInfo[vRandom[i]].service
      ensures FrontIs(Now(), vAddr)
      ensures forall i, j :: 0 <= i < j < |vAddr| ==> vAddr[i].ip != vAddr[j].ip
    {
      var nNodes := GETADDR_MAX_PCT * |vRandom| / 100;
      if nNodes > GETADDR_MAX {
        nNodes := GETADDR_MAX;
      }
      vAddr := [];
      hide Inv, SameButOrder;
      OrderSame(Now());
      for n := 0 to nNodes
        invariant Valid() && SameButOrder(old(Now()), Now()) && |vRandom| == old(|vRandom|)
        invariant |vAddr| == n && FrontIs(Now(), vAddr)
      {
        var service := DrawNext(n, vAddr, old(Now()));
        vAddr := vAddr + [service];
      }
      AddressesDiffer(Now(), key, vAddr);
      OrderKeepsHistories(old(Now()), Now());
    }

    lemma OrderKeepsHistories(t: Tables, u: Tables)
      requires SameButOrder(t, u)
      ensures HistoriesFrom(t, u)
    {
      forall x | x in u.info ensures u.info[x] == t.info[x].(randomPos := u.info[x].randomPos) {
        assert SameButPos(t.info[x], u.info[x]);
      }
    }

    lemma OrderSame(t: Tables)
      ensures SameButOrder(t, t)
    {
    }

    // The addresses returned so far are those of the first entries of vRandom.
    ghost predicate FrontIs(t: Tables, vAddr: seq<Service>) {
      |vAddr| <= |t.random| &&
      forall i :: 0 <= i < |vAddr| ==> t.random[i] in t.info && vAddr[i] == t.info[t.random[i]].service
    }

    method DrawNext(n: nat, ghost vAddr: seq<Service>, ghost first: Tables) returns (service: Service)
      requires Valid() && n < |vRandom| && |vAddr| == n && FrontIs(Now(), vAddr) && SameButOrder(first, Now())
      modifies this`vRandom, this`mapInfo
      ensures Valid() && |vRandom| == old(|vRandom|) && SameButOrder(first, Now())
      ensures FrontIs(Now(), vAddr + [service])
    {
      hide SameButOrder, Swapped, Inv, FrontIs, Indexed;
      ValidIndexed();
      var draw := GetRandInt(|vRandom| - n);
      NextDrawn(Now(), n, draw + n, vAddr, first);
      SwapRandom(n, draw + n);
      service := mapInfo[vRandom[n]].service;
    }

    lemma NextDrawn(t: Tables, n: nat, p: nat, vAddr: seq<Service>, first: Tables)
      requires Inv(t, key) && Indexed(t) && n <= p < |t.random| && |vAddr| == n && FrontIs(t, vAddr)
               && SameButOrder(first, t)
      ensures var u := Swapped(t, n, p);
              && Inv(u, key) && SameButOrder(first, u) && |u.random| == |t.random| && u.random[n] in u.info
              && FrontIs(u, vAddr + [u.info[u.random[n]].service])
    {
      hide SameButOrder, Swapped;
      SwappedKeeps(t, n, p, key, -1, 0);
      SwappedIndexed(t, n, p);
      OrderStep(first, t, n, p);
      SwapKeepsFront(t, n, p);
      hide Inv;
      RandomKnown(Swapped(t, n, p), key, n);
    }

    lemma RandomKnown(t: Tables, k: Key, p: nat)
      requires Inv(t, k) && p < |t.random|
      ensures t.random[p] in t.info
    {
    }

    lemma OrderStep(t: Tables, u: Tables, p1: nat, p2: nat)
      requires SameButOrder(t, u) && Indexed(u) && p1 < |u.random| && p2 < |u.random|
      ensures SameButOrder(t, Swapped(u, p1, p2))
    {
      SwappedIndexed(u, p1, p2);
      var w := Swapped(u, p1, p2);
      hide Swapped;
      forall id | id in t.info ensures SameButPos(t.info[id], w.info[id]) {
        assert SameButPos(t.info[id], u.info[id]) && SameButPos(u.info[id], w.info[id]);
      }
    }

    // Swapping at or after n changes nothing before n.
    lemma SwapKeepsFront(t: Tables, n: nat, p: nat)
      requires Indexed(t) && n <= p < |t.random|
      ensures var u := Swapped(t, n, p);
              forall i :: 0 <= i < n ==> u.random[i] == t.random[i] && u.random[i] in u.info && t.random[i] in t.info
                                         && u.info[u.random[i]].service == t.info[t.random[i]].service
    {
      SwappedIndexed(t, n, p);
      var u := Swapped(t, n, p);
      forall i | 0 <= i < n ensures u.random[i] == t.random[i] && SameButPos(t.info[t.random[i]], u.info[t.random[i]]) {
      }
    }

    lemma AddressesDiffer(t: Tables, k: Key, vAddr: seq<Service>)
      requires Inv(t, k) && FrontIs(t, vAddr)
      ensures forall i, j :: 0 <= i < j < |vAddr| ==> vAddr[i].ip != vAddr[j].ip
    {
      forall i, j | 0 <= i < j < |vAddr| ensures vAddr[i].ip != vAddr[j].ip {
        assert EntryIndexed(t, t.random[i]) && EntryIndexed(t, t.random[j]);
      }
    }

    // ---------------------------------------------------------------- saving and loading

    // Writes the new entries in ascending order of their ids and numbers them from zero.
    method SaveNew() returns (newInfos: seq<SavedInfo>, mapUnkIds: map<int, int>)
      requires Valid()
      ensures Records(newInfos, Now(), Ascending(NewIds(Now())))
      ensures Numbers(mapUnkIds, Ascending(NewIds(Now())))
    {
      hide Inv, Numbers, Records, Lists, Walked, ToDisk;
      NewHaveReferences(Now(), key);
      NothingListed(NewIds(Now()), mapInfo.Keys, Now());
      newInfos, mapUnkIds := [], map[];
      ghost var newIds: seq<int> := [];
      var nIds := 0;
      var rest := mapInfo.Keys;
      while rest != {} && nIds != nNew
        invariant rest <= mapInfo.Keys && nIds == |newIds| && Records(newInfos, Now(), newIds)
        invariant Lists(newIds, NewIds(Now()) - rest) && Walked(newIds, rest)
        invariant Numbers(mapUnkIds, newIds)
        decreases |rest|
      {
        var id := Least(rest);
        ListNext(newIds, NewIds(Now()), rest, id);
        NumbersNext(mapUnkIds, newIds, rest, id);
        RecordsNext(newInfos, Now(), newIds, id);
        mapUnkIds := mapUnkIds[id := nIds];
        if mapInfo[id].refCount != 0 {
          newInfos := newInfos + [ToDisk(mapInfo[id])];
          newIds := newIds + [id];
          nIds := nIds + 1;
        }
        rest := rest - {id};
      }
      ListComplete(newIds, NewIds(Now()), rest);
    }

    // What is listed so far is in order, and before everything still to come.
    ghost predicate Walked(done: seq<int>, rest: set<int>) {
      Increasing(done) && forall x, y :: x in done && y in rest ==> x < y
    }

    // Each listed id is mapped to its place.
    ghost predicate Numbers(mapUnkIds: map<int, int>, ids: seq<int>) {
      forall i :: 0 <= i < |ids| ==> ids[i] in mapUnkIds && mapUnkIds[ids[i]] == i
    }

    // Writes the tried entries in ascending order of their ids.
    method SaveTried() returns (triedInfos: seq<SavedInfo>)
      requires Valid()
      ensures Records(triedInfos, Now(), Ascending(TriedIds(Now())))
    {
      hide Inv, Records, Lists, Walked, ToDisk;
      NewHaveReferences(Now(), key);
      NothingListed(TriedIds(Now()), mapInfo.Keys, Now());
      triedInfos := [];
      ghost var triedIds: seq<int> := [];
      var nIds := 0;
      var rest := mapInfo.Keys;
      while rest != {} && nIds != nTried
        invariant rest <= mapInfo.Keys && nIds == |triedIds| && Records(triedInfos, Now(), triedIds)
        invariant Lists(triedIds, TriedIds(Now()) - rest) && Walked(triedIds, rest)
        decreases |rest|
      {
        var id := Least(rest);
        ListNext(triedIds, TriedIds(Now()), rest, id);
        RecordsNext(triedInfos, Now(), triedIds, id);
        if mapInfo[id].inTried {
          triedInfos := triedInfos + [ToDisk(mapInfo[id])];
          triedIds := triedIds + [id];
          nIds := nIds + 1;
        }
        rest := rest - {id};
      }
      ListComplete(triedIds, TriedIds(Now()), rest);
    }

    // Writes a bucket as the numbers given to its entries.
    method SaveBucket(b: nat, mapUnkIds: map<int, int>, ghost newIds: seq<int>) returns (list: seq<int>)
      requires b < |vvNew| && Distinct(newIds) && Numbers(mapUnkIds, newIds)
               && forall id :: id in vvNew[b] ==> id in newIds
      ensures BucketSaved(list, vvNew[b], newIds)
    {
      list := [];
      var rest := vvNew[b];
      while rest != {}
        invariant rest <= vvNew[b] && |list| + |rest| == |vvNew[b]|
        invariant Distinct(list) && forall i :: 0 <= i < |list| ==> 0 <= list[i] < |newIds|
        invariant forall x :: 0 <= x < |newIds| ==> (x in list <==> newIds[x] in vvNew[b] - rest)
        decreases |rest|
      {
        var id := Least(rest);
        ghost var place :| 0 <= place < |newIds| && newIds[place] == id;
        assert place !in list;
        list := list + [mapUnkIds[id]];
        rest := rest - {id};
      }
    }

    // What is written to disk: every entry once, and the buckets as lists of places.
    method Save() returns (d: Disk)
      requires Valid()
      ensures IsSaveOf(d, Now(), key, Ascending(NewIds(Now())), Ascending(TriedIds(Now())))
    {
      hide *;
      ghost var t := Now();
      NowIs();
      var newInfos, mapUnkIds := SaveNew();
      var triedInfos := SaveTried();
      ghost var newIds, triedIds := Ascending(NewIds(t)), Ascending(TriedIds(t));
      var buckets := [];
      AscendingLists(NewIds(t));
      AscendingLists(TriedIds(t));
      BucketsListed(t, key, newIds);
      for b := 0 to |vvNew|
        invariant |buckets| == b && forall c :: 0 <= c < b ==> BucketSaved(buckets[c], vvNew[c], newIds)
      {
        var list := SaveBucket(b, mapUnkIds, newIds);
        buckets := buckets + [list];
      }
      d := Disk(key, nNew, nTried, newInfos, triedInfos, buckets);
      Saves(d, t, key, newIds, triedIds);
    }

    lemma NowIs()
      requires Valid()
      ensures Now().newBuckets == vvNew && Now().nNew == nNew && Now().nTried == nTried && Inv(Now(), key)
    {
    }

    lemma AscendingLists(ids: set<int>)
      ensures Lists(Ascending(ids), ids)
    {
    }

    static lemma Saves(d: Disk, t: Tables, k: Key, newIds: seq<int>, triedIds: seq<int>)
      requires d.key == k && d.nNew == t.nNew && d.nTried == t.nTried && Lists(newIds, NewIds(t))
               && Lists(triedIds, TriedIds(t))
      requires Records(d.newInfos, t, newIds) && Records(d.triedInfos, t, triedIds)
               && |d.buckets| == NEW_BUCKET_COUNT == |t.newBuckets|
      requires forall b :: 0 <= b < |d.buckets| ==> BucketSaved(d.buckets[b], t.newBuckets[b], newIds)
      ensures IsSaveOf(d, t, k, newIds, triedIds)
    {
    }

    lemma NewHaveReferences(t: Tables, k: Key)
      requires Inv(t, k)
      ensures forall id :: id in t.info ==> (t.info[id].refCount != 0 <==> !t.info[id].inTried)
      ensures t.nNew == |NewIds(t)| && t.nTried == |TriedIds(t)|
    {
      forall id | id in t.info ensures t.info[id].refCount != 0 <==> !t.info[id].inTried {
        assert EntryCounted(t, id, -1, 0);
      }
    }

    lemma BucketsListed(t: Tables, k: Key, newIds: seq<int>)
      requires Inv(t, k) && Lists(newIds, NewIds(t))
      ensures |t.newBuckets| == NEW_BUCKET_COUNT && Distinct(newIds)
      ensures forall b, id :: 0 <= b < |t.newBuckets| && id in t.newBuckets[b] ==> id in newIds
    {
      forall b, id | 0 <= b < |t.newBuckets| && id in t.newBuckets[b] ensures id in newIds {
        assert id in t.info && EntryCounted(t, id, -1, 0) && b in Buckets(t.newBuckets, id);
        assert id in NewIds(t);
      }
    }

    lemma NothingListed(ids: set<int>, rest: set<int>, t: Tables)
      requires ids <= rest
      ensures Lists([], ids - rest) && Walked([], rest) && Records([], t, []) && Numbers(map[], [])
    {
    }

    lemma RecordsNext(infos: seq<SavedInfo>, t: Tables, ids: seq<int>, id: int)
      requires Records(infos, t, ids) && id in t.info
      ensures Records(infos + [ToDisk(t.info[id])], t, ids + [id])
    {
      hide ToDisk;
    }

    // An id still to come gets the next number, whether or not it is listed.
    lemma NumbersNext(mapUnkIds: map<int, int>, ids: seq<int>, rest: set<int>, id: int)
      requires Numbers(mapUnkIds, ids) && Walked(ids, rest) && id in rest
      ensures Numbers(mapUnkIds[id := |ids|], ids) && Numbers(mapUnkIds[id := |ids|], ids + [id])
    {
      forall i | 0 <= i < |ids| ensures ids[i] != id { assert ids[i] in ids; }
    }

    lemma ListNext(s: seq<int>, ids: set<int>, rest: set<int>, id: int)
      requires Lists(s, ids - rest) && Walked(s, rest) && id in rest && forall x :: x in rest ==> id <= x
      ensures if id in ids then Lists(s + [id], ids - (rest - {id})) && Walked(s + [id], rest - {id})
              else Lists(s, ids - (rest - {id})) && Walked(s, rest - {id})
    {
      if id in ids {
        forall i | 0 <= i < |s| ensures s[i] < id { assert s[i] in s; }
        forall x, y | x in s + [id] && y in rest - {id} ensures x < y {
          assert x in s || x == id;
        }
      }
    }

    // The walk stops once the count is reached, or at the end: either way nothing is missing.
    lemma ListComplete(s: seq<int>, ids: set<int>, rest: set<int>)
      requires Lists(s, ids - rest) && Walked(s, rest) && (rest == {} || |s| == |ids|)
      ensures s == Ascending(ids)
    {
      DistinctCount(s);
      assert (set x | x in s) == ids - rest;
      if rest != {} {
        SameSize(ids - rest, ids);
      }
      assert ids - rest == ids;
      SameOrder(s, Ascending(ids));
    }

    lemma {:induction false} SameSize(a: set<int>, b: set<int>)
      requires a <= b && |a| == |b|
      ensures a == b
    {
      assert b == a + (b - a);
    }

    // Rebuilds everything from what was saved.
    constructor Load(d: Disk, routable: Service -> bool)
      requires WellFormed(d)
      ensures Now() == Loaded(d) && key == d.key && this.routable == routable
    {
      this.key, this.routable := d.key, routable;
      idCount, mapInfo, mapAddr, vRandom, nTried, nNew := 0, map[], map[], [], d.nTried, d.nNew;
      vvTried := seq(TRIED_BUCKET_COUNT, _ => []);
      vvNew := seq(NEW_BUCKET_COUNT, _ => {});
      new;
      LoadNew(d);
      idCount := nNew;
      NewCountRead(d, |d.newInfos|);
      LoadTried(d);
      for b := 0 to |d.buckets|
        invariant Now() == AfterBuckets(d, b, 0)
      {
        LoadBucket(d, b);
      }
    }

    lemma {:induction false} NewCountRead(d: Disk, n: nat)
      requires n <= |d.newInfos|
      ensures AfterNew(d, n).nNew == d.nNew
    {
      if n > 0 {
        NewCountRead(d, n - 1);
      }
    }

    method LoadNew(d: Disk)
      requires WellFormed(d) && key == d.key && Now() == Cleared(d)
      modifies this
      ensures Now() == AfterNew(d, |d.newInfos|)
    {
      hide WellFormed, NewStep, Cleared;
      for n := 0 to |d.newInfos|
        invariant Now() == AfterNew(d, n)
      {
        LoadNewInfo(d, n);
      }
    }

    method LoadNewInfo(d: Disk, n: nat)
      requires key == d.key && n < |d.newInfos| && |vvNew| == NEW_BUCKET_COUNT
      modifies this
      ensures Now() == NewStep(old(Now()), d, n)
    {
      var r := d.newInfos[n];
      mapInfo := mapInfo[n := FromDisk(r, 0, false, 0)];
      mapAddr := mapAddr[r.service.ip := n];
      mapInfo := mapInfo[n := mapInfo[n].(randomPos := |vRandom|)];
      vRandom := vRandom + [n];
      if |d.buckets| != NEW_BUCKET_COUNT {
        var b := key.NewBucket(mapInfo[n], mapInfo[n].source);
        vvNew := vvNew[b := vvNew[b] + {n}];
        mapInfo := mapInfo[n := mapInfo[n].(refCount := mapInfo[n].refCount + 1)];
      }
    }

    method LoadTried(d: Disk)
      requires WellFormed(d) && key == d.key && Now() == AfterNew(d, |d.newInfos|).(idCount := d.nNew)
      modifies this
      ensures Now() == AfterTried(d, |d.triedInfos|)
    {
      hide WellFormed, AfterNew, TriedStep;
      var nLost := 0;
      for j := 0 to |d.triedInfos|
        invariant Now() == AfterTried(d, j).(nTried := nTried) && nTried - nLost == AfterTried(d, j).nTried
      {
        ghost var before := AfterTried(d, j);
        var lost := LoadTriedInfo(d, j, before);
        if lost {
          nLost := nLost + 1;
        }
      }
      nTried := nTried - nLost;
    }

    // True if the entry is lost because its bucket is full.
    method LoadTriedInfo(d: Disk, j: nat, ghost before: Tables) returns (lost: bool)
      requires key == d.key && j < |d.triedInfos| && |vvTried| == TRIED_BUCKET_COUNT
               && Now() == before.(nTried := nTried)
      modifies this
      ensures nTried == old(nTried) && |before.triedBuckets| == TRIED_BUCKET_COUNT
      ensures Now() == TriedStep(before, d, j).(nTried := nTried)
      ensures TriedStep(before, d, j).nTried == before.nTried - if lost then 1 else 0
    {
      var info := FromDisk(d.triedInfos[j], 0, false, 0);
      var k := key.TriedBucket(info);
      lost := |vvTried[k]| >= TRIED_BUCKET_SIZE;
      if !lost {
        info := info.(randomPos := |vRandom|, inTried := true);
        vRandom := vRandom + [idCount];
        mapInfo := mapInfo[idCount := info];
        mapAddr := mapAddr[info.service.ip := idCount];
        vvTried := vvTried[k := vvTried[k] + [idCount]];
        idCount := idCount + 1;
      }
    }

    method LoadBucket(d: Disk, b: nat)
      requires WellFormed(d) && b < |d.buckets| && Now() == AfterBuckets(d, b, 0)
      modifies this
      ensures Now() == AfterBuckets(d, b + 1, 0)
    {
      hide AfterTried;
      for m := 0 to |d.buckets[b]|
        invariant Now() == AfterBuckets(d, b, m)
      {
        var i := d.buckets[b][m];
        if i !in mapInfo {
          mapInfo := mapInfo[i := UNKNOWN];
        }
        if |d.buckets| == NEW_BUCKET_COUNT && mapInfo[i].refCount < NEW_BUCKETS_PER_ADDRESS {
          mapInfo := mapInfo[i := mapInfo[i].(refCount := mapInfo[i].refCount + 1)];
          vvNew := vvNew[b := vvNew[b] + {i}];
        }
      }
    }
  }
}
