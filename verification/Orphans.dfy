// Transactions whose parents are missing (src/main.cpp): the store, its index by parent, the limit
// on its size, and the work queue that tries them again when a parent arrives.
module Orphans {
  import opened Common
  import opened Ledger

  type Store = map<Hash256, Tx>
  type ByPrev = map<Hash256, set<Hash256>>

  const MAX_ORPHAN_SIZE: nat := 5000

  predicate Spends(tx: Tx, prev: Hash256) { exists i :: 0 <= i < |tx.vin| && tx.vin[i].hash == prev }

  // The stored transactions that spend an output of `prev`.
  function Spenders(store: Store, prev: Hash256): set<Hash256> { set h | h in store && Spends(store[h], prev) }

  // The index lists exactly the spenders of each parent, and no parent without spenders.
  ghost predicate IsIndex(store: Store, byPrev: ByPrev) {
    && (forall p :: p in byPrev ==> byPrev[p] == Spenders(store, p) != {})
    && (forall p :: Spenders(store, p) != {} ==> p in byPrev)
  }

  function IndexAt(byPrev: ByPrev, p: Hash256): set<Hash256> { if p in byPrev then byPrev[p] else {} }

  lemma IndexIs(store: Store, byPrev: ByPrev)
    ensures IsIndex(store, byPrev) <==>
              (forall p :: IndexAt(byPrev, p) == Spenders(store, p)) && (forall p :: p in byPrev ==> byPrev[p] != {})
  {
    if IsIndex(store, byPrev) {
      forall p ensures IndexAt(byPrev, p) == Spenders(store, p) { }
    }
    if (forall p :: IndexAt(byPrev, p) == Spenders(store, p)) && (forall p :: p in byPrev ==> byPrev[p] != {}) {
      forall p | p in byPrev ensures byPrev[p] == Spenders(store, p) { assert IndexAt(byPrev, p) == byPrev[p]; }
      forall p | Spenders(store, p) != {} ensures p in byPrev { assert IndexAt(byPrev, p) == Spenders(store, p); }
    }
  }

  // The first k inputs lead to `prev`.
  predicate SpendsWithin(tx: Tx, k: nat, prev: Hash256)
    requires k <= |tx.vin|
  {
    exists i :: 0 <= i < k && tx.vin[i].hash == prev
  }

  class OrphanPool {
    var orphans: Store
    var byPrev: ByPrev

    constructor ()
      ensures Valid() && orphans == map[]
    {
      orphans, byPrev := map[], map[];
    }

    ghost predicate Valid()
      reads this
    {
      IsIndex(orphans, byPrev) && forall h :: h in orphans ==> orphans[h].id == h
    }

    method AddOrphanTx(tx: Tx, size: nat) returns (added: bool)
      requires Valid()
      modifies this
      ensures Valid() && (added <==> tx.id !in old(orphans) && size <= MAX_ORPHAN_SIZE)
      ensures orphans == if added then old(orphans)[tx.id := tx] else old(orphans)
      ensures added <==> tx.id !in old(orphans.Keys) && size <= 5000
    {
      if tx.id in orphans {
        return false;
      }
      if size > MAX_ORPHAN_SIZE {
        return false;
      }
      ghost var store, before := orphans, byPrev;
      IndexIs(store, before);
      orphans := orphans[tx.id := tx];
      for i := 0 to |tx.vin|
        invariant orphans == store[tx.id := tx]
        invariant forall p :: IndexAt(byPrev, p) == Spenders(store, p) + if SpendsWithin(tx, i, p) then {tx.id} else {}
        invariant forall p :: p in byPrev ==> byPrev[p] != {}
      {
        var prev := tx.vin[i].hash;
        ghost var was := byPrev;
        byPrev := byPrev[prev := (if prev in byPrev then byPrev[prev] else {}) + {tx.id}];
        forall p ensures IndexAt(byPrev, p) == Spenders(store, p) + if SpendsWithin(tx, i + 1, p) then {tx.id} else {} {
          SpendsNext(tx, i, p);
          assert IndexAt(was, p) == Spenders(store, p) + if SpendsWithin(tx, i, p) then {tx.id} else {};
        }
      }
      forall p ensures IndexAt(byPrev, p) == Spenders(orphans, p) {
        StoredSpenders(store, tx, p);
      }
      IndexIs(orphans, byPrev);
      added := true;
    }

    // Removes a transaction, if it is stored, and every mention of it.
    method EraseOrphanTx(hash: Hash256)
      requires Valid()
      modifies this
      ensures Valid() && orphans == old(orphans) - {hash}
    {
      if hash !in orphans {
        assert orphans - {hash} == orphans;
        return;
      }
      ghost var store, before := orphans, byPrev;
      IndexIs(store, before);
      var tx := orphans[hash];
      for i := 0 to |tx.vin|
        invariant orphans == store
        invariant forall p :: IndexAt(byPrev, p) == Spenders(store, p) - if SpendsWithin(tx, i, p) then {hash} else {}
        invariant forall p :: p in byPrev ==> byPrev[p] != {}
      {
        var prev := tx.vin[i].hash;
        ghost var was := byPrev;
        if prev in byPrev {
          var rest := byPrev[prev] - {hash};
          byPrev := if rest == {} then byPrev - {prev} else byPrev[prev := rest];
        }
        forall p ensures IndexAt(byPrev, p) == Spenders(store, p) - if SpendsWithin(tx, i + 1, p) then {hash} else {} {
          SpendsNext(tx, i, p);
          assert IndexAt(was, p) == Spenders(store, p) - if SpendsWithin(tx, i, p) then {hash} else {};
        }
      }
      forall p ensures IndexAt(byPrev, p) == Spenders(store - {hash}, p) {
        ErasedSpenders(store, hash, p);
      }
      orphans := orphans - {hash};
      IndexIs(orphans, byPrev);
    }

    // Evicts arbitrary transactions until at most that many are left.
    method LimitOrphanTxSize(nMaxOrphans: nat) returns (nEvicted: nat)
      requires Valid()
      modifies this
      ensures Valid() && |orphans| == Min(|old(orphans)|, nMaxOrphans) && nEvicted == |old(orphans)| - |orphans|
      ensures orphans.Keys <= old(orphans.Keys) && forall h :: h in orphans ==> orphans[h] == old(orphans)[h]
    {
      nEvicted := 0;
      while |orphans| > nMaxOrphans
        invariant Valid() && |orphans| + nEvicted == |old(orphans)| && |orphans| >= Min(|old(orphans)|, nMaxOrphans)
        invariant orphans.Keys <= old(orphans.Keys) && forall h :: h in orphans ==> orphans[h] == old(orphans)[h]
        decreases |orphans|
      {
        var hash :| hash in orphans;
        OneFewer(orphans, hash);
        EraseOrphanTx(hash);
        nEvicted := nEvicted + 1;
      }
    }

    // Tries every stored transaction that spends an output of `prev`.
    method TrySpenders(prev: Hash256, run0: Run, pool: MemoryPool, ghost start: set<Hash256>) returns (run: Run)
      requires Valid() && RunOk(run0, start, orphans.Keys) && Reasons(run0, pool, start)
      ensures Reasons(run, pool, start)
      ensures RunOk(run, start, orphans.Keys) && run0.work <= run.work
              && run0.tried + Spenders(orphans, prev) == run.tried
      ensures Left(run, orphans.Keys) == Left(run0, orphans.Keys)
    {
      hide RunOk, Left, Spenders, Elements, Took, Refused, Waits, Reasons;
      IndexIs(orphans, byPrev);
      run := run0;
      var rest := if prev in byPrev then byPrev[prev] else {};
      assert rest == IndexAt(byPrev, prev) == Spenders(orphans, prev);
      StoredOnly(orphans, prev);
      while rest != {}
        invariant rest <= Spenders(orphans, prev) && run.tried + rest == run0.tried + Spenders(orphans, prev)
        invariant Reasons(run, pool, start)
        invariant RunOk(run, start, orphans.Keys) && run0.work <= run.work
                  && Left(run, orphans.Keys) == Left(run0, orphans.Keys)
        decreases |rest|
      {
        var hash :| hash in rest;
        rest := rest - {hash};
        run := TryOne(hash, run, pool, start);
      }
    }

    method TryOne(hash: Hash256, run0: Run, pool: MemoryPool, ghost start: set<Hash256>) returns (run: Run)
      requires hash in orphans && RunOk(run0, start, orphans.Keys) && Reasons(run0, pool, start)
      ensures Reasons(run, pool, start)
      ensures RunOk(run, start, orphans.Keys) && run0.work <= run.work && run.tried == run0.tried + {hash}
      ensures Left(run, orphans.Keys) == Left(run0, orphans.Keys)
    {
      hide RunOk, Left, Elements, Reasons;
      match AcceptToMemoryPool(pool, |run0.offers|, hash, run0.pool) {
        case Accepted =>
          TookKeeps(run0, start, orphans.Keys, hash);
          TookReasons(run0, pool, start, hash);
          run := Took(run0, hash);
        case NotAccepted =>
          RefusedKeeps(run0, start, orphans.Keys, hash);
          RefusedReasons(run0, pool, start, hash);
          run := Refused(run0, hash);
        case MissingInputs =>
          WaitsKeeps(run0, start, orphans.Keys, hash);
          WaitsReasons(run0, pool, start, hash);
          run := Waits(run0, hash);
      }
    }

    // A transaction reached the pool: the stored ones that were waiting for it are tried, then
    // those that were waiting for them, until nothing new is accepted.  Those the pool accepted or
    // refused are erased, those that lack inputs stay.
    method ProcessOrphans(first: Hash256, pool0: set<Hash256>, pool: MemoryPool) returns (run: Run)
      requires Valid() && first in pool0
      modifies this
      ensures Valid() && RunOk(run, pool0, old(orphans.Keys)) && run.work[0] == first
      ensures orphans == old(orphans) - Elements(run.erase) && Reasons(run, pool, pool0)
      ensures forall q :: q in run.work ==> Spenders(old(orphans), q) <= run.tried
    {
      hide RunOk, Left, Spenders, Elements, Valid, Reasons;
      run := Run(pool0, [first], [], {}, []);
      var i := 0;
      ghost var store := orphans;
      FirstRun(first, pool0, store.Keys);
      NoReasons(first, pool, pool0);
      while i < |run.work|
        invariant Valid() && orphans == store && i <= |run.work| && [first] <= run.work && RunOk(run, pool0, store.Keys)
        invariant Reasons(run, pool, pool0)
        invariant forall j :: 0 <= j < i ==> Spenders(store, run.work[j]) <= run.tried
        decreases Left(run, store.Keys) - i
      {
        WorkWithin(run, pool0, store.Keys);
        run := TrySpenders(run.work[i], run, pool, pool0);
        i := i + 1;
      }
      NothingErased(store);
      for k := 0 to |run.erase|
        invariant Valid() && orphans == store - Elements(run.erase[..k])
      {
        ElementsSnoc(run.erase[..k], run.erase[k]);
        assert run.erase[..k + 1] == run.erase[..k] + [run.erase[k]];
        EraseOrphanTx(run.erase[k]);
      }
      assert run.erase[..|run.erase|] == run.erase;
    }
  }

  // ---------------------------------------------------------------- the work queue

  function Elements(s: seq<Hash256>): set<Hash256> { set h | h in s }

  datatype Verdict = Accepted | MissingInputs | NotAccepted

  // What the memory pool says to the n-th transaction offered, given what it holds.
  type MemoryPool = (nat, Hash256, set<Hash256>) -> Verdict

  // It never accepts what it has.
  function AcceptToMemoryPool(pool: MemoryPool, attempt: nat, h: Hash256, held: set<Hash256>): Verdict {
    if h in held then NotAccepted else pool(attempt, h, held)
  }

  // The pool, the two queues, which stored transactions were tried, and every offer made to the pool.
  datatype Run =
    Run(pool: set<Hash256>, work: seq<Hash256>, erase: seq<Hash256>, tried: set<Hash256>, offers: seq<Hash256>)

  function Took(r: Run, h: Hash256): Run {
    Run(r.pool + {h}, r.work + [h], r.erase + [h], r.tried + {h}, r.offers + [h])
  }

  function Refused(r: Run, h: Hash256): Run { Run(r.pool, r.work, r.erase + [h], r.tried + {h}, r.offers + [h]) }
  function Waits(r: Run, h: Hash256): Run { r.(tried := r.tried + {h}, offers := r.offers + [h]) }

  // What the pool holds after those offers.
  function Held(pool: MemoryPool, start: set<Hash256>, offers: seq<Hash256>): set<Hash256> {
    if offers == [] then start
    else
      var n := |offers| - 1;
      var held := Held(pool, start, offers[..n]);
      if AcceptToMemoryPool(pool, n, offers[n], held) == Accepted then held + {offers[n]} else held
  }

  // The pool's answer to the n-th offer.
  function Answer(pool: MemoryPool, start: set<Hash256>, offers: seq<Hash256>, n: nat): Verdict
    requires n < |offers|
  {
    AcceptToMemoryPool(pool, n, offers[n], Held(pool, start, offers[..n]))
  }

  // One of the offers of h was answered so.
  ghost predicate Told(pool: MemoryPool, start: set<Hash256>, offers: seq<Hash256>, h: Hash256, v: Verdict) {
    exists n :: 0 <= n < |offers| && offers[n] == h && Answer(pool, start, offers, n) == v
  }

  // A transaction was tried if it was offered, is queued if it was accepted, and is due for removal if
  // it was accepted or refused.
  ghost predicate Reasons(r: Run, pool: MemoryPool, start: set<Hash256>) {
    && r.work != [] && r.pool == Held(pool, start, r.offers) && r.tried == Elements(r.offers)
    && (forall h :: h in Elements(r.work[1..]) <==> Told(pool, start, r.offers, h, Accepted))
    && (forall h :: h in Elements(r.erase) <==>
          Told(pool, start, r.offers, h, Accepted) || Told(pool, start, r.offers, h, NotAccepted))
  }

  // One more offer adds its own answer to those given before.
  lemma ToldSnoc(pool: MemoryPool, start: set<Hash256>, offers: seq<Hash256>, h: Hash256)
    ensures var answer := AcceptToMemoryPool(pool, |offers|, h, Held(pool, start, offers));
            forall x, v :: Told(pool, start, offers + [h], x, v) <==>
                           Told(pool, start, offers, x, v) || (x == h && v == answer)
  {
    hide Held, AcceptToMemoryPool;
    var more := offers + [h];
    assert more[..|offers|] == offers;
    assert Answer(pool, start, more, |offers|) == AcceptToMemoryPool(pool, |offers|, h, Held(pool, start, offers));
    forall n | 0 <= n < |offers|
      ensures more[n] == offers[n] && Answer(pool, start, more, n) == Answer(pool, start, offers, n)
    {
      assert more[..n] == offers[..n];
    }
    forall x, v ensures Told(pool, start, more, x, v) <==>
                        Told(pool, start, offers, x, v) || (x == h && v == Answer(pool, start, more, |offers|)) {
      if n :| 0 <= n < |offers| && offers[n] == x && Answer(pool, start, offers, n) == v {
        assert more[n] == x && Answer(pool, start, more, n) == v;
      }
    }
  }

  lemma HeldSnoc(pool: MemoryPool, start: set<Hash256>, offers: seq<Hash256>, h: Hash256)
    ensures var held := Held(pool, start, offers);
            Held(pool, start, offers + [h])
            == if AcceptToMemoryPool(pool, |offers|, h, held) == Accepted then held + {h} else held
  {
    assert (offers + [h])[..|offers|] == offers;
  }

  lemma TookReasons(r: Run, pool: MemoryPool, start: set<Hash256>, h: Hash256)
    requires Reasons(r, pool, start) && AcceptToMemoryPool(pool, |r.offers|, h, r.pool) == Accepted
    ensures Reasons(Took(r, h), pool, start)
  {
    hide Told, Elements, Held, AcceptToMemoryPool;
    ToldSnoc(pool, start, r.offers, h);
    HeldSnoc(pool, start, r.offers, h);
    assert (r.work + [h])[1..] == r.work[1..] + [h];
    ElementsSnoc(r.work[1..], h);
    ElementsSnoc(r.erase, h);
    ElementsSnoc(r.offers, h);
  }

  lemma RefusedReasons(r: Run, pool: MemoryPool, start: set<Hash256>, h: Hash256)
    requires Reasons(r, pool, start) && AcceptToMemoryPool(pool, |r.offers|, h, r.pool) == NotAccepted
    ensures Reasons(Refused(r, h), pool, start)
  {
    hide Told, Elements, Held, AcceptToMemoryPool;
    ToldSnoc(pool, start, r.offers, h);
    HeldSnoc(pool, start, r.offers, h);
    ElementsSnoc(r.erase, h);
    ElementsSnoc(r.offers, h);
  }

  lemma WaitsReasons(r: Run, pool: MemoryPool, start: set<Hash256>, h: Hash256)
    requires Reasons(r, pool, start) && AcceptToMemoryPool(pool, |r.offers|, h, r.pool) == MissingInputs
    ensures Reasons(Waits(r, h), pool, start)
  {
    hide Told, Elements, Held, AcceptToMemoryPool;
    ToldSnoc(pool, start, r.offers, h);
    HeldSnoc(pool, start, r.offers, h);
    ElementsSnoc(r.offers, h);
  }

  lemma NoReasons(first: Hash256, pool: MemoryPool, start: set<Hash256>)
    ensures Reasons(Run(start, [first], [], {}, []), pool, start)
  {
    assert Elements([]) == {};
  }

  predicate Distinct(s: seq<Hash256>) { forall i, j :: 0 <= i < j < |s| ==> s[i] != s[j] }

  // Each transaction enters the pool, and so the work queue, at most once; what entered is due for
  // removal, and only what was stored is tried.
  ghost predicate RunOk(r: Run, start: set<Hash256>, stored: set<Hash256>) {
    && r.work != [] && r.work[0] in start && Distinct(r.work)
    && r.pool == start + Elements(r.work) && Elements(r.work[1..]) !! start
    && Elements(r.work[1..]) <= Elements(r.erase) <= r.tried <= stored
  }

  // Queued so far, and what could still be queued.
  ghost function Left(r: Run, stored: set<Hash256>): nat { |stored - r.pool| + |r.work| }

  lemma ElementsSnoc(s: seq<Hash256>, h: Hash256)
    ensures Elements(s + [h]) == Elements(s) + {h}
  {
  }

  lemma WaitsKeeps(r: Run, start: set<Hash256>, stored: set<Hash256>, h: Hash256)
    requires RunOk(r, start, stored) && h in stored
    ensures RunOk(Waits(r, h), start, stored) && Left(Waits(r, h), stored) == Left(r, stored)
  {
    hide Elements, Distinct;
  }

  lemma RefusedKeeps(r: Run, start: set<Hash256>, stored: set<Hash256>, h: Hash256)
    requires RunOk(r, start, stored) && h in stored
    ensures RunOk(Refused(r, h), start, stored) && Left(Refused(r, h), stored) == Left(r, stored)
  {
    ElementsSnoc(r.erase, h);
    hide Elements, Distinct;
  }

  lemma TookKeeps(r: Run, start: set<Hash256>, stored: set<Hash256>, h: Hash256)
    requires RunOk(r, start, stored) && h in stored && h !in r.pool
    ensures RunOk(Took(r, h), start, stored) && Left(Took(r, h), stored) == Left(r, stored)
  {
    ElementsSnoc(r.erase, h);
    ElementsSnoc(r.work, h);
    ElementsSnoc(r.work[1..], h);
    assert (r.work + [h])[1..] == r.work[1..] + [h];
    DistinctSnoc(r.work, h);
    hide Elements, Distinct;
    assert stored - (r.pool + {h}) == stored - r.pool - {h};
  }

  lemma DistinctSnoc(s: seq<Hash256>, h: Hash256)
    requires Distinct(s) && h !in Elements(s)
    ensures Distinct(s + [h])
  {
    forall i | 0 <= i < |s| ensures s[i] != h { assert s[i] in Elements(s); }
  }

  lemma FirstRun(first: Hash256, start: set<Hash256>, stored: set<Hash256>)
    requires first in start
    ensures RunOk(Run(start, [first], [], {}, []), start, stored)
  {
    assert Elements([first]) == {first};
  }

  lemma NothingErased(store: Store)
    ensures store - Elements([]) == store
  {
  }

  lemma StoredOnly(store: Store, prev: Hash256)
    ensures Spenders(store, prev) <= store.Keys
  {
  }

  lemma WorkWithin(r: Run, start: set<Hash256>, stored: set<Hash256>)
    requires RunOk(r, start, stored)
    ensures |r.work| <= Left(r, stored)
  {
  }

  lemma OneFewer(store: Store, h: Hash256)
    requires h in store
    ensures |store - {h}| == |store| - 1
  {
    assert store.Keys == (store - {h}).Keys + {h};
    assert |store| == |store.Keys| && |store - {h}| == |(store - {h}).Keys|;
  }

  lemma SpendsNext(tx: Tx, i: nat, p: Hash256)
    requires i < |tx.vin|
    ensures SpendsWithin(tx, i + 1, p) <==> SpendsWithin(tx, i, p) || tx.vin[i].hash == p
  {
  }

  lemma StoredSpenders(store: Store, tx: Tx, p: Hash256)
    requires tx.id !in store
    ensures Spenders(store[tx.id := tx], p) == Spenders(store, p) + if SpendsWithin(tx, |tx.vin|, p) then {tx.id}
            else {}
  {
    assert Spends(tx, p) <==> SpendsWithin(tx, |tx.vin|, p);
  }

  lemma ErasedSpenders(store: Store, h: Hash256, p: Hash256)
    requires h in store
    ensures Spenders(store - {h}, p) == Spenders(store, p) - if SpendsWithin(store[h], |store[h].vin|, p) then {h}
            else {}
  {
    assert Spends(store[h], p) <==> SpendsWithin(store[h], |store[h].vin|, p);
  }

  // ---------------------------------------------------------------- in other words

  // A stored transaction spends an output of `prev` if one of its inputs names it.
  lemma SpendersExactly(store: Store, prev: Hash256, h: Hash256)
    ensures h in Spenders(store, prev) <==>
              h in store && exists i :: 0 <= i < |store[h].vin| && store[h].vin[i].hash == prev
  {
  }

  // What a run leaves behind: tried is what was offered, queued what was accepted, and due for removal
  // what was answered with anything but that inputs are missing.
  lemma ReasonsExactly(r: Run, pool: MemoryPool, start: set<Hash256>)
    requires Reasons(r, pool, start)
    ensures forall h :: h in r.tried <==> exists n :: 0 <= n < |r.offers| && r.offers[n] == h
    ensures forall h :: h in Elements(r.work[1..]) <==>
              exists n :: 0 <= n < |r.offers| && r.offers[n] == h && Answer(pool, start, r.offers, n) == Accepted
    ensures forall h :: h in Elements(r.erase) <==>
              exists n :: 0 <= n < |r.offers| && r.offers[n] == h && Answer(pool, start, r.offers, n) != MissingInputs
  {
    hide Answer;
    forall h ensures h in Elements(r.erase) <==>
      exists n :: 0 <= n < |r.offers| && r.offers[n] == h && Answer(pool, start, r.offers, n) != MissingInputs
    {
      assert h in Elements(r.erase) <==>
             Told(pool, start, r.offers, h, Accepted) || Told(pool, start, r.offers, h, NotAccepted);
    }
    forall h ensures h in Elements(r.work[1..]) <==>
      exists n :: 0 <= n < |r.offers| && r.offers[n] == h && Answer(pool, start, r.offers, n) == Accepted
    {
      assert h in Elements(r.work[1..]) <==> Told(pool, start, r.offers, h, Accepted);
    }
    assert r.tried == Elements(r.offers);
  }

  // Offered while the pool holds what it had and what it accepted since; never accepted when it is there.
  lemma AnswerExactly(pool: MemoryPool, start: set<Hash256>, offers: seq<Hash256>, n: nat)
    requires n < |offers|
    ensures var held := Held(pool, start, offers[..n]);
            Answer(pool, start, offers, n)
            == if offers[n] in held then NotAccepted else pool(n, offers[n], held)
    ensures Held(pool, start, offers[..0]) == start
    ensures Held(pool, start, offers[..n + 1])
            == if Answer(pool, start, offers, n) == Accepted then Held(pool, start, offers[..n]) + {offers[n]}
               else Held(pool, start, offers[..n])
  {
    assert offers[..n + 1][..n] == offers[..n];
  }
}
