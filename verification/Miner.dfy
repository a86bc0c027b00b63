// CreateNewBlock (src/miner.cpp): a scheduler that takes transactions of the memory pool in any
// order in which each comes after the pool transactions it spends, and keeps those the draft of
// module Template can take.  Which ready transaction is taken next, and which are passed over for
// their fee, is arbitrary: priorities are floating-point numbers outside the model.
module Miner {
  import opened Common
  import opened Ledger
  import opened LedgerProofs
  import opened TxDb
  import opened BlockTree
  import opened Connect
  import opened Template
  import opened TemplateLaws
  import opened BlockLaws

  // COrphan: a transaction waiting for pool transactions.
  class Orphan {
    const tx: Tx
    var dependsOn: set<Hash256>

    constructor (tx: Tx)
      ensures this.tx == tx && dependsOn == {}
    {
      this.tx, dependsOn := tx, {};
    }
  }

  // What the scheduler reads: the index, the transactions, and which are final at the new height.
  datatype World = World(view: Index, src: Source, final: Tx -> bool)

  predicate Candidate(w: World, tx: Tx) {
    && tx.id in w.src.mempool && w.src.mempool[tx.id] == tx
    && !tx.IsCoinBase() && !tx.IsCoinStake() && w.final(tx)
  }

  // The output can be read through the index.
  predicate Known(w: World, op: OutPoint) {
    && op.hash in w.view && w.view[op.hash].pos in w.src.disk
    && op.n < |w.src.disk[w.view[op.hash].pos].vout|
  }

  // Every input of a candidate is known or comes from the pool.
  predicate Closed(w: World) {
    && (forall h :: h in w.src.mempool ==> w.src.mempool[h].id == h)
    && forall h :: h in w.src.mempool && Candidate(w, w.src.mempool[h]) ==> InputsClosed(w, w.src.mempool[h])
  }

  predicate InputsClosed(w: World, tx: Tx) {
    forall i :: 0 <= i < |tx.vin| ==> Known(w, tx.vin[i]) || tx.vin[i].hash in w.src.mempool
  }

  // The transactions it spends that are not known yet and not among `added`.
  function Missing(w: World, vin: seq<OutPoint>, added: set<Hash256>): set<Hash256> {
    set op | op in vin && !Known(w, op) && op.hash !in added :: op.hash
  }

  type Dependers = map<Hash256, seq<Orphan>>

  // What each orphan still waits for.
  type Waits = map<Orphan, set<Hash256>>

  ghost function WaitsOf(orphans: set<Orphan>): (waits: Waits)
    reads orphans
    ensures waits.Keys == orphans
  {
    map o | o in orphans :: o.dependsOn
  }

  // A transaction waits exactly for what is missing, and is registered with each.
  ghost predicate OrphanOk(w: World, o: Orphan, waits: set<Hash256>, dependers: Dependers, added: set<Hash256>) {
    && Candidate(w, o.tx)
    && waits == Missing(w, o.tx.vin, added)
    && forall h :: h in waits ==> h in dependers && o in dependers[h]
  }

  ghost function Waiting(waits: Waits): set<Orphan> { set o | o in waits && waits[o] != {} }

  ghost function IdsOf(orphans: set<Orphan>): set<Hash256> { set o | o in orphans :: o.tx.id }

  // The ready transactions are candidates, each once, neither waiting nor taken yet.
  ghost predicate Apart(w: World, ready: seq<Tx>, waits: Waits, dependers: Dependers, taken: set<Hash256>) {
    && (forall h, o :: h in dependers && o in dependers[h] ==> o in waits)
    && (forall o, p :: o in waits && p in waits && o.tx.id == p.tx.id ==> o == p)
    && (forall o :: o in Waiting(waits) ==> o.tx.id !in Ids(ready) && o.tx.id !in taken)
    && DistinctIds(ready) && Ids(ready) !! taken
    && (forall i :: 0 <= i < |ready| ==> Candidate(w, ready[i]))
  }

  ghost predicate NothingMissing(w: World, ready: seq<Tx>, added: set<Hash256>) {
    forall i :: 0 <= i < |ready| ==> Missing(w, ready[i].vin, added) == {}
  }

  ghost predicate Schedule(w: World, ready: seq<Tx>, waits: Waits, dependers: Dependers, added: set<Hash256>,
                           taken: set<Hash256>) {
    && Apart(w, ready, waits, dependers, taken) && NothingMissing(w, ready, added)
    && forall o :: o in waits ==> OrphanOk(w, o, waits[o], dependers, added)
  }

  // ---------------------------------------------------------------- missing inputs

  lemma MissingAt(w: World, vin: seq<OutPoint>, added: set<Hash256>, h: Hash256)
    ensures h in Missing(w, vin, added) <==> exists i ::
              0 <= i < |vin| && vin[i].hash == h && !Known(w, vin[i]) && h !in added
  {
    if h in Missing(w, vin, added) {
      var op :| op in vin && !Known(w, op) && op.hash !in added && op.hash == h;
      var i :| 0 <= i < |vin| && vin[i] == op;
    }
    if i :| 0 <= i < |vin| && vin[i].hash == h && !Known(w, vin[i]) && h !in added {
      assert vin[i] in vin;
    }
  }

  lemma MissingSnoc(w: World, vin: seq<OutPoint>, i: nat)
    requires i < |vin|
    ensures Missing(w, vin[..i + 1], {}) == Missing(w, vin[..i], {}) + if Known(w, vin[i]) then {} else {vin[i].hash}
  {
    assert vin[..i + 1] == vin[..i] + [vin[i]];
    forall h ensures h in Missing(w, vin[..i + 1], {}) <==>
      h in Missing(w, vin[..i], {}) || (!Known(w, vin[i]) && h == vin[i].hash) {
      MissingAt(w, vin[..i + 1], {}, h);
      MissingAt(w, vin[..i], {}, h);
      assert forall j :: 0 <= j < i ==> vin[..i][j] == vin[j];
    }
  }

  lemma MissingLess(w: World, vin: seq<OutPoint>, added: set<Hash256>, h: Hash256)
    ensures Missing(w, vin, added + {h}) == Missing(w, vin, added) - {h}
  {
    forall x ensures x in Missing(w, vin, added + {h}) <==> x in Missing(w, vin, added) && x != h {
      MissingAt(w, vin, added + {h}, x);
      MissingAt(w, vin, added, x);
    }
  }

  // ---------------------------------------------------------------- collecting the candidates

  // A previous transaction, if the index leads to it and it has that output.
  method ReadFromDisk(db: TxDB, src: Source, op: OutPoint, ghost w: World) returns (prev: Option<Tx>)
    requires w.view == db.View() && w.src == src
    ensures prev.Some? <==> Known(w, op)
    ensures prev.Some? ==> prev.value == src.disk[w.view[op.hash].pos]
  {
    var entry := db.ReadTxIndex(op.hash);
    if entry.None? || entry.value.pos !in src.disk {
      return None;
    }
    if op.n >= |src.disk[entry.value.pos].vout| {
      return None;
    }
    prev := Some(src.disk[entry.value.pos]);
  }

  // `later` is `dependers` with nothing but `orphan` appended to some lists.
  ghost predicate Extends(dependers: Dependers, later: Dependers, orphan: Orphan?) {
    && (forall h, o :: h in dependers && o in dependers[h] ==> h in later && o in later[h])
    && (forall h, o :: h in later && o in later[h] ==> o == orphan || (h in dependers && o in dependers[h]))
  }

  // Registers a transaction with everything it misses; null if it misses nothing.
  method Depend(db: TxDB, src: Source, tx: Tx, before: Dependers, ghost w: World)
    returns (orphan: Orphan?, dependers: Dependers)
    requires w.view == db.View() && w.src == src && Candidate(w, tx)
    ensures Extends(before, dependers, orphan)
    ensures orphan == null <==> Missing(w, tx.vin, {}) == {}
    ensures orphan != null ==>
              fresh(orphan) && orphan.tx == tx && orphan.dependsOn != {}
              && OrphanOk(w, orphan, orphan.dependsOn, dependers, {})
  {
    orphan, dependers := null, before;
    hide Missing, Known;
    NoInputs(w, tx.vin[..0]);
    for i := 0 to |tx.vin|
      invariant Extends(before, dependers, orphan)
      invariant orphan == null <==> Missing(w, tx.vin[..i], {}) == {}
      invariant orphan != null ==> fresh(orphan) && orphan.tx == tx && orphan.dependsOn == Missing(w, tx.vin[..i], {})
      invariant orphan != null ==> forall h :: h in orphan.dependsOn ==> h in dependers && orphan in dependers[h]
    {
      var op := tx.vin[i];
      MissingSnoc(w, tx.vin, i);
      var prev := ReadFromDisk(db, src, op, w);
      if prev.None? {
        if orphan == null {
          orphan := new Orphan(tx);
        }
        var others := if op.hash in dependers then dependers[op.hash] else [];
        var waiting: Orphan := orphan;
        RegisterExtends(before, dependers, waiting, op.hash);
        dependers := dependers[op.hash := others + [waiting]];
        waiting.dependsOn := waiting.dependsOn + {op.hash};
      }
    }
    assert tx.vin[..|tx.vin|] == tx.vin;
  }

  lemma NoInputs(w: World, vin: seq<OutPoint>)
    requires vin == []
    ensures Missing(w, vin, {}) == {}
  {
  }

  lemma RegisterExtends(before: Dependers, dependers: Dependers, orphan: Orphan, h: Hash256)
    requires Extends(before, dependers, orphan) || Extends(before, dependers, null)
    ensures var others := if h in dependers then dependers[h] else [];
            Extends(before, dependers[h := others + [orphan]], orphan)
  {
  }

  lemma IdsSnoc(txs: seq<Tx>, tx: Tx)
    ensures Ids(txs + [tx]) == Ids(txs) + {tx.id}
  {
    forall h ensures h in Ids(txs + [tx]) <==> h in Ids(txs) || h == tx.id {
      if h == tx.id { assert tx in txs + [tx]; }
      if h in Ids(txs) {
        var t :| t in txs && t.id == h;
        assert t in txs + [tx];
      }
    }
  }

  lemma IdAt(txs: seq<Tx>, i: nat)
    requires i < |txs|
    ensures txs[i].id in Ids(txs)
  {
    assert txs[i] in txs;
  }

  lemma DistinctSnoc(txs: seq<Tx>, tx: Tx)
    requires DistinctIds(txs) && tx.id !in Ids(txs)
    ensures DistinctIds(txs + [tx])
  {
    forall i | 0 <= i < |txs| ensures txs[i].id != tx.id { IdAt(txs, i); }
  }

  lemma IdLeaves(waiting: set<Orphan>, o: Orphan)
    requires o in waiting
    ensures IdsOf(waiting) == IdsOf(waiting - {o}) + {o.tx.id}
  {
    forall h ensures h in IdsOf(waiting) <==> h in IdsOf(waiting - {o}) || h == o.tx.id {
      if h in IdsOf(waiting) {
        var p :| p in waiting && p.tx.id == h;
        assert p == o || p in waiting - {o};
      }
    }
  }

  // Ready and waiting transactions together, as ids and as a number.
  ghost function Pending(ready: seq<Tx>, waits: Waits): set<Hash256> { Ids(ready) + IdsOf(Waiting(waits)) }

  ghost function PendingCount(ready: seq<Tx>, waits: Waits): nat { |ready| + |Waiting(waits)| }

  // A transaction that is neither ready nor known to wait.
  ghost predicate Unseen(tx: Tx, ready: seq<Tx>, orphans: set<Orphan>) {
    tx.id !in Ids(ready) && forall o :: o in orphans ==> o.tx.id != tx.id
  }

  lemma AddOrphan(w: World, ready: seq<Tx>, waits: Waits, known: Dependers, dependers: Dependers, orphan: Orphan,
                  missing: set<Hash256>)
    requires Schedule(w, ready, waits, known, {}, {}) && Extends(known, dependers, orphan) && orphan !in waits
             && missing != {}
    requires OrphanOk(w, orphan, missing, dependers, {}) && Unseen(orphan.tx, ready, waits.Keys)
    ensures Schedule(w, ready, waits[orphan := missing], dependers, {}, {})
    ensures Pending(ready, waits[orphan := missing]) == Pending(ready, waits) + {orphan.tx.id}
  {
    hide Missing, Candidate, Ids, IdsOf, NothingMissing;
    forall o | o in waits ensures OrphanOk(w, o, waits[o], dependers, {}) {
      assert OrphanOk(w, o, waits[o], known, {});
    }
    assert Waiting(waits[orphan := missing]) - {orphan} == Waiting(waits);
    IdLeaves(Waiting(waits[orphan := missing]), orphan);
  }

  lemma AddReady(w: World, ready: seq<Tx>, waits: Waits, known: Dependers, dependers: Dependers, tx: Tx)
    requires Schedule(w, ready, waits, known, {}, {}) && Extends(known, dependers, null)
    requires Candidate(w, tx) && Missing(w, tx.vin, {}) == {} && Unseen(tx, ready, waits.Keys)
    ensures Schedule(w, ready + [tx], waits, dependers, {}, {})
    ensures Pending(ready + [tx], waits) == Pending(ready, waits) + {tx.id}
  {
    hide Missing, Candidate, Ids, IdsOf;
    forall o | o in waits ensures OrphanOk(w, o, waits[o], dependers, {}) {
      assert OrphanOk(w, o, waits[o], known, {});
    }
    IdsSnoc(ready, tx);
    DistinctSnoc(ready, tx);
  }

  // Takes a candidate in: ready at once, or waiting.
  method Enlist(db: TxDB, src: Source, tx: Tx, ready0: seq<Tx>, ghost orphans0: set<Orphan>, known: Dependers,
                ghost w: World)
    returns (ready: seq<Tx>, ghost orphans: set<Orphan>, dependers: Dependers)
    requires w.view == db.View() && w.src == src && Candidate(w, tx)
    requires Schedule(w, ready0, WaitsOf(orphans0), known, {}, {}) && Unseen(tx, ready0, orphans0)
    ensures Schedule(w, ready, WaitsOf(orphans), dependers, {}, {}) && fresh(orphans - orphans0)
    ensures Pending(ready, WaitsOf(orphans)) == Pending(ready0, old(WaitsOf(orphans0))) + {tx.id}
    ensures forall t :: Unseen(t, ready0, orphans0) && t.id != tx.id ==> Unseen(t, ready, orphans)
  {
    hide Schedule, Missing, Extends, OrphanOk, Pending, Unseen, Candidate;
    ready, orphans := ready0, orphans0;
    ghost var waits := WaitsOf(orphans0);
    assert waits.Keys == orphans0;
    var orphan;
    orphan, dependers := Depend(db, src, tx, known, w);
    if orphan != null {
      AddOrphan(w, ready, waits, known, dependers, orphan, orphan.dependsOn);
      UnseenBesideOrphan(ready, orphans, orphan);
      orphans := orphans + {orphan};
      assert WaitsOf(orphans) == waits[orphan := orphan.dependsOn];
    } else {
      AddReady(w, ready, waits, known, dependers, tx);
      UnseenBesideReady(ready, orphans, tx);
      ready := ready + [tx];
      assert WaitsOf(orphans) == waits;
    }
  }

  lemma UnseenBesideOrphan(ready: seq<Tx>, orphans: set<Orphan>, o: Orphan)
    ensures forall t :: Unseen(t, ready, orphans) && t.id != o.tx.id ==> Unseen(t, ready, orphans + {o})
  {
  }

  lemma UnseenBesideReady(ready: seq<Tx>, orphans: set<Orphan>, tx: Tx)
    ensures forall t :: Unseen(t, ready, orphans) && t.id != tx.id ==> Unseen(t, ready + [tx], orphans)
  {
    IdsSnoc(ready, tx);
    hide Ids;
  }

  // Everything in `rest` is unseen, and every other candidate is pending.
  ghost predicate Collected(w: World, rest: set<Hash256>, ready: seq<Tx>, orphans: set<Orphan>, pending: set<Hash256>) {
    && (forall h :: h in w.src.mempool ==> w.src.mempool[h].id == h) && rest <= w.src.mempool.Keys
    && (forall h :: h in rest ==> Unseen(w.src.mempool[h], ready, orphans))
    && (forall h :: h in w.src.mempool && h !in rest && Candidate(w, w.src.mempool[h]) ==> h in pending)
  }

  lemma CollectedNext(w: World, rest: set<Hash256>, ready: seq<Tx>, orphans: set<Orphan>, pending: set<Hash256>,
                      h: Hash256, ready': seq<Tx>, orphans': set<Orphan>, pending': set<Hash256>)
    requires Collected(w, rest, ready, orphans, pending) && h in rest && pending' == pending + {h}
    requires forall t :: Unseen(t, ready, orphans) && t.id != h ==> Unseen(t, ready', orphans')
    ensures Collected(w, rest - {h}, ready', orphans', pending')
  {
    hide Unseen, Candidate;
  }

  lemma NothingCollected(w: World)
    requires Closed(w)
    ensures Collected(w, w.src.mempool.Keys, [], {}, Pending([], WaitsOf({})))
    ensures Schedule(w, [], WaitsOf({}), map[], {}, {})
  {
    hide Known, Candidate;
  }

  lemma CollectedTx(w: World, rest: set<Hash256>, ready: seq<Tx>, orphans: set<Orphan>, pending: set<Hash256>,
                    h: Hash256)
    requires Collected(w, rest, ready, orphans, pending) && h in rest
    ensures h in w.src.mempool && w.src.mempool[h].id == h && Unseen(w.src.mempool[h], ready, orphans)
    ensures !Candidate(w, w.src.mempool[h]) ==> Collected(w, rest - {h}, ready, orphans, pending)
  {
    hide Unseen, Candidate;
  }

  lemma AllCollected(w: World, ready: seq<Tx>, orphans: set<Orphan>, pending: set<Hash256>)
    requires Collected(w, {}, ready, orphans, pending)
    ensures AllPending(w, pending, {})
  {
    hide Unseen, Candidate;
  }

  // Every candidate is ready or waits for the pool transactions it spends.
  method Gather(db: TxDB, src: Source, final: Tx -> bool, ghost w: World)
    returns (ready: seq<Tx>, ghost orphans: set<Orphan>, dependers: Dependers)
    requires w == World(db.View(), src, final) && Closed(w)
    ensures fresh(orphans) && Schedule(w, ready, WaitsOf(orphans), dependers, {}, {})
    ensures AllPending(w, Pending(ready, WaitsOf(orphans)), {})
  {
    hide Schedule, Collected, AllPending, Closed, Unseen, Pending, WaitsOf, Known, Missing;
    ready, orphans, dependers := [], {}, map[];
    var rest := src.mempool.Keys;
    NothingCollected(w);
    while rest != {}
      invariant rest <= src.mempool.Keys && fresh(orphans) && Schedule(w, ready, WaitsOf(orphans), dependers, {}, {})
      invariant Collected(w, rest, ready, orphans, Pending(ready, WaitsOf(orphans)))
      decreases |rest|
    {
      var h :| h in rest;
      var tx := src.mempool[h];
      CollectedTx(w, rest, ready, orphans, Pending(ready, WaitsOf(orphans)), h);
      if !(tx.IsCoinBase() || tx.IsCoinStake() || !final(tx)) {
        ghost var before, waits, seen := ready, WaitsOf(orphans), orphans;
        ready, orphans, dependers := Enlist(db, src, tx, ready, orphans, dependers, w);
        CollectedNext(w, rest, before, seen, Pending(before, waits), h, ready, orphans,
                      Pending(ready, WaitsOf(orphans)));
      }
      rest := rest - {h};
    }
    AllCollected(w, ready, orphans, Pending(ready, WaitsOf(orphans)));
  }

  // ---------------------------------------------------------------- releasing the dependents

  // While transaction h is being reported to its dependents: those in `seen` no longer miss it.
  ghost predicate Reporting(w: World, ready: seq<Tx>, waits: Waits, dependers: Dependers, added: set<Hash256>,
                            taken: set<Hash256>, h: Hash256, seen: set<Orphan>)
  {
    && Apart(w, ready, waits, dependers, taken) && NothingMissing(w, ready, added + {h})
    && forall o :: o in waits ==> OrphanOk(w, o, waits[o], dependers, if o in seen then added + {h} else added)
  }

  lemma ReportStarts(w: World, ready: seq<Tx>, waits: Waits, dependers: Dependers, added: set<Hash256>,
                     taken: set<Hash256>, h: Hash256)
    requires Schedule(w, ready, waits, dependers, added, taken)
    ensures Reporting(w, ready, waits, dependers, added, taken, h, {})
  {
    hide Missing, OrphanOk, Apart;
    forall i | 0 <= i < |ready| ensures Missing(w, ready[i].vin, added + {h}) == {} {
      MissingLess(w, ready[i].vin, added, h);
    }
  }

  lemma ReportEnds(w: World, ready: seq<Tx>, waits: Waits, dependers: Dependers, added: set<Hash256>,
                   taken: set<Hash256>, h: Hash256, seen: set<Orphan>)
    requires Reporting(w, ready, waits, dependers, added, taken, h, seen)
    requires h in dependers ==> forall o :: o in dependers[h] ==> o in seen
    ensures Schedule(w, ready, waits, dependers, added + {h}, taken)
  {
    hide Missing, Apart, NothingMissing;
    forall o | o in waits ensures OrphanOk(w, o, waits[o], dependers, added + {h}) {
      assert OrphanOk(w, o, waits[o], dependers, if o in seen then added + {h} else added);
      MissingLess(w, o.tx.vin, added, h);
    }
  }

  lemma ApartStill(w: World, ready: seq<Tx>, waits: Waits, after: Waits, dependers: Dependers, taken: set<Hash256>)
    requires Apart(w, ready, waits, dependers, taken) && after.Keys == waits.Keys && Waiting(after) == Waiting(waits)
    ensures Apart(w, ready, after, dependers, taken)
  {
    hide Waiting, Ids, DistinctIds, Candidate;
  }

  lemma ApartReady(w: World, ready: seq<Tx>, waits: Waits, after: Waits, dependers: Dependers, taken: set<Hash256>,
                   o: Orphan)
    requires Apart(w, ready, waits, dependers, taken) && after.Keys == waits.Keys && Candidate(w, o.tx)
    requires o in waits && o in Waiting(waits) && Waiting(after) == Waiting(waits) - {o}
             && forall p :: p in Waiting(after) ==> p in after
    ensures Apart(w, ready + [o.tx], after, dependers, taken)
  {
    hide Waiting, Ids, Candidate;
    IdsSnoc(ready, o.tx);
    DistinctSnoc(ready, o.tx);
    hide DistinctIds;
  }

  lemma OrphansReported(w: World, waits: Waits, dependers: Dependers, added: set<Hash256>, h: Hash256,
                        seen: set<Orphan>, o: Orphan)
    requires forall p :: p in waits ==> OrphanOk(w, p, waits[p], dependers, if p in seen then added + {h} else added)
    requires o in waits
    ensures var after := waits[o := waits[o] - {h}];
            forall p :: p in after ==> OrphanOk(w, p, after[p], dependers, if p in seen + {o} then added + {h}
                                                else added)
    ensures waits[o] - {h} == Missing(w, o.tx.vin, added + {h}) && Candidate(w, o.tx)
  {
    hide Missing, Candidate;
    var after := waits[o := waits[o] - {h}];
    assert OrphanOk(w, o, waits[o], dependers, if o in seen then added + {h} else added);
    MissingLess(w, o.tx.vin, added, h);
    assert OrphanOk(w, o, after[o], dependers, added + {h});
    forall p | p in after ensures OrphanOk(w, p, after[p], dependers, if p in seen + {o} then added + {h} else added) {
      assert p in waits && OrphanOk(w, p, waits[p], dependers, if p in seen then added + {h} else added);
    }
  }

  lemma ReadyComplete(w: World, ready: seq<Tx>, tx: Tx, added: set<Hash256>)
    requires NothingMissing(w, ready, added) && Missing(w, tx.vin, added) == {}
    ensures NothingMissing(w, ready + [tx], added)
  {
  }

  // One orphan no longer misses h; if that was all it waited for, it is ready.
  lemma OneReported(w: World, ready: seq<Tx>, waits: Waits, dependers: Dependers, added: set<Hash256>,
                    taken: set<Hash256>, h: Hash256, seen: set<Orphan>, o: Orphan)
    requires Reporting(w, ready, waits, dependers, added, taken, h, seen) && o in waits
    ensures var after := waits[o := waits[o] - {h}];
            if waits[o] != {} && waits[o] - {h} == {}
            then && Reporting(w, ready + [o.tx], after, dependers, added, taken, h, seen + {o})
                 && o in Waiting(waits) && Waiting(after) == Waiting(waits) - {o}
            else Reporting(w, ready, after, dependers, added, taken, h, seen + {o}) && Waiting(after) == Waiting(waits)
  {
    hide OrphanOk, Apart, NothingMissing, Missing;
    var after := waits[o := waits[o] - {h}];
    OrphansReported(w, waits, dependers, added, h, seen, o);
    if waits[o] != {} && waits[o] - {h} == {} {
      assert o in Waiting(waits) && Waiting(after) == Waiting(waits) - {o};
      ApartReady(w, ready, waits, after, dependers, taken, o);
      ReadyComplete(w, ready, o.tx, added + {h});
    } else {
      assert Waiting(after) == Waiting(waits);
      ApartStill(w, ready, waits, after, dependers, taken);
    }
  }

  // The orphan stops waiting for h; if that was all it waited for, it is ready.
  method ReleaseOne(o: Orphan, h: Hash256, ready0: seq<Tx>, ghost orphans: set<Orphan>) returns (ready: seq<Tx>)
    requires o in orphans
    modifies o`dependsOn
    ensures WaitsOf(orphans) == old(WaitsOf(orphans))[o := old(o.dependsOn) - {h}]
    ensures ready == if old(o.dependsOn) != {} && old(o.dependsOn) - {h} == {} then ready0 + [o.tx] else ready0
  {
    ready := ready0;
    ghost var waits := WaitsOf(orphans);
    if o.dependsOn != {} {
      o.dependsOn := o.dependsOn - {h};
      if o.dependsOn == {} {
        ready := ready + [o.tx];
      }
    }
    assert o.dependsOn == waits[o] - {h};
    assert WaitsOf(orphans) == waits[o := waits[o] - {h}];
  }

  lemma PendingMoves(ready: seq<Tx>, waits: Waits, after: Waits, o: Orphan)
    requires o in Waiting(waits) && Waiting(after) == Waiting(waits) - {o}
    ensures Pending(ready + [o.tx], after) == Pending(ready, waits)
            && PendingCount(ready + [o.tx], after) == PendingCount(ready, waits)
  {
    hide Waiting, Ids, IdsOf;
    IdLeaves(Waiting(waits), o);
    IdsSnoc(ready, o.tx);
  }

  // The dependents of h are told that it is in the block.
  method Release(h: Hash256, ready0: seq<Tx>, dependers: Dependers, ghost orphans: set<Orphan>, ghost w: World,
                 ghost added: set<Hash256>, ghost taken: set<Hash256>) returns (ready: seq<Tx>)
    requires Schedule(w, ready0, WaitsOf(orphans), dependers, added, taken)
    modifies orphans
    ensures Schedule(w, ready, WaitsOf(orphans), dependers, added + {h}, taken)
    ensures PendingCount(ready, WaitsOf(orphans)) == PendingCount(ready0, old(WaitsOf(orphans)))
    ensures Pending(ready, WaitsOf(orphans)) == Pending(ready0, old(WaitsOf(orphans)))
  {
    hide *;
    ready := ready0;
    ghost var seen: set<Orphan> := {};
    ReportStarts(w, ready, WaitsOf(orphans), dependers, added, taken, h);
    var list := if h in dependers then dependers[h] else [];
    for i := 0 to |list|
      invariant Reporting(w, ready, WaitsOf(orphans), dependers, added, taken, h, seen)
      invariant forall j :: 0 <= j < i ==> list[j] in seen
      invariant PendingCount(ready, WaitsOf(orphans)) == PendingCount(ready0, old(WaitsOf(orphans)))
      invariant Pending(ready, WaitsOf(orphans)) == Pending(ready0, old(WaitsOf(orphans)))
    {
      DependerKnown(w, ready, WaitsOf(orphans), dependers, added, taken, h, seen, i);
      ready := ReleaseNext(list[i], h, ready, dependers, orphans, w, added, taken, seen);
      seen := seen + {list[i]};
    }
    ReportEnds(w, ready, WaitsOf(orphans), dependers, added, taken, h, seen);
  }

  method ReleaseNext(o: Orphan, h: Hash256, ready0: seq<Tx>, ghost dependers: Dependers, ghost orphans: set<Orphan>,
                     ghost w: World, ghost added: set<Hash256>, ghost taken: set<Hash256>, ghost seen: set<Orphan>)
    returns (ready: seq<Tx>)
    requires Reporting(w, ready0, WaitsOf(orphans), dependers, added, taken, h, seen) && o in orphans
    modifies o`dependsOn
    ensures Reporting(w, ready, WaitsOf(orphans), dependers, added, taken, h, seen + {o})
    ensures PendingCount(ready, WaitsOf(orphans)) == PendingCount(ready0, old(WaitsOf(orphans)))
    ensures Pending(ready, WaitsOf(orphans)) == Pending(ready0, old(WaitsOf(orphans)))
  {
    hide Reporting, Waiting, Pending, PendingCount;
    ghost var waits := WaitsOf(orphans);
    assert waits[o] == o.dependsOn;
    OneReported(w, ready0, waits, dependers, added, taken, h, seen, o);
    SamePending(ready0, waits, h, o);
    hide WaitsOf;
    ready := ReleaseOne(o, h, ready0, orphans);
  }

  lemma SamePending(ready: seq<Tx>, waits: Waits, h: Hash256, o: Orphan)
    requires o in waits
    requires var after := waits[o := waits[o] - {h}];
             if waits[o] != {} && waits[o] - {h} == {}
             then o in Waiting(waits) && Waiting(after) == Waiting(waits) - {o}
             else Waiting(after) == Waiting(waits)
    ensures var after := waits[o := waits[o] - {h}];
            var next := if waits[o] != {} && waits[o] - {h} == {} then ready + [o.tx] else ready;
            Pending(next, after) == Pending(ready, waits) && PendingCount(next, after) == PendingCount(ready, waits)
  {
    hide Waiting, Ids, IdsOf;
    if waits[o] != {} && waits[o] - {h} == {} {
      PendingMoves(ready, waits, waits[o := waits[o] - {h}], o);
    }
  }

  lemma DependerKnown(w: World, ready: seq<Tx>, waits: Waits, dependers: Dependers, added: set<Hash256>,
                      taken: set<Hash256>, h: Hash256, seen: set<Orphan>, i: nat)
    requires Reporting(w, ready, waits, dependers, added, taken, h, seen) && h in dependers && i < |dependers[h]|
    ensures dependers[h][i] in waits.Keys
  {
    assert dependers[h][i] in dependers[h];
  }

  // ---------------------------------------------------------------- taking transactions

  // Ready transactions without the i-th.
  function Rest(ready: seq<Tx>, i: nat): seq<Tx>
    requires i < |ready|
  {
    ready[..i] + ready[i + 1..]
  }

  lemma RestIds(ready: seq<Tx>, i: nat)
    requires i < |ready| && DistinctIds(ready)
    ensures Ids(Rest(ready, i)) == Ids(ready) - {ready[i].id} && DistinctIds(Rest(ready, i))
    ensures forall j :: 0 <= j < |Rest(ready, i)| ==> Rest(ready, i)[j] in ready
  {
    var rest := Rest(ready, i);
    forall j | 0 <= j < |rest|
      ensures rest[j] in ready && rest[j].id != ready[i].id && rest[j] == ready[if j < i then j else j + 1] {
    }
    forall h ensures h in Ids(rest) <==> h in Ids(ready) && h != ready[i].id {
      if h in Ids(ready) && h != ready[i].id {
        var t :| t in ready && t.id == h;
        var k :| 0 <= k < |ready| && ready[k] == t;
        assert rest[if k < i then k else k - 1] == t;
      }
    }
  }

  lemma TakenOne(w: World, ready: seq<Tx>, waits: Waits, dependers: Dependers, added: set<Hash256>, taken: set<Hash256>,
                 i: nat)
    requires Schedule(w, ready, waits, dependers, added, taken) && i < |ready|
    ensures Schedule(w, Rest(ready, i), waits, dependers, added, taken + {ready[i].id})
    ensures PendingCount(Rest(ready, i), waits) == PendingCount(ready, waits) - 1
    ensures Pending(Rest(ready, i), waits) + (taken + {ready[i].id}) == Pending(ready, waits) + taken
    ensures Candidate(w, ready[i]) && ready[i].id !in taken && Missing(w, ready[i].vin, added) == {}
  {
    RestIds(ready, i);
    IdAt(ready, i);
    hide Missing, Candidate, OrphanOk, Ids, Waiting, IdsOf;
    var rest := Rest(ready, i);
    forall j | 0 <= j < |rest| ensures Candidate(w, rest[j]) && Missing(w, rest[j].vin, added) == {} {
      var k :| 0 <= k < |ready| && ready[k] == rest[j];
    }
  }

  // Each transaction comes after every pool transaction it spends.
  ghost predicate ParentsFirst(w: World, txs: seq<Tx>) {
    forall i :: 0 <= i < |txs| ==> Missing(w, txs[i].vin, Ids(txs[..i])) == {}
  }

  lemma ParentsFirstSnoc(w: World, txs: seq<Tx>, tx: Tx)
    requires ParentsFirst(w, txs) && Missing(w, tx.vin, Ids(txs)) == {}
    ensures ParentsFirst(w, txs + [tx])
  {
    var more := txs + [tx];
    hide Missing;
    forall i | 0 <= i < |more| ensures Missing(w, more[i].vin, Ids(more[..i])) == {} {
      assert more[..i] == if i < |txs| then txs[..i] else txs;
    }
  }

  // The usual reading: if transaction j spends an output that is not in the index, and the one it
  // spends is in the list at all, then that one comes earlier.
  lemma ParentsComeFirst(w: World, txs: seq<Tx>, i: nat, j: nat, n: nat)
    requires ParentsFirst(w, txs) && DistinctIds(txs) && i < |txs| && j < |txs| && n < |txs[j].vin|
    requires txs[j].vin[n].hash == txs[i].id && !Known(w, txs[j].vin[n])
    ensures i < j
  {
    var h := txs[i].id;
    MissingAt(w, txs[j].vin, Ids(txs[..j]), h);
    assert h in Ids(txs[..j]);
    var t :| t in txs[..j] && t.id == h;
    var k :| 0 <= k < j && txs[..j][k] == t;
    assert k == i;
  }

  ghost predicate Candidates(w: World, txs: seq<Tx>) {
    forall i :: 0 <= i < |txs| ==> Candidate(w, txs[i])
  }

  // Tries to add one transaction to the block.
  method TryAdd(db: TxDB, src: Source, pool: Index, tx: Tx, rules: Rules, pindexPrev: BlockIndex,
                maxSize: nat, latest: nat, size: nat, sigOps: nat, ghost m: Maker, ghost d: Draft)
    returns (ok: bool, newPool: Index, fee: int, newSize: nat, newSigOps: nat)
    requires pindexPrev.Linked() && m == Maker(src, pindexPrev.ChainPositions(), rules, maxSize, latest, m.minSize,
                                               m.cheap)
    requires d.view == db.View() + pool && d.size == size && d.sigOps == sigOps && !tx.IsCoinBase()
    ensures ok <==> AddToDraft(m, d, tx).Some?
    ensures ok ==> AddToDraft(m, d, tx) == Some(Draft(db.View() + newPool, d.fees + fee, newSize, newSigOps))
  {
    hide ConnectedInputs, InputFetched;
    ok, newPool, fee, newSize, newSigOps := false, pool, 0, size, sigOps;
    if size + rules.size(tx) >= maxSize {
      return;
    }
    var txSigOps := rules.legacySigOps(tx);
    if sigOps + txSigOps >= rules.maxSigOps {
      return;
    }
    if tx.time > latest {
      return;
    }
    var fetched, inputs := FetchInputs(db, pool, src, tx);
    if !fetched {
      return;
    }
    var valueIn := GetValueMapIn(inputs, tx, db.View() + pool, src);
    txSigOps := txSigOps + rules.p2shSigOps(tx);
    if sigOps + txSigOps >= rules.maxSigOps {
      return;
    }
    var connected, pool' := ConnectInputs(inputs, pool, tx, MEMPOOL_POS, pindexPrev, rules, db.View(), src);
    if !connected {
      return;
    }
    var entry := TxIndex(MEMPOOL_POS, NullSlots(|tx.vout|));
    OverlayUpdate(db.View(), pool', tx.id, entry);
    ok, newPool := true, pool'[tx.id := entry];
    fee, newSize, newSigOps := valueIn - ValueOut(tx), size + rules.size(tx), sigOps + txSigOps;
  }

  const MAX_BLOCK_SIZE: nat := 15256128

  function BlockMaxSize(argument: nat): nat { Max(1000, Min(MAX_BLOCK_SIZE - 1000, argument)) }

  // Everything looked at is in the block or had to be left out.
  ghost predicate Accounted(w: World, m: Maker, base: Index, txs: seq<Tx>, taken: set<Hash256>) {
    forall h :: h in taken ==> h in Ids(txs) || (h in w.src.mempool && Excused(m, base, txs, w.src.mempool[h]))
  }

  // Where the loop stands: `txs` are in the block, `taken` were looked at.
  ghost predicate Progress(w: World, m: Maker, base: Index, pool: Index, txs: seq<Tx>, fees: int, size: nat,
                           sigOps: nat, taken: set<Hash256>) {
    && DraftOf(m, base, txs) == Some(Draft(base + pool, fees, size, sigOps))
    && Candidates(w, txs) && DistinctIds(txs) && Ids(txs) <= taken && ParentsFirst(w, txs)
    && Accounted(w, m, base, txs, taken)
  }

  lemma AccountedSnoc(w: World, m: Maker, base: Index, txs: seq<Tx>, taken: set<Hash256>, tx: Tx)
    requires Accounted(w, m, base, txs, taken)
    ensures Accounted(w, m, base, txs + [tx], taken + {tx.id})
  {
    hide Excused;
    IdsSnoc(txs, tx);
    forall h | h in taken && h !in Ids(txs)
      ensures h in w.src.mempool && Excused(m, base, txs + [tx], w.src.mempool[h]) {
      ExcusedStill(m, base, txs, [tx], w.src.mempool[h]);
    }
  }

  lemma DraftSnoc(m: Maker, base: Index, txs: seq<Tx>, tx: Tx)
    requires DraftOf(m, base, txs).Some?
    ensures DraftOf(m, base, txs + [tx]) == AddToDraft(m, DraftOf(m, base, txs).value, tx)
  {
    hide AddToDraft;
    var more := txs + [tx];
    assert more[..|more| - 1] == txs && more[|more| - 1] == tx;
  }

  lemma ProgressSnoc(w: World, m: Maker, base: Index, pool: Index, txs: seq<Tx>, fees: int, size: nat, sigOps: nat,
                     taken: set<Hash256>, tx: Tx, newPool: Index, newFees: int, newSize: nat, newSigOps: nat)
    requires Progress(w, m, base, pool, txs, fees, size, sigOps, taken) && tx.id !in taken && Candidate(w, tx)
    requires Missing(w, tx.vin, Ids(txs)) == {}
    requires AddToDraft(m, Draft(base + pool, fees, size, sigOps), tx)
             == Some(Draft(base + newPool, newFees, newSize, newSigOps))
    ensures Progress(w, m, base, newPool, txs + [tx], newFees, newSize, newSigOps, taken + {tx.id})
  {
    hide AddToDraft, Candidate, Missing, Ids, Accounted, DraftOf, ParentsFirst, DistinctIds;
    AccountedSnoc(w, m, base, txs, taken, tx);
    DraftSnoc(m, base, txs, tx);
    DistinctSnoc(txs, tx);
    IdsSnoc(txs, tx);
    ParentsFirstSnoc(w, txs, tx);
  }

  // Looks at one ready transaction: adds it and releases its dependents, or passes it over.
  method Consider(db: TxDB, src: Source, rules: Rules, pindexPrev: BlockIndex, maxSize: nat, latest: nat, tx: Tx,
                  ready0: seq<Tx>, dependers: Dependers, txs0: seq<Tx>, pool0: Index, fees0: int, size0: nat,
                  sigOps0: nat, ghost orphans: set<Orphan>, ghost w: World, ghost m: Maker, ghost taken: set<Hash256>)
    returns (ready: seq<Tx>, txs: seq<Tx>, pool: Index, fees: int, size: nat, sigOps: nat)
    requires pindexPrev.Linked() && m == Maker(src, pindexPrev.ChainPositions(), rules, maxSize, latest, m.minSize,
                                               m.cheap)
    requires Schedule(w, ready0, WaitsOf(orphans), dependers, Ids(txs0), taken + {tx.id})
    requires Progress(w, m, db.View(), pool0, txs0, fees0, size0, sigOps0, taken)
    requires Candidate(w, tx) && tx.id !in taken && Missing(w, tx.vin, Ids(txs0)) == {}
    modifies orphans
    ensures Schedule(w, ready, WaitsOf(orphans), dependers, Ids(txs), taken + {tx.id})
    ensures Progress(w, m, db.View(), pool, txs, fees, size, sigOps, taken + {tx.id})
    ensures PendingCount(ready, WaitsOf(orphans)) == PendingCount(ready0, old(WaitsOf(orphans)))
    ensures Pending(ready, WaitsOf(orphans)) == Pending(ready0, old(WaitsOf(orphans)))
  {
    hide *;
    ready, txs, pool, fees, size, sigOps := ready0, txs0, pool0, fees0, size0, sigOps0;
    NotCoinBase(w, tx);
    var added, newPool, fee, newSize, newSigOps :=
      TryAdd(db, src, pool, tx, rules, pindexPrev, maxSize, latest, size, sigOps, m,
             Draft(db.View() + pool, fees, size, sigOps));
    if added {
      ProgressSnoc(w, m, db.View(), pool, txs, fees, size, sigOps, taken, tx, newPool, fees + fee, newSize, newSigOps);
      IdsSnoc(txs, tx);
      ready := Release(tx.id, ready, dependers, orphans, w, Ids(txs), taken + {tx.id});
      txs, pool, fees, size, sigOps := txs + [tx], newPool, fees + fee, newSize, newSigOps;
    } else {
      CannotAdd(w, m, db.View(), pool, txs, fees, size, sigOps, taken, tx);
      ProgressSkip(w, m, db.View(), pool, txs, fees, size, sigOps, taken, tx);
    }
  }

  lemma CannotAdd(w: World, m: Maker, base: Index, pool: Index, txs: seq<Tx>, fees: int, size: nat, sigOps: nat,
                  taken: set<Hash256>, tx: Tx)
    requires Progress(w, m, base, pool, txs, fees, size, sigOps, taken)
    requires AddToDraft(m, Draft(base + pool, fees, size, sigOps), tx).None?
    ensures Skippable(m, base, txs, tx)
  {
    hide AddToDraft, DraftOf, Candidates, ParentsFirst, Accounted;
  }

  lemma TooCheap(w: World, m: Maker, base: Index, pool: Index, txs: seq<Tx>, fees: int, size: nat, sigOps: nat,
                 taken: set<Hash256>, tx: Tx)
    requires Progress(w, m, base, pool, txs, fees, size, sigOps, taken)
    requires m.cheap(tx) && size + m.rules.size(tx) >= m.minSize
    ensures Skippable(m, base, txs, tx)
  {
    hide AddToDraft, DraftOf, Candidates, ParentsFirst, Accounted;
  }

  // Looks at every transaction that becomes ready, in an arbitrary order.
  method Collect(db: TxDB, src: Source, final: Tx -> bool, rules: Rules, pindexPrev: BlockIndex, maxSize: nat,
                 latest: nat, minSize: nat, cheap: Tx -> bool, ghost w: World)
    returns (txs: seq<Tx>, fees: int, ghost taken: set<Hash256>)
    requires w == World(db.View(), src, final) && Closed(w) && pindexPrev.Linked()
    ensures var m := Maker(src, pindexPrev.ChainPositions(), rules, maxSize, latest, minSize, cheap);
            DraftOf(m, db.View(), txs).Some? && DraftOf(m, db.View(), txs).value.fees == fees
    ensures Candidates(w, txs) && DistinctIds(txs) && Ids(txs) <= taken && ParentsFirst(w, txs)
    ensures Accounted(w, Maker(src, pindexPrev.ChainPositions(), rules, maxSize, latest, minSize, cheap), db.View(),
                      txs, taken)
    ensures forall h :: h in src.mempool && Candidate(w, src.mempool[h]) ==>
              h in taken || Missing(w, src.mempool[h].vin, Ids(txs)) != {}
  {
    ghost var m := Maker(src, pindexPrev.ChainPositions(), rules, maxSize, latest, minSize, cheap);
    var ready, dependers;
    ghost var orphans;
    ready, orphans, dependers := Gather(db, src, final, w);
    FirstProgress(w, m, db.View());
    NoIds();
    hide *;
    txs, fees, taken := Drain(db, src, rules, pindexPrev, maxSize, latest, minSize, cheap, ready, dependers, orphans, w,
                              m);
  }

  lemma NoIds()
    ensures Ids([]) == {}
  {
  }

  // Every candidate is pending or was looked at.
  ghost predicate AllPending(w: World, pending: set<Hash256>, taken: set<Hash256>) {
    forall h :: h in w.src.mempool && Candidate(w, w.src.mempool[h]) ==> h in pending || h in taken
  }

  lemma PendingStill(w: World, pending: set<Hash256>, taken: set<Hash256>, pending': set<Hash256>, taken': set<Hash256>)
    requires AllPending(w, pending, taken) && pending' + taken' == pending + taken
    ensures AllPending(w, pending', taken')
  {
    forall h | h in w.src.mempool && Candidate(w, w.src.mempool[h]) ensures h in pending' || h in taken' {
      assert h in pending + taken;
    }
  }

  method Drain(db: TxDB, src: Source, rules: Rules, pindexPrev: BlockIndex, maxSize: nat, latest: nat, minSize: nat,
               cheap: Tx -> bool, ready0: seq<Tx>, dependers: Dependers, ghost orphans: set<Orphan>, ghost w: World,
               ghost m: Maker)
    returns (txs: seq<Tx>, fees: int, ghost taken: set<Hash256>)
    requires pindexPrev.Linked() && m == Maker(src, pindexPrev.ChainPositions(), rules, maxSize, latest, minSize, cheap)
             && w.src == src
    requires Schedule(w, ready0, WaitsOf(orphans), dependers, {}, {})
             && AllPending(w, Pending(ready0, WaitsOf(orphans)), {})
    modifies orphans
    ensures DraftOf(m, db.View(), txs).Some? && DraftOf(m, db.View(), txs).value.fees == fees
    ensures Candidates(w, txs) && DistinctIds(txs) && Ids(txs) <= taken && ParentsFirst(w, txs)
    ensures Accounted(w, m, db.View(), txs, taken)
    ensures forall h ::
              h in src.mempool && Candidate(w, src.mempool[h])
              ==> h in taken || Missing(w, src.mempool[h].vin, Ids(txs)) != {}
  {
    FirstProgress(w, m, db.View());
    NoIds();
    hide *;
    var ready := ready0;
    txs, fees, taken := [], 0, {};
    var pool: Index, size: nat, sigOps: nat := map[], RESERVED_SIZE, RESERVED_SIGOPS;
    while ready != []
      invariant Schedule(w, ready, WaitsOf(orphans), dependers, Ids(txs), taken)
      invariant Progress(w, m, db.View(), pool, txs, fees, size, sigOps, taken)
      invariant AllPending(w, Pending(ready, WaitsOf(orphans)), taken)
      decreases PendingCount(ready, WaitsOf(orphans))
    {
      var i :| 0 <= i < |ready|;
      var tx := ready[i];
      ghost var seen, pending := taken, Pending(ready, WaitsOf(orphans));
      TakenOne(w, ready, WaitsOf(orphans), dependers, Ids(txs), taken, i);
      ready := Rest(ready, i);
      taken := taken + {tx.id};
      PendingStill(w, pending, seen, Pending(ready, WaitsOf(orphans)), taken);
      var sortedByFee: bool := *;
      if sortedByFee && cheap(tx) && size + rules.size(tx) >= minSize {
        TooCheap(w, m, db.View(), pool, txs, fees, size, sigOps, seen, tx);
        ProgressSkip(w, m, db.View(), pool, txs, fees, size, sigOps, seen, tx);
      } else {
        ready, txs, pool, fees, size, sigOps :=
          Consider(db, src, rules, pindexPrev, maxSize, latest, tx, ready, dependers, txs, pool, fees, size, sigOps,
                   orphans, w, m, seen);
      }
    }
    NoneForgotten(w, WaitsOf(orphans), dependers, Ids(txs), taken);
    Reached(w, m, db.View(), pool, txs, fees, size, sigOps, taken);
  }

  lemma NotCoinBase(w: World, tx: Tx)
    requires Candidate(w, tx)
    ensures !tx.IsCoinBase()
  {
  }

  lemma FirstProgress(w: World, m: Maker, base: Index)
    ensures var none: Index := map[]; Progress(w, m, base, none, [], 0, RESERVED_SIZE, RESERVED_SIGOPS, {})
  {
    var none: Index := map[];
    assert base + none == base;
  }

  lemma ProgressSkip(w: World, m: Maker, base: Index, pool: Index, txs: seq<Tx>, fees: int, size: nat, sigOps: nat,
                     taken: set<Hash256>, tx: Tx)
    requires Progress(w, m, base, pool, txs, fees, size, sigOps, taken) && Candidate(w, tx)
             && Skippable(m, base, txs, tx)
    ensures Progress(w, m, base, pool, txs, fees, size, sigOps, taken + {tx.id})
  {
    hide Skippable, DraftOf, Ids;
    ExcusedNow(m, base, txs, tx);
  }

  lemma Reached(w: World, m: Maker, base: Index, pool: Index, txs: seq<Tx>, fees: int, size: nat, sigOps: nat,
                taken: set<Hash256>)
    requires Progress(w, m, base, pool, txs, fees, size, sigOps, taken)
    ensures DraftOf(m, base, txs).Some? && DraftOf(m, base, txs).value.fees == fees
    ensures Candidates(w, txs) && DistinctIds(txs) && Ids(txs) <= taken && ParentsFirst(w, txs)
            && Accounted(w, m, base, txs, taken)
  {
  }

  // At the end only transactions that still miss something are pending.
  lemma NoneForgotten(w: World, waits: Waits, dependers: Dependers, added: set<Hash256>, taken: set<Hash256>)
    requires Schedule(w, [], waits, dependers, added, taken) && AllPending(w, Pending([], waits), taken)
    ensures forall h :: h in w.src.mempool && Candidate(w, w.src.mempool[h]) ==>
              h in taken || Missing(w, w.src.mempool[h].vin, added) != {}
  {
    forall h | h in w.src.mempool && Candidate(w, w.src.mempool[h]) && h !in taken
      ensures Missing(w, w.src.mempool[h].vin, added) != {}
    {
      var o :| o in Waiting(waits) && o.tx.id == h;
      assert OrphanOk(w, o, waits[o], dependers, added);
    }
  }

  // The latest transaction time allowed; a proof-of-stake block is bound to its coinbase's time.
  function Latest(fProofOfStake: bool, now: nat, coinbaseTime: nat): nat {
    if fProofOfStake then Min(now, coinbaseTime) else now
  }

  // The limits the template is made under.
  ghost function MakerOn(src: Source, rules: Rules, pindexPrev: BlockIndex, latest: nat, maxSizeArgument: nat,
                         minSizeArgument: nat, cheap: Tx -> bool): Maker
    requires pindexPrev.Linked()
  {
    var maxSize := BlockMaxSize(maxSizeArgument);
    Maker(src, pindexPrev.ChainPositions(), rules, maxSize, latest, Min(maxSize, minSizeArgument), cheap)
  }

  // The block template on top of pindexPrev.  `coinbase` makes the coinbase that pays a value.  A
  // transaction that could go in is left out only if there was a reason while the block grew.  Once
  // stored, a proof-of-work template connects to the index it was made from.
  method CreateNewBlock(db: TxDB, src: Source, final: Tx -> bool, rules: Rules, pindexPrev: BlockIndex, tipSupply: int,
                        fProofOfStake: bool, now: nat, maxSizeArgument: nat, minSizeArgument: nat, cheap: Tx -> bool,
                        coinbase: int -> Tx)
    returns (b: Block, fees: int)
    requires Closed(World(db.View(), src, final)) && pindexPrev.Linked()
    ensures b.vtx != [] && b.vtx[0] == coinbase(if fProofOfStake then 0
                                                else ProofOfWorkReward(pindexPrev.height + 1, tipSupply, fees))
    ensures var m := MakerOn(src, rules, pindexPrev, Latest(fProofOfStake, now, coinbase(0).time), maxSizeArgument,
                             minSizeArgument, cheap);
            && IsTemplate(World(db.View(), src, final), m, b.vtx[1..], fees)
            && (!fProofOfStake ==> Connectable(m, b, b.vtx[1..], db.View(), pindexPrev.height + 1, tipSupply, fees))
    ensures forall i :: 1 <= i < |b.vtx| ==>
              b.vtx[i].time <= now && (fProofOfStake ==> b.vtx[i].time <= coinbase(0).time)
    ensures |b.vtx| > 1 ==>
              && 1000 + SizeOf(rules, b.vtx[1..]) < Max(1000, Min(15255128, maxSizeArgument))
              && 100 + SigOpsOf(b.vtx[1..], rules) < rules.maxSigOps
  {
    hide *;
    ghost var w := World(db.View(), src, final);
    var maxSize, latest := BlockMaxSize(maxSizeArgument), Latest(fProofOfStake, now, coinbase(0).time);
    var minSize := Min(maxSize, minSizeArgument);
    ghost var m := MakerOn(src, rules, pindexPrev, latest, maxSizeArgument, minSizeArgument, cheap);
    MakerIs(src, rules, pindexPrev, latest, maxSizeArgument, minSizeArgument, cheap);
    var txs;
    ghost var taken;
    txs, fees, taken := Collect(db, src, final, rules, pindexPrev, maxSize, latest, minSize, cheap, w);
    IsTemplateOf(w, m, txs, fees, taken);
    var value := 0;
    if !fProofOfStake {
      value := ProofOfWorkReward(pindexPrev.height + 1, tipSupply, fees);
    }
    b := Block([coinbase(value)] + txs);
    assert b.vtx[1..] == txs;
    TemplateConnects(m, b, txs, db.View(), pindexPrev.height + 1, tipSupply, fees);
    SizesAllowed(src, rules, pindexPrev, latest, maxSizeArgument, minSizeArgument, cheap);
    TemplateTimes(w, m, b, fees, fProofOfStake, now, coinbase(0).time);
  }

  lemma MakerIs(src: Source, rules: Rules, pindexPrev: BlockIndex, latest: nat, maxSizeArgument: nat,
                minSizeArgument: nat, cheap: Tx -> bool)
    requires pindexPrev.Linked()
    ensures var maxSize := BlockMaxSize(maxSizeArgument);
            MakerOn(src, rules, pindexPrev, latest, maxSizeArgument, minSizeArgument, cheap)
            == Maker(src, pindexPrev.ChainPositions(), rules, maxSize, latest, Min(maxSize, minSizeArgument), cheap)
  {
  }

  // Distinct final transactions of the pool, parents first, below the size limit, paying the fees
  // counted.  Every other candidate lacks a parent in the block or had to be left out.
  ghost predicate IsTemplate(w: World, m: Maker, txs: seq<Tx>, fees: int) {
    && DraftOf(m, w.view, txs).Some? && DraftOf(m, w.view, txs).value.fees == fees
    && FromPool(w.src, txs) && (forall i :: 0 <= i < |txs| ==> w.final(txs[i])) && ParentsFirst(w, txs)
    && (txs != [] ==> RESERVED_SIZE + SizeOf(m.rules, txs) < m.maxSize)
    && forall h :: h in w.src.mempool && Candidate(w, w.src.mempool[h]) ==>
         h in Ids(txs) || Missing(w, w.src.mempool[h].vin, Ids(txs)) != {} || Excused(m, w.view, txs, w.src.mempool[h])
  }

  // Why a transaction of the pool that could have gone in is not in the template: it is final, its
  // parents are in the block or stored, and with the first k transactions in the block it would have
  // passed a limit, been dated too late, had a bad input, or been cheap and past the size for such.
  lemma LeftOut(w: World, m: Maker, txs: seq<Tx>, fees: int, h: Hash256)
    requires IsTemplate(w, m, txs, fees) && h in w.src.mempool && w.src.mempool[h].id == h && w.final(w.src.mempool[h])
    requires !w.src.mempool[h].IsCoinBase() && !w.src.mempool[h].IsCoinStake()
    requires forall i :: 0 <= i < |txs| ==> txs[i].id != h
    requires forall i :: 0 <= i < |w.src.mempool[h].vin| ==>
               var op := w.src.mempool[h].vin[i];
               || (exists j :: 0 <= j < |txs| && txs[j].id == op.hash)
               || (op.hash in w.view && w.view[op.hash].pos in w.src.disk
                   && op.n < |w.src.disk[w.view[op.hash].pos].vout|)
    ensures exists k :: 0 <= k <= |txs| && PoolIndex(w.view, txs[..k]).Some? &&
              var tx, front, before := w.src.mempool[h], txs[..k], PoolIndex(w.view, txs[..k]).value;
              var inSum := InSum(before, m.src, tx.vin);
              || 1000 + SizeOf(m.rules, front) + m.rules.size(tx) >= m.maxSize
              || 100 + SigOpsOf(front, m.rules) + m.rules.legacySigOps(tx) + m.rules.p2shSigOps(tx) >= m.rules.maxSigOps
              || tx.time > m.latest
              || (exists i :: 0 <= i < |tx.vin| && !GoodInput(before, m.src, m.chain, tx, i, m.rules))
              || (exists i, j :: 0 <= i < j < |tx.vin| && tx.vin[i] == tx.vin[j])
              || inSum > 1_0000_0000_0000_0000
              || inSum < ValueOut(tx) || inSum - ValueOut(tx) > 1_0000_0000_0000_0000
              || (m.cheap(tx) && 1000 + SizeOf(m.rules, front) + m.rules.size(tx) >= m.minSize)
  {
    hide DraftOf, Excused, ParentsFirst, GoodInput, InSum, ValueOut, PoolIndex, SizeOf, SigOpsOf;
    var tx := w.src.mempool[h];
    NoneMissing(w, tx, txs);
    assert Candidate(w, tx) && Excused(m, w.view, txs, tx);
    ExcusedExactly(m, w.view, txs, tx);
  }

  lemma NoneMissing(w: World, tx: Tx, txs: seq<Tx>)
    requires forall i :: 0 <= i < |tx.vin| ==>
               || (exists j :: 0 <= j < |txs| && txs[j].id == tx.vin[i].hash)
               || (tx.vin[i].hash in w.view && w.view[tx.vin[i].hash].pos in w.src.disk
                   && tx.vin[i].n < |w.src.disk[w.view[tx.vin[i].hash].pos].vout|)
    ensures Missing(w, tx.vin, Ids(txs)) == {}
  {
    forall op | op in tx.vin ensures Known(w, op) || op.hash in Ids(txs) {
      var i :| 0 <= i < |tx.vin| && tx.vin[i] == op;
    }
  }

  // The sizes a template is made under: the argument, but no less than 1000 and no more than the
  // largest block less 1000.
  lemma SizesAllowed(src: Source, rules: Rules, pindexPrev: BlockIndex, latest: nat, maxSizeArgument: nat,
                     minSizeArgument: nat, cheap: Tx -> bool)
    requires pindexPrev.Linked()
    ensures var m := MakerOn(src, rules, pindexPrev, latest, maxSizeArgument, minSizeArgument, cheap);
            && m.maxSize == (if maxSizeArgument < 1000 then 1000 else if maxSizeArgument > 15255128 then 15255128
                             else maxSizeArgument)
            && m.minSize == if minSizeArgument < m.maxSize then minSizeArgument else m.maxSize
  {
  }

  // Nothing in a template is dated after the time it was made, nor after its own coinstake's coinbase.
  lemma TemplateTimes(w: World, m: Maker, b: Block, fees: int, fProofOfStake: bool, now: nat, coinbaseTime: nat)
    requires b.vtx != [] && IsTemplate(w, m, b.vtx[1..], fees) && m.latest == Latest(fProofOfStake, now, coinbaseTime)
    ensures forall i :: 1 <= i < |b.vtx| ==> b.vtx[i].time <= now && (fProofOfStake ==> b.vtx[i].time <= coinbaseTime)
    ensures |b.vtx| > 1 ==>
              && 1000 + SizeOf(m.rules, b.vtx[1..]) < m.maxSize
              && 100 + SigOpsOf(b.vtx[1..], m.rules) < m.rules.maxSigOps
  {
    hide DraftOf, Missing, Excused, ParentsFirst, SizeOf, SigOpsOf;
    var txs := b.vtx[1..];
    DraftTotals(m, w.view, txs);
    forall i | 1 <= i < |b.vtx| ensures b.vtx[i].time <= m.latest { assert b.vtx[i] == txs[i - 1]; }
  }

  lemma IsTemplateOf(w: World, m: Maker, txs: seq<Tx>, fees: int, taken: set<Hash256>)
    requires DraftOf(m, w.view, txs).Some? && DraftOf(m, w.view, txs).value.fees == fees
    requires Candidates(w, txs) && DistinctIds(txs) && ParentsFirst(w, txs) && Accounted(w, m, w.view, txs, taken)
    requires forall h :: h in w.src.mempool && Candidate(w, w.src.mempool[h]) ==>
               h in taken || Missing(w, w.src.mempool[h].vin, Ids(txs)) != {}
    ensures IsTemplate(w, m, txs, fees)
  {
    DraftSize(m, w.view, txs);
    hide DraftOf, Missing, Excused, Ids, ParentsFirst;
  }

  // The block is stored, and its coinbase is new and pays no more than it was made for.
  ghost predicate Stored(m: Maker, env: Env, b: Block, txs: seq<Tx>, view: Index, height: nat, tipSupply: int,
                         fees: int) {
    && env.block == b && b.vtx != [] && Setting(m, env, b.vtx[0], txs, view)
    && ValueOut(b.vtx[0]) <= ProofOfWorkReward(height, tipSupply, fees)
  }

  // It passes the checks of ConnectBlock on inputs, values, signature operations and the reward.
  // What is left is the header, and the checks on each transaction alone.
  ghost predicate PassesFrom(env: Env, view: Index, height: nat, tipSupply: int) {
    && env.block.vtx != [] && ConnectPrefix(env, view, |env.block.vtx|).Some?
    && RewardOk(env, ConnectPrefix(env, view, |env.block.vtx|).value, height, tipSupply)
    && (Connects(env, view, height, tipSupply) <==>
          env.rules.otherBlockChecks(env.block) && forall i ::
            0 <= i < |env.block.vtx| ==> CheckTransaction(env.block.vtx[i], env.rules))
  }

  ghost predicate Connectable(m: Maker, b: Block, txs: seq<Tx>, view: Index, height: nat, tipSupply: int, fees: int) {
    forall env :: Stored(m, env, b, txs, view, height, tipSupply, fees) ==> PassesFrom(env, view, height, tipSupply)
  }

  lemma TemplateConnects(m: Maker, b: Block, txs: seq<Tx>, view: Index, height: nat, tipSupply: int, fees: int)
    requires DraftOf(m, view, txs).Some? && DraftOf(m, view, txs).value.fees == fees
    ensures Connectable(m, b, txs, view, height, tipSupply, fees)
  {
    hide DraftOf, CheckBlock, ConnectPrefix, RewardOk, CheckTransaction, ProofOfWorkReward, Setting;
    forall env | Stored(m, env, b, txs, view, height, tipSupply, fees)
      ensures PassesFrom(env, view, height, tipSupply) {
      DraftConnects(m, env, b.vtx[0], txs, view, height, tipSupply);
      DraftChecks(m, env, b.vtx[0], txs, view);
    }
  }
}
