// Disconnecting is the exact inverse of connecting, and nothing is spent twice.
module LedgerProofs {
  import opened Common
  import opened Ledger

  // Slot n of entry h exists.
  predicate Slot(view: Index, op: OutPoint) {
    op.hash in view && op.n < |view[op.hash].spent|
  }

  function SlotAt(view: Index, op: OutPoint): DiskPos
    requires Slot(view, op)
  {
    view[op.hash].spent[op.n]
  }

  function InputSet(vin: seq<OutPoint>): set<OutPoint> { set op | op in vin }

  lemma InputSetSnoc(vin: seq<OutPoint>)
    requires vin != []
    ensures InputSet(vin) == InputSet(vin[..|vin| - 1]) + {vin[|vin| - 1]}
  {
    assert vin == vin[..|vin| - 1] + [vin[|vin| - 1]];
  }

  // Entry e' of transaction h is e with exactly the slots in `ops` set to `mark`.
  predicate EntryMarked(h: Hash256, e: TxIndex, e': TxIndex, ops: set<OutPoint>, mark: DiskPos) {
    && e'.pos == e.pos && |e'.spent| == |e.spent|
    && forall n :: 0 <= n < |e.spent| ==> e'.spent[n] == if OutPoint(h, n) in ops then mark else e.spent[n]
  }

  // w is v with exactly the slots in `ops` set to `mark`.
  predicate Marked(v: Index, w: Index, ops: set<OutPoint>, mark: DiskPos) {
    && v.Keys == w.Keys
    && (forall op :: op in ops ==> Slot(v, op))
    && (forall h :: h in v ==> EntryMarked(h, v[h], w[h], ops, mark))
  }

  lemma MarkedSlot(v: Index, w: Index, ops: set<OutPoint>, mark: DiskPos, op: OutPoint)
    requires Marked(v, w, ops, mark)
    ensures Slot(v, op) <==> Slot(w, op)
    ensures Slot(v, op) ==> SlotAt(w, op) == if op in ops then mark else SlotAt(v, op)
  {
    if op.hash in v {
      assert EntryMarked(op.hash, v[op.hash], w[op.hash], ops, mark);
      assert op == OutPoint(op.hash, op.n);
    }
  }

  // All slots in `ops` exist and are null.
  predicate AllNull(v: Index, ops: set<OutPoint>) {
    forall op :: op in ops ==> Slot(v, op) && SlotAt(v, op) == NullPos
  }

  lemma MarkNone(v: Index, mark: DiskPos)
    ensures Marked(v, v, {}, mark)
  {
  }

  lemma MarkOneMore(v: Index, w: Index, ops: set<OutPoint>, op: OutPoint, mark: DiskPos, x: Index)
    requires Marked(v, w, ops, mark) && Slot(w, op)
    requires x == w[op.hash := w[op.hash].(spent := w[op.hash].spent[op.n := mark])]
    ensures Marked(v, x, ops + {op}, mark)
  {
    forall h | h in v ensures EntryMarked(h, v[h], x[h], ops + {op}, mark) {
      assert EntryMarked(h, v[h], w[h], ops, mark);
    }
    MarkedSlot(v, w, ops, mark, op);
  }

  lemma {:induction false} SpendAllFacts(v: Index, vin: seq<OutPoint>, spender: DiskPos)
    requires spender != NullPos && SpendAll(v, vin, spender).Some?
    ensures Marked(v, SpendAll(v, vin, spender).value, InputSet(vin), spender)
    ensures AllNull(v, InputSet(vin))
    ensures |InputSet(vin)| == |vin|
  {
    if vin == [] {
      MarkNone(v, spender);
    } else {
      var init, last := vin[..|vin| - 1], vin[|vin| - 1];
      SpendAllFacts(v, init, spender);
      var w := SpendAll(v, init, spender).value;
      MarkedSlot(v, w, InputSet(init), spender, last);
      MarkOneMore(v, w, InputSet(init), last, spender, SpendAll(v, vin, spender).value);
      InputSetSnoc(vin);
    }
  }

  lemma {:induction false} UnspendAllFacts(v: Index, vin: seq<OutPoint>)
    requires forall op :: op in InputSet(vin) ==> Slot(v, op)
    ensures UnspendAll(v, vin).Some?
    ensures Marked(v, UnspendAll(v, vin).value, InputSet(vin), NullPos)
  {
    if vin == [] {
      MarkNone(v, NullPos);
    } else {
      var init, last := vin[..|vin| - 1], vin[|vin| - 1];
      InputSetSnoc(vin);
      UnspendAllFacts(v, init);
      var w := UnspendAll(v, init).value;
      MarkedSlot(v, w, InputSet(init), NullPos, last);
      MarkOneMore(v, w, InputSet(init), last, NullPos, UnspendAll(v, vin).value);
    }
  }

  lemma {:induction false} UnspendAllKeys(v: Index, vin: seq<OutPoint>)
    requires UnspendAll(v, vin).Some?
    ensures UnspendAll(v, vin).value.Keys == v.Keys
  {
    if vin != [] {
      UnspendAllKeys(v, vin[..|vin| - 1]);
    }
  }

  lemma ApplyTxKeys(v: Index, tx: Tx, pos: DiskPos)
    requires pos != NullPos && ApplyTx(v, tx, pos).Some?
    ensures ApplyTx(v, tx, pos).value.Keys == v.Keys + {tx.id}
  {
    SpendAllFacts(v, Inputs(tx), pos);
  }

  lemma MarkedBack(v: Index, w: Index, ops: set<OutPoint>, mark: DiskPos, x: Index)
    requires Marked(v, w, ops, mark) && AllNull(v, ops) && Marked(w, x, ops, NullPos)
    ensures x == v
  {
    forall h | h in v ensures x[h] == v[h] {
      assert EntryMarked(h, v[h], w[h], ops, mark) && EntryMarked(h, w[h], x[h], ops, NullPos);
      forall n | 0 <= n < |v[h].spent| ensures x[h].spent[n] == v[h].spent[n] {
        assert OutPoint(h, n) in ops ==> SlotAt(v, OutPoint(h, n)) == NullPos;
      }
      assert x[h].spent == v[h].spent;
    }
  }

  // Entries whose transaction is not mentioned in `ops` can be dropped on both sides.
  lemma MarkedWithout(v: Index, w: Index, ops: set<OutPoint>, mark: DiskPos, id: Hash256)
    requires Marked(v, w, ops, mark)
    requires forall op :: op in ops ==> op.hash != id
    ensures Marked(v - {id}, w - {id}, ops, mark)
  {
    forall h | h in v - {id} ensures EntryMarked(h, (v - {id})[h], (w - {id})[h], ops, mark) {
      assert EntryMarked(h, v[h], w[h], ops, mark);
    }
  }

  lemma UndoTxAfterApplyTx(v: Index, tx: Tx, pos: DiskPos)
    requires pos != NullPos && ApplyTx(v, tx, pos).Some?
    requires tx.id !in v
    ensures UndoTx(ApplyTx(v, tx, pos).value, tx) == Some(v)
  {
    var ops := InputSet(Inputs(tx));
    var w := SpendAll(v, Inputs(tx), pos).value;
    var w' := AddTx(w, tx, pos);
    SpendAllFacts(v, Inputs(tx), pos);
    forall op | op in ops ensures Slot(w', op) && op.hash != tx.id {
      MarkedSlot(v, w, ops, pos, op);
    }
    UnspendAllFacts(w', Inputs(tx));
    var u := UnspendAll(w', Inputs(tx)).value;
    MarkedWithout(w', u, ops, NullPos, tx.id);
    assert w' - {tx.id} == w;
    MarkedBack(v, w, ops, pos, u - {tx.id});
  }

  function Ids(txs: seq<Tx>): set<Hash256> { set i | 0 <= i < |txs| :: txs[i].id }

  predicate NoNullPos(ps: seq<DiskPos>) { forall i :: 0 <= i < |ps| ==> ps[i] != NullPos }

  lemma {:induction false} ApplyTxsKeys(v: Index, txs: seq<Tx>, ps: seq<DiskPos>)
    requires |txs| == |ps| && NoNullPos(ps) && ApplyTxs(v, txs, ps).Some?
    ensures ApplyTxs(v, txs, ps).value.Keys == v.Keys + Ids(txs)
  {
    if txs != [] {
      var n := |txs| - 1;
      hide ApplyTx, Ids, DistinctIds;
      Prefix(txs);
      ApplyTxsKeys(v, txs[..n], ps[..n]);
      ApplyTxKeys(ApplyTxs(v, txs[..n], ps[..n]).value, txs[n], ps[n]);
    }
  }

  lemma {:induction false} UndoTxsKeys(v: Index, txs: seq<Tx>)
    requires UndoTxs(v, txs).Some?
    ensures UndoTxs(v, txs).value.Keys == v.Keys - Ids(txs)
    decreases |txs|
  {
    if txs != [] {
      var n := |txs| - 1;
      hide UndoTx, Ids, DistinctIds;
      Prefix(txs);
      UndoTxKeys(v, txs[n]);
      UndoTxsKeys(UndoTx(v, txs[n]).value, txs[..n]);
    }
  }

  lemma UndoTxKeys(v: Index, tx: Tx)
    requires UndoTx(v, tx).Some?
    ensures UndoTx(v, tx).value.Keys == v.Keys - {tx.id}
  {
    UnspendAllKeys(v, Inputs(tx));
  }

  lemma {:induction false} UndoTxsAfterApplyTxs(v: Index, txs: seq<Tx>, ps: seq<DiskPos>)
    requires |txs| == |ps| && NoNullPos(ps) && ApplyTxs(v, txs, ps).Some?
    requires Fresh(v, txs)
    ensures UndoTxs(ApplyTxs(v, txs, ps).value, txs) == Some(v)
  {
    if txs != [] {
      var n := |txs| - 1;
      FreshPrefix(v, txs, ps);
      UndoTxAfterApplyTx(ApplyTxs(v, txs[..n], ps[..n]).value, txs[n], ps[n]);
      UndoTxsAfterApplyTxs(v, txs[..n], ps[..n]);
    }
  }

  // Disconnecting a block from the index it was connected to restores that index if and only if
  // no transaction of the block was indexed before.  The ids within a block are distinct because
  // CheckBlock rejects anything else.
  lemma DisconnectRestores(v: Index, b: Block, at: BlockPos, rules: Rules)
    requires CheckBlock(b, rules) && ApplyBlock(v, b, at, rules.size).Some?
    ensures UndoTxs(ApplyBlock(v, b, at, rules.size).value, b.vtx) == Some(v) <==> Ids(b.vtx) !! v.Keys
  {
    var ps := Positions(b, at, rules.size);
    if Ids(b.vtx) !! v.Keys {
      UndoTxsAfterApplyTxs(v, b.vtx, ps);
    } else if UndoTxs(ApplyBlock(v, b, at, rules.size).value, b.vtx).Some? {
      UndoTxsKeys(ApplyBlock(v, b, at, rules.size).value, b.vtx);
    }
  }

  lemma ConnectOneApplies(env: Env, t: Tally, k: nat)
    requires k < |env.block.vtx| && ConnectOne(env, t, k).Some?
    ensures ApplyTx(t.view, env.block.vtx[k], TxPos(env.block, env.at, env.rules.size, k))
            == Some(ConnectOne(env, t, k).value.view)
  {
  }

  // What ConnectBlock does to the index, its checks aside.
  lemma {:induction false} ConnectPrefixApplies(env: Env, view: Index, k: nat)
    requires k <= |env.block.vtx| && ConnectPrefix(env, view, k).Some?
    ensures ApplyTxs(view, env.block.vtx[..k], Positions(env.block, env.at, env.rules.size)[..k])
            == Some(ConnectPrefix(env, view, k).value.view)
  {
    hide ConnectOne, ApplyTx;
    if k > 0 {
      var txs, ps := env.block.vtx, Positions(env.block, env.at, env.rules.size);
      ConnectPrefixApplies(env, view, k - 1);
      ConnectOneApplies(env, ConnectPrefix(env, view, k - 1).value, k - 1);
      assert txs[..k][..k - 1] == txs[..k - 1] && ps[..k][..k - 1] == ps[..k - 1];
    }
  }

  // DisconnectBlock takes the index that a successful ConnectBlock left back to what it was if and
  // only if the block did not connect a transaction that was already indexed.
  lemma ConnectThenDisconnect(env: Env, view: Index, height: nat, tipSupply: int)
    requires Connects(env, view, height, tipSupply)
    ensures var after := ConnectPrefix(env, view, |env.block.vtx|).value.view;
            && ApplyBlock(view, env.block, env.at, env.rules.size) == Some(after)
            && (UndoTxs(after, env.block.vtx) == Some(view) <==> Ids(env.block.vtx) !! view.Keys)
  {
    hide CheckBlock, ConnectPrefix, UndoTxs, Ids;
    var txs, ps := env.block.vtx, Positions(env.block, env.at, env.rules.size);
    ConnectPrefixApplies(env, view, |txs|);
    assert txs[..|txs|] == txs && ps[..|ps|] == ps;
    DisconnectRestores(view, env.block, env.at, env.rules);
  }

  // ---------------------------------------------------------------- no double spend

  // The last transaction of the list that spends an output, if any.
  function SpentBy(txs: seq<Tx>, op: OutPoint): (i: Option<nat>)
    ensures i.Some? ==> i.value < |txs| && op in InputSet(Inputs(txs[i.value]))
  {
    if txs == [] then None
    else
      var n := |txs| - 1;
      if op in InputSet(Inputs(txs[n])) then Some(n) else SpentBy(txs[..n], op)
  }

  // The transaction of the list with a given id, if any.
  function CreatedBy(txs: seq<Tx>, h: Hash256): (i: Option<nat>)
    ensures i.Some? ==> i.value < |txs| && txs[i.value].id == h
    ensures i.None? ==> forall k :: 0 <= k < |txs| ==> txs[k].id != h
  {
    if txs == [] then None
    else
      var n := |txs| - 1;
      if txs[n].id == h then Some(n) else CreatedBy(txs[..n], h)
  }

  lemma Prefix(txs: seq<Tx>)
    requires txs != []
    ensures var n := |txs| - 1;
            && txs == txs[..n] + [txs[n]]
            && Ids(txs) == Ids(txs[..n]) + {txs[n].id}
            && (DistinctIds(txs) ==> txs[n].id !in Ids(txs[..n]))
  {
    var n := |txs| - 1;
    assert forall k :: 0 <= k < n ==> txs[..n][k] == txs[k];
    assert txs[n].id in Ids(txs);
    forall k | 0 <= k < n ensures txs[..n][k].id in Ids(txs) { assert txs[k].id in Ids(txs); }
  }

  predicate Fresh(v: Index, txs: seq<Tx>) { DistinctIds(txs) && Ids(txs) !! v.Keys }

  lemma FreshPrefix(v: Index, txs: seq<Tx>, ps: seq<DiskPos>)
    requires |txs| == |ps| && NoNullPos(ps) && ApplyTxs(v, txs, ps).Some?
    requires Fresh(v, txs) && txs != []
    ensures var n := |txs| - 1;
            && Fresh(v, txs[..n]) && ApplyTxs(v, txs[..n], ps[..n]).Some?
            && txs[n].id !in ApplyTxs(v, txs[..n], ps[..n]).value
            && ApplyTxs(v, txs, ps) == ApplyTx(ApplyTxs(v, txs[..n], ps[..n]).value, txs[n], ps[n])
  {
    Prefix(txs);
    ApplyTxsKeys(v, txs[..|txs| - 1], ps[..|txs| - 1]);
  }

  // One slot of the connected index: it carries the position of the transaction of the block that
  // spent it; otherwise it is as it was, or null if the block created it.
  lemma {:induction false} SlotAfterBlock(v: Index, txs: seq<Tx>, ps: seq<DiskPos>, op: OutPoint)
    requires |txs| == |ps| && NoNullPos(ps) && ApplyTxs(v, txs, ps).Some?
    requires Fresh(v, txs)
    ensures var w := ApplyTxs(v, txs, ps).value;
            && (op.hash in v ==> op.hash in w && w[op.hash].pos == v[op.hash].pos && (Slot(w, op) <==> Slot(v, op)))
            && (op.hash !in v ==> (Slot(w, op) <==>
                  CreatedBy(txs, op.hash).Some? && op.n < |txs[CreatedBy(txs, op.hash).value].vout|))
            && (SpentBy(txs, op).Some? ==> Slot(w, op))
            && (Slot(w, op) ==>
                  SlotAt(w, op) == (if SpentBy(txs, op).Some? then ps[SpentBy(txs, op).value]
                                    else if op.hash in v then SlotAt(v, op) else NullPos))
  {
    if txs != [] {
      var n := |txs| - 1;
      FreshPrefix(v, txs, ps);
      SlotAfterBlock(v, txs[..n], ps[..n], op);
      assert txs[n].id !in v by { ApplyTxsKeys(v, txs[..n], ps[..n]); }
      CreatedEarlier(txs, op.hash);
      SpentEarlier(txs, op);
      hide ApplyTx, ApplyTxs, Slot, CreatedBy, SpentBy, InputSet, Fresh;
      SlotAfterTx(ApplyTxs(v, txs[..n], ps[..n]).value, txs[n], ps[n], op);
    }
  }

  // The same for one transaction.
  lemma SlotAfterTx(v: Index, tx: Tx, p: DiskPos, op: OutPoint)
    requires p != NullPos && tx.id !in v && ApplyTx(v, tx, p).Some?
    ensures var w := ApplyTx(v, tx, p).value;
            && (op in InputSet(Inputs(tx)) ==> Slot(v, op))
            && if op.hash == tx.id then !Slot(v, op) && (Slot(w, op) <==> op.n < |tx.vout|)
                 && (Slot(w, op) ==> SlotAt(w, op) == NullPos)
               else
                 && (op.hash in w <==> op.hash in v) && (op.hash in v ==> w[op.hash].pos == v[op.hash].pos)
                 && (Slot(w, op) <==> Slot(v, op))
                 && (Slot(w, op) ==> SlotAt(w, op) == if op in InputSet(Inputs(tx)) then p else SlotAt(v, op))
  {
    var ops, w := InputSet(Inputs(tx)), SpendAll(v, Inputs(tx), p).value;
    SpendAllFacts(v, Inputs(tx), p);
    MarkedSlot(v, w, ops, p, op);
    hide SpendAll, InputSet;
    if op.hash in v {
      assert EntryMarked(op.hash, v[op.hash], w[op.hash], ops, p);
    }
  }

  lemma CreatedEarlier(txs: seq<Tx>, h: Hash256)
    requires txs != []
    ensures var n := |txs| - 1;
            CreatedBy(txs, h) == if txs[n].id == h then Some(n) else CreatedBy(txs[..n], h)
  {
  }

  lemma SpentEarlier(txs: seq<Tx>, op: OutPoint)
    requires txs != []
    ensures var n := |txs| - 1;
            SpentBy(txs, op) == if op in InputSet(Inputs(txs[n])) then Some(n) else SpentBy(txs[..n], op)
  {
  }

  lemma {:induction false} SpenderIsUnique(v: Index, txs: seq<Tx>, ps: seq<DiskPos>, i: nat, op: OutPoint)
    requires |txs| == |ps| && NoNullPos(ps) && ApplyTxs(v, txs, ps).Some?
    requires Fresh(v, txs)
    requires i < |txs| && op in InputSet(Inputs(txs[i]))
    ensures SpentBy(txs, op) == Some(i)
  {
    var n := |txs| - 1;
    if i < n {
      FreshPrefix(v, txs, ps);
      assert txs[..n][i] == txs[i];
      hide InputSet, Fresh;
      SpenderIsUnique(v, txs[..n], ps[..n], i, op);
      SlotAfterBlock(v, txs[..n], ps[..n], op);
      SpendAllFacts(ApplyTxs(v, txs[..n], ps[..n]).value, Inputs(txs[n]), ps[n]);
    }
  }

  // No output is spent twice within a connected block: not by two transactions, and not by two
  // inputs of one transaction.
  lemma NoDoubleSpend(v: Index, txs: seq<Tx>, ps: seq<DiskPos>, i: nat, j: nat, a: nat, b: nat)
    requires |txs| == |ps| && NoNullPos(ps) && ApplyTxs(v, txs, ps).Some?
    requires Fresh(v, txs)
    requires i < |txs| && a < |Inputs(txs[i])| && j < |txs| && b < |Inputs(txs[j])|
    requires Inputs(txs[i])[a] == Inputs(txs[j])[b]
    ensures i == j && a == b
  {
    SpenderIsUnique(v, txs, ps, i, Inputs(txs[i])[a]);
    SpenderIsUnique(v, txs, ps, j, Inputs(txs[j])[b]);
    InputsDistinct(v, txs, ps, i);
    if a != b {
      RepeatedInput(Inputs(txs[i]), a, b);
    }
  }

  lemma {:induction false} InputsDistinct(v: Index, txs: seq<Tx>, ps: seq<DiskPos>, i: nat)
    requires |txs| == |ps| && NoNullPos(ps) && ApplyTxs(v, txs, ps).Some?
    requires Fresh(v, txs) && i < |txs|
    ensures |InputSet(Inputs(txs[i]))| == |Inputs(txs[i])|
  {
    var n := |txs| - 1;
    FreshPrefix(v, txs, ps);
    hide InputSet, Fresh, Inputs, ApplyTxs, SpendAll;
    if i < n {
      InputsDistinct(v, txs[..n], ps[..n], i);
    } else {
      SpendAllFacts(ApplyTxs(v, txs[..n], ps[..n]).value, Inputs(txs[n]), ps[n]);
    }
  }

  lemma {:induction false} InputSetSize(vin: seq<OutPoint>)
    ensures |InputSet(vin)| <= |vin|
  {
    if vin != [] {
      InputSetSnoc(vin);
      InputSetSize(vin[..|vin| - 1]);
    }
  }

  lemma RepeatedInput(vin: seq<OutPoint>, a: nat, b: nat)
    requires a < |vin| && b < |vin| && a != b && vin[a] == vin[b]
    ensures |InputSet(vin)| < |vin|
  {
    var rest := vin[..a] + vin[a + 1..];
    InputSetSize(rest);
    forall op | op in InputSet(vin) ensures op in InputSet(rest) {
      var k :| 0 <= k < |vin| && vin[k] == op;
      var m := if k == a then b else k;
      assert op == rest[if m < a then m else m - 1];
    }
    assert InputSet(vin) == InputSet(rest);
  }

  // Every output a connected block spends was unspent before it, or is created by an earlier
  // transaction of the same block.
  lemma {:induction false} SpentOutputsExisted(v: Index, txs: seq<Tx>, ps: seq<DiskPos>, i: nat, op: OutPoint)
    requires |txs| == |ps| && NoNullPos(ps) && ApplyTxs(v, txs, ps).Some?
    requires Fresh(v, txs)
    requires i < |txs| && op in InputSet(Inputs(txs[i]))
    ensures if op.hash in v then Slot(v, op) && SlotAt(v, op) == NullPos
            else exists k :: 0 <= k < i && txs[k].id == op.hash && op.n < |txs[k].vout|
  {
    hide ApplyTx, ApplyTxs, InputSet, Fresh, Slot, SlotAt;
    var n := |txs| - 1;
    FreshPrefix(v, txs, ps);
    assert forall k :: 0 <= k < n ==> txs[..n][k] == txs[k];
    if i < n {
      SpentOutputsExisted(v, txs[..n], ps[..n], i, op);
    } else {
      SpendsNull(ApplyTxs(v, txs[..n], ps[..n]).value, txs[n], ps[n], op);
      NullBefore(v, txs[..n], ps[..n], op);
    }
  }

  lemma SpendsNull(v: Index, tx: Tx, p: DiskPos, op: OutPoint)
    requires p != NullPos && ApplyTx(v, tx, p).Some? && op in InputSet(Inputs(tx))
    ensures Slot(v, op) && SlotAt(v, op) == NullPos
  {
    SpendAllFacts(v, Inputs(tx), p);
  }

  // What is unspent after some transactions was unspent before them or made by one of them.
  lemma NullBefore(v: Index, txs: seq<Tx>, ps: seq<DiskPos>, op: OutPoint)
    requires |txs| == |ps| && NoNullPos(ps) && ApplyTxs(v, txs, ps).Some? && Fresh(v, txs)
    requires Slot(ApplyTxs(v, txs, ps).value, op) && SlotAt(ApplyTxs(v, txs, ps).value, op) == NullPos
    ensures if op.hash in v then Slot(v, op) && SlotAt(v, op) == NullPos
            else exists k :: 0 <= k < |txs| && txs[k].id == op.hash && op.n < |txs[k].vout|
  {
    hide ApplyTxs, Fresh, Slot, SlotAt, CreatedBy, SpentBy;
    SlotAfterBlock(v, txs, ps, op);
  }
}
