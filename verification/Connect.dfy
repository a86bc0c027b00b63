// FetchInputs, ConnectInputs, DisconnectInputs and DisconnectBlock as the loops of
// src/main.cpp, each proved against the functions of module Ledger.
module Connect {
  import opened Common
  import opened Ledger
  import opened TxDb
  import opened BlockTree

  type PrevTxs = map<Hash256, (TxIndex, Tx)>

  // What FetchInputs hands to ConnectInputs: the index entry and the transaction of every input.
  predicate Matches(inputs: PrevTxs, view: Index, src: Source, vin: seq<OutPoint>) {
    forall i :: 0 <= i < |vin| ==>
      && vin[i].hash in inputs && vin[i].hash in view
      && inputs[vin[i].hash].0 == view[vin[i].hash]
      && PrevTx(view, src, vin[i].hash) == Some(inputs[vin[i].hash].1)
  }

  // Entries pending for this block or template hide those of the database.
  method FetchInputs(db: TxDB, pool: Index, src: Source, tx: Tx) returns (ok: bool, inputs: PrevTxs)
    ensures ok <==> tx.IsCoinBase() || Fetched(db.View() + pool, src, tx.vin)
    ensures ok && !tx.IsCoinBase() ==> Matches(inputs, db.View() + pool, src, tx.vin)
  {
    inputs := map[];
    if tx.IsCoinBase() {
      return true, inputs;
    }
    ghost var view := db.View() + pool;
    for i := 0 to |tx.vin|
      invariant forall h :: h in inputs ==>
                  h in view && inputs[h].0 == view[h] && PrevTx(view, src, h) == Some(inputs[h].1)
      invariant forall j :: 0 <= j < i ==> tx.vin[j].hash in inputs
    {
      var h := tx.vin[i].hash;
      if h in inputs {
        continue;
      }
      var entry: Option<TxIndex>;
      if h in pool {
        entry := Some(pool[h]);
      } else {
        entry := db.ReadTxIndex(h);
      }
      if entry.None? {
        assert !InputFetched(view, src, tx.vin[i]);
        return false, inputs;
      }
      var prev: Option<Tx>;
      if entry.value.pos == MEMPOOL_POS {
        prev := if h in src.mempool then Some(src.mempool[h]) else None;
      } else {
        prev := if entry.value.pos in src.disk then Some(src.disk[entry.value.pos]) else None;
      }
      if prev.None? {
        assert !InputFetched(view, src, tx.vin[i]);
        return false, inputs;
      }
      inputs := inputs[h := (entry.value, prev.value)];
    }
    for i := 0 to |tx.vin|
      invariant forall j :: 0 <= j < i ==> InputFetched(view, src, tx.vin[j])
    {
      var op := tx.vin[i];
      if op.n >= |inputs[op.hash].1.vout| || op.n >= |inputs[op.hash].0.spent| {
        assert !InputFetched(view, src, tx.vin[i]);
        return false, inputs;
      }
    }
    ok := true;
  }

  lemma {:induction false} SpendAllPrefix(view: Index, vin: seq<OutPoint>, spender: DiskPos, i: nat)
    requires i <= |vin| && SpendAll(view, vin[..i], spender).None?
    ensures SpendAll(view, vin, spender).None?
    decreases |vin| - i
  {
    if i < |vin| {
      assert vin[..i + 1][..i] == vin[..i];
      SpendAllPrefix(view, vin, spender, i + 1);
    } else {
      assert vin[..i] == vin;
    }
  }

  // The stored positions are those of the ancestors, by distance.
  lemma {:induction false} PositionOfAncestor(b: BlockIndex, a: BlockIndex)
    requires b.Linked() && Reaches(b, a)
    ensures a.Linked() && a.height <= b.height < |b.ChainPositions()|
    ensures b.ChainPositions()[b.height - a.height] == a.at
    decreases b.height
  {
    if b.pprev == null {
    } else if b == a {
      PositionOfAncestor(b.pprev, b.pprev);
    } else {
      PositionOfAncestor(b.pprev, a);
    }
  }

  lemma {:induction false} ChainLength(b: BlockIndex)
    requires b.Linked()
    ensures |b.ChainPositions()| == b.height + 1
    decreases b.height
  {
    if b.pprev != null {
      ChainLength(b.pprev);
    }
  }

  predicate PointsInto(pos: DiskPos, at: BlockPos) { pos.At? && at == BlockPos(pos.file, pos.blockPos) }

  // Walks back from `from` looking for the block an index entry points into.
  method IsConfirmedInNPrevBlocks(pos: DiskPos, from: BlockIndex, maxDepth: nat) returns (found: bool, depth: nat)
    requires from.Linked()
    ensures found <==> ConfirmedWithin(pos, from.ChainPositions(), maxDepth)
    ensures found ==>
              depth < |from.ChainPositions()| && depth < maxDepth && PointsInto(pos, from.ChainPositions()[depth])
    ensures found ==> forall i :: 0 <= i < depth ==> !PointsInto(pos, from.ChainPositions()[i])
  {
    ghost var chain := from.ChainPositions();
    ChainLength(from);
    var pindex: BlockIndex? := from;
    while pindex != null && from.height - pindex.height < maxDepth
      invariant pindex != null ==> Reaches(from, pindex) && pindex.Linked() && pindex.height <= from.height
      invariant forall i ::
                  0 <= i < (if pindex == null then |chain| else from.height - pindex.height)
                  ==> !PointsInto(pos, chain[i])
      decreases if pindex == null then 0 else pindex.height + 1
    {
      PositionOfAncestor(from, pindex);
      if PointsInto(pos, pindex.at) {
        return true, from.height - pindex.height;
      }
      if pindex.pprev != null {
        ReachesTransitive(from, pindex, pindex.pprev);
      }
      pindex := pindex.pprev;
    }
    found, depth := false, 0;
  }

  // The checks on one input, short of the running sum.
  method CheckInput(prev: Tx, pos: DiskPos, n: nat, pindexBlock: BlockIndex, tx: Tx) returns (ok: bool)
    requires n < |prev.vout| && pindexBlock.Linked()
    ensures ok <==> OutputSpendable(prev, pos, n, pindexBlock.ChainPositions(), tx)
    ensures ok <==>
              && (prev.IsCoinBase() || prev.IsCoinStake() ==>
                    forall d :: 0 <= d < 10 && d < |pindexBlock.ChainPositions()| ==>
                      !PointsInto(pos, pindexBlock.ChainPositions()[d]))
              && prev.time <= tx.time && (prev.vout[n].value != 0 || !prev.vout[n].scriptEmpty)
              && 0 <= prev.vout[n].value <= 1_0000_0000_0000_0000
  {
    if prev.IsCoinBase() || prev.IsCoinStake() {
      var immature, depth := IsConfirmedInNPrevBlocks(pos, pindexBlock, TRANSACTION_MATURITY);
      if immature {
        return false;
      }
    }
    if prev.time > tx.time {
      return false;
    }
    if prev.vout[n].IsEmpty() {
      return false;
    }
    ok := MoneyRange(prev.vout[n].value);
  }

  lemma ValueInSnoc(view: Index, src: Source, vin: seq<OutPoint>, i: nat)
    requires i < |vin| && Fetched(view, src, vin)
    ensures Fetched(view, src, vin[..i]) && Fetched(view, src, vin[..i + 1])
    ensures ValueIn(view, src, vin[..i + 1]) == ValueIn(view, src, vin[..i]) + OutputOf(view, src, vin[i]).value
  {
    assert vin[..i + 1][..i] == vin[..i];
  }

  // The inexpensive checks: the first loop of ConnectInputs.
  method CheckInputValues(inputs: PrevTxs, tx: Tx, pindexBlock: BlockIndex, ghost view: Index, ghost src: Source)
    returns (ok: bool, valueIn: int)
    requires Fetched(view, src, tx.vin) && Matches(inputs, view, src, tx.vin) && pindexBlock.Linked()
    ensures ok <==> InputsAcceptable(view, src, pindexBlock.ChainPositions(), tx)
    ensures ok ==> valueIn == ValueIn(view, src, tx.vin)
  {
    hide OutputSpendable, PrevTx, ValueIn, MoneyRange;
    ghost var chain := pindexBlock.ChainPositions();
    valueIn := 0;
    NoInputsNoValue(view, src, tx.vin[..0]);
    for i := 0 to |tx.vin|
      invariant forall j :: 0 <= j < i ==> InputAcceptable(view, src, chain, tx, tx.vin[j])
      invariant forall j :: 0 <= j <= i ==>
                  Fetched(view, src, tx.vin[..j]) && MoneyRange(ValueIn(view, src, tx.vin[..j]))
      invariant valueIn == ValueIn(view, src, tx.vin[..i])
    {
      var op := tx.vin[i];
      var entry, prev := inputs[op.hash].0, inputs[op.hash].1;
      assert InputFetched(view, src, op);
      ValueInSnoc(view, src, tx.vin, i);
      var spendable := CheckInput(prev, entry.pos, op.n, pindexBlock, tx);
      valueIn := valueIn + prev.vout[op.n].value;
      if !spendable {
        assert !InputAcceptable(view, src, chain, tx, tx.vin[i]);
        return false, valueIn;
      }
      if !MoneyRange(valueIn) {
        assert !MoneyRange(ValueIn(view, src, tx.vin[..i + 1]));
        return false, valueIn;
      }
    }
    assert tx.vin[..|tx.vin|] == tx.vin;
    ok := true;
  }

  lemma NoInputsNoValue(view: Index, src: Source, vin: seq<OutPoint>)
    requires vin == []
    ensures Fetched(view, src, vin) && ValueIn(view, src, vin) == 0 && MoneyRange(ValueIn(view, src, vin))
  {
  }

  // The value of a transaction's inputs, from what FetchInputs returned.
  method GetValueMapIn(inputs: PrevTxs, tx: Tx, ghost view: Index, ghost src: Source) returns (v: int)
    requires Fetched(view, src, tx.vin) && Matches(inputs, view, src, tx.vin)
    ensures v == ValueIn(view, src, tx.vin)
  {
    v := 0;
    NoInputsNoValue(view, src, tx.vin[..0]);
    for i := 0 to |tx.vin|
      invariant Fetched(view, src, tx.vin[..i]) && v == ValueIn(view, src, tx.vin[..i])
    {
      ValueInSnoc(view, src, tx.vin, i);
      v := v + inputs[tx.vin[i].hash].1.vout[tx.vin[i].n].value;
    }
    assert tx.vin[..|tx.vin|] == tx.vin;
  }

  // Every previous entry held locally is the current one.
  predicate Current(inputs: PrevTxs, view: Index, vin: seq<OutPoint>) {
    forall j :: 0 <= j < |vin| ==>
      && vin[j].hash in inputs && vin[j].hash in view
      && inputs[vin[j].hash].0 == view[vin[j].hash]
      && vin[j].n < |view[vin[j].hash].spent|
  }

  lemma CurrentAfterSpend(inputs: PrevTxs, view: Index, vin: seq<OutPoint>, op: OutPoint, pos: DiskPos, prev: Tx)
    requires Current(inputs, view, vin) && Spend(view, op, pos).Some?
    ensures Current(inputs[op.hash := (Spend(view, op, pos).value[op.hash], prev)], Spend(view, op, pos).value, vin)
  {
  }

  // The second loop of ConnectInputs: conflicts, signatures, and marking the outputs spent.
  method SpendInputs(inputs0: PrevTxs, pool0: Index, tx: Tx, pos: DiskPos, rules: Rules, ghost base: Index)
    returns (ok: bool, pool: Index)
    requires Current(inputs0, base + pool0, tx.vin)
    ensures ok <==>
              (forall i :: 0 <= i < |tx.vin| ==> rules.signatureValid(tx, i))
              && SpendAll(base + pool0, tx.vin, pos).Some?
    ensures ok ==> SpendAll(base + pool0, tx.vin, pos) == Some(base + pool)
  {
    hide Current, SpendAll;
    ghost var view0: Index := base + pool0;
    ghost var view: Index := view0;
    pool := pool0;
    var inputs: PrevTxs := inputs0;
    SpendNothing(view0, tx.vin[..0], pos);
    for i := 0 to |tx.vin|
      invariant view == base + pool
      invariant SpendAll(view0, tx.vin[..i], pos) == Some(view)
      invariant forall j :: 0 <= j < i ==> rules.signatureValid(tx, j)
      invariant Current(inputs, view, tx.vin)
    {
      var op := tx.vin[i];
      SpendStep(view0, tx.vin, pos, i);
      CurrentAt(inputs, view, tx.vin, i);
      var entry := inputs[op.hash].0;
      if entry.spent[op.n] != NullPos {
        SpendAllPrefix(view0, tx.vin, pos, i + 1);
        return false, pool;
      }
      if !rules.signatureValid(tx, i) {
        return false, pool;
      }
      entry := entry.(spent := entry.spent[op.n := pos]);
      CurrentAfterSpend(inputs, view, tx.vin, op, pos, inputs[op.hash].1);
      inputs := inputs[op.hash := (entry, inputs[op.hash].1)];
      OverlayUpdate(base, pool, op.hash, entry);
      pool := pool[op.hash := entry];
      view := Spend(view, op, pos).value;
    }
    assert tx.vin[..|tx.vin|] == tx.vin;
    ok := true;
  }

  lemma OverlayUpdate(base: Index, pool: Index, h: Hash256, entry: TxIndex)
    ensures base + pool[h := entry] == (base + pool)[h := entry]
  {
  }

  lemma SpendNothing(view: Index, vin: seq<OutPoint>, pos: DiskPos)
    requires vin == []
    ensures SpendAll(view, vin, pos) == Some(view)
  {
  }

  lemma SpendStep(view: Index, vin: seq<OutPoint>, pos: DiskPos, i: nat)
    requires i < |vin| && SpendAll(view, vin[..i], pos).Some?
    ensures SpendAll(view, vin[..i + 1], pos) == Spend(SpendAll(view, vin[..i], pos).value, vin[i], pos)
  {
    assert vin[..i + 1][..i] == vin[..i];
  }

  lemma CurrentAt(inputs: PrevTxs, view: Index, vin: seq<OutPoint>, i: nat)
    requires Current(inputs, view, vin) && i < |vin|
    ensures vin[i].hash in inputs && vin[i].hash in view && inputs[vin[i].hash].0 == view[vin[i].hash]
    ensures vin[i].n < |view[vin[i].hash].spent|
  {
  }

  // Marks the inputs of a transaction spent in the pool of pending entries.
  method ConnectInputs(inputs: PrevTxs, pool0: Index, tx: Tx, pos: DiskPos, pindexBlock: BlockIndex, rules: Rules,
                       ghost base: Index, ghost src: Source)
    returns (ok: bool, pool: Index)
    requires Fetched(base + pool0, src, tx.vin) && Matches(inputs, base + pool0, src, tx.vin) && pindexBlock.Linked()
    ensures var chain := pindexBlock.ChainPositions();
            && (ok <==> ConnectedInputs(base + pool0, src, chain, tx, pos, rules).Some?)
            && (ok ==> Some(base + pool) == ConnectedInputs(base + pool0, src, chain, tx, pos, rules))
  {
    hide InputsAcceptable, SpendAll, ValueIn;
    var valueIn;
    ok, valueIn := CheckInputValues(inputs, tx, pindexBlock, base + pool0, src);
    pool := pool0;
    if !ok {
      return;
    }
    ok, pool := SpendInputs(inputs, pool0, tx, pos, rules, base);
    if !ok {
      return;
    }
    if !tx.IsCoinStake() {
      if valueIn < ValueOut(tx) {
        return false, pool;
      }
      var fee := valueIn - ValueOut(tx);
      if !MoneyRange(fee) {
        return false, pool;
      }
    }
  }

  lemma {:induction false} UnspendAllPrefix(view: Index, vin: seq<OutPoint>, i: nat)
    requires i <= |vin| && UnspendAll(view, vin[..i]).None?
    ensures UnspendAll(view, vin).None?
    decreases |vin| - i
  {
    if i < |vin| {
      assert vin[..i + 1][..i] == vin[..i];
      UnspendAllPrefix(view, vin, i + 1);
    } else {
      assert vin[..i] == vin;
    }
  }

  // Gives back the outputs a transaction spent and removes it from the index.
  method DisconnectInputs(db: TxDB, tx: Tx) returns (ok: bool)
    requires db.batch.Some?
    modifies db
    ensures db.batch.Some? && db.stored == old(db.stored) && db.storedTip == old(db.storedTip)
    ensures ok <==> UndoTx(old(db.View()), tx).Some?
    ensures ok ==> Some(db.View()) == UndoTx(old(db.View()), tx)
    ensures db.ViewTip() == old(db.ViewTip())
  {
    ghost var view := db.View();
    if !tx.IsCoinBase() {
      for i := 0 to |tx.vin|
        invariant db.batch.Some? && db.stored == old(db.stored) && db.storedTip == old(db.storedTip)
        invariant db.ViewTip() == old(db.ViewTip())
        invariant UnspendAll(view, tx.vin[..i]) == Some(db.View())
      {
        var op := tx.vin[i];
        assert tx.vin[..i + 1][..i] == tx.vin[..i];
        var entry := db.ReadTxIndex(op.hash);
        if entry.None? || op.n >= |entry.value.spent| {
          UnspendAllPrefix(view, tx.vin, i + 1);
          return false;
        }
        db.UpdateTxIndex(op.hash, entry.value.(spent := entry.value.spent[op.n := NullPos]));
      }
      assert tx.vin[..|tx.vin|] == tx.vin;
    }
    db.EraseTxIndex(tx.id);
    ok := true;
  }

  // Disconnects the transactions of a block in reverse order.
  method DisconnectBlock(db: TxDB, b: Block) returns (ok: bool)
    requires db.batch.Some?
    modifies db
    ensures db.batch.Some? && db.stored == old(db.stored) && db.storedTip == old(db.storedTip)
    ensures ok <==> UndoTxs(old(db.View()), b.vtx).Some?
    ensures ok ==> Some(db.View()) == UndoTxs(old(db.View()), b.vtx)
    ensures db.ViewTip() == old(db.ViewTip())
  {
    ghost var view := db.View();
    var i := |b.vtx|;
    assert b.vtx[..i] == b.vtx;
    while i > 0
      invariant i <= |b.vtx|
      invariant db.batch.Some? && db.stored == old(db.stored) && db.storedTip == old(db.storedTip)
      invariant db.ViewTip() == old(db.ViewTip())
      invariant UndoTxs(view, b.vtx) == UndoTxs(db.View(), b.vtx[..i])
    {
      i := i - 1;
      assert b.vtx[..i + 1][..i] == b.vtx[..i];
      var done := DisconnectInputs(db, b.vtx[i]);
      if !done {
        return false;
      }
    }
    ok := true;
  }
}
