// The limits and the reasons of the block template builder (src/miner.cpp) in numbers: what every
// transaction of a template obeys, and why one that could have gone in was left out.
module TemplateLaws {
  import opened Common
  import opened Ledger
  import opened BlockLaws
  import opened Template

  // The index after the transactions, all entered with the position that stands for the memory pool.
  function PoolIndex(view: Index, txs: seq<Tx>): Option<Index> {
    ApplyTxs(view, txs, seq(|txs|, _ => MEMPOOL_POS))
  }

  lemma PoolIndexNext(view: Index, txs: seq<Tx>)
    requires txs != []
    ensures PoolIndex(view, txs) ==
            match PoolIndex(view, txs[..|txs| - 1])
            case None => None
            case Some(v) => ApplyTx(v, txs[|txs| - 1], MEMPOOL_POS)
  {
    hide ApplyTx;
    var n := |txs| - 1;
    var ps := seq(|txs|, _ => MEMPOOL_POS);
    assert ps[..n] == seq(n, _ => MEMPOOL_POS);
  }

  // A transaction is added exactly when it is below both limits, not dated later than allowed, every
  // input is good, no two are the same, and no more is paid out than comes in.
  lemma AddedExactly(m: Maker, d: Draft, tx: Tx)
    requires !tx.IsCoinBase()
    ensures AddToDraft(m, d, tx).Some? <==>
              && d.size + m.rules.size(tx) < m.maxSize
              && d.sigOps + m.rules.legacySigOps(tx) + m.rules.p2shSigOps(tx) < m.rules.maxSigOps
              && tx.time <= m.latest
              && (forall i :: 0 <= i < |tx.vin| ==> GoodInput(d.view, m.src, m.chain, tx, i, m.rules))
              && (forall i, j :: 0 <= i < j < |tx.vin| ==> tx.vin[i] != tx.vin[j])
              && InSum(d.view, m.src, tx.vin) <= 1_0000_0000_0000_0000
              && (tx.IsCoinStake() || 0 <= InSum(d.view, m.src, tx.vin) - ValueOut(tx) <= 1_0000_0000_0000_0000)
    ensures AddToDraft(m, d, tx).Some? ==>
              var e := AddToDraft(m, d, tx).value;
              && ApplyTx(d.view, tx, MEMPOOL_POS) == Some(e.view)
              && e.size == d.size + m.rules.size(tx)
              && e.sigOps == d.sigOps + m.rules.legacySigOps(tx) + m.rules.p2shSigOps(tx)
              && e.fees == d.fees + InSum(d.view, m.src, tx.vin) - ValueOut(tx)
  {
    hide GoodInput, InSum, ValueIn, ValueOut, Fetched;
    AcceptedExactly(d.view, m.src, m.chain, tx, MEMPOOL_POS, m.rules);
    if Fetched(d.view, m.src, tx.vin) {
      InSumIs(d.view, m.src, tx.vin);
      Applied(d.view, m.src, m.chain, tx, MEMPOOL_POS, m.rules);
    }
  }

  lemma Applied(view: Index, src: Source, chain: seq<BlockPos>, tx: Tx, pos: DiskPos, rules: Rules)
    requires Fetched(view, src, tx.vin) && !tx.IsCoinBase()
    ensures var v := ConnectedInputs(view, src, chain, tx, pos, rules);
            v.Some? ==> ApplyTx(view, tx, pos) == Some(AddTx(v.value, tx, pos))
  {
    hide InputsAcceptable, SpendAll, ValueOut, ValueIn;
  }

  predicate NoCoinBase(txs: seq<Tx>) { forall i :: 0 <= i < |txs| ==> !txs[i].IsCoinBase() }

  // The totals of a draft are the sums over its transactions.
  lemma {:induction false} DraftTotals(m: Maker, view: Index, txs: seq<Tx>)
    requires DraftOf(m, view, txs).Some? && NoCoinBase(txs)
    ensures var d := DraftOf(m, view, txs).value;
            && PoolIndex(view, txs) == Some(d.view)
            && d.size == 1000 + SizeOf(m.rules, txs) && d.sigOps == 100 + SigOpsOf(txs, m.rules)
    ensures txs != [] ==> 1000 + SizeOf(m.rules, txs) < m.maxSize && 100 + SigOpsOf(txs, m.rules) < m.rules.maxSigOps
    ensures forall i :: 0 <= i < |txs| ==> txs[i].time <= m.latest
  {
    hide AddToDraft, ApplyTx;
    if txs == [] {
      assert PoolIndex(view, []) == Some(view);
    } else {
      var init, last := txs[..|txs| - 1], txs[|txs| - 1];
      hide PoolIndex;
      DraftTotals(m, view, init);
      PoolIndexNext(view, txs);
      AddedExactly(m, DraftOf(m, view, init).value, last);
    }
  }

  // A template excuses leaving a transaction out exactly when, with the first k transactions in the
  // block, it would have passed a limit, been dated too late, had a bad input, repeated one, paid out
  // more than it takes in, or was cheap and past the size kept for such.
  lemma ExcusedExactly(m: Maker, view: Index, txs: seq<Tx>, tx: Tx)
    requires DraftOf(m, view, txs).Some? && NoCoinBase(txs) && !tx.IsCoinBase()
    ensures Excused(m, view, txs, tx) <==>
            exists k :: 0 <= k <= |txs| && PoolIndex(view, txs[..k]).Some? &&
              var front, before := txs[..k], PoolIndex(view, txs[..k]).value;
              var inSum := InSum(before, m.src, tx.vin);
              || 1000 + SizeOf(m.rules, front) + m.rules.size(tx) >= m.maxSize
              || 100 + SigOpsOf(front, m.rules) + m.rules.legacySigOps(tx) + m.rules.p2shSigOps(tx) >= m.rules.maxSigOps
              || tx.time > m.latest
              || (exists i :: 0 <= i < |tx.vin| && !GoodInput(before, m.src, m.chain, tx, i, m.rules))
              || (exists i, j :: 0 <= i < j < |tx.vin| && tx.vin[i] == tx.vin[j])
              || inSum > 1_0000_0000_0000_0000
              || (!tx.IsCoinStake() && (inSum < ValueOut(tx) || inSum - ValueOut(tx) > 1_0000_0000_0000_0000))
              || (m.cheap(tx) && 1000 + SizeOf(m.rules, front) + m.rules.size(tx) >= m.minSize)
  {
    hide GoodInput, InSum, ValueOut, SizeOf, SigOpsOf, DraftOf, PoolIndex, AddToDraft;
    forall k | 0 <= k <= |txs|
      ensures PoolIndex(view, txs[..k]).Some?
      ensures Skippable(m, view, txs[..k], tx) <==>
              var front, before := txs[..k], PoolIndex(view, txs[..k]).value;
              var inSum := InSum(before, m.src, tx.vin);
              || 1000 + SizeOf(m.rules, front) + m.rules.size(tx) >= m.maxSize
              || 100 + SigOpsOf(front, m.rules) + m.rules.legacySigOps(tx) + m.rules.p2shSigOps(tx) >= m.rules.maxSigOps
              || tx.time > m.latest
              || (exists i :: 0 <= i < |tx.vin| && !GoodInput(before, m.src, m.chain, tx, i, m.rules))
              || (exists i, j :: 0 <= i < j < |tx.vin| && tx.vin[i] == tx.vin[j])
              || inSum > 1_0000_0000_0000_0000
              || (!tx.IsCoinStake() && (inSum < ValueOut(tx) || inSum - ValueOut(tx) > 1_0000_0000_0000_0000))
              || (m.cheap(tx) && 1000 + SizeOf(m.rules, front) + m.rules.size(tx) >= m.minSize)
    {
      DraftPrefix(m, view, txs, k);
      DraftTotals(m, view, txs[..k]);
      AddedExactly(m, DraftOf(m, view, txs[..k]).value, tx);
    }
  }

  lemma {:induction false} DraftPrefix(m: Maker, view: Index, txs: seq<Tx>, k: nat)
    requires DraftOf(m, view, txs).Some? && k <= |txs|
    ensures DraftOf(m, view, txs[..k]).Some?
  {
    if k < |txs| {
      var init := txs[..|txs| - 1];
      assert init[..k] == txs[..k];
      DraftPrefix(m, view, init, k);
    } else {
      assert txs[..k] == txs;
    }
  }

  // Each transaction of a template is good against those before it.
  lemma ChosenGood(m: Maker, view: Index, txs: seq<Tx>, k: nat)
    requires DraftOf(m, view, txs).Some? && NoCoinBase(txs) && k < |txs|
    ensures PoolIndex(view, txs[..k]).Some?
    ensures var tx, before := txs[k], PoolIndex(view, txs[..k]).value;
            && (forall i :: 0 <= i < |tx.vin| ==> GoodInput(before, m.src, m.chain, tx, i, m.rules))
            && (forall i, j :: 0 <= i < j < |tx.vin| ==> tx.vin[i] != tx.vin[j])
            && (tx.IsCoinStake() || ValueOut(tx) <= InSum(before, m.src, tx.vin))
  {
    hide GoodInput, InSum, ValueOut, AddToDraft, PoolIndex;
    DraftPrefix(m, view, txs, k);
    DraftPrefix(m, view, txs, k + 1);
    DraftTotals(m, view, txs[..k]);
    assert txs[..k + 1][..k] == txs[..k];
    AddedExactly(m, DraftOf(m, view, txs[..k]).value, txs[k]);
  }
}
