// The money supply is the sum of all unspent outputs, and a block raises it by at most its reward.
module Supply {
  import opened Common
  import opened Ledger
  import opened LedgerProofs

  // ---------------------------------------------------------------- sums over an index

  ghost function SumOver(s: set<Hash256>, f: map<Hash256, int>): int
    requires s <= f.Keys
  {
    if s == {} then 0
    else
      var x :| x in s;
      f[x] + SumOver(s - {x}, f)
  }

  lemma {:induction false} SumOverRemove(s: set<Hash256>, x: Hash256, f: map<Hash256, int>)
    requires x in s && s <= f.Keys
    ensures SumOver(s, f) == f[x] + SumOver(s - {x}, f)
  {
    var y :| y in s && SumOver(s, f) == f[y] + SumOver(s - {y}, f);
    if y != x {
      SumOverRemove(s - {y}, x, f);
      SumOverRemove(s - {x}, y, f);
      assert s - {x} - {y} == s - {y} - {x};
    }
  }

  lemma {:induction false} SumOverSame(s: set<Hash256>, f: map<Hash256, int>, g: map<Hash256, int>)
    requires s <= f.Keys && s <= g.Keys
    requires forall x :: x in s ==> f[x] == g[x]
    ensures SumOver(s, f) == SumOver(s, g)
  {
    if s != {} {
      var x :| x in s;
      SumOverRemove(s, x, f);
      SumOverRemove(s, x, g);
      SumOverSame(s - {x}, f, g);
    }
  }

  // Values of the first n outputs whose spent slot is null.
  function UnspentPrefix(spent: seq<DiskPos>, vout: seq<TxOut>, n: nat): int
    requires n <= |spent| && n <= |vout|
  {
    if n == 0 then 0
    else UnspentPrefix(spent, vout, n - 1) + if spent[n - 1] == NullPos then vout[n - 1].value else 0
  }

  function UnspentOf(h: Hash256, e: TxIndex, src: Source): int {
    var tx := PrevTx(map[h := e], src, h);
    if tx.Some? && |tx.value.vout| == |e.spent| then UnspentPrefix(e.spent, tx.value.vout, |e.spent|) else 0
  }

  function UnspentValues(view: Index, src: Source): map<Hash256, int> {
    map h | h in view :: UnspentOf(h, view[h], src)
  }

  // The sum of all outputs whose vSpent slot is null.
  ghost function TotalUnspent(view: Index, src: Source): int {
    SumOver(view.Keys, UnspentValues(view, src))
  }

  // Every entry points at its own transaction and has one slot per output.
  predicate WellIndexed(view: Index, src: Source) {
    forall h :: h in view ==>
      PrevTx(view, src, h).Some? && PrevTx(view, src, h).value.id == h
      && |PrevTx(view, src, h).value.vout| == |view[h].spent|
  }

  lemma {:induction false} UnspentPrefixSpend(spent: seq<DiskPos>, vout: seq<TxOut>, n: nat, k: nat, spender: DiskPos)
    requires n <= |spent| == |vout| && k < |spent| && spent[k] == NullPos && spender != NullPos
    ensures UnspentPrefix(spent[k := spender], vout, n)
         == UnspentPrefix(spent, vout, n) - if k < n then vout[k].value else 0
  {
    if n > 0 {
      UnspentPrefixSpend(spent, vout, n - 1, k, spender);
    }
  }

  lemma {:induction false} UnspentPrefixFresh(vout: seq<TxOut>, n: nat)
    requires n <= |vout|
    ensures UnspentPrefix(NullSlots(|vout|), vout, n) == SumOuts(vout[..n])
  {
    if n > 0 {
      UnspentPrefixFresh(vout, n - 1);
      assert vout[..n][..n - 1] == vout[..n - 1];
    }
  }

  lemma SpendLowersTotal(v: Index, src: Source, op: OutPoint, spender: DiskPos)
    requires WellIndexed(v, src) && spender != NullPos && Spend(v, op, spender).Some?
    ensures WellIndexed(Spend(v, op, spender).value, src) && InputFetched(v, src, op)
    ensures TotalUnspent(Spend(v, op, spender).value, src) == TotalUnspent(v, src) - OutputOf(v, src, op).value
  {
    var h := op.hash;
    var w := Spend(v, op, spender).value;
    var f, g := UnspentValues(v, src), UnspentValues(w, src);
    forall x | x in w ensures PrevTx(w, src, x) == PrevTx(v, src, x) { }
    assert w.Keys == v.Keys;
    SumOverRemove(v.Keys, h, f);
    SumOverRemove(v.Keys, h, g);
    SumOverSame(v.Keys - {h}, f, g);
    UnspentPrefixSpend(v[h].spent, PrevTx(v, src, h).value.vout, |v[h].spent|, op.n, spender);
  }

  // Reading a previous output does not depend on which slots are spent.
  lemma SameOutputs(v: Index, w: Index, src: Source, op: OutPoint)
    requires op.hash in v && op.hash in w
    requires v[op.hash].pos == w[op.hash].pos && |v[op.hash].spent| == |w[op.hash].spent|
    ensures PrevTx(v, src, op.hash) == PrevTx(w, src, op.hash)
    ensures InputFetched(v, src, op) <==> InputFetched(w, src, op)
  {
  }

  lemma {:induction false} SpendAllLowersTotal(v: Index, src: Source, vin: seq<OutPoint>, spender: DiskPos)
    requires WellIndexed(v, src) && spender != NullPos && SpendAll(v, vin, spender).Some?
    ensures WellIndexed(SpendAll(v, vin, spender).value, src) && Fetched(v, src, vin)
    ensures TotalUnspent(SpendAll(v, vin, spender).value, src) == TotalUnspent(v, src) - ValueIn(v, src, vin)
  {
    if vin != [] {
      var init, last := vin[..|vin| - 1], vin[|vin| - 1];
      SpendAllLowersTotal(v, src, init, spender);
      SpendAllFacts(v, init, spender);
      var w := SpendAll(v, init, spender).value;
      SpendLowersTotal(w, src, last, spender);
      assert EntryMarked(last.hash, v[last.hash], w[last.hash], InputSet(init), spender);
      SameOutputs(v, w, src, last);
      FetchedSnoc(v, src, vin);
    }
  }

  lemma FetchedSnoc(v: Index, src: Source, vin: seq<OutPoint>)
    requires vin != [] && Fetched(v, src, vin[..|vin| - 1]) && InputFetched(v, src, vin[|vin| - 1])
    ensures Fetched(v, src, vin)
  {
    forall i | 0 <= i < |vin| ensures InputFetched(v, src, vin[i]) {
      if i < |vin| - 1 { assert vin[..|vin| - 1][i] == vin[i]; }
    }
  }

  lemma AddTxRaisesTotal(v: Index, src: Source, tx: Tx, pos: DiskPos)
    requires WellIndexed(v, src) && tx.id !in v
    requires pos != MEMPOOL_POS && pos in src.disk && src.disk[pos] == tx
    ensures WellIndexed(AddTx(v, tx, pos), src)
    ensures TotalUnspent(AddTx(v, tx, pos), src) == TotalUnspent(v, src) + ValueOut(tx)
  {
    var w := AddTx(v, tx, pos);
    var f, g := UnspentValues(v, src), UnspentValues(w, src);
    forall x | x in w && x != tx.id ensures PrevTx(w, src, x) == PrevTx(v, src, x) { }
    SumOverRemove(w.Keys, tx.id, g);
    assert w.Keys - {tx.id} == v.Keys;
    SumOverSame(v.Keys, f, g);
    UnspentPrefixFresh(tx.vout, |tx.vout|);
    assert tx.vout[..|tx.vout|] == tx.vout;
  }

  // ---------------------------------------------------------------- conservation over a block

  // The block was written to disk before it is connected.
  predicate BlockOnDisk(src: Source, b: Block, at: BlockPos, size: Tx -> nat) {
    forall k :: 0 <= k < |b.vtx| ==> TxPos(b, at, size, k) in src.disk && src.disk[TxPos(b, at, size, k)] == b.vtx[k]
  }

  lemma {:induction false} OffsetsPositive(b: Block, at: BlockPos, size: Tx -> nat, k: nat)
    requires k <= |b.vtx|
    ensures TxOffset(b, at, size, k) > 80
  {
    if k > 0 {
      OffsetsPositive(b, at, size, k - 1);
    }
  }

  lemma ApplyTxsStep(view: Index, txs: seq<Tx>, ps: seq<DiskPos>, k: nat)
    requires 0 < k <= |txs| == |ps| && NoNullPos(ps)
    requires DistinctIds(txs) && Ids(txs) !! view.Keys
    requires ApplyTxs(view, txs[..k - 1], ps[..k - 1]).Some?
    ensures var v := ApplyTxs(view, txs[..k - 1], ps[..k - 1]).value;
            && txs[k - 1].id !in v
            && ApplyTxs(view, txs[..k], ps[..k]) == ApplyTx(v, txs[k - 1], ps[k - 1])
  {
    assert txs[..k][..k - 1] == txs[..k - 1] && ps[..k][..k - 1] == ps[..k - 1];
    ApplyTxsKeys(view, txs[..k - 1], ps[..k - 1]);
    Prefix(txs[..k]);
    assert txs[k - 1].id in Ids(txs);
  }

  lemma ApplyNothing(view: Index, txs: seq<Tx>, ps: seq<DiskPos>)
    requires txs == [] && ps == []
    ensures ApplyTxs(view, txs, ps) == Some(view)
  {
  }

  lemma ConnectOneConserves(env: Env, t: Tally, k: nat)
    requires k < |env.block.vtx| && ConnectOne(env, t, k).Some?
    requires WellIndexed(t.view, env.src) && BlockOnDisk(env.src, env.block, env.at, env.rules.size)
    requires env.block.vtx[k].id !in t.view
    ensures var t' := ConnectOne(env, t, k).value;
            && ApplyTx(t.view, env.block.vtx[k], TxPos(env.block, env.at, env.rules.size, k)) == Some(t'.view)
            && WellIndexed(t'.view, env.src)
            && TotalUnspent(t'.view, env.src) - TotalUnspent(t.view, env.src)
               == (t'.valueOut - t'.valueIn) - (t.valueOut - t.valueIn)
  {
    var tx, pos := env.block.vtx[k], TxPos(env.block, env.at, env.rules.size, k);
    OffsetsPositive(env.block, env.at, env.rules.size, k);
    if tx.IsCoinBase() {
      AddTxRaisesTotal(t.view, env.src, tx, pos);
    } else {
      SpendAllFacts(t.view, tx.vin, pos);
      SpendAllLowersTotal(t.view, env.src, tx.vin, pos);
      AddTxRaisesTotal(SpendAll(t.view, tx.vin, pos).value, env.src, tx, pos);
    }
  }

  // ConnectPrefix has exactly the index effect of ApplyTxs, and its totals account for every
  // change of the money supply.
  lemma {:induction false} ConnectPrefixConserves(env: Env, view: Index, k: nat)
    requires k <= |env.block.vtx| && ConnectPrefix(env, view, k).Some?
    requires WellIndexed(view, env.src) && BlockOnDisk(env.src, env.block, env.at, env.rules.size)
    requires DistinctIds(env.block.vtx) && Ids(env.block.vtx) !! view.Keys
    ensures var t := ConnectPrefix(env, view, k).value;
            && ApplyTxs(view, env.block.vtx[..k], Positions(env.block, env.at, env.rules.size)[..k]) == Some(t.view)
            && WellIndexed(t.view, env.src)
            && TotalUnspent(t.view, env.src) == TotalUnspent(view, env.src) + t.valueOut - t.valueIn
  {
    hide ConnectOne, ApplyTxs, ApplyTx, TotalUnspent, WellIndexed, BlockOnDisk, Ids, DistinctIds;
    if k == 0 {
      ApplyNothing(view, env.block.vtx[..0], Positions(env.block, env.at, env.rules.size)[..0]);
    } else {
      ConnectPrefixConserves(env, view, k - 1);
      ApplyTxsStep(view, env.block.vtx, Positions(env.block, env.at, env.rules.size), k);
      ConnectOneConserves(env, ConnectPrefix(env, view, k - 1).value, k - 1);
    }
  }

  // ---------------------------------------------------------------- the reward bounds the increase

  predicate NoCoinStake(b: Block) { forall i :: 0 <= i < |b.vtx| ==> !b.vtx[i].IsCoinStake() }

  // A proof-of-stake block, whose one coinstake ConnectBlock checks, or a block without coinstake.
  predicate RegularMint(b: Block) { b.IsProofOfStake() || NoCoinStake(b) }

  predicate NetIs(env: Env, t: Tally, k: nat)
    requires k <= |env.block.vtx|
  {
    && t.valueOut - t.valueIn == (if k > 0 then ValueOut(env.block.vtx[0]) else 0) + t.stake - t.fees
    && (k <= 1 || !env.block.IsProofOfStake() ==> t.stake == 0)
  }

  lemma NetValueOne(env: Env, t: Tally, k: nat)
    requires k < |env.block.vtx| && ConnectOne(env, t, k).Some? && NetIs(env, t, k)
    requires CheckBlock(env.block, env.rules)
    requires RegularMint(env.block)
    ensures NetIs(env, ConnectOne(env, t, k).value, k + 1)
  {
  }

  // For the first k transactions, the net value created is the coinbase, plus the stake, minus the fees.
  lemma {:induction false} NetValue(env: Env, view: Index, k: nat)
    requires k <= |env.block.vtx| && ConnectPrefix(env, view, k).Some?
    requires CheckBlock(env.block, env.rules)
    requires RegularMint(env.block)
    ensures NetIs(env, ConnectPrefix(env, view, k).value, k)
  {
    hide ConnectOne;
    if k > 0 {
      NetValue(env, view, k - 1);
      NetValueOne(env, ConnectPrefix(env, view, k - 1).value, k - 1);
    }
  }

  lemma {:induction false} HalveNonNegative(v: int, n: nat)
    requires v >= 0
    ensures 0 <= Halve(v, n) <= v
  {
    if n > 0 {
      HalveNonNegative(v, n - 1);
    }
  }

  // The reward functions are linear in the fees, so the reward at zero fees is what may be created.
  lemma RewardAtZeroFees(b: Block, height: nat, tipSupply: int, fees: int)
    ensures BlockReward(b, height, tipSupply, fees) == BlockReward(b, height, tipSupply, 0) + fees
    ensures 0 <= BlockReward(b, height, tipSupply, 0) <= RESERVE_REWARD
  {
    HalveNonNegative(RESERVE_REWARD, height / 210000);
    HalveNonNegative(STANDARD_REWARD, height / 210000);
  }

  // A connected block raises the sum of unspent outputs by at most its reward at zero fees.
  lemma IncreaseBoundedByReward(env: Env, view: Index, height: nat, tipSupply: int)
    requires Connects(env, view, height, tipSupply)
    requires WellIndexed(view, env.src) && BlockOnDisk(env.src, env.block, env.at, env.rules.size)
    requires Ids(env.block.vtx) !! view.Keys
    requires RegularMint(env.block)
    ensures ApplyBlock(view, env.block, env.at, env.rules.size).Some?
    ensures TotalUnspent(ApplyBlock(view, env.block, env.at, env.rules.size).value, env.src)
         <= TotalUnspent(view, env.src) + BlockReward(env.block, height, tipSupply, 0)
  {
    hide ConnectPrefix, ApplyTxs, TotalUnspent, CheckTransaction, Positions, BlockOnDisk, WellIndexed, Ids, DistinctIds,
         ProofOfWorkReward, ProofOfStakeReward;
    var n := |env.block.vtx|;
    ConnectPrefixConserves(env, view, n);
    assert env.block.vtx[..n] == env.block.vtx;
    assert Positions(env.block, env.at, env.rules.size)[..n] == Positions(env.block, env.at, env.rules.size);
    NetValue(env, view, n);
    var t := ConnectPrefix(env, view, n).value;
    RewardAtZeroFees(env.block, height, tipSupply, t.fees);
    if env.block.IsProofOfStake() {
      assert env.block.vtx[0].vout == [env.block.vtx[0].vout[0]];
      assert SumOuts(env.block.vtx[0].vout[..0]) == 0;
    }
  }

  // ---------------------------------------------------------------- coinstakes in proof-of-work blocks

  // What the coinstakes among the first k transactions create.
  function StakeNet(env: Env, view: Index, k: nat): int
    requires k <= |env.block.vtx|
  {
    if k == 0 then 0
    else
      var tx := env.block.vtx[k - 1];
      var t := ConnectPrefix(env, view, k - 1);
      StakeNet(env, view, k - 1) +
      if tx.IsCoinStake() && t.Some? && Fetched(t.value.view, env.src, tx.vin)
      then ValueOut(tx) - ValueIn(t.value.view, env.src, tx.vin) else 0
  }

  predicate NetIsWithStakes(env: Env, view: Index, t: Tally, k: nat)
    requires k <= |env.block.vtx|
  {
    t.valueOut - t.valueIn == (if k > 0 then ValueOut(env.block.vtx[0]) else 0) + StakeNet(env, view, k) - t.fees
  }

  lemma NetWithStakesOne(env: Env, view: Index, t: Tally, k: nat)
    requires k < |env.block.vtx| && ConnectPrefix(env, view, k) == Some(t) && ConnectOne(env, t, k).Some?
    requires NetIsWithStakes(env, view, t, k) && CheckBlock(env.block, env.rules)
    ensures NetIsWithStakes(env, view, ConnectOne(env, t, k).value, k + 1)
  {
    assert k > 0 ==> !env.block.vtx[k].IsCoinBase();
  }

  lemma {:induction false} NetWithStakes(env: Env, view: Index, k: nat)
    requires k <= |env.block.vtx| && ConnectPrefix(env, view, k).Some? && CheckBlock(env.block, env.rules)
    ensures NetIsWithStakes(env, view, ConnectPrefix(env, view, k).value, k)
  {
    hide ConnectOne;
    if k > 0 {
      NetWithStakes(env, view, k - 1);
      NetWithStakesOne(env, view, ConnectPrefix(env, view, k - 1).value, k - 1);
    }
  }

  // ConnectBlock compares only the coinbase of a proof-of-work block with the reward.  So the
  // reward bounds the increase exactly when the coinbase still fits after the coinstakes in the
  // block are added to it.
  lemma ProofOfWorkBoundExactly(env: Env, view: Index, height: nat, tipSupply: int)
    requires Connects(env, view, height, tipSupply) && !env.block.IsProofOfStake()
    requires WellIndexed(view, env.src) && BlockOnDisk(env.src, env.block, env.at, env.rules.size)
    requires Ids(env.block.vtx) !! view.Keys
    ensures ApplyBlock(view, env.block, env.at, env.rules.size).Some?
    ensures TotalUnspent(ApplyBlock(view, env.block, env.at, env.rules.size).value, env.src)
            <= TotalUnspent(view, env.src) + BlockReward(env.block, height, tipSupply, 0)
       <==> ValueOut(env.block.vtx[0]) + StakeNet(env, view, |env.block.vtx|)
            <= ProofOfWorkReward(height, tipSupply, ConnectPrefix(env, view, |env.block.vtx|).value.fees)
  {
    hide ConnectPrefix, ApplyTxs, TotalUnspent, CheckTransaction, Positions, BlockOnDisk, WellIndexed, Ids, DistinctIds,
         ProofOfWorkReward, StakeNet;
    var n := |env.block.vtx|;
    ConnectPrefixConserves(env, view, n);
    assert env.block.vtx[..n] == env.block.vtx;
    assert Positions(env.block, env.at, env.rules.size)[..n] == Positions(env.block, env.at, env.rules.size);
    NetWithStakes(env, view, n);
    RewardAtZeroFees(env.block, height, tipSupply, ConnectPrefix(env, view, n).value.fees);
  }

  // A proof-of-work block whose coinstake creates more than the reward: a coinbase of zero, a plain
  // transaction, and a coinstake of RESERVE_REWARD + 1 more than it spends.
  const FUNDING := Tx(1, 0, [OutPoint(7, 0)], [TxOut(5, false), TxOut(5, false)])
  const COINBASE := Tx(2, 0, [OutPoint(0, UINT32_MAX)], [TxOut(0, false)])
  const PLAIN := Tx(3, 0, [OutPoint(1, 0)], [TxOut(5, false)])
  const STAKE := Tx(4, 0, [OutPoint(1, 1)], [TxOut(0, true), TxOut(RESERVE_REWARD + 6, false)])
  const FUNDING_POS := At(2, 100, 181)

  function ExampleEnv(): Env {
    Env(Source(map[FUNDING_POS := FUNDING, At(2, 500, 581) := COINBASE, At(2, 500, 582) := PLAIN,
                   At(2, 500, 583) := STAKE], map[]),
        [BlockPos(2, 500), BlockPos(2, 100), BlockPos(1, 8)], Block([COINBASE, PLAIN, STAKE]), BlockPos(2, 500),
        Rules((tx, i) => true, tx => 0, tx => 0, 1, tx => 1, tx => true, b => true, tx => true))
  }

  function ExampleView(): Index { map[1 := TxIndex(FUNDING_POS, NullSlots(2))] }

  lemma ExampleValues()
    ensures ValueOut(COINBASE) == 0 && ValueOut(PLAIN) == 5 && ValueOut(STAKE) == RESERVE_REWARD + 6
    ensures OutputsInRange(COINBASE) && OutputsInRange(PLAIN) && OutputsInRange(STAKE)
  {
    SumOutsOfTwo(STAKE.vout);
    assert SumOuts(COINBASE.vout[..0]) == 0 && COINBASE.vout[..1] == COINBASE.vout;
    assert SumOuts(PLAIN.vout[..0]) == 0 && PLAIN.vout[..1] == PLAIN.vout;
  }

  lemma SumOutsOfTwo(outs: seq<TxOut>)
    requires |outs| == 2
    ensures SumOuts(outs[..0]) == 0 && SumOuts(outs[..1]) == outs[0].value
    ensures outs[..2] == outs && SumOuts(outs) == outs[0].value + outs[1].value
  {
    assert outs[..1][..0] == [];
  }

  lemma ExampleChecks()
    ensures CheckBlock(ExampleEnv().block, ExampleEnv().rules)
    ensures WellIndexed(ExampleView(), ExampleEnv().src)
    ensures Ids(ExampleEnv().block.vtx) !! ExampleView().Keys
  {
    ExampleValues();
    hide OutputsInRange;
    assert CheckTransaction(COINBASE, ExampleEnv().rules);
    assert CheckTransaction(PLAIN, ExampleEnv().rules);
    assert CheckTransaction(STAKE, ExampleEnv().rules);
  }

  lemma ExamplePositions()
    ensures forall k :: 0 <= k < 3 ==>
              TxPos(ExampleEnv().block, ExampleEnv().at, ExampleEnv().rules.size, k) == At(2, 500, 581 + k)
    ensures BlockOnDisk(ExampleEnv().src, ExampleEnv().block, ExampleEnv().at, ExampleEnv().rules.size)
  {
    var env := ExampleEnv();
    assert TxOffset(env.block, env.at, env.rules.size, 0) == 581;
    assert TxOffset(env.block, env.at, env.rules.size, 1) == 582;
    assert TxOffset(env.block, env.at, env.rules.size, 2) == 583;
  }

  lemma ExampleTotals()
    ensures ConnectPrefix(ExampleEnv(), ExampleView(), 3).Some?
    ensures var t := ConnectPrefix(ExampleEnv(), ExampleView(), 3).value;
            t.valueOut - t.valueIn == RESERVE_REWARD + 1 && t.fees == 0
  {
    hide ConnectOne, CheckBlock, TxPos, ValueOut;
    var env, view := ExampleEnv(), ExampleView();
    ExamplePositions();
    ExampleValues();
    var t1 := ExampleCoinBase();
    var v2 := OneInputConnects(env, t1, 1, OutPoint(1, 0), FUNDING);
    var t2 := Tally(v2, 0, 5, 5, 0, 0);
    var v3 := OneInputConnects(env, t2, 2, OutPoint(1, 1), FUNDING);
    assert ConnectPrefix(env, view, 1) == Some(t1);
    assert ConnectPrefix(env, view, 2) == Some(t2);
  }

  lemma ExampleCoinBase() returns (t1: Tally)
    ensures ConnectOne(ExampleEnv(), Tally(ExampleView(), 0, 0, 0, 0, 0), 0) == Some(t1)
    ensures t1 == Tally(t1.view, 0, 0, 0, 0, 0)
    ensures 1 in t1.view && t1.view[1] == ExampleView()[1]
  {
    ExampleValues();
    t1 := Tally(AddTx(ExampleView(), COINBASE, TxPos(ExampleEnv().block, ExampleEnv().at, ExampleEnv().rules.size, 0)),
                0, 0, 0, 0, 0);
  }

  lemma ExampleSupply()
    ensures TotalUnspent(ExampleView(), ExampleEnv().src) == 10
  {
    var view, src := ExampleView(), ExampleEnv().src;
    var f := UnspentValues(view, src);
    assert view.Keys == {1};
    SumOverRemove({1}, 1, f);
    assert UnspentPrefix(NullSlots(2), FUNDING.vout, 1) == 5;
    assert f[1] == 10;
  }

  // At height 2, with ten units unspent before, it leaves more unspent than the reward allows.
  lemma UncheckedCoinStake()
    ensures exists env: Env, view: Index ::
              && Connects(env, view, 2, TotalUnspent(view, env.src)) && !env.block.IsProofOfStake()
              && |env.chain| == 3 && env.chain[0] == env.at
              && WellIndexed(view, env.src) && BlockOnDisk(env.src, env.block, env.at, env.rules.size)
              && Ids(env.block.vtx) !! view.Keys && ApplyBlock(view, env.block, env.at, env.rules.size).Some?
              && TotalUnspent(ApplyBlock(view, env.block, env.at, env.rules.size).value, env.src)
                 > TotalUnspent(view, env.src) + BlockReward(env.block, 2, TotalUnspent(view, env.src), 0)
  {
    hide ConnectPrefix, CheckBlock, WellIndexed, BlockOnDisk, Ids, ValueOut, ApplyTxs, TotalUnspent;
    ExampleChecks();
    ExamplePositions();
    ExampleTotals();
    ExampleValues();
    ExampleSupply();
    var env, view := ExampleEnv(), ExampleView();
    assert Halve(RESERVE_REWARD, 0) == RESERVE_REWARD;
    assert Connects(env, view, 2, 10);
    ConnectPrefixConserves(env, view, 3);
    var ps := Positions(env.block, env.at, env.rules.size);
    assert env.block.vtx[..3] == env.block.vtx && ps[..3] == ps;
  }

  // A transaction with one mature, unspent input of value 5 and no fee to check.
  lemma OneInputConnects(env: Env, t: Tally, k: nat, op: OutPoint, prev: Tx) returns (v: Index)
    requires 0 < k < |env.block.vtx| && env.block.vtx[k].vin == [op] && !op.IsNull()
    requires !prev.IsCoinBase() && !prev.IsCoinStake()
    requires env.rules.legacySigOps(env.block.vtx[k]) + env.rules.p2shSigOps(env.block.vtx[k])
             + t.sigOps <= env.rules.maxSigOps
    requires env.rules.signatureValid(env.block.vtx[k], 0)
    requires PrevTx(t.view, env.src, op.hash) == Some(prev) && op.n < |prev.vout| && prev.vout[op.n] == TxOut(5, false)
    requires op.hash in t.view && op.n < |t.view[op.hash].spent| && t.view[op.hash].spent[op.n] == NullPos
    requires prev.time <= env.block.vtx[k].time
    requires env.block.vtx[k].IsCoinStake() || ValueOut(env.block.vtx[k]) == 5
    ensures var tx := env.block.vtx[k];
            ConnectOne(env, t, k) == Some(Tally(v, t.fees, t.valueIn + 5, t.valueOut + ValueOut(tx),
              if tx.IsCoinStake() then ValueOut(tx) - 5 else t.stake,
              t.sigOps + env.rules.legacySigOps(tx) + env.rules.p2shSigOps(tx)))
    ensures v == AddTx(Spend(t.view, op, TxPos(env.block, env.at, env.rules.size, k)).value, env.block.vtx[k],
                       TxPos(env.block, env.at, env.rules.size, k))
  {
    var tx, pos := env.block.vtx[k], TxPos(env.block, env.at, env.rules.size, k);
    assert tx.vin[..0] == [] && tx.vin[..1] == tx.vin;
    assert InputFetched(t.view, env.src, op);
    assert ValueIn(t.view, env.src, tx.vin[..0]) == 0 && ValueIn(t.view, env.src, tx.vin) == 5;
    assert SpendAll(t.view, tx.vin[..0], pos) == Some(t.view);
    v := AddTx(Spend(t.view, op, pos).value, tx, pos);
  }
}
