// What every connected block obeys (src/main.cpp: ConnectInputs, ConnectBlock), said in numbers about
// the block and not through the checks that decide it: outputs spent are mature, nonempty, in range
// and not younger than their spender; signatures are valid; nothing is paid that was not taken in.
module BlockLaws {
  import opened Common
  import opened Ledger
  import opened LedgerProofs
  import opened Supply
  import opened BlockTree
  import opened Connect

  // ---------------------------------------------------------------- one input

  lemma {:induction false} PrefixConnects(env: Env, view: Index, k: nat, n: nat)
    requires k <= n <= |env.block.vtx| && ConnectPrefix(env, view, n).Some?
    ensures ConnectPrefix(env, view, k).Some?
    ensures k < n ==> ConnectOne(env, ConnectPrefix(env, view, k).value, k).Some?
    decreases n - k
  {
    hide ConnectOne;
    if k < n {
      PrefixConnects(env, view, k + 1, n);
    }
  }

  // Input i of transaction k, against the index the transactions before it left.
  lemma InputLaw(env: Env, view: Index, height: nat, tipSupply: int, k: nat, i: nat)
    requires Connects(env, view, height, tipSupply) && k < |env.block.vtx|
    requires !env.block.vtx[k].IsCoinBase() && i < |env.block.vtx[k].vin|
    ensures ConnectPrefix(env, view, k).Some?
    ensures var tx, op, before := env.block.vtx[k], env.block.vtx[k].vin[i], ConnectPrefix(env, view, k).value.view;
            && op.hash in before && PrevTx(before, env.src, op.hash).Some?
            && var pos, prev := before[op.hash].pos, PrevTx(before, env.src, op.hash).value;
            && op.n < |prev.vout| && op.n < |before[op.hash].spent| && before[op.hash].spent[op.n] == NullPos
            && (prev.vout[op.n].value != 0 || !prev.vout[op.n].scriptEmpty)
            && 0 <= prev.vout[op.n].value <= 1_0000_0000_0000_0000
            && prev.time <= tx.time && env.rules.signatureValid(tx, i)
            && (IsCoinBaseOrStake(prev) ==>
                  forall d :: 0 <= d < 10 && d < |env.chain| ==> !PointsInto(pos, env.chain[d]))
  {
    hide CheckBlock, RewardOk;
    PrefixConnects(env, view, k, |env.block.vtx|);
    var before, op := ConnectPrefix(env, view, k).value.view, env.block.vtx[k].vin[i];
    hide ConnectPrefix;
    var pos := TxPos(env.block, env.at, env.rules.size, k);
    assert InputFetched(before, env.src, op) && InputAcceptable(before, env.src, env.chain, env.block.vtx[k], op);
    assert SpendAll(before, env.block.vtx[k].vin, pos).Some?;
    hide SpendAll, ConnectOne;
    SpendAllFacts(before, env.block.vtx[k].vin, pos);
    assert op in InputSet(env.block.vtx[k].vin);
  }

  predicate IsCoinBaseOrStake(tx: Tx)
    ensures IsCoinBaseOrStake(tx) <==>
              || (|tx.vin| == 1 && tx.vin[0] == OutPoint(0, 0xFFFF_FFFF) && |tx.vout| > 0)
              || (|tx.vin| > 0 && tx.vin[0] != OutPoint(0, 0xFFFF_FFFF)
                  && |tx.vout| > 1 && tx.vout[0] == TxOut(0, true))
  {
    tx.IsCoinBase() || tx.IsCoinStake()
  }

  // ---------------------------------------------------------------- where it was made

  // The entry of an indexed transaction: of the list, at its place in it, or from before.
  lemma {:induction false} EntryOrigin(v: Index, txs: seq<Tx>, ps: seq<DiskPos>, h: Hash256)
    requires |txs| == |ps| && NoNullPos(ps) && ApplyTxs(v, txs, ps).Some? && h in ApplyTxs(v, txs, ps).value
    ensures var pos := ApplyTxs(v, txs, ps).value[h].pos;
            || (h in v && pos == v[h].pos && forall j :: 0 <= j < |txs| ==> txs[j].id != h)
            || exists j :: 0 <= j < |txs| && txs[j].id == h && pos == ps[j]
  {
    if txs != [] {
      var n := |txs| - 1;
      hide ApplyTx;
      OneOrigin(ApplyTxs(v, txs[..n], ps[..n]).value, txs[n], ps[n], h);
      if h != txs[n].id {
        EntryOrigin(v, txs[..n], ps[..n], h);
      }
    }
  }

  lemma OneOrigin(v: Index, tx: Tx, p: DiskPos, h: Hash256)
    requires p != NullPos && ApplyTx(v, tx, p).Some? && h in ApplyTx(v, tx, p).value
    ensures var pos := ApplyTx(v, tx, p).value[h].pos;
            if h == tx.id then pos == p else h in v && pos == v[h].pos
  {
    SpendAllFacts(v, Inputs(tx), p);
    if h != tx.id {
      assert EntryMarked(h, v[h], SpendAll(v, Inputs(tx), p).value[h], InputSet(Inputs(tx)), p);
    }
  }

  // `a` is the block of the chain of `b` that holds the transaction an index entry points to.
  ghost predicate MadeIn(b: BlockIndex, a: BlockIndex, j: nat, h: Hash256, pos: DiskPos, size: Tx -> nat)
    requires b.Linked()
  {
    && a.Linked() && Reaches(b, a) && a.pprev != null && j < |a.block.vtx| && a.block.vtx[j].id == h
    && pos == TxPos(a.block, a.at, size, j)
  }

  lemma {:induction false} ReplayOrigin(b: BlockIndex, size: Tx -> nat, h: Hash256)
    returns (a: BlockIndex, j: nat)
    requires b.Linked() && Replay(b, size).Some? && h in Replay(b, size).value
    ensures MadeIn(b, a, j, h, Replay(b, size).value[h].pos, size)
    decreases b.height
  {
    hide ApplyTxs;
    var v, ps := Replay(b.pprev, size).value, Positions(b.block, b.at, size);
    EntryOrigin(v, b.block.vtx, ps, h);
    if k :| 0 <= k < |b.block.vtx| && b.block.vtx[k].id == h && Replay(b, size).value[h].pos == ps[k] {
      a, j := b, k;
    } else {
      a, j := ReplayOrigin(b.pprev, size, h);
    }
  }

  // What a connected block spends was made on its own chain: earlier in the block or in an ancestor,
  // at least ten blocks earlier if by a coinbase or a coinstake.
  lemma SpentOutput(b: BlockIndex, src: Source, rules: Rules, tipSupply: int, k: nat, i: nat)
    returns (a: BlockIndex, j: nat)
    requires b.Linked() && b.pprev != null && NoReuse(b) && BranchOnDisk(b, src, rules.size)
    requires Replay(b.pprev, rules.size).Some?
    requires Connects(Env(src, b.ChainPositions(), b.block, b.at, rules), Replay(b.pprev, rules.size).value, b.height,
                      tipSupply)
    requires k < |b.block.vtx| && !b.block.vtx[k].IsCoinBase() && i < |b.block.vtx[k].vin|
    ensures a.Linked() && Reaches(b, a) && a.pprev != null && j < |a.block.vtx| && (a == b ==> j < k)
    ensures var tx, op, made := b.block.vtx[k], b.block.vtx[k].vin[i], a.block.vtx[j];
            && made.id == op.hash && op.n < |made.vout|
            && (made.vout[op.n].value != 0 || !made.vout[op.n].scriptEmpty)
            && 0 <= made.vout[op.n].value <= 1_0000_0000_0000_0000
            && made.time <= tx.time && rules.signatureValid(tx, i)
            && (IsCoinBaseOrStake(made) ==> b.height >= a.height + 10)
  {
    hide Connects, ApplyTxs, ConnectPrefix, Replay, IsCoinBaseOrStake, NoReuse, BranchOnDisk, TxPos, Reaches;
    var env, view, op := Env(src, b.ChainPositions(), b.block, b.at, rules), Replay(b.pprev, rules.size).value,
                         b.block.vtx[k].vin[i];
    InputLaw(env, view, b.height, tipSupply, k, i);
    var before := ConnectPrefix(env, view, k).value.view;
    a, j := OriginBefore(b, env, k, op.hash);
    MadeOnDisk(b, a, j, src, rules.size, before[op.hash].pos);
    assert PrevTx(before, src, op.hash) == Some(a.block.vtx[j]);
    if IsCoinBaseOrStake(a.block.vtx[j]) {
      PositionOfAncestor(b, a);
      PointsAt(a, j, rules.size);
    }
  }

  lemma PointsAt(a: BlockIndex, j: nat, size: Tx -> nat)
    requires j < |a.block.vtx|
    ensures PointsInto(TxPos(a.block, a.at, size, j), a.at)
  {
  }

  lemma OriginBefore(b: BlockIndex, env: Env, k: nat, h: Hash256) returns (a: BlockIndex, j: nat)
    requires b.Linked() && b.pprev != null && Replay(b.pprev, env.rules.size).Some?
    requires env.block == b.block && env.at == b.at && k < |b.block.vtx|
    requires var t := ConnectPrefix(env, Replay(b.pprev, env.rules.size).value, k); t.Some? && h in t.value.view
    ensures MadeIn(b, a, j, h, ConnectPrefix(env, Replay(b.pprev, env.rules.size).value, k).value.view[h].pos,
                   env.rules.size)
    ensures a == b ==> j < k
  {
    hide ConnectPrefix, ApplyTxs, Replay;
    var view, ps := Replay(b.pprev, env.rules.size).value, Positions(b.block, b.at, env.rules.size);
    ConnectPrefixApplies(env, view, k);
    PositionsNotNull(b.block, b.at, env.rules.size);
    EntryOrigin(view, b.block.vtx[..k], ps[..k], h);
    var pos := ConnectPrefix(env, view, k).value.view[h].pos;
    if n :| 0 <= n < k && b.block.vtx[..k][n].id == h && pos == ps[..k][n] {
      a, j := b, n;
    } else {
      a, j := ReplayOrigin(b.pprev, env.rules.size, h);
      ReachesLinked(b.pprev, a);
    }
  }

  // The transaction an entry points to can be read there.
  lemma {:induction false} MadeOnDisk(b: BlockIndex, a: BlockIndex, j: nat, src: Source, size: Tx -> nat, pos: DiskPos)
    requires b.Linked() && Reaches(b, a) && a.Linked() && a.pprev != null && j < |a.block.vtx|
    requires BranchOnDisk(b, src, size) && pos == TxPos(a.block, a.at, size, j)
    ensures pos in src.disk && src.disk[pos] == a.block.vtx[j] && pos != MEMPOOL_POS
    decreases b.height
  {
    hide TxPos;
    if b != a {
      MadeOnDisk(b.pprev, a, j, src, size, pos);
    } else {
      NotPool(a, j, size);
    }
  }

  lemma NotPool(a: BlockIndex, j: nat, size: Tx -> nat)
    requires j < |a.block.vtx|
    ensures TxPos(a.block, a.at, size, j) != MEMPOOL_POS
  {
    OffsetsPositive(a.block, a.at, size, j);
  }

  // ---------------------------------------------------------------- one transaction

  lemma DistinctSnoc(vin: seq<OutPoint>)
    requires vin != []
    ensures var init, last := vin[..|vin| - 1], vin[|vin| - 1];
            && (DistinctInputs(vin) <==> DistinctInputs(init) && last !in InputSet(init))
            && InputSet(vin) == InputSet(init) + {last}
  {
    InputSetSnoc(vin);
    var init, last := vin[..|vin| - 1], vin[|vin| - 1];
    if last in InputSet(init) {
      var i :| 0 <= i < |init| && init[i] == last;
      assert vin[i] == vin[|vin| - 1];
    }
    if !DistinctInputs(init) {
      var i, j :| 0 <= i < j < |init| && init[i] == init[j];
      assert vin[i] == vin[j];
    }
  }

  lemma SpendLast(view: Index, vin: seq<OutPoint>, pos: DiskPos)
    requires vin != []
    ensures var w, last := SpendAll(view, vin[..|vin| - 1], pos), vin[|vin| - 1];
            SpendAll(view, vin, pos).Some? <==> w.Some? && Slot(w.value, last) && SlotAt(w.value, last) == NullPos
  {
  }

  lemma {:induction false} SpendAllNull(view: Index, vin: seq<OutPoint>, pos: DiskPos)
    requires pos != NullPos
    ensures SpendAll(view, vin, pos).Some? <==> DistinctInputs(vin) && AllNull(view, InputSet(vin))
  {
    if vin != [] {
      hide DistinctInputs, InputSet, SpendAll;
      var init, last := vin[..|vin| - 1], vin[|vin| - 1];
      SpendAllNull(view, init, pos);
      DistinctSnoc(vin);
      SpendLast(view, vin, pos);
      if SpendAll(view, init, pos).Some? {
        SpendAllFacts(view, init, pos);
        MarkedSlot(view, SpendAll(view, init, pos).value, InputSet(init), pos, last);
      }
    }
  }

  // Marking outputs spent succeeds exactly when they are different, exist and are unspent.
  lemma SpendAllExactly(view: Index, vin: seq<OutPoint>, pos: DiskPos)
    requires pos != NullPos
    ensures SpendAll(view, vin, pos).Some? <==>
              && (forall i, j :: 0 <= i < j < |vin| ==> vin[i] != vin[j])
              && forall i :: 0 <= i < |vin| ==>
                   vin[i].hash in view && vin[i].n < |view[vin[i].hash].spent|
                   && view[vin[i].hash].spent[vin[i].n] == NullPos
  {
    SpendAllNull(view, vin, pos);
    hide SpendAll;
    forall i | 0 <= i < |vin| ensures vin[i] in InputSet(vin) { }
  }

  // The value of the outputs that can be fetched.
  function InSum(view: Index, src: Source, vin: seq<OutPoint>): int {
    if vin == [] then 0
    else
      var last := vin[|vin| - 1];
      InSum(view, src, vin[..|vin| - 1]) + if InputFetched(view, src, last) then OutputOf(view, src, last).value else 0
  }

  lemma {:induction false} InSumIs(view: Index, src: Source, vin: seq<OutPoint>)
    requires Fetched(view, src, vin)
    ensures InSum(view, src, vin) == ValueIn(view, src, vin)
  {
    if vin != [] {
      hide InputFetched;
      InSumIs(view, src, vin[..|vin| - 1]);
    }
  }

  // Values that are not negative have partial sums in range exactly when the whole sum is.
  lemma {:induction false} PartialSums(view: Index, src: Source, vin: seq<OutPoint>)
    requires forall i :: 0 <= i < |vin| ==>
               InputFetched(view, src, vin[i]) && OutputOf(view, src, vin[i]).value >= 0
    ensures Fetched(view, src, vin) && InSum(view, src, vin) >= 0
    ensures (forall i :: 0 <= i <= |vin| ==> MoneyRange(ValueIn(view, src, vin[..i])))
            <==> InSum(view, src, vin) <= 1_0000_0000_0000_0000
  {
    hide InputFetched, OutputOf;
    InSumIs(view, src, vin);
    assert vin[..|vin|] == vin;
    if vin != [] {
      var init := vin[..|vin| - 1];
      PartialSums(view, src, init);
      InSumIs(view, src, init);
      assert forall i :: 0 <= i <= |init| ==> init[..i] == vin[..i];
    }
  }

  // What is asked of one input, against the index before its transaction.
  predicate GoodInput(view: Index, src: Source, chain: seq<BlockPos>, tx: Tx, i: nat, rules: Rules)
    requires i < |tx.vin|
  {
    var op := tx.vin[i];
    && InputFetched(view, src, op) && view[op.hash].spent[op.n] == NullPos
    && InputAcceptable(view, src, chain, tx, op) && rules.signatureValid(tx, i)
  }

  // It exists, is unspent, mature, nonempty, in range, not younger than the transaction, and signed.
  lemma GoodInputExactly(view: Index, src: Source, chain: seq<BlockPos>, tx: Tx, i: nat, rules: Rules)
    requires i < |tx.vin|
    ensures GoodInput(view, src, chain, tx, i, rules) <==>
              var op := tx.vin[i];
              && op.hash in view && PrevTx(view, src, op.hash).Some?
              && op.n < |PrevTx(view, src, op.hash).value.vout| && op.n < |view[op.hash].spent|
              && view[op.hash].spent[op.n] == NullPos
              && var prev := PrevTx(view, src, op.hash).value;
              && (prev.vout[op.n].value != 0 || !prev.vout[op.n].scriptEmpty)
              && 0 <= prev.vout[op.n].value <= 1_0000_0000_0000_0000
              && prev.time <= tx.time && rules.signatureValid(tx, i)
              && (IsCoinBaseOrStake(prev) ==>
                    forall d :: 0 <= d < 10 && d < |chain| ==> !PointsInto(view[op.hash].pos, chain[d]))
  {
    if InputFetched(view, src, tx.vin[i]) {
      SpendableExactly(PrevTx(view, src, tx.vin[i].hash).value, view[tx.vin[i].hash].pos, tx.vin[i].n, chain, tx);
    }
  }

  // ConnectInputs accepts a transaction exactly when every input is good, no two are the same, and no
  // more is paid out than comes in.
  lemma AcceptedExactly(view: Index, src: Source, chain: seq<BlockPos>, tx: Tx, pos: DiskPos, rules: Rules)
    requires pos != NullPos
    ensures Fetched(view, src, tx.vin) && ConnectedInputs(view, src, chain, tx, pos, rules).Some? <==>
              && (forall i :: 0 <= i < |tx.vin| ==> GoodInput(view, src, chain, tx, i, rules))
              && (forall i, j :: 0 <= i < j < |tx.vin| ==> tx.vin[i] != tx.vin[j])
              && InSum(view, src, tx.vin) <= 1_0000_0000_0000_0000
              && (tx.IsCoinStake() || 0 <= InSum(view, src, tx.vin) - ValueOut(tx) <= 1_0000_0000_0000_0000)
  {
    hide *;
    AllGood(view, src, chain, tx, rules);
    SpendAllExactly(view, tx.vin, pos);
    if Fetched(view, src, tx.vin) {
      InputsAcceptableExactly(view, src, chain, tx);
      InSumIs(view, src, tx.vin);
      ConnectedIs(view, src, chain, tx, pos, rules);
    }
  }

  lemma AllGood(view: Index, src: Source, chain: seq<BlockPos>, tx: Tx, rules: Rules)
    ensures (forall i :: 0 <= i < |tx.vin| ==> GoodInput(view, src, chain, tx, i, rules)) <==>
              && Fetched(view, src, tx.vin)
              && (forall i :: 0 <= i < |tx.vin| ==> InputAcceptable(view, src, chain, tx, tx.vin[i]))
              && (forall i :: 0 <= i < |tx.vin| ==> rules.signatureValid(tx, i))
              && forall i :: 0 <= i < |tx.vin| ==>
                   tx.vin[i].hash in view && tx.vin[i].n < |view[tx.vin[i].hash].spent|
                   && view[tx.vin[i].hash].spent[tx.vin[i].n] == NullPos
  {
    hide InputAcceptable;
    if forall i :: 0 <= i < |tx.vin| ==> GoodInput(view, src, chain, tx, i, rules) {
      forall i | 0 <= i < |tx.vin|
        ensures InputFetched(view, src, tx.vin[i]) && InputAcceptable(view, src, chain, tx, tx.vin[i])
                && rules.signatureValid(tx, i) && view[tx.vin[i].hash].spent[tx.vin[i].n] == NullPos {
        assert GoodInput(view, src, chain, tx, i, rules);
      }
    }
  }

  lemma InputsAcceptableExactly(view: Index, src: Source, chain: seq<BlockPos>, tx: Tx)
    requires Fetched(view, src, tx.vin)
    ensures InputsAcceptable(view, src, chain, tx) <==>
              && (forall i :: 0 <= i < |tx.vin| ==> InputAcceptable(view, src, chain, tx, tx.vin[i]))
              && InSum(view, src, tx.vin) <= 1_0000_0000_0000_0000
  {
    hide InputFetched, InputAcceptable, InSum, ValueIn, OutputOf;
    if forall i :: 0 <= i < |tx.vin| ==> InputAcceptable(view, src, chain, tx, tx.vin[i]) {
      forall i | 0 <= i < |tx.vin| ensures OutputOf(view, src, tx.vin[i]).value >= 0 {
        NotNegative(view, src, chain, tx, tx.vin[i]);
      }
      PartialSums(view, src, tx.vin);
    }
  }

  lemma ConnectedIs(view: Index, src: Source, chain: seq<BlockPos>, tx: Tx, pos: DiskPos, rules: Rules)
    requires Fetched(view, src, tx.vin)
    ensures var valueIn := ValueIn(view, src, tx.vin);
            ConnectedInputs(view, src, chain, tx, pos, rules).Some? <==>
              && InputsAcceptable(view, src, chain, tx)
              && (forall i :: 0 <= i < |tx.vin| ==> rules.signatureValid(tx, i))
              && (tx.IsCoinStake() || 0 <= valueIn - ValueOut(tx) <= 1_0000_0000_0000_0000)
              && SpendAll(view, tx.vin, pos).Some?
  {
    hide InputsAcceptable, SpendAll, ValueOut, ValueIn;
  }

  lemma NotNegative(view: Index, src: Source, chain: seq<BlockPos>, tx: Tx, op: OutPoint)
    requires InputFetched(view, src, op) && InputAcceptable(view, src, chain, tx, op)
    ensures OutputOf(view, src, op).value >= 0
  {
  }

  lemma SpendableExactly(prev: Tx, pos: DiskPos, n: nat, chain: seq<BlockPos>, tx: Tx)
    requires n < |prev.vout|
    ensures OutputSpendable(prev, pos, n, chain, tx) <==>
              && (prev.vout[n].value != 0 || !prev.vout[n].scriptEmpty)
              && 0 <= prev.vout[n].value <= 1_0000_0000_0000_0000
              && prev.time <= tx.time
              && (IsCoinBaseOrStake(prev) ==>
                    forall d :: 0 <= d < 10 && d < |chain| ==> !PointsInto(pos, chain[d]))
  {
    assert ConfirmedWithin(pos, chain, 10) <==>
           exists d :: 0 <= d < 10 && d < |chain| && PointsInto(pos, chain[d]);
  }

  // ---------------------------------------------------------------- a whole block

  // The index before transaction k: that of the parent with the earlier transactions applied.
  function IndexBefore(env: Env, view: Index, k: nat): Option<Index>
    requires k <= |env.block.vtx|
  {
    ApplyTxs(view, env.block.vtx[..k], Positions(env.block, env.at, env.rules.size)[..k])
  }

  // The transaction is a coinbase, or ConnectInputs accepts it there.
  ghost predicate GoodTx(env: Env, view: Index, k: nat)
    requires k < |env.block.vtx|
  {
    var tx, before := env.block.vtx[k], IndexBefore(env, view, k);
    && before.Some?
    && (!tx.IsCoinBase() ==>
          && (forall i :: 0 <= i < |tx.vin| ==> GoodInput(before.value, env.src, env.chain, tx, i, env.rules))
          && (forall i, j :: 0 <= i < j < |tx.vin| ==> tx.vin[i] != tx.vin[j])
          && InSum(before.value, env.src, tx.vin) <= 1_0000_0000_0000_0000
          && (tx.IsCoinStake() || 0 <= InSum(before.value, env.src, tx.vin) - ValueOut(tx) <= 1_0000_0000_0000_0000))
  }

  // Signature operations: those of the scripts themselves, and those of the scripts they redeem.
  function SigOpsOf(txs: seq<Tx>, rules: Rules): nat {
    if txs == [] then 0
    else
      var tx := txs[|txs| - 1];
      SigOpsOf(txs[..|txs| - 1], rules) + rules.legacySigOps(tx) + if tx.IsCoinBase() then 0 else rules.p2shSigOps(tx)
  }

  // What the first k transactions leave to the block's maker.
  function FeesOf(env: Env, view: Index, k: nat): int
    requires k <= |env.block.vtx|
  {
    if k == 0 then 0
    else
      var tx, before := env.block.vtx[k - 1], IndexBefore(env, view, k - 1);
      FeesOf(env, view, k - 1) +
      if tx.IsCoinBase() || tx.IsCoinStake() || before.None? then 0
      else InSum(before.value, env.src, tx.vin) - ValueOut(tx)
  }

  // What the last coinstake among the first k transactions gains.
  function StakeOf(env: Env, view: Index, k: nat): int
    requires k <= |env.block.vtx|
  {
    if k == 0 then 0
    else
      var tx, before := env.block.vtx[k - 1], IndexBefore(env, view, k - 1);
      if tx.IsCoinStake() && before.Some? then ValueOut(tx) - InSum(before.value, env.src, tx.vin)
      else StakeOf(env, view, k - 1)
  }

  lemma ConnectOneExactly(env: Env, t: Tally, view: Index, k: nat)
    requires k < |env.block.vtx| && IndexBefore(env, view, k) == Some(t.view)
    ensures ConnectOne(env, t, k).Some? <==>
              GoodTx(env, view, k)
              && t.sigOps + env.rules.legacySigOps(env.block.vtx[k])
                 + (if env.block.vtx[k].IsCoinBase() then 0 else env.rules.p2shSigOps(env.block.vtx[k]))
                 <= env.rules.maxSigOps
    ensures ConnectOne(env, t, k).Some? ==>
              var tx, u := env.block.vtx[k], ConnectOne(env, t, k).value;
              && u.sigOps == t.sigOps + env.rules.legacySigOps(tx)
                             + (if tx.IsCoinBase() then 0 else env.rules.p2shSigOps(tx))
              && u.fees == t.fees + (if tx.IsCoinBase() || tx.IsCoinStake() then 0
                                     else InSum(t.view, env.src, tx.vin) - ValueOut(tx))
              && u.stake == if tx.IsCoinStake() then ValueOut(tx) - InSum(t.view, env.src, tx.vin) else t.stake
  {
    hide IndexBefore, GoodInput, ConnectedInputs, ValueOut, InSum, Fetched, ValueIn;
    var tx, pos := env.block.vtx[k], TxPos(env.block, env.at, env.rules.size, k);
    AcceptedExactly(t.view, env.src, env.chain, tx, pos, env.rules);
    if Fetched(t.view, env.src, tx.vin) {
      InSumIs(t.view, env.src, tx.vin);
    }
  }

  lemma IndexNext(env: Env, view: Index, k: nat)
    requires k < |env.block.vtx|
    ensures IndexBefore(env, view, k + 1) ==
            match IndexBefore(env, view, k)
            case None => None
            case Some(v) => ApplyTx(v, env.block.vtx[k], TxPos(env.block, env.at, env.rules.size, k))
  {
    hide ApplyTx;
    var txs, ps := env.block.vtx, Positions(env.block, env.at, env.rules.size);
    assert txs[..k + 1][..k] == txs[..k] && ps[..k + 1][..k] == ps[..k];
  }

  lemma SigOpsNext(txs: seq<Tx>, rules: Rules, k: nat)
    requires k < |txs|
    ensures SigOpsOf(txs[..k + 1], rules)
            == SigOpsOf(txs[..k], rules) + rules.legacySigOps(txs[k])
               + if txs[k].IsCoinBase() then 0 else rules.p2shSigOps(txs[k])
  {
    assert txs[..k + 1][..k] == txs[..k];
  }

  // ConnectBlock's loop gets through k transactions exactly when each is good where it stands and the
  // signature operations are within the limit; its totals are the sums.
  lemma {:induction false} PrefixExactly(env: Env, view: Index, k: nat)
    requires k <= |env.block.vtx|
    ensures ConnectPrefix(env, view, k).Some? <==>
              && (forall j :: 0 <= j < k ==> GoodTx(env, view, j))
              && SigOpsOf(env.block.vtx[..k], env.rules) <= env.rules.maxSigOps
    ensures ConnectPrefix(env, view, k).Some? ==>
              var t := ConnectPrefix(env, view, k).value;
              && IndexBefore(env, view, k) == Some(t.view) && t.sigOps == SigOpsOf(env.block.vtx[..k], env.rules)
              && t.fees == FeesOf(env, view, k) && t.stake == StakeOf(env, view, k)
  {
    hide GoodTx, ConnectOne, SigOpsOf, ApplyTx, InSum, ValueOut, IndexBefore, FeesOf, StakeOf, ConnectPrefix;
    PrefixStep(env, view, k);
    if k == 0 {
      NoTransactions(env, view);
    } else {
      PrefixExactly(env, view, k - 1);
      IndexNext(env, view, k - 1);
      SigOpsNext(env.block.vtx, env.rules, k - 1);
      if IndexBefore(env, view, k - 1).Some? {
        TotalsNext(env, view, k - 1);
      }
      var before := ConnectPrefix(env, view, k - 1);
      if before.Some? {
        ConnectOneExactly(env, before.value, view, k - 1);
        if ConnectOne(env, before.value, k - 1).Some? {
          ConnectOneApplies(env, before.value, k - 1);
        }
      }
    }
  }

  lemma NoTransactions(env: Env, view: Index)
    ensures IndexBefore(env, view, 0) == Some(view) && SigOpsOf(env.block.vtx[..0], env.rules) == 0
    ensures FeesOf(env, view, 0) == 0 && StakeOf(env, view, 0) == 0
  {
  }

  lemma PrefixStep(env: Env, view: Index, k: nat)
    requires k <= |env.block.vtx|
    ensures k == 0 ==> ConnectPrefix(env, view, 0) == Some(Tally(view, 0, 0, 0, 0, 0))
    ensures k > 0 ==>
              var before := ConnectPrefix(env, view, k - 1);
              ConnectPrefix(env, view, k) == if before.Some? then ConnectOne(env, before.value, k - 1) else None
  {
    hide ConnectOne;
  }

  // A block connects exactly when it passes CheckBlock, every transaction is good where it stands, the
  // signature operations are within the limit, and the reward covers what is taken beyond the fees.
  lemma ConnectsExactly(env: Env, view: Index, height: nat, tipSupply: int)
    ensures Connects(env, view, height, tipSupply) <==>
              var vtx := env.block.vtx;
              && CheckBlock(env.block, env.rules)
              && (forall k :: 0 <= k < |vtx| ==> GoodTx(env, view, k))
              && SigOpsOf(vtx, env.rules) <= env.rules.maxSigOps
              && if env.block.IsProofOfStake() then
                   env.rules.coinAgeReadable(vtx[1])
                   && StakeOf(env, view, |vtx|) <= ProofOfStakeReward(height, tipSupply, 0) + FeesOf(env, view, |vtx|)
                 else ValueOut(vtx[0]) <= ProofOfWorkReward(height, tipSupply, 0) + FeesOf(env, view, |vtx|)
  {
    hide CheckBlock, ConnectPrefix, GoodTx, SigOpsOf, StakeOf, FeesOf, Halve;
    assert env.block.vtx[..|env.block.vtx|] == env.block.vtx;
    PrefixExactly(env, view, |env.block.vtx|);
    assert CheckBlock(env.block, env.rules) ==> env.block.vtx != [] by {
      CheckBlockHasCoinBase(env.block, env.rules);
    }
  }

  lemma CheckBlockHasCoinBase(b: Block, rules: Rules)
    ensures CheckBlock(b, rules) ==> b.vtx != []
  {
  }

  // Fees and stake in steps.
  lemma TotalsNext(env: Env, view: Index, k: nat)
    requires k < |env.block.vtx| && IndexBefore(env, view, k).Some?
    ensures var tx, inSum := env.block.vtx[k], InSum(IndexBefore(env, view, k).value, env.src, env.block.vtx[k].vin);
            && FeesOf(env, view, 0) == 0 && StakeOf(env, view, 0) == 0
            && FeesOf(env, view, k + 1)
               == FeesOf(env, view, k) + (if tx.IsCoinBase() || tx.IsCoinStake() then 0 else inSum - ValueOut(tx))
            && StakeOf(env, view, k + 1) == if tx.IsCoinStake() then ValueOut(tx) - inSum else StakeOf(env, view, k)
  {
    hide IndexBefore, InSum, ValueOut;
  }

  // The checks on a block alone: it starts with its only coinbase, no id and no input of a transaction
  // is repeated, values are in range, and a proof-of-stake block has one coinstake and an empty coinbase.
  lemma CheckBlockExactly(b: Block, rules: Rules)
    ensures CheckBlock(b, rules) <==>
              && b.vtx != [] && rules.otherBlockChecks(b)
              && (forall i :: 0 <= i < |b.vtx| ==> (b.vtx[i].IsCoinBase() <==> i == 0))
              && (forall i, j :: 0 <= i < j < |b.vtx| ==> b.vtx[i].id != b.vtx[j].id)
              && (|b.vtx| > 1 && b.vtx[1].IsCoinStake() ==>
                    b.vtx[0].vout == [TxOut(0, true)] && forall i :: 2 <= i < |b.vtx| ==> !b.vtx[i].IsCoinStake())
              && forall i :: 0 <= i < |b.vtx| ==> CheckTransaction(b.vtx[i], rules)
  {
    hide CheckTransaction;
    assert b.vtx != [] ==> (b.vtx[0].vout == [TxOut(0, true)] <==>
                              |b.vtx[0].vout| == 1 && b.vtx[0].vout[0].value == 0 && b.vtx[0].vout[0].scriptEmpty);
  }

  lemma CheckTransactionExactly(tx: Tx, rules: Rules)
    ensures CheckTransaction(tx, rules) <==>
              && |tx.vin| > 0 && |tx.vout| > 0 && rules.otherTxChecks(tx)
              && (forall i :: 0 <= i < |tx.vout| ==> 0 <= tx.vout[i].value <= 1_0000_0000_0000_0000)
              && ValueOut(tx) <= 1_0000_0000_0000_0000
              && (tx.IsCoinBase() || tx.IsCoinStake() || forall i ::
                    0 <= i < |tx.vout| ==> tx.vout[i] != TxOut(0, true))
              && (forall i, j :: 0 <= i < j < |tx.vin| ==> tx.vin[i] != tx.vin[j])
              && (tx.IsCoinBase() || forall i :: 0 <= i < |tx.vin| ==> tx.vin[i] != OutPoint(0, 0xFFFF_FFFF))
  {
    hide SumOuts;
    if forall i :: 0 <= i < |tx.vout| ==> tx.vout[i].value >= 0 {
      PartialOuts(tx.vout);
    }
  }

  lemma {:induction false} PartialOuts(outs: seq<TxOut>)
    requires forall i :: 0 <= i < |outs| ==> outs[i].value >= 0
    ensures SumOuts(outs) >= 0
    ensures (forall i :: 0 <= i <= |outs| ==> MoneyRange(SumOuts(outs[..i])))
            <==> SumOuts(outs) <= 1_0000_0000_0000_0000
  {
    assert outs[..|outs|] == outs;
    if outs != [] {
      var init := outs[..|outs| - 1];
      PartialOuts(init);
      assert forall i :: 0 <= i <= |init| ==> init[..i] == outs[..i];
    }
  }

  // Where the transactions of a block lie: 80 bytes of header and the count, then one after the other.
  lemma PlacesExactly(b: Block, at: BlockPos, size: Tx -> nat, k: nat)
    requires k < |b.vtx|
    ensures TxPos(b, at, size, 0)
            == At(at.file, at.pos, at.pos + 80 + if |b.vtx| <= 252 then 1 else if |b.vtx| <= 65535 then 3
                                                 else if |b.vtx| <= 4294967295 then 5 else 9)
    ensures var here, next := TxPos(b, at, size, k), TxPos(b, at, size, k + 1);
            next == At(at.file, at.pos, here.txPos + size(b.vtx[k]))
  {
  }
}
