// What the block template builder (src/miner.cpp) requires of a list of transactions, and why a
// block made of such a list connects.
module Template {
  import opened Common
  import opened Ledger

  datatype Draft = Draft(view: Index, fees: int, size: nat, sigOps: nat)

  // `latest` is the latest transaction time allowed, maxSize the bound on the running size.  Past
  // the size minSize, transactions with a cheap fee may be passed over.
  datatype Maker = Maker(src: Source, chain: seq<BlockPos>, rules: Rules, maxSize: nat, latest: nat, minSize: nat,
                         cheap: Tx -> bool)

  const RESERVED_SIZE: nat := 1000
  const RESERVED_SIGOPS: nat := 100

  function Start(view: Index): Draft { Draft(view, 0, RESERVED_SIZE, RESERVED_SIGOPS) }

  // One more transaction, or None if the builder has to skip it.
  function AddToDraft(m: Maker, d: Draft, tx: Tx): Option<Draft> {
    var sigOps := d.sigOps + m.rules.legacySigOps(tx);
    if d.size + m.rules.size(tx) >= m.maxSize then None
    else if sigOps >= m.rules.maxSigOps then None
    else if tx.time > m.latest then None
    else if !Fetched(d.view, m.src, tx.vin) then None
    else if sigOps + m.rules.p2shSigOps(tx) >= m.rules.maxSigOps then None
    else
      match ConnectedInputs(d.view, m.src, m.chain, tx, MEMPOOL_POS, m.rules)
      case None => None
      case Some(v) =>
        Some(Draft(AddTx(v, tx, MEMPOOL_POS), d.fees + ValueIn(d.view, m.src, tx.vin) - ValueOut(tx),
                   d.size + m.rules.size(tx), sigOps + m.rules.p2shSigOps(tx)))
  }

  function DraftOf(m: Maker, view: Index, txs: seq<Tx>): Option<Draft> {
    if txs == [] then Some(Start(view))
    else
      match DraftOf(m, view, txs[..|txs| - 1])
      case None => None
      case Some(d) => AddToDraft(m, d, txs[|txs| - 1])
  }

  // Why a transaction may be left out when `front` is in the block.
  predicate Skippable(m: Maker, view: Index, front: seq<Tx>, tx: Tx) {
    var d := DraftOf(m, view, front);
    d.Some? && (AddToDraft(m, d.value, tx).None? || (m.cheap(tx) && d.value.size + m.rules.size(tx) >= m.minSize))
  }

  // There was a reason to leave it out at some moment while the block grew.
  predicate Excused(m: Maker, view: Index, txs: seq<Tx>, tx: Tx) {
    exists k :: 0 <= k <= |txs| && Skippable(m, view, txs[..k], tx)
  }

  lemma ExcusedNow(m: Maker, view: Index, txs: seq<Tx>, tx: Tx)
    requires Skippable(m, view, txs, tx)
    ensures Excused(m, view, txs, tx)
  {
    assert txs[..|txs|] == txs;
  }

  lemma ExcusedStill(m: Maker, view: Index, txs: seq<Tx>, more: seq<Tx>, tx: Tx)
    requires Excused(m, view, txs, tx)
    ensures Excused(m, view, txs + more, tx)
  {
    var k :| 0 <= k <= |txs| && Skippable(m, view, txs[..k], tx);
    assert (txs + more)[..k] == txs[..k];
  }

  function SizeOf(rules: Rules, txs: seq<Tx>): nat {
    if txs == [] then 0 else SizeOf(rules, txs[..|txs| - 1]) + rules.size(txs[|txs| - 1])
  }

  // The running size is the reserve plus the sizes added, and stays below the bound.
  lemma {:induction false} DraftSize(m: Maker, view: Index, txs: seq<Tx>)
    requires DraftOf(m, view, txs).Some?
    ensures DraftOf(m, view, txs).value.size == RESERVED_SIZE + SizeOf(m.rules, txs)
    ensures txs != [] ==> DraftOf(m, view, txs).value.size < m.maxSize
  {
    if txs != [] {
      DraftSize(m, view, txs[..|txs| - 1]);
    }
  }

  // ---------------------------------------------------------------- a draft and a connected block

  // The transactions come from the memory pool and none is a coinbase or coinstake.
  predicate FromPool(src: Source, txs: seq<Tx>) {
    && DistinctIds(txs)
    && forall i :: 0 <= i < |txs| ==>
         txs[i].id in src.mempool && src.mempool[txs[i].id] == txs[i] && !txs[i].IsCoinBase() && !txs[i].IsCoinStake()
  }

  // The block may be checked later than it was made: the limit on signature operations did not fall,
  // and the checks that are not about connecting may differ.
  ghost predicate SameRules(r: Rules, later: Rules) {
    && r.maxSigOps <= later.maxSigOps
    && later == r.(maxSigOps := later.maxSigOps, otherTxChecks := later.otherTxChecks,
                   otherBlockChecks := later.otherBlockChecks,
                   coinAgeReadable := later.coinAgeReadable)
  }

  // Where the block is going to be stored is new: no index entry points there, what was readable
  // stays readable, and the block's transactions become readable.
  ghost predicate StoredAt(m: Maker, env: Env, view: Index) {
    && SameRules(m.rules, env.rules) && env.chain == [env.at] + m.chain
    && (forall h :: h in view ==> EntryOnDisk(m.src, env.src, env.at, view[h]))
    && (forall k :: 0 <= k < |env.block.vtx| ==> TransactionStored(env, k))
  }

  predicate EntryOnDisk(old_: Source, new_: Source, at: BlockPos, entry: TxIndex) {
    && entry.pos.At? && entry.pos != MEMPOOL_POS && BlockPos(entry.pos.file, entry.pos.blockPos) != at
    && (entry.pos in old_.disk ==> entry.pos in new_.disk && new_.disk[entry.pos] == old_.disk[entry.pos])
  }

  predicate TransactionStored(env: Env, k: nat)
    requires k < |env.block.vtx|
  {
    var pos := TxPos(env.block, env.at, env.rules.size, k);
    pos in env.src.disk && env.src.disk[pos] == env.block.vtx[k]
  }

  // What the draft's view and the block's view agree on, for one entry: null slots, and where the
  // transaction is, which is the pool for the draft and the block for the block.
  predicate EntryAgrees(m: Maker, env: Env, k: nat, h: Hash256, e: TxIndex, f: TxIndex) {
    && |e.spent| == |f.spent|
    && (forall n :: 0 <= n < |e.spent| ==> (e.spent[n] == NullPos <==> f.spent[n] == NullPos))
    && if e.pos == MEMPOOL_POS
       then exists j :: 1 <= j < k && j < |env.block.vtx| && IsEntryOf(env, j, h, f)
       else e.pos == f.pos && EntryOnDisk(m.src, env.src, env.at, e)
  }

  predicate IsEntryOf(env: Env, j: nat, h: Hash256, f: TxIndex)
    requires j < |env.block.vtx|
  {
    env.block.vtx[j].id == h && f.pos == TxPos(env.block, env.at, env.rules.size, j)
  }

  // The block's view of its first k transactions covers the draft's.
  predicate Agrees(m: Maker, env: Env, k: nat, draft: Index, view: Index) {
    forall h :: h in draft ==> h in view && EntryAgrees(m, env, k, h, draft[h], view[h])
  }

  lemma {:induction false} OffsetGrows(env: Env, k: nat)
    requires k <= |env.block.vtx|
    ensures TxOffset(env.block, env.at, env.rules.size, k) >= 81
  {
    if k > 0 {
      OffsetGrows(env, k - 1);
    }
  }

  ghost predicate Setting(m: Maker, env: Env, coinbase: Tx, txs: seq<Tx>, view: Index) {
    && env.block.vtx == [coinbase] + txs && coinbase.IsCoinBase()
    && FromPool(m.src, txs) && StoredAt(m, env, view)
    && coinbase.id !in view && (forall i :: 0 <= i < |txs| ==> txs[i].id != coinbase.id)
    && m.rules.legacySigOps(coinbase) <= RESERVED_SIGOPS <= m.rules.maxSigOps
  }

  // Both views read the same previous transaction.
  lemma SamePrevious(m: Maker, env: Env, coinbase: Tx, txs: seq<Tx>, base: Index, k: nat, draft: Index, view: Index,
                     op: OutPoint)
    requires Setting(m, env, coinbase, txs, base) && Agrees(m, env, k, draft, view) && InputFetched(draft, m.src, op)
    ensures InputFetched(view, env.src, op) && PrevTx(view, env.src, op.hash) == PrevTx(draft, m.src, op.hash)
  {
    var h := op.hash;
    assert EntryAgrees(m, env, k, h, draft[h], view[h]);
    if draft[h].pos == MEMPOOL_POS {
      var j :| 1 <= j < k && j < |env.block.vtx| && IsEntryOf(env, j, h, view[h]);
      OffsetGrows(env, j);
      assert TransactionStored(env, j) && env.block.vtx[j] == txs[j - 1];
    }
  }

  // A block's view never sees a coinbase younger than the builder's maturity check allowed.
  lemma StillMature(pos: DiskPos, at: BlockPos, chain: seq<BlockPos>, depth: nat)
    requires pos.At? && BlockPos(pos.file, pos.blockPos) != at && !ConfirmedWithin(pos, chain, depth)
    ensures !ConfirmedWithin(pos, [at] + chain, depth)
  {
    var longer := [at] + chain;
    forall i | 0 <= i < |longer| && i < depth ensures longer[i] != BlockPos(pos.file, pos.blockPos) {
      if i > 0 {
        assert longer[i] == chain[i - 1];
      }
    }
  }

  lemma SameAcceptable(m: Maker, env: Env, coinbase: Tx, txs: seq<Tx>, base: Index, k: nat, draft: Index, view: Index,
                       tx: Tx, op: OutPoint)
    requires Setting(m, env, coinbase, txs, base) && Agrees(m, env, k, draft, view) && InputFetched(draft, m.src, op)
    requires InputAcceptable(draft, m.src, m.chain, tx, op)
    ensures InputFetched(view, env.src, op) && InputAcceptable(view, env.src, env.chain, tx, op)
  {
    SamePrevious(m, env, coinbase, txs, base, k, draft, view, op);
    var h := op.hash;
    var prev := PrevTx(draft, m.src, h).value;
    assert EntryAgrees(m, env, k, h, draft[h], view[h]);
    if draft[h].pos == MEMPOOL_POS {
      var j :| 1 <= j < k && j < |env.block.vtx| && IsEntryOf(env, j, h, view[h]);
      assert env.block.vtx[j] == txs[j - 1] && prev == txs[j - 1];
    } else if prev.IsCoinBase() || prev.IsCoinStake() {
      StillMature(draft[h].pos, env.at, m.chain, TRANSACTION_MATURITY);
    }
  }

  lemma {:induction false} SameValueIn(m: Maker, env: Env, coinbase: Tx, txs: seq<Tx>, base: Index, k: nat,
                                       draft: Index, view: Index, vin: seq<OutPoint>)
    requires Setting(m, env, coinbase, txs, base) && Agrees(m, env, k, draft, view) && Fetched(draft, m.src, vin)
    ensures Fetched(view, env.src, vin) && ValueIn(view, env.src, vin) == ValueIn(draft, m.src, vin)
  {
    forall i | 0 <= i < |vin| ensures InputFetched(view, env.src, vin[i])
        && PrevTx(view, env.src, vin[i].hash) == PrevTx(draft, m.src, vin[i].hash) {
      SamePrevious(m, env, coinbase, txs, base, k, draft, view, vin[i]);
    }
    if vin != [] {
      SameValueIn(m, env, coinbase, txs, base, k, draft, view, vin[..|vin| - 1]);
    }
  }

  lemma SpendAgrees(m: Maker, env: Env, k: nat, draft: Index, view: Index, op: OutPoint, pos: DiskPos)
    requires Agrees(m, env, k, draft, view) && Spend(draft, op, MEMPOOL_POS).Some? && pos != NullPos
    ensures Spend(view, op, pos).Some? && Agrees(m, env, k, Spend(draft, op, MEMPOOL_POS).value,
                                                 Spend(view, op, pos).value)
  {
    assert EntryAgrees(m, env, k, op.hash, draft[op.hash], view[op.hash]);
    var d, v := Spend(draft, op, MEMPOOL_POS).value, Spend(view, op, pos).value;
    hide EntryOnDisk, IsEntryOf;
    forall h | h in d ensures h in v && EntryAgrees(m, env, k, h, d[h], v[h]) {
      assert EntryAgrees(m, env, k, h, draft[h], view[h]);
      if d[h].pos == MEMPOOL_POS {
        var j :| 1 <= j < k && j < |env.block.vtx| && IsEntryOf(env, j, h, view[h]);
        SameEntryPosition(env, j, h, view[h], v[h]);
      } else {
        SameDiskEntry(m, env, draft[h], d[h]);
      }
    }
  }

  lemma SameEntryPosition(env: Env, j: nat, h: Hash256, e: TxIndex, f: TxIndex)
    requires j < |env.block.vtx| && IsEntryOf(env, j, h, e) && f.pos == e.pos
    ensures IsEntryOf(env, j, h, f)
  {
  }

  lemma SameDiskEntry(m: Maker, env: Env, e: TxIndex, f: TxIndex)
    requires EntryOnDisk(m.src, env.src, env.at, e) && f.pos == e.pos
    ensures EntryOnDisk(m.src, env.src, env.at, f)
  {
  }

  lemma {:induction false} SpendAllAgrees(m: Maker, env: Env, k: nat, draft: Index, view: Index, vin: seq<OutPoint>,
                                          pos: DiskPos)
    requires Agrees(m, env, k, draft, view) && SpendAll(draft, vin, MEMPOOL_POS).Some? && pos != NullPos
    ensures SpendAll(view, vin, pos).Some?
    ensures Agrees(m, env, k, SpendAll(draft, vin, MEMPOOL_POS).value, SpendAll(view, vin, pos).value)
  {
    if vin != [] {
      hide Agrees;
      var init := vin[..|vin| - 1];
      SpendAllAgrees(m, env, k, draft, view, init, pos);
      SpendAgrees(m, env, k, SpendAll(draft, init, MEMPOOL_POS).value, SpendAll(view, init, pos).value, vin[|vin| - 1],
                  pos);
    }
  }

  lemma InputsStillAcceptable(m: Maker, env: Env, coinbase: Tx, txs: seq<Tx>, base: Index, k: nat, draft: Index,
                              view: Index, tx: Tx)
    requires Setting(m, env, coinbase, txs, base) && Agrees(m, env, k, draft, view) && Fetched(draft, m.src, tx.vin)
    requires InputsAcceptable(draft, m.src, m.chain, tx)
    ensures Fetched(view, env.src, tx.vin) && InputsAcceptable(view, env.src, env.chain, tx)
    ensures ValueIn(view, env.src, tx.vin) == ValueIn(draft, m.src, tx.vin)
  {
    hide Setting, Agrees, InputAcceptable, MoneyRange;
    SameValueIn(m, env, coinbase, txs, base, k, draft, view, tx.vin);
    forall i | 0 <= i < |tx.vin| ensures InputAcceptable(view, env.src, env.chain, tx, tx.vin[i]) {
      SameAcceptable(m, env, coinbase, txs, base, k, draft, view, tx, tx.vin[i]);
    }
    forall i | 0 <= i <= |tx.vin| ensures MoneyRange(ValueIn(view, env.src, tx.vin[..i])) {
      SameValueIn(m, env, coinbase, txs, base, k, draft, view, tx.vin[..i]);
    }
  }

  lemma ConnectedAgrees(m: Maker, env: Env, coinbase: Tx, txs: seq<Tx>, base: Index, k: nat, draft: Index, view: Index,
                        tx: Tx, pos: DiskPos)
    requires Setting(m, env, coinbase, txs, base) && Agrees(m, env, k, draft, view) && Fetched(draft, m.src, tx.vin)
             && pos != NullPos
    requires ConnectedInputs(draft, m.src, m.chain, tx, MEMPOOL_POS, m.rules).Some?
    ensures Fetched(view, env.src, tx.vin) && ValueIn(view, env.src, tx.vin) == ValueIn(draft, m.src, tx.vin)
    ensures ConnectedInputs(view, env.src, env.chain, tx, pos, env.rules).Some?
    ensures Agrees(m, env, k, ConnectedInputs(draft, m.src, m.chain, tx, MEMPOOL_POS, m.rules).value,
                   ConnectedInputs(view, env.src, env.chain, tx, pos, env.rules).value)
  {
    assert SameRules(m.rules, env.rules);
    hide Setting, Agrees, InputsAcceptable, SpendAll, ValueIn, ValuesBalance;
    InputsStillAcceptable(m, env, coinbase, txs, base, k, draft, view, tx);
    SpendAllAgrees(m, env, k, draft, view, tx.vin, pos);
  }

  // The draft's entry for a transaction just added agrees with the block's.
  lemma AddAgrees(m: Maker, env: Env, k: nat, draft: Index, view: Index)
    requires Agrees(m, env, k, draft, view) && 1 <= k < |env.block.vtx|
    ensures var tx := env.block.vtx[k];
            Agrees(m, env, k + 1, AddTx(draft, tx, MEMPOOL_POS),
                   AddTx(view, tx, TxPos(env.block, env.at, env.rules.size, k)))
  {
    var tx := env.block.vtx[k];
    var d, v := AddTx(draft, tx, MEMPOOL_POS), AddTx(view, tx, TxPos(env.block, env.at, env.rules.size, k));
    forall h | h in d ensures h in v && EntryAgrees(m, env, k + 1, h, d[h], v[h]) {
      if h == tx.id {
        assert IsEntryOf(env, k, h, v[h]);
      } else {
        assert EntryAgrees(m, env, k, h, draft[h], view[h]);
      }
    }
  }

  lemma BaseAgrees(m: Maker, env: Env, coinbase: Tx, txs: seq<Tx>, base: Index)
    requires Setting(m, env, coinbase, txs, base)
    ensures Agrees(m, env, 1, base, AddTx(base, coinbase, TxPos(env.block, env.at, env.rules.size, 0)))
  {
    var v := AddTx(base, coinbase, TxPos(env.block, env.at, env.rules.size, 0));
    forall h | h in base ensures h in v && EntryAgrees(m, env, 1, h, base[h], v[h]) {
      assert EntryOnDisk(m.src, env.src, env.at, base[h]);
    }
  }

  // Draft and block after the first n transactions of the list.
  predicate InStep(m: Maker, env: Env, n: nat, d: Draft, t: Tally) {
    Agrees(m, env, n + 1, d.view, t.view) && t.fees == d.fees && t.sigOps <= d.sigOps <= m.rules.maxSigOps
  }

  lemma AddInStep(m: Maker, env: Env, coinbase: Tx, txs: seq<Tx>, base: Index, n: nat, d: Draft, t: Tally)
    requires Setting(m, env, coinbase, txs, base) && n < |txs| && InStep(m, env, n, d, t)
    requires AddToDraft(m, d, txs[n]).Some?
    ensures ConnectOne(env, t, n + 1).Some?
    ensures InStep(m, env, n + 1, AddToDraft(m, d, txs[n]).value, ConnectOne(env, t, n + 1).value)
  {
    var tx, pos := txs[n], TxPos(env.block, env.at, env.rules.size, n + 1);
    assert env.block.vtx[n + 1] == tx && !tx.IsCoinBase() && !tx.IsCoinStake() && SameRules(m.rules, env.rules);
    ConnectedAgrees(m, env, coinbase, txs, base, n + 1, d.view, t.view, tx, pos);
    hide Setting, Agrees, ConnectedInputs, Fetched, ValueIn;
    AddAgrees(m, env, n + 1, ConnectedInputs(d.view, m.src, m.chain, tx, MEMPOOL_POS, m.rules).value,
              ConnectedInputs(t.view, env.src, env.chain, tx, pos, env.rules).value);
  }

  lemma {:induction false} DraftInStep(m: Maker, env: Env, coinbase: Tx, txs: seq<Tx>, base: Index, n: nat)
    requires Setting(m, env, coinbase, txs, base) && n <= |txs| && DraftOf(m, base, txs[..n]).Some?
    ensures ConnectPrefix(env, base, n + 1).Some?
    ensures InStep(m, env, n, DraftOf(m, base, txs[..n]).value, ConnectPrefix(env, base, n + 1).value)
  {
    hide Setting, InStep, ConnectOne, AddToDraft;
    SettingLength(m, env, coinbase, txs, base);
    if n == 0 {
      StartInStep(m, env, coinbase, txs, base);
    } else {
      assert txs[..n][..n - 1] == txs[..n - 1];
      DraftInStep(m, env, coinbase, txs, base, n - 1);
      AddInStep(m, env, coinbase, txs, base, n - 1, DraftOf(m, base, txs[..n - 1]).value,
                ConnectPrefix(env, base, n).value);
    }
  }

  lemma SettingLength(m: Maker, env: Env, coinbase: Tx, txs: seq<Tx>, base: Index)
    requires Setting(m, env, coinbase, txs, base)
    ensures |env.block.vtx| == |txs| + 1
  {
  }

  lemma StartInStep(m: Maker, env: Env, coinbase: Tx, txs: seq<Tx>, base: Index)
    requires Setting(m, env, coinbase, txs, base)
    ensures ConnectPrefix(env, base, 1).Some?
    ensures InStep(m, env, 0, DraftOf(m, base, []).value, ConnectPrefix(env, base, 1).value)
  {
    BaseAgrees(m, env, coinbase, txs, base);
    FirstConnects(env, base, coinbase);
  }

  lemma FirstConnects(env: Env, base: Index, coinbase: Tx)
    requires env.block.vtx != [] && env.block.vtx[0] == coinbase && coinbase.IsCoinBase()
    requires env.rules.legacySigOps(coinbase) <= env.rules.maxSigOps
    ensures ConnectPrefix(env, base, 1) ==
            Some(Tally(AddTx(base, coinbase, TxPos(env.block, env.at, env.rules.size, 0)), 0, 0, ValueOut(coinbase), 0,
                       env.rules.legacySigOps(coinbase)))
  {
    assert ConnectPrefix(env, base, 0) == Some(Tally(base, 0, 0, 0, 0, 0));
  }

  // A proof-of-work block made of a draft passes the spent, value, maturity and signature
  // operation checks of ConnectBlock from the same index, pays the fees the draft counted, and
  // with a coinbase of at most the reward for those fees it passes the reward check.
  lemma DraftConnects(m: Maker, env: Env, coinbase: Tx, txs: seq<Tx>, base: Index, height: nat, tipSupply: int)
    requires Setting(m, env, coinbase, txs, base) && DraftOf(m, base, txs).Some?
    requires ValueOut(coinbase) <= ProofOfWorkReward(height, tipSupply, DraftOf(m, base, txs).value.fees)
    ensures ConnectPrefix(env, base, |env.block.vtx|).Some?
    ensures ConnectPrefix(env, base, |env.block.vtx|).value.fees == DraftOf(m, base, txs).value.fees
    ensures RewardOk(env, ConnectPrefix(env, base, |env.block.vtx|).value, height, tipSupply)
    ensures CheckBlock(env.block, env.rules) ==> Connects(env, base, height, tipSupply)
  {
    assert txs[..|txs|] == txs;
    DraftInStep(m, env, coinbase, txs, base, |txs|);
    assert |txs| > 0 ==> env.block.vtx[1] == txs[0];
    assert !env.block.IsProofOfStake();
  }

  // Of the checks on the block alone, only those on its header and on single transactions remain.
  lemma DraftChecks(m: Maker, env: Env, coinbase: Tx, txs: seq<Tx>, base: Index)
    requires Setting(m, env, coinbase, txs, base)
    ensures CheckBlock(env.block, env.rules) <==>
            env.rules.otherBlockChecks(env.block) && forall i ::
              0 <= i < |env.block.vtx| ==> CheckTransaction(env.block.vtx[i], env.rules)
  {
    var vtx := env.block.vtx;
    assert |txs| > 0 ==> vtx[1] == txs[0];
    assert forall i :: 1 <= i < |vtx| ==> vtx[i] == txs[i - 1];
    assert DistinctIds(vtx);
  }
}
