// Transactions, the transaction index, and what connecting or disconnecting a block does to it
// (src/main.h: CTransaction, CTxIndex; src/main.cpp: FetchInputs, ConnectInputs, ConnectBlock,
// DisconnectInputs, DisconnectBlock).  This module holds the specification functions; the
// step-by-step operations proved against them are in module Connect.
module Ledger {
  import opened Common

  // ---------------------------------------------------------------- data

  const COIN: int := 100000000
  const MAX_SINGLE_TX: int := 100000000 * COIN
  const UINT32_MAX: nat := 0xFFFF_FFFF

  datatype OutPoint = OutPoint(hash: Hash256, n: nat) {
    predicate IsNull() { hash == 0 && n == UINT32_MAX }
  }

  datatype TxOut = TxOut(value: int, scriptEmpty: bool) {
    predicate IsEmpty() { value == 0 && scriptEmpty }
  }

  // `id` stands for GetHash(); scripts, versions and lock times are not part of the model.
  datatype Tx = Tx(id: Hash256, time: nat, vin: seq<OutPoint>, vout: seq<TxOut>) {
    predicate IsCoinBase() { |vin| == 1 && vin[0].IsNull() && |vout| >= 1 }
    predicate IsCoinStake() { |vin| > 0 && !vin[0].IsNull() && |vout| >= 2 && vout[0].IsEmpty() }
  }

  // CDiskTxPos; NullPos is the position whose nFile is -1.
  datatype DiskPos = NullPos | At(file: nat, blockPos: nat, txPos: nat)

  // The position that tells FetchInputs to look in the memory pool.
  const MEMPOOL_POS: DiskPos := At(1, 1, 1)

  datatype TxIndex = TxIndex(pos: DiskPos, spent: seq<DiskPos>)

  type Index = map<Hash256, TxIndex>

  // Where a previous transaction can be read from.
  datatype Source = Source(disk: map<DiskPos, Tx>, mempool: map<Hash256, Tx>)

  datatype BlockPos = BlockPos(file: nat, pos: nat)

  datatype Block = Block(vtx: seq<Tx>) {
    predicate IsProofOfStake() { |vtx| > 1 && vtx[1].IsCoinStake() }
  }

  // Checks whose inputs are outside the model, as arbitrary functions that may reject.
  datatype Rules = Rules(
    signatureValid: (Tx, nat) -> bool,   // VerifySignature of one input, or skipped below the last checkpoint
    legacySigOps: Tx -> nat,
    p2shSigOps: Tx -> nat,
    maxSigOps: nat,
    size: Tx -> nat,                     // GetSerializeSize
    otherTxChecks: Tx -> bool,           // size limit and coinbase script length
    otherBlockChecks: Block -> bool,     // size, proof of work, timestamps, Merkle root
    coinAgeReadable: Tx -> bool)         // GetCoinAge succeeds

  // ---------------------------------------------------------------- values

  predicate MoneyRange(v: int) { 0 <= v <= MAX_SINGLE_TX }

  function SumOuts(outs: seq<TxOut>): int {
    if outs == [] then 0 else SumOuts(outs[..|outs| - 1]) + outs[|outs| - 1].value
  }

  function ValueOut(tx: Tx): int { SumOuts(tx.vout) }

  // ---------------------------------------------------------------- context-free checks

  predicate OutputsInRange(tx: Tx) {
    && (forall i :: 0 <= i < |tx.vout| ==> MoneyRange(tx.vout[i].value))
    && (forall i :: 0 <= i <= |tx.vout| ==> MoneyRange(SumOuts(tx.vout[..i])))
  }

  predicate DistinctInputs(vin: seq<OutPoint>) {
    forall i, j :: 0 <= i < j < |vin| ==> vin[i] != vin[j]
  }

  predicate CheckTransaction(tx: Tx, rules: Rules) {
    && tx.vin != [] && tx.vout != []
    && rules.otherTxChecks(tx)
    && (!tx.IsCoinBase() && !tx.IsCoinStake() ==> forall i :: 0 <= i < |tx.vout| ==> !tx.vout[i].IsEmpty())
    && OutputsInRange(tx)
    && DistinctInputs(tx.vin)
    && (!tx.IsCoinBase() ==> forall i :: 0 <= i < |tx.vin| ==> !tx.vin[i].IsNull())
  }

  predicate DistinctIds(txs: seq<Tx>) {
    forall i, j :: 0 <= i < j < |txs| ==> txs[i].id != txs[j].id
  }

  predicate CheckBlock(b: Block, rules: Rules) {
    && b.vtx != []
    && rules.otherBlockChecks(b)
    && b.vtx[0].IsCoinBase()
    && (forall i :: 1 <= i < |b.vtx| ==> !b.vtx[i].IsCoinBase())
    && (b.IsProofOfStake() ==>
          && |b.vtx[0].vout| == 1 && b.vtx[0].vout[0].IsEmpty()
          && forall i :: 2 <= i < |b.vtx| ==> !b.vtx[i].IsCoinStake())
    && (forall i :: 0 <= i < |b.vtx| ==> CheckTransaction(b.vtx[i], rules))
    && DistinctIds(b.vtx)
  }

  // ---------------------------------------------------------------- the index effect of a block

  // Sets one spent slot.  None when the previous transaction is not indexed, the slot does not
  // exist, or it is already taken.
  function Spend(view: Index, op: OutPoint, spender: DiskPos): Option<Index> {
    if op.hash !in view || op.n >= |view[op.hash].spent| || view[op.hash].spent[op.n] != NullPos then None
    else Some(view[op.hash := view[op.hash].(spent := view[op.hash].spent[op.n := spender])])
  }

  function SpendAll(view: Index, vin: seq<OutPoint>, spender: DiskPos): Option<Index> {
    if vin == [] then Some(view)
    else
      match SpendAll(view, vin[..|vin| - 1], spender)
      case None => None
      case Some(v) => Spend(v, vin[|vin| - 1], spender)
  }

  function NullSlots(n: nat): (s: seq<DiskPos>)
    ensures |s| == n && forall i :: 0 <= i < n ==> s[i] == NullPos
  {
    seq(n, _ => NullPos)
  }

  function Inputs(tx: Tx): seq<OutPoint> { if tx.IsCoinBase() then [] else tx.vin }

  function AddTx(view: Index, tx: Tx, pos: DiskPos): Index {
    view[tx.id := TxIndex(pos, NullSlots(|tx.vout|))]
  }

  function ApplyTx(view: Index, tx: Tx, pos: DiskPos): Option<Index> {
    match SpendAll(view, Inputs(tx), pos)
    case None => None
    case Some(v) => Some(AddTx(v, tx, pos))
  }

  function ApplyTxs(view: Index, txs: seq<Tx>, positions: seq<DiskPos>): Option<Index>
    requires |txs| == |positions|
  {
    if txs == [] then Some(view)
    else
      var last := |txs| - 1;
      match ApplyTxs(view, txs[..last], positions[..last])
      case None => None
      case Some(v) => ApplyTx(v, txs[last], positions[last])
  }

  // Where the serialized transactions of a block start: the 80 header bytes and the count.
  function CompactSizeLength(n: nat): nat {
    if n < 253 then 1 else if n <= 0xFFFF then 3 else if n <= 0xFFFF_FFFF then 5 else 9
  }

  function TxOffset(b: Block, at: BlockPos, size: Tx -> nat, k: nat): nat
    requires k <= |b.vtx|
  {
    if k == 0 then at.pos + 80 + CompactSizeLength(|b.vtx|)
    else TxOffset(b, at, size, k - 1) + size(b.vtx[k - 1])
  }

  function TxPos(b: Block, at: BlockPos, size: Tx -> nat, k: nat): DiskPos
    requires k <= |b.vtx|
  {
    At(at.file, at.pos, TxOffset(b, at, size, k))
  }

  function Positions(b: Block, at: BlockPos, size: Tx -> nat): (ps: seq<DiskPos>)
    ensures |ps| == |b.vtx|
  {
    seq(|b.vtx|, k requires 0 <= k < |b.vtx| => TxPos(b, at, size, k))
  }

  function ApplyBlock(view: Index, b: Block, at: BlockPos, size: Tx -> nat): Option<Index> {
    ApplyTxs(view, b.vtx, Positions(b, at, size))
  }

  // ---------------------------------------------------------------- undoing a block

  function Unspend(view: Index, op: OutPoint): Option<Index> {
    if op.hash !in view || op.n >= |view[op.hash].spent| then None
    else Some(view[op.hash := view[op.hash].(spent := view[op.hash].spent[op.n := NullPos])])
  }

  function UnspendAll(view: Index, vin: seq<OutPoint>): Option<Index> {
    if vin == [] then Some(view)
    else
      match UnspendAll(view, vin[..|vin| - 1])
      case None => None
      case Some(v) => Unspend(v, vin[|vin| - 1])
  }

  function UndoTx(view: Index, tx: Tx): Option<Index> {
    match UnspendAll(view, Inputs(tx))
    case None => None
    case Some(v) => Some(v - {tx.id})
  }

  // The last transaction is undone first.
  function UndoTxs(view: Index, txs: seq<Tx>): Option<Index>
    decreases |txs|
  {
    if txs == [] then Some(view)
    else
      match UndoTx(view, txs[|txs| - 1])
      case None => None
      case Some(v) => UndoTxs(v, txs[..|txs| - 1])
  }

  // ---------------------------------------------------------------- reading previous transactions

  function PrevTx(view: Index, src: Source, h: Hash256): Option<Tx> {
    if h !in view then None
    else if view[h].pos == MEMPOOL_POS then
      if h in src.mempool then Some(src.mempool[h]) else None
    else
      if view[h].pos in src.disk then Some(src.disk[view[h].pos]) else None
  }

  predicate InputFetched(view: Index, src: Source, op: OutPoint) {
    && PrevTx(view, src, op.hash).Some?
    && op.n < |PrevTx(view, src, op.hash).value.vout|
    && op.n < |view[op.hash].spent|
  }

  predicate Fetched(view: Index, src: Source, vin: seq<OutPoint>) {
    forall i :: 0 <= i < |vin| ==> InputFetched(view, src, vin[i])
  }

  function OutputOf(view: Index, src: Source, op: OutPoint): TxOut
    requires InputFetched(view, src, op)
  {
    PrevTx(view, src, op.hash).value.vout[op.n]
  }

  function ValueIn(view: Index, src: Source, vin: seq<OutPoint>): int
    requires Fetched(view, src, vin)
  {
    if vin == [] then 0
    else ValueIn(view, src, vin[..|vin| - 1]) + OutputOf(view, src, vin[|vin| - 1]).value
  }

  // IsConfirmedInNPrevBlocks: `chain` lists the stored positions of the block and its ancestors.
  predicate ConfirmedWithin(pos: DiskPos, chain: seq<BlockPos>, depth: nat) {
    exists i :: 0 <= i < |chain| && i < depth && pos.At? && chain[i] == BlockPos(pos.file, pos.blockPos)
  }

  const TRANSACTION_MATURITY: nat := 10

  // The checks on one input, given the previous transaction, its stored position and the output index.
  predicate OutputSpendable(prev: Tx, pos: DiskPos, n: nat, chain: seq<BlockPos>, tx: Tx)
    requires n < |prev.vout|
  {
    && (prev.IsCoinBase() || prev.IsCoinStake() ==> !ConfirmedWithin(pos, chain, TRANSACTION_MATURITY))
    && prev.time <= tx.time
    && !prev.vout[n].IsEmpty()
    && MoneyRange(prev.vout[n].value)
  }

  predicate InputAcceptable(view: Index, src: Source, chain: seq<BlockPos>, tx: Tx, op: OutPoint)
    requires InputFetched(view, src, op)
  {
    OutputSpendable(PrevTx(view, src, op.hash).value, view[op.hash].pos, op.n, chain, tx)
  }

  predicate InputsAcceptable(view: Index, src: Source, chain: seq<BlockPos>, tx: Tx)
    requires Fetched(view, src, tx.vin)
  {
    && (forall i :: 0 <= i < |tx.vin| ==> InputAcceptable(view, src, chain, tx, tx.vin[i]))
    && (forall i :: 0 <= i <= |tx.vin| ==> MoneyRange(ValueIn(view, src, tx.vin[..i])))
  }

  predicate ValuesBalance(tx: Tx, valueIn: int) {
    !tx.IsCoinStake() ==> ValueOut(tx) <= valueIn && MoneyRange(valueIn - ValueOut(tx))
  }

  // What ConnectInputs does with a transaction that is not a coinbase: the new index view, or None.
  function ConnectedInputs(view: Index, src: Source, chain: seq<BlockPos>, tx: Tx, pos: DiskPos,
                           rules: Rules): Option<Index>
    requires Fetched(view, src, tx.vin)
  {
    if !InputsAcceptable(view, src, chain, tx) then None
    else if exists i :: 0 <= i < |tx.vin| && !rules.signatureValid(tx, i) then None
    else if !ValuesBalance(tx, ValueIn(view, src, tx.vin)) then None
    else SpendAll(view, tx.vin, pos)
  }

  // ---------------------------------------------------------------- connecting a block

  datatype Env = Env(src: Source, chain: seq<BlockPos>, block: Block, at: BlockPos, rules: Rules)

  // Running totals of ConnectBlock.
  datatype Tally = Tally(view: Index, fees: int, valueIn: int, valueOut: int, stake: int, sigOps: nat)

  function ConnectOne(env: Env, t: Tally, k: nat): Option<Tally>
    requires k < |env.block.vtx|
  {
    var tx := env.block.vtx[k];
    var pos := TxPos(env.block, env.at, env.rules.size, k);
    var sigOps := t.sigOps + env.rules.legacySigOps(tx);
    if sigOps > env.rules.maxSigOps then None
    else if tx.IsCoinBase() then
      Some(t.(view := AddTx(t.view, tx, pos), valueOut := t.valueOut + ValueOut(tx), sigOps := sigOps))
    else if !Fetched(t.view, env.src, tx.vin) then None
    else if sigOps + env.rules.p2shSigOps(tx) > env.rules.maxSigOps then None
    else
      var vIn := ValueIn(t.view, env.src, tx.vin);
      match ConnectedInputs(t.view, env.src, env.chain, tx, pos, env.rules)
      case None => None
      case Some(v) =>
        Some(Tally(
               AddTx(v, tx, pos),
               if tx.IsCoinStake() then t.fees else t.fees + vIn - ValueOut(tx),
               t.valueIn + vIn,
               t.valueOut + ValueOut(tx),
               if tx.IsCoinStake() then ValueOut(tx) - vIn else t.stake,
               sigOps + env.rules.p2shSigOps(tx)))
  }

  function ConnectPrefix(env: Env, view: Index, k: nat): Option<Tally>
    requires k <= |env.block.vtx|
  {
    if k == 0 then Some(Tally(view, 0, 0, 0, 0, 0))
    else
      match ConnectPrefix(env, view, k - 1)
      case None => None
      case Some(t) => ConnectOne(env, t, k - 1)
  }

  // ---------------------------------------------------------------- rewards (src/blockparams.cpp)

  const STANDARD_REWARD: int := 625000000          // 6.25 coins
  const RESERVE_REWARD: int := 90000 * COIN
  const RESERVE_PHASE_START: int := 1

  function Halve(v: int, times: nat): int {
    if times == 0 then v else Halve(v, times - 1) / 2
  }

  function ProofOfWorkReward(height: nat, tipSupply: int, fees: int): int {
    if height <= RESERVE_PHASE_START && tipSupply > MAX_SINGLE_TX then fees
    else
      var subsidy := if height > RESERVE_PHASE_START && tipSupply < RESERVE_REWARD * 100
                     then RESERVE_REWARD else STANDARD_REWARD;
      Halve(subsidy, height / 210000) + fees
  }

  function ProofOfStakeReward(height: nat, tipSupply: int, fees: int): int {
    if height <= RESERVE_PHASE_START && tipSupply > MAX_SINGLE_TX then fees
    else
      (if height > RESERVE_PHASE_START && tipSupply < RESERVE_REWARD * 100
       then RESERVE_REWARD else STANDARD_REWARD) + fees
  }

  function BlockReward(b: Block, height: nat, tipSupply: int, fees: int): int {
    if b.IsProofOfStake() then ProofOfStakeReward(height, tipSupply, fees)
    else ProofOfWorkReward(height, tipSupply, fees)
  }

  predicate RewardOk(env: Env, t: Tally, height: nat, tipSupply: int)
    requires env.block.vtx != []
  {
    if env.block.IsProofOfStake() then
      env.rules.coinAgeReadable(env.block.vtx[1]) && t.stake <= ProofOfStakeReward(height, tipSupply, t.fees)
    else
      ValueOut(env.block.vtx[0]) <= ProofOfWorkReward(height, tipSupply, t.fees)
  }

  // The block passes every check of ConnectBlock from index `view`.
  predicate Connects(env: Env, view: Index, height: nat, tipSupply: int) {
    && CheckBlock(env.block, env.rules)
    && ConnectPrefix(env, view, |env.block.vtx|).Some?
    && RewardOk(env, ConnectPrefix(env, view, |env.block.vtx|).value, height, tipSupply)
  }
}
