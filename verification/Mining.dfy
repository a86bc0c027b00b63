// From a block template to the best block (src/miner.cpp, CheckWork): a template made on a consistent
// node, stored where no block of the best chain is and accepted while nothing refuses, becomes the
// best block exactly when its header and its single transactions pass their own checks.
module Mining {
  import opened Common
  import opened Ledger
  import opened LedgerProofs
  import opened Supply
  import opened BlockTree
  import opened ChainState
  import opened Template
  import opened Miner

  // ---------------------------------------------------------------- where the index points

  // Where the blocks of a chain are stored.  The genesis block is never connected.
  ghost function PlacesOf(b: BlockIndex): set<BlockPos>
    requires b.Linked()
    decreases b.height
  {
    if b.pprev == null then {} else PlacesOf(b.pprev) + {b.at}
  }

  predicate Placed(pos: DiskPos, places: set<BlockPos>) {
    pos.At? && BlockPos(pos.file, pos.blockPos) in places && pos.txPos > 80
  }

  predicate AllPlaced(view: Index, places: set<BlockPos>) { forall h :: h in view ==> Placed(view[h].pos, places) }

  lemma {:induction false} ApplyTxsPlaced(v: Index, txs: seq<Tx>, ps: seq<DiskPos>, places: set<BlockPos>)
    requires |txs| == |ps| && ApplyTxs(v, txs, ps).Some? && AllPlaced(v, places)
    requires forall k :: 0 <= k < |ps| ==> Placed(ps[k], places)
    ensures AllPlaced(ApplyTxs(v, txs, ps).value, places)
  {
    if txs != [] {
      var n := |txs| - 1;
      ApplyTxsPlaced(v, txs[..n], ps[..n], places);
      var u := ApplyTxs(v, txs[..n], ps[..n]).value;
      SpendAllFacts(u, Inputs(txs[n]), ps[n]);
      var w := SpendAll(u, Inputs(txs[n]), ps[n]).value;
      forall h | h in w ensures Placed(w[h].pos, places) {
        assert EntryMarked(h, u[h], w[h], InputSet(Inputs(txs[n])), ps[n]);
      }
    }
  }

  // Every entry of a chain's index points into a block of that chain.
  lemma {:induction false} ReplayPlaced(b: BlockIndex, size: Tx -> nat)
    requires b.Linked() && Replay(b, size).Some?
    ensures AllPlaced(Replay(b, size).value, PlacesOf(b))
    decreases b.height
  {
    if b.pprev != null {
      ReplayPlaced(b.pprev, size);
      var ps := Positions(b.block, b.at, size);
      forall k | 0 <= k < |ps| ensures Placed(ps[k], PlacesOf(b)) {
        OffsetsPositive(b.block, b.at, size, k);
      }
      hide ApplyTxs;
      ApplyTxsPlaced(Replay(b.pprev, size).value, b.block.vtx, ps, PlacesOf(b));
    }
  }

  // ---------------------------------------------------------------- the stored template

  // The fees of a draft are a sum of fees that are not negative.
  lemma {:induction false} FeesNotNegative(m: Maker, view: Index, txs: seq<Tx>)
    requires DraftOf(m, view, txs).Some? && forall i :: 0 <= i < |txs| ==> !txs[i].IsCoinStake()
    ensures DraftOf(m, view, txs).value.fees >= 0
  {
    if txs != [] {
      FeesNotNegative(m, view, txs[..|txs| - 1]);
      hide Fetched, InputsAcceptable, SpendAll, ValueIn, ValueOut;
    }
  }

  // The coinbase made for a value: new, small, and paying no more.
  ghost predicate GoodCoinBase(tx: Tx, value: int, rules: Rules, used: set<Hash256>) {
    && tx.IsCoinBase() && ValueOut(tx) <= value && tx.id !in used
    && rules.legacySigOps(tx) <= RESERVED_SIGOPS && rules.size(tx) > 0
  }

  lemma IsSetting(m: Maker, env: Env, b: Block, view: Index, places: set<BlockPos>)
    requires b.vtx != [] && env.block == b && b.vtx[0].IsCoinBase() && FromPool(m.src, b.vtx[1..])
    requires SameRules(m.rules, env.rules) && env.chain == [env.at] + m.chain
    requires Grows(m.src, env.src) && BlockOnDisk(env.src, b, env.at, env.rules.size)
    requires AllPlaced(view, places) && env.at !in places
    requires b.vtx[0].id !in view && b.vtx[0].id !in m.src.mempool
    requires m.rules.legacySigOps(b.vtx[0]) <= RESERVED_SIGOPS <= m.rules.maxSigOps
    ensures Setting(m, env, b.vtx[0], b.vtx[1..], view)
  {
    assert b.vtx == [b.vtx[0]] + b.vtx[1..];
    forall h | h in view ensures EntryOnDisk(m.src, env.src, env.at, view[h]) {
      assert Placed(view[h].pos, places);
    }
    forall k | 0 <= k < |b.vtx| ensures TransactionStored(env, k) { }
  }

  // The ids of a template with a new coinbase are new.
  lemma TemplateIds(src: Source, b: Block, used: set<Hash256>)
    requires b.vtx != [] && FromPool(src, b.vtx[1..]) && b.vtx[0].id !in src.mempool && b.vtx[0].id !in used
    requires src.mempool.Keys !! used
    ensures DistinctIds(b.vtx) && Ids(b.vtx) !! used
  {
    forall i | 1 <= i < |b.vtx| ensures b.vtx[i].id in src.mempool {
      assert b.vtx[i] == b.vtx[1..][i - 1];
    }
    forall i, j | 0 <= i < j < |b.vtx| ensures b.vtx[i].id != b.vtx[j].id {
      if i > 0 {
        assert b.vtx[i] == b.vtx[1..][i - 1] && b.vtx[j] == b.vtx[1..][j - 1];
      }
    }
  }

  // The checks that have nothing to do with the index.
  predicate PassesAlone(b: Block, rules: Rules) {
    rules.otherBlockChecks(b) && forall i :: 0 <= i < |b.vtx| ==> CheckTransaction(b.vtx[i], rules)
  }

  // Nothing outside refuses a block that `later` checks.
  function Unrefused(later: Rules): Outside {
    Outside(b => later, b => true, b => true, b => true, (f, b, n) => true, b => true, true)
  }

  // The pool holds nothing that the chain of `tip` has, and the place is free.
  ghost predicate Free(src: Source, tip: BlockIndex, at: BlockPos, size: Tx -> nat)
    requires tip.Linked()
  {
    && src.mempool.Keys !! PathIds(tip) && (forall h :: h in src.mempool ==> size(src.mempool[h]) > 0)
    && at !in PlacesOf(tip) && forall p :: p in src.disk && p.At? ==> BlockPos(p.file, p.blockPos) != at
  }

  lemma FreePlaces(src: Source, tip: BlockIndex, at: BlockPos, size: Tx -> nat, b: Block)
    requires tip.Linked() && Free(src, tip, at, size) && b.vtx != [] && FromPool(src, b.vtx[1..]) && size(b.vtx[0]) > 0
    ensures forall i :: 0 <= i < |b.vtx| ==> size(b.vtx[i]) > 0 && TxPos(b, at, size, i) !in src.disk
  {
    forall i | 0 <= i < |b.vtx| ensures size(b.vtx[i]) > 0 && TxPos(b, at, size, i) !in src.disk {
      if i > 0 {
        assert b.vtx[i] == b.vtx[1..][i - 1];
      }
    }
  }

  // In the state where the template is stored on top of `tip`, it connects exactly when it passes the
  // checks on it alone.
  lemma Joins(node: Node, pindexNew: BlockIndex, tip: BlockIndex, src0: Source, m: Maker, tipSupply: int, fees: int,
              later: Rules)
    requires tip.Linked() && pindexNew.Linked() && pindexNew.pprev == tip && Replay(tip, node.size).Some?
    requires Free(src0, tip, pindexNew.at, node.size) && m.src == src0 && m.chain == tip.ChainPositions()
    requires node.src == src0.(disk := WriteTxs(src0.disk, pindexNew.block, pindexNew.at, node.size,
                                                |pindexNew.block.vtx|))
    requires var b, reward := pindexNew.block, ProofOfWorkReward(pindexNew.height, tipSupply, fees);
             && b.vtx != [] && FromPool(src0, b.vtx[1..])
             && GoodCoinBase(b.vtx[0], reward, m.rules, PathIds(tip) + src0.mempool.Keys)
             && Connectable(m, b, b.vtx[1..], Replay(tip, node.size).value, pindexNew.height, tipSupply, fees)
    requires SameRules(m.rules, later) && m.rules.size == node.size && RESERVED_SIGOPS <= m.rules.maxSigOps
    ensures node.ConnectsOn(pindexNew, tipSupply, Unrefused(later)) <==> PassesAlone(pindexNew.block, later)
  {
    hide Connects, ConnectPrefix, RewardOk, CheckTransaction, ProofOfWorkReward, Setting, AllPlaced, WriteTxs, Replay,
         FromPool;
    var b, view := pindexNew.block, Replay(tip, node.size).value;
    var env := node.EnvOf(pindexNew, node.RulesFor(pindexNew, Unrefused(later)));
    assert env.rules == later;
    ReplayPlaced(tip, node.size);
    FreePlaces(src0, tip, pindexNew.at, node.size, b);
    WriteTxsKeeps(src0, b, pindexNew.at, node.size, |b.vtx|);
    assert view.Keys == PathIds(tip) by { ReplayKeys(tip, node.size); }
    IsSetting(m, env, b, view, PlacesOf(tip));
    assert Stored(m, env, b, b.vtx[1..], view, pindexNew.height, tipSupply, fees);
  }

  // What the template's coinbase and ids are good for.
  lemma Made(w: World, m: Maker, tip: BlockIndex, b: Block, fees: int, tipSupply: int, at: BlockPos,
             coinbase: int -> Tx)
    requires b.vtx != [] && tip.Linked() && IsTemplate(w, m, b.vtx[1..], fees) && Free(w.src, tip, at, m.rules.size)
    requires forall v :: v >= 0 ==> GoodCoinBase(coinbase(v), v, m.rules, PathIds(tip) + w.src.mempool.Keys)
    requires b.vtx[0] == coinbase(ProofOfWorkReward(tip.height + 1, tipSupply, fees))
    ensures var reward := ProofOfWorkReward(tip.height + 1, tipSupply, fees);
            FromPool(w.src, b.vtx[1..]) && GoodCoinBase(b.vtx[0], reward, m.rules, PathIds(tip) + w.src.mempool.Keys)
    ensures DistinctIds(b.vtx) && Ids(b.vtx) !! PathIds(tip)
    ensures forall i :: 0 <= i < |b.vtx| ==> m.rules.size(b.vtx[i]) > 0 && TxPos(b, at, m.rules.size, i) !in w.src.disk
  {
    hide DraftOf, Excused, Missing, ParentsFirst, GoodCoinBase;
    FeesNotNegative(m, w.view, b.vtx[1..]);
    HalveNonNegative(STANDARD_REWARD, (tip.height + 1) / 210000);
    HalveNonNegative(RESERVE_REWARD, (tip.height + 1) / 210000);
    var reward := ProofOfWorkReward(tip.height + 1, tipSupply, fees);
    assert reward >= 0;
    hide ProofOfWorkReward, FromPool, IsTemplate, Free;
    New(b.vtx[0], reward, m.rules, PathIds(tip), w.src.mempool.Keys);
    Parts(w, m, b, fees, tip, at);
    TemplateIds(w.src, b, PathIds(tip));
    FreePlaces(w.src, tip, at, m.rules.size, b);
  }

  lemma New(tx: Tx, value: int, rules: Rules, used: set<Hash256>, pool: set<Hash256>)
    requires GoodCoinBase(tx, value, rules, used + pool)
    ensures tx.id !in used && tx.id !in pool && rules.size(tx) > 0
  {
  }

  lemma Parts(w: World, m: Maker, b: Block, fees: int, tip: BlockIndex, at: BlockPos)
    requires b.vtx != [] && tip.Linked() && IsTemplate(w, m, b.vtx[1..], fees) && Free(w.src, tip, at, m.rules.size)
    ensures FromPool(w.src, b.vtx[1..]) && w.src.mempool.Keys !! PathIds(tip)
  {
  }

  // A child of the best block is adopted exactly when it connects.
  lemma ChildAdopted(node: Node, pindexNew: BlockIndex, tip: BlockIndex, tipSupply: int, later: Rules)
    requires tip.Linked() && pindexNew.Linked() && pindexNew.pprev == tip
    ensures Unrefused(later).accepts
    ensures node.Adoptable(pindexNew, tip, tipSupply, Unrefused(later))
            <==> node.ConnectsOn(pindexNew, tipSupply, Unrefused(later))
    ensures node.PostponedConnect(pindexNew, tip, tipSupply, Unrefused(later))
  {
    hide Node.ConnectsOn;
    assert FirstAbove(pindexNew, tip.trust) == pindexNew;
  }

  lemma StoredIsReplay(node: Node)
    requires node.Valid() && node.best.Linked()
    ensures Replay(node.best, node.size) == Some(node.db.View()) && node.best in node.blocks
  {
  }

  lemma MadeOn(src: Source, rules: Rules, pindexPrev: BlockIndex, latest: nat, maxSize: nat, minSize: nat,
               cheap: Tx -> bool)
    requires pindexPrev.Linked()
    ensures var m := MakerOn(src, rules, pindexPrev, latest, maxSize, minSize, cheap);
            m.src == src && m.chain == pindexPrev.ChainPositions() && m.rules == rules
  {
  }

  // Makes a template on the best block, stores it at a free place, and offers it to the node.
  method MineBlock(node: Node, final: Tx -> bool, rules: Rules, later: Rules, now: nat, maxSizeArgument: nat,
                   minSizeArgument: nat, cheap: Tx -> bool, coinbase: int -> Tx, hash: Hash256, at: BlockPos,
                   ownTrust: nat)
    returns (ok: bool, b: Block)
    requires node.Valid() && node.best.Linked() && Closed(World(node.db.View(), node.src, final))
    requires rules.size == node.size && SameRules(rules, later) && RESERVED_SIGOPS <= rules.maxSigOps
    requires Free(node.src, node.best, at, node.size) && ownTrust > 0 && forall x :: x in node.blocks ==> x.hash != hash
    requires forall v :: v >= 0 ==> GoodCoinBase(coinbase(v), v, rules, PathIds(node.best) + node.src.mempool.Keys)
    modifies node, node.db, node.blocks
    ensures node.Valid() && (ok <==> PassesAlone(b, later))
    ensures if ok then node.best.block == b && node.best.hash == hash && node.best.pprev == old(node.best)
            else node.best == old(node.best)
  {
    hide *;
    ghost var tip, supply, src0, view := node.best, node.best.moneySupply, node.src, node.db.View();
    ghost var m := MakerOn(src0, rules, tip, Latest(false, now, coinbase(0).time), maxSizeArgument, minSizeArgument,
                           cheap);
    MadeOn(src0, rules, tip, Latest(false, now, coinbase(0).time), maxSizeArgument, minSizeArgument, cheap);
    StoredIsReplay(node);
    var fees;
    b, fees := CreateNewBlock(node.db, node.src, final, rules, node.best, node.best.moneySupply, false, now,
                              maxSizeArgument, minSizeArgument, cheap, coinbase);
    Made(World(view, src0, final), m, tip, b, fees, supply, at, coinbase);
    var pindexNew;
    Willing(later);
    ok, pindexNew := node.AcceptBlock(hash, node.best, b, at, ownTrust, Unrefused(later));
    OneHigher(pindexNew, tip);
    ChildAdopted(node, pindexNew, tip, supply, later);
    Joins(node, pindexNew, tip, src0, m, supply, fees, later);
  }

  lemma Willing(later: Rules)
    ensures Unrefused(later).accepts
  {
  }

  lemma OneHigher(b: BlockIndex, tip: BlockIndex)
    requires b.Linked() && b.pprev == tip
    ensures b.height == tip.height + 1
  {
  }
}
