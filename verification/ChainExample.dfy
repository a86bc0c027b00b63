// A run of the block tree in which SetBestChain succeeds and leaves the node inconsistent: the
// postponed block pays itself more than the reward, and becomes the best block all the same.
module ChainExample {
  import opened Common
  import opened Ledger
  import opened LedgerProofs
  import opened BlockTree
  import opened ChainState
  import Template

  function Pays(id: Hash256, value: int): Tx { Tx(id, 0, [OutPoint(0, UINT32_MAX)], [TxOut(value, false)]) }

  // A block with nothing but a coinbase.
  function Mined(id: Hash256, value: int): Block { Block([Pays(id, value)]) }

  // Every check outside the model passes.
  const LENIENT := Rules((tx, i) => true, tx => 0, tx => 0, 1, tx => 1, tx => true, b => true, tx => true)
  const WILLING := Outside(b => LENIENT, b => true, b => true, b => true, (f, b, n) => true, b => true, true)

  // ... but no batch can be written.
  const UNWRITABLE := WILLING.(commits := b => false)

  lemma MinedChecks(id: Hash256, value: int, rules: Rules)
    requires MoneyRange(value) && rules == LENIENT.(size := rules.size)
    ensures CheckBlock(Mined(id, value), rules) && ValueOut(Pays(id, value)) == value
  {
    var tx := Pays(id, value);
    assert tx.vout[..0] == [] && tx.vout[..1] == tx.vout;
    assert OutputsInRange(tx);
    assert CheckTransaction(tx, rules);
  }

  // Such a block connects to any index exactly when it pays no more than the reward.
  lemma MinedConnects(env: Env, view: Index, id: Hash256, value: int, height: nat, tipSupply: int)
    requires env.block == Mined(id, value) && env.rules == LENIENT.(size := env.rules.size) && MoneyRange(value)
    ensures Connects(env, view, height, tipSupply) <==> value <= ProofOfWorkReward(height, tipSupply, 0)
  {
    hide ProofOfWorkReward, CheckBlock, ConnectOne;
    MinedChecks(id, value, env.rules);
    Template.FirstConnects(env, view, Pays(id, value));
  }

  const SIZE: Tx -> nat := tx => 1

  lemma MinedIds(id: Hash256, value: int)
    ensures DistinctIds(Mined(id, value).vtx) && Ids(Mined(id, value).vtx) == {id}
    ensures |Mined(id, value).vtx| == 1 && SIZE(Mined(id, value).vtx[0]) > 0
  {
    var txs := Mined(id, value).vtx;
    assert txs[0].id == id;
  }

  lemma PathIdsOf(b: BlockIndex, id: Hash256, value: int)
    requires b.Linked()
    ensures b.pprev == null ==> PathIds(b) == {}
    ensures b.pprev != null && b.pprev.pprev == null && b.block == Mined(id, value) ==> PathIds(b) == {id}
  {
    MinedIds(id, value);
  }

  // A block written elsewhere leaves the place of another one free.
  lemma FreePlace(b: Block, c: Block, at: BlockPos, at': BlockPos)
    requires |b.vtx| == 1 && |c.vtx| == 1 && at != at'
    ensures TxPos(c, at', SIZE, 0) !in WriteTxs(map[], b, at, SIZE, 1)
  {
    assert WriteTxs(map[], b, at, SIZE, 0) == map[];
  }

  // A node that could not write its second block: it stays at the genesis block, but knows that one.
  method OneRefused() returns (node: Node, good: BlockIndex)
    ensures node.Valid() && node.best == node.genesis && node.best.moneySupply == 0 && node.best.trust == 1
    ensures node.blocks == {node.genesis, good} && good != node.genesis && node.genesis.hash == 0 && good.hash == 1
    ensures node.genesis.Linked() && node.genesis.pprev == null && node.size == SIZE
    ensures good.Linked() && good.pprev == node.genesis && good.block == Mined(1, 1) && good.trust == 2
    ensures node.src.disk == WriteTxs(map[], Mined(1, 1), BlockPos(1, 1000), SIZE, 1)
    ensures fresh(node) && fresh(node.db) && fresh(node.blocks)
  {
    hide *;
    var genesis := new BlockIndex(0, null, Mined(0, 0), BlockPos(1, 8), 1);
    Root(genesis);
    node := new Node(SIZE, genesis, Source(map[], map[]));
    MinedIds(1, 1);
    PathIdsOf(genesis, 1, 1);
    Accepting();
    GenesisSupply(node);
    var ok, pindexNew := node.AcceptBlock(1, genesis, Mined(1, 1), BlockPos(1, 1000), 1, UNWRITABLE);
    good := pindexNew;
    NotWritten(node, good, genesis);
    GenesisSupply(node);
  }

  lemma NotWritten(node: Node, b: BlockIndex, tip: BlockIndex)
    requires b.Linked() && b.pprev == tip && tip.Linked()
    ensures !node.Adoptable(b, tip, 0, UNWRITABLE)
  {
  }

  lemma Accepting()
    ensures WILLING.accepts && UNWRITABLE.accepts
  {
  }

  lemma GenesisSupply(node: Node)
    requires node.Valid() && node.best.Linked() && node.best.pprev == null
    ensures node.best.moneySupply == 0
  {
    assert Reaches(node.best, node.best);
    node.SupplyStep(node.best);
  }

  lemma Root(genesis: BlockIndex)
    requires genesis.pprev == null && genesis.height == 0
    ensures genesis.Linked()
  {
  }

  lemma GoodJoins(node: Node, good: BlockIndex)
    requires node.genesis.Linked() && good.Linked() && good.pprev == node.genesis && node.genesis.pprev == null
             && good.block == Mined(1, 1)
    ensures node.Joins(good, 0, WILLING)
  {
    hide Connects, ProofOfWorkReward;
    var rules := node.RulesFor(good, WILLING);
    FirstReward();
    MinedConnects(node.EnvOf(good, rules), map[], 1, 1, 1, 0);
  }

  // Reorganize can switch to the good block, and the bad one does not reconnect.
  lemma Refused(node: Node, good: BlockIndex, bad: BlockIndex)
    requires node.genesis.Linked() && node.genesis.pprev == null && node.genesis.trust == 1
    requires good.Linked() && good.pprev == node.genesis && good.block == Mined(1, 1) && good.trust == 2
    requires bad.Linked() && bad.pprev == good && bad.block == Mined(2, RESERVE_REWARD + 1)
    requires node.blocks == {node.genesis, good, bad}
    ensures node.Adoptable(bad, node.genesis, 0, WILLING)
    ensures !node.PostponedConnect(bad, node.genesis, 0, WILLING)
  {
    hide Connects, ProofOfWorkReward, Replay;
    GoodJoins(node, good);
    FirstReward();
    assert FirstAbove(good, 1) == good;
    assert node.Intermediate(bad, node.genesis) == good;
    assert node.BranchJoins(good, node.genesis, 0, WILLING) && node.BranchReadable(node.genesis, good, WILLING);
    if Replay(good, node.size).Some? {
      var rules := node.RulesFor(bad, WILLING);
      MinedConnects(node.EnvOf(bad, rules), Replay(good, node.size).value, 2, RESERVE_REWARD + 1, 2, 0);
    }
  }

  // On top of that one arrives a block that pays itself too much.  Every answer from outside is yes
  // now, the block is accepted, and the best block is one that does not connect.
  method InvalidBlockBecomesBest() returns (node: Node)
    ensures node.best.Linked() && node.best.pprev != null && node.best.block == Mined(2, RESERVE_REWARD + 1)
    ensures !node.Valid() && !node.MainChainRight()
  {
    hide *;
    var good;
    node, good := OneRefused();
    MinedIds(1, 1);
    MinedIds(2, RESERVE_REWARD + 1);
    PathIdsOf(good, 1, 1);
    FreePlace(Mined(1, 1), Mined(2, RESERVE_REWARD + 1), BlockPos(1, 1000), BlockPos(1, 2000));
    Accepting();
    var ok, bad := node.AcceptBlock(2, good, Mined(2, RESERVE_REWARD + 1), BlockPos(1, 2000), 1, WILLING);
    Refused(node, good, bad);
    assert ok;
  }

  lemma FirstReward()
    ensures 1 <= ProofOfWorkReward(1, 0, 0)
    ensures ProofOfWorkReward(2, 0, 0) == RESERVE_REWARD
  {
  }
}
