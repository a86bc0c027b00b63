// ConnectBlock computes the reward from the supply of the best block, which during a reorganization
// is not the parent.  When that reward is stale, and only then, a block can create more than the
// reward at its parent's supply.
module StaleReward {
  import opened Common
  import opened Ledger
  import opened LedgerProofs
  import opened Supply
  import opened Rewards
  import opened BlockTree
  import opened ChainExample

  // A proof-of-work block without coinstake connects to `view` while the best block's supply is `tip`.
  ghost predicate Connected(env: Env, view: Index, src: Source, height: nat, tip: int) {
    && Grows(src, env.src) && !env.block.IsProofOfStake() && NoCoinStake(env.block)
    && Connects(env, view, height, tip)
    && BlockOnDisk(env.src, env.block, env.at, env.rules.size) && Ids(env.block.vtx) !! view.Keys
  }

  ghost predicate WithinReward(env: Env, view: Index, height: nat, supply: int)
  {
    && ApplyBlock(view, env.block, env.at, env.rules.size).Some?
    && TotalUnspent(ApplyBlock(view, env.block, env.at, env.rules.size).value, env.src)
       <= supply + ProofOfWorkReward(height, supply, 0)
  }

  // Every such block keeps to the reward at its parent's supply exactly when the reward at the best
  // block's supply is not stale.
  lemma StaleRewardExactly(view: Index, src: Source, height: nat, tip: int, id: Hash256, at: BlockPos)
    requires WellIndexed(view, src) && id !in view && TxPos(Mined(id, 0), at, SIZE, 0) !in src.disk
    ensures var supply := TotalUnspent(view, src);
            (forall env :: Connected(env, view, src, height, tip) ==> WithinReward(env, view, height, supply))
            <==> !Stale(Mined(id, 0), height, tip, supply)
  {
    hide Connects, TotalUnspent, WellIndexed, Stale, ProofOfWorkReward, ApplyBlock, BlockOnDisk;
    var supply := TotalUnspent(view, src);
    MinedReward(id, height, tip, supply);
    forall env | Connected(env, view, src, height, tip) && !Stale(Mined(id, 0), height, tip, supply)
      ensures WithinReward(env, view, height, supply)
    {
      GrowTotal(view, src, env.src);
      IncreaseBoundedByReward(env, view, height, tip);
    }
    if Stale(Mined(id, 0), height, tip, supply) {
      var env := PaidStale(view, src, height, tip, id, at);
      assert Connected(env, view, src, height, tip) && !WithinReward(env, view, height, supply);
    }
  }

  lemma MinedReward(id: Hash256, height: nat, tip: int, supply: int)
    ensures ProofOfWorkReward(height, tip, 0) > ProofOfWorkReward(height, supply, 0)
            <==> Stale(Mined(id, 0), height, tip, supply)
    ensures MoneyRange(ProofOfWorkReward(height, tip, 0))
  {
    StaleExactly(Mined(id, 0), height, tip, supply);
    RewardAtZeroFees(Mined(id, 0), height, tip, 0);
    hide ProofOfWorkReward;
  }

  // A block that pays the reward at the best block's supply.
  lemma PaidStale(view: Index, src: Source, height: nat, tip: int, id: Hash256, at: BlockPos) returns (env: Env)
    requires WellIndexed(view, src) && id !in view && TxPos(Mined(id, 0), at, SIZE, 0) !in src.disk
    requires Stale(Mined(id, 0), height, tip, TotalUnspent(view, src))
    ensures Connected(env, view, src, height, tip) && !WithinReward(env, view, height, TotalUnspent(view, src))
  {
    var value := ProofOfWorkReward(height, tip, 0);
    var b, pos := Mined(id, value), TxPos(Mined(id, 0), at, SIZE, 0);
    env := Env(src.(disk := src.disk[pos := Pays(id, value)]), [at], b, at, LENIENT.(size := SIZE));
    hide ProofOfWorkReward, Stale, Connects, TotalUnspent, WellIndexed, ApplyBlock, CheckBlock, OutputsInRange;
    MinedReward(id, height, tip, TotalUnspent(view, src));
    MinedIds(id, value);
    MinedConnects(env, view, id, value, height, tip);
    assert NoCoinStake(b) && !b.IsProofOfStake();
    assert BlockOnDisk(env.src, b, at, SIZE);
    MinedTotal(env, view, src, id, value);
  }

  lemma MinedTotal(env: Env, view: Index, src: Source, id: Hash256, value: int)
    requires WellIndexed(view, src) && Grows(src, env.src) && id !in view && MoneyRange(value)
    requires env.block == Mined(id, value) && env.rules == LENIENT.(size := env.rules.size)
    requires BlockOnDisk(env.src, env.block, env.at, env.rules.size)
    ensures ApplyBlock(view, env.block, env.at, env.rules.size).Some?
    ensures TotalUnspent(ApplyBlock(view, env.block, env.at, env.rules.size).value, env.src) == TotalUnspent(view, src)
            + value
  {
    hide ConnectOne, WellIndexed, TotalUnspent, Grows, BlockOnDisk, ApplyTxs;
    MinedChecks(id, value, env.rules);
    MinedIds(id, value);
    Template.FirstConnects(env, view, Pays(id, value));
    GrowTotal(view, src, env.src);
    ConnectPrefixConserves(env, view, 1);
    var ps := Positions(env.block, env.at, env.rules.size);
    assert env.block.vtx[..1] == env.block.vtx && ps[..1] == ps;
  }
}
