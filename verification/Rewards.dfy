// How far the rewards let the money supply grow (src/blockparams.cpp: GetProofOfWorkReward,
// GetProofOfStakeReward), and what depends on whose supply they are computed from.
module Rewards {
  import opened Common
  import opened Ledger
  import opened Supply

  // Below this supply a block may create RESERVE_REWARD, from it on STANDARD_REWARD.
  const RESERVE_LIMIT: int := RESERVE_REWARD * 100

  // The most a chain of n blocks can have when each is rewarded by the supply of its parent.
  function SupplyLimit(n: nat): int {
    if n == 0 then 0
    else
      var before := SupplyLimit(n - 1);
      if n == 1 then before + STANDARD_REWARD
      else if before < RESERVE_LIMIT then before + RESERVE_REWARD
      else Max(RESERVE_LIMIT - 1 + RESERVE_REWARD, before + STANDARD_REWARD)
  }

  // One more block within its reward stays within the limit.
  lemma LimitStep(b: Block, n: nat, supply: int, grown: int)
    requires n >= 1 && supply <= SupplyLimit(n - 1) && grown <= supply + BlockReward(b, n, supply, 0)
    ensures grown <= SupplyLimit(n)
  {
    HalveNonNegative(STANDARD_REWARD, n / 210000);
    HalveNonNegative(RESERVE_REWARD, n / 210000);
    hide Halve;
  }

  // Nine million coins, one reserve reward more, and 6.25 for each block.
  lemma {:induction false} LimitBound(n: nat)
    ensures SupplyLimit(n) < RESERVE_LIMIT + RESERVE_REWARD + STANDARD_REWARD * n
  {
    if n > 0 {
      LimitBound(n - 1);
    }
  }

  lemma {:induction false} HalveTwice(a: int, b: int, n: nat)
    requires a >= 2 * b >= 0
    ensures Halve(a, n) >= 2 * Halve(b, n) >= 0
  {
    if n > 0 {
      HalveTwice(a, b, n - 1);
    }
  }

  function Halvings(b: Block, height: nat): nat { if b.IsProofOfStake() then 0 else height / 210000 }

  // The reward at the supply `tip` may be larger than the one at `parent`: only `tip` is still below
  // the limit, and the reserve reward is not halved away; or, for the first block, only `parent` is
  // above the amount at which rewards end.
  predicate Stale(b: Block, height: nat, tip: int, parent: int) {
    if height > RESERVE_PHASE_START then tip < RESERVE_LIMIT <= parent && Halve(RESERVE_REWARD, Halvings(b, height)) > 0
    else tip <= MAX_SINGLE_TX < parent
  }

  lemma StaleExactly(b: Block, height: nat, tip: int, parent: int)
    ensures BlockReward(b, height, tip, 0) > BlockReward(b, height, parent, 0) <==> Stale(b, height, tip, parent)
  {
    var n := Halvings(b, height);
    HalveTwice(RESERVE_REWARD, STANDARD_REWARD, n);
    assert Halve(RESERVE_REWARD, 0) == RESERVE_REWARD && Halve(STANDARD_REWARD, 0) == STANDARD_REWARD;
    if height <= RESERVE_PHASE_START {
      assert height / 210000 == 0;
    }
    hide Halve;
  }

  // The rewards in numbers.  Before the first halving a block may create 90000 coins while the supply
  // is below nine million, and 6.25 from then on; the first block 6.25, if the supply allows any.
  lemma RewardTable(height: nat, supply: int, fees: int)
    ensures ProofOfStakeReward(height, supply, fees) - fees ==
            if height >= 2 then if supply < 9_000_000_0000_0000 then 90000_0000_0000 else 6_2500_0000
            else if supply <= 1_0000_0000_0000_0000 then 6_2500_0000 else 0
    ensures height < 210000 ==> ProofOfWorkReward(height, supply, fees) == ProofOfStakeReward(height, supply, fees)
  {
    assert Halve(STANDARD_REWARD, 0) == STANDARD_REWARD && Halve(RESERVE_REWARD, 0) == RESERVE_REWARD;
    assert height < 210000 ==> height / 210000 == 0;
  }

  // The proof-of-work reward halves with every 210000 blocks.
  lemma RewardHalves(height: nat, supply: int)
    requires height >= 2
    ensures ProofOfWorkReward(height + 210000, supply, 0) == ProofOfWorkReward(height, supply, 0) / 2
  {
    assert (height + 210000) / 210000 == height / 210000 + 1;
  }
}
