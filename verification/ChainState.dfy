// Connecting blocks and moving the best chain (src/main.cpp: ConnectBlock, Reorganize,
// SetBestChainInner, SetBestChain, FindBlockByHeight).
module ChainState {
  import opened Common
  import opened Ledger
  import opened LedgerProofs
  import opened Supply
  import opened Rewards
  import opened TxDb
  import opened BlockTree
  import opened Connect
  import opened BlockLaws

  const BLOCK_REORG_MAX_DEPTH: int := 1

  lemma {:induction false} ConnectPrefixNone(env: Env, view: Index, k: nat, n: nat)
    requires k <= n <= |env.block.vtx| && ConnectPrefix(env, view, k).None?
    ensures ConnectPrefix(env, view, n).None?
    decreases n - k
  {
    hide ConnectOne;
    if k < n {
      ConnectPrefixNone(env, view, k + 1, n);
    }
  }

  lemma OverlayOfAddTx(base: Index, pool: Index, tx: Tx, pos: DiskPos)
    ensures base + pool[tx.id := TxIndex(pos, NullSlots(|tx.vout|))] == AddTx(base + pool, tx, pos)
  {
  }

  // Running totals of ConnectBlock, without the index view.
  datatype Totals = Totals(fees: int, valueIn: int, valueOut: int, stake: int, sigOps: nat)

  ghost function Tallied(view: Index, t: Totals): Tally {
    Tally(view, t.fees, t.valueIn, t.valueOut, t.stake, t.sigOps)
  }

  // What a call learns from outside the model.  Each answer is about one block, and a call asks for
  // it at most once.
  datatype Outside = Outside(
    rules: BlockIndex -> Rules,      // the checks that apply while the block is connected
    readable: BlockIndex -> bool,    // the block can be read from disk
    velocity: BlockIndex -> bool,    // it meets the Velocity constraints, if they apply
    checkpoint: BlockIndex -> bool,  // its chain contains the rolling checkpoint
    supplySane: (BlockIndex, BlockIndex, int) -> bool,  // bIndex_Factor of fork, new block and diffFactor
    commits: BlockIndex -> bool,     // the batch that makes it the stored best block can be written
    accepts: bool)                   // the checks of AcceptBlock on a block that is new

  class Node {
    const size: Tx -> nat        // GetSerializeSize
    const genesis: BlockIndex
    const db: TxDB
    var src: Source
    var blocks: set<BlockIndex>
    var best: BlockIndex
    var lastFound: BlockIndex?   // pblockindexFBBHLast

    // ---------------------------------------------------------------- the state and its invariant

    // The part that never changes as the best chain moves: every block is reachable from the
    // genesis block, known by its hash, checked, and on disk.  Transaction ids do not repeat along a branch.
    ghost predicate Tree()
      reads this`blocks, this`src
    {
      && genesis in blocks && genesis.pprev == null
      && (forall b :: b in blocks ==> TreeBlock(b))
      && (forall a, b :: a in blocks && b in blocks && a.hash == b.hash ==> a == b)
    }

    ghost predicate TreeBlock(b: BlockIndex)
      reads this`blocks, this`src
    {
      && b.Linked() && Reaches(b, genesis)
      && (b.pprev != null ==> b.pprev in blocks)
      && NoReuse(b) && BranchOnDisk(b, src, size)
      && (b.pprev != null ==> b.pprev.trust <= b.trust)
    }

    // Forward links describe the chain that ends in `tip`.
    ghost predicate LinksFor(tip: BlockIndex)
      requires tip.Linked()
      reads this`blocks, blocks`pnext
    {
      forall b :: b in blocks ==> b.pnext == NextOf(b, tip)
    }

    // The stored index is the replay of the chain that ends in `tip`.
    ghost predicate IndexFor(tip: BlockIndex)
      requires tip.Linked()
      reads db`stored, db`storedTip
    {
      Replay(tip, size) == Some(db.stored) && db.storedTip == tip.hash
    }

    // One block's money supply is the sum of all outputs unspent after it.
    ghost predicate SupplyAt(b: BlockIndex)
      requires b.Linked()
      reads this`src, b`moneySupply
    {
      && Replay(b, size).Some? && b.moneySupply == TotalUnspent(Replay(b, size).value, src)
      && MintBounded(b, src, size)
    }

    ghost predicate SupplyFor(tip: BlockIndex)
      requires Tree() && tip in blocks
      reads this`blocks, this`src, blocks`moneySupply
    {
      forall b :: b in blocks && Reaches(tip, b) ==> SupplyAt(b)
    }

    // Everything describes the chain that ends in `tip`.
    ghost predicate Describes(tip: BlockIndex)
      reads this, db, blocks
    {
      && Tree() && tip in blocks && db.batch.None?
      && IndexFor(tip) && LinksFor(tip) && SupplyFor(tip)
    }

    ghost predicate Valid()
      reads this, db, blocks
    {
      Describes(best)
    }

    // The last result of FindBlockByHeight is on the main chain.
    ghost predicate CacheOk()
      reads this`best, this`lastFound, this`blocks
    {
      best.Linked() && (lastFound != null ==> lastFound in blocks && Reaches(best, lastFound))
    }

    // A node that knows only the genesis block.
    constructor (size: Tx -> nat, genesis: BlockIndex, src: Source)
      requires genesis.Linked() && genesis.pprev == null && genesis.pnext == null && genesis.moneySupply == 0
      ensures Valid() && CacheOk() && fresh(db)
      ensures this.size == size && this.genesis == genesis && best == genesis && blocks == {genesis} && this.src == src
    {
      this.size, this.genesis, this.src := size, genesis, src;
      db := new TxDB(map[], genesis.hash);
      blocks, best, lastFound := {genesis}, genesis, null;
      new;
      EmptyWellIndexed(src);
    }

    // ---------------------------------------------------------------- connecting one block

    ghost function EnvOf(pindex: BlockIndex, rules: Rules): Env
      requires pindex.Linked()
      reads this`src
    {
      Env(src, pindex.ChainPositions(), pindex.block, pindex.at, rules)
    }

    // The checks that apply while a block is connected.
    function RulesFor(pindex: BlockIndex, outside: Outside): Rules { outside.rules(pindex).(size := size) }

    // One round of ConnectBlock's loop over the transactions.
    method ConnectTransaction(pindex: BlockIndex, rules: Rules, k: nat, pos: DiskPos, queued0: Index, t: Totals)
      returns (ok: bool, queued: Index, t': Totals)
      requires rules.size == size && pindex.Linked() && k < |pindex.block.vtx|
               && pos == TxPos(pindex.block, pindex.at, size, k)
      ensures ok <==> ConnectOne(EnvOf(pindex, rules), Tallied(db.View() + queued0, t), k).Some?
      ensures ok ==>
                ConnectOne(EnvOf(pindex, rules), Tallied(db.View() + queued0, t), k)
                == Some(Tallied(db.View() + queued, t'))
    {
      hide ConnectedInputs, ValueIn, Fetched, ValueOut;
      var tx := pindex.block.vtx[k];
      ghost var view: Index := db.View() + queued0;
      queued, t' := queued0, t;
      var sigOps := t.sigOps + rules.legacySigOps(tx);
      if sigOps > rules.maxSigOps {
        return false, queued, t';
      }
      if tx.IsCoinBase() {
        t' := t.(valueOut := t.valueOut + ValueOut(tx), sigOps := sigOps);
      } else {
        var fetched, inputs := FetchInputs(db, queued0, src, tx);
        if !fetched {
          return false, queued, t';
        }
        sigOps := sigOps + rules.p2shSigOps(tx);
        if sigOps > rules.maxSigOps {
          return false, queued, t';
        }
        var txValueIn := GetValueMapIn(inputs, tx, view, src);
        var txValueOut := ValueOut(tx);
        t' := Totals(
          if tx.IsCoinStake() then t.fees else t.fees + txValueIn - txValueOut,
          t.valueIn + txValueIn,
          t.valueOut + txValueOut,
          if tx.IsCoinStake() then txValueOut - txValueIn else t.stake,
          sigOps);
        var connected;
        connected, queued := ConnectInputs(inputs, queued0, tx, pos, pindex, rules, db.View(), src);
        if !connected {
          return false, queued, t';
        }
      }
      OverlayOfAddTx(db.View(), queued, tx, pos);
      queued := queued[tx.id := TxIndex(pos, NullSlots(|tx.vout|))];
      ok := true;
    }

    // All transactions of the block, against the database and the entries queued so far.
    method ConnectTransactions(pindex: BlockIndex, rules: Rules) returns (ok: bool, queued: Index, t: Totals)
      requires pindex.Linked() && rules.size == size
      ensures ok <==> ConnectPrefix(EnvOf(pindex, rules), db.View(), |pindex.block.vtx|).Some?
      ensures ok ==>
                ConnectPrefix(EnvOf(pindex, rules), db.View(), |pindex.block.vtx|)
                == Some(Tallied(db.View() + queued, t))
    {
      hide ConnectOne;
      var vtx := pindex.block.vtx;
      ghost var view := db.View();
      ghost var env := EnvOf(pindex, rules);
      queued, t := map[], Totals(0, 0, 0, 0, 0);
      var nTxPos := pindex.at.pos + 80 + CompactSizeLength(|vtx|);
      assert view + queued == view;
      for k := 0 to |vtx|
        invariant nTxPos == TxOffset(pindex.block, pindex.at, size, k)
        invariant ConnectPrefix(env, view, k) == Some(Tallied(view + queued, t))
      {
        var pos := At(pindex.at.file, pindex.at.pos, nTxPos);
        nTxPos := nTxPos + size(vtx[k]);
        ok, queued, t := ConnectTransaction(pindex, rules, k, pos, queued, t);
        if !ok {
          ConnectPrefixNone(env, view, k + 1, |vtx|);
          return;
        }
      }
      ok := true;
    }

    method WriteQueued(queued: Index)
      requires db.batch.Some?
      modifies db
      ensures db.batch.Some? && db.stored == old(db.stored) && db.storedTip == old(db.storedTip)
      ensures db.View() == old(db.View()) + queued && db.ViewTip() == old(db.ViewTip())
    {
      var todo := queued.Keys;
      ghost var view := db.View();
      assert view + (queued - todo) == view;
      while todo != {}
        invariant todo <= queued.Keys
        invariant db.batch.Some? && db.stored == old(db.stored) && db.storedTip == old(db.storedTip)
        invariant db.View() == view + (queued - todo) && db.ViewTip() == old(db.ViewTip())
        decreases todo
      {
        var h :| h in todo;
        db.UpdateTxIndex(h, queued[h]);
        assert (view + (queued - todo))[h := queued[h]] == view + (queued - (todo - {h}));
        todo := todo - {h};
      }
      assert queued - todo == queued;
    }

    // Connects a block to the index as the open batch shows it.
    method ConnectBlock(pindex: BlockIndex, rules: Rules) returns (ok: bool)
      requires rules.size == size && pindex.Linked() && pindex.pprev != null && db.batch.Some?
      modifies db, pindex`mint, pindex`moneySupply
      ensures db.batch.Some? && db.stored == old(db.stored) && db.storedTip == old(db.storedTip)
      ensures db.ViewTip() == old(db.ViewTip())
      ensures ok <==> Connects(EnvOf(pindex, rules), old(db.View()), pindex.height, old(best.moneySupply))
      ensures ok ==> var t := ConnectPrefix(EnvOf(pindex, rules), old(db.View()), |pindex.block.vtx|).value;
                     && db.View() == t.view
                     && pindex.moneySupply == old(pindex.pprev.moneySupply) + t.valueOut - t.valueIn
                     && pindex.mint == t.valueOut - t.valueIn + t.fees
      ensures !ok ==>
                db.View() == old(db.View()) && pindex.moneySupply == old(pindex.moneySupply)
                && pindex.mint == old(pindex.mint)
    {
      hide ConnectPrefix, CheckBlock, ProofOfWorkReward, ProofOfStakeReward;
      if !CheckBlockNonEmpty(pindex.block, rules) {
        return false;
      }
      var connected, queued, t := ConnectTransactions(pindex, rules);
      if !connected {
        return false;
      }
      if !pindex.block.IsProofOfStake() {
        if ValueOut(pindex.block.vtx[0]) > ProofOfWorkReward(pindex.height, best.moneySupply, t.fees) {
          return false;
        }
      } else {
        if !rules.coinAgeReadable(pindex.block.vtx[1]) {
          return false;
        }
        if t.stake > ProofOfStakeReward(pindex.pprev.height + 1, best.moneySupply, t.fees) {
          return false;
        }
      }
      pindex.mint := t.valueOut - t.valueIn + t.fees;
      pindex.moneySupply := pindex.pprev.moneySupply + t.valueOut - t.valueIn;
      WriteQueued(queued);
      ok := true;
    }

    // ---------------------------------------------------------------- finding the fork

    // Moving the higher of two different cursors to its parent loses no common ancestor.
    lemma StepDown(x: BlockIndex, y: BlockIndex)
      requires Tree() && x in blocks && y in blocks && x.Linked() && y.Linked()
      requires x != y && y.height <= x.height
      ensures x.pprev != null && x.pprev in blocks && x.pprev.Linked() && x.pprev.height < x.height
      ensures forall c :: c in blocks && Reaches(x, c) && Reaches(y, c) ==> Reaches(x.pprev, c)
    {
      assert TreeBlock(x) && TreeBlock(y);
      ReachesLinked(x, genesis);
      ReachesLinked(y, genesis);
      forall c | c in blocks && Reaches(x, c) && Reaches(y, c) ensures Reaches(x.pprev, c) {
        ReachesLinked(x, c);
        ReachesLinked(y, c);
      }
    }

    // The number of rounds of the fork search.
    ghost function DiffFactor(a: BlockIndex, b: BlockIndex): int
      requires a.Linked() && b.Linked()
    {
      a.height - ForkOf(a, b).height + if ForkOf(a, b) == b then 0 else 1
    }

    lemma {:induction false} ForkIs(a: BlockIndex, b: BlockIndex, f: BlockIndex)
      requires Tree() && a in blocks && a.Linked() && b.Linked() && f.Linked() && IsFork(f, a, b, blocks)
      ensures ForkOf(a, b) == f
      decreases a.height
    {
      assert TreeBlock(a);
      ReachesLinked(a, f);
      if a != f {
        if Reaches(b, a) {
          ReachesLinked(f, a);
        } else {
          ForkIs(a.pprev, b, f);
        }
      }
    }

    // Walks both branches down to their lowest common ancestor.  The two "pprev is null" errors
    // of the source cannot happen, because both branches end in the genesis block.
    method FindFork(a: BlockIndex, b: BlockIndex) returns (fork: BlockIndex, diffFactor: nat)
      requires Tree() && a in blocks && b in blocks && a.Linked() && b.Linked()
      ensures fork in blocks && fork.Linked() && IsFork(fork, a, b, blocks)
      ensures fork == ForkOf(a, b) && diffFactor == DiffFactor(a, b)
      ensures Reaches(a, fork) && Reaches(b, fork)
    {
      hide TreeBlock;
      var pfork, plonger := a, b;
      diffFactor := 0;
      while pfork != plonger
        invariant pfork in blocks && plonger in blocks && pfork.Linked() && plonger.Linked()
        invariant Reaches(a, pfork) && Reaches(b, plonger)
        invariant forall c :: c in blocks && Reaches(a, c) && Reaches(b, c) ==> Reaches(pfork, c) && Reaches(plonger, c)
        invariant diffFactor == a.height - pfork.height && (plonger == b || plonger.height == pfork.height + 1)
        decreases pfork.height + plonger.height
      {
        diffFactor := diffFactor + 1;
        ghost var upper := plonger;
        while plonger.height > pfork.height
          invariant plonger in blocks && plonger.Linked() && Reaches(b, plonger)
          invariant forall c :: c in blocks && Reaches(a, c) && Reaches(b, c) ==> Reaches(plonger, c)
          invariant plonger == upper || pfork.height <= plonger.height < upper.height
          decreases plonger.height
        {
          StepDown(plonger, pfork);
          ReachesTransitive(b, plonger, plonger.pprev);
          plonger := plonger.pprev;
        }
        if pfork == plonger {
          ReachesLinked(b, upper);
          break;
        }
        StepDown(pfork, plonger);
        ReachesTransitive(a, pfork, pfork.pprev);
        pfork := pfork.pprev;
      }
      fork := pfork;
      ForkIs(a, b, fork);
    }

    // At every consistent state the supply recorded for the best block is the sum of all outputs
    // that the stored index shows as unspent, each of which can be read ...
    lemma TipSupply()
      requires Valid()
      ensures best.moneySupply == TotalUnspent(db.stored, src) && WellIndexed(db.stored, src)
    {
      assert TreeBlock(best) && SupplyAt(best);
      ReplayWellIndexed(best, src, size);
    }

    lemma SupplyStep(b: BlockIndex)
      requires Valid() && b in blocks && b.Linked() && best.Linked() && Reaches(best, b)
      ensures b.pprev == null ==> b.moneySupply == 0
      ensures b.pprev != null ==> b.pprev in blocks && Reaches(best, b.pprev)
      ensures b.pprev != null && RegularMint(b.block) ==> b.moneySupply <= b.pprev.moneySupply + RESERVE_REWARD
    {
      hide TotalUnspent, NoReuse, BranchOnDisk;
      assert TreeBlock(b) && SupplyAt(b);
      if b.pprev == null {
        EmptyWellIndexed(src);
      } else {
        ReachesTransitive(best, b, b.pprev);
        assert SupplyAt(b.pprev);
      }
    }

    // ... it is within the sharp limit if the chain is fair ...
    lemma TipWithinLimit()
      requires Valid() && best.Linked() && Fair(best)
      ensures best.moneySupply <= SupplyLimit(best.height) < RESERVE_LIMIT + RESERVE_REWARD
              + STANDARD_REWARD * best.height
    {
      TipSupply();
      FairSupply(best);
      LimitBound(best.height);
    }

    // ... and as long as no proof-of-work block of the chain carries a coinstake, it is at most
    // the largest reward times the height, whatever was connected and disconnected on the way.
    lemma {:induction false} SupplyCap(b: BlockIndex)
      requires Valid() && b in blocks && b.Linked() && best.Linked() && Reaches(best, b)
      requires forall c :: c in blocks && Reaches(b, c) && c.pprev != null ==> RegularMint(c.block)
      ensures b.moneySupply <= b.height * RESERVE_REWARD
      decreases b.height
    {
      hide Valid, Describes, RegularMint;
      SupplyStep(b);
      if b.pprev != null {
        SupplyCap(b.pprev);
        assert b.height * RESERVE_REWARD == b.pprev.height * RESERVE_REWARD + RESERVE_REWARD;
      }
    }

    // ---------------------------------------------------------------- connecting on top of a replayed branch

    // The sum of all outputs unspent after b.
    ghost function SupplyAfter(b: BlockIndex): int
      requires b.Linked()
      reads this`src
    {
      if Replay(b, size).Some? then TotalUnspent(Replay(b, size).value, src) else 0
    }

    // Every block of the chain created at most the reward at its parent's supply.
    ghost predicate Fair(b: BlockIndex)
      requires b.Linked()
      reads this`src
      decreases b.height
    {
      b.pprev != null ==>
        && Fair(b.pprev)
        && SupplyAfter(b) <= SupplyAfter(b.pprev) + BlockReward(b.block, b.height, SupplyAfter(b.pprev), 0)
    }

    // Such a chain never has more than the sharp limit.
    lemma {:induction false} FairSupply(b: BlockIndex)
      requires b.Linked() && Fair(b)
      ensures SupplyAfter(b) <= SupplyLimit(b.height)
      decreases b.height
    {
      if b.pprev != null {
        FairSupply(b.pprev);
        hide BlockReward, TotalUnspent;
        LimitStep(b.block, b.height, SupplyAfter(b.pprev), SupplyAfter(b));
      } else {
        EmptyWellIndexed(src);
      }
    }

    // What a connected block creates is bounded by the reward at the supply of the block that was the
    // best one then.
    lemma Rewarded(b: BlockIndex, tipSupply: int, outside: Outside)
      requires b.Linked() && b.pprev != null && NoReuse(b) && BranchOnDisk(b, src, size) && RegularMint(b.block)
      requires ConnectsOn(b, tipSupply, outside)
      ensures SupplyAfter(b) <= SupplyAfter(b.pprev) + BlockReward(b.block, b.height, tipSupply, 0)
    {
      hide Connects, ConnectPrefix, TotalUnspent, BlockReward, RegularMint, Replay;
      ConnectsOnReplay(b, RulesFor(b, outside), Replay(b.pprev, size).value, tipSupply);
    }

    lemma {:induction false} FairBelow(b: BlockIndex, a: BlockIndex)
      requires b.Linked() && Reaches(b, a) && Fair(b)
      ensures a.Linked() && Fair(a)
      decreases b.height
    {
      if b != a {
        FairBelow(b.pprev, a);
      }
    }

    // No block on the way to `upper` that is not on the way to `lower` has a stale reward.
    ghost predicate NoneStale(upper: BlockIndex, lower: BlockIndex, tipSupply: int)
      requires upper.Linked() && lower.Linked()
      reads this`src, this`blocks
    {
      forall b :: b in blocks && b.Linked() && b.pprev != null && Reaches(upper, b) && !Reaches(lower, b) ==>
        RegularMint(b.block) && !Stale(b.block, b.height, tipSupply, SupplyAfter(b.pprev))
    }

    // On top of a fair chain, blocks that connect without a stale reward keep it fair.
    lemma {:induction false} BranchFair(b: BlockIndex, tip: BlockIndex, tipSupply: int, outside: Outside)
      requires Tree() && b in blocks && b.Linked() && tip.Linked() && Fair(tip) && NoneStale(b, tip, tipSupply)
      requires forall c ::
                 c in blocks && c.Linked() && Reaches(b, c) && !Reaches(tip, c) ==> ConnectsOn(c, tipSupply, outside)
      ensures Fair(b)
      decreases b.height
    {
      if Reaches(tip, b) {
        FairBelow(tip, b);
      } else {
        assert TreeBlock(b) && Reaches(b, b);
        hide ConnectsOn, Stale, RegularMint, SupplyAfter, BlockReward;
        BranchFair(b.pprev, tip, tipSupply, outside);
        Rewarded(b, tipSupply, outside);
        StaleExactly(b.block, b.height, tipSupply, SupplyAfter(b.pprev));
      }
    }

    // A block that connects on top of the replay of its parent yields its own replay, its totals
    // account for the change of the money supply, and the reward bounds that change.
    lemma ConnectsOnReplay(pindex: BlockIndex, rules: Rules, view: Index, tipSupply: int)
      requires rules.size == size && pindex.Linked() && pindex.pprev != null && NoReuse(pindex)
               && BranchOnDisk(pindex, src, size)
      requires Replay(pindex.pprev, size) == Some(view)
      requires Connects(EnvOf(pindex, rules), view, pindex.height, tipSupply)
      ensures var t := ConnectPrefix(EnvOf(pindex, rules), view, |pindex.block.vtx|).value;
              && Replay(pindex, size) == Some(t.view)
              && TotalUnspent(t.view, src) == TotalUnspent(view, src) + t.valueOut - t.valueIn
              && (RegularMint(pindex.block) ==>
                    t.valueOut - t.valueIn <= BlockReward(pindex.block, pindex.height, tipSupply, 0))
    {
      hide ConnectPrefix, TotalUnspent, ApplyTxs, BlockReward, BlockOnDisk, WellIndexed;
      var env := EnvOf(pindex, rules);
      var n := |pindex.block.vtx|;
      ReplayKeys(pindex.pprev, size);
      ReplayWellIndexed(pindex.pprev, src, size);
      ConnectPrefixConserves(env, view, n);
      assert env.block.vtx[..n] == env.block.vtx;
      assert Positions(env.block, env.at, env.rules.size)[..n] == Positions(env.block, env.at, env.rules.size);
      if RegularMint(pindex.block) {
        IncreaseBoundedByReward(env, view, pindex.height, tipSupply);
      }
    }

    // ConnectBlock where the open batch shows the replay of the parent.
    method ConnectNext(pindex: BlockIndex, rules: Rules) returns (ok: bool)
      requires rules.size == size
      requires Tree() && pindex in blocks && pindex.Linked() && pindex.pprev != null && db.batch.Some?
      requires Replay(pindex.pprev, size) == Some(db.View()) && SupplyAt(pindex.pprev) && pindex.pprev != pindex
      modifies db, pindex`mint, pindex`moneySupply
      ensures db.batch.Some? && db.stored == old(db.stored) && db.storedTip == old(db.storedTip)
      ensures db.ViewTip() == old(db.ViewTip())
      ensures ok <==> Connects(EnvOf(pindex, rules), old(db.View()), pindex.height, old(best.moneySupply))
      ensures ok ==> Replay(pindex, size) == Some(db.View()) && SupplyAt(pindex)
      ensures ok && RegularMint(pindex.block) ==>
                pindex.moneySupply <= pindex.pprev.moneySupply
                                      + BlockReward(pindex.block, pindex.height, old(best.moneySupply), 0)
      ensures ok ==> SpendsOlder(pindex)
    {
      hide Connects, ConnectPrefix, TotalUnspent, BlockReward, RegularMint, SpendsOlder;
      ghost var view, tipSupply := db.View(), best.moneySupply;
      assert TreeBlock(pindex);
      ok := ConnectBlock(pindex, rules);
      if ok {
        ConnectsOnReplay(pindex, rules, view, tipSupply);
        RewardAtZeroFees(pindex.block, pindex.height, tipSupply, 0);
        OutputsAreOlder(pindex, rules, tipSupply);
      }
    }

    // Every input spends an output made earlier in the block or by an ancestor, ten blocks earlier at
    // least if it is of a coinbase or a coinstake.
    ghost predicate SpendsOlder(b: BlockIndex)
      requires b.Linked()
      reads this`blocks
    {
      forall k, i :: 0 <= k < |b.block.vtx| && !b.block.vtx[k].IsCoinBase() && 0 <= i < |b.block.vtx[k].vin| ==>
        IsOlder(b, k, i)
    }

    ghost predicate IsOlder(b: BlockIndex, k: nat, i: nat)
      requires b.Linked() && k < |b.block.vtx| && i < |b.block.vtx[k].vin|
      reads this`blocks
    {
      exists a, j :: a in blocks && a.Linked() && Reaches(b, a) && 0 <= j < |a.block.vtx| && (a == b ==> j < k)
                     && a.block.vtx[j].id == b.block.vtx[k].vin[i].hash
                     && a.block.vtx[j].time <= b.block.vtx[k].time
                     && (IsCoinBaseOrStake(a.block.vtx[j]) ==> b.height >= a.height + 10)
    }

    lemma OutputsAreOlder(b: BlockIndex, rules: Rules, tipSupply: int)
      requires Tree() && b in blocks && b.Linked() && b.pprev != null && rules.size == size
      requires Replay(b.pprev, size).Some?
      requires Connects(EnvOf(b, rules), Replay(b.pprev, size).value, b.height, tipSupply)
      ensures SpendsOlder(b)
    {
      assert TreeBlock(b);
      hide Connects, Replay, IsCoinBaseOrStake, TreeBlock, NoReuse, BranchOnDisk, Reaches;
      forall k, i | 0 <= k < |b.block.vtx| && !b.block.vtx[k].IsCoinBase() && 0 <= i < |b.block.vtx[k].vin|
        ensures IsOlder(b, k, i)
      {
        var a, j := SpentOutput(b, src, rules, tipSupply, k, i);
        AncestorInTree(b, a);
      }
    }

    // ---------------------------------------------------------------- reorganizing

    // The block passes ConnectBlock on top of its parent's chain.
    ghost predicate ConnectsOn(b: BlockIndex, tipSupply: int, outside: Outside)
      requires b.Linked()
      reads this`src
    {
      && b.pprev != null && Replay(b.pprev, size).Some?
      && Connects(EnvOf(b, RulesFor(b, outside)), Replay(b.pprev, size).value, b.height, tipSupply)
    }

    // What Reorganize asks of a block it connects.
    ghost predicate Joins(b: BlockIndex, tipSupply: int, outside: Outside)
      requires b.Linked()
      reads this`src
    {
      outside.readable(b) && ConnectsOn(b, tipSupply, outside) && outside.velocity(b)
    }

    // So does every block on the way to `upper` that is not on the way to `lower`.
    ghost predicate BranchJoins(upper: BlockIndex, lower: BlockIndex, tipSupply: int, outside: Outside)
      requires upper.Linked() && lower.Linked()
      reads this`src, this`blocks
    {
      forall b :: b in blocks && b.Linked() && Reaches(upper, b) && !Reaches(lower, b) ==> Joins(b, tipSupply, outside)
    }

    // All of them can be read.
    ghost predicate BranchReadable(upper: BlockIndex, lower: BlockIndex, outside: Outside)
      requires upper.Linked() && lower.Linked()
      reads this`blocks
    {
      forall b :: b in blocks && b.Linked() && Reaches(upper, b) && !Reaches(lower, b) ==> outside.readable(b)
    }

    // The branch up to pindexNew can take the place of the chain that ends in `tip`.
    ghost predicate Reorganizable(pindexNew: BlockIndex, tip: BlockIndex, tipSupply: int, outside: Outside)
      requires pindexNew.Linked() && tip.Linked()
      reads this`src, this`blocks
    {
      && pindexNew.height <= tip.height + BLOCK_REORG_MAX_DEPTH
      && outside.checkpoint(pindexNew)
      && outside.supplySane(ForkOf(tip, pindexNew), pindexNew, DiffFactor(tip, pindexNew))
      && BranchReadable(tip, pindexNew, outside) && BranchJoins(pindexNew, tip, tipSupply, outside)
      && outside.commits(pindexNew)
    }

    // A list of blocks of the tree that lie on the way to `upper`, strictly above `lower`.
    ghost predicate OnBranch(s: seq<BlockIndex>, upper: BlockIndex, lower: BlockIndex)
      requires upper.Linked()
      reads this`blocks
    {
      forall i :: 0 <= i < |s| ==>
        s[i] in blocks && s[i].Linked() && Reaches(upper, s[i]) && s[i].height > lower.height && s[i].pprev != null
    }

    // vDisconnect, or vConnect before it is reversed.
    method CollectBranch(upper: BlockIndex, lower: BlockIndex) returns (s: seq<BlockIndex>)
      requires Tree() && upper in blocks && upper.Linked() && lower in blocks && lower.Linked() && Reaches(upper, lower)
      ensures Descends(s, upper, lower) && OnBranch(s, upper, lower)
    {
      hide NoReuse, BranchOnDisk;
      s := [];
      var pindex := upper;
      while pindex != lower
        invariant pindex in blocks && pindex.Linked() && Reaches(upper, pindex) && Reaches(pindex, lower)
        invariant NthOr(s, 0, pindex) == upper
        invariant forall i :: 0 <= i < |s| ==> s[i].pprev == NthOr(s, i + 1, pindex)
        invariant OnBranch(s, upper, lower)
        decreases pindex.height
      {
        assert TreeBlock(pindex);
        ReachesTransitive(upper, pindex, pindex.pprev);
        ReachesLinked(pindex.pprev, lower);
        s := s + [pindex];
        pindex := pindex.pprev;
      }
    }

    lemma ReverseAscends(s: seq<BlockIndex>, upper: BlockIndex, lower: BlockIndex, r: seq<BlockIndex>)
      requires Descends(s, upper, lower) && upper.Linked() && OnBranch(s, upper, lower)
      requires |r| == |s| && forall i :: 0 <= i < |s| ==> r[i] == s[|s| - 1 - i]
      ensures Ascends(r, lower, upper) && OnBranch(r, upper, lower)
    {
    }

    lemma InTree(b: BlockIndex)
      requires Tree() && b in blocks
      ensures b.Linked() && NoReuse(b)
    {
      assert TreeBlock(b);
    }

    // Undoes the blocks of the shorter branch inside the open batch.  Undoing a block that was
    // connected never fails, so the only failure left is reading it from disk.
    method DisconnectBranch(down: seq<BlockIndex>, fork: BlockIndex, outside: Outside) returns (ok: bool)
      requires Tree() && fork in blocks && fork.Linked() && best.Linked() && db.batch.Some?
      requires Descends(down, best, fork) && OnBranch(down, best, fork)
      requires Replay(best, size) == Some(db.View())
      modifies db
      ensures db.batch.Some? && db.stored == old(db.stored) && db.storedTip == old(db.storedTip)
      ensures ok ==> Replay(fork, size) == Some(db.View())
      ensures ok <==> forall i :: 0 <= i < |down| ==> outside.readable(down[i])
    {
      hide Tree, Replay, NoReuse, BranchOnDisk, UndoTxs;
      for i := 0 to |down|
        invariant forall j :: 0 <= j < i ==> outside.readable(down[j])
        invariant db.batch.Some? && db.stored == old(db.stored) && db.storedTip == old(db.storedTip)
        invariant NthOr(down, i, fork).Linked() && Replay(NthOr(down, i, fork), size) == Some(db.View())
      {
        var pindex := down[i];
        if !outside.readable(pindex) {
          return false;
        }
        InTree(pindex);
        UndoReplay(pindex, size);
        var done := DisconnectBlock(db, pindex.block);
        assert done;
      }
      ok := true;
    }

    // Connects the blocks of the longer branch inside the open batch, one on top of the other.
    method ConnectBranch(up: seq<BlockIndex>, fork: BlockIndex, upper: BlockIndex, outside: Outside) returns (ok: bool)
      requires Tree() && fork in blocks && fork.Linked() && upper.Linked() && db.batch.Some? && best !in up
      requires Ascends(up, fork, upper) && OnBranch(up, upper, fork)
      requires Replay(fork, size) == Some(db.View()) && SupplyAt(fork)
      modifies db, (set b | b in up)`mint, (set b | b in up)`moneySupply
      ensures db.batch.Some? && db.stored == old(db.stored) && db.storedTip == old(db.storedTip)
      ensures ok ==> Replay(upper, size) == Some(db.View())
      ensures ok ==> forall b :: b in up ==> b.Linked() && SupplyAt(b)
      ensures ok <==> forall i :: 0 <= i < |up| ==> Joins(up[i], old(best.moneySupply), outside)
    {
      hide SupplyAt, Tree, Joins, Replay;
      HeightsAscend(up, fork, upper);
      for i := 0 to |up|
        invariant Tree() && db.batch.Some? && db.stored == old(db.stored) && db.storedTip == old(db.storedTip)
        invariant best.moneySupply == old(best.moneySupply)
        invariant forall j :: 0 <= j < i ==> Joins(up[j], old(best.moneySupply), outside)
        invariant var prev := if i == 0 then fork else up[i - 1];
                  prev.Linked() && Replay(prev, size) == Some(db.View()) && SupplyAt(prev)
        invariant forall j :: 0 <= j < i ==> up[j].Linked() && SupplyAt(up[j])
      {
        var pindex := up[i];
        ok := Join(pindex, outside);
        if !ok {
          return;
        }
      }
      ok := true;
    }

    // Reads and connects one block of the longer branch.
    method Join(pindex: BlockIndex, outside: Outside) returns (ok: bool)
      requires Tree() && pindex in blocks && pindex.Linked() && pindex.pprev != null && db.batch.Some?
      requires Replay(pindex.pprev, size) == Some(db.View()) && SupplyAt(pindex.pprev) && pindex.pprev != pindex
      modifies db, pindex`mint, pindex`moneySupply
      ensures db.batch.Some? && db.stored == old(db.stored) && db.storedTip == old(db.storedTip)
      ensures ok <==> Joins(pindex, old(best.moneySupply), outside)
      ensures ok ==> Replay(pindex, size) == Some(db.View()) && SupplyAt(pindex)
    {
      hide SupplyAt, Tree, Connects, RegularMint, BlockReward, Replay, SpendsOlder;
      if !outside.readable(pindex) {
        return false;
      }
      ok := ConnectNext(pindex, RulesFor(pindex, outside));
      if !outside.velocity(pindex) {
        return false;
      }
    }

    lemma HeightsAscend(up: seq<BlockIndex>, fork: BlockIndex, upper: BlockIndex)
      requires fork.Linked() && upper.Linked() && Ascends(up, fork, upper) && OnBranch(up, upper, fork)
      ensures forall i :: 0 <= i < |up| ==> up[i].height == fork.height + 1 + i
    {
      for i := 0 to |up|
        invariant forall j :: 0 <= j < i ==> up[j].height == fork.height + 1 + j
      {
        assert up[i].Linked() && up[i].pprev == if i == 0 then fork else up[i - 1];
        assert up[i].height == up[i].pprev.height + 1;
      }
    }

    // In memory: the shorter branch loses its forward links, from the top down ...
    method UnlinkBranch(down: seq<BlockIndex>, upper: BlockIndex, fork: BlockIndex)
      requires Tree() && fork in blocks && fork.Linked() && upper.Linked()
      requires Descends(down, upper, fork) && OnBranch(down, upper, fork)
      requires LinksFor(upper)
      modifies blocks`pnext
      ensures LinksFor(fork)
    {
      for i := 0 to |down|
        invariant NthOr(down, i, fork).Linked() && LinksFor(NthOr(down, i, fork))
      {
        var pindex := down[i];
        assert TreeBlock(pindex);
        TipHasNoNext(pindex.pprev);
        pindex.pprev.pnext := null;
      }
    }

    // ... and the longer branch gains them, from the fork up.
    method LinkBranch(up: seq<BlockIndex>, fork: BlockIndex, upper: BlockIndex)
      requires Tree() && fork in blocks && fork.Linked() && upper.Linked()
      requires Ascends(up, fork, upper) && OnBranch(up, upper, fork)
      requires LinksFor(fork)
      modifies blocks`pnext
      ensures LinksFor(upper)
    {
      hide NoReuse, BranchOnDisk;
      for i := 0 to |up|
        invariant (if i == 0 then fork else up[i - 1]).Linked() && LinksFor(if i == 0 then fork else up[i - 1])
      {
        var pindex := up[i];
        assert TreeBlock(pindex);
        pindex.pprev.pnext := pindex;
      }
    }

    // The memory structure changes only after the database transaction is committed.
    method Relink(down: seq<BlockIndex>, up: seq<BlockIndex>, fork: BlockIndex, upper: BlockIndex)
      requires Tree() && fork in blocks && fork.Linked() && best.Linked() && upper.Linked()
      requires Descends(down, best, fork) && OnBranch(down, best, fork)
      requires Ascends(up, fork, upper) && OnBranch(up, upper, fork)
      requires LinksFor(best)
      modifies blocks`pnext
      ensures LinksFor(upper)
    {
      UnlinkBranch(down, best, fork);
      LinkBranch(up, fork, upper);
    }

    // The blocks on the way to `upper` above the fork are exactly those of the list.
    lemma AboveForkIsListed(up: seq<BlockIndex>, fork: BlockIndex, upper: BlockIndex, b: BlockIndex)
      requires upper.Linked() && fork.Linked() && Reaches(upper, fork)
      requires Ascends(up, fork, upper) && OnBranch(up, upper, fork)
      requires b.Linked() && Reaches(upper, b)
      ensures b in up || Reaches(fork, b)
    {
      HeightsAscend(up, fork, upper);
      if b.height <= fork.height {
        AncestorsComparable(upper, fork, b);
      } else {
        ReachesLinked(upper, b);
        var c := up[b.height - fork.height - 1];
        AncestorsComparable(upper, c, b);
        ReachesLinked(c, b);
      }
    }

    // Switches the stored index and the forward links from the chain of the best block to the
    // chain of pindexNew, or leaves them as they are.
    method Reorganize(pindexNew: BlockIndex, outside: Outside) returns (ok: bool)
      requires Tree() && best in blocks && pindexNew in blocks && best.Linked() && pindexNew.Linked()
      requires LinksFor(best) && SupplyFor(best)
      requires db.batch.Some? && Replay(best, size) == Some(db.View())
      modifies db, blocks
      ensures ok ==> Describes(pindexNew)
      ensures ok <==> Reorganizable(pindexNew, best, old(best.moneySupply), outside)
      ensures best.moneySupply == old(best.moneySupply)
      ensures !ok ==> db.stored == old(db.stored) && db.storedTip == old(db.storedTip)
      ensures !ok ==> LinksFor(best) && SupplyFor(best)
      ensures !ok ==> forall b :: b in blocks ==> b.pnext == old(b.pnext)
    {
      hide SupplyAt, SupplyFor, LinksFor, TreeBlock, NextOf, Descends, Ascends, OnBranch, Reaches, IsFork, Replay,
           BranchJoins, BranchReadable, ForkOf, DiffFactor;
      // Deeper reorganizations are refused, from demi-nodes too: the override depth is 0.
      if pindexNew.height - best.height > BLOCK_REORG_MAX_DEPTH {
        return false;
      }
      if !outside.checkpoint(pindexNew) {
        return false;
      }
      var fork, diffFactor := FindFork(best, pindexNew);
      if !outside.supplySane(fork, pindexNew, diffFactor) {
        return false;
      }
      var vDisconnect := CollectBranch(best, fork);
      var rising := CollectBranch(pindexNew, fork);
      var vConnect := seq(|rising|, i requires 0 <= i < |rising| => rising[|rising| - 1 - i]);
      ReverseAscends(rising, pindexNew, fork, vConnect);
      ok := SwitchIndex(vDisconnect, vConnect, fork, pindexNew, outside);
      if ok {
        Relink(vDisconnect, vConnect, fork, pindexNew);
      }
    }

    // Connecting the longer branch touches no block on the way to the best block.
    lemma ForkApart(up: seq<BlockIndex>, fork: BlockIndex, pindexNew: BlockIndex)
      requires best.Linked() && pindexNew.Linked() && fork.Linked() && IsFork(fork, best, pindexNew, blocks)
      requires OnBranch(up, pindexNew, fork)
      ensures Reaches(best, fork) && Reaches(pindexNew, fork)
      ensures forall b :: b in up ==> b.Linked() && !Reaches(best, b) && !Reaches(fork, b)
      ensures forall b :: b in blocks && Reaches(fork, b) ==> Reaches(best, b)
    {
      forall b | b in up ensures b.Linked() && !Reaches(best, b) && !Reaches(fork, b) {
        AboveForkIsApart(fork, best, pindexNew, blocks, b);
        if Reaches(fork, b) {
          ReachesLinked(fork, b);
        }
      }
      forall b | b in blocks && Reaches(fork, b) ensures Reaches(best, b) {
        ReachesTransitive(best, fork, b);
      }
    }

    // The database part of Reorganize: one transaction that is committed as a whole or not at all.
    method SwitchIndex(down: seq<BlockIndex>, up: seq<BlockIndex>, fork: BlockIndex, pindexNew: BlockIndex,
                       outside: Outside)
      returns (ok: bool)
      requires Tree() && best in blocks && pindexNew in blocks && best.Linked() && pindexNew.Linked()
      requires fork in blocks && fork.Linked() && IsFork(fork, best, pindexNew, blocks)
      requires Descends(down, best, fork) && OnBranch(down, best, fork)
      requires Ascends(up, fork, pindexNew) && OnBranch(up, pindexNew, fork)
      requires Replay(best, size) == Some(db.View()) && SupplyFor(best)
      requires db.batch.Some?
      modifies db, blocks`mint, blocks`moneySupply
      ensures ok ==> db.batch.None? && IndexFor(pindexNew) && SupplyFor(pindexNew)
      ensures !ok ==> db.stored == old(db.stored) && db.storedTip == old(db.storedTip) && SupplyFor(best)
      ensures ok <==>
                BranchReadable(best, pindexNew, outside) && BranchJoins(pindexNew, best, old(best.moneySupply), outside)
                      && outside.commits(pindexNew)
      ensures best.moneySupply == old(best.moneySupply)
    {
      hide Replay, SupplyAt, SupplyFor, IsFork, NoReuse, BranchOnDisk, Ascends, Descends, OnBranch, BranchJoins,
           BranchReadable;
      OldBranchIsList(down, fork, pindexNew, outside);
      ok := DisconnectBranch(down, fork, outside);
      if !ok {
        return;
      }
      ok := ConnectAbove(up, fork, pindexNew, outside);
      if !ok {
        return;
      }
      db.WriteHashBestChain(pindexNew.hash);
      ok := db.TxnCommit(outside.commits(pindexNew));
      SupplyAlongBranch(up, fork, pindexNew);
    }

    // Connecting the longer branch leaves the supplies along the old one alone.
    method ConnectAbove(up: seq<BlockIndex>, fork: BlockIndex, pindexNew: BlockIndex, outside: Outside)
      returns (ok: bool)
      requires Tree() && best in blocks && best.Linked() && pindexNew.Linked()
      requires fork in blocks && fork.Linked() && IsFork(fork, best, pindexNew, blocks)
      requires Ascends(up, fork, pindexNew) && OnBranch(up, pindexNew, fork)
      requires Replay(fork, size) == Some(db.View()) && SupplyFor(best) && db.batch.Some?
      modifies db, blocks`mint, blocks`moneySupply
      ensures db.batch.Some? && db.stored == old(db.stored) && db.storedTip == old(db.storedTip) && SupplyFor(best)
      ensures ok ==> Replay(pindexNew, size) == Some(db.View()) && forall b :: b in up ==> b.Linked() && SupplyAt(b)
      ensures ok <==> BranchJoins(pindexNew, best, old(best.moneySupply), outside)
      ensures best.moneySupply == old(best.moneySupply)
    {
      hide Replay, SupplyAt, IsFork, NoReuse, BranchOnDisk, Ascends, BranchJoins, Joins;
      ForkApart(up, fork, pindexNew);
      ok := ConnectBranch(up, fork, pindexNew, outside);
      BranchIsList(up, fork, pindexNew, old(best.moneySupply), outside);
    }

    // The blocks of the longer branch are those of the list ...
    lemma BranchIsList(up: seq<BlockIndex>, fork: BlockIndex, pindexNew: BlockIndex, tipSupply: int, outside: Outside)
      requires best in blocks && best.Linked() && pindexNew.Linked()
      requires fork in blocks && fork.Linked() && IsFork(fork, best, pindexNew, blocks)
      requires Ascends(up, fork, pindexNew) && OnBranch(up, pindexNew, fork)
      ensures BranchJoins(pindexNew, best, tipSupply, outside) <==>
              forall i :: 0 <= i < |up| ==> up[i].Linked() && Joins(up[i], tipSupply, outside)
    {
      hide Joins, Ascends, Replay;
      ForkApart(up, fork, pindexNew);
      forall b | b in blocks && b.Linked() && Reaches(pindexNew, b) && !Reaches(best, b) ensures b in up {
        AboveForkIsListed(up, fork, pindexNew, b);
      }
      forall i | 0 <= i < |up| ensures up[i] in blocks && up[i].Linked() && Reaches(pindexNew, up[i])
          && !Reaches(best, up[i]) {
        assert up[i] in up;
      }
    }

    // ... and so are those of the shorter one.
    lemma OldBranchIsList(down: seq<BlockIndex>, fork: BlockIndex, pindexNew: BlockIndex, outside: Outside)
      requires best in blocks && best.Linked() && pindexNew.Linked()
      requires fork in blocks && fork.Linked() && IsFork(fork, best, pindexNew, blocks)
      requires Descends(down, best, fork) && OnBranch(down, best, fork)
      ensures BranchReadable(best, pindexNew, outside) <==> forall i :: 0 <= i < |down| ==> outside.readable(down[i])
    {
      forall b | b in blocks && b.Linked() && Reaches(best, b) && !Reaches(pindexNew, b) ensures b in down {
        ListedOrBelow(down, best, fork, 0, b);
        if Reaches(fork, b) {
          ReachesTransitive(pindexNew, fork, b);
        }
      }
      forall i | 0 <= i < |down|
        ensures down[i] in blocks && down[i].Linked() && Reaches(best, down[i]) && !Reaches(pindexNew, down[i]) {
        if Reaches(pindexNew, down[i]) {
          ReachesLinked(fork, down[i]);
        }
      }
    }

    lemma SupplyAlongBranch(up: seq<BlockIndex>, fork: BlockIndex, pindexNew: BlockIndex)
      requires Tree() && best in blocks && pindexNew in blocks && best.Linked() && pindexNew.Linked()
      requires fork in blocks && fork.Linked() && IsFork(fork, best, pindexNew, blocks)
      requires Ascends(up, fork, pindexNew) && OnBranch(up, pindexNew, fork)
      requires SupplyFor(best) && forall b :: b in up ==> b.Linked() && SupplyAt(b)
      ensures SupplyFor(pindexNew)
    {
      hide Replay, SupplyAt, NoReuse, BranchOnDisk, Ascends;
      ForkApart(up, fork, pindexNew);
      forall b | b in blocks && Reaches(pindexNew, b) ensures SupplyAt(b) {
        AboveForkIsListed(up, fork, pindexNew, b);
      }
    }

    // ---------------------------------------------------------------- the best chain

    // Everything but the open batch describes the chain that ends in `tip`.
    ghost predicate Holds(tip: BlockIndex)
      reads this`blocks, this`src, db`stored, db`storedTip, blocks`pnext, blocks`moneySupply
    {
      && Tree() && tip in blocks && tip.Linked()
      && IndexFor(tip) && LinksFor(tip) && SupplyFor(tip)
    }

    // Attaches one block on top of the chain that ends in its parent.
    method SetBestChainInner(pindexNew: BlockIndex, outside: Outside) returns (ok: bool)
      requires pindexNew in blocks && pindexNew.pprev != null && pindexNew.Linked() && Holds(pindexNew.pprev)
      requires db.batch.Some? && db.View() == db.stored
      modifies db, pindexNew`mint, pindexNew`moneySupply, pindexNew.pprev`pnext
      ensures db.batch.None?
      ensures ok ==> Holds(pindexNew)
      ensures !ok ==> Holds(pindexNew.pprev)
      ensures ok <==> ConnectsOn(pindexNew, old(best.moneySupply), outside) && outside.commits(pindexNew)
      ensures !ok ==> db.stored == old(db.stored) && db.storedTip == old(db.storedTip)
      ensures !ok ==> forall b :: b in blocks ==> b.pnext == old(b.pnext)
    {
      hide Replay, SupplyAt, NoReuse, BranchOnDisk, Connects, LinksFor, RegularMint, BlockReward, SpendsOlder;
      var pprev := pindexNew.pprev;
      assert Reaches(pprev, pprev) && SupplyAt(pprev);
      ParentDoesNotReach(pindexNew);
      ok := ConnectNext(pindexNew, RulesFor(pindexNew, outside));
      if !ok {
        db.TxnAbort();
        return;
      }
      db.WriteHashBestChain(pindexNew.hash);
      ok := db.TxnCommit(outside.commits(pindexNew));
      if !ok {
        return;
      }
      LinkOne(pindexNew);
    }

    lemma ParentDoesNotReach(b: BlockIndex)
      requires b.Linked() && b.pprev != null
      ensures !Reaches(b.pprev, b) && b.pprev != b
    {
      if Reaches(b.pprev, b) {
        ReachesLinked(b.pprev, b);
      }
    }

    method LinkOne(pindexNew: BlockIndex)
      requires Tree() && pindexNew in blocks && pindexNew.pprev != null && pindexNew.Linked()
      requires LinksFor(pindexNew.pprev)
      modifies pindexNew.pprev`pnext
      ensures LinksFor(pindexNew)
    {
      pindexNew.pprev.pnext := pindexNew;
    }

    // The blocks to connect after the reorganization, from pindexNew downwards: those whose parent
    // already has more trust than the best block.
    method Postponed(pindexNew: BlockIndex) returns (secondary: seq<BlockIndex>, intermediate: BlockIndex)
      requires Tree() && pindexNew in blocks && pindexNew.Linked()
      ensures intermediate == FirstAbove(pindexNew, best.trust)
      ensures intermediate.pprev == null || intermediate.pprev.trust <= best.trust
      ensures forall i :: 0 <= i < |secondary| ==> secondary[i].pprev != null && secondary[i].pprev.trust > best.trust
      ensures intermediate in blocks && intermediate.Linked() && Reaches(pindexNew, intermediate)
      ensures Descends(secondary, pindexNew, intermediate)
      ensures forall i :: 0 <= i < |secondary| ==>
                secondary[i] in blocks && secondary[i].Linked() && secondary[i].pprev != null
      ensures forall i :: 0 <= i < |secondary| ==> Reaches(pindexNew, secondary[i])
    {
      hide Tree, FirstAbove, Reaches, BlockIndex.Linked;
      secondary, intermediate := [], pindexNew;
      OneDown(pindexNew, best.trust);
      while intermediate.pprev != null && intermediate.pprev.trust > best.trust
        invariant intermediate in blocks && intermediate.Linked() && Reaches(pindexNew, intermediate)
        invariant FirstAbove(pindexNew, best.trust) == FirstAbove(intermediate, best.trust)
        invariant forall i :: 0 <= i < |secondary| ==>
                    secondary[i].pprev != null && secondary[i].pprev.trust > best.trust
        invariant NthOr(secondary, 0, intermediate) == pindexNew
        invariant forall i :: 0 <= i < |secondary| ==> secondary[i].pprev == NthOr(secondary, i + 1, intermediate)
        invariant forall i :: 0 <= i < |secondary| ==>
                    secondary[i] in blocks && secondary[i].Linked() && secondary[i].pprev != null
        invariant forall i :: 0 <= i < |secondary| ==> Reaches(pindexNew, secondary[i])
        decreases intermediate.height
      {
        OneDown(intermediate, best.trust);
        ReachesTransitive(pindexNew, intermediate, intermediate.pprev);
        secondary := secondary + [intermediate];
        intermediate := intermediate.pprev;
      }
      OneDown(intermediate, best.trust);
    }

    lemma OneDown(b: BlockIndex, trust: nat)
      requires Tree() && b in blocks && b.Linked()
      ensures Reaches(b, b)
      ensures FirstAbove(b, trust)
              == if b.pprev != null && b.pprev.trust > trust && b.pprev.Linked() then FirstAbove(b.pprev, trust) else b
      ensures b.pprev != null ==>
                b.pprev in blocks && b.pprev.Linked() && Reaches(b, b.pprev) && b.pprev.height < b.height
    {
      assert TreeBlock(b);
    }

    // What is asked of a postponed block.
    ghost predicate Reconnects(b: BlockIndex, tipSupply: int, outside: Outside)
      requires b.Linked()
      reads this`src
    {
      outside.readable(b) && ConnectsOn(b, tipSupply, outside) && outside.commits(b)
    }

    // How far the postponed reconnects get on the way from `lower` to b: to the first block that is
    // refused, or to b.
    ghost function LastConnected(b: BlockIndex, lower: BlockIndex, tipSupply: int, outside: Outside): (c: BlockIndex)
      requires b.Linked() && Reaches(b, lower)
      reads this`src
      ensures Reaches(b, c) && c.Linked()
      decreases b.height
    {
      if b == lower then b
      else
        var c := LastConnected(b.pprev, lower, tipSupply, outside);
        if c == b.pprev && Reconnects(b, tipSupply, outside) then b else c
    }

    // Every block above `lower` on the way to b reconnects.
    ghost predicate AllReconnect(b: BlockIndex, lower: BlockIndex, tipSupply: int, outside: Outside)
      requires b.Linked() && Reaches(b, lower)
      reads this`src
      decreases b.height
    {
      b != lower ==> AllReconnect(b.pprev, lower, tipSupply, outside) && Reconnects(b, tipSupply, outside)
    }

    lemma {:induction false} AllReconnected(b: BlockIndex, lower: BlockIndex, tipSupply: int, outside: Outside)
      requires b.Linked() && Reaches(b, lower)
      ensures LastConnected(b, lower, tipSupply, outside) == b <==> AllReconnect(b, lower, tipSupply, outside)
      decreases b.height
    {
      hide Reconnects;
      if b != lower {
        AllReconnected(b.pprev, lower, tipSupply, outside);
        var c := LastConnected(b.pprev, lower, tipSupply, outside);
        ReachesLinked(b.pprev, c);
      }
    }

    // Connects the postponed blocks; stops at the first that cannot be read or connected.
    method ConnectPostponed(secondary: seq<BlockIndex>, pindexNew: BlockIndex, intermediate: BlockIndex,
                            outside: Outside)
      requires best !in secondary && intermediate in blocks && intermediate.Linked()
      requires Holds(intermediate) && db.batch.None? && pindexNew.Linked() && Reaches(pindexNew, intermediate)
      requires Descends(secondary, pindexNew, intermediate)
      requires forall i :: 0 <= i < |secondary| ==>
                 secondary[i] in blocks && secondary[i].Linked() && secondary[i].pprev != null
      requires forall i :: 0 <= i < |secondary| ==> Reaches(pindexNew, secondary[i])
      modifies db, blocks
      ensures db.batch.None? && Holds(LastConnected(pindexNew, intermediate, old(best.moneySupply), outside))
    {
      hide Holds, Reaches, ConnectsOn, Descends, NthOr, Connects, Replay, LastConnected, Reconnects;
      ghost var supply := best.moneySupply;
      var i := |secondary|;
      DescendsApart(secondary, pindexNew, intermediate);
      StartConnected(intermediate, supply, outside);
      ghost var connected := intermediate;
      while i > 0
        invariant 0 <= i <= |secondary|
        invariant best.moneySupply == supply
        invariant connected == NthOr(secondary, i, intermediate) && Reaches(pindexNew, connected)
        invariant connected in blocks && connected.Linked() && Reaches(connected, intermediate)
        invariant LastConnected(connected, intermediate, supply, outside) == connected
        invariant Holds(connected) && db.batch.None?
      {
        i := i - 1;
        assert secondary[i].pprev == connected;
        var done := ConnectOnePostponed(secondary[i], outside);
        StepConnected(secondary[i], intermediate, supply, outside);
        if !done {
          StaysBehind(secondary, pindexNew, intermediate, i, supply, outside);
          return;
        }
        connected := secondary[i];
      }
    }

    lemma StartConnected(lower: BlockIndex, supply: int, outside: Outside)
      requires lower.Linked()
      ensures Reaches(lower, lower) && LastConnected(lower, lower, supply, outside) == lower
    {
    }

    // One more block of the branch, on top of one that is connected.
    lemma StepConnected(b: BlockIndex, lower: BlockIndex, supply: int, outside: Outside)
      requires b.Linked() && b.pprev != null && Reaches(b.pprev, lower)
               && LastConnected(b.pprev, lower, supply, outside) == b.pprev
      ensures Reaches(b, lower)
      ensures LastConnected(b, lower, supply, outside) == if Reconnects(b, supply, outside) then b else b.pprev
    {
      hide Reconnects;
      ReachesLinked(b.pprev, lower);
    }

    // After a refusal nothing further up is connected.
    lemma StaysBehind(s: seq<BlockIndex>, upper: BlockIndex, lower: BlockIndex, i: nat, supply: int, outside: Outside)
      requires Descends(s, upper, lower) && lower.Linked() && i < |s| && forall j :: 0 <= j < |s| ==> s[j].Linked()
      requires upper.Linked() && Reaches(upper, lower) && s[i].pprev != null && Reaches(s[i], lower)
      requires LastConnected(s[i], lower, supply, outside) == s[i].pprev
      ensures LastConnected(upper, lower, supply, outside) == s[i].pprev
    {
      hide Reconnects, LastConnected, Reaches, Descends;
      InOrder(s, upper, lower);
      var k := i;
      while k > 0
        invariant 0 <= k <= i && Reaches(s[k], lower)
        invariant LastConnected(s[k], lower, supply, outside) == s[i].pprev && s[i].pprev.height < s[k].height
      {
        assert s[k - 1].pprev == s[k];
        StillBehind(s[k - 1], lower, supply, outside);
        k := k - 1;
      }
    }

    lemma InOrder(s: seq<BlockIndex>, upper: BlockIndex, lower: BlockIndex)
      requires Descends(s, upper, lower) && s != []
      ensures s[0] == upper && forall k :: 0 < k < |s| ==> s[k - 1].pprev == s[k]
    {
      forall k | 0 < k < |s| ensures s[k - 1].pprev == s[k] {
        assert NthOr(s, k, lower) == s[k];
      }
    }

    lemma StillBehind(b: BlockIndex, lower: BlockIndex, supply: int, outside: Outside)
      requires b.Linked() && b.pprev != null && Reaches(b.pprev, lower)
      requires LastConnected(b.pprev, lower, supply, outside) != b.pprev
      ensures Reaches(b, lower)
      ensures LastConnected(b, lower, supply, outside) == LastConnected(b.pprev, lower, supply, outside)
    {
      hide Reconnects;
      ReachesLinked(b.pprev, lower);
    }

    // The blocks of the list are different, so only the first is the upper end.
    lemma DescendsApart(s: seq<BlockIndex>, upper: BlockIndex, lower: BlockIndex)
      requires Descends(s, upper, lower) && lower.Linked() && forall i :: 0 <= i < |s| ==> s[i].Linked()
      ensures forall i :: 0 < i <= |s| ==> NthOr(s, i, lower) != upper
      ensures NthOr(s, 0, lower) == upper && NthOr(s, |s|, lower) == lower
      ensures forall i :: 0 <= i < |s| ==> NthOr(s, i, lower) == s[i] && s[i].pprev == NthOr(s, i + 1, lower)
    {
      var i := |s|;
      while i > 0
        invariant 0 <= i <= |s|
        invariant forall j :: i < j <= |s| ==> NthOr(s, j, lower).height < NthOr(s, i, lower).height
      {
        i := i - 1;
        assert s[i].pprev == NthOr(s, i + 1, lower);
      }
    }

    method ConnectOnePostponed(pindex: BlockIndex, outside: Outside) returns (ok: bool)
      requires pindex in blocks && pindex.pprev != null && pindex.Linked() && Holds(pindex.pprev)
      requires db.batch.None?
      modifies db, pindex`mint, pindex`moneySupply, pindex.pprev`pnext
      ensures db.batch.None? && Holds(if ok then pindex else pindex.pprev)
      ensures ok <==> Reconnects(pindex, old(best.moneySupply), outside)
    {
      assert pindex.pprev in blocks;
      hide Holds, ConnectsOn;
      if !outside.readable(pindex) {
        return false;
      }
      db.TxnBegin();
      ok := SetBestChainInner(pindex, outside);
    }

    // IsInMainChain() holds for exactly the best block and its ancestors.
    ghost predicate MainChainRight()
      requires best.Linked()
      reads this, blocks
    {
      forall b :: b in blocks ==> (IsInMainChain(b, best) <==> Reaches(best, b))
    }

    lemma MainChainRightExactly(connected: BlockIndex)
      requires Holds(connected) && best in blocks && best.Linked() && Reaches(best, connected)
      ensures MainChainRight() <==> connected == best
    {
      if connected == best {
        forall b | b in blocks ensures IsInMainChain(b, best) <==> Reaches(best, b) {
          MainChainExactly(b, best);
        }
      } else {
        TipHasNoNext(connected);
        assert !IsInMainChain(connected, best);
      }
    }

    // pindexNew becomes the best block: it is a child of `tip` that connects, or Reorganize can switch
    // to the first block of its branch with enough trust.
    ghost predicate Adoptable(pindexNew: BlockIndex, tip: BlockIndex, tipSupply: int, outside: Outside)
      requires pindexNew.Linked() && tip.Linked()
      reads this`src, this`blocks
    {
      if pindexNew.pprev == tip then ConnectsOn(pindexNew, tipSupply, outside) && outside.commits(pindexNew)
      else Reorganizable(Intermediate(pindexNew, tip), tip, tipSupply, outside)
    }

    ghost function Intermediate(pindexNew: BlockIndex, tip: BlockIndex): (b: BlockIndex)
      requires pindexNew.Linked()
      ensures Reaches(pindexNew, b) && b.Linked()
    {
      ReachesLinked(pindexNew, FirstAbove(pindexNew, tip.trust));
      FirstAbove(pindexNew, tip.trust)
    }

    // The block whose chain index, links and supplies describe after pindexNew was adopted.
    ghost function Reached(pindexNew: BlockIndex, tip: BlockIndex, tipSupply: int, outside: Outside): BlockIndex
      requires pindexNew.Linked()
      reads this`src
    {
      LastConnected(pindexNew, Intermediate(pindexNew, tip), tipSupply, outside)
    }

    // All blocks above the one Reorganize switches to reconnect.
    ghost predicate PostponedConnect(pindexNew: BlockIndex, tip: BlockIndex, tipSupply: int, outside: Outside)
      requires pindexNew.Linked()
      reads this`src
    {
      AllReconnect(pindexNew, Intermediate(pindexNew, tip), tipSupply, outside)
    }

    // A block between `lower` and b reconnected with the others.
    lemma {:induction false} ReconnectedAt(b: BlockIndex, lower: BlockIndex, tipSupply: int, outside: Outside,
                                           c: BlockIndex)
      requires b.Linked() && Reaches(b, lower) && AllReconnect(b, lower, tipSupply, outside) && lower.Linked()
      requires c.Linked() && Reaches(b, c) && !Reaches(lower, c)
      ensures ConnectsOn(c, tipSupply, outside)
      decreases b.height
    {
      hide ConnectsOn;
      if b != c {
        ReconnectedAt(b.pprev, lower, tipSupply, outside, c);
      }
    }

    // The block Reorganize switches to: its parent has no more trust than `tip`, and every block above
    // it on the way to pindexNew has a parent with more.
    lemma SwitchedTo(pindexNew: BlockIndex, tip: BlockIndex)
      requires Tree() && pindexNew in blocks && pindexNew.Linked()
      ensures var first := Intermediate(pindexNew, tip);
              && first in blocks && first.Linked() && Reaches(pindexNew, first)
              && (first.pprev == null || first.pprev.trust <= tip.trust)
              && (forall c :: c in blocks && c.Linked() && Reaches(pindexNew, c) && !Reaches(first, c) ==>
                    c.pprev != null && c.pprev.trust > tip.trust)
              && (pindexNew.pprev == tip ==> first == pindexNew)
    {
      FirstAboveIs(pindexNew, tip.trust);
      AncestorInTree(pindexNew, Intermediate(pindexNew, tip));
    }

    // What decides whether Reorganize can switch to `first`, where `fork` is the lowest common ancestor
    // of it and `tip`.
    lemma ReorganizableExactly(first: BlockIndex, tip: BlockIndex, fork: BlockIndex, tipSupply: int, outside: Outside)
      requires Tree() && first in blocks && first.Linked() && tip in blocks && tip.Linked()
      requires fork in blocks && fork.Linked() && Reaches(tip, fork) && Reaches(first, fork)
      requires forall c :: c in blocks && Reaches(tip, c) && Reaches(first, c) ==> Reaches(fork, c)
      ensures Reorganizable(first, tip, tipSupply, outside) <==>
                && first.height <= tip.height + 1 && outside.checkpoint(first)
                && outside.supplySane(fork, first, tip.height - fork.height + if fork == first then 0 else 1)
                && (forall c :: c in blocks && c.Linked() && Reaches(tip, c) && !Reaches(first, c) ==>
                      outside.readable(c))
                && (forall c :: c in blocks && c.Linked() && Reaches(first, c) && !Reaches(tip, c) ==>
                      outside.readable(c) && ConnectsOn(c, tipSupply, outside) && outside.velocity(c))
                && outside.commits(first)
    {
      hide *;
      ForkIs(tip, first, fork);
      BranchExactly(first, tip, tipSupply, outside);
      ReorganizableIs(first, tip, tipSupply, outside);
    }

    lemma BranchExactly(upper: BlockIndex, lower: BlockIndex, tipSupply: int, outside: Outside)
      requires upper.Linked() && lower.Linked()
      ensures BranchReadable(lower, upper, outside) <==>
              forall c :: c in blocks && c.Linked() && Reaches(lower, c) && !Reaches(upper, c) ==> outside.readable(c)
      ensures BranchJoins(upper, lower, tipSupply, outside) <==>
              forall c :: c in blocks && c.Linked() && Reaches(upper, c) && !Reaches(lower, c) ==>
                outside.readable(c) && ConnectsOn(c, tipSupply, outside) && outside.velocity(c)
    {
      hide ConnectsOn, Reaches, BlockIndex.Linked;
    }

    lemma ReorganizableIs(first: BlockIndex, tip: BlockIndex, tipSupply: int, outside: Outside)
      requires first.Linked() && tip.Linked()
      ensures var fork := ForkOf(tip, first);
              Reorganizable(first, tip, tipSupply, outside) <==>
                && first.height <= tip.height + 1 && outside.checkpoint(first)
                && outside.supplySane(fork, first, tip.height - fork.height + if fork == first then 0 else 1)
                && BranchReadable(tip, first, outside) && BranchJoins(first, tip, tipSupply, outside)
                && outside.commits(first)
    {
      hide Reaches, ForkOf, BranchReadable, BranchJoins, BlockIndex.Linked;
    }

    // All postponed blocks reconnect exactly when each of them does.
    lemma {:induction false} AllReconnectExactly(b: BlockIndex, lower: BlockIndex, tipSupply: int, outside: Outside)
      requires Tree() && b in blocks && b.Linked() && Reaches(b, lower) && lower.Linked()
      ensures AllReconnect(b, lower, tipSupply, outside) <==>
              forall c :: c in blocks && c.Linked() && Reaches(b, c) && !Reaches(lower, c) ==>
                outside.readable(c) && ConnectsOn(c, tipSupply, outside) && outside.commits(c)
      decreases b.height
    {
      hide ConnectsOn, NoReuse, BranchOnDisk;
      assert TreeBlock(b);
      if b != lower {
        ReachesLinked(b.pprev, lower);
        AllReconnectExactly(b.pprev, lower, tipSupply, outside);
        assert Reaches(b, b) && !Reaches(lower, b) by {
          if Reaches(lower, b) {
            ReachesLinked(lower, b);
          }
        }
      }
    }

    // The blocks up to the last one that reconnects do, and the one after it does not.
    lemma {:induction false} LastConnectedExactly(b: BlockIndex, lower: BlockIndex, tipSupply: int, outside: Outside)
      requires Tree() && b in blocks && b.Linked() && Reaches(b, lower) && lower.Linked()
      ensures var r := LastConnected(b, lower, tipSupply, outside);
              && r.Linked() && Reaches(b, r) && Reaches(r, lower)
              && (forall c :: c in blocks && c.Linked() && Reaches(r, c) && !Reaches(lower, c) ==>
                    outside.readable(c) && ConnectsOn(c, tipSupply, outside) && outside.commits(c))
              && (forall c :: c in blocks && c.Linked() && Reaches(b, c) && c.pprev == r && c != lower ==>
                    !(outside.readable(c) && ConnectsOn(c, tipSupply, outside) && outside.commits(c)))
      decreases b.height
    {
      hide ConnectsOn, NoReuse, BranchOnDisk;
      assert TreeBlock(b);
      if b != lower {
        ReachesLinked(b.pprev, lower);
        LastConnectedExactly(b.pprev, lower, tipSupply, outside);
      }
      forall c | c in blocks && c.Linked() && Reaches(b, c) && c.pprev == LastConnected(b, lower, tipSupply, outside)
                 && c != lower
        ensures !(outside.readable(c) && ConnectsOn(c, tipSupply, outside) && outside.commits(c))
      {
        ReachesLinked(b, c);
        if c != b {
          ReachesLinked(b.pprev, c);
        }
      }
    }

    // Without stale rewards the best chain stays fair.  On top of the old best block none is stale.
    lemma AdoptedFair(pindexNew: BlockIndex, tip: BlockIndex, tipSupply: int, outside: Outside)
      requires Tree() && pindexNew in blocks && pindexNew.Linked() && tip.Linked() && Fair(tip)
               && NoneStale(pindexNew, tip, tipSupply)
      requires Adoptable(pindexNew, tip, tipSupply, outside) && PostponedConnect(pindexNew, tip, tipSupply, outside)
      ensures Fair(pindexNew)
    {
      hide ConnectsOn, TreeBlock, Fair, NoneStale;
      forall c | c in blocks && c.Linked() && Reaches(pindexNew, c) && !Reaches(tip, c)
        ensures ConnectsOn(c, tipSupply, outside) {
        if pindexNew.pprev != tip {
          var first := Intermediate(pindexNew, tip);
          if Reaches(first, c) {
            assert Joins(c, tipSupply, outside);
          } else {
            ReconnectedAt(pindexNew, first, tipSupply, outside, c);
          }
        }
      }
      BranchFair(pindexNew, tip, tipSupply, outside);
    }

    lemma ChildNotStale(b: BlockIndex, tip: BlockIndex)
      requires b.Linked() && tip.Linked() && b.pprev == tip && RegularMint(b.block)
      ensures NoneStale(b, tip, SupplyAfter(tip))
    {
    }

    // Makes pindexNew the best block, exactly when it is adoptable; otherwise nothing changes.  Then
    // the node is consistent, and IsInMainChain right, exactly when all postponed blocks reconnect.
    // `first` is the block switched to; what is above it is postponed.
    method SetBestChain(pindexNew: BlockIndex, outside: Outside) returns (ok: bool, ghost first: BlockIndex)
      requires Valid() && pindexNew in blocks && pindexNew.pprev != null && pindexNew.Linked()
      modifies this`best, this`lastFound, db, blocks
      ensures old(best).Linked()
      ensures first in blocks && first.Linked() && Reaches(pindexNew, first)
      ensures first.pprev == null || first.pprev.trust <= old(best).trust
      ensures forall c :: c in blocks && c.Linked() && Reaches(pindexNew, c) && !Reaches(first, c) ==>
                c.pprev != null && c.pprev.trust > old(best).trust
      ensures ok <==> if pindexNew.pprev == old(best)
                      then ConnectsOn(pindexNew, old(best.moneySupply), outside) && outside.commits(pindexNew)
                      else Reorganizable(first, old(best), old(best.moneySupply), outside)
      ensures ok ==>
                (Valid() <==> forall c :: c in blocks && c.Linked() && Reaches(pindexNew, c) && !Reaches(first, c) ==>
                    outside.readable(c) && ConnectsOn(c, old(best.moneySupply), outside) && outside.commits(c))
      ensures ok <==> Adoptable(pindexNew, old(best), old(best.moneySupply), outside)
      ensures !ok ==> Valid() && best == old(best) && lastFound == old(lastFound)
      ensures !ok ==> db.stored == old(db.stored) && db.storedTip == old(db.storedTip)
      ensures !ok ==> forall b :: b in blocks ==> b.pnext == old(b.pnext)
      ensures ok ==> CacheOk() && best == pindexNew
      ensures ok ==> Describes(Reached(pindexNew, old(best), old(best.moneySupply), outside))
      ensures ok ==> (Valid() <==> PostponedConnect(pindexNew, old(best), old(best.moneySupply), outside))
      ensures ok ==> (MainChainRight() <==> PostponedConnect(pindexNew, old(best), old(best.moneySupply), outside))
      ensures ok && Valid() && old(Fair(best)) && NoneStale(pindexNew, old(best), old(best.moneySupply)) ==> Fair(best)
    {
      hide Describes, MainChainRight, ConnectsOn, Reorganizable, Intermediate, Reaches, Fair, NoneStale, Adoptable,
           Reached, PostponedConnect, CacheOk, BlockIndex.Linked, Tree;
      BestKnown(pindexNew);
      first := Intermediate(pindexNew, best);
      SwitchedTo(pindexNew, best);
      Decided(pindexNew, best, best.moneySupply, outside);
      ok := MoveBest(pindexNew, outside);
    }

    lemma BestKnown(pindexNew: BlockIndex)
      requires Valid() && pindexNew in blocks && pindexNew.pprev != null
      ensures Tree() && best in blocks && best.Linked()
    {
      ValidHolds(pindexNew);
    }

    // Its steps.
    method MoveBest(pindexNew: BlockIndex, outside: Outside) returns (ok: bool)
      requires Valid() && pindexNew in blocks && pindexNew.pprev != null && pindexNew.Linked()
      modifies this`best, this`lastFound, db, blocks
      ensures old(best).Linked()
      ensures ok <==> Adoptable(pindexNew, old(best), old(best.moneySupply), outside)
      ensures !ok ==> Valid() && best == old(best) && lastFound == old(lastFound)
      ensures !ok ==> db.stored == old(db.stored) && db.storedTip == old(db.storedTip)
      ensures !ok ==> forall b :: b in blocks ==> b.pnext == old(b.pnext)
      ensures ok ==> CacheOk() && best == pindexNew
      ensures ok ==> Describes(Reached(pindexNew, old(best), old(best.moneySupply), outside))
      ensures ok ==> (Valid() <==> PostponedConnect(pindexNew, old(best), old(best.moneySupply), outside))
      ensures ok ==> (MainChainRight() <==> PostponedConnect(pindexNew, old(best), old(best.moneySupply), outside))
      ensures ok && Valid() && old(Fair(best)) && NoneStale(pindexNew, old(best), old(best.moneySupply)) ==> Fair(best)
    {
      hide Holds, SupplyFor, LinksFor, IndexFor, MainChainRight, TreeBlock, Describes, ConnectsOn, FirstAbove,
           Reorganizable, LastConnected, AllReconnect, Intermediate, Reaches, Fair, NoneStale;
      ghost var tip, supply := best, best.moneySupply;
      ValidHolds(pindexNew);
      ghost var connected := Reached(pindexNew, tip, supply, outside);
      AllReconnected(pindexNew, Intermediate(pindexNew, tip), supply, outside);
      db.TxnBegin();
      if pindexNew.pprev.hash == best.hash {
        ChildConnected(pindexNew, supply, outside);
        ok := SetBestChainInner(pindexNew, outside);
      } else {
        ok := SwitchBestChain(pindexNew, outside);
      }
      if !ok {
        HoldsValid();
        return;
      }
      if PostponedConnect(pindexNew, tip, supply, outside) && Fair(tip) && NoneStale(pindexNew, tip, supply) {
        AdoptedFair(pindexNew, tip, supply, outside);
      }
      best, lastFound := pindexNew, null;
      FinishBestChain(connected);
    }

    // What decides adoption and consistency, in terms of the block switched to.
    lemma Decided(pindexNew: BlockIndex, tip: BlockIndex, supply: int, outside: Outside)
      requires Tree() && pindexNew in blocks && pindexNew.Linked() && tip.Linked()
      ensures var first, reached := Intermediate(pindexNew, tip), Reached(pindexNew, tip, supply, outside);
              && (Adoptable(pindexNew, tip, supply, outside) <==>
                    if pindexNew.pprev == tip then ConnectsOn(pindexNew, supply, outside) && outside.commits(pindexNew)
                    else Reorganizable(first, tip, supply, outside))
              && Reaches(pindexNew, reached) && reached.Linked()
              && (PostponedConnect(pindexNew, tip, supply, outside) <==> reached == pindexNew)
      ensures PostponedConnect(pindexNew, tip, supply, outside) <==>
                forall c :: c in blocks && c.Linked() && Reaches(pindexNew, c)
                            && !Reaches(Intermediate(pindexNew, tip), c) ==>
                  outside.readable(c) && ConnectsOn(c, supply, outside) && outside.commits(c)
    {
      hide ConnectsOn, FirstAbove, Reorganizable, LastConnected, AllReconnect, Intermediate, Reaches;
      AllReconnectExactly(pindexNew, Intermediate(pindexNew, tip), supply, outside);
      AllReconnected(pindexNew, Intermediate(pindexNew, tip), supply, outside);
    }

    // Nothing is postponed for a child of the best block.
    lemma ChildConnected(pindexNew: BlockIndex, supply: int, outside: Outside)
      requires pindexNew.Linked() && pindexNew.pprev == best
      ensures Intermediate(pindexNew, best) == pindexNew && Reached(pindexNew, best, supply, outside) == pindexNew
    {
    }

    // Reorganizes to the first block of the branch with enough trust, then connects the others.
    method SwitchBestChain(pindexNew: BlockIndex, outside: Outside) returns (ok: bool)
      requires Holds(best) && pindexNew in blocks && pindexNew.Linked() && best.Linked()
      requires db.batch.Some? && db.View() == db.stored
      modifies db, blocks
      ensures db.batch.None?
      ensures ok <==> Reorganizable(Intermediate(pindexNew, best), best, old(best.moneySupply), outside)
      ensures !ok ==> Holds(best) && db.stored == old(db.stored) && db.storedTip == old(db.storedTip)
      ensures !ok ==> forall b :: b in blocks ==> b.pnext == old(b.pnext)
      ensures ok ==> Holds(Reached(pindexNew, best, old(best.moneySupply), outside))
    {
      hide SupplyFor, LinksFor, IndexFor, TreeBlock, Reorganizable, ConnectsOn, FirstAbove, Descends, Reaches;
      var secondary, intermediate := Postponed(pindexNew);
      MoreTrustIsApart(secondary);
      ok := ReorganizeOrAbort(intermediate, outside);
      if !ok {
        return;
      }
      ConnectPostponed(secondary, pindexNew, intermediate, outside);
    }

    lemma {:induction false} TrustGrows(b: BlockIndex, a: BlockIndex)
      requires Tree() && b in blocks && b.Linked() && Reaches(b, a)
      ensures a.trust <= b.trust
      decreases b.height
    {
      if b != a {
        assert TreeBlock(b);
        TrustGrows(b.pprev, a);
      }
    }

    // The postponed blocks have more trust than the best block, so they are no ancestors of it.
    lemma MoreTrustIsApart(secondary: seq<BlockIndex>)
      requires Tree() && best in blocks && best.Linked()
      requires forall i :: 0 <= i < |secondary| ==> secondary[i] in blocks && secondary[i].Linked()
      requires forall i :: 0 <= i < |secondary| ==> secondary[i].pprev != null && secondary[i].pprev.trust > best.trust
      ensures forall i :: 0 <= i < |secondary| ==> !Reaches(best, secondary[i])
      ensures best !in secondary
    {
      hide TreeBlock, NoReuse, BranchOnDisk;
      forall i | 0 <= i < |secondary| ensures !Reaches(best, secondary[i]) {
        assert Reaches(secondary[i], secondary[i].pprev) && TreeBlock(secondary[i]);
        TrustGrows(secondary[i], secondary[i].pprev);
        if Reaches(best, secondary[i]) {
          TrustGrows(best, secondary[i]);
        }
      }
      assert Reaches(best, best);
    }

    lemma {:induction false} ListedOrBelow(s: seq<BlockIndex>, upper: BlockIndex, lower: BlockIndex, i: nat,
                                           b: BlockIndex)
      requires Descends(s, upper, lower) && lower.Linked() && i <= |s| && forall j :: 0 <= j < |s| ==> s[j].Linked()
      requires NthOr(s, i, lower).Linked() && Reaches(NthOr(s, i, lower), b)
      ensures b in s || Reaches(lower, b)
      decreases |s| - i
    {
      if i < |s| && b != s[i] {
        ListedOrBelow(s, upper, lower, i + 1, b);
      }
    }

    lemma ValidHolds(pindexNew: BlockIndex)
      requires Valid() && pindexNew in blocks && pindexNew.pprev != null
      ensures Tree() && best in blocks && Holds(best) && db.batch.None? && best.Linked()
      ensures pindexNew.pprev in blocks && (pindexNew.pprev.hash == best.hash ==> pindexNew.pprev == best)
    {
      assert TreeBlock(best) && TreeBlock(pindexNew);
    }

    lemma HoldsValid()
      requires Holds(best) && db.batch.None?
      ensures Valid()
    {
    }

    lemma FinishBestChain(connected: BlockIndex)
      requires Holds(connected) && db.batch.None? && best in blocks && best.Linked() && Reaches(best, connected)
      ensures Describes(connected)
      ensures (Valid() <==> connected == best) && (MainChainRight() <==> connected == best)
    {
      MainChainRightExactly(connected);
    }

    method ReorganizeOrAbort(intermediate: BlockIndex, outside: Outside) returns (ok: bool)
      requires Holds(best) && intermediate in blocks && intermediate.Linked()
      requires db.batch.Some? && db.View() == db.stored
      modifies db, blocks
      ensures db.batch.None?
      ensures ok ==> Holds(intermediate)
      ensures ok <==> Reorganizable(intermediate, best, old(best.moneySupply), outside)
      ensures best.moneySupply == old(best.moneySupply)
      ensures !ok ==> Holds(best) && db.stored == old(db.stored) && db.storedTip == old(db.storedTip)
      ensures !ok ==> forall b :: b in blocks ==> b.pnext == old(b.pnext)
    {
      hide SupplyFor, LinksFor, TreeBlock, Reorganizable;
      assert Replay(best, size) == Some(db.View());
      ok := Reorganize(intermediate, outside);
      if !ok {
        db.TxnAbort();
      }
    }

    // ---------------------------------------------------------------- looking up by height

    // Starts at the genesis block, the best block or the last result, whichever the source picks,
    // and walks pprev or pnext to the block of the main chain with the given height.
    method FindBlockByHeight(nHeight: nat) returns (b: BlockIndex)
      requires Valid() && CacheOk() && nHeight <= best.height
      modifies this`lastFound
      ensures b in blocks && Reaches(best, b) && b.height == nHeight
      ensures CacheOk() && lastFound == b
    {
      hide SupplyFor, IndexFor, NoReuse, BranchOnDisk;
      assert TreeBlock(best);
      b := if nHeight < best.height / 2 then genesis else best;
      if lastFound != null && Abs(nHeight - b.height) > Abs(nHeight - lastFound.height) {
        b := lastFound;
      }
      while b.height > nHeight
        invariant b in blocks && b.Linked() && Reaches(best, b)
        decreases b.height
      {
        assert TreeBlock(b);
        ReachesTransitive(best, b, b.pprev);
        b := b.pprev;
      }
      while b.height < nHeight
        invariant b in blocks && b.Linked() && Reaches(best, b) && b.height <= nHeight
        decreases nHeight - b.height
      {
        MainChainExactly(b, best);
        NextOfIsChild(b, best);
        AncestorInTree(best, b.pnext);
        b := b.pnext;
      }
      lastFound := b;
    }

    lemma {:induction false} AncestorInTree(c: BlockIndex, a: BlockIndex)
      requires Tree() && c in blocks && c.Linked() && Reaches(c, a)
      ensures a in blocks
      decreases c.height
    {
      if c != a {
        assert TreeBlock(c);
        AncestorInTree(c.pprev, a);
      }
    }

    // ---------------------------------------------------------------- accepting a block

    lemma NewIsNoAncestor(tip: BlockIndex, pindexNew: BlockIndex)
      requires Tree() && tip in blocks && tip.Linked() && pindexNew !in blocks
      ensures !Reaches(tip, pindexNew) && NextOf(pindexNew, tip) == null
    {
      if Reaches(tip, pindexNew) {
        AncestorInTree(tip, pindexNew);
      }
      MainChainExactly(pindexNew, tip);
    }

    // Supplies do not change when the block files grow.
    lemma SupplyWhenFilesGrow(b: BlockIndex, src': Source)
      requires b.Linked() && NoReuse(b) && BranchOnDisk(b, src, size) && SupplyAt(b) && Grows(src, src')
      ensures b.moneySupply == TotalUnspent(Replay(b, size).value, src') && MintBounded(b, src', size)
    {
      ReplayWellIndexed(b, src, size);
      GrowTotal(Replay(b, size).value, src, src');
      if b.pprev != null && Replay(b.pprev, size).Some? {
        ReplayWellIndexed(b.pprev, src, size);
        GrowTotal(Replay(b.pprev, size).value, src, src');
      }
    }

    method AddToTree(pindexNew: BlockIndex, src': Source)
      requires Valid() && pindexNew !in blocks && pindexNew.pnext == null
      requires pindexNew.pprev != null && pindexNew.pprev in blocks && pindexNew.Linked() && NoReuse(pindexNew)
      requires pindexNew.pprev.trust <= pindexNew.trust
      requires forall b :: b in blocks ==> b.hash != pindexNew.hash
      requires Grows(src, src') && BlockOnDisk(src', pindexNew.block, pindexNew.at, size)
      modifies this`blocks, this`src
      ensures Valid() && blocks == old(blocks) + {pindexNew} && src == src'
    {
      hide Replay, BlockOnDisk, NoReuse, TotalUnspent, Grows, MintBounded;
      assert TreeBlock(best);
      NewIsNoAncestor(best, pindexNew);
      forall b | b in blocks ensures b.Linked() && BranchOnDisk(b, src', size) {
        assert TreeBlock(b);
        GrowBranch(b, src, src', size);
      }
      forall b | b in blocks && b.Linked() && Reaches(best, b)
        ensures Replay(b, size).Some? && b.moneySupply == TotalUnspent(Replay(b, size).value, src')
                && MintBounded(b, src', size)
      {
        assert TreeBlock(b) && SupplyAt(b);
        SupplyWhenFilesGrow(b, src');
      }
      assert TreeBlock(pindexNew.pprev);
      blocks, src := blocks + {pindexNew}, src';
      assert TreeBlock(pindexNew);
      forall b | b in blocks ensures TreeBlock(b) {
        if b != pindexNew {
          assert old(TreeBlock(b));
        }
      }
    }

    lemma BestLinked()
      requires Valid()
      ensures best.Linked() && Grows(src, src)
    {
      assert TreeBlock(best);
    }

    lemma ValidMainChain()
      requires Valid()
      ensures best.Linked() && MainChainRight()
    {
      assert TreeBlock(best);
      MainChainRightExactly(best);
    }

    // WriteToDisk and the tree part of AddToBlockIndex.
    method StoreBlock(hash: Hash256, pprev: BlockIndex, block: Block, at: BlockPos, ownTrust: nat)
      returns (pindexNew: BlockIndex)
      requires Valid() && pprev in blocks && pprev.Linked() && forall b :: b in blocks ==> b.hash != hash
      requires DistinctIds(block.vtx) && Ids(block.vtx) !! PathIds(pprev)
      requires forall i :: 0 <= i < |block.vtx| ==> size(block.vtx[i]) > 0 && TxPos(block, at, size, i) !in src.disk
      modifies this`blocks, this`src
      ensures Valid() && fresh(pindexNew) && blocks == old(blocks) + {pindexNew} && Grows(old(src), src)
      ensures src == old(src).(disk := WriteTxs(old(src).disk, block, at, size, |block.vtx|))
      ensures pindexNew.pprev == pprev && pindexNew.Linked() && pindexNew.hash == hash && pindexNew.block == block
              && pindexNew.at == at
      ensures pindexNew.trust == pprev.trust + ownTrust
    {
      hide Tree, IndexFor, LinksFor, SupplyFor, Grows, DistinctIds, TxPos, WriteTxs;
      ghost var src0 := src;
      WriteTxsKeeps(src, block, at, size, |block.vtx|);
      assert TreeBlock(pprev) by { ParentInTree(pprev); }
      pindexNew := new BlockIndex(hash, pprev, block, at, ownTrust);
      AddToTree(pindexNew, src.(disk := WriteTxs(src.disk, block, at, size, |block.vtx|)));
    }

    lemma ParentInTree(b: BlockIndex)
      requires Tree() && b in blocks
      ensures TreeBlock(b)
    {
    }

    // Adds a checked block to the tree and, if its chain has more trust than the best one, moves the
    // best chain to it.  Transaction ids are assumed not to repeat along a branch, and the block
    // files to be append-only.
    method AcceptBlock(hash: Hash256, pprev: BlockIndex, block: Block, at: BlockPos, ownTrust: nat, outside: Outside)
      returns (ok: bool, pindexNew: BlockIndex?)
      requires Valid() && pprev in blocks && pprev.Linked()
      requires DistinctIds(block.vtx) && Ids(block.vtx) !! PathIds(pprev)
      requires forall i :: 0 <= i < |block.vtx| ==> size(block.vtx[i]) > 0 && TxPos(block, at, size, i) !in src.disk
      modifies this, db, blocks
      ensures pindexNew == null <==> (exists b :: b in old(blocks) && b.hash == hash) || !outside.accepts
      ensures pindexNew == null ==> !ok && Valid() && blocks == old(blocks) && src == old(src) && best == old(best)
      ensures pindexNew != null ==>
                && fresh(pindexNew) && blocks == old(blocks) + {pindexNew} && Grows(old(src), src)
                && src == old(src).(disk := WriteTxs(old(src).disk, block, at, size, |block.vtx|))
                && pindexNew.at == at && pindexNew.Linked() && pindexNew.hash == hash && pindexNew.pprev == pprev
                && pindexNew.block == block
                && pindexNew.trust == pprev.trust + ownTrust && old(best).Linked()
      ensures pindexNew != null && pindexNew.trust <= old(best).trust ==> ok && Valid() && best == old(best)
      ensures pindexNew != null && pindexNew.trust > old(best).trust ==>
                var supply := old(best.moneySupply);
                && (ok <==> Adoptable(pindexNew, old(best), supply, outside))
                && best == (if ok then pindexNew else old(best))
                && (Valid() <==> !ok || PostponedConnect(pindexNew, old(best), supply, outside))
      ensures best.Linked() && (MainChainRight() <==> Valid())
    {
      hide Tree, IndexFor, LinksFor, SupplyFor, Grows, DistinctIds, Ids, PathIds, TxPos, MainChainRight, Adoptable,
           PostponedConnect, Describes;
      BestLinked();
      ValidMainChain();
      if exists b :: b in blocks && b.hash == hash {
        return false, null;
      }
      if !outside.accepts {
        return false, null;
      }
      var pindex := StoreBlock(hash, pprev, block, at, ownTrust);
      pindexNew := pindex;
      BestLinked();
      ok := true;
      if pindex.trust > best.trust {
        ghost var first;
        ok, first := SetBestChain(pindex, outside);
      }
      if Valid() {
        BestLinked();
        ValidMainChain();
      }
    }
  }

  function Abs(x: int): nat { if x < 0 then -x else x }

  predicate CheckBlockNonEmpty(b: Block, rules: Rules)
    ensures CheckBlockNonEmpty(b, rules) <==> CheckBlock(b, rules)
    ensures CheckBlockNonEmpty(b, rules) ==> b.vtx != []
  {
    CheckBlock(b, rules)
  }
}
