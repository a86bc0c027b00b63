// The block tree (src/main.h: CBlockIndex): ancestors, the index that replaying a branch yields,
// and the forward links that mark the main chain.
module BlockTree {
  import opened Common
  import opened Ledger
  import opened LedgerProofs
  import opened Supply

  // A block as stored on disk, with its place in the tree.  pnext, mint and moneySupply change
  // while the best chain moves; the rest never does.
  class BlockIndex {
    const hash: Hash256
    const pprev: BlockIndex?
    const block: Block
    const at: BlockPos
    const height: nat
    const trust: nat
    var pnext: BlockIndex?
    var mint: int
    var moneySupply: int

    constructor (hash: Hash256, pprev: BlockIndex?, block: Block, at: BlockPos, ownTrust: nat)
      ensures this.hash == hash && this.pprev == pprev && this.block == block && this.at == at
      ensures height == if pprev == null then 0 else pprev.height + 1
      ensures trust == (if pprev == null then 0 else pprev.trust) + ownTrust
      ensures pnext == null && mint == 0 && moneySupply == 0
    {
      this.hash, this.pprev, this.block, this.at := hash, pprev, block, at;
      height := if pprev == null then 0 else pprev.height + 1;
      trust := (if pprev == null then 0 else pprev.trust) + ownTrust;
      pnext, mint, moneySupply := null, 0, 0;
    }

    // Heights count the distance from the root.
    ghost predicate Linked()
      decreases height
    {
      if pprev == null then height == 0 else height == pprev.height + 1 && pprev.Linked()
    }

    // Stored positions of this block and its ancestors, nearest first.
    ghost function ChainPositions(): seq<BlockPos>
      requires Linked()
      decreases height
    {
      [at] + if pprev == null then [] else pprev.ChainPositions()
    }
  }

  // `a` is `b` or one of its ancestors.
  ghost predicate Reaches(b: BlockIndex, a: BlockIndex)
    requires b.Linked()
    decreases b.height
  {
    b == a || (b.pprev != null && Reaches(b.pprev, a))
  }

  // The lowest block on the way from b whose ancestors all have at most that much trust.
  ghost function FirstAbove(b: BlockIndex, trust: nat): (a: BlockIndex)
    requires b.Linked()
    ensures Reaches(b, a)
    ensures a == b || a.trust > trust
    decreases b.height
  {
    if b.pprev != null && b.pprev.trust > trust then FirstAbove(b.pprev, trust) else b
  }

  lemma {:induction false} ReachesLinked(b: BlockIndex, a: BlockIndex)
    requires b.Linked() && Reaches(b, a)
    ensures a.Linked() && a.height <= b.height && (a.height == b.height ==> a == b)
    decreases b.height
  {
    if b != a {
      ReachesLinked(b.pprev, a);
    }
  }

  // Its parent has at most that much trust, and between b and it every parent has more.
  lemma {:induction false} FirstAboveIs(b: BlockIndex, trust: nat)
    requires b.Linked()
    ensures var a := FirstAbove(b, trust);
            && a.Linked() && Reaches(b, a) && (a.pprev == null || a.pprev.trust <= trust)
            && forall c: BlockIndex :: c.Linked() && Reaches(b, c) && !Reaches(a, c) ==>
                 c.pprev != null && c.pprev.trust > trust
    decreases b.height
  {
    if b.pprev != null && b.pprev.trust > trust {
      FirstAboveIs(b.pprev, trust);
    }
  }

  // No other block on the way from b is like that.
  lemma {:induction false} FirstAboveUnique(b: BlockIndex, a: BlockIndex, trust: nat)
    requires b.Linked() && a.Linked() && Reaches(b, a) && (a.pprev == null || a.pprev.trust <= trust)
    requires forall c: BlockIndex :: c.Linked() && Reaches(b, c) && !Reaches(a, c) ==>
               c.pprev != null && c.pprev.trust > trust
    ensures FirstAbove(b, trust) == a
    decreases b.height
  {
    if b != a {
      ReachesLinked(b.pprev, a);
      if Reaches(a, b) {
        ReachesLinked(a, b);
      }
      assert Reaches(b, b);
      FirstAboveUnique(b.pprev, a, trust);
    }
  }

  lemma {:induction false} ReachesTransitive(c: BlockIndex, b: BlockIndex, a: BlockIndex)
    requires c.Linked() && Reaches(c, b) && b.Linked() && Reaches(b, a)
    ensures Reaches(c, a)
    decreases c.height
  {
    if c != b {
      ReachesTransitive(c.pprev, b, a);
    }
  }

  // Of two ancestors of one block, the higher one reaches the lower one.
  lemma {:induction false} AncestorsComparable(c: BlockIndex, a: BlockIndex, b: BlockIndex)
    requires c.Linked() && Reaches(c, a) && Reaches(c, b) && a.Linked() && a.height >= b.height
    ensures Reaches(a, b)
    decreases c.height
  {
    if c != a {
      ReachesLinked(c.pprev, a);
      if c == b {
        ReachesLinked(c, a);
      } else {
        AncestorsComparable(c.pprev, a, b);
      }
    }
  }

  // ---------------------------------------------------------------- forward links

  // What pnext of `b` is when `tip` is the best block: the child of `b` on the way to `tip`.
  ghost function NextOf(b: BlockIndex, tip: BlockIndex): BlockIndex?
    requires tip.Linked()
    decreases tip.height
  {
    if tip.pprev == null then null
    else if tip.pprev == b then tip
    else NextOf(b, tip.pprev)
  }

  predicate IsInMainChain(b: BlockIndex, best: BlockIndex)
    reads b`pnext
  {
    b.pnext != null || b == best
  }

  // IsInMainChain() is right: a block has a forward link or is the tip exactly when it is the tip
  // or an ancestor of it.
  lemma {:induction false} MainChainExactly(b: BlockIndex, tip: BlockIndex)
    requires tip.Linked()
    ensures NextOf(b, tip) != null || b == tip <==> Reaches(tip, b)
    decreases tip.height
  {
    if tip.pprev != null && tip.pprev != b {
      MainChainExactly(b, tip.pprev);
    }
  }

  lemma {:induction false} NextOfIsChild(b: BlockIndex, tip: BlockIndex)
    requires tip.Linked() && NextOf(b, tip) != null
    ensures NextOf(b, tip).pprev == b && Reaches(tip, NextOf(b, tip)) && NextOf(b, tip).Linked()
    ensures NextOf(b, tip).height == b.height + 1
    decreases tip.height
  {
    if tip.pprev != b {
      NextOfIsChild(b, tip.pprev);
    }
  }

  lemma TipHasNoNext(tip: BlockIndex)
    requires tip.Linked()
    ensures NextOf(tip, tip) == null
  {
    if NextOf(tip, tip) != null {
      NextOfIsChild(tip, tip);
      ReachesLinked(tip, NextOf(tip, tip));
    }
  }

  // ---------------------------------------------------------------- replaying a branch

  // The transaction index after connecting every block from the root's first child up to `b`.
  // The genesis block itself is never connected.
  ghost function Replay(b: BlockIndex, size: Tx -> nat): Option<Index>
    requires b.Linked()
    decreases b.height
  {
    if b.pprev == null then Some(map[])
    else
      match Replay(b.pprev, size)
      case None => None
      case Some(v) => ApplyBlock(v, b.block, b.at, size)
  }

  ghost function PathIds(b: BlockIndex): set<Hash256>
    requires b.Linked()
    decreases b.height
  {
    if b.pprev == null then {} else PathIds(b.pprev) + Ids(b.block.vtx)
  }

  // No transaction id occurs twice on the way from the root to `b`.
  ghost predicate NoReuse(b: BlockIndex)
    requires b.Linked()
    decreases b.height
  {
    b.pprev != null ==> NoReuse(b.pprev) && DistinctIds(b.block.vtx) && Ids(b.block.vtx) !! PathIds(b.pprev)
  }

  lemma PositionsNotNull(b: Block, at: BlockPos, size: Tx -> nat)
    ensures NoNullPos(Positions(b, at, size))
  {
  }

  lemma {:induction false} ReplayKeys(b: BlockIndex, size: Tx -> nat)
    requires b.Linked() && Replay(b, size).Some?
    ensures Replay(b, size).value.Keys == PathIds(b)
    decreases b.height
  {
    if b.pprev != null {
      ReplayKeys(b.pprev, size);
      PositionsNotNull(b.block, b.at, size);
      ApplyTxsKeys(Replay(b.pprev, size).value, b.block.vtx, Positions(b.block, b.at, size));
    }
  }

  // Every non-root block on the branch is on disk.
  ghost predicate BranchOnDisk(b: BlockIndex, src: Source, size: Tx -> nat)
    requires b.Linked()
    decreases b.height
  {
    b.pprev != null ==> BranchOnDisk(b.pprev, src, size) && BlockOnDisk(src, b.block, b.at, size)
  }

  // Connecting the block created at most the largest reward.
  ghost predicate MintBounded(b: BlockIndex, src: Source, size: Tx -> nat)
    requires b.Linked()
  {
    b.pprev != null && RegularMint(b.block) && Replay(b.pprev, size).Some? && Replay(b, size).Some? ==>
      TotalUnspent(Replay(b, size).value, src) <= TotalUnspent(Replay(b.pprev, size).value, src) + RESERVE_REWARD
  }

  // Undoing the last block of a replayed branch gives the replay of its parent.
  lemma UndoReplay(b: BlockIndex, size: Tx -> nat)
    requires b.Linked() && b.pprev != null && Replay(b, size).Some? && NoReuse(b)
    ensures Replay(b.pprev, size).Some?
    ensures UndoTxs(Replay(b, size).value, b.block.vtx) == Replay(b.pprev, size)
  {
    ReplayKeys(b.pprev, size);
    PositionsNotNull(b.block, b.at, size);
    UndoTxsAfterApplyTxs(Replay(b.pprev, size).value, b.block.vtx, Positions(b.block, b.at, size));
  }

  lemma ApplyTxWellIndexed(v: Index, src: Source, tx: Tx, pos: DiskPos)
    requires WellIndexed(v, src) && tx.id !in v && ApplyTx(v, tx, pos).Some?
    requires pos != NullPos && pos != MEMPOOL_POS && pos in src.disk && src.disk[pos] == tx
    ensures WellIndexed(ApplyTx(v, tx, pos).value, src)
  {
    SpendAllFacts(v, Inputs(tx), pos);
    SpendAllLowersTotal(v, src, Inputs(tx), pos);
    AddTxRaisesTotal(SpendAll(v, Inputs(tx), pos).value, src, tx, pos);
  }

  lemma {:induction false} ApplyTxsWellIndexed(v: Index, src: Source, txs: seq<Tx>, ps: seq<DiskPos>)
    requires |txs| == |ps| && NoNullPos(ps) && ApplyTxs(v, txs, ps).Some?
    requires WellIndexed(v, src) && Fresh(v, txs)
    requires forall k :: 0 <= k < |ps| ==> ps[k] != MEMPOOL_POS && ps[k] in src.disk && src.disk[ps[k]] == txs[k]
    ensures WellIndexed(ApplyTxs(v, txs, ps).value, src)
  {
    hide WellIndexed;
    if txs != [] {
      var n := |txs| - 1;
      FreshPrefix(v, txs, ps);
      ApplyTxsWellIndexed(v, src, txs[..n], ps[..n]);
      ApplyTxWellIndexed(ApplyTxs(v, txs[..n], ps[..n]).value, src, txs[n], ps[n]);
    }
  }

  lemma EmptyWellIndexed(src: Source)
    ensures WellIndexed(map[], src) && TotalUnspent(map[], src) == 0
  {
  }

  lemma {:induction false} ReplayWellIndexed(b: BlockIndex, src: Source, size: Tx -> nat)
    requires b.Linked() && Replay(b, size).Some? && NoReuse(b) && BranchOnDisk(b, src, size)
    ensures WellIndexed(Replay(b, size).value, src)
    decreases b.height
  {
    if b.pprev == null {
      EmptyWellIndexed(src);
    } else {
      ReplayWellIndexed(b.pprev, src, size);
      ReplayKeys(b.pprev, size);
      PositionsNotNull(b.block, b.at, size);
      forall k | 0 <= k < |b.block.vtx| ensures Positions(b.block, b.at, size)[k] != MEMPOOL_POS {
        OffsetsPositive(b.block, b.at, size, k);
      }
      ApplyTxsWellIndexed(Replay(b.pprev, size).value, src, b.block.vtx, Positions(b.block, b.at, size));
    }
  }

  // ---------------------------------------------------------------- the block files only grow

  predicate Grows(src: Source, src': Source) {
    && src'.mempool == src.mempool
    && forall p :: p in src.disk ==> p in src'.disk && src'.disk[p] == src.disk[p]
  }

  lemma GrowTotal(v: Index, src: Source, src': Source)
    requires WellIndexed(v, src) && Grows(src, src')
    ensures WellIndexed(v, src') && TotalUnspent(v, src') == TotalUnspent(v, src)
  {
    forall h | h in v ensures PrevTx(v, src', h) == PrevTx(v, src, h)
        && UnspentOf(h, v[h], src') == UnspentOf(h, v[h], src) {
    }
    SumOverSame(v.Keys, UnspentValues(v, src), UnspentValues(v, src'));
  }

  lemma {:induction false} GrowBranch(b: BlockIndex, src: Source, src': Source, size: Tx -> nat)
    requires b.Linked() && BranchOnDisk(b, src, size) && Grows(src, src')
    ensures BranchOnDisk(b, src', size)
    decreases b.height
  {
    if b.pprev != null {
      GrowBranch(b.pprev, src, src', size);
    }
  }

  function WriteTxs(disk: map<DiskPos, Tx>, b: Block, at: BlockPos, size: Tx -> nat, k: nat): map<DiskPos, Tx>
    requires k <= |b.vtx|
  {
    if k == 0 then disk else WriteTxs(disk, b, at, size, k - 1)[TxPos(b, at, size, k - 1) := b.vtx[k - 1]]
  }

  lemma {:induction false} OffsetsIncrease(b: Block, at: BlockPos, size: Tx -> nat, j: nat, k: nat)
    requires j < k <= |b.vtx| && forall i :: 0 <= i < |b.vtx| ==> size(b.vtx[i]) > 0
    ensures TxOffset(b, at, size, j) < TxOffset(b, at, size, k)
    decreases k
  {
    if j < k - 1 {
      OffsetsIncrease(b, at, size, j, k - 1);
    }
  }

  lemma {:induction false} WriteTxsKeeps(src: Source, b: Block, at: BlockPos, size: Tx -> nat, k: nat)
    requires k <= |b.vtx| && forall i :: 0 <= i < |b.vtx| ==> size(b.vtx[i]) > 0
    requires forall i :: 0 <= i < |b.vtx| ==> TxPos(b, at, size, i) !in src.disk
    ensures Grows(src, src.(disk := WriteTxs(src.disk, b, at, size, k)))
    ensures forall i :: 0 <= i < k ==>
              TxPos(b, at, size, i) in WriteTxs(src.disk, b, at, size, k)
              && WriteTxs(src.disk, b, at, size, k)[TxPos(b, at, size, i)] == b.vtx[i]
  {
    hide TxPos;
    if k > 0 {
      WriteTxsKeeps(src, b, at, size, k - 1);
      PositionsDiffer(b, at, size, k - 1);
    }
  }

  lemma PositionsDiffer(b: Block, at: BlockPos, size: Tx -> nat, k: nat)
    requires k <= |b.vtx| && forall i :: 0 <= i < |b.vtx| ==> size(b.vtx[i]) > 0
    ensures forall i :: 0 <= i < k ==> TxPos(b, at, size, i) != TxPos(b, at, size, k)
  {
    forall i | 0 <= i < k ensures TxPos(b, at, size, i) != TxPos(b, at, size, k) {
      OffsetsIncrease(b, at, size, i, k);
    }
  }

  // ---------------------------------------------------------------- branches as lists

  // The i-th block of a list, or what lies below its end.
  function NthOr(s: seq<BlockIndex>, i: nat, below: BlockIndex): BlockIndex {
    if i < |s| then s[i] else below
  }

  // `s` lists a branch downwards: from `upper` to just above `lower`.
  ghost predicate Descends(s: seq<BlockIndex>, upper: BlockIndex, lower: BlockIndex) {
    && NthOr(s, 0, lower) == upper
    && forall i :: 0 <= i < |s| ==> s[i].pprev == NthOr(s, i + 1, lower)
  }

  // `s` lists a branch upwards: from just above `lower` to `upper`.
  ghost predicate Ascends(s: seq<BlockIndex>, lower: BlockIndex, upper: BlockIndex) {
    && (if s == [] then lower else s[|s| - 1]) == upper
    && forall i :: 0 <= i < |s| ==> s[i].pprev == if i == 0 then lower else s[i - 1]
  }

  // The blocks strictly above the fork on one side are not on the other side.
  lemma AboveForkIsApart(f: BlockIndex, a: BlockIndex, b: BlockIndex, blocks: set<BlockIndex>, c: BlockIndex)
    requires a.Linked() && b.Linked() && f.Linked() && IsFork(f, a, b, blocks)
    requires c in blocks && c.Linked() && Reaches(b, c) && c.height > f.height
    ensures !Reaches(a, c)
  {
    if Reaches(a, c) {
      ReachesLinked(f, c);
    }
  }

  // The first block on the way down from `a` that is on the way to `b`.
  ghost function ForkOf(a: BlockIndex, b: BlockIndex): (f: BlockIndex)
    requires a.Linked() && b.Linked()
    ensures Reaches(a, f)
    decreases a.height
  {
    if a.pprev == null || Reaches(b, a) then a else ForkOf(a.pprev, b)
  }

  // The lowest common ancestor: every common ancestor is one of its ancestors.
  ghost predicate IsFork(f: BlockIndex, a: BlockIndex, b: BlockIndex, blocks: set<BlockIndex>)
    requires a.Linked() && b.Linked() && f.Linked()
  {
    && Reaches(a, f) && Reaches(b, f)
    && forall c :: c in blocks && Reaches(a, c) && Reaches(b, c) ==> Reaches(f, c)
  }
}
