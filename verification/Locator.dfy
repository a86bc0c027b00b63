// The block locator (src/main.h: CBlockLocator): hashes of a chain at exponentially growing
// depths, from which a peer finds a block both chains share.
module Locator {
  import opened Common
  import opened Arithmetic
  import opened BlockTree

  // The largest n with Pow2(n) <= v.
  function Log2(v: nat): (n: nat)
    requires v >= 1
  {
    if v == 1 then 0 else 1 + Log2(v / 2)
  }

  lemma {:induction false} Log2Bounds(v: nat)
    requires v >= 1
    ensures Pow2(Log2(v)) <= v < 2 * Pow2(Log2(v))
  {
    if v > 1 {
      Log2Bounds(v / 2);
    }
  }

  // How far below the tip the k-th entry lies: every block for eleven, then twice as far each time.
  function Depth(k: nat): nat { if k <= 10 then k else 9 + Pow2(k - 10) }

  // The step taken after the k-th entry.
  function Step(k: nat): nat { if k <= 10 then 1 else Pow2(k - 10) }

  lemma DepthStep(k: nat)
    ensures Depth(k + 1) == Depth(k) + Step(k)
    ensures Step(k + 1) == if k + 1 > 10 then 2 * Step(k) else Step(k)
  {
    if k >= 10 {
      assert k > 10 ==> Pow2(k + 1 - 10) == 2 * Pow2(k - 10);
      assert Pow2(0) == 1 && Pow2(1) == 2 * Pow2(0);
    }
  }

  lemma {:induction false} DepthGrows(j: nat, k: nat)
    requires j < k
    ensures Depth(j) < Depth(k)
    decreases k
  {
    DepthStep(k - 1);
    if j < k - 1 {
      DepthGrows(j, k - 1);
    }
  }

  // The block `depth` below b.
  ghost function AncestorAt(b: BlockIndex, depth: nat): (a: BlockIndex)
    requires b.Linked() && depth <= b.height
    ensures a.Linked() && a.height == b.height - depth && Reaches(b, a)
    decreases b.height
  {
    if depth == 0 then b else AncestorAt(b.pprev, depth - 1)
  }

  lemma {:induction false} ParentBelow(b: BlockIndex, depth: nat)
    requires b.Linked() && depth < b.height
    ensures AncestorAt(b, depth).pprev == AncestorAt(b, depth + 1)
    decreases b.height
  {
    if depth > 0 {
      ParentBelow(b.pprev, depth - 1);
    }
  }

  // ---------------------------------------------------------------- building a locator

  // Every entry but the last is the ancestor at its depth; the depths reach as far as they can.
  ghost predicate IsLocator(vHave: seq<Hash256>, b: BlockIndex, genesis: Hash256)
    requires b.Linked()
  {
    && vHave != [] && vHave[|vHave| - 1] == genesis
    && (forall k :: 0 <= k < |vHave| - 1 ==> Depth(k) <= b.height && vHave[k] == AncestorAt(b, Depth(k)).hash)
    && b.height < Depth(|vHave| - 1)
  }

  // Steps back at most n blocks.
  method StepBack(from: BlockIndex, n: nat, ghost b: BlockIndex, ghost depth: nat) returns (pindex: BlockIndex?)
    requires b.Linked() && depth <= b.height && from == AncestorAt(b, depth)
    ensures pindex == if depth + n <= b.height then AncestorAt(b, depth + n) else null
  {
    pindex := from;
    var i := 0;
    while pindex != null && i < n
      invariant i <= n && pindex == if depth + i <= b.height then AncestorAt(b, depth + i) else null
      decreases n - i
    {
      if depth + i < b.height {
        ParentBelow(b, depth + i);
      } else {
        NoParent(pindex);
      }
      pindex := pindex.pprev;
      i := i + 1;
    }
  }

  lemma NoParent(b: BlockIndex)
    requires b.Linked() && b.height == 0
    ensures b.pprev == null
  {
  }

  method Set(b: BlockIndex?, genesis: Hash256) returns (vHave: seq<Hash256>)
    requires b != null ==> b.Linked()
    ensures if b == null then vHave == [genesis] else IsLocator(vHave, b, genesis)
  {
    vHave := [];
    var nStep := 1;
    var pindex := b;
    while pindex != null
      invariant b == null ==> vHave == [] && pindex == null
      invariant nStep == Step(|vHave|)
      invariant b != null ==> pindex == if Depth(|vHave|) <= b.height then AncestorAt(b, Depth(|vHave|)) else null
      invariant b != null ==> forall k ::
                  0 <= k < |vHave| ==> Depth(k) <= b.height && vHave[k] == AncestorAt(b, Depth(k)).hash
      decreases if pindex == null then 0 else pindex.height + 1
    {
      hide Depth, Step;
      ghost var k := |vHave|;
      DepthStep(k);
      vHave := vHave + [pindex.hash];
      pindex := StepBack(pindex, nStep, b, Depth(k));
      if |vHave| > 10 {
        nStep := nStep * 2;
      }
    }
    vHave := vHave + [genesis];
  }

  // At most 13 entries more than the logarithm of the height.
  lemma LocatorLength(vHave: seq<Hash256>, b: BlockIndex, genesis: Hash256)
    requires b.Linked() && b.height >= 1 && IsLocator(vHave, b, genesis)
    ensures |vHave| <= 13 + Log2(b.height)
  {
    if |vHave| > 13 {
      var k := |vHave| - 2;
      assert Depth(k) <= b.height;
      Log2Bounds(b.height);
      if k - 10 > Log2(b.height) {
        Pow2Grows(Log2(b.height), k - 10);
      }
    }
  }

  // ---------------------------------------------------------------- finding the common block

  predicate Found(hash: Hash256, mapBlockIndex: map<Hash256, BlockIndex>, best: BlockIndex)
    reads mapBlockIndex.Values
  {
    hash in mapBlockIndex && IsInMainChain(mapBlockIndex[hash], best)
  }

  predicate FirstFound(vHave: seq<Hash256>, k: int, mapBlockIndex: map<Hash256, BlockIndex>, best: BlockIndex)
    reads mapBlockIndex.Values
  {
    && 0 <= k < |vHave| && Found(vHave[k], mapBlockIndex, best)
    && forall j :: 0 <= j < k ==> !Found(vHave[j], mapBlockIndex, best)
  }

  // The first block of the locator in the main chain, or the genesis block.
  method GetBlockIndex(vHave: seq<Hash256>, mapBlockIndex: map<Hash256, BlockIndex>, best: BlockIndex,
                       genesis: BlockIndex)
    returns (pindex: BlockIndex)
    ensures if exists k :: 0 <= k < |vHave| && Found(vHave[k], mapBlockIndex, best)
            then exists k :: FirstFound(vHave, k, mapBlockIndex, best) && pindex == mapBlockIndex[vHave[k]]
            else pindex == genesis
  {
    for k := 0 to |vHave|
      invariant forall j :: 0 <= j < k ==> !Found(vHave[j], mapBlockIndex, best)
    {
      if vHave[k] in mapBlockIndex {
        pindex := mapBlockIndex[vHave[k]];
        if IsInMainChain(pindex, best) {
          assert FirstFound(vHave, k, mapBlockIndex, best);
          return;
        }
      }
    }
    pindex := genesis;
  }

  // The peer shares exactly the blocks at depth d and below.
  ghost predicate ForksAt(b: BlockIndex, d: nat, mapBlockIndex: map<Hash256, BlockIndex>, best: BlockIndex)
    requires b.Linked()
    reads mapBlockIndex.Values
  {
    d <= b.height && forall i :: 0 <= i <= b.height ==> (Found(AncestorAt(b, i).hash, mapBlockIndex, best) <==> i >= d)
  }

  // Up to depth 11 the locator names every block; further down its depths at most double.
  lemma DepthNear(k: nat, d: nat)
    requires Depth(k) >= d && (k > 0 ==> Depth(k - 1) < d)
    ensures d <= 11 ==> Depth(k) == d
    ensures Depth(k) <= 2 * d
  {
    if k > 0 {
      DepthStep(k - 1);
    }
  }

  // The block found is shared; it is the fork itself down to depth 11, and otherwise at most
  // twice as deep as the fork, unless it is the genesis block.
  lemma CommonBlock(b: BlockIndex, d: nat, vHave: seq<Hash256>, genesis: Hash256,
                    mapBlockIndex: map<Hash256, BlockIndex>, best: BlockIndex, k: nat) returns (depth: nat)
    requires b.Linked() && IsLocator(vHave, b, genesis) && ForksAt(b, d, mapBlockIndex, best)
             && AncestorAt(b, b.height).hash == genesis
    requires FirstFound(vHave, k, mapBlockIndex, best)
    ensures d <= depth <= b.height && vHave[k] == AncestorAt(b, depth).hash
    ensures if d <= 11 then depth == d else depth <= 2 * d || depth == b.height
  {
    if d <= 11 {
      EarlyDepths(d);
      Reaching(vHave, b, genesis, d);
      assert vHave[d] == AncestorAt(b, d).hash && Found(vHave[d], mapBlockIndex, best);
    }
    if k == |vHave| - 1 {
      depth := b.height;
    } else {
      depth := Depth(k);
      if k > 0 {
        assert !Found(vHave[k - 1], mapBlockIndex, best);
      }
      DepthNear(k, d);
    }
  }

  lemma EarlyDepths(d: nat)
    requires d <= 11
    ensures Depth(d) == d
  {
    assert Pow2(1) == 2 && Pow2(0) == 1;
  }

  lemma Reaching(vHave: seq<Hash256>, b: BlockIndex, genesis: Hash256, k: nat)
    requires b.Linked() && IsLocator(vHave, b, genesis) && Depth(k) <= b.height
    ensures k < |vHave| - 1
  {
    if k > |vHave| - 1 {
      DepthGrows(|vHave| - 1, k);
    }
  }

  // A locator always finds a shared block, so the peer never falls back on its own genesis block.
  lemma AlwaysFound(b: BlockIndex, d: nat, vHave: seq<Hash256>, genesis: Hash256,
                    mapBlockIndex: map<Hash256, BlockIndex>, best: BlockIndex)
    requires b.Linked() && IsLocator(vHave, b, genesis) && ForksAt(b, d, mapBlockIndex, best)
             && AncestorAt(b, b.height).hash == genesis
    ensures Found(vHave[|vHave| - 1], mapBlockIndex, best)
  {
  }

  // The depths in numbers: 0 to 11 one by one, then each step is twice the one before.
  lemma DepthExactly(k: nat)
    ensures k <= 11 ==> Depth(k) == k
    ensures Depth(12) == 13 && Depth(13) == 17
    ensures k >= 11 ==> Depth(k + 2) - Depth(k + 1) == 2 * (Depth(k + 1) - Depth(k))
  {
    assert Pow2(0) == 1 && Pow2(1) == 2 && Pow2(2) == 4 && Pow2(3) == 8;
  }
}
