// The Merkle tree of a block (src/main.h): a flat array of levels, each the pairwise hashes of the
// one below, an odd last element being paired with itself.
module Merkle {
  import opened Common
  import opened Arithmetic

  type PairHash = (Hash256, Hash256) -> Hash256

  // ---------------------------------------------------------------- levels

  function Above(h: PairHash, level: seq<Hash256>): (up: seq<Hash256>)
    ensures |up| == (|level| + 1) / 2
  {
    seq((|level| + 1) / 2, k requires 0 <= k < (|level| + 1) / 2 => h(level[2 * k], level[Min(2 * k + 1, |level| - 1)]))
  }

  function Root(h: PairHash, level: seq<Hash256>): Hash256
    decreases |level|
  {
    if level == [] then 0 else if |level| == 1 then level[0] else Root(h, Above(h, level))
  }

  // All levels, one after the other.
  function Tree(h: PairHash, level: seq<Hash256>): seq<Hash256>
    decreases |level|
  {
    if |level| <= 1 then level else level + Tree(h, Above(h, level))
  }

  function Sibling(i: nat): nat { if i % 2 == 0 then i + 1 else i - 1 }

  // The siblings on the way from leaf i to the root.
  function Branch(h: PairHash, level: seq<Hash256>, i: nat): seq<Hash256>
    decreases |level|
  {
    if |level| <= 1 then [] else [level[Min(Sibling(i), |level| - 1)]] + Branch(h, Above(h, level), i / 2)
  }

  // The root that a leaf and its siblings hash up to.  The index is shifted right, so a negative
  // one rounds down.
  function Climb(h: PairHash, hash: Hash256, branch: seq<Hash256>, i: int): Hash256
    decreases |branch|
  {
    if branch == [] then hash
    else Climb(h, if i % 2 == 1 then h(branch[0], hash) else h(hash, branch[0]), branch[1..], i / 2)
  }

  lemma OneLevel(h: PairHash, level: seq<Hash256>, i: nat)
    requires |level| > 1
    ensures Root(h, level) == Root(h, Above(h, level)) && Tree(h, level) == level + Tree(h, Above(h, level))
    ensures Branch(h, level, i) == [level[Min(Sibling(i), |level| - 1)]] + Branch(h, Above(h, level), i / 2)
  {
  }

  lemma TopLevel(h: PairHash, level: seq<Hash256>, i: nat)
    requires |level| <= 1
    ensures Root(h, level) == (if level == [] then 0 else level[0]) && Tree(h, level) == level
            && Branch(h, level, i) == []
  {
  }

  lemma Skip(tree: seq<Hash256>, below: seq<Hash256>, level: seq<Hash256>, above: seq<Hash256>, i: nat)
    requires tree == below + (level + above) && i < |level|
    ensures tree == below + level + above && |below| + i < |tree| && tree[|below| + i] == level[i]
  {
  }

  // ---------------------------------------------------------------- what the tree promises

  lemma ParentOf(h: PairHash, level: seq<Hash256>, i: nat)
    requires |level| > 1 && i < |level|
    ensures i / 2 < |Above(h, level)|
    ensures var other := level[Min(Sibling(i), |level| - 1)];
            Above(h, level)[i / 2] == if i % 2 == 1 then h(other, level[i]) else h(level[i], other)
  {
    assert i % 2 == 1 ==> 2 * (i / 2) == Sibling(i) && 2 * (i / 2) + 1 == i;
    assert i % 2 == 0 ==> 2 * (i / 2) == i && 2 * (i / 2) + 1 == Sibling(i);
  }

  // Every leaf's branch leads to the root.
  lemma {:induction false} BranchLeadsToRoot(h: PairHash, level: seq<Hash256>, i: nat)
    requires i < |level|
    ensures Climb(h, level[i], Branch(h, level, i), i) == Root(h, level)
    decreases |level|
  {
    if |level| > 1 {
      ParentOf(h, level, i);
      BranchLeadsToRoot(h, Above(h, level), i / 2);
      var branch := Branch(h, level, i);
      assert branch[1..] == Branch(h, Above(h, level), i / 2);
    }
  }

  ghost predicate Injective(h: PairHash) {
    forall a, b, c, d :: h(a, b) == h(c, d) ==> a == c && b == d
  }

  // A climb of full length that ends at the root started at leaf i, along leaf i's own branch.
  lemma {:induction false} OnlyTheLeaf(h: PairHash, level: seq<Hash256>, leaf: Hash256, branch: seq<Hash256>, i: nat)
    requires Injective(h) && i < |level| && |branch| == |Branch(h, level, i)|
    requires Climb(h, leaf, branch, i) == Root(h, level)
    ensures leaf == level[i] && branch == Branch(h, level, i)
    decreases |level|
  {
    if |level| > 1 {
      ParentOf(h, level, i);
      var up := if i % 2 == 1 then h(branch[0], leaf) else h(leaf, branch[0]);
      OnlyTheLeaf(h, Above(h, level), up, branch[1..], i / 2);
      assert branch == [branch[0]] + branch[1..];
    }
  }

  lemma {:induction false} BranchLength(h: PairHash, a: seq<Hash256>, b: seq<Hash256>, i: nat, j: nat)
    requires |a| == |b|
    ensures |Branch(h, a, i)| == |Branch(h, b, j)|
    decreases |a|
  {
    if |a| > 1 {
      BranchLength(h, Above(h, a), Above(h, b), i / 2, j / 2);
    }
  }

  // Two lists of the same length with the same root are the same list.
  lemma SameRootSameLeaves(h: PairHash, a: seq<Hash256>, b: seq<Hash256>)
    requires Injective(h) && |a| == |b| && Root(h, a) == Root(h, b)
    ensures a == b
  {
    forall i | 0 <= i < |a| ensures a[i] == b[i] {
      BranchLeadsToRoot(h, a, i);
      BranchLength(h, a, b, i, i);
      OnlyTheLeaf(h, b, a[i], Branch(h, a, i), i);
    }
  }

  // Lists of different lengths can share a root: repeating an odd last element changes nothing.
  lemma RepeatedTail(h: PairHash, level: seq<Hash256>)
    requires |level| > 1 && |level| % 2 == 1
    ensures Root(h, level + [level[|level| - 1]]) == Root(h, level)
  {
    var longer := level + [level[|level| - 1]];
    hide Root, Tree, Branch;
    OneLevel(h, level, 0);
    OneLevel(h, longer, 0);
    AboveRepeated(h, level);
  }

  lemma AboveRepeated(h: PairHash, level: seq<Hash256>)
    requires |level| > 1 && |level| % 2 == 1
    ensures Above(h, level + [level[|level| - 1]]) == Above(h, level)
  {
    var longer := level + [level[|level| - 1]];
    assert |Above(h, longer)| == |Above(h, level)|;
    forall k | 0 <= k < |Above(h, level)| ensures Above(h, longer)[k] == Above(h, level)[k] { }
  }

  // ---------------------------------------------------------------- the loops

  class MerkleBlock {
    const hash: PairHash
    const ids: seq<Hash256>            // GetHash() of each transaction
    var vMerkleTree: seq<Hash256>      // empty until it is built

    constructor (hash: PairHash, ids: seq<Hash256>)
      ensures Valid() && vMerkleTree == [] && this.hash == hash && this.ids == ids
    {
      this.hash, this.ids, vMerkleTree := hash, ids, [];
    }

    ghost predicate Valid()
      reads this
    {
      vMerkleTree == [] || vMerkleTree == Tree(hash, ids)
    }

    method BuildMerkleTree() returns (root: Hash256)
      modifies this
      ensures vMerkleTree == Tree(hash, ids) && root == Root(hash, ids)
    {
      hide Root, Tree, Above;
      vMerkleTree := [];
      for i := 0 to |ids|
        invariant vMerkleTree == ids[..i]
      {
        vMerkleTree := vMerkleTree + [ids[i]];
      }
      var j, nSize := 0, |ids|;
      ghost var level, below := ids, [];
      assert [] + ids == ids && [] + Tree(hash, ids) == Tree(hash, ids);
      while nSize > 1
        invariant nSize == |level| && j == |below| && vMerkleTree == below + level
        invariant below + Tree(hash, level) == Tree(hash, ids) && Root(hash, level) == Root(hash, ids)
        invariant level == [] ==> below == []
        decreases nSize
      {
        AddLevel(j, nSize, below, level);
        OneLevel(hash, level, 0);
        Regroup(below, level, Tree(hash, Above(hash, level)));
        below, level := below + level, Above(hash, level);
        j := j + nSize;
        nSize := (nSize + 1) / 2;
      }
      TopLevel(hash, level, 0);
      root := if vMerkleTree == [] then 0 else vMerkleTree[|vMerkleTree| - 1];
    }

    method AddLevel(j: nat, nSize: nat, ghost below: seq<Hash256>, ghost level: seq<Hash256>)
      requires nSize == |level| > 1 && j == |below| && vMerkleTree == below + level
      modifies this`vMerkleTree
      ensures vMerkleTree == below + level + Above(hash, level)
    {
      ghost var up := Above(hash, level);
      var i := 0;
      while i < nSize
        invariant i % 2 == 0 && i / 2 <= |up| && i <= nSize + 1
        invariant vMerkleTree == below + level + up[..i / 2]
      {
        var i2 := Min(i + 1, nSize - 1);
        assert vMerkleTree[j + i] == level[i] && vMerkleTree[j + i2] == level[i2];
        vMerkleTree := vMerkleTree + [hash(vMerkleTree[j + i], vMerkleTree[j + i2])];
        assert up[..i / 2 + 1] == up[..i / 2] + [up[i / 2]] && 2 * (i / 2) == i;
        i := i + 2;
      }
      assert up[..|up|] == up;
    }

    method GetMerkleBranch(index: nat) returns (vMerkleBranch: seq<Hash256>)
      requires Valid()
      modifies this
      ensures Valid() && vMerkleBranch == Branch(hash, ids, index)
    {
      hide Root, Tree, Above, Branch;
      if vMerkleTree == [] {
        var root := BuildMerkleTree();
      }
      assert vMerkleTree == Tree(hash, ids);
      vMerkleBranch := [];
      var j, nSize, nIndex := 0, |ids|, index;
      ghost var level, below := ids, [];
      assert [] + Tree(hash, ids) == Tree(hash, ids) && [] + Branch(hash, ids, index) == Branch(hash, ids, index);
      while nSize > 1
        invariant nSize == |level| && j == |below| && vMerkleTree == Tree(hash, ids)
        invariant vMerkleTree == below + Tree(hash, level)
        invariant vMerkleBranch + Branch(hash, level, nIndex) == Branch(hash, ids, index)
        decreases nSize
      {
        var i := Min(Sibling(nIndex), nSize - 1);
        OneLevel(hash, level, nIndex);
        ghost var up := Above(hash, level);
        Skip(vMerkleTree, below, level, Tree(hash, up), i);
        Regroup(vMerkleBranch, [level[i]], Branch(hash, up, nIndex / 2));
        vMerkleBranch := vMerkleBranch + [vMerkleTree[j + i]];
        below, level := below + level, up;
        nIndex := nIndex / 2;
        j := j + nSize;
        nSize := (nSize + 1) / 2;
      }
      TopLevel(hash, level, nIndex);
    }
  }

  method CheckMerkleBranch(h: PairHash, hash0: Hash256, vMerkleBranch: seq<Hash256>, index: int) returns (hash: Hash256)
    ensures hash == if index == -1 then 0 else Climb(h, hash0, vMerkleBranch, index)
  {
    if index == -1 {
      return 0;
    }
    hash := hash0;
    var nIndex := index;
    for k := 0 to |vMerkleBranch|
      invariant Climb(h, hash, vMerkleBranch[k..], nIndex) == Climb(h, hash0, vMerkleBranch, index)
    {
      var otherside := vMerkleBranch[k];
      assert vMerkleBranch[k..][1..] == vMerkleBranch[k + 1..];
      hash := if nIndex % 2 == 1 then h(otherside, hash) else h(hash, otherside);
      nIndex := nIndex / 2;
    }
  }

  // ---------------------------------------------------------------- the root by halves

  // The root over a power of two leaves is the hash of the roots over the two halves, left half first.
  // With RepeatedTail this fixes the root of every list.
  lemma {:induction false} RootOfHalves(h: PairHash, level: seq<Hash256>, k: nat)
    requires |level| == 2 * Pow2(k)
    ensures Root(h, level) == h(Root(h, level[..Pow2(k)]), Root(h, level[Pow2(k)..]))
    decreases k
  {
    var left, right := level[..Pow2(k)], level[Pow2(k)..];
    if k == 0 {
      assert Above(h, level) == [h(level[0], level[1])];
    } else {
      var up := Above(h, level);
      HalvesAbove(h, level, Pow2(k - 1));
      RootOfHalves(h, up, k - 1);
    }
  }

  lemma HalvesAbove(h: PairHash, level: seq<Hash256>, m: nat)
    requires |level| == 4 * m && m > 0
    ensures Above(h, level)[..m] == Above(h, level[..2 * m]) && Above(h, level)[m..] == Above(h, level[2 * m..])
  {
  }

  // The loop pairs an odd last element with itself: three leaves hash like four.
  lemma RootOfThree(h: PairHash, a: Hash256, b: Hash256, c: Hash256)
    ensures Root(h, [a, b, c]) == h(h(a, b), h(c, c))
  {
    var level, up := [a, b, c], [h(a, b), h(c, c)];
    assert Above(h, level) == up && Above(h, up) == [h(h(a, b), h(c, c))];
    OneLevel(h, level, 0);
    OneLevel(h, up, 0);
  }
}
