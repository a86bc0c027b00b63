// The stake modifier (src/kernel.cpp): sixty-four bits, each the entropy bit of one block chosen
// from a recent group.
module StakeModifier {
  import opened Common
  import opened Arithmetic

  datatype StakeBlock = StakeBlock(
    hash: Hash256, time: nat, proofHash: Hash256, proofOfStake: bool, entropyBit: bool, modifier: nat, generated: bool)

  // The hash of a proof hash and the previous modifier.
  type SelectionHash = (Hash256, nat) -> nat

  const MODIFIER_INTERVAL_RATIO: nat := 3

  // Proof-of-stake blocks are favoured by a factor of 2^32.
  function Lot(h: SelectionHash, b: StakeBlock, modifier: nat): nat {
    if b.proofOfStake then h(b.proofHash, modifier) / 0x1_0000_0000 else h(b.proofHash, modifier)
  }

  const MODIFIER_INTERVAL: nat := 120

  // The length of the n-th section of the selection interval, in seconds.
  function Section(n: nat): nat
    requires n < 64
  {
    MODIFIER_INTERVAL * 63 / (63 + (63 - n) * (MODIFIER_INTERVAL_RATIO - 1))
  }

  function Sections(n: nat): nat
    requires n <= 64
  {
    if n == 0 then 0 else Sections(n - 1) + Section(n - 1)
  }

  // ---------------------------------------------------------------- the last modifier

  // The block at h or its nearest ancestor that generated a modifier.
  function LastGenerated(chain: seq<StakeBlock>, h: nat): (g: nat)
    requires h < |chain| && chain[0].generated
    ensures g <= h && chain[g].generated && forall i :: g < i <= h ==> !chain[i].generated
  {
    if chain[h].generated then h else LastGenerated(chain, h - 1)
  }

  // None when not even the first block generated one.
  method GetLastStakeModifier(chain: seq<StakeBlock>, h: nat) returns (last: Option<nat>)
    requires h < |chain|
    ensures chain[0].generated ==> last == Some(LastGenerated(chain, h))
    ensures last.None? <==> forall i :: 0 <= i <= h ==> !chain[i].generated
  {
    var i := h;
    while i > 0 && !chain[i].generated
      invariant 0 <= i <= h && forall j :: i < j <= h ==> !chain[j].generated
      invariant chain[0].generated ==> LastGenerated(chain, h) == LastGenerated(chain, i)
    {
      i := i - 1;
    }
    last := if chain[i].generated then Some(i) else None;
  }

  // Every block that did not generate a modifier carries that of its nearest ancestor that did.
  predicate CarriesModifiers(chain: seq<StakeBlock>) {
    chain != [] ==> chain[0].generated && forall h ::
      0 <= h < |chain| ==> chain[h].modifier == chain[LastGenerated(chain, h)].modifier
  }

  lemma {:induction false} LastGeneratedPrefix(chain: seq<StakeBlock>, more: seq<StakeBlock>, h: nat)
    requires h < |chain| <= |more| && more[..|chain|] == chain && chain[0].generated
    ensures LastGenerated(more, h) == LastGenerated(chain, h)
  {
    assert forall i :: 0 <= i < |chain| ==> more[i] == chain[i];
    if !chain[h].generated {
      LastGeneratedPrefix(chain, more, h - 1);
    }
  }

  // A block that either generates a modifier or takes over the last one keeps this so.
  lemma CarryOn(chain: seq<StakeBlock>, b: StakeBlock)
    requires chain != [] && CarriesModifiers(chain)
    requires !b.generated ==> b.modifier == chain[LastGenerated(chain, |chain| - 1)].modifier
    ensures CarriesModifiers(chain + [b])
  {
    var more := chain + [b];
    assert more[..|chain|] == chain;
    forall h | 0 <= h < |more| ensures more[h].modifier == more[LastGenerated(more, h)].modifier {
      if h < |chain| {
        LastGeneratedPrefix(chain, more, h);
      } else if !b.generated {
        LastGeneratedPrefix(chain, more, |chain| - 1);
      }
    }
  }

  // ---------------------------------------------------------------- choosing one block

  predicate Unselected(v: seq<StakeBlock>, i: int, selected: set<Hash256>) {
    0 <= i < |v| && v[i].hash !in selected
  }

  // v[i] has the least lot of the unselected blocks up to `stop`, or is the first unselected block
  // when all are later.  Among equal lots the first wins.
  ghost predicate Chosen(v: seq<StakeBlock>, i: int, selected: set<Hash256>, stop: int, h: SelectionHash,
                         modifier: nat) {
    && Unselected(v, i, selected)
    && if v[i].time <= stop then
         forall j :: Unselected(v, j, selected) && v[j].time <= stop && j != i ==>
           Lot(h, v[i], modifier) < Lot(h, v[j], modifier)
               || (Lot(h, v[i], modifier) == Lot(h, v[j], modifier) && i < j)
       else
         forall j :: Unselected(v, j, selected) ==> i <= j && v[j].time > stop
  }

  predicate InTimeOrder(v: seq<StakeBlock>) { forall i, j :: 0 <= i < j < |v| ==> v[i].time <= v[j].time }

  method SelectBlockFromCandidates(v: seq<StakeBlock>, selected: set<Hash256>, stop: int, h: SelectionHash,
                                   modifier: nat)
    returns (best: Option<nat>)
    requires InTimeOrder(v)
    ensures best.None? <==> forall i :: 0 <= i < |v| ==> v[i].hash in selected
    ensures best.Some? ==> Chosen(v, best.value, selected, stop, h, modifier)
    ensures best.Some? ==>
              var b := best.value;
              && b < |v| && v[b].hash !in selected
              && (v[b].time <= stop ==>
                    forall j :: 0 <= j < |v| && v[j].hash !in selected && v[j].time <= stop ==>
                      Lot(h, v[b], modifier) <= Lot(h, v[j], modifier))
              && (v[b].time > stop ==> forall j ::
                    0 <= j < |v| && v[j].hash !in selected ==> b <= j && v[j].time > stop)
  {
    best := None;
    var hashBest := 0;
    var i := 0;
    while i < |v|
      invariant i <= |v| && (best.None? <==> forall j :: 0 <= j < i ==> v[j].hash in selected)
      invariant best.Some? ==> best.value < i && Chosen(v[..i], best.value, selected, stop, h, modifier)
      invariant best.Some? ==> hashBest == Lot(h, v[best.value], modifier)
    {
      assert v[..i + 1] == v[..i] + [v[i]];
      if best.Some? && v[i].time > stop {
        RestTooLate(v, i, best.value, selected, stop, h, modifier);
        return;
      }
      if v[i].hash in selected {
        i := i + 1;
        continue;
      }
      var lot := Lot(h, v[i], modifier);
      if best.Some? && lot < hashBest {
        hashBest := lot;
        best := Some(i);
      } else if best.None? {
        hashBest := lot;
        best := Some(i);
      }
      i := i + 1;
    }
    assert v[..|v|] == v;
  }

  lemma RestTooLate(v: seq<StakeBlock>, i: nat, best: nat, selected: set<Hash256>, stop: int, h: SelectionHash,
                    modifier: nat)
    requires InTimeOrder(v) && i < |v| && v[i].time > stop && best < i
             && Chosen(v[..i], best, selected, stop, h, modifier)
    ensures Chosen(v, best, selected, stop, h, modifier)
  {
    forall j | Unselected(v, j, selected) && j < i ensures Unselected(v[..i], j, selected) { }
    assert forall j :: i <= j < |v| ==> v[j].time > stop;
  }

  // ---------------------------------------------------------------- the candidates

  // Ordered by time, then by hash.
  predicate Before(a: StakeBlock, b: StakeBlock) { a.time < b.time || (a.time == b.time && a.hash <= b.hash) }

  predicate Sorted(v: seq<StakeBlock>) { forall i, j :: 0 <= i < j < |v| ==> Before(v[i], v[j]) }

  lemma PushKeepsMultiset(v: seq<StakeBlock>, b: StakeBlock, i: nat)
    requires i <= |v|
    ensures multiset(v[..i] + [b] + v[i..]) == multiset(v + [b])
  {
    assert v == v[..i] + v[i..];
  }

  method InsertSorted(v: seq<StakeBlock>, b: StakeBlock) returns (r: seq<StakeBlock>)
    requires Sorted(v)
    ensures Sorted(r) && multiset(r) == multiset(v + [b])
  {
    var i := |v|;
    while i > 0 && !Before(v[i - 1], b)
      invariant 0 <= i <= |v| && forall j :: i <= j < |v| ==> Before(b, v[j])
    {
      i := i - 1;
    }
    assert i > 0 ==> forall j :: 0 <= j < i ==> Before(v[j], b) by {
      if i > 0 {
        forall j | 0 <= j < i ensures Before(v[j], b) { assert j < i - 1 ==> Before(v[j], v[i - 1]); }
      }
    }
    PushKeepsMultiset(v, b, i);
    r := v[..i] + [b] + v[i..];
  }

  method Sort(v: seq<StakeBlock>) returns (r: seq<StakeBlock>)
    ensures Sorted(r) && multiset(r) == multiset(v) && |r| == |v|
  {
    r := [];
    for i := 0 to |v|
      invariant Sorted(r) && multiset(r) == multiset(v[..i])
    {
      var before := r;
      r := InsertSorted(before, v[i]);
      assert v[..i + 1] == v[..i] + [v[i]];
    }
    assert v[..|v|] == v;
    assert |multiset(r)| == |multiset(v)|;
  }

  function SelectionStart(chain: seq<StakeBlock>, h: nat): int
    requires h < |chain|
  {
    chain[h].time / MODIFIER_INTERVAL * MODIFIER_INTERVAL - Sections(64)
  }

  // The first of the candidates: the blocks from the tip back to the first one before the start.
  function FirstCandidate(chain: seq<StakeBlock>, h: nat, start: int): (f: nat)
    requires h < |chain|
    ensures f <= h + 1 && (forall i :: f <= i <= h ==> chain[i].time >= start) && (f > 0 ==> chain[f - 1].time < start)
  {
    if chain[h].time < start then h + 1 else if h == 0 then 0 else FirstCandidate(chain, h - 1, start)
  }

  function Candidates(chain: seq<StakeBlock>, h: nat): seq<StakeBlock>
    requires h < |chain|
  {
    chain[FirstCandidate(chain, h, SelectionStart(chain, h))..h + 1]
  }

  method SelectionInterval() returns (interval: nat)
    ensures interval == Sections(64)
  {
    interval := 0;
    for n := 0 to 64
      invariant interval == Sections(n)
    {
      interval := interval + Section(n);
    }
  }

  method CollectCandidates(chain: seq<StakeBlock>, h: nat) returns (v: seq<StakeBlock>, start: int)
    requires h < |chain|
    ensures start == SelectionStart(chain, h) && Sorted(v) && multiset(v) == multiset(Candidates(chain, h))
            && |v| == |Candidates(chain, h)|
  {
    hide FirstCandidate, Sections;
    var interval := SelectionInterval();
    start := chain[h].time / MODIFIER_INTERVAL * MODIFIER_INTERVAL - interval;
    var f := h + 1;
    v := [];
    while f > 0 && chain[f - 1].time >= start
      invariant 0 <= f <= h + 1 && |v| == h + 1 - f && multiset(v) == multiset(chain[f..h + 1])
      invariant forall i :: f <= i <= h ==> chain[i].time >= start
      invariant FirstCandidate(chain, h, start) <= f
      decreases f
    {
      f := f - 1;
      assert chain[f..h + 1] == [chain[f]] + chain[f + 1..h + 1];
      v := v + [chain[f]];
    }
    assert f == FirstCandidate(chain, h, start);
    v := Sort(v);
  }

  // ---------------------------------------------------------------- sixty-four rounds

  // Bit k is the entropy bit of the k-th block chosen.
  function BitsOf(picks: seq<StakeBlock>): nat {
    if picks == [] then 0
    else BitsOf(picks[..|picks| - 1]) + if picks[|picks| - 1].entropyBit then Pow2(|picks| - 1) else 0
  }

  lemma {:induction false} BitsBound(picks: seq<StakeBlock>)
    ensures BitsOf(picks) < Pow2(|picks|)
  {
    if picks != [] {
      BitsBound(picks[..|picks| - 1]);
    }
  }

  // Adding an even multiple of p leaves the parity of the quotient by p alone.
  lemma EvenMultiple(v: nat, p: nat, q: nat)
    requires p >= 1
    ensures (v + 2 * q * p) / p % 2 == v / p % 2
  {
    var d, r := v / p, v % p;
    assert v == d * p + r;
    Gather(d, p, r, q);
    Quotient(v + 2 * q * p, d + 2 * q, r, p);
  }

  lemma Gather(d: nat, p: nat, r: nat, q: nat)
    ensures d * p + r + 2 * q * p == (d + 2 * q) * p + r
  {
  }

  lemma {:induction false} BitIs(picks: seq<StakeBlock>, k: nat)
    requires k < |picks|
    ensures BitsOf(picks) / Pow2(k) % 2 == if picks[k].entropyBit then 1 else 0
  {
    var init, last := picks[..|picks| - 1], picks[|picks| - 1];
    if k == |picks| - 1 {
      BitsBound(init);
      Quotient(BitsOf(picks), if last.entropyBit then 1 else 0, BitsOf(init), Pow2(k));
    } else {
      BitIs(init, k);
      if last.entropyBit {
        var q := Pow2(|picks| - 2 - k);
        Pow2Sum(|picks| - 1 - k, k);
        assert Pow2(|picks| - 1 - k) == 2 * q;
        EvenMultiple(BitsOf(init), Pow2(k), q);
      }
    }
  }

  function HashesOf(picks: seq<StakeBlock>): set<Hash256> { set b | b in picks :: b.hash }

  // Round by round, each pick is the one chosen among the blocks not picked before.
  ghost predicate Rounds(v: seq<StakeBlock>, picks: seq<StakeBlock>, start: int, h: SelectionHash, modifier: nat) {
    && |picks| <= 64
    && forall k :: 0 <= k < |picks| ==> PickedIn(v, picks, k, start, h, modifier)
  }

  ghost predicate PickedIn(v: seq<StakeBlock>, picks: seq<StakeBlock>, k: nat, start: int, h: SelectionHash,
                           modifier: nat)
    requires k < |picks| && k < 64
  {
    exists i :: 0 <= i < |v| && v[i] == picks[k] && Chosen(v, i, HashesOf(picks[..k]), start + Sections(k + 1), h,
                                                           modifier)
  }

  predicate DistinctHashes(v: seq<StakeBlock>) { forall i, j :: 0 <= i < j < |v| ==> v[i].hash != v[j].hash }

  // Fewer picks than candidates leave one to choose.
  lemma OneLeft(v: seq<StakeBlock>, picks: seq<StakeBlock>)
    requires DistinctHashes(v) && |picks| < |v|
    ensures exists i :: Unselected(v, i, HashesOf(picks))
  {
    if forall i :: 0 <= i < |v| ==> v[i].hash in HashesOf(picks) {
      HashCount(v);
      HashLimit(picks);
      assert HashesOf(v) <= HashesOf(picks);
      SetWithin(HashesOf(v), HashesOf(picks));
    } else {
      var i :| 0 <= i < |v| && v[i].hash !in HashesOf(picks);
      assert Unselected(v, i, HashesOf(picks));
    }
  }

  lemma NoRounds(v: seq<StakeBlock>, start: int, h: SelectionHash, modifier: nat)
    ensures Rounds(v, [], start, h, modifier) && BitsOf([]) == 0 && HashesOf([]) == {}
  {
  }

  lemma BitsSnoc(picks: seq<StakeBlock>, b: StakeBlock)
    ensures BitsOf(picks + [b]) == BitsOf(picks) + if b.entropyBit then Pow2(|picks|) else 0
  {
    assert (picks + [b])[..|picks|] == picks;
  }

  lemma HashesSnoc(v: seq<StakeBlock>, b: StakeBlock)
    ensures HashesOf(v + [b]) == HashesOf(v) + {b.hash}
  {
    forall x ensures x in HashesOf(v + [b]) <==> x in HashesOf(v) || x == b.hash {
      if x in HashesOf(v) {
        var c :| c in v && c.hash == x;
        assert c in v + [b];
      }
      assert b in v + [b];
    }
  }

  lemma {:induction false} HashLimit(v: seq<StakeBlock>)
    ensures |HashesOf(v)| <= |v|
  {
    if v != [] {
      HashLimit(v[..|v| - 1]);
      HashesSnoc(v[..|v| - 1], v[|v| - 1]);
      assert v[..|v| - 1] + [v[|v| - 1]] == v;
    }
  }

  lemma {:induction false} HashCount(v: seq<StakeBlock>)
    requires DistinctHashes(v)
    ensures |HashesOf(v)| == |v|
  {
    if v != [] {
      var init, last := v[..|v| - 1], v[|v| - 1];
      HashCount(init);
      assert last.hash !in HashesOf(init);
      hide HashesOf, DistinctHashes;
      HashesSnoc(init, last);
      assert init + [last] == v;
    }
  }

  lemma SortedInTime(v: seq<StakeBlock>)
    requires Sorted(v)
    ensures InTimeOrder(v)
  {
    forall i, j | 0 <= i < j < |v| ensures v[i].time <= v[j].time { assert Before(v[i], v[j]); }
  }

  lemma RoundAdded(v: seq<StakeBlock>, picks: seq<StakeBlock>, i: nat, start: int, h: SelectionHash, modifier: nat)
    requires Rounds(v, picks, start, h, modifier) && |picks| < 64 && i < |v|
    requires Chosen(v, i, HashesOf(picks), start + Sections(|picks| + 1), h, modifier)
    ensures Rounds(v, picks + [v[i]], start, h, modifier)
  {
    hide Chosen, HashesOf, Sections;
    var more := picks + [v[i]];
    assert more[..|picks|] == picks;
    forall k | 0 <= k < |more| ensures PickedIn(v, more, k, start, h, modifier) {
      if k < |picks| {
        assert PickedIn(v, picks, k, start, h, modifier) && more[..k] == picks[..k];
      }
    }
  }

  // As many rounds as there are candidates, but no more than sixty-four; none of them fails.
  method SelectBlocks(v: seq<StakeBlock>, start: int, h: SelectionHash, modifier: nat)
    returns (ok: bool, bits: nat, ghost picks: seq<StakeBlock>)
    requires Sorted(v) && DistinctHashes(v)
    ensures ok && bits == BitsOf(picks) && |picks| == Min(64, |v|) && Rounds(v, picks, start, h, modifier)
  {
    hide Chosen, Sorted, InTimeOrder, Section, Lot, Rounds, HashesOf, BitsOf;
    SortedInTime(v);
    NoRounds(v, start, h, modifier);
    bits, picks := 0, [];
    var stop := start;
    var selected: set<Hash256> := {};
    var weight := 1;
    for round := 0 to Min(64, |v|)
      invariant |picks| == round && bits == BitsOf(picks) && weight == Pow2(round) && selected == HashesOf(picks)
      invariant stop == start + Sections(round) && Rounds(v, picks, start, h, modifier)
    {
      stop := stop + Section(round);
      OneLeft(v, picks);
      var best := SelectBlockFromCandidates(v, selected, stop, h, modifier);
      if best.None? {
        return false, bits, picks;
      }
      var b := v[best.value];
      RoundAdded(v, picks, best.value, start, h, modifier);
      HashesSnoc(picks, b);
      BitsSnoc(picks, b);
      bits := bits + if b.entropyBit then weight else 0;
      weight := weight * 2;
      selected := selected + {b.hash};
      picks := picks + [b];
    }
    ok := true;
  }

  // The modifier for the block after chain[h]; `picks` are the blocks chosen when one is generated.
  method ComputeNextStakeModifier(chain: seq<StakeBlock>, h: nat, hash: SelectionHash)
    returns (ok: bool, modifier: nat, generated: bool, ghost v: seq<StakeBlock>, ghost picks: seq<StakeBlock>)
    requires h < |chain| && DistinctHashes(chain) && chain[0].generated
    ensures ok
    ensures var g := LastGenerated(chain, h);
            && (generated <==> chain[g].time / MODIFIER_INTERVAL < chain[h].time / MODIFIER_INTERVAL)
            && (!generated ==> modifier == chain[g].modifier)
            && (generated ==>
                  && Sorted(v) && multiset(v) == multiset(Candidates(chain, h))
                  && |picks| == Min(64, |Candidates(chain, h)|)
                  && Rounds(v, picks, SelectionStart(chain, h), hash, chain[g].modifier)
                  && modifier == BitsOf(picks))
  {
    v, picks, modifier, generated := [], [], 0, false;
    var last := GetLastStakeModifier(chain, h);
    if last.None? {
      return false, modifier, generated, v, picks;
    }
    modifier := chain[last.value].modifier;
    if chain[last.value].time / MODIFIER_INTERVAL >= chain[h].time / MODIFIER_INTERVAL {
      return true, modifier, false, v, picks;
    }
    var sorted, start := CollectCandidates(chain, h);
    v := sorted;
    CandidatesDistinct(chain, h, v);
    var bits;
    ok, bits, picks := SelectBlocks(sorted, start, hash, modifier);
    modifier, generated := bits, true;
  }

  lemma CandidatesDistinct(chain: seq<StakeBlock>, h: nat, v: seq<StakeBlock>)
    requires h < |chain| && DistinctHashes(chain) && multiset(v) == multiset(Candidates(chain, h))
    ensures DistinctHashes(v)
  {
    var c := Candidates(chain, h);
    assert DistinctHashes(c);
    hide Candidates;
    forall i, j | 0 <= i < j < |v| ensures v[i].hash != v[j].hash {
      if v[i].hash == v[j].hash {
        SameBlock(c, v, i, j);
      }
    }
  }

  // Two places with one hash would be the same block twice.
  lemma SameBlock(c: seq<StakeBlock>, v: seq<StakeBlock>, i: nat, j: nat)
    requires DistinctHashes(c) && multiset(v) == multiset(c) && i < j < |v|
    ensures v[i].hash != v[j].hash
  {
    var a, b := v[i], v[j];
    assert a in multiset(c) && b in multiset(c);
    assert a in c && b in c;
    if a.hash == b.hash {
      OncePerHash(c, a, b);
      assert v == v[..i] + [a] + v[i + 1..j] + [b] + v[j + 1..];
      assert multiset(v)[a] >= 2;
      AtMostOnce(c, a);
    }
  }

  lemma OncePerHash(c: seq<StakeBlock>, a: StakeBlock, b: StakeBlock)
    requires DistinctHashes(c) && a in c && b in c && a.hash == b.hash
    ensures a == b
  {
    var i :| 0 <= i < |c| && c[i] == a;
    var j :| 0 <= j < |c| && c[j] == b;
  }

  lemma {:induction false} AtMostOnce(c: seq<StakeBlock>, a: StakeBlock)
    requires DistinctHashes(c)
    ensures multiset(c)[a] <= 1
  {
    if c != [] {
      var init, last := c[..|c| - 1], c[|c| - 1];
      AtMostOnce(init, a);
      assert c == init + [last];
      if last == a {
        NotThere(init, a);
      }
    }
  }

  lemma {:induction false} NotThere(c: seq<StakeBlock>, a: StakeBlock)
    requires forall i :: 0 <= i < |c| ==> c[i] != a
    ensures multiset(c)[a] == 0
  {
    assert a !in c;
  }

  // ---------------------------------------------------------------- in numbers

  // The lot is the selection hash, without its last 32 bits for a proof-of-stake block: of two blocks
  // with one hash that one is never behind, and it is ahead whenever the hash is not zero.
  lemma LotExactly(h: SelectionHash, b: StakeBlock, modifier: nat)
    ensures var hash, lot := h(b.proofHash, modifier), Lot(h, b, modifier);
            && (!b.proofOfStake ==> lot == hash)
            && (b.proofOfStake ==> lot * 0x1_0000_0000 <= hash < (lot + 1) * 0x1_0000_0000)
  {
    var hash := h(b.proofHash, modifier);
    assert hash == hash / 0x1_0000_0000 * 0x1_0000_0000 + hash % 0x1_0000_0000;
  }

  lemma StakeFavoured(h: SelectionHash, a: StakeBlock, b: StakeBlock, modifier: nat)
    requires a.proofOfStake && !b.proofOfStake && h(a.proofHash, modifier) == h(b.proofHash, modifier)
    ensures Lot(h, a, modifier) <= Lot(h, b, modifier)
    ensures h(a.proofHash, modifier) > 0 ==> Lot(h, a, modifier) < Lot(h, b, modifier)
  {
  }

  // The sections grow from 40 to 120 seconds: the n-th is 7560 seconds divided by 189 - 2 n.
  lemma SectionExactly(n: nat)
    requires n < 64
    ensures Section(n) * (189 - 2 * n) <= 7560 < (Section(n) + 1) * (189 - 2 * n)
    ensures 40 <= Section(n) <= 120 && (n == 0 ==> Section(n) == 40) && (n == 63 ==> Section(n) == 120)
  {
    var d := 189 - 2 * n;
    assert 63 <= d <= 189 && Section(n) == 7560 / d;
    assert 7560 == 7560 / d * d + 7560 % d;
  }

  // The interval starts that many seconds before the last multiple of 120 that is not after the tip.
  lemma StartExactly(chain: seq<StakeBlock>, h: nat)
    requires h < |chain|
    ensures var end := SelectionStart(chain, h) + Sections(64);
            end % 120 == 0 && end <= chain[h].time < end + 120
    ensures forall n :: 0 <= n < 64 ==> Sections(n + 1) == Sections(n) + Section(n)
  {
    hide Section;
    var t := chain[h].time;
    assert t == t / 120 * 120 + t % 120;
  }

  // The candidates are the last blocks of the chain, back to the first one before the start, in the
  // order of their times and, for equal times, of their hashes.
  lemma CandidatesExactly(chain: seq<StakeBlock>, h: nat, v: seq<StakeBlock>) returns (f: nat)
    requires h < |chain| && Sorted(v) && multiset(v) == multiset(Candidates(chain, h))
    ensures f <= h + 1 && multiset(v) == multiset(chain[f..h + 1])
    ensures f > 0 ==> chain[f - 1].time < SelectionStart(chain, h)
    ensures forall i :: f <= i <= h ==> chain[i].time >= SelectionStart(chain, h)
    ensures forall i, j :: 0 <= i < j < |v| ==>
              v[i].time < v[j].time || (v[i].time == v[j].time && v[i].hash <= v[j].hash)
  {
    hide Sorted, SelectionStart;
    SortedExactly(v);
    f := FirstCandidate(chain, h, SelectionStart(chain, h));
  }

  lemma SortedExactly(v: seq<StakeBlock>)
    requires Sorted(v)
    ensures forall i, j :: 0 <= i < j < |v| ==>
              v[i].time < v[j].time || (v[i].time == v[j].time && v[i].hash <= v[j].hash)
  {
    forall i, j | 0 <= i < j < |v|
      ensures v[i].time < v[j].time || (v[i].time == v[j].time && v[i].hash <= v[j].hash)
    {
      assert Before(v[i], v[j]);
    }
  }

  // Each round picks a block not picked before: the one with the least lot up to the end of its section,
  // or the first one left when all are later.
  lemma RoundExactly(v: seq<StakeBlock>, picks: seq<StakeBlock>, start: int, h: SelectionHash, modifier: nat, k: nat)
    returns (i: nat)
    requires Rounds(v, picks, start, h, modifier) && k < |picks|
    ensures k < 64 && i < |v| && v[i] == picks[k] && v[i].hash !in HashesOf(picks[..k])
    ensures var stop := start + Sections(k + 1);
            && (v[i].time <= stop ==>
                  forall j :: 0 <= j < |v| && v[j].hash !in HashesOf(picks[..k]) && v[j].time <= stop ==>
                    Lot(h, v[i], modifier) <= Lot(h, v[j], modifier))
            && (v[i].time > stop ==>
                  forall j :: 0 <= j < |v| && v[j].hash !in HashesOf(picks[..k]) ==> i <= j && v[j].time > stop)
  {
    hide Lot, HashesOf, Sections;
    assert PickedIn(v, picks, k, start, h, modifier);
    var n :| 0 <= n < |v| && v[n] == picks[k]
             && Chosen(v, n, HashesOf(picks[..k]), start + Sections(k + 1), h, modifier);
    i := n;
    forall j | 0 <= j < |v| && v[j].hash !in HashesOf(picks[..k])
      ensures Unselected(v, j, HashesOf(picks[..k])) { }
  }
}
