// The difficulty retarget (src/blockparams.cpp: VRX_BaseEngine, VRX_ThreadCurve,
// VRX_Simulate_Retarget, VRX_Retarget), with its averages taken over exact reals.
module Retarget {
  import opened Common
  import opened Numerals
  import opened Compact

  datatype Header = Header(time: int, proofOfStake: bool, nBits: nat)

  const BLOCK_SPACING: int := 300
  const BLOCK_SPACING_MAX: int := 330
  const RATE_DOWN: int := 240
  const RATE_FLOOR: int := 210
  const RATE_CEILING: int := 510
  const SCAN_HEIGHT: nat := 6

  // ---------------------------------------------------------------- specification

  // The multiplier for one spacing: slow blocks ease the target, fast ones tighten it.
  function RateFactor(rate: int): (f: real)
    ensures 0.5 <= f <= 2.0
  {
    if rate >= BLOCK_SPACING then
      if rate > RATE_CEILING then 0.5 else if rate > BLOCK_SPACING_MAX then 0.75 else 1.0
    else
      if rate < RATE_FLOOR then 2.0 else if rate < RATE_DOWN then 1.5 else 1.25
  }

  // The time between the k-th block below the tip and the one above it.
  function Spacing(chain: seq<Header>, h: nat, k: nat): int
    requires 1 <= k <= h < |chain|
  {
    chain[h - k + 1].time - chain[h - k].time
  }

  function FactorSum(chain: seq<Header>, h: nat, k: nat): (s: real)
    requires k <= h < |chain|
    ensures 0.5 * k as real <= s <= 2.0 * k as real
  {
    if k == 0 then 0.0 else FactorSum(chain, h, k - 1) + RateFactor(Spacing(chain, h, k))
  }

  function StakeBlocks(chain: seq<Header>, h: nat, k: nat): (n: nat)
    requires k <= h < |chain|
    ensures n <= k
  {
    if k == 0 then 0 else StakeBlocks(chain, h, k - 1) + if chain[h - k].proofOfStake then 1 else 0
  }

  // The last block of a kind at or below h, or the first block.
  function LastOf(chain: seq<Header>, h: nat, fProofOfStake: bool): (v: nat)
    requires h < |chain|
    ensures v <= h && (v == 0 || chain[v].proofOfStake == fProofOfStake)
    ensures forall i :: v < i <= h ==> chain[i].proofOfStake != fProofOfStake
  {
    if h == 0 || chain[h].proofOfStake == fProofOfStake then h else LastOf(chain, h - 1, fProofOfStake)
  }

  // Differences of times are kept in 64 bits without a sign.
  function U64(x: int): nat { x % 0x1_0000_0000_0000_0000 }

  function Skewed(average: real, prevPoW: int, prevPoS: int, fProofOfStake: bool): real {
    var rarer := if fProofOfStake then prevPoW - prevPoS > 3 else prevPoS - prevPoW > 3;
    var a := if rarer then average / 3.0 else average;
    if a < 0.5 then 0.5 else a
  }

  // How many times the curve is applied for a gap of that many seconds: once for 45 minutes, once
  // more for every five minutes after that, at most five times.
  function Rounds(difTime: nat): (r: nat)
    ensures r <= 5
  {
    if difTime <= 45 * 60 then 0 else if difTime <= 50 * 60 then 1 else if difTime <= 55 * 60 then 2
    else if difTime <= 60 * 60 then 3 else if difTime <= 65 * 60 then 4 else 5
  }

  // Two, three, four and so on, multiplied.
  function Divisor(r: nat): (d: nat)
    ensures d >= 1
  {
    if r == 0 then 1 else (r + 1) * Divisor(r - 1)
  }

  // Beyond this gap the curve gives up and the limit applies.
  predicate GivesUp(difTime: nat) { difTime > 70 * 60 }

  // The early curve halves once for each of four thresholds, counted in hours.
  function Halvings(difTime: nat): (r: nat)
    ensures r <= 4
  {
    if difTime <= 45 * 3600 then 0 else if difTime <= 46 * 3600 then 1 else if difTime <= 47 * 3600 then 2
    else if difTime <= 48 * 3600 then 3 else 4
  }

  function Halved(x: real, r: nat): real { if r == 0 then x else Halved(x, r - 1) / 2.0 }

  // Whether the previous difficulty counts as too low for the curve is outside the model.
  datatype Setting = Setting(chain: seq<Header>, height: nat, fProofOfStake: bool, lowDifficulty: bool)

  predicate Indexed(s: Setting) {
    && s.height < |s.chain| && s.height >= SCAN_HEIGHT + 124
    && LastOf(s.chain, s.height, s.fProofOfStake) > 0
  }

  function Average(s: Setting): (a: real)
    requires Indexed(s)
    ensures 0.5 <= a <= 2.0
  {
    FactorSum(s.chain, s.height, 5) / 5.0
  }

  // The kind asked about counts once more for every block scanned, so it is never the rarer one:
  // the skew has no effect.
  lemma NeverSkewed(s: Setting)
    requires Indexed(s)
    ensures var pos := StakeBlocks(s.chain, s.height, 5) + (if s.fProofOfStake then 5 else 0);
            var pow := 5 - StakeBlocks(s.chain, s.height, 5) + (if s.fProofOfStake then 0 else 5);
            Skewed(Average(s), pow, pos, s.fProofOfStake) == Average(s)
  {
  }

  function Last(s: Setting): (v: nat)
    requires Indexed(s)
    ensures 0 < v <= s.height
  {
    LastOf(s.chain, s.height, s.fProofOfStake)
  }

  function Gap(s: Setting): nat
    requires Indexed(s)
  {
    var v := Last(s);
    if s.height > 300 then U64(s.chain[s.height].time - s.chain[v].time)
    else U64(s.chain[v].time - s.chain[v - 1].time)
  }

  predicate Resets(s: Setting)
    requires Indexed(s)
  {
    s.height > 300 && !s.lowDifficulty && GivesUp(Gap(s))
  }

  function Curved(s: Setting): real
    requires Indexed(s)
  {
    if s.height > 300 then
      if s.lowDifficulty then Average(s) else Average(s) / Divisor(Rounds(Gap(s))) as real
    else Halved(Average(s), Halvings(Gap(s)))
  }

  // The number the old target is divided by, in units of one ten-thousandth.
  function Factor(s: Setting): int
    requires Indexed(s)
  {
    (10000.0 * Curved(s)).Floor
  }

  lemma DivisorTable(r: nat)
    requires r <= 5
    ensures Divisor(r) == if r == 0 then 1 else if r == 1 then 2 else if r == 2 then 6 else if r == 3 then 24
            else if r == 4 then 120 else 720
  {
    assert Divisor(0) == 1 && Divisor(1) == 2 && Divisor(2) == 6;
    assert Divisor(3) == 24;
    assert Divisor(4) == 5 * Divisor(3) && Divisor(5) == 6 * Divisor(4);
  }

  // Whatever the times, the division is by a number from 6 to 20000.
  lemma FactorInRange(s: Setting)
    requires Indexed(s)
    ensures 6 <= Factor(s) <= 20000
  {
    DivisorTable(Rounds(Gap(s)));
    hide FactorSum, Gap, Rounds, Halvings;
    var a := Average(s);
    if s.height > 300 {
      if !s.lowDifficulty {
        DividedRange(a, Rounds(Gap(s)));
      }
    } else {
      HalvedRange(a, Halvings(Gap(s)));
    }
  }

  lemma DividedRange(a: real, r: nat)
    requires 0.5 <= a <= 2.0 && r <= 5
    ensures 6.0 <= 10000.0 * (a / Divisor(r) as real) <= 20000.0
  {
    DivisorTable(r);
    if r == 0 {
    } else if r == 1 {
      assert a / 2.0 <= 2.0;
    } else if r == 2 {
      assert a / 6.0 <= 2.0;
    } else if r == 3 {
      assert a / 24.0 <= 2.0;
    } else if r == 4 {
      assert a / 120.0 <= 2.0;
    } else {
      assert a / 720.0 <= 2.0;
    }
  }

  lemma HalvedRange(a: real, r: nat)
    requires 0.5 <= a <= 2.0 && r <= 4
    ensures 6.0 <= 10000.0 * Halved(a, r) <= 20000.0
  {
    assert Halved(a, 1) == a / 2.0 && Halved(a, 2) == Halved(a, 1) / 2.0;
    assert Halved(a, 3) == Halved(a, 2) / 2.0 && Halved(a, 4) == Halved(a, 3) / 2.0;
    assert r == 0 || r == 1 || r == 2 || r == 3 || r == 4;
  }

  // BIGNUM division drops the fraction.
  function Truncated(a: int, b: int): int
    requires b > 0
  {
    if a >= 0 then a / b else -((-a) / b)
  }

  function Scaled(old_: int, factor: int): int
    requires factor > 0
  {
    Truncated(old_, factor) * 10000
  }

  // ---------------------------------------------------------------- the engine

  class Engine {
    var vlf: seq<real>
    var terminalAverage: real
    var terminalFactor: real
    var difficultyFactor: int
    var prevPoW: int
    var prevPoS: int
    var bnOld: int
    var bnNew: int
    var fCRVreset: bool

    constructor ()
    {
      vlf, terminalAverage, terminalFactor, difficultyFactor := [], 0.0, 10000.0, 0;
      prevPoW, prevPoS, bnOld, bnNew, fCRVreset := 0, 0, 0, 0, false;
    }

    method BaseEngine(s: Setting)
      requires Indexed(s)
      modifies this
      ensures terminalAverage == Average(s) && terminalFactor == 10000.0
      ensures prevPoS == StakeBlocks(s.chain, s.height, 5) + (if s.fProofOfStake then 5 else 0)
      ensures prevPoW == 5 - StakeBlocks(s.chain, s.height, 5) + (if s.fProofOfStake then 0 else 5)
    {
      hide RateFactor, Spacing, FactorSum, StakeBlocks;
      NoFactors(s.chain, s.height);
      vlf, terminalAverage, terminalFactor, difficultyFactor := [0.0, 0.0, 0.0, 0.0, 0.0], 0.0, 10000.0, 0;
      prevPoW, prevPoS := 0, 0;
      var scanblocks := 1;
      var scantime1, scantime2 := 0, s.chain[s.height].time;
      var pindexPrev := s.height;
      ghost var sum := 0.0;
      while scanblocks < SCAN_HEIGHT
        invariant 1 <= scanblocks <= SCAN_HEIGHT && pindexPrev == s.height - (scanblocks - 1)
                  && scantime2 == s.chain[pindexPrev].time
        invariant |vlf| == 5 && terminalFactor == 10000.0
        invariant vlf[0] + vlf[1] + vlf[2] + vlf[3] + vlf[4] == FactorSum(s.chain, s.height, scanblocks - 1)
        invariant forall k :: scanblocks - 1 <= k < 5 ==> vlf[k] == 0.0
        invariant prevPoS == StakeBlocks(s.chain, s.height, scanblocks - 1)
                  + (if s.fProofOfStake then scanblocks - 1 else 0)
        invariant prevPoW == scanblocks - 1 - StakeBlocks(s.chain, s.height, scanblocks - 1)
                  + (if s.fProofOfStake then 0 else scanblocks - 1)
      {
        scantime1 := scantime2;
        pindexPrev := pindexPrev - 1;
        scantime2 := s.chain[pindexPrev].time;
        var rate := scantime1 - scantime2;
        OneMoreFactor(s.chain, s.height, scanblocks);
        var factor := Classify(rate);
        vlf := vlf[scanblocks - 1 := factor];
        if s.fProofOfStake {
          prevPoS := prevPoS + 1;
        } else {
          prevPoW := prevPoW + 1;
        }
        if s.chain[pindexPrev].proofOfStake {
          prevPoS := prevPoS + 1;
        } else {
          prevPoW := prevPoW + 1;
        }
        scanblocks := scanblocks + 1;
      }
      terminalAverage := (vlf[0] + vlf[1] + vlf[2] + vlf[3] + vlf[4]) / 5.0;
    }

    lemma NoFactors(chain: seq<Header>, h: nat)
      requires h < |chain|
      ensures FactorSum(chain, h, 0) == 0.0 && StakeBlocks(chain, h, 0) == 0
    {
    }

    lemma OneMoreFactor(chain: seq<Header>, h: nat, k: nat)
      requires 1 <= k <= h < |chain|
      ensures FactorSum(chain, h, k)
              == FactorSum(chain, h, k - 1) + RateFactor(chain[h - k + 1].time - chain[h - k].time)
      ensures StakeBlocks(chain, h, k) == StakeBlocks(chain, h, k - 1) + if chain[h - k].proofOfStake then 1 else 0
    {
      hide RateFactor;
    }

    method Classify(rate: int) returns (factor: real)
      ensures factor == RateFactor(rate)
    {
      if rate >= BLOCK_SPACING {
        factor := 1.0;
        if rate > BLOCK_SPACING_MAX {
          factor := 0.75;
          if rate > RATE_CEILING {
            factor := 0.5;
          }
        }
      } else {
        factor := 1.25;
        if rate < RATE_DOWN {
          factor := 1.5;
          if rate < RATE_FLOOR {
            factor := 2.0;
          }
        }
      }
    }

    method SimulateRetarget(nBits: nat)
      requires terminalFactor == 10000.0 && nBits < 0x1_0000_0000 && 10000.0 * terminalAverage >= 1.0
      modifies this`terminalFactor, this`difficultyFactor, this`bnOld, this`bnNew
      ensures terminalFactor == 10000.0 && difficultyFactor == (10000.0 * terminalAverage).Floor >= 1
      ensures bnOld == Expanded(nBits) && bnNew == Scaled(bnOld, difficultyFactor)
    {
      terminalFactor := terminalFactor * terminalAverage;
      difficultyFactor := terminalFactor.Floor;
      bnOld := SetCompact(nBits);
      bnNew := Truncated(bnOld, difficultyFactor);
      bnNew := bnNew * 10000;
      terminalFactor := 10000.0;
    }

    // A third of the average for the kind of block found less often, but never below one half.
    method Skew(average: real, fProofOfStake: bool) returns (skewed: real)
      ensures skewed == Skewed(average, prevPoW, prevPoS, fProofOfStake)
    {
      skewed := average;
      if prevPoW < prevPoS && !fProofOfStake {
        if prevPoS - prevPoW > 3 {
          skewed := skewed / 3.0;
        }
      } else if prevPoW > prevPoS && fProofOfStake {
        if prevPoW - prevPoS > 3 {
          skewed := skewed / 3.0;
        }
      }
      if skewed < 0.5 {
        skewed := 0.5;
      }
    }

    method ThreadCurve(s: Setting)
      requires Indexed(s) && s.chain[Last(s)].nBits < 0x1_0000_0000
      modifies this
      ensures fCRVreset <==> Resets(s)
      ensures !fCRVreset ==> terminalAverage == Curved(s)
      ensures terminalFactor == 10000.0 && 10000.0 * terminalAverage >= 6.0
    {
      BaseEngine(s);
      terminalAverage := Skew(terminalAverage, s.fProofOfStake);
      NeverSkewed(s);
      fCRVreset := false;
      hide FactorSum, StakeBlocks, Skewed;
      if s.height > 300 {
        var difTime := U64(s.chain[s.height].time - s.chain[Last(s)].time);
        RunCurve(s.chain[Last(s)].nBits, difTime, s.lowDifficulty, terminalAverage);
      } else {
        var difTime := U64(s.chain[Last(s)].time - s.chain[Last(s) - 1].time);
        RunEarlyCurve(difTime, terminalAverage);
      }
    }

    method RunCurve(nBits: nat, difTime: nat, lowDifficulty: bool, ghost start: real)
      requires 0.5 <= start <= 2.0 && terminalAverage == start && terminalFactor == 10000.0 && nBits < 0x1_0000_0000
               && !fCRVreset
      modifies this
      ensures fCRVreset <==> !lowDifficulty && GivesUp(difTime)
      ensures !fCRVreset ==> terminalAverage == if lowDifficulty then start
              else start / Divisor(Rounds(difTime)) as real
      ensures terminalFactor == 10000.0 && 10000.0 * terminalAverage >= 6.0
    {
      var minuteRounds, difCurve := 45, 2;
      ghost var r := 0;
      DividedRange(start, 0);
      hide Divisor;
      DivisorTable(0);
      while difTime > minuteRounds * 60
        invariant r <= 5 && minuteRounds == 45 + 5 * r && difCurve == r + 2 && !fCRVreset && terminalFactor == 10000.0
        invariant terminalAverage == start / Divisor(r) as real && 10000.0 * terminalAverage >= 6.0
        invariant lowDifficulty ==> r == 0
        invariant r > 0 ==> difTime > (minuteRounds - 5) * 60
        decreases 10 - r
      {
        if lowDifficulty {
          break;
        }
        if minuteRounds > 65 {
          fCRVreset := true;
          break;
        }
        NextRound(start, r);
        DividedRange(start, r + 1);
        terminalAverage := terminalAverage / difCurve as real;
        SimulateRetarget(nBits);
        difCurve := difCurve + 1;
        minuteRounds := minuteRounds + 5;
        r := r + 1;
      }
    }

    lemma NextRound(start: real, r: nat)
      requires r <= 4
      ensures start / Divisor(r) as real / (r + 2) as real == start / Divisor(r + 1) as real
    {
      DivisorTable(r);
      DivisorTable(r + 1);
      assert r == 0 || r == 1 || r == 2 || r == 3 || r == 4;
    }

    method RunEarlyCurve(difTime: nat, ghost start: real)
      requires 0.5 <= start <= 2.0 && terminalAverage == start
      modifies this`terminalAverage
      ensures terminalAverage == Halved(start, Halvings(difTime)) && 10000.0 * terminalAverage >= 6.0
    {
      HalvedRange(start, Halvings(difTime));
      assert Halved(start, 1) == start / 2.0 && Halved(start, 2) == Halved(start, 1) / 2.0;
      assert Halved(start, 3) == Halved(start, 2) / 2.0 && Halved(start, 4) == Halved(start, 3) / 2.0;
      var minuteRounds, difCurve := 45, 2.0;
      if difTime > (minuteRounds + 0) * 60 * 60 {
        terminalAverage := terminalAverage / difCurve;
      }
      if difTime > (minuteRounds + 1) * 60 * 60 {
        terminalAverage := terminalAverage / difCurve;
      }
      if difTime > (minuteRounds + 2) * 60 * 60 {
        terminalAverage := terminalAverage / difCurve;
      }
      if difTime > (minuteRounds + 3) * 60 * 60 {
        terminalAverage := terminalAverage / difCurve;
      }
    }

    // The compact target for the block after the tip.
    method Retarget(s: Setting, limit: nat) returns (nBits: nat)
      requires s.height < |s.chain| && Plausible(limit)
      requires s.height >= SCAN_HEIGHT + 124 ==>
                 Indexed(s) && s.chain[Last(s)].nBits < 0x1_0000_0000 && Expanded(s.chain[Last(s)].nBits) >= 0
      modifies this
      ensures nBits == NextTarget(s, limit)
    {
      hide Curved, Resets, Compacted, Expanded, Indexed, Plausible, Last, Scaled, SignedMpi, Mpi, Kept;
      if s.height < SCAN_HEIGHT + 124 {
        nBits := GetCompact(limit);
        return;
      }
      FactorInRange(s);
      ThreadCurve(s);
      if fCRVreset {
        nBits := GetCompact(limit);
        return;
      }
      IndexedHeight(s);
      SimulateRetarget(s.chain[Last(s)].nBits);
      ScaledNotNegative(bnOld, difficultyFactor);
      if bnNew > limit {
        bnNew := limit;
      }
      nBits := GetCompact(bnNew);
    }
  }

  lemma IndexedHeight(s: Setting)
    requires Indexed(s)
    ensures s.height < |s.chain| && Last(s) <= s.height
  {
  }

  lemma ScaledNotNegative(a: int, b: int)
    requires a >= 0 && b > 0
    ensures Scaled(a, b) >= 0
  {
    WholePart(a, b);
  }

  // A limit whose length fits the compact form.
  predicate Plausible(limit: nat) { 0 < limit && |Mpi(limit)| < 0x100 }

  // Young chains and gaps beyond the curve take the limit itself.
  function NextTarget(s: Setting, limit: nat): nat
    requires s.height < |s.chain|
    requires s.height >= SCAN_HEIGHT + 124 ==> Indexed(s) && Expanded(s.chain[Last(s)].nBits) >= 0
  {
    if s.height < SCAN_HEIGHT + 124 || Resets(s) then Compacted(limit)
    else Compacted(Limited(Expanded(s.chain[Last(s)].nBits), Divided(s), limit))
  }

  function Divided(s: Setting): (f: int)
    requires Indexed(s)
    ensures f == Factor(s) >= 6
  {
    FactorInRange(s);
    Factor(s)
  }

  function Limited(old_: int, factor: int, limit: nat): (n: nat)
    requires old_ >= 0 && factor > 0
    ensures n == Min(Scaled(old_, factor), limit)
  {
    ScaledNotNegative(old_, factor);
    Min(Scaled(old_, factor), limit)
  }

  // CheckProofOfWork: the range of the target, and the hash within it.
  predicate CheckProofOfWork(hash: nat, nBits: nat, powLimit: nat) {
    0 < Expanded(nBits) <= powLimit && hash <= Expanded(nBits)
  }

  // The target never exceeds the limit, and is positive exactly when the old one is at least the
  // number it is divided by.
  lemma TargetInRange(s: Setting, limit: nat)
    requires s.height < |s.chain| && Plausible(limit)
    requires s.height >= SCAN_HEIGHT + 124 ==> Indexed(s) && Expanded(s.chain[Last(s)].nBits) >= 0
    ensures 0 <= Expanded(NextTarget(s, limit)) <= limit
    ensures s.height < SCAN_HEIGHT + 124 || Resets(s) ==> Expanded(NextTarget(s, limit)) == Rounded(limit) > 0
    ensures s.height >= SCAN_HEIGHT + 124 && !Resets(s) ==>
              (Expanded(NextTarget(s, limit)) > 0 <==> Expanded(s.chain[Last(s)].nBits) >= Factor(s))
  {
    hide Curved, Resets, Compacted, Expanded, Mpi, Rounded;
    ExpandedCompacted(limit);
    RoundingError(limit);
    if s.height >= SCAN_HEIGHT + 124 && !Resets(s) {
      FactorInRange(s);
      var old_, f := Expanded(s.chain[Last(s)].nBits), Factor(s);
      var next := Min(Scaled(old_, f), limit);
      assert Scaled(old_, f) >= 1 <==> old_ >= f by { WholePart(old_, f); }
      if next > 0 {
        SizesInOrder(next, limit);
      } else {
        NoBytes();
      }
      ExpandedCompacted(next);
      RoundingError(next);
    }
  }

  // Some hash can meet the next target exactly when the limit applies or the old target is at least
  // the factor; the range check of CheckProofOfWork then never stands in the way.
  lemma NextTargetUsable(s: Setting, limit: nat, powLimit: nat)
    requires s.height < |s.chain| && Plausible(limit) && limit <= powLimit
    requires s.height >= SCAN_HEIGHT + 124 ==> Indexed(s) && Expanded(s.chain[Last(s)].nBits) >= 0
    ensures (exists hash :: CheckProofOfWork(hash, NextTarget(s, limit), powLimit)) <==>
            s.height < SCAN_HEIGHT + 124 || Resets(s) || Expanded(s.chain[Last(s)].nBits) >= Factor(s)
  {
    hide Curved, Resets, NextTarget, Expanded, Factor, Indexed, Plausible, Last;
    TargetInRange(s, limit);
    var nBits := NextTarget(s, limit);
    if Expanded(nBits) > 0 {
      assert CheckProofOfWork(0, nBits, powLimit);
    }
  }

  // An old target of one is too small: the next one is zero, and no hash meets it.
  lemma TargetVanishes()
    ensures exists s: Setting ::
              && Indexed(s) && Expanded(s.chain[Last(s)].nBits) == 1
              && forall limit, powLimit, hash ::
                   Plausible(limit) && limit <= powLimit ==> !CheckProofOfWork(hash, NextTarget(s, limit), powLimit)
  {
    var nBits := 0x0101_0000;
    var chain := seq(131, i => Header(300 * i, false, nBits));
    var s := Setting(chain, 130, false, false);
    assert chain[130] == Header(300 * 130, false, nBits);
    assert Indexed(s) && Last(s) == 130;
    OneByte();
    FactorInRange(s);
    forall limit, powLimit, hash | Plausible(limit) && limit <= powLimit
      ensures !CheckProofOfWork(hash, NextTarget(s, limit), powLimit) {
      NextTargetUsable(s, limit, powLimit);
    }
  }

  lemma OneByte()
    ensures Expanded(0x0101_0000) == 1
  {
    assert CompactBytes(0x0101_0000) == [] + [1];
    ValueSnoc(256, [], 1);
  }

  lemma WholePart(a: nat, b: int)
    requires b > 0
    ensures a / b >= 1 <==> a >= b
    ensures a / b >= 0
  {
    if a >= b {
      assert a / b >= 1;
    } else {
      assert a / b == 0;
    }
  }

  lemma NoBytes()
    ensures |Mpi(0)| == 0
  {
  }
}
