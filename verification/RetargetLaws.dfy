// Which way the retarget moves the target (src/blockparams.cpp), in numbers: slow blocks ease it, fast
// ones tighten it, and a long wait eases it further.
module RetargetLaws {
  import opened Arithmetic
  import opened Compact
  import opened Retarget

  // The seconds from the block k below the tip to the one above it.
  function Wait(s: Setting, k: nat): (w: int)
    requires 1 <= k <= s.height < |s.chain|
    ensures s.chain[s.height - k].time + w == s.chain[s.height - (k - 1)].time
  {
    s.chain[s.height + 1 - k].time - s.chain[s.height - k].time
  }

  // ---------------------------------------------------------------- the average

  // The average over the last five waits: 2 for less than 210 seconds, 1.5 below 240, 1.25 below 300,
  // 1 up to 330, 0.75 up to 510 and 0.5 beyond.
  lemma AverageExactly(s: Setting)
    requires Indexed(s)
    ensures 5.0 * Average(s) == Weight(Wait(s, 1)) + Weight(Wait(s, 2)) + Weight(Wait(s, 3)) + Weight(Wait(s, 4))
                                + Weight(Wait(s, 5))
  {
    hide RateFactor;
    assert FactorSum(s.chain, s.height, 0) == 0.0;
    WeightIs(Wait(s, 1));
    WeightIs(Wait(s, 2));
    WeightIs(Wait(s, 3));
    WeightIs(Wait(s, 4));
    WeightIs(Wait(s, 5));
    assert FactorSum(s.chain, s.height, 1) == FactorSum(s.chain, s.height, 0) + RateFactor(Wait(s, 1));
    assert FactorSum(s.chain, s.height, 2) == FactorSum(s.chain, s.height, 1) + RateFactor(Wait(s, 2));
    assert FactorSum(s.chain, s.height, 3) == FactorSum(s.chain, s.height, 2) + RateFactor(Wait(s, 3));
    assert FactorSum(s.chain, s.height, 4) == FactorSum(s.chain, s.height, 3) + RateFactor(Wait(s, 4));
    assert FactorSum(s.chain, s.height, 5) == FactorSum(s.chain, s.height, 4) + RateFactor(Wait(s, 5));
  }

  // Counted from the longest wait down: each bound that a wait stays below adds its part.
  function Weight(wait: int): real {
    0.5 + (if wait <= 510 then 0.25 else 0.0) + (if wait <= 330 then 0.25 else 0.0) + (if wait < 300 then 0.25 else 0.0)
    + (if wait < 240 then 0.25 else 0.0) + if wait < 210 then 0.5 else 0.0
  }

  lemma WeightIs(wait: int)
    ensures Weight(wait) == RateFactor(wait)
  {
  }

  // Longer waits never give a larger average.
  lemma SlowerIsLess(s: Setting, t: Setting)
    requires Indexed(s) && Indexed(t) && forall k :: 1 <= k <= 5 ==> Wait(s, k) <= Wait(t, k)
    ensures Average(s) >= Average(t)
  {
    hide Wait, Average, Weight;
    AverageExactly(s);
    AverageExactly(t);
    forall k | 1 <= k <= 5 ensures Weight(Wait(s, k)) >= Weight(Wait(t, k)) {
      WeightFalls(Wait(s, k), Wait(t, k));
    }
  }

  lemma WeightFalls(a: int, b: int)
    requires a <= b
    ensures Weight(a) >= Weight(b)
  {
  }

  lemma AverageBounds(s: Setting)
    requires Indexed(s)
    ensures (forall k :: 1 <= k <= 5 ==> Wait(s, k) > 510) ==> Average(s) == 0.5
    ensures (forall k :: 1 <= k <= 5 ==> 330 < Wait(s, k) <= 510) ==> Average(s) == 0.75
    ensures (forall k :: 1 <= k <= 5 ==> Wait(s, k) > 330) ==> Average(s) <= 0.75
    ensures (forall k :: 1 <= k <= 5 ==> 300 <= Wait(s, k) <= 330) ==> Average(s) == 1.0
    ensures (forall k :: 1 <= k <= 5 ==> Wait(s, k) < 300) ==> Average(s) >= 1.25
    ensures (forall k :: 1 <= k <= 5 ==> 240 <= Wait(s, k) < 300) ==> Average(s) == 1.25
    ensures (forall k :: 1 <= k <= 5 ==> 210 <= Wait(s, k) < 240) ==> Average(s) == 1.5
    ensures (forall k :: 1 <= k <= 5 ==> Wait(s, k) < 210) ==> Average(s) == 2.0
  {
    AverageExactly(s);
    hide Wait, Average;
  }

  // ---------------------------------------------------------------- the curve

  // The seconds the curve looks at, kept without a sign in 64 bits: since the last block of the kind
  // asked about, or, up to height 300, from the block before it to it.
  function Waited(s: Setting): (w: nat)
    requires Indexed(s)
    ensures var v, tip := Last(s), s.height;
            && (tip > 300 && 0 <= s.chain[tip].time - s.chain[v].time < 0x1_0000_0000_0000_0000 ==>
                  s.chain[v].time + w == s.chain[tip].time)
            && (tip <= 300 && 0 <= s.chain[v].time - s.chain[v - 1].time < 0x1_0000_0000_0000_0000 ==>
                  s.chain[v - 1].time + w == s.chain[v].time)
  {
    var v := Last(s);
    (if s.height > 300 then s.chain[s.height].time - s.chain[v].time else s.chain[v].time - s.chain[v - 1].time)
    % 0x1_0000_0000_0000_0000
  }

  // Above height 300 the average is divided by 2, 6, 24, 120 or 720 after 45, 50, 55, 60 or 65 minutes,
  // and after 70 the limit applies; up to height 300 it is halved for each of 45 to 48 hours passed.
  // With a low difficulty there is no curve above height 300.
  lemma CurveExactly(s: Setting)
    requires Indexed(s)
    ensures Resets(s) <==> s.height > 300 && !s.lowDifficulty && Waited(s) > 4200
    ensures s.height > 300 && (s.lowDifficulty || Waited(s) <= 2700) ==> Curved(s) == Average(s)
    ensures s.height > 300 && !s.lowDifficulty && Waited(s) > 2700 ==>
              Curved(s) == Average(s) / if Waited(s) <= 3000 then 2.0 else if Waited(s) <= 3300 then 6.0
                           else if Waited(s) <= 3600 then 24.0 else if Waited(s) <= 3900 then 120.0 else 720.0
    ensures s.height <= 300 ==>
              Curved(s) == Average(s) / if Waited(s) <= 162000 then 1.0 else if Waited(s) <= 165600 then 2.0
                           else if Waited(s) <= 169200 then 4.0 else if Waited(s) <= 172800 then 8.0 else 16.0
  {
    hide Average, Last;
    assert Waited(s) == Gap(s);
    DivisorTable(Rounds(Gap(s)));
    HalvedTable(Average(s), Halvings(Gap(s)));
  }

  lemma HalvedTable(a: real, r: nat)
    requires r <= 4
    ensures Halved(a, r) == a / if r == 0 then 1.0 else if r == 1 then 2.0 else if r == 2 then 4.0
                            else if r == 3 then 8.0 else 16.0
  {
    assert Halved(a, 0) == a && Halved(a, 1) == a / 2.0 && Halved(a, 2) == Halved(a, 1) / 2.0;
    assert Halved(a, 3) == Halved(a, 2) / 2.0 && Halved(a, 4) == Halved(a, 3) / 2.0;
  }

  // ---------------------------------------------------------------- the target

  // Without a curve round the number divided by is 10000 for five waits of 300 to 330 seconds, at most
  // 7500 for longer and at least 12500 for shorter ones.
  lemma FactorBounds(s: Setting)
    requires Indexed(s) && if s.height > 300 then s.lowDifficulty || Waited(s) <= 2700 else Waited(s) <= 162000
    ensures (forall k :: 1 <= k <= 5 ==> 300 <= Wait(s, k) <= 330) ==> Factor(s) == 10000
    ensures (forall k :: 1 <= k <= 5 ==> Wait(s, k) > 330) ==> Factor(s) <= 7500
    ensures (forall k :: 1 <= k <= 5 ==> Wait(s, k) > 510) ==> Factor(s) == 5000
    ensures (forall k :: 1 <= k <= 5 ==> Wait(s, k) < 300) ==> Factor(s) >= 12500
    ensures (forall k :: 1 <= k <= 5 ==> Wait(s, k) < 210) ==> Factor(s) == 20000
  {
    hide Wait, Average, Curved, Waited;
    AverageBounds(s);
    CurveExactly(s);
    assert Curved(s) == Average(s);
  }

  // A curve round never makes the number divided by larger.
  lemma CurveEases(s: Setting)
    requires Indexed(s)
    ensures Curved(s) <= Average(s)
  {
    hide Average, Curved, Waited;
    CurveExactly(s);
  }

  // The next target: the limit for the first 130 blocks and beyond the curve, otherwise ten thousand
  // times the quotient, at most the limit; rounded to three bytes.
  lemma NextExactly(s: Setting, limit: nat)
    requires s.height < |s.chain| && Plausible(limit)
    requires s.height >= 130 ==> Indexed(s) && Expanded(s.chain[Last(s)].nBits) >= 0
    ensures s.height < 130 ==> Expanded(NextTarget(s, limit)) == Rounded(limit)
    ensures s.height >= 130 && Resets(s) ==> Expanded(NextTarget(s, limit)) == Rounded(limit)
    ensures s.height >= 130 && !Resets(s) ==>
              var n := Expanded(s.chain[Last(s)].nBits) / Divided(s) * 10000;
              n >= 0 && Expanded(NextTarget(s, limit)) == Rounded(if n > limit then limit else n)
  {
    hide Curved, Resets, Compacted, Expanded, Mpi, Rounded, Last, Factor;
    ExpandedCompacted(limit);
    if s.height >= 130 && !Resets(s) {
      FactorInRange(s);
      var old_, f := Expanded(s.chain[Last(s)].nBits), Factor(s);
      WholePart(old_, f);
      var n := old_ / f * 10000;
      var next := if n > limit then limit else n;
      assert next == Limited(old_, f, limit);
      NextIs(s, limit);
      if next > 0 {
        SizesInOrder(next, limit);
      } else {
        Retarget.NoBytes();
      }
      ExpandedCompacted(next);
    }
  }

  lemma NextIs(s: Setting, limit: nat)
    requires s.height < |s.chain| && s.height >= 130 && Indexed(s) && Expanded(s.chain[Last(s)].nBits) >= 0
    requires !Resets(s) && Factor(s) > 0
    ensures NextTarget(s, limit) == Compacted(Limited(Expanded(s.chain[Last(s)].nBits), Factor(s), limit))
  {
    hide Curved, Resets, Compacted, Expanded, Last, Limited;
  }

  // After five slow blocks the target rises, unless the limit stops it: any old target from 40000 on.
  // After five fast ones it falls by a fifth at least.
  lemma TargetMoves(s: Setting, limit: nat)
    requires s.height < |s.chain| && Plausible(limit) && s.height >= 130 && Indexed(s)
    requires Expanded(s.chain[Last(s)].nBits) >= 0
    requires if s.height > 300 then s.lowDifficulty || Waited(s) <= 2700 else Waited(s) <= 162000
    ensures var old_, new_ := Expanded(s.chain[Last(s)].nBits), Expanded(NextTarget(s, limit));
            && ((forall k :: 1 <= k <= 5 ==> Wait(s, k) > 330) && old_ >= 40000 ==>
                  new_ > old_ || new_ == Rounded(limit))
            && ((forall k :: 1 <= k <= 5 ==> Wait(s, k) < 300) ==> 5 * new_ <= 4 * old_)
  {
    hide Curved, Expanded, Rounded, Wait, Waited, Factor, Last, Indexed, NextTarget, Plausible, Resets;
    FactorBounds(s);
    FactorPositive(s);
    NoReset(s);
    NextExactly(s, limit);
    var old_, f := Expanded(s.chain[Last(s)].nBits), Factor(s);
    var n := old_ / f * 10000;
    var next: nat := if n > limit then limit else n;
    RoundingError(next);
    if forall k :: 1 <= k <= 5 ==> Wait(s, k) < 300 {
      Falls(old_, f);
    }
    if (forall k :: 1 <= k <= 5 ==> Wait(s, k) > 330) && old_ >= 40000 && n <= limit {
      Rises(old_, f, Rounded(next));
    }
  }

  lemma FactorPositive(s: Setting)
    requires Indexed(s)
    ensures Factor(s) >= 6
  {
    FactorInRange(s);
  }

  lemma NoReset(s: Setting)
    requires Indexed(s) && if s.height > 300 then s.lowDifficulty || Waited(s) <= 2700 else Waited(s) <= 162000
    ensures !Resets(s)
  {
    hide Waited;
    CurveExactly(s);
  }

  lemma Falls(old_: nat, f: int)
    requires f >= 12500
    ensures 0 <= 5 * (old_ / f * 10000) <= 4 * old_
  {
    var q := old_ / f;
    assert old_ == q * f + old_ % f;
    AtMost(12500, f, q);
  }

  lemma Rises(old_: nat, f: int, rounded: nat)
    requires old_ >= 40000 && 0 < f <= 7500
    requires 0x8000 * (old_ / f * 10000 - rounded) < old_ / f * 10000
    ensures rounded > old_
  {
    var q := old_ / f;
    assert old_ == q * f + old_ % f;
    AtMost(f, 7500, q);
    RisesBy(old_, q, rounded);
  }

  lemma RisesBy(old_: nat, q: int, rounded: nat)
    requires old_ >= 40000 && old_ < (q + 1) * 7500 && 0x8000 * (q * 10000 - rounded) < q * 10000
    ensures rounded > old_
  {
  }
}
