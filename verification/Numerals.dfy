// Positional numerals in bases 58 and 256, most significant digit first.
module Numerals {
  import opened Arithmetic

  type Base = b: nat | b == 58 || b == 256 witness 58

  function Pow(base: Base, n: nat): (p: nat)
    ensures p >= 1
  {
    if n == 0 then 1 else base * Pow(base, n - 1)
  }

  predicate IsNumeral(base: Base, s: seq<nat>) { forall i :: 0 <= i < |s| ==> s[i] < base }

  function Value(base: Base, s: seq<nat>): nat {
    if s == [] then 0 else Value(base, s[..|s| - 1]) * base + s[|s| - 1]
  }

  // The digits of n, without leading zeros.
  function Digits(base: Base, n: nat): (s: seq<nat>)
    ensures IsNumeral(base, s) && (s != [] ==> s[0] != 0) && (s == [] <==> n == 0)
  {
    if n == 0 then [] else Digits(base, n / base) + [n % base]
  }

  function Strip(s: seq<nat>): seq<nat> { if s != [] && s[0] == 0 then Strip(s[1..]) else s }

  lemma {:induction false} ValueOfDigits(base: Base, n: nat)
    ensures Value(base, Digits(base, n)) == n
  {
    if n > 0 {
      var q, d := n / base, n % base;
      DigitsStep(base, n);
      hide Value, Digits;
      ValueOfDigits(base, q);
      ValueSnoc(base, Digits(base, q), d);
      Divided(n, base);
    }
  }

  lemma DigitsStep(base: Base, n: nat)
    requires n > 0
    ensures Digits(base, n) == Digits(base, n / base) + [n % base]
  {
  }

  lemma Divided(n: nat, base: Base)
    ensures n == n / base * base + n % base
  {
  }

  lemma {:induction false} StripSnoc(s: seq<nat>, d: nat)
    ensures Strip(s + [d]) == if Strip(s) != [] then Strip(s) + [d] else if d == 0 then [] else [d]
  {
    if s == [] {
      assert [d][1..] == [];
    } else {
      assert (s + [d])[1..] == s[1..] + [d];
      if s[0] == 0 {
        StripSnoc(s[1..], d);
      }
    }
  }

  // The digits of a numeral's value are the numeral without its leading zeros.
  lemma {:induction false} DigitsOfValue(base: Base, s: seq<nat>)
    requires IsNumeral(base, s)
    ensures Digits(base, Value(base, s)) == Strip(s)
  {
    if s != [] {
      var init, last := s[..|s| - 1], s[|s| - 1];
      DigitsOfValue(base, init);
      StripSnoc(init, last);
      assert s == init + [last];
      hide Strip, Value;
      DigitsSnoc(base, Value(base, init), last);
      assert Value(base, s) == Value(base, init) * base + last by { ValueSnoc(base, init, last); }
    }
  }

  lemma ValueSnoc(base: Base, s: seq<nat>, d: nat)
    ensures Value(base, s + [d]) == Value(base, s) * base + d
  {
    assert (s + [d])[..|s|] == s;
  }

  lemma DigitsSnoc(base: Base, v: nat, d: nat)
    requires d < base
    ensures Digits(base, v * base + d) == if Digits(base, v) != [] then Digits(base, v) + [d] else if d == 0 then []
            else [d]
  {
    hide Digits;
    AtMost(if v > 0 then 1 else 0, v, base);
    Quotient(v * base + d, v, d, base);
    if v * base + d > 0 {
      DigitsStep(base, v * base + d);
    }
  }

  lemma {:induction false} ValueBound(base: Base, s: seq<nat>)
    requires IsNumeral(base, s)
    ensures Value(base, s) < Pow(base, |s|)
  {
    if s != [] {
      ValueBound(base, s[..|s| - 1]);
    }
  }

  lemma {:induction false} ValueCons(base: Base, d: nat, s: seq<nat>)
    ensures Value(base, [d] + s) == d * Pow(base, |s|) + Value(base, s)
  {
    var all := [d] + s;
    if s == [] {
      assert all[..0] == [] && Value(base, all[..0]) == 0;
    } else {
      var init, last := s[..|s| - 1], s[|s| - 1];
      assert all[..|all| - 1] == [d] + init;
      ValueCons(base, d, init);
      Distribute(d, Pow(base, |init|), Value(base, init), base);
    }
  }

  lemma Distribute(d: nat, p: nat, v: nat, base: Base)
    ensures (d * p + v) * base == d * (base * p) + v * base
  {
    assert d * (58 * p) == 58 * (d * p) && d * (256 * p) == 256 * (d * p);
  }

  lemma {:induction false} StripValue(base: Base, s: seq<nat>)
    ensures Value(base, Strip(s)) == Value(base, s)
  {
    if s != [] && s[0] == 0 {
      StripValue(base, s[1..]);
      ValueCons(base, 0, s[1..]);
      assert [0] + s[1..] == s;
    }
  }

  lemma {:induction false} StripIsSame(s: seq<nat>)
    ensures Strip(s) == s <==> s == [] || s[0] != 0
    ensures |Strip(s)| <= |s| && (Strip(s) != s ==> |Strip(s)| < |s|)
  {
    if s != [] && s[0] == 0 {
      StripIsSame(s[1..]);
    }
  }

  // ---------------------------------------------------------------- room for base 58

  // The length of the buffer for n bytes.
  function Room(n: nat): nat { n * 138 / 100 + 1 }

  lemma {:induction false} PowSum(base: Base, a: nat, b: nat)
    ensures Pow(base, a + b) == Pow(base, a) * Pow(base, b)
  {
    if a > 0 {
      PowSum(base, a - 1, b);
      TimesAssoc(base, Pow(base, a - 1), Pow(base, b));
    }
  }

  lemma TimesAssoc(base: Base, p: nat, q: nat)
    ensures base * (p * q) == base * p * q
  {
  }

  lemma {:induction false} PowGrows(base: Base, a: nat, b: nat)
    requires a <= b
    ensures Pow(base, a) <= Pow(base, b)
  {
    if a < b {
      PowGrows(base, a, b - 1);
    }
  }

  lemma PowersOf58()
    ensures Pow(58, 1) == 58
    ensures Pow(58, 2) == 3364
    ensures Pow(58, 3) == 195112
    ensures Pow(58, 4) == 11316496
    ensures Pow(58, 5) == 656356768
    ensures Pow(58, 6) == 38068692544
    ensures Pow(58, 7) == 2207984167552
    ensures Pow(58, 8) == 128063081718016
    ensures Pow(58, 9) == 7427658739644928
    ensures Pow(58, 10) == 430804206899405824
    ensures Pow(58, 11) == 24986644000165537792
  {
    assert Pow(58, 0) == 1;
    assert Pow(58, 1) == 58 * Pow(58, 0);
    assert Pow(58, 2) == 58 * Pow(58, 1);
    assert Pow(58, 3) == 58 * Pow(58, 2);
    assert Pow(58, 4) == 58 * Pow(58, 3);
    assert Pow(58, 5) == 58 * Pow(58, 4);
    assert Pow(58, 6) == 58 * Pow(58, 5);
    assert Pow(58, 7) == 58 * Pow(58, 6);
    assert Pow(58, 8) == 58 * Pow(58, 7);
    assert Pow(58, 9) == 58 * Pow(58, 8);
    assert Pow(58, 10) == 58 * Pow(58, 9);
    assert Pow(58, 11) == 58 * Pow(58, 10);
  }

  lemma PowersOf256()
    ensures Pow(256, 0) == 1
    ensures Pow(256, 1) == 256
    ensures Pow(256, 2) == 65536
    ensures Pow(256, 3) == 16777216
    ensures Pow(256, 4) == 4294967296
    ensures Pow(256, 5) == 1099511627776
    ensures Pow(256, 6) == 281474976710656
    ensures Pow(256, 7) == 72057594037927936
    ensures Pow(256, 8) == 18446744073709551616
  {
    assert Pow(256, 0) == 1;
    assert Pow(256, 1) == 256 * Pow(256, 0);
    assert Pow(256, 2) == 256 * Pow(256, 1);
    assert Pow(256, 3) == 256 * Pow(256, 2);
    assert Pow(256, 4) == 256 * Pow(256, 3);
    assert Pow(256, 5) == 256 * Pow(256, 4);
    assert Pow(256, 6) == 256 * Pow(256, 5);
    assert Pow(256, 7) == 256 * Pow(256, 6);
    assert Pow(256, 8) == 256 * Pow(256, 7);
  }

  lemma RoomBase(n: nat)
    requires n < 8
    ensures Pow(58, Room(n)) >= Pow(256, n)
  {
    PowersOf58();
    PowersOf256();
    hide Pow;
    if n == 0 {
      assert Room(n) == 1;
    } else if n == 1 {
      assert Room(n) == 2;
    } else if n == 2 {
      assert Room(n) == 3;
    } else if n == 3 {
      assert Room(n) == 5;
    } else if n == 4 {
      assert Room(n) == 6;
    } else if n == 5 {
      assert Room(n) == 7;
    } else if n == 6 {
      assert Room(n) == 9;
    } else {
      assert Room(n) == 10;
    }
  }

  lemma Products(a: nat, b: nat, c: nat, d: nat)
    requires a >= c && b >= d
    ensures a * b >= c * d
  {
    assert a * b >= c * b >= c * d;
  }

  // 58 to the length of the buffer is at least 256 to the number of bytes, for any number of bytes.
  lemma {:induction false} RoomEnough(n: nat)
    ensures Pow(58, Room(n)) >= Pow(256, n)
  {
    hide Pow;
    if n < 8 {
      RoomBase(n);
    } else {
      RoomEnough(n - 8);
      PowersOf58();
      PowersOf256();
      assert Room(n - 8) + 11 <= Room(n) && n - 8 + 8 == n;
      PowSum(58, Room(n - 8), 11);
      PowSum(256, n - 8, 8);
      Products(Pow(58, Room(n - 8)), Pow(58, 11), Pow(256, n - 8), Pow(256, 8));
      PowGrows(58, Room(n - 8) + 11, Room(n));
    }
  }
}
