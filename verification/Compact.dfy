// Compact targets (src/bignum.h: CBigNum::SetCompact, GetCompact): the length in bytes of the
// signed big-endian form and its first three bytes.
module Compact {
  import opened Common
  import opened Arithmetic
  import opened Numerals

  // The signed big-endian bytes of n, without the length that BN_bn2mpi puts in front of them.
  function Mpi(n: nat): (b: seq<nat>)
    ensures IsNumeral(256, b)
  {
    var digits := Digits(256, n);
    if digits != [] && digits[0] >= 0x80 then [0] + digits else digits
  }

  // With the sign in the top bit of the first byte.
  function SignedMpi(n: int): (b: seq<nat>)
    ensures IsNumeral(256, b) && (n < 0 ==> b != [] && b[0] >= 0x80)
  {
    if n >= 0 then Mpi(n)
    else
      RoomForSign(-n);
      Mpi(-n)[0 := Mpi(-n)[0] + 0x80]
  }

  lemma RoomForSign(n: nat)
    requires n > 0
    ensures Mpi(n) != [] && Mpi(n)[0] < 0x80
  {
  }

  // BN_mpi2bn: the top bit is the sign.
  function FromMpi(b: seq<nat>): int {
    if b != [] && b[0] >= 0x80 then -(Value(256, [b[0] - 0x80] + b[1..]) as int) else Value(256, b)
  }

  function ByteAt(b: seq<nat>, i: nat): nat { if i < |b| then b[i] else 0 }

  // The first three bytes, as a number.
  function Lead(b: seq<nat>): nat { ByteAt(b, 0) * 0x10000 + ByteAt(b, 1) * 0x100 + ByteAt(b, 2) }

  function Compacted(n: int): nat {
    var b := SignedMpi(n);
    |b| % 0x100 * 0x1000000 + Lead(b)
  }

  // The bytes a compact number stands for: three of its own, then zeros.
  function CompactBytes(c: nat): (b: seq<nat>)
    ensures |b| == c / 0x1000000 && IsNumeral(256, b)
  {
    seq(c / 0x1000000, i requires 0 <= i < c / 0x1000000 =>
      if i == 0 then c / 0x10000 % 0x100 else if i == 1 then c / 0x100 % 0x100 else if i == 2 then c % 0x100 else 0)
  }

  function Expanded(c: nat): int { FromMpi(CompactBytes(c)) }

  // What the compact form keeps of a number: its sign and its rounded amount.
  function Kept(n: int): int { if n >= 0 then Rounded(n) else -(Rounded(-n) as int) }

  method GetCompact(bn: int) returns (nCompact: nat)
    ensures nCompact == Compacted(bn)
    ensures |SignedMpi(bn)| < 0x100 ==> Expanded(nCompact) == Kept(bn)
  {
    hide Expanded, Kept, SignedMpi;
    var vch := SignedMpi(bn);
    var nSize := |vch|;
    nCompact := nSize % 0x100 * 0x1000000;
    if nSize >= 1 {
      nCompact := nCompact + vch[0] * 0x10000;
    }
    if nSize >= 2 {
      nCompact := nCompact + vch[1] * 0x100;
    }
    if nSize >= 3 {
      nCompact := nCompact + vch[2];
    }
    if |SignedMpi(bn)| < 0x100 {
      SignKept(bn);
    }
  }

  method SetCompact(nCompact: nat) returns (bn: int)
    requires nCompact < 0x1_0000_0000
    ensures bn == Expanded(nCompact)
    ensures forall n :: |SignedMpi(n)| < 0x100 && nCompact == Compacted(n) ==> bn == Kept(n)
  {
    hide Compacted, Kept, SignedMpi, FromMpi;
    var nSize := nCompact / 0x1000000;
    var vch: seq<nat> := seq(nSize, _ => 0);
    if nSize >= 1 {
      vch := vch[0 := nCompact / 0x10000 % 0x100];
    }
    if nSize >= 2 {
      vch := vch[1 := nCompact / 0x100 % 0x100];
    }
    if nSize >= 3 {
      vch := vch[2 := nCompact % 0x100];
    }
    assert vch == CompactBytes(nCompact);
    bn := FromMpi(vch);
    forall n | |SignedMpi(n)| < 0x100 && nCompact == Compacted(n) ensures bn == Kept(n) {
      SignKept(n);
    }
  }

  // ---------------------------------------------------------------- sizes

  // Below this, k bytes hold a number together with its sign.
  function Half(k: nat): nat
    requires k >= 1
  {
    128 * Pow(256, k - 1)
  }

  lemma FirstDigit(b: seq<nat>)
    requires IsNumeral(256, b) && b != []
    ensures b[0] * Pow(256, |b| - 1) <= Value(256, b) < (b[0] + 1) * Pow(256, |b| - 1)
  {
    ValueCons(256, b[0], b[1..]);
    ValueBound(256, b[1..]);
    assert b == [b[0]] + b[1..];
  }

  lemma MpiSize(n: nat)
    requires n > 0
    ensures Mpi(n) != [] && Mpi(n)[0] < 0x80 && Value(256, Mpi(n)) == n
    ensures n < Half(|Mpi(n)|) && (|Mpi(n)| >= 2 ==> n >= Half(|Mpi(n)| - 1))
  {
    hide Pow, Half, Value, Mpi, Digits;
    var digits := Digits(256, n);
    MpiIs(n);
    ValueOfDigits(256, n);
    FirstDigit(digits);
    ValueCons(256, 0, digits);
    HalfAround(n, |digits|, digits[0]);
  }

  lemma MpiIs(n: nat)
    requires n > 0
    ensures Mpi(n) == if Digits(256, n)[0] >= 0x80 then [0] + Digits(256, n) else Digits(256, n)
  {
  }

  // A number of k digits, the first of which is d.
  lemma HalfAround(n: nat, k: nat, d: nat)
    requires k >= 1 && 1 <= d < 256 && d * Pow(256, k - 1) <= n < (d + 1) * Pow(256, k - 1)
    ensures if d >= 0x80 then Half(k) <= n < Half(k + 1) else n < Half(k) && (k >= 2 ==> Half(k - 1) <= n)
  {
    var p := Pow(256, k - 1);
    if d >= 0x80 {
      AtMost(d + 1, 256, p);
      AtMost(128, d, p);
      assert Pow(256, k) == 256 * p;
    } else {
      AtMost(d + 1, 128, p);
      AtMost(1, d, p);
      assert k >= 2 ==> p == 256 * Pow(256, k - 2);
    }
  }

  lemma HalfGrows(a: nat, b: nat)
    requires 1 <= a <= b
    ensures Half(a) <= Half(b)
  {
    PowGrows(256, a - 1, b - 1);
  }

  // A number's size is the only one whose bounds it meets.
  lemma SizeIs(n: nat, s: nat)
    requires n > 0 && s >= 1 && n < Half(s) && (s >= 2 ==> n >= Half(s - 1))
    ensures |Mpi(n)| == s
  {
    MpiSize(n);
    var t := |Mpi(n)|;
    if t < s {
      HalfGrows(t, s - 1);
    } else if t > s {
      HalfGrows(s, t - 1);
    }
  }

  // ---------------------------------------------------------------- rounding

  // What is kept: all of a number of three bytes, otherwise its first three bytes.
  function Unit(n: nat): (u: nat)
    ensures u >= 1
  {
    if |Mpi(n)| <= 3 then 1 else Pow(256, |Mpi(n)| - 3)
  }

  function Rounded(n: nat): nat {
    NotNegative(n, Unit(n));
    n / Unit(n) * Unit(n)
  }

  lemma NotNegative(n: nat, u: nat)
    requires u >= 1
    ensures n / u >= 0 && n / u * u >= 0
  {
    AtMost(0, n / u, u);
  }

  lemma {:induction false} ValueSplit(a: seq<nat>, b: seq<nat>)
    ensures Value(256, a + b) == Value(256, a) * Pow(256, |b|) + Value(256, b)
  {
    if b == [] {
      assert a + b == a;
    } else {
      var init, last := b[..|b| - 1], b[|b| - 1];
      ValueSplit(a, init);
      assert (a + b)[..|a + b| - 1] == a + init;
      Distribute(Value(256, a), Pow(256, |init|), Value(256, init), 256);
    }
  }

  lemma ThreeBytes(x: nat, y: nat, z: nat)
    ensures Value(256, [x, y, z]) == x * 0x10000 + y * 0x100 + z
  {
    ValueSnoc(256, [x, y], z);
    ValueSnoc(256, [x], y);
    ValueSnoc(256, [], x);
    assert [] + [x] == [x] && [x] + [y] == [x, y] && [x, y] + [z] == [x, y, z];
  }

  // The leading three bytes of a longer number, as a number.
  function Mantissa(n: nat): nat { Lead(Mpi(n)) }

  lemma MantissaOf(n: nat)
    requires |Mpi(n)| >= 3
    ensures n == Mantissa(n) * Pow(256, |Mpi(n)| - 3) + n % Pow(256, |Mpi(n)| - 3)
    ensures Mantissa(n) == n / Pow(256, |Mpi(n)| - 3) && 0x8000 <= Mantissa(n) < 0x800000
  {
    var b := Mpi(n);
    assert Mantissa(n) == Lead(b);
    NoBytes();
    MpiSize(n);
    var p, rest := Pow(256, |b| - 3), Value(256, b[3..]);
    assert b[0] < 0x80 ==> Lead(b) < 0x800000;
    hide Value, Mpi, Half, Pow, Lead, Mantissa;
    LeadingBytes(b);
    HalfIs(|b| - 1);
    Quotient(n, Mantissa(n), rest, p);
    AtLeastQuotient(0x8000, Mantissa(n), rest, p);
  }

  // A longer number is its first three bytes, scaled, and the rest.
  lemma LeadingBytes(b: seq<nat>)
    requires IsNumeral(256, b) && |b| >= 3
    ensures var p, rest := Pow(256, |b| - 3), Value(256, b[3..]);
            Value(256, b) == Lead(b) * p + rest && rest < p
  {
    LeadIs(b);
    hide Value, Pow, Lead;
    assert b == b[..3] + b[3..];
    ValueSplit(b[..3], b[3..]);
    ValueBound(256, b[3..]);
  }

  lemma LeadIs(b: seq<nat>)
    requires |b| >= 3
    ensures Value(256, b[..3]) == Lead(b)
  {
    hide Value;
    ThreeBytes(b[0], b[1], b[2]);
    assert b[..3] == [b[0], b[1], b[2]];
  }

  lemma HalfIs(k: nat)
    requires k >= 2
    ensures Half(k) == 0x8000 * Pow(256, k - 2)
  {
    assert Pow(256, k - 1) == 256 * Pow(256, k - 2);
  }

  lemma AtLeastQuotient(k: nat, q: nat, r: nat, p: nat)
    requires k * p <= q * p + r && r < p
    ensures k <= q
  {
    assert (q + 1) * p == q * p + p;
    if q + 1 <= k {
      AtMost(q + 1, k, p);
    }
  }

  // The first three of the compact bytes are those of the number.
  lemma FieldsOf(s: nat, x: nat, y: nat, z: nat)
    requires x < 0x100 && y < 0x100 && z < 0x100
    ensures var c := s * 0x1000000 + (x * 0x10000 + y * 0x100 + z);
            c / 0x1000000 == s && c / 0x10000 % 0x100 == x && c / 0x100 % 0x100 == y && c % 0x100 == z
  {
    var c := s * 0x1000000 + (x * 0x10000 + y * 0x100 + z);
    Quotient(c, s, x * 0x10000 + y * 0x100 + z, 0x1000000);
    Quotient(c, s * 0x100 + x, y * 0x100 + z, 0x10000);
    Quotient(s * 0x100 + x, s, x, 0x100);
    Quotient(c, s * 0x10000 + x * 0x100 + y, z, 0x100);
    Quotient(s * 0x10000 + x * 0x100 + y, s * 0x100 + x, y, 0x100);
  }

  lemma {:induction false} ZeroBytes(b: seq<nat>)
    requires forall i :: 0 <= i < |b| ==> b[i] == 0
    ensures Value(256, b) == 0
  {
    if b != [] {
      ZeroBytes(b[..|b| - 1]);
    }
  }

  lemma BytesBack(n: int)
    requires |SignedMpi(n)| < 0x100
    ensures var b, r := SignedMpi(n), CompactBytes(Compacted(n));
            && |r| == |b| && (forall i :: 0 <= i < |b| && i < 3 ==> r[i] == b[i])
            && (forall i :: 3 <= i < |b| ==> r[i] == 0)
  {
    var b := SignedMpi(n);
    hide Mpi;
    FieldsOf(|b|, ByteAt(b, 0), ByteAt(b, 1), ByteAt(b, 2));
  }

  // Bytes whose top bit is clear and that end in zeros are their first three bytes, scaled.
  lemma TailDropped(r: seq<nat>)
    requires IsNumeral(256, r) && |r| >= 3 && r[0] < 0x80 && (forall i :: 3 <= i < |r| ==> r[i] == 0)
    ensures FromMpi(r) == Lead(r) * Pow(256, |r| - 3)
  {
    hide Value, Pow, Lead;
    LeadingBytes(r);
    ZeroBytes(r[3..]);
  }

  lemma RoundedLong(n: nat)
    requires |Mpi(n)| > 3
    ensures Rounded(n) == Mantissa(n) * Pow(256, |Mpi(n)| - 3) <= n
  {
    hide Mpi, Pow, Mantissa;
    MantissaOf(n);
  }

  lemma RoundedShort(n: nat)
    requires |Mpi(n)| <= 3
    ensures Rounded(n) == n
  {
    hide Mpi, Pow;
  }

  // Reading a compact number back gives the rounded number: never negative, never larger.
  lemma ExpandedCompacted(n: nat)
    requires |Mpi(n)| < 0x100
    ensures Expanded(Compacted(n)) == Rounded(n) <= n
  {
    hide Mpi, Compacted, CompactBytes, SignedMpi, FromMpi, Digits, Rounded, Value, Pow, Lead;
    CompactBack(n);
    if |Mpi(n)| > 3 {
      NoBytes();
      MpiSize(n);
      TailDropped(CompactBytes(Compacted(n)));
      RoundedLong(n);
    } else {
      RoundedShort(n);
      ReadBack(n);
    }
  }

  // The compact bytes are the first three of the number, and zeros.
  lemma CompactBack(n: nat)
    requires |Mpi(n)| < 0x100
    ensures var b, r := Mpi(n), CompactBytes(Compacted(n));
            && |r| == |b| && (|b| <= 3 ==> r == b)
            && (|b| > 3 ==> r[0] == b[0] && Lead(r) == Lead(b) && forall i :: 3 <= i < |r| ==> r[i] == 0)
  {
    hide Mpi, Compacted, CompactBytes;
    BytesBack(n);
  }

  lemma NoBytes()
    ensures Mpi(0) == []
  {
  }

  lemma ReadBack(n: nat)
    ensures FromMpi(Mpi(n)) == n
  {
    if n == 0 {
      assert Mpi(0) == [];
    } else {
      hide Mpi, Value;
      MpiSize(n);
    }
  }

  // The same with a sign.
  lemma SignKept(n: int)
    requires |SignedMpi(n)| < 0x100
    ensures Expanded(Compacted(n)) == Kept(n)
  {
    hide Rounded, Compacted, CompactBytes, Mpi, Value;
    if n >= 0 {
      ExpandedCompacted(n);
    } else {
      NegativeBytes(n);
      ExpandedCompacted(-n);
    }
  }

  // A negative number's bytes differ from those of its amount in the top bit only.
  lemma NegativeBytes(n: int)
    requires n < 0 && |SignedMpi(n)| < 0x100
    ensures |Mpi(-n)| < 0x100
    ensures var r, p := CompactBytes(Compacted(n)), CompactBytes(Compacted(-n));
            r != [] && p != [] && p[0] < 0x80 && r[0] == p[0] + 0x80 && [r[0] - 0x80] + r[1..] == p
  {
    hide *;
    MpiSize(-n);
    SignSet(n);
    BytesBack(n);
    BytesBack(-n);
    TopBit(SignedMpi(n), Mpi(-n), CompactBytes(Compacted(n)), CompactBytes(Compacted(-n)));
  }

  lemma SignSet(n: int)
    requires n < 0
    ensures Mpi(-n) != [] && SignedMpi(n) == Mpi(-n)[0 := Mpi(-n)[0] + 0x80] && SignedMpi(-n) == Mpi(-n)
  {
    MpiSize(-n);
  }

  lemma TopBit(b: seq<nat>, m: seq<nat>, r: seq<nat>, p: seq<nat>)
    requires m != [] && m[0] < 0x80 && b == m[0 := m[0] + 0x80] && |r| == |p| == |m|
    requires forall i :: 0 <= i < |m| ==> (if i < 3 then r[i] == b[i] && p[i] == m[i] else r[i] == 0 && p[i] == 0)
    ensures p[0] < 0x80 && r[0] == p[0] + 0x80 && [r[0] - 0x80] + r[1..] == p
  {
  }

  // Rounding takes away less than one part in 2^15.
  lemma RoundingError(n: nat)
    ensures Rounded(n) <= n && (n > 0 ==> Rounded(n) > 0 && 0x8000 * (n - Rounded(n)) < n)
  {
    if |Mpi(n)| > 3 {
      MantissaOf(n);
      var p := Pow(256, |Mpi(n)| - 3);
      AtMost(0x8000, Mantissa(n), p);
    }
  }

  lemma AtLeastHalf(n: nat)
    requires |Mpi(n)| > 3
    ensures Rounded(n) >= Half(|Mpi(n)| - 1)
  {
    MantissaOf(n);
    var s, p := |Mpi(n)|, Pow(256, |Mpi(n)| - 3);
    AtMost(0x8000, Mantissa(n), p);
    assert Half(s - 1) == 0x8000 * p by {
      assert Pow(256, s - 2) == 256 * p;
    }
  }

  // The rounded number has the size of the number itself.
  lemma RoundedSize(n: nat)
    requires n > 0
    ensures |Mpi(Rounded(n))| == |Mpi(n)|
  {
    hide Mpi, Half, Rounded;
    if |Mpi(n)| > 3 {
      MpiSize(n);
      RoundingError(n);
      AtLeastHalf(n);
      SizeIs(Rounded(n), |Mpi(n)|);
    } else {
      SmallExact(n);
    }
  }

  lemma SmallExact(n: nat)
    requires |Mpi(n)| <= 3
    ensures Rounded(n) == n
  {
  }

  lemma RoundedTwice(n: nat)
    ensures Rounded(Rounded(n)) == Rounded(n)
  {
    hide Mpi;
    if n > 0 {
      RoundedSize(n);
      Quotient(Rounded(n), n / Unit(n), 0, Unit(n));
    }
  }

  // Compacting again changes nothing.
  lemma CompactedAgain(n: nat)
    requires |Mpi(n)| < 0x100
    ensures Compacted(Rounded(n)) == Compacted(n)
  {
    hide Mpi;
    if n > 0 && |Mpi(n)| > 3 {
      RoundedSize(n);
      RoundedTwice(n);
      MantissaOf(n);
      MantissaOf(Rounded(n));
      Quotient(Rounded(n), n / Unit(n), 0, Unit(n));
    }
  }

  lemma SizesInOrder(a: nat, b: nat)
    requires 0 < a <= b
    ensures |Mpi(a)| <= |Mpi(b)|
  {
    hide Mpi, Half;
    MpiSize(a);
    MpiSize(b);
    if |Mpi(a)| > |Mpi(b)| {
      HalfGrows(|Mpi(b)|, |Mpi(a)| - 1);
    }
  }

  lemma QuotientsInOrder(a: nat, b: nat, u: nat)
    requires a <= b && u >= 1
    ensures a / u * u <= b / u * u
  {
    if a / u > b / u {
      AtMost(b / u + 1, a / u, u);
    }
    AtMost(Min(a / u, b / u), b / u, u);
  }

  // Rounding keeps the order of targets.
  lemma RoundedInOrder(a: nat, b: nat)
    requires a <= b
    ensures Rounded(a) <= Rounded(b)
  {
    hide Mpi, Half;
    RoundingError(a);
    if a > 0 {
      SizesInOrder(a, b);
      if |Mpi(a)| == |Mpi(b)| {
        QuotientsInOrder(a, b, Unit(a));
      } else if |Mpi(b)| > 3 {
        MpiSize(a);
        HalfGrows(|Mpi(a)|, |Mpi(b)| - 1);
        AtLeastHalf(b);
      }
    }
  }

  // ---------------------------------------------------------------- in numbers

  lemma OneByte(x: nat)
    ensures Value(256, [x]) == x
  {
    ValueSnoc(256, [], x);
    assert [] + [x] == [x];
  }

  lemma TwoBytes(x: nat, y: nat)
    ensures Value(256, [x, y]) == x * 0x100 + y
  {
    OneByte(x);
    ValueSnoc(256, [x], y);
    assert [x] + [y] == [x, y];
  }

  // Bytes that end in zeros are their first three bytes, scaled.
  lemma LeadScaled(r: seq<nat>)
    requires IsNumeral(256, r) && |r| >= 3 && (forall i :: 3 <= i < |r| ==> r[i] == 0)
    ensures Value(256, r) == Lead(r) * Pow(256, |r| - 3)
  {
    hide Value, Pow, Lead;
    LeadingBytes(r);
    ZeroBytes(r[3..]);
  }

  // The bytes a compact number stands for, without the sign.
  function AmountBytes(c: nat): (r: seq<nat>)
    ensures |r| == c / 0x1000000 && IsNumeral(256, r)
  {
    var b := CompactBytes(c);
    if b == [] then [] else b[0 := b[0] % 0x80]
  }

  lemma SignAndAmount(c: nat)
    requires c < 0x1_0000_0000
    ensures Expanded(c) == if c % 0x1000000 >= 0x800000 then -(Value(256, AmountBytes(c)) as int)
                           else Value(256, AmountBytes(c))
  {
    ThreeFields(c);
    var b, r := CompactBytes(c), AmountBytes(c);
    if b != [] {
      if b[0] >= 0x80 {
        assert r == [b[0] - 0x80] + b[1..];
      } else {
        assert r == b;
      }
    }
    hide Value;
    NoValue();
  }

  lemma NoValue()
    ensures Value(256, []) == 0
  {
  }

  // The bits in numbers: the top byte is a length in bytes, bit 23 a sign, and the other 23 bits the
  // leading digits of the amount.
  lemma ExpandedExactly(c: nat)
    requires c < 0x1_0000_0000
    ensures var size, w := c / 0x1000000, c % 0x1000000;
            var amount := if size >= 3 then w % 0x800000 * Pow(256, size - 3)
                          else if size == 2 then w % 0x800000 / 0x100
                          else if size == 1 then w % 0x800000 / 0x10000 else 0;
            Expanded(c) == if w >= 0x800000 then -amount else amount
  {
    hide Value, Pow, Expanded, Lead;
    SignAndAmount(c);
    AmountIs(c);
    NoValue();
    if c / 0x1000000 >= 3 {
      LeadScaled(AmountBytes(c));
    }
  }

  lemma AmountIs(c: nat)
    ensures var size, m, r := c / 0x1000000, c % 0x1000000 % 0x800000, AmountBytes(c);
            && (size == 0 ==> r == [])
            && (size == 1 ==> Value(256, r) == m / 0x10000)
            && (size == 2 ==> Value(256, r) == m / 0x100)
            && (size >= 3 ==> Lead(r) == m && forall i :: 3 <= i < |r| ==> r[i] == 0)
  {
    hide Value;
    ThreeFields(c);
    var x, y, r := c / 0x10000 % 0x100, c / 0x100 % 0x100, AmountBytes(c);
    if |r| == 1 {
      assert r == [x % 0x80];
      OneByte(x % 0x80);
    } else if |r| == 2 {
      assert r == [x % 0x80, y];
      TwoBytes(x % 0x80, y);
    }
  }

  lemma ThreeFields(c: nat)
    ensures var w, x, y, z := c % 0x1000000, c / 0x10000 % 0x100, c / 0x100 % 0x100, c % 0x100;
            && w == x * 0x10000 + y * 0x100 + z && (w >= 0x800000 <==> x >= 0x80)
            && w % 0x800000 == x % 0x80 * 0x10000 + y * 0x100 + z
            && w % 0x800000 / 0x100 == x % 0x80 * 0x100 + y && w % 0x800000 / 0x10000 == x % 0x80
  {
    var z, c1 := c % 0x100, c / 0x100;
    var y, c2 := c1 % 0x100, c1 / 0x100;
    var x, top := c2 % 0x100, c2 / 0x100;
    var w := x * 0x10000 + y * 0x100 + z;
    var m := x % 0x80 * 0x10000 + y * 0x100 + z;
    Quotient(c, c2, y * 0x100 + z, 0x10000);
    Quotient(c, top, w, 0x1000000);
    Quotient(w, x / 0x80, m, 0x800000);
    Quotient(m, x % 0x80 * 0x100 + y, z, 0x100);
    Quotient(m, x % 0x80, y * 0x100 + z, 0x10000);
  }
}
