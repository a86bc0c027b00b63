// Base 58 strings (src/base58.cpp): the encoder's carry loops over a fixed buffer, the decoder
// that is in use, and the checksummed pair.
module Base58 {
  import opened Common
  import opened Numerals

  // ---------------------------------------------------------------- the alphabet

  predicate IsSpace(c: char) { c == ' ' || '\t' <= c <= '\r' }

  // The d-th symbol of pszBase58: digits and letters without zero, capital I and O, and small l.
  function Symbol(d: nat): char
    requires d < 58
  {
    if d < 9 then '1' + d as char
    else if d < 17 then 'A' + (d - 9) as char
    else if d < 22 then 'J' + (d - 17) as char
    else if d < 33 then 'P' + (d - 22) as char
    else if d < 44 then 'a' + (d - 33) as char
    else 'm' + (d - 44) as char
  }

  // The place of c in the alphabet, if it has one.
  function Index(c: char): (r: Option<nat>)
    ensures r.Some? ==> r.value < 58 && Symbol(r.value) == c
  {
    if '1' <= c <= '9' then Some((c - '1') as nat)
    else if 'A' <= c <= 'H' then Some(9 + (c - 'A') as nat)
    else if 'J' <= c <= 'N' then Some(17 + (c - 'J') as nat)
    else if 'P' <= c <= 'Z' then Some(22 + (c - 'P') as nat)
    else if 'a' <= c <= 'k' then Some(33 + (c - 'a') as nat)
    else if 'm' <= c <= 'z' then Some(44 + (c - 'm') as nat)
    else None
  }

  lemma SymbolKnown(d: nat)
    requires d < 58
    ensures Index(Symbol(d)) == Some(d) && !IsSpace(Symbol(d)) && (Symbol(d) == '1' <==> d == 0)
  {
  }

  function Symbols(digits: seq<nat>): (s: string)
    requires IsNumeral(58, digits)
    ensures |s| == |digits| && forall i :: 0 <= i < |s| ==> s[i] == Symbol(digits[i])
  {
    seq(|digits|, i requires 0 <= i < |digits| => Symbol(digits[i]))
  }

  function Ones(n: nat): (s: string)
    ensures |s| == n && forall i :: 0 <= i < n ==> s[i] == '1'
  {
    seq(n, _ => '1')
  }

  // ---------------------------------------------------------------- encoding

  function LeadingZeros(v: seq<nat>): (n: nat)
    ensures n <= |v| && (forall i :: 0 <= i < n ==> v[i] == 0) && (n < |v| ==> v[n] != 0)
  {
    if v != [] && v[0] == 0 then 1 + LeadingZeros(v[1..]) else 0
  }

  // A '1' for each leading zero byte, then the digits of the value.
  function Encoded(v: seq<nat>): string {
    Ones(LeadingZeros(v)) + Symbols(Digits(58, Value(256, v)))
  }

  lemma CarryStep(carry: nat, d: nat, p: nat, done: nat, was: nat, b: nat)
    requires carry * p + done == 256 * was + b
    ensures var c := carry + 256 * d;
            c / 58 * (58 * p) + (c % 58 * p + done) == 256 * (d * p + was) + b
  {
    var c := carry + 256 * d;
    var q, r := c / 58, c % 58;
    assert q * (58 * p) + r * p == (58 * q + r) * p;
    assert c == 58 * q + r;
    assert c * p == carry * p + 256 * d * p;
    assert 256 * d * p == 256 * (d * p);
  }

  lemma ZerosValue(s: seq<nat>)
    requires forall i :: 0 <= i < |s| ==> s[i] == 0
    ensures Value(58, s) == 0
  {
  }

  // b58 := b58 * 256 + b, digit by digit from the right.
  method TimesPlus(b58: array<nat>, b: nat) returns (carry: nat)
    requires IsNumeral(58, b58[..]) && b < 256
    modifies b58
    ensures IsNumeral(58, b58[..])
    ensures carry * Pow(58, b58.Length) + Value(58, b58[..]) == 256 * Value(58, old(b58[..])) + b
  {
    hide Value, Pow;
    ghost var before := b58[..];
    carry := b;
    var j := b58.Length;
    assert before[j..] == [] && b58[j..] == [];
    EmptyValue();
    while j > 0
      invariant j <= b58.Length && IsNumeral(58, b58[..]) && b58[..j] == before[..j]
      invariant carry * Pow(58, b58.Length - j) + Value(58, b58[j..]) == 256 * Value(58, before[j..]) + b
    {
      j := j - 1;
      ghost var n, done, was := b58.Length - (j + 1), b58[j + 1..], before[j + 1..];
      var c := carry + 256 * b58[j];
      CarryStep(carry, b58[j], Pow(58, n), Value(58, done), Value(58, was), b);
      assert before[j..] == [b58[j]] + was;
      ValueCons(58, b58[j], was);
      ValueCons(58, c % 58, done);
      PowNext(n);
      b58[j] := c % 58;
      carry := c / 58;
      assert b58[j..] == [c % 58] + done;
    }
    assert b58[0..] == b58[..] && before[0..] == before;
  }

  lemma EmptyValue()
    ensures Value(58, []) == 0 && Pow(58, 0) == 1
  {
  }

  lemma PowNext(n: nat)
    ensures Pow(58, n + 1) == 58 * Pow(58, n)
  {
  }

  lemma {:induction false} StripDrops(s: seq<nat>)
    ensures Strip(s) == s[LeadingZeros(s)..]
  {
    if s != [] && s[0] == 0 {
      StripDrops(s[1..]);
      assert s[1..][LeadingZeros(s[1..])..] == s[LeadingZeros(s)..];
    }
  }

  // A carry out of the buffer would need a value the bytes cannot have.
  lemma NoCarry(v: seq<nat>, n: nat, carry: nat, rest: nat)
    requires IsNumeral(256, v) && |v| <= n && carry * Pow(58, Room(n)) + rest == Value(256, v)
    ensures carry == 0
  {
    hide Value, Pow, Room;
    ValueBound(256, v);
    PowGrows(256, |v|, n);
    RoomEnough(n);
    if carry > 0 {
      Products(carry, Pow(58, Room(n)), 1, Pow(58, Room(n)));
    }
  }

  // The base 58 digits of the bytes, in a buffer of the size the source allots; the assertion
  // that no carry is left over never fails.
  method Convert(tail: seq<nat>) returns (b58: array<nat>)
    requires IsNumeral(256, tail)
    ensures fresh(b58) && IsNumeral(58, b58[..]) && Value(58, b58[..]) == Value(256, tail)
  {
    hide Value;
    b58 := new nat[|tail| * 138 / 100 + 1](_ => 0);
    ZerosValue(b58[..]);
    NoBytes(tail);
    for p := 0 to |tail|
      invariant fresh(b58) && b58.Length == Room(|tail|) && IsNumeral(58, b58[..])
                && Value(58, b58[..]) == Value(256, tail[..p])
    {
      var carry := TimesPlus(b58, tail[p]);
      assert tail[..p + 1] == tail[..p] + [tail[p]];
      ValueSnoc(256, tail[..p], tail[p]);
      NoCarry(tail[..p + 1], |tail|, carry, Value(58, b58[..]));
      assert carry == 0;
    }
    assert tail[..|tail|] == tail;
  }

  // Appends the symbols of the digits from `first` on.
  method Translate(digits: seq<nat>, first: nat, start: string) returns (str: string)
    requires IsNumeral(58, digits) && first <= |digits|
    ensures str == start + Symbols(digits[first..])
  {
    str := start;
    assert Symbols(digits[first..first]) == [] && start + [] == start;
    for it := first to |digits|
      invariant str == start + Symbols(digits[first..it])
    {
      assert digits[first..it + 1] == digits[first..it] + [digits[it]];
      SymbolsSnoc(digits[first..it], digits[it]);
      assert start + (Symbols(digits[first..it]) + [Symbol(digits[it])]) == start + Symbols(digits[first..it])
             + [Symbol(digits[it])];
      str := str + [Symbol(digits[it])];
    }
    assert digits[first..|digits|] == digits[first..];
  }

  // The number of zeros at the front.
  method SkipZeros(s: seq<nat>) returns (n: nat)
    ensures n == LeadingZeros(s)
  {
    n := 0;
    while n < |s| && s[n] == 0
      invariant n <= |s| && forall i :: 0 <= i < n ==> s[i] == 0
    {
      n := n + 1;
    }
  }

  method EncodeBase58(v: seq<nat>) returns (str: string)
    requires IsNumeral(256, v)
    ensures str == Encoded(v)
  {
    hide Value, Strip, Digits;
    var zeroes := SkipZeros(v);
    var b58 := Convert(v[zeroes..]);
    StripDrops(v);
    StripValue(256, v);
    DigitsOfValue(58, b58[..]);
    StripDrops(b58[..]);
    var it := SkipZeros(b58[..]);
    str := Translate(b58[..], it, Ones(zeroes));
  }

  lemma NoBytes(v: seq<nat>)
    ensures Value(256, v[..0]) == 0
  {
  }

  lemma SymbolsSnoc(digits: seq<nat>, d: nat)
    requires IsNumeral(58, digits) && d < 58
    ensures IsNumeral(58, digits + [d]) && Symbols(digits + [d]) == Symbols(digits) + [Symbol(d)]
  {
  }

  // ---------------------------------------------------------------- decoding

  function SkipSpaces(s: string): string { if s != [] && IsSpace(s[0]) then SkipSpaces(s[1..]) else s }

  function SkipOnes(s: string): string { if s != [] && s[0] == '1' then SkipOnes(s[1..]) else s }

  predicate AllSpaces(s: string) { forall i :: 0 <= i < |s| ==> IsSpace(s[i]) }

  // The symbols at the front of s, as digits.
  function FrontDigits(s: string): (digits: seq<nat>)
    ensures |digits| <= |s| && IsNumeral(58, digits)
    ensures forall i :: 0 <= i < |digits| ==> Index(s[i]) == Some(digits[i])
    ensures |digits| < |s| ==> Index(s[|digits|]).None?
  {
    if s != [] && Index(s[0]).Some? then [Index(s[0]).value] + FrontDigits(s[1..]) else []
  }

  // Leading zero bytes are not restored: the bytes are those of the value alone.
  function Decoded(s: string): Option<seq<nat>> {
    var t := SkipOnes(SkipSpaces(s));
    var digits := FrontDigits(t);
    if AllSpaces(t[|digits|..]) then Some(Digits(256, Value(58, digits))) else None
  }

  function Reverse(s: seq<nat>): (r: seq<nat>)
    ensures |r| == |s| && forall i :: 0 <= i < |s| ==> r[i] == s[|s| - 1 - i]
  {
    seq(|s|, i requires 0 <= i < |s| => s[|s| - 1 - i])
  }

  // CBigNum::getvch: least significant byte first, with a sign byte when the top bit is set.
  function GetVch(n: nat): seq<nat> {
    var digits := Digits(256, n);
    Reverse(digits) + if digits != [] && digits[0] >= 0x80 then [0] else []
  }

  // Without the sign byte.
  function Trim(vch: seq<nat>): seq<nat> {
    if |vch| >= 2 && vch[|vch| - 1] == 0 && vch[|vch| - 2] >= 0x80 then vch[..|vch| - 1] else vch
  }

  lemma GetVchTrimmed(n: nat)
    ensures Reverse(Trim(GetVch(n))) == Digits(256, n)
  {
    hide Digits, Trim, Reverse;
    Trimmed(Digits(256, n));
  }

  lemma Trimmed(digits: seq<nat>)
    requires digits != [] ==> digits[0] != 0
    ensures Reverse(Trim(Reverse(digits) + if digits != [] && digits[0] >= 0x80 then [0] else [])) == digits
  {
    hide Reverse;
    assert Reverse(Reverse(digits)) == digits;
    if digits != [] && digits[0] >= 0x80 {
      assert (Reverse(digits) + [0])[..|digits|] == Reverse(digits);
    } else {
      assert Reverse(digits) + [] == Reverse(digits);
    }
  }

  // Past the leading spaces and the leading ones.
  method SkipFront(s: string) returns (i: nat)
    ensures i <= |s| && s[i..] == SkipOnes(SkipSpaces(s))
  {
    i := 0;
    assert s[0..] == s;
    while i < |s| && IsSpace(s[i])
      invariant i <= |s| && SkipSpaces(s[i..]) == SkipSpaces(s)
    {
      assert s[i..][1..] == s[i + 1..];
      i := i + 1;
    }
    while i < |s| && s[i] == '1'
      invariant i <= |s| && SkipOnes(s[i..]) == SkipOnes(SkipSpaces(s))
    {
      assert s[i..][1..] == s[i + 1..];
      i := i + 1;
    }
  }

  lemma {:induction false} NoOnesLeft(s: string)
    ensures SkipOnes(s) != [] ==> SkipOnes(s)[0] != '1'
  {
    if s != [] && s[0] == '1' {
      NoOnesLeft(s[1..]);
    }
  }

  // Reads symbols into a number, up to the first character that is none.
  method ReadDigits(t: string) returns (bn: nat, n: nat)
    ensures n == |FrontDigits(t)| && bn == Value(58, FrontDigits(t))
  {
    ghost var digits := FrontDigits(t);
    hide Value, FrontDigits;
    bn, n := 0, 0;
    NoDigits(digits);
    while n < |t|
      invariant n <= |digits| && bn == Value(58, digits[..n])
    {
      var d := Index(t[n]);
      if d.None? {
        break;
      }
      assert digits[..n + 1] == digits[..n] + [d.value];
      ValueSnoc(58, digits[..n], d.value);
      bn := bn * 58 + d.value;
      n := n + 1;
    }
    assert digits[..n] == digits;
  }

  method DecodeBase58(s: string) returns (vchRet: Option<seq<nat>>)
    ensures vchRet == Decoded(s)
  {
    hide Value, Digits, FrontDigits, GetVch, SkipOnes, SkipSpaces, AllSpaces, IsSpace;
    var i := SkipFront(s);
    var t := s[i..];
    var bn, n := ReadDigits(t);
    var spaces := OnlySpaces(t, n);
    if !spaces {
      return None;
    }
    var vchTmp := GetVch(bn);
    GetVchTrimmed(bn);
    if |vchTmp| >= 2 && vchTmp[|vchTmp| - 1] == 0 && vchTmp[|vchTmp| - 2] >= 0x80 {
      vchTmp := vchTmp[..|vchTmp| - 1];
    }
    var nLeadingZeros := 0;
    while nLeadingZeros < |t| && t[nLeadingZeros] == '1'
      invariant nLeadingZeros <= |t| && forall k :: 0 <= k < nLeadingZeros ==> t[k] == '1'
    {
      nLeadingZeros := nLeadingZeros + 1;
    }
    NoOnesLeft(SkipSpaces(s));
    assert nLeadingZeros == 0;
    vchRet := Some(seq(nLeadingZeros, _ => 0) + Reverse(vchTmp));
    assert seq(nLeadingZeros, _ => 0) + Reverse(vchTmp) == Reverse(vchTmp);
  }

  // Nothing but spaces from place n on.
  method OnlySpaces(t: string, n: nat) returns (only: bool)
    requires n <= |t|
    ensures only <==> AllSpaces(t[n..])
  {
    var p := n;
    while p < |t| && IsSpace(t[p])
      invariant n <= p <= |t| && forall k :: n <= k < p ==> IsSpace(t[k])
    {
      p := p + 1;
    }
    assert p < |t| ==> t[n..][p - n] == t[p];
    only := p == |t|;
  }

  lemma NoDigits(digits: seq<nat>)
    ensures Value(58, digits[..0]) == 0
  {
  }

  // ---------------------------------------------------------------- round trips

  lemma {:induction false} OnesSkipped(n: nat, s: string)
    requires s != [] ==> s[0] != '1'
    ensures SkipOnes(Ones(n) + s) == s
  {
    if n == 0 {
      assert Ones(0) + s == s;
    } else {
      assert (Ones(n) + s)[1..] == Ones(n - 1) + s;
      OnesSkipped(n - 1, s);
    }
  }

  lemma {:induction false} DigitsRead(digits: seq<nat>)
    requires IsNumeral(58, digits)
    ensures FrontDigits(Symbols(digits)) == digits
  {
    if digits != [] {
      SymbolKnown(digits[0]);
      assert Symbols(digits)[1..] == Symbols(digits[1..]);
      DigitsRead(digits[1..]);
    }
  }

  // Decoding what was encoded gives the bytes back without their leading zeros.
  lemma DecodedEncoded(v: seq<nat>)
    requires IsNumeral(256, v)
    ensures Decoded(Encoded(v)) == Some(Strip(v))
  {
    hide Value, Strip;
    var digits := Digits(58, Value(256, v));
    var s := Encoded(v);
    if digits != [] {
      SymbolKnown(digits[0]);
    }
    SymbolKnown(0);
    assert s != [] ==> !IsSpace(s[0]);
    OnesSkipped(LeadingZeros(v), Symbols(digits));
    DigitsRead(digits);
    ValueOfDigits(58, Value(256, v));
    DigitsOfValue(256, v);
  }

  // So the round trip is exact for no bytes at all and for a nonzero first byte, and only then.
  lemma RoundTrip(v: seq<nat>)
    requires IsNumeral(256, v)
    ensures Decoded(Encoded(v)) == Some(v) <==> v == [] || v[0] != 0
  {
    DecodedEncoded(v);
    StripIsSame(v);
  }

  // ---------------------------------------------------------------- with a checksum

  datatype Checksum = Checksum(of: seq<nat> -> seq<nat>)

  ghost predicate FourBytes(sum: Checksum) {
    forall v :: |sum.of(v)| == 4 && IsNumeral(256, sum.of(v))
  }

  method EncodeBase58Check(vchIn: seq<nat>, sum: Checksum) returns (str: string)
    requires IsNumeral(256, vchIn) && FourBytes(sum)
    ensures str == Encoded(vchIn + sum.of(vchIn))
    ensures DecodedCheck(str, sum) == Some(vchIn) <==> (vchIn + sum.of(vchIn))[0] != 0
  {
    var vch := vchIn;
    var hash := sum.of(vch);
    vch := vch + hash;
    str := EncodeBase58(vch);
    CheckRoundTrip(vchIn, sum);
  }

  function DecodedCheck(s: string, sum: Checksum): Option<seq<nat>> {
    match Decoded(s)
    case None => None
    case Some(v) =>
      if |v| < 4 || sum.of(v[..|v| - 4]) != v[|v| - 4..] then None else Some(v[..|v| - 4])
  }

  // Bytes with a checksum at the end can be split in one way only.
  lemma SumSplits(sum: Checksum)
    requires FourBytes(sum)
    ensures forall v: seq<nat>, w: seq<nat> ::
              w == v + sum.of(v) <==> |w| >= 4 && v == w[..|w| - 4] && sum.of(v) == w[|w| - 4..]
  {
    forall v: seq<nat>, w: seq<nat>
      ensures w == v + sum.of(v) <==> |w| >= 4 && v == w[..|w| - 4] && sum.of(v) == w[|w| - 4..] {
      if |w| >= 4 {
        assert w == w[..|w| - 4] + w[|w| - 4..];
      }
    }
  }

  method DecodeBase58Check(s: string, sum: Checksum) returns (vchRet: Option<seq<nat>>)
    ensures vchRet == DecodedCheck(s, sum)
    ensures FourBytes(sum) ==> forall v :: vchRet == Some(v) <==> Decoded(s) == Some(v + sum.of(v))
  {
    hide Decoded;
    if FourBytes(sum) { SumSplits(sum); }
    vchRet := DecodeBase58(s);
    if vchRet.None? || |vchRet.value| < 4 {
      return None;
    }
    var v := vchRet.value;
    var hash := sum.of(v[..|v| - 4]);
    if hash != v[|v| - 4..] {
      return None;
    }
    vchRet := Some(v[..|v| - 4]);
  }

  // The checksummed round trip is exact when the first byte written is not zero, and only then.
  lemma CheckRoundTrip(v: seq<nat>, sum: Checksum)
    requires IsNumeral(256, v) && FourBytes(sum)
    ensures DecodedCheck(Encoded(v + sum.of(v)), sum) == Some(v) <==> (v + sum.of(v))[0] != 0
  {
    var all := v + sum.of(v);
    assert IsNumeral(256, all);
    hide Encoded, Decoded;
    DecodedEncoded(all);
    StripIsSame(all);
    assert all[..|all| - 4] == v && all[|all| - 4..] == sum.of(v);
  }

  // ---------------------------------------------------------------- the alphabet

  // The 58 symbols are exactly the digits and letters other than 0, I, O and l, in the order of their
  // codes: digits, capitals, small letters.
  lemma AlphabetExactly(c: char)
    ensures (exists d: nat :: d < 58 && Symbol(d) == c) <==>
              || '1' <= c <= '9' || ('A' <= c <= 'Z' && c != 'I' && c != 'O') || ('a' <= c <= 'z' && c != 'l')
    ensures Index(c).Some? <==> exists d: nat :: d < 58 && Symbol(d) == c
  {
    assert Index(c).Some? ==> Symbol(Index(c).value) == c;
  }

  lemma AlphabetInOrder(d: nat, e: nat)
    requires d < e < 58
    ensures Symbol(d) < Symbol(e)
  {
  }

  // ---------------------------------------------------------------- what is read

  // How a string is read: leading spaces, ones, the digits up to the first character that is none of the
  // 58, and the rest.  It decodes to the bytes of the digits' value if the rest is spaces only.
  lemma DecodedExactly(s: string) returns (spaces: nat, ones: nat, digits: seq<nat>)
    ensures spaces + ones + |digits| <= |s| && IsNumeral(58, digits)
    ensures forall i :: 0 <= i < spaces ==> IsSpace(s[i])
    ensures spaces < |s| ==> !IsSpace(s[spaces])
    ensures forall i :: spaces <= i < spaces + ones ==> s[i] == '1'
    ensures spaces + ones < |s| ==> s[spaces + ones] != '1'
    ensures forall i :: 0 <= i < |digits| ==> s[spaces + ones + i] == Symbol(digits[i])
    ensures var rest := s[spaces + ones + |digits|..];
            && (rest != [] ==> forall d :: 0 <= d < 58 ==> rest[0] != Symbol(d))
            && Decoded(s) == if forall i :: 0 <= i < |rest| ==> IsSpace(rest[i])
                             then Some(Digits(256, Value(58, digits))) else None
  {
    hide Value, Digits;
    spaces := SpacesRead(s);
    ones := OnesRead(s[spaces..]);
    var t := s[spaces..][ones..];
    assert t == s[spaces + ones..];
    digits := FrontDigits(t);
    var rest := t[|digits|..];
    assert rest == s[spaces + ones + |digits|..];
    forall i | 0 <= i < |digits| ensures s[spaces + ones + i] == Symbol(digits[i]) {
      assert t[i] == s[spaces + ones + i];
    }
    if rest != [] {
      forall d | 0 <= d < 58 ensures rest[0] != Symbol(d) {
        assert rest[0] == t[|digits|];
        SymbolKnown(d);
      }
    }
  }

  // The six characters that count as spaces.
  lemma SpaceExactly(c: char)
    ensures IsSpace(c) <==> c as int == 32 || 9 <= c as int <= 13
  {
  }

  lemma {:induction false} SpacesRead(s: string) returns (n: nat)
    ensures n <= |s| && SkipSpaces(s) == s[n..] && (forall i :: 0 <= i < n ==> IsSpace(s[i]))
    ensures n < |s| ==> !IsSpace(s[n])
  {
    n := 0;
    if s != [] && IsSpace(s[0]) {
      n := SpacesRead(s[1..]);
      n := n + 1;
    }
  }

  lemma {:induction false} OnesRead(s: string) returns (n: nat)
    ensures n <= |s| && SkipOnes(s) == s[n..] && (forall i :: 0 <= i < n ==> s[i] == '1')
    ensures n < |s| ==> s[n] != '1'
  {
    n := 0;
    if s != [] && s[0] == '1' {
      n := OnesRead(s[1..]);
      n := n + 1;
    }
  }
}
