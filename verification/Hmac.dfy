// Keyed hashing over an arbitrary hash: the two HMAC routines (src/pbkdf2.cpp, src/hash.cpp)
// against section 2 of RFC 2104, and PBKDF2 (src/pbkdf2.cpp) against section 5.2 of RFC 8018.
module Hmac {
  import opened Common
  import opened Arithmetic

  type Bytes = seq<bv8>

  // A hash with its block and digest sizes; a context is the bytes it has absorbed.
  datatype HashFunction = HashFunction(block: nat, size: nat, digest: Bytes -> Bytes) {
    ghost predicate Valid() { size <= block && forall m :: |digest(m)| == size }
  }

  // ---------------------------------------------------------------- the definitions

  function Zeros(n: nat): (s: Bytes)
    ensures |s| == n && forall i :: 0 <= i < n ==> s[i] == 0
  {
    seq(n, _ => 0)
  }

  // The key, hashed when it is longer than a block, filled up with zeros.
  function BlockKey(h: HashFunction, key: Bytes): (k: Bytes)
    requires h.Valid()
    ensures |k| == h.block
  {
    var short := if |key| > h.block then h.digest(key) else key;
    short + Zeros(h.block - |short|)
  }

  function XorEach(s: Bytes, pad: bv8): (r: Bytes)
    ensures |r| == |s| && forall i :: 0 <= i < |s| ==> r[i] == s[i] ^ pad
  {
    seq(|s|, i requires 0 <= i < |s| => s[i] ^ pad)
  }

  const IPAD: bv8 := 0x36
  const OPAD: bv8 := 0x5c

  // Section 2 of RFC 2104.
  function HmacOf(h: HashFunction, key: Bytes, text: Bytes): (d: Bytes)
    requires h.Valid()
    ensures |d| == h.size
  {
    h.digest(XorEach(BlockKey(h, key), OPAD) + h.digest(XorEach(BlockKey(h, key), IPAD) + text))
  }

  function Xor(a: Bytes, b: Bytes): (r: Bytes)
    requires |a| == |b|
    ensures |r| == |a| && forall i :: 0 <= i < |a| ==> r[i] == a[i] ^ b[i]
  {
    seq(|a|, i requires 0 <= i < |a| => a[i] ^ b[i])
  }

  // Four octets, most significant first.
  function Int32(i: nat): (s: Bytes)
    requires i < 0x1_0000_0000
    ensures |s| == 4
  {
    [(i / 0x1000000) as bv8, (i / 0x10000 % 0x100) as bv8, (i / 0x100 % 0x100) as bv8, (i % 0x100) as bv8]
  }

  // Section 5.2 of RFC 8018: U_j of block i.
  function U(h: HashFunction, password: Bytes, salt: Bytes, i: nat, j: nat): (u: Bytes)
    requires h.Valid() && j >= 1 && i < 0x1_0000_0000
    ensures |u| == h.size
    decreases j
  {
    if j == 1 then HmacOf(h, password, salt + Int32(i)) else HmacOf(h, password, U(h, password, salt, i, j - 1))
  }

  function T(h: HashFunction, password: Bytes, salt: Bytes, c: nat, i: nat): (t: Bytes)
    requires h.Valid() && c >= 1 && i < 0x1_0000_0000
    ensures |t| == h.size
  {
    if c == 1 then U(h, password, salt, i, 1) else Xor(T(h, password, salt, c - 1, i), U(h, password, salt, i, c))
  }

  // The first n blocks.
  function Blocks(h: HashFunction, password: Bytes, salt: Bytes, c: nat, n: nat): (s: Bytes)
    requires h.Valid() && c >= 1 && n < 0x1_0000_0000
    ensures |s| == n * h.size
  {
    if n == 0 then [] else Blocks(h, password, salt, c, n - 1) + T(h, password, salt, c, n)
  }

  const MAX_BLOCKS: nat := 0xFFFF_FFFF

  // The derived key: as many blocks as it takes, cut to the length asked for.
  function BlockCount(dkLen: nat): (n: nat)
    ensures 32 * (n - 1) < dkLen <= 32 * n || n == dkLen == 0
  {
    (dkLen + 31) / 32
  }

  function Pbkdf2(h: HashFunction, password: Bytes, salt: Bytes, c: nat, dkLen: nat): (dk: Bytes)
    requires h.Valid() && h.size == 32 && c >= 1 && dkLen <= 32 * MAX_BLOCKS
    ensures |dk| == dkLen
  {
    Blocks(h, password, salt, c, BlockCount(dkLen))[..dkLen]
  }

  // ---------------------------------------------------------------- the contexts

  // The pads of HMAC_SHA256_Init: filled with a constant, then xored with the key in place.
  method Pad(key: Bytes, length: nat, fill: bv8) returns (pad: array<bv8>)
    requires |key| <= length
    ensures fresh(pad) && pad[..] == XorEach(key + Zeros(length - |key|), fill)
  {
    pad := new bv8[length](_ => fill);
    for i := 0 to |key|
      invariant forall k :: 0 <= k < i ==> pad[k] == key[k] ^ fill
      invariant forall k :: i <= k < length ==> pad[k] == fill
    {
      pad[i] := pad[i] ^ key[i];
      XorSwaps(fill, key[i]);
    }
    XorZero(fill);
  }

  lemma XorSwaps(a: bv8, b: bv8)
    ensures a ^ b == b ^ a
  {
  }

  lemma XorZero(a: bv8)
    ensures 0 ^ a == a
  {
  }

  // One pass of HMAC_SHA512_Init over its buffer.
  method XorBuffer(key: array<bv8>, x: bv8)
    modifies key
    ensures key[..] == XorEach(old(key[..]), x)
  {
    for n := 0 to key.Length
      invariant forall k :: 0 <= k < n ==> key[k] == old(key[k]) ^ x
      invariant forall k :: n <= k < key.Length ==> key[k] == old(key[k])
    {
      key[n] := key[n] ^ x;
    }
  }

  // Turning the outer pad into the inner one.
  lemma XorAgain(k: Bytes)
    ensures XorEach(XorEach(k, OPAD), OPAD ^ IPAD) == XorEach(k, IPAD)
  {
    forall i | 0 <= i < |k| ensures (k[i] ^ OPAD) ^ (OPAD ^ IPAD) == k[i] ^ IPAD {
      XorTwice(k[i]);
    }
  }

  lemma XorTwice(k: bv8)
    ensures (k ^ 0x5c) ^ (0x5c ^ 0x36) == k ^ 0x36
  {
  }

  class HmacContext {
    const h: HashFunction
    var inner: Bytes
    var outer: Bytes

    constructor (h: HashFunction)
      ensures this.h == h
    {
      this.h, inner, outer := h, [], [];
    }

    // Keyed, with `text` absorbed.
    ghost predicate Holds(key: Bytes, text: Bytes)
      requires h.Valid()
      reads this
    {
      && inner == XorEach(BlockKey(h, key), IPAD) + text
      && outer == XorEach(BlockKey(h, key), OPAD)
    }

    // HMAC_SHA256_Init.
    method Init256(key0: Bytes)
      requires h.Valid()
      modifies this
      ensures Holds(key0, [])
    {
      var key := key0;
      if |key| > h.block {
        key := h.digest(key);
      }
      var pad := Pad(key, h.block, IPAD);
      inner := pad[..];
      pad := Pad(key, h.block, OPAD);
      outer := pad[..];
      assert inner + [] == inner;
    }

    // HMAC_SHA512_Init: one buffer, xored twice.
    method Init512(pkey: Bytes)
      requires h.Valid()
      modifies this
      ensures Holds(pkey, [])
    {
      var start := if |pkey| <= h.block then pkey + Zeros(h.block - |pkey|)
          else h.digest(pkey) + Zeros(h.block - h.size);
      assert start == BlockKey(h, pkey);
      var key := new bv8[h.block](i requires 0 <= i < h.block => start[i]);
      assert key[..] == start;
      hide BlockKey, XorEach, Zeros;
      XorBuffer(key, OPAD);
      outer := key[..];
      XorBuffer(key, OPAD ^ IPAD);
      XorAgain(start);
      inner := key[..];
      assert XorEach(start, IPAD) == XorEach(start, IPAD) + [];
    }

    method Update(data: Bytes, ghost key: Bytes, ghost text: Bytes)
      requires h.Valid() && Holds(key, text)
      modifies this`inner
      ensures Holds(key, text + data)
    {
      inner := inner + data;
      assert XorEach(BlockKey(h, key), IPAD) + text + data == XorEach(BlockKey(h, key), IPAD) + (text + data);
    }

    method Final(ghost key: Bytes, ghost text: Bytes) returns (digest: Bytes)
      requires h.Valid() && Holds(key, text)
      modifies this
      ensures digest == HmacOf(h, key, text)
    {
      var ihash := h.digest(inner);
      outer := outer + ihash;
      digest := h.digest(outer);
    }

    method CopyFrom(that: HmacContext, ghost key: Bytes, ghost text: Bytes)
      requires h == that.h && this != that && h.Valid() && that.Holds(key, text)
      modifies this
      ensures Holds(key, text)
    {
      inner, outer := that.inner, that.outer;
    }
  }

  // ---------------------------------------------------------------- PBKDF2

  // T[k] ^= U[k].
  method XorInPlace(t: array<bv8>, u: Bytes)
    requires t.Length == |u|
    modifies t
    ensures t[..] == Xor(old(t[..]), u)
  {
    for k := 0 to t.Length
      invariant forall i :: 0 <= i < k ==> t[i] == old(t[i]) ^ u[i]
      invariant forall i :: k <= i < t.Length ==> t[i] == old(t[i])
    {
      t[k] := t[k] ^ u[k];
    }
  }

  lemma FirstRound(h: HashFunction, password: Bytes, salt: Bytes, i: nat)
    requires h.Valid() && i < 0x1_0000_0000
    ensures T(h, password, salt, 1, i) == U(h, password, salt, i, 1) == HmacOf(h, password, salt + Int32(i))
  {
    hide HmacOf, Int32;
  }

  lemma NextRound(h: HashFunction, password: Bytes, salt: Bytes, i: nat, j: nat)
    requires h.Valid() && i < 0x1_0000_0000 && j >= 2
    ensures U(h, password, salt, i, j) == HmacOf(h, password, U(h, password, salt, i, j - 1))
    ensures T(h, password, salt, j, i) == Xor(T(h, password, salt, j - 1, i), U(h, password, salt, i, j))
  {
    hide HmacOf, Int32, Xor;
  }

  // One block: the first U from the prepared context, then c - 1 more.
  method Block(h: HashFunction, prepared: HmacContext, password: Bytes, salt: Bytes, c: nat, i: nat)
    returns (t: array<bv8>)
    requires h.Valid() && prepared.h == h && prepared.Holds(password, salt) && 1 <= i < 0x1_0000_0000
    ensures fresh(t) && t[..] == T(h, password, salt, Max(c, 1), i)
  {
    hide HmacOf, BlockKey, XorEach, Xor, Int32, T, U, HmacContext.Holds;
    var ivec := Int32(i);
    FirstRound(h, password, salt, i);
    var hctx := new HmacContext(h);
    hctx.CopyFrom(prepared, password, salt);
    hctx.Update(ivec, password, salt);
    var u := hctx.Final(password, salt + ivec);
    t := new bv8[|u|](k requires 0 <= k < |u| => u[k]);
    assert t[..] == u;
    var j := 2;
    while j <= c
      invariant 2 <= j <= Max(c, 1) + 1 && fresh(hctx) && hctx.h == h && fresh(t) && t.Length == h.size
      invariant u == U(h, password, salt, i, j - 1) && t[..] == T(h, password, salt, j - 1, i)
      decreases c - j
    {
      hctx.Init256(password);
      hctx.Update(u, password, []);
      assert [] + u == u;
      u := hctx.Final(password, u);
      XorInPlace(t, u);
      NextRound(h, password, salt, i, j);
      j := j + 1;
    }
  }

  lemma NextBlock(h: HashFunction, password: Bytes, salt: Bytes, c: nat, n: nat)
    requires h.Valid() && c >= 1 && n + 1 < 0x1_0000_0000
    ensures Blocks(h, password, salt, c, n + 1) == Blocks(h, password, salt, c, n) + T(h, password, salt, c, n + 1)
  {
    hide T;
  }

  method Pbkdf2Sha256(h: HashFunction, password: Bytes, salt: Bytes, c: nat, buf: array<bv8>, dkLen: nat)
    requires h.Valid() && h.size == 32 && dkLen <= 32 * MAX_BLOCKS && dkLen <= buf.Length
    modifies buf
    ensures buf[..dkLen] == Pbkdf2(h, password, salt, Max(c, 1), dkLen) && buf[dkLen..] == old(buf[dkLen..])
  {
    hide HmacOf, BlockKey, XorEach, T, U, Blocks, HmacContext.Holds;
    var pShctx := new HmacContext(h);
    pShctx.Init256(password);
    pShctx.Update(salt, password, []);
    assert [] + salt == salt;
    var i := 0;
    while i * 32 < dkLen
      invariant i <= BlockCount(dkLen) && pShctx.Holds(password, salt) && pShctx.h == h
      invariant buf[..Min(32 * i, dkLen)] == Blocks(h, password, salt, Max(c, 1), i)[..Min(32 * i, dkLen)]
      invariant buf[dkLen..] == old(buf[dkLen..])
      decreases dkLen - i * 32
    {
      var t := Block(h, pShctx, password, salt, c, i + 1);
      NextBlock(h, password, salt, Max(c, 1), i);
      CopyCut(buf, i * 32, t, dkLen, Blocks(h, password, salt, Max(c, 1), i));
      i := i + 1;
    }
  }

  // Copies as many bytes of a block as are wanted, after those of the blocks before it.
  method CopyCut(buf: array<bv8>, at: nat, t: array<bv8>, dkLen: nat, ghost done: Bytes)
    requires buf != t && t.Length == 32 && at < dkLen <= buf.Length && buf[..at] == done
    modifies buf
    ensures buf[..Min(at + 32, dkLen)] == (done + t[..])[..Min(at + 32, dkLen)] && buf[dkLen..] == old(buf[dkLen..])
  {
    var clen := dkLen - at;
    if clen > 32 {
      clen := 32;
    }
    CopyInto(buf, at, t, clen);
    assert buf[..at + clen] == buf[..at] + buf[at..at + clen];
    assert buf[at + clen..][dkLen - at - clen..] == buf[dkLen..];
    assert old(buf[at + clen..])[dkLen - at - clen..] == old(buf[dkLen..]);
  }

  method CopyInto(buf: array<bv8>, at: nat, t: array<bv8>, n: nat)
    requires buf != t && n <= t.Length && at + n <= buf.Length
    modifies buf
    ensures buf[..at] == old(buf[..at]) && buf[at..at + n] == t[..n] && buf[at + n..] == old(buf[at + n..])
  {
    for k := 0 to n
      invariant forall i :: 0 <= i < at ==> buf[i] == old(buf[i])
      invariant forall i :: 0 <= i < k ==> buf[at + i] == t[i]
      invariant forall i :: at + k <= i < buf.Length ==> buf[i] == old(buf[i])
    {
      buf[at + k] := t[k];
    }
  }

  // ---------------------------------------------------------------- in bytes

  // Most significant byte first.
  lemma Int32Exactly(a: nat, b: nat, c: nat, d: nat)
    requires a < 0x100 && b < 0x100 && c < 0x100 && d < 0x100
    ensures Int32(a * 0x1000000 + b * 0x10000 + c * 0x100 + d) == [a as bv8, b as bv8, c as bv8, d as bv8]
  {
    FourDigits(a, b, c, d);
  }

  lemma FourDigits(a: nat, b: nat, c: nat, d: nat)
    requires a < 0x100 && b < 0x100 && c < 0x100 && d < 0x100
    ensures var i := a * 0x1000000 + b * 0x10000 + c * 0x100 + d;
            i / 0x1000000 == a && i / 0x10000 % 0x100 == b && i / 0x100 % 0x100 == c && i % 0x100 == d
  {
    var i := a * 0x1000000 + b * 0x10000 + c * 0x100 + d;
    Quotient(i, a, b * 0x10000 + c * 0x100 + d, 0x1000000);
    Quotient(i, a * 0x100 + b, c * 0x100 + d, 0x10000);
    Quotient(a * 0x100 + b, a, b, 0x100);
    Quotient(i, a * 0x10000 + b * 0x100 + c, d, 0x100);
    Quotient(a * 0x10000 + b * 0x100 + c, a * 0x100 + b, c, 0x100);
  }

  // The pads are the bytes 0x36 and 0x5c, the key is filled up with zeros, or hashed first when it is
  // longer than a block.
  lemma HmacExactly(h: HashFunction, key: Bytes, text: Bytes, short: Bytes, inner: Bytes, outer: Bytes)
    requires h.Valid() && short == if |key| > h.block then h.digest(key) else key
    requires |inner| == |outer| == h.block
    requires forall i :: 0 <= i < h.block ==>
               var k := if i < |short| then short[i] else 0; inner[i] == k ^ 0x36 && outer[i] == k ^ 0x5c
    ensures HmacOf(h, key, text) == h.digest(outer + h.digest(inner + text))
  {
    var k := BlockKey(h, key);
    assert inner == XorEach(k, IPAD);
    assert outer == XorEach(k, OPAD);
  }

  // The i-th part of the derived key is the i-th block, counted from one.
  lemma {:induction false} BlocksExactly(h: HashFunction, password: Bytes, salt: Bytes, c: nat, n: nat, i: nat)
    requires h.Valid() && h.size == 32 && c >= 1 && 1 <= i <= n < 0x1_0000_0000
    ensures Blocks(h, password, salt, c, n)[32 * (i - 1)..32 * i] == T(h, password, salt, c, i)
  {
    hide Blocks, T;
    NextBlock(h, password, salt, c, n - 1);
    var before, last := Blocks(h, password, salt, c, n - 1), T(h, password, salt, c, n);
    assert |before| == 32 * (n - 1) && |last| == 32;
    if i < n {
      BlocksExactly(h, password, salt, c, n - 1, i);
      assert (before + last)[32 * (i - 1)..32 * i] == before[32 * (i - 1)..32 * i];
    } else {
      assert (before + last)[32 * (n - 1)..32 * n] == last;
    }
  }
}
