/** The secure hash standard, FIPS 180-4, as far as SHA-1 needs it. */
module Sha1Spec {
  import opened Bytes

  // Section 2.2.2: circular left shift, by the three amounts SHA-1 uses.
  function Rotl1(x: bv32): bv32 { (x << 1) | (x >> 31) }

  function Rotl5(x: bv32): bv32 { (x << 5) | (x >> 27) }

  function Rotl30(x: bv32): bv32 { (x << 30) | (x >> 2) }

  // Section 2.2.2: addition modulo 2^32.
  function Plus(x: bv32, y: bv32): bv32 { x + y }

  // Section 4.1.1.
  function Ch(x: bv32, y: bv32, z: bv32): bv32 { (x & y) ^ (!x & z) }

  function Parity(x: bv32, y: bv32, z: bv32): bv32 { x ^ y ^ z }

  function Maj(x: bv32, y: bv32, z: bv32): bv32 { (x & y) ^ (x & z) ^ (y & z) }

  function F(t: nat, x: bv32, y: bv32, z: bv32): bv32 {
    if t < 20 then Ch(x, y, z)
    else if t < 40 then Parity(x, y, z)
    else if t < 60 then Maj(x, y, z)
    else Parity(x, y, z)
  }

  // Section 4.2.1.
  function K(t: nat): bv32 {
    if t < 20 then 0x5A827999
    else if t < 40 then 0x6ED9EBA1
    else if t < 60 then 0x8F1BBCDC
    else 0xCA62C1D6
  }

  // Section 5.3.1 and the five working variables of section 6.1.2.
  datatype Regs = Regs(a: bv32, b: bv32, c: bv32, d: bv32, e: bv32)

  const H0 := Regs(0x67452301, 0xEFCDAB89, 0x98BADCFE, 0x10325476, 0xC3D2E1F0)

  // Section 3.1: a word is four bytes, most significant first.
  function Word(b0: byte, b1: byte, b2: byte, b3: byte): bv32 {
    ((b0 as bv32) << 24) | ((b1 as bv32) << 16) | ((b2 as bv32) << 8) | (b3 as bv32)
  }

  type Block = s: seq<byte> | |s| == 64 witness seq(64, _ => 0)

  function Expand(w3: bv32, w8: bv32, w14: bv32, w16: bv32): bv32 {
    Rotl1(w3 ^ w8 ^ w14 ^ w16)
  }

  // Section 6.1.2 step 1: the message schedule of 80 words.
  function W(m: Block, t: nat): bv32 {
    if t < 16 then Word(m[4 * t], m[4 * t + 1], m[4 * t + 2], m[4 * t + 3])
    else Expand(W(m, t - 3), W(m, t - 8), W(m, t - 14), W(m, t - 16))
  }

  function Schedule(m: Block): (words: seq<bv32>)
    ensures |words| == 80
  {
    seq(80, t requires 0 <= t => W(m, t))
  }

  // Section 6.1.2 step 3, for one t.
  function Sum(rotated: bv32, f: bv32, e: bv32, k: bv32, w: bv32): bv32 {
    rotated + f + e + k + w
  }

  function Step(r: Regs, t: nat, w: bv32): Regs {
    Regs(Sum(Rotl5(r.a), F(t, r.b, r.c, r.d), r.e, K(t), w), r.a, Rotl30(r.b), r.c, r.d)
  }

  function Rounds(h: Regs, words: seq<bv32>, t: nat): Regs
    requires t <= |words|
  {
    if t == 0 then h else Step(Rounds(h, words, t - 1), t - 1, words[t - 1])
  }

  // Section 6.1.2 step 4.
  function Add(h: Regs, r: Regs): Regs {
    Regs(Plus(h.a, r.a), Plus(h.b, r.b), Plus(h.c, r.c), Plus(h.d, r.d), Plus(h.e, r.e))
  }

  function Compress(h: Regs, m: Block): Regs {
    Add(h, Rounds(h, Schedule(m), 80))
  }

  // Section 6.1.2: the hash value after the first n blocks of s.
  function HashBlocks(s: seq<byte>, n: nat): Regs
    requires 64 * n <= |s|
  {
    if n == 0 then H0 else Compress(HashBlocks(s, n - 1), s[64 * (n - 1)..64 * n])
  }

  // Section 5.1.1: the number of zero bytes that follow the byte 0x80.  In
  // bytes the standard's equation for the zero bits is z + n + 1 = 56 mod 64.
  function ZeroBytes(n: nat): (z: nat)
    ensures z < 64 && (n + 1 + z) % 64 == 56
    ensures (n + 1 + z + 8) % 64 == 0
  {
    (119 - n % 64) % 64
  }

  lemma ZeroBytesLeast(n: nat, z: nat)
    requires (n + 1 + z) % 64 == 56
    ensures ZeroBytes(n) <= z
  {}

  function Zeros(z: nat): (s: seq<byte>)
    ensures |s| == z
  {
    seq(z, _ => 0)
  }

  // The length field holds the bit length.  The standard only defines the
  // hash of messages of fewer than 2^64 bits; beyond that this is the bit
  // length modulo 2^64.
  function LengthField(n: nat): seq<byte> {
    BigEndian(8 * n % TWO64, 8)
  }

  function Padding(n: nat): (p: seq<byte>)
    ensures |p| == 1 + ZeroBytes(n) + 8
  {
    [0x80] + Zeros(ZeroBytes(n)) + LengthField(n)
  }

  function Pad(s: seq<byte>): (p: seq<byte>)
    ensures |p| == |s| + 1 + ZeroBytes(|s|) + 8
    ensures |p| % 64 == 0
  {
    s + Padding(|s|)
  }

  // The bytes of a word, most significant first.
  function WordByte(w: bv32, k: nat): byte
    requires k < 4
  {
    if k == 0 then ((w >> 24) & 255) as bv8
    else if k == 1 then ((w >> 16) & 255) as bv8
    else if k == 2 then ((w >> 8) & 255) as bv8
    else (w & 255) as bv8
  }

  function WordAt(h: Regs, k: nat): bv32
    requires k < 5
  {
    if k == 0 then h.a else if k == 1 then h.b else if k == 2 then h.c else if k == 3 then h.d else h.e
  }

  // The 160-bit digest: the bytes of the five words in order.
  function DigestBytes(h: Regs): (s: seq<byte>)
    ensures |s| == 20
  {
    seq(20, i requires 0 <= i < 20 => WordByte(WordAt(h, i / 4), i % 4))
  }

  function Sha1(s: seq<byte>): (digest: seq<byte>)
    ensures |digest| == 20
  {
    DigestBytes(HashBlocks(Pad(s), |Pad(s)| / 64))
  }

  // The hash of the first n blocks does not depend on what follows them.
  lemma {:induction false} HashBlocksPrefix(s: seq<byte>, x: seq<byte>, n: nat)
    requires 64 * n <= |s|
    ensures HashBlocks(s + x, n) == HashBlocks(s, n)
  {
    if n > 0 {
      HashBlocksPrefix(s, x, n - 1);
      assert (s + x)[64 * (n - 1)..64 * n] == s[64 * (n - 1)..64 * n];
    }
  }
}
