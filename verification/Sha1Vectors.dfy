/** The hash function beside what the standard publishes: the four constants
    are square roots, a padded message and a digest are spelled out byte by
    byte, each block goes on from the value before it, and the message "abc"
    has the digest that FIPS 180-4 gives it as an example. */
module Sha1Vectors {
  import opened Bytes
  import opened Sha1Spec

  // Section 4.2.1: K(t) is the integer square root of n * 2^60, where n is
  // 2, 3, 5 and 10 for the four groups of twenty rounds.
  lemma ConstantsAreRoots(t: nat)
    requires t < 80
    ensures var n := if t < 20 then 2 else if t < 40 then 3 else if t < 60 then 5 else 10;
            var k := K(t) as int;
            k * k <= n * 0x1000_0000_0000_0000 < (k + 1) * (k + 1)
  {}

  // Section 5.1.1: the message, 0x80, zeros, and the bit length in eight bytes.
  lemma PaddedIs(s: seq<byte>, p: seq<byte>)
    requires p == Pad(s)
    ensures |s| + 9 <= |p| <= |s| + 72 && |p| % 64 == 0
    ensures p[..|s|] == s && p[|s|] == 0x80
    ensures forall i | |s| < i < |p| - 8 :: p[i] == 0
    ensures p[|p| - 8..] == LengthField(|s|)
    ensures 8 * |s| < TWO64 ==> FromBigEndian(p[|p| - 8..]) == 8 * |s|
  {
    var zeros := Zeros(ZeroBytes(|s|));
    FourParts(s, zeros, LengthField(|s|), p);
    if 8 * |s| < TWO64 {
      LengthIs(|s|);
    }
  }

  lemma FourParts(s: seq<byte>, zeros: seq<byte>, length: seq<byte>, p: seq<byte>)
    requires p == s + ([0x80] + zeros + length) && |length| == 8
    ensures |p| == |s| + 1 + |zeros| + 8
    ensures p[..|s|] == s && p[|s|] == 0x80 && p[|p| - 8..] == length
    ensures forall i | |s| < i < |p| - 8 :: p[i] == zeros[i - |s| - 1]
  {}

  lemma LengthIs(n: nat)
    requires 8 * n < TWO64
    ensures FromBigEndian(LengthField(n)) == 8 * n
  {
    BigEndianRoundTrip(8 * n, 8);
  }

  // Section 6.1.2: each block goes on from the value of the blocks before it.
  lemma OneMoreBlock(s: seq<byte>, n: nat, block: Block)
    requires |s| == 64 * n
    ensures HashBlocks(s, 0) == H0
    ensures HashBlocks(s + block, n + 1) == Compress(HashBlocks(s, n), block)
  {
    HashBlocksPrefix(s, block, n);
    assert (s + block)[64 * n..64 * (n + 1)] == block;
  }

  const ABC: seq<byte> := [0x61, 0x62, 0x63]

  // The one block of the padded message.
  lemma AbcPadded(m: seq<byte>)
    requires m == Pad(ABC)
    ensures |m| == 64 && m[..3] == ABC && m[3] == 0x80
    ensures forall i | 4 <= i < 56 :: m[i] == 0
    ensures m[56..] == [0, 0, 0, 0, 0, 0, 0, 0x18]
  {
    PaddedIs(ABC, m);
    AbcLength();
  }

  lemma AbcLength()
    ensures LengthField(3) == [0, 0, 0, 0, 0, 0, 0, 0x18]
  {
    ZerosSpell(7);
    var s := Zeros(7) + [0x18];
    OneMoreByte(Zeros(7), 0x18, 0, s, 0x18);
    assert s == [0, 0, 0, 0, 0, 0, 0, 0x18];
  }

  lemma {:induction false} ZerosSpell(k: nat)
    ensures Spells(Zeros(k), 0)
  {
    if k > 0 {
      ZerosSpell(k - 1);
      OneMoreByte(Zeros(k - 1), 0, 0, Zeros(k), 0);
    }
  }

  // Four bytes are the word t of the block.
  lemma WordIs(m: Block, t: nat, i: nat, a: byte, b: byte, c: byte, d: byte)
    requires t < 16 && i == 4 * t && m[i] == a && m[i + 1] == b && m[i + 2] == c && m[i + 3] == d
    ensures W(m, t) == Word(a, b, c, d)
  {}

  lemma AbcZeroWord(m: Block, t: nat)
    requires m == Pad(ABC) && 1 <= t < 15
    ensures W(m, t) == 0
  {
    AbcPadded(m);
    if t == 14 {
      assert m[56] == m[56..][0] && m[57] == m[56..][1] && m[58] == m[56..][2] && m[59] == m[56..][3];
    }
    WordIs(m, t, 4 * t, 0, 0, 0, 0);
  }

  // The sixteen words of the block.
  lemma AbcWords0(m: Block)
    requires m == Pad(ABC)
    ensures W(m, 0) == 0x61626380 && W(m, 1) == 0x00000000 && W(m, 2) == 0x00000000 && W(m, 3) == 0x00000000
    ensures W(m, 4) == 0x00000000 && W(m, 5) == 0x00000000 && W(m, 6) == 0x00000000 && W(m, 7) == 0x00000000
    ensures W(m, 8) == 0x00000000 && W(m, 9) == 0x00000000 && W(m, 10) == 0x00000000 && W(m, 11) == 0x00000000
    ensures W(m, 12) == 0x00000000 && W(m, 13) == 0x00000000 && W(m, 14) == 0x00000000 && W(m, 15) == 0x00000018
  {
    AbcPadded(m);
    assert m[0] == m[..3][0] && m[1] == m[..3][1] && m[2] == m[..3][2];
    assert m[60] == m[56..][4] && m[61] == m[56..][5] && m[62] == m[56..][6] && m[63] == m[56..][7];
    WordIs(m, 0, 0, 0x61, 0x62, 0x63, 0x80);
    WordIs(m, 15, 60, 0, 0, 0, 0x18);
    forall t | 1 <= t < 15
      ensures W(m, t) == 0
    {
      AbcZeroWord(m, t);
    }
  }
  lemma AbcWords16(m: Block)
    requires W(m, 0) == 0x61626380 && W(m, 1) == 0x00000000 && W(m, 2) == 0x00000000 && W(m, 3) == 0x00000000
    requires W(m, 4) == 0x00000000 && W(m, 5) == 0x00000000 && W(m, 6) == 0x00000000 && W(m, 7) == 0x00000000
    requires W(m, 8) == 0x00000000 && W(m, 9) == 0x00000000 && W(m, 10) == 0x00000000 && W(m, 11) == 0x00000000
    requires W(m, 12) == 0x00000000 && W(m, 13) == 0x00000000 && W(m, 14) == 0x00000000 && W(m, 15) == 0x00000018
    ensures W(m, 16) == 0xC2C4C700 && W(m, 17) == 0x00000000 && W(m, 18) == 0x00000030 && W(m, 19) == 0x85898E01
    ensures W(m, 20) == 0x00000000 && W(m, 21) == 0x00000060 && W(m, 22) == 0x0B131C03 && W(m, 23) == 0x00000030
  {
    assert W(m, 16) == Expand(W(m, 13), W(m, 8), W(m, 2), W(m, 0));
    assert W(m, 17) == Expand(W(m, 14), W(m, 9), W(m, 3), W(m, 1));
    assert W(m, 18) == Expand(W(m, 15), W(m, 10), W(m, 4), W(m, 2));
    assert W(m, 19) == Expand(W(m, 16), W(m, 11), W(m, 5), W(m, 3));
    assert W(m, 20) == Expand(W(m, 17), W(m, 12), W(m, 6), W(m, 4));
    assert W(m, 21) == Expand(W(m, 18), W(m, 13), W(m, 7), W(m, 5));
    assert W(m, 22) == Expand(W(m, 19), W(m, 14), W(m, 8), W(m, 6));
    assert W(m, 23) == Expand(W(m, 20), W(m, 15), W(m, 9), W(m, 7));
  }

  lemma AbcWords24(m: Block)
    requires W(m, 8) == 0x00000000 && W(m, 9) == 0x00000000 && W(m, 10) == 0x00000000 && W(m, 11) == 0x00000000
    requires W(m, 12) == 0x00000000 && W(m, 13) == 0x00000000 && W(m, 14) == 0x00000000 && W(m, 15) == 0x00000018
    requires W(m, 16) == 0xC2C4C700 && W(m, 17) == 0x00000000 && W(m, 18) == 0x00000030 && W(m, 19) == 0x85898E01
    requires W(m, 20) == 0x00000000 && W(m, 21) == 0x00000060 && W(m, 22) == 0x0B131C03 && W(m, 23) == 0x00000030
    ensures W(m, 24) == 0x85898EC1 && W(m, 25) == 0x16263806 && W(m, 26) == 0x00000000 && W(m, 27) == 0x00000180
    ensures W(m, 28) == 0x2C4C700C && W(m, 29) == 0x000000F0 && W(m, 30) == 0x93AFB507 && W(m, 31) == 0x5898E048
  {
    assert W(m, 24) == Expand(W(m, 21), W(m, 16), W(m, 10), W(m, 8));
    assert W(m, 25) == Expand(W(m, 22), W(m, 17), W(m, 11), W(m, 9));
    assert W(m, 26) == Expand(W(m, 23), W(m, 18), W(m, 12), W(m, 10));
    assert W(m, 27) == Expand(W(m, 24), W(m, 19), W(m, 13), W(m, 11));
    assert W(m, 28) == Expand(W(m, 25), W(m, 20), W(m, 14), W(m, 12));
    assert W(m, 29) == Expand(W(m, 26), W(m, 21), W(m, 15), W(m, 13));
    assert W(m, 30) == Expand(W(m, 27), W(m, 22), W(m, 16), W(m, 14));
    assert W(m, 31) == Expand(W(m, 28), W(m, 23), W(m, 17), W(m, 15));
  }

  lemma AbcWords32(m: Block)
    requires W(m, 16) == 0xC2C4C700 && W(m, 17) == 0x00000000 && W(m, 18) == 0x00000030 && W(m, 19) == 0x85898E01
    requires W(m, 20) == 0x00000000 && W(m, 21) == 0x00000060 && W(m, 22) == 0x0B131C03 && W(m, 23) == 0x00000030
    requires W(m, 24) == 0x85898EC1 && W(m, 25) == 0x16263806 && W(m, 26) == 0x00000000 && W(m, 27) == 0x00000180
    requires W(m, 28) == 0x2C4C700C && W(m, 29) == 0x000000F0 && W(m, 30) == 0x93AFB507 && W(m, 31) == 0x5898E048
    ensures W(m, 32) == 0x8E9A9202 && W(m, 33) == 0x00000600 && W(m, 34) == 0xB131C0F0 && W(m, 35) == 0x16263BC6
    ensures W(m, 36) == 0x4EBED41E && W(m, 37) == 0x626380A1 && W(m, 38) == 0x16263806 && W(m, 39) == 0x000018C0
  {
    assert W(m, 32) == Expand(W(m, 29), W(m, 24), W(m, 18), W(m, 16));
    assert W(m, 33) == Expand(W(m, 30), W(m, 25), W(m, 19), W(m, 17));
    assert W(m, 34) == Expand(W(m, 31), W(m, 26), W(m, 20), W(m, 18));
    assert W(m, 35) == Expand(W(m, 32), W(m, 27), W(m, 21), W(m, 19));
    assert W(m, 36) == Expand(W(m, 33), W(m, 28), W(m, 22), W(m, 20));
    assert W(m, 37) == Expand(W(m, 34), W(m, 29), W(m, 23), W(m, 21));
    assert W(m, 38) == Expand(W(m, 35), W(m, 30), W(m, 24), W(m, 22));
    assert W(m, 39) == Expand(W(m, 36), W(m, 31), W(m, 25), W(m, 23));
  }

  lemma AbcWords40(m: Block)
    requires W(m, 24) == 0x85898EC1 && W(m, 25) == 0x16263806 && W(m, 26) == 0x00000000 && W(m, 27) == 0x00000180
    requires W(m, 28) == 0x2C4C700C && W(m, 29) == 0x000000F0 && W(m, 30) == 0x93AFB507 && W(m, 31) == 0x5898E048
    requires W(m, 32) == 0x8E9A9202 && W(m, 33) == 0x00000600 && W(m, 34) == 0xB131C0F0 && W(m, 35) == 0x16263BC6
    requires W(m, 36) == 0x4EBED41E && W(m, 37) == 0x626380A1 && W(m, 38) == 0x16263806 && W(m, 39) == 0x000018C0
    ensures W(m, 40) == 0xD2E138C4 && W(m, 41) == 0x00000F00 && W(m, 42) == 0x3AFB5079 && W(m, 43) == 0x898E04E5
    ensures W(m, 44) == 0xE2BA3C2B && W(m, 45) == 0x000060C0 && W(m, 46) == 0x053A37CD && W(m, 47) == 0x74458547
  {
    assert W(m, 40) == Expand(W(m, 37), W(m, 32), W(m, 26), W(m, 24));
    assert W(m, 41) == Expand(W(m, 38), W(m, 33), W(m, 27), W(m, 25));
    assert W(m, 42) == Expand(W(m, 39), W(m, 34), W(m, 28), W(m, 26));
    assert W(m, 43) == Expand(W(m, 40), W(m, 35), W(m, 29), W(m, 27));
    assert W(m, 44) == Expand(W(m, 41), W(m, 36), W(m, 30), W(m, 28));
    assert W(m, 45) == Expand(W(m, 42), W(m, 37), W(m, 31), W(m, 29));
    assert W(m, 46) == Expand(W(m, 43), W(m, 38), W(m, 32), W(m, 30));
    assert W(m, 47) == Expand(W(m, 44), W(m, 39), W(m, 33), W(m, 31));
  }

  lemma AbcWords48(m: Block)
    requires W(m, 32) == 0x8E9A9202 && W(m, 33) == 0x00000600 && W(m, 34) == 0xB131C0F0 && W(m, 35) == 0x16263BC6
    requires W(m, 36) == 0x4EBED41E && W(m, 37) == 0x626380A1 && W(m, 38) == 0x16263806 && W(m, 39) == 0x000018C0
    requires W(m, 40) == 0xD2E138C4 && W(m, 41) == 0x00000F00 && W(m, 42) == 0x3AFB5079 && W(m, 43) == 0x898E04E5
    requires W(m, 44) == 0xE2BA3C2B && W(m, 45) == 0x000060C0 && W(m, 46) == 0x053A37CD && W(m, 47) == 0x74458547
    ensures W(m, 48) == 0xDA9415ED && W(m, 49) == 0x26380A16 && W(m, 50) == 0x626383A1 && W(m, 51) == 0x4EBF54DE
    ensures W(m, 52) == 0x3835B44B && W(m, 53) == 0x0000F600 && W(m, 54) == 0x1E84C7A3 && W(m, 55) == 0x98E04D98
  {
    assert W(m, 48) == Expand(W(m, 45), W(m, 40), W(m, 34), W(m, 32));
    assert W(m, 49) == Expand(W(m, 46), W(m, 41), W(m, 35), W(m, 33));
    assert W(m, 50) == Expand(W(m, 47), W(m, 42), W(m, 36), W(m, 34));
    assert W(m, 51) == Expand(W(m, 48), W(m, 43), W(m, 37), W(m, 35));
    assert W(m, 52) == Expand(W(m, 49), W(m, 44), W(m, 38), W(m, 36));
    assert W(m, 53) == Expand(W(m, 50), W(m, 45), W(m, 39), W(m, 37));
    assert W(m, 54) == Expand(W(m, 51), W(m, 46), W(m, 40), W(m, 38));
    assert W(m, 55) == Expand(W(m, 52), W(m, 47), W(m, 41), W(m, 39));
  }

  lemma AbcWords56(m: Block)
    requires W(m, 40) == 0xD2E138C4 && W(m, 41) == 0x00000F00 && W(m, 42) == 0x3AFB5079 && W(m, 43) == 0x898E04E5
    requires W(m, 44) == 0xE2BA3C2B && W(m, 45) == 0x000060C0 && W(m, 46) == 0x053A37CD && W(m, 47) == 0x74458547
    requires W(m, 48) == 0xDA9415ED && W(m, 49) == 0x26380A16 && W(m, 50) == 0x626383A1 && W(m, 51) == 0x4EBF54DE
    requires W(m, 52) == 0x3835B44B && W(m, 53) == 0x0000F600 && W(m, 54) == 0x1E84C7A3 && W(m, 55) == 0x98E04D98
    ensures W(m, 56) == 0x651D16A0 && W(m, 57) == 0x62658CA1 && W(m, 58) == 0x458544D6 && W(m, 59) == 0x44584CB7
    ensures W(m, 60) == 0x7BA06619 && W(m, 61) == 0x6380AEA2 && W(m, 62) == 0x0AE55269 && W(m, 63) == 0x627B49A1
  {
    assert W(m, 56) == Expand(W(m, 53), W(m, 48), W(m, 42), W(m, 40));
    assert W(m, 57) == Expand(W(m, 54), W(m, 49), W(m, 43), W(m, 41));
    assert W(m, 58) == Expand(W(m, 55), W(m, 50), W(m, 44), W(m, 42));
    assert W(m, 59) == Expand(W(m, 56), W(m, 51), W(m, 45), W(m, 43));
    assert W(m, 60) == Expand(W(m, 57), W(m, 52), W(m, 46), W(m, 44));
    assert W(m, 61) == Expand(W(m, 58), W(m, 53), W(m, 47), W(m, 45));
    assert W(m, 62) == Expand(W(m, 59), W(m, 54), W(m, 48), W(m, 46));
    assert W(m, 63) == Expand(W(m, 60), W(m, 55), W(m, 49), W(m, 47));
  }

  lemma AbcWords64(m: Block)
    requires W(m, 48) == 0xDA9415ED && W(m, 49) == 0x26380A16 && W(m, 50) == 0x626383A1 && W(m, 51) == 0x4EBF54DE
    requires W(m, 52) == 0x3835B44B && W(m, 53) == 0x0000F600 && W(m, 54) == 0x1E84C7A3 && W(m, 55) == 0x98E04D98
    requires W(m, 56) == 0x651D16A0 && W(m, 57) == 0x62658CA1 && W(m, 58) == 0x458544D6 && W(m, 59) == 0x44584CB7
    requires W(m, 60) == 0x7BA06619 && W(m, 61) == 0x6380AEA2 && W(m, 62) == 0x0AE55269 && W(m, 63) == 0x627B49A1
    ensures W(m, 64) == 0x7CD45C9D && W(m, 65) == 0x000F0000 && W(m, 66) == 0xFB50753A && W(m, 67) == 0xEC6765E8
    ensures W(m, 68) == 0xBA3C2BE2 && W(m, 69) == 0x0060C000 && W(m, 70) == 0x3A37CD05 && W(m, 71) == 0x458546F4
  {
    assert W(m, 64) == Expand(W(m, 61), W(m, 56), W(m, 50), W(m, 48));
    assert W(m, 65) == Expand(W(m, 62), W(m, 57), W(m, 51), W(m, 49));
    assert W(m, 66) == Expand(W(m, 63), W(m, 58), W(m, 52), W(m, 50));
    assert W(m, 67) == Expand(W(m, 64), W(m, 59), W(m, 53), W(m, 51));
    assert W(m, 68) == Expand(W(m, 65), W(m, 60), W(m, 54), W(m, 52));
    assert W(m, 69) == Expand(W(m, 66), W(m, 61), W(m, 55), W(m, 53));
    assert W(m, 70) == Expand(W(m, 67), W(m, 62), W(m, 56), W(m, 54));
    assert W(m, 71) == Expand(W(m, 68), W(m, 63), W(m, 57), W(m, 55));
  }

  lemma AbcWords72(m: Block)
    requires W(m, 56) == 0x651D16A0 && W(m, 57) == 0x62658CA1 && W(m, 58) == 0x458544D6 && W(m, 59) == 0x44584CB7
    requires W(m, 60) == 0x7BA06619 && W(m, 61) == 0x6380AEA2 && W(m, 62) == 0x0AE55269 && W(m, 63) == 0x627B49A1
    requires W(m, 64) == 0x7CD45C9D && W(m, 65) == 0x000F0000 && W(m, 66) == 0xFB50753A && W(m, 67) == 0xEC6765E8
    requires W(m, 68) == 0xBA3C2BE2 && W(m, 69) == 0x0060C000 && W(m, 70) == 0x3A37CD05 && W(m, 71) == 0x458546F4
    ensures W(m, 72) == 0xB8599DD6 && W(m, 73) == 0x380A1A26 && W(m, 74) == 0x01E02203 && W(m, 75) == 0xE7CC3456
    ensures W(m, 76) == 0xE6E60B69 && W(m, 77) == 0x00F60A00 && W(m, 78) == 0x5795EF4F && W(m, 79) == 0x822E0879
  {
    assert W(m, 72) == Expand(W(m, 69), W(m, 64), W(m, 58), W(m, 56));
    assert W(m, 73) == Expand(W(m, 70), W(m, 65), W(m, 59), W(m, 57));
    assert W(m, 74) == Expand(W(m, 71), W(m, 66), W(m, 60), W(m, 58));
    assert W(m, 75) == Expand(W(m, 72), W(m, 67), W(m, 61), W(m, 59));
    assert W(m, 76) == Expand(W(m, 73), W(m, 68), W(m, 62), W(m, 60));
    assert W(m, 77) == Expand(W(m, 74), W(m, 69), W(m, 63), W(m, 61));
    assert W(m, 78) == Expand(W(m, 75), W(m, 70), W(m, 64), W(m, 62));
    assert W(m, 79) == Expand(W(m, 76), W(m, 71), W(m, 65), W(m, 63));
  }

  lemma AbcRounds0(words: seq<bv32>)
    requires |words| == 80 && Rounds(H0, words, 0) == Regs(0x67452301, 0xEFCDAB89, 0x98BADCFE, 0x10325476, 0xC3D2E1F0)
    requires words[0] == 0x61626380 && words[1] == 0x00000000 && words[2] == 0x00000000 && words[3] == 0x00000000 && words[4] == 0x00000000
    requires words[5] == 0x00000000 && words[6] == 0x00000000 && words[7] == 0x00000000 && words[8] == 0x00000000 && words[9] == 0x00000000
    ensures Rounds(H0, words, 10) == Regs(0x8351F929, 0x4B6AE328, 0x27A301F5, 0x664F8C30, 0x0FF1F290)
  {
    assert Rounds(H0, words, 1) == Regs(0x0116FC33, 0x67452301, 0x7BF36AE2, 0x98BADCFE, 0x10325476);
    assert Rounds(H0, words, 2) == Regs(0x8990536D, 0x0116FC33, 0x59D148C0, 0x7BF36AE2, 0x98BADCFE);
    assert Rounds(H0, words, 3) == Regs(0xA1390F08, 0x8990536D, 0xC045BF0C, 0x59D148C0, 0x7BF36AE2);
    assert Rounds(H0, words, 4) == Regs(0xCDD8E11B, 0xA1390F08, 0x626414DB, 0xC045BF0C, 0x59D148C0);
    assert Rounds(H0, words, 5) == Regs(0xCFD499DE, 0xCDD8E11B, 0x284E43C2, 0x626414DB, 0xC045BF0C);
    assert Rounds(H0, words, 6) == Regs(0x3FC7CA40, 0xCFD499DE, 0xF3763846, 0x284E43C2, 0x626414DB);
    assert Rounds(H0, words, 7) == Regs(0x993E30C1, 0x3FC7CA40, 0xB3F52677, 0xF3763846, 0x284E43C2);
    assert Rounds(H0, words, 8) == Regs(0x9E8C07D4, 0x993E30C1, 0x0FF1F290, 0xB3F52677, 0xF3763846);
    assert Rounds(H0, words, 9) == Regs(0x4B6AE328, 0x9E8C07D4, 0x664F8C30, 0x0FF1F290, 0xB3F52677);
  }

  lemma AbcRounds10(words: seq<bv32>)
    requires |words| == 80 && Rounds(H0, words, 10) == Regs(0x8351F929, 0x4B6AE328, 0x27A301F5, 0x664F8C30, 0x0FF1F290)
    requires words[10] == 0x00000000 && words[11] == 0x00000000 && words[12] == 0x00000000 && words[13] == 0x00000000 && words[14] == 0x00000000
    requires words[15] == 0x00000018 && words[16] == 0xC2C4C700 && words[17] == 0x00000000 && words[18] == 0x00000030 && words[19] == 0x85898E01
    ensures Rounds(H0, words, 20) == Regs(0xFD9E1D7D, 0xDC64901D, 0x20AA99CA, 0xD3A49608, 0xC82F758B)
  {
    assert Rounds(H0, words, 11) == Regs(0xFBDA9E89, 0x8351F929, 0x12DAB8CA, 0x27A301F5, 0x664F8C30);
    assert Rounds(H0, words, 12) == Regs(0x63188FE4, 0xFBDA9E89, 0x60D47E4A, 0x12DAB8CA, 0x27A301F5);
    assert Rounds(H0, words, 13) == Regs(0x4607B664, 0x63188FE4, 0x7EF6A7A2, 0x60D47E4A, 0x12DAB8CA);
    assert Rounds(H0, words, 14) == Regs(0x9128F695, 0x4607B664, 0x18C623F9, 0x7EF6A7A2, 0x60D47E4A);
    assert Rounds(H0, words, 15) == Regs(0x196BEE77, 0x9128F695, 0x1181ED99, 0x18C623F9, 0x7EF6A7A2);
    assert Rounds(H0, words, 16) == Regs(0x20BDD62F, 0x196BEE77, 0x644A3DA5, 0x1181ED99, 0x18C623F9);
    assert Rounds(H0, words, 17) == Regs(0x4E925823, 0x20BDD62F, 0xC65AFB9D, 0x644A3DA5, 0x1181ED99);
    assert Rounds(H0, words, 18) == Regs(0x82AA6728, 0x4E925823, 0xC82F758B, 0xC65AFB9D, 0x644A3DA5);
    assert Rounds(H0, words, 19) == Regs(0xDC64901D, 0x82AA6728, 0xD3A49608, 0xC82F758B, 0xC65AFB9D);
  }

  lemma AbcRounds20(words: seq<bv32>)
    requires |words| == 80 && Rounds(H0, words, 20) == Regs(0xFD9E1D7D, 0xDC64901D, 0x20AA99CA, 0xD3A49608, 0xC82F758B)
    requires words[20] == 0x00000000 && words[21] == 0x00000060 && words[22] == 0x0B131C03 && words[23] == 0x00000030 && words[24] == 0x85898EC1
    requires words[25] == 0x16263806 && words[26] == 0x00000000 && words[27] == 0x00000180 && words[28] == 0x2C4C700C && words[29] == 0x000000F0
    ensures Rounds(H0, words, 30) == Regs(0xC5FBAF5D, 0x8370B52E, 0xD2AA1365, 0x6F8D7EF5, 0x12104EE9)
  {
    assert Rounds(H0, words, 21) == Regs(0x1A37B0CA, 0xFD9E1D7D, 0x77192407, 0x20AA99CA, 0xD3A49608);
    assert Rounds(H0, words, 22) == Regs(0x33A23BFC, 0x1A37B0CA, 0x7F67875F, 0x77192407, 0x20AA99CA);
    assert Rounds(H0, words, 23) == Regs(0x21283486, 0x33A23BFC, 0x868DEC32, 0x7F67875F, 0x77192407);
    assert Rounds(H0, words, 24) == Regs(0xD541F12D, 0x21283486, 0x0CE88EFF, 0x868DEC32, 0x7F67875F);
    assert Rounds(H0, words, 25) == Regs(0xC7567DC6, 0xD541F12D, 0x884A0D21, 0x0CE88EFF, 0x868DEC32);
    assert Rounds(H0, words, 26) == Regs(0x48413BA4, 0xC7567DC6, 0x75507C4B, 0x884A0D21, 0x0CE88EFF);
    assert Rounds(H0, words, 27) == Regs(0xBE35FBD5, 0x48413BA4, 0xB1D59F71, 0x75507C4B, 0x884A0D21);
    assert Rounds(H0, words, 28) == Regs(0x4AA84D97, 0xBE35FBD5, 0x12104EE9, 0xB1D59F71, 0x75507C4B);
    assert Rounds(H0, words, 29) == Regs(0x8370B52E, 0x4AA84D97, 0x6F8D7EF5, 0x12104EE9, 0xB1D59F71);
  }

  lemma AbcRounds30(words: seq<bv32>)
    requires |words| == 80 && Rounds(H0, words, 30) == Regs(0xC5FBAF5D, 0x8370B52E, 0xD2AA1365, 0x6F8D7EF5, 0x12104EE9)
    requires words[30] == 0x93AFB507 && words[31] == 0x5898E048 && words[32] == 0x8E9A9202 && words[33] == 0x00000600 && words[34] == 0xB131C0F0
    requires words[35] == 0x16263BC6 && words[36] == 0x4EBED41E && words[37] == 0x626380A1 && words[38] == 0x16263806 && words[39] == 0x000018C0
    ensures Rounds(H0, words, 40) == Regs(0x32DE1CBA, 0x4C986405, 0xF718E5CF, 0x03D447F6, 0xF72EEC32)
  {
    assert Rounds(H0, words, 31) == Regs(0x1267B407, 0xC5FBAF5D, 0xA0DC2D4B, 0xD2AA1365, 0x6F8D7EF5);
    assert Rounds(H0, words, 32) == Regs(0x3B845D33, 0x1267B407, 0x717EEBD7, 0xA0DC2D4B, 0xD2AA1365);
    assert Rounds(H0, words, 33) == Regs(0x046FAA0A, 0x3B845D33, 0xC499ED01, 0x717EEBD7, 0xA0DC2D4B);
    assert Rounds(H0, words, 34) == Regs(0x2C0EBC11, 0x046FAA0A, 0xCEE1174C, 0xC499ED01, 0x717EEBD7);
    assert Rounds(H0, words, 35) == Regs(0x21796AD4, 0x2C0EBC11, 0x811BEA82, 0xCEE1174C, 0xC499ED01);
    assert Rounds(H0, words, 36) == Regs(0xDCBBB0CB, 0x21796AD4, 0x4B03AF04, 0x811BEA82, 0xCEE1174C);
    assert Rounds(H0, words, 37) == Regs(0x0F511FD8, 0xDCBBB0CB, 0x085E5AB5, 0x4B03AF04, 0x811BEA82);
    assert Rounds(H0, words, 38) == Regs(0xDC63973F, 0x0F511FD8, 0xF72EEC32, 0x085E5AB5, 0x4B03AF04);
    assert Rounds(H0, words, 39) == Regs(0x4C986405, 0xDC63973F, 0x03D447F6, 0xF72EEC32, 0x085E5AB5);
  }

  lemma AbcRounds40(words: seq<bv32>)
    requires |words| == 80 && Rounds(H0, words, 40) == Regs(0x32DE1CBA, 0x4C986405, 0xF718E5CF, 0x03D447F6, 0xF72EEC32)
    requires words[40] == 0xD2E138C4 && words[41] == 0x00000F00 && words[42] == 0x3AFB5079 && words[43] == 0x898E04E5 && words[44] == 0xE2BA3C2B
    requires words[45] == 0x000060C0 && words[46] == 0x053A37CD && words[47] == 0x74458547 && words[48] == 0xDA9415ED && words[49] == 0x26380A16
    ensures Rounds(H0, words, 50) == Regs(0x120731C5, 0xBAF39337, 0xAFAB40B2, 0x2806E11B, 0x8714787C)
  {
    assert Rounds(H0, words, 41) == Regs(0xFC87DEDF, 0x32DE1CBA, 0x53261901, 0xF718E5CF, 0x03D447F6);
    assert Rounds(H0, words, 42) == Regs(0x970A0D5C, 0xFC87DEDF, 0x8CB7872E, 0x53261901, 0xF718E5CF);
    assert Rounds(H0, words, 43) == Regs(0x7F193DC5, 0x970A0D5C, 0xFF21F7B7, 0x8CB7872E, 0x53261901);
    assert Rounds(H0, words, 44) == Regs(0xEE1B1AAF, 0x7F193DC5, 0x25C28357, 0xFF21F7B7, 0x8CB7872E);
    assert Rounds(H0, words, 45) == Regs(0x40F28E09, 0xEE1B1AAF, 0x5FC64F71, 0x25C28357, 0xFF21F7B7);
    assert Rounds(H0, words, 46) == Regs(0x1C51E1F2, 0x40F28E09, 0xFB86C6AB, 0x5FC64F71, 0x25C28357);
    assert Rounds(H0, words, 47) == Regs(0xA01B846C, 0x1C51E1F2, 0x503CA382, 0xFB86C6AB, 0x5FC64F71);
    assert Rounds(H0, words, 48) == Regs(0xBEAD02CA, 0xA01B846C, 0x8714787C, 0x503CA382, 0xFB86C6AB);
    assert Rounds(H0, words, 49) == Regs(0xBAF39337, 0xBEAD02CA, 0x2806E11B, 0x8714787C, 0x503CA382);
  }

  lemma AbcRounds50(words: seq<bv32>)
    requires |words| == 80 && Rounds(H0, words, 50) == Regs(0x120731C5, 0xBAF39337, 0xAFAB40B2, 0x2806E11B, 0x8714787C)
    requires words[50] == 0x626383A1 && words[51] == 0x4EBF54DE && words[52] == 0x3835B44B && words[53] == 0x0000F600 && words[54] == 0x1E84C7A3
    requires words[55] == 0x98E04D98 && words[56] == 0x651D16A0 && words[57] == 0x62658CA1 && words[58] == 0x458544D6 && words[59] == 0x44584CB7
    ensures Rounds(H0, words, 60) == Regs(0x3F52DE5A, 0x09D785FD, 0x3498BFD4, 0xF211824F, 0xD79915AB)
  {
    assert Rounds(H0, words, 51) == Regs(0x641DB2CE, 0x120731C5, 0xEEBCE4CD, 0xAFAB40B2, 0x2806E11B);
    assert Rounds(H0, words, 52) == Regs(0x3847AD66, 0x641DB2CE, 0x4481CC71, 0xEEBCE4CD, 0xAFAB40B2);
    assert Rounds(H0, words, 53) == Regs(0xE490436D, 0x3847AD66, 0x99076CB3, 0x4481CC71, 0xEEBCE4CD);
    assert Rounds(H0, words, 54) == Regs(0x27E9F1D8, 0xE490436D, 0x8E11EB59, 0x99076CB3, 0x4481CC71);
    assert Rounds(H0, words, 55) == Regs(0x7B71F76D, 0x27E9F1D8, 0x792410DB, 0x8E11EB59, 0x99076CB3);
    assert Rounds(H0, words, 56) == Regs(0x5E6456AF, 0x7B71F76D, 0x09FA7C76, 0x792410DB, 0x8E11EB59);
    assert Rounds(H0, words, 57) == Regs(0xC846093F, 0x5E6456AF, 0x5EDC7DDB, 0x09FA7C76, 0x792410DB);
    assert Rounds(H0, words, 58) == Regs(0xD262FF50, 0xC846093F, 0xD79915AB, 0x5EDC7DDB, 0x09FA7C76);
    assert Rounds(H0, words, 59) == Regs(0x09D785FD, 0xD262FF50, 0xF211824F, 0xD79915AB, 0x5EDC7DDB);
  }

  lemma AbcRounds60(words: seq<bv32>)
    requires |words| == 80 && Rounds(H0, words, 60) == Regs(0x3F52DE5A, 0x09D785FD, 0x3498BFD4, 0xF211824F, 0xD79915AB)
    requires words[60] == 0x7BA06619 && words[61] == 0x6380AEA2 && words[62] == 0x0AE55269 && words[63] == 0x627B49A1 && words[64] == 0x7CD45C9D
    requires words[65] == 0x000F0000 && words[66] == 0xFB50753A && words[67] == 0xEC6765E8 && words[68] == 0xBA3C2BE2 && words[69] == 0x0060C000
    ensures Rounds(H0, words, 70) == Regs(0x3F2588C2, 0x497093C0, 0xDE37534A, 0x030F7CAD, 0x4405957E)
  {
    assert Rounds(H0, words, 61) == Regs(0xD756C147, 0x3F52DE5A, 0x4275E17F, 0x3498BFD4, 0xF211824F);
    assert Rounds(H0, words, 62) == Regs(0x548C9CB2, 0xD756C147, 0x8FD4B796, 0x4275E17F, 0x3498BFD4);
    assert Rounds(H0, words, 63) == Regs(0xB66C020B, 0x548C9CB2, 0xF5D5B051, 0x8FD4B796, 0x4275E17F);
    assert Rounds(H0, words, 64) == Regs(0x6B61C9E1, 0xB66C020B, 0x9523272C, 0xF5D5B051, 0x8FD4B796);
    assert Rounds(H0, words, 65) == Regs(0x19DFA7AC, 0x6B61C9E1, 0xED9B0082, 0x9523272C, 0xF5D5B051);
    assert Rounds(H0, words, 66) == Regs(0x101655F9, 0x19DFA7AC, 0x5AD87278, 0xED9B0082, 0x9523272C);
    assert Rounds(H0, words, 67) == Regs(0x0C3DF2B4, 0x101655F9, 0x0677E9EB, 0x5AD87278, 0xED9B0082);
    assert Rounds(H0, words, 68) == Regs(0x78DD4D2B, 0x0C3DF2B4, 0x4405957E, 0x0677E9EB, 0x5AD87278);
    assert Rounds(H0, words, 69) == Regs(0x497093C0, 0x78DD4D2B, 0x030F7CAD, 0x4405957E, 0x0677E9EB);
  }

  lemma AbcRounds70(words: seq<bv32>)
    requires |words| == 80 && Rounds(H0, words, 70) == Regs(0x3F2588C2, 0x497093C0, 0xDE37534A, 0x030F7CAD, 0x4405957E)
    requires words[70] == 0x3A37CD05 && words[71] == 0x458546F4 && words[72] == 0xB8599DD6 && words[73] == 0x380A1A26 && words[74] == 0x01E02203
    requires words[75] == 0xE7CC3456 && words[76] == 0xE6E60B69 && words[77] == 0x00F60A00 && words[78] == 0x5795EF4F && words[79] == 0x822E0879
    ensures Rounds(H0, words, 80) == Regs(0x42541B35, 0x5738D5E1, 0x21834873, 0x681E6DF6, 0xD8FDF6AD)
  {
    assert Rounds(H0, words, 71) == Regs(0xC199F8C7, 0x3F2588C2, 0x125C24F0, 0xDE37534A, 0x030F7CAD);
    assert Rounds(H0, words, 72) == Regs(0x39859DE7, 0xC199F8C7, 0x8FC96230, 0x125C24F0, 0xDE37534A);
    assert Rounds(H0, words, 73) == Regs(0xEDB42DE4, 0x39859DE7, 0xF0667E31, 0x8FC96230, 0x125C24F0);
    assert Rounds(H0, words, 74) == Regs(0x11793F6F, 0xEDB42DE4, 0xCE616779, 0xF0667E31, 0x8FC96230);
    assert Rounds(H0, words, 75) == Regs(0x5EE76897, 0x11793F6F, 0x3B6D0B79, 0xCE616779, 0xF0667E31);
    assert Rounds(H0, words, 76) == Regs(0x63F7DAB7, 0x5EE76897, 0xC45E4FDB, 0x3B6D0B79, 0xCE616779);
    assert Rounds(H0, words, 77) == Regs(0xA079B7D9, 0x63F7DAB7, 0xD7B9DA25, 0xC45E4FDB, 0x3B6D0B79);
    assert Rounds(H0, words, 78) == Regs(0x860D21CC, 0xA079B7D9, 0xD8FDF6AD, 0xD7B9DA25, 0xC45E4FDB);
    assert Rounds(H0, words, 79) == Regs(0x5738D5E1, 0x860D21CC, 0x681E6DF6, 0xD8FDF6AD, 0xD7B9DA25);
  }
  // Forty words of the schedule, and all eighty of them.
  lemma AbcSchedule40(m: Block)
    requires m == Pad(ABC)
    ensures W(m, 0) == 0x61626380 && W(m, 1) == 0x00000000 && W(m, 2) == 0x00000000 && W(m, 3) == 0x00000000
    ensures W(m, 4) == 0x00000000 && W(m, 5) == 0x00000000 && W(m, 6) == 0x00000000 && W(m, 7) == 0x00000000
    ensures W(m, 8) == 0x00000000 && W(m, 9) == 0x00000000 && W(m, 10) == 0x00000000 && W(m, 11) == 0x00000000
    ensures W(m, 12) == 0x00000000 && W(m, 13) == 0x00000000 && W(m, 14) == 0x00000000 && W(m, 15) == 0x00000018
    ensures W(m, 16) == 0xC2C4C700 && W(m, 17) == 0x00000000 && W(m, 18) == 0x00000030 && W(m, 19) == 0x85898E01
    ensures W(m, 20) == 0x00000000 && W(m, 21) == 0x00000060 && W(m, 22) == 0x0B131C03 && W(m, 23) == 0x00000030
    ensures W(m, 24) == 0x85898EC1 && W(m, 25) == 0x16263806 && W(m, 26) == 0x00000000 && W(m, 27) == 0x00000180
    ensures W(m, 28) == 0x2C4C700C && W(m, 29) == 0x000000F0 && W(m, 30) == 0x93AFB507 && W(m, 31) == 0x5898E048
    ensures W(m, 32) == 0x8E9A9202 && W(m, 33) == 0x00000600 && W(m, 34) == 0xB131C0F0 && W(m, 35) == 0x16263BC6
    ensures W(m, 36) == 0x4EBED41E && W(m, 37) == 0x626380A1 && W(m, 38) == 0x16263806 && W(m, 39) == 0x000018C0
  {
    AbcWords0(m);
    AbcWords16(m);
    AbcWords24(m);
    AbcWords32(m);
  }

  lemma AbcSchedule80(m: Block)
    requires m == Pad(ABC)
    ensures W(m, 40) == 0xD2E138C4 && W(m, 41) == 0x00000F00 && W(m, 42) == 0x3AFB5079 && W(m, 43) == 0x898E04E5
    ensures W(m, 44) == 0xE2BA3C2B && W(m, 45) == 0x000060C0 && W(m, 46) == 0x053A37CD && W(m, 47) == 0x74458547
    ensures W(m, 48) == 0xDA9415ED && W(m, 49) == 0x26380A16 && W(m, 50) == 0x626383A1 && W(m, 51) == 0x4EBF54DE
    ensures W(m, 52) == 0x3835B44B && W(m, 53) == 0x0000F600 && W(m, 54) == 0x1E84C7A3 && W(m, 55) == 0x98E04D98
    ensures W(m, 56) == 0x651D16A0 && W(m, 57) == 0x62658CA1 && W(m, 58) == 0x458544D6 && W(m, 59) == 0x44584CB7
    ensures W(m, 60) == 0x7BA06619 && W(m, 61) == 0x6380AEA2 && W(m, 62) == 0x0AE55269 && W(m, 63) == 0x627B49A1
    ensures W(m, 64) == 0x7CD45C9D && W(m, 65) == 0x000F0000 && W(m, 66) == 0xFB50753A && W(m, 67) == 0xEC6765E8
    ensures W(m, 68) == 0xBA3C2BE2 && W(m, 69) == 0x0060C000 && W(m, 70) == 0x3A37CD05 && W(m, 71) == 0x458546F4
    ensures W(m, 72) == 0xB8599DD6 && W(m, 73) == 0x380A1A26 && W(m, 74) == 0x01E02203 && W(m, 75) == 0xE7CC3456
    ensures W(m, 76) == 0xE6E60B69 && W(m, 77) == 0x00F60A00 && W(m, 78) == 0x5795EF4F && W(m, 79) == 0x822E0879
  {
    AbcSchedule40(m);
    AbcWords40(m);
    AbcWords48(m);
    AbcWords56(m);
    AbcWords64(m);
    AbcWords72(m);
  }

  lemma AbcRoundsTo40(m: Block, words: seq<bv32>)
    requires m == Pad(ABC) && words == Schedule(m)
    ensures Rounds(H0, words, 40) == Regs(0x32DE1CBA, 0x4C986405, 0xF718E5CF, 0x03D447F6, 0xF72EEC32)
  {
    AbcSchedule40(m);
    assert Rounds(H0, words, 0) == H0;
    AbcRounds0(words);
    AbcRounds10(words);
    AbcRounds20(words);
    AbcRounds30(words);
  }

  lemma AbcRoundsTo80(m: Block, words: seq<bv32>)
    requires m == Pad(ABC) && words == Schedule(m)
    ensures Rounds(H0, words, 80) == Regs(0x42541B35, 0x5738D5E1, 0x21834873, 0x681E6DF6, 0xD8FDF6AD)
  {
    AbcRoundsTo40(m, words);
    AbcSchedule80(m);
    AbcRounds40(words);
    AbcRounds50(words);
    AbcRounds60(words);
    AbcRounds70(words);
  }

  lemma AbcValue(m: Block)
    requires m == Pad(ABC)
    ensures HashBlocks(m, 1) == Regs(0xA9993E36, 0x4706816A, 0xBA3E2571, 0x7850C26C, 0x9CD0D89D)
  {
    AbcRoundsTo80(m, Schedule(m));
    assert m[..64] == m;
    OneMoreBlock([], 0, m);
    assert [] + m == m;
  }

  // The digest is the five words, each with its most significant byte first.
  lemma DigestIs(h: Regs, k: nat)
    requires k < 5
    ensures var d, i := DigestBytes(h), 4 * k;
            Word(d[i], d[i + 1], d[i + 2], d[i + 3]) == WordAt(h, k)
  {
    WordOfBytes(WordAt(h, k));
    DigestAt(h, k, 0, 4 * k);
    DigestAt(h, k, 1, 4 * k + 1);
    DigestAt(h, k, 2, 4 * k + 2);
    DigestAt(h, k, 3, 4 * k + 3);
  }

  lemma DigestAt(h: Regs, k: nat, j: nat, i: nat)
    requires k < 5 && j < 4 && i == 4 * k + j
    ensures DigestBytes(h)[i] == WordByte(WordAt(h, k), j)
  {
    DivMod4(k, j, i);
  }

  lemma DivMod4(k: nat, j: nat, i: nat)
    requires j < 4 && i == 4 * k + j
    ensures i / 4 == k && i % 4 == j
  {}

  lemma WordOfBytes(w: bv32)
    ensures Word(WordByte(w, 0), WordByte(w, 1), WordByte(w, 2), WordByte(w, 3)) == w
  {}

  lemma AbcBytes(k: nat, j: nat)
    requires k < 5 && j < 4
    ensures WordByte(WordAt(Regs(0xA9993E36, 0x4706816A, 0xBA3E2571, 0x7850C26C, 0x9CD0D89D), k), j) == ABC_DIGEST[4 * k + j]
  {}

  const ABC_DIGEST: seq<byte> := [
    0xA9, 0x99, 0x3E, 0x36, 0x47, 0x06, 0x81, 0x6A, 0xBA, 0x3E,
    0x25, 0x71, 0x78, 0x50, 0xC2, 0x6C, 0x9C, 0xD0, 0xD8, 0x9D]

  lemma AbcDigestBytes(h: Regs)
    requires h == Regs(0xA9993E36, 0x4706816A, 0xBA3E2571, 0x7850C26C, 0x9CD0D89D)
    ensures DigestBytes(h) == ABC_DIGEST
  {
    forall i | 0 <= i < 20
      ensures DigestBytes(h)[i] == ABC_DIGEST[i]
    {
      DigestAt(h, i / 4, i % 4, i);
      AbcBytes(i / 4, i % 4);
    }
  }

  lemma OneBlock(s: seq<byte>, p: seq<byte>)
    requires p == Pad(s) && |p| == 64
    ensures Sha1(s) == DigestBytes(HashBlocks(p, 1))
  {}

  // FIPS 180-4, the example for SHA-1 of one block: the digest of "abc".
  lemma AbcDigest()
    ensures Sha1(ABC) == ABC_DIGEST
  {
    var p := Pad(ABC);
    AbcPadded(p);
    OneBlock(ABC, p);
    AbcValue(p);
    AbcDigestBytes(HashBlocks(p, 1));
  }
}
