/** The streaming interface of src/sha1.cpp: init, update and finish. */
module Sha1Stream {
  import opened Bytes
  import opened Sha1Spec
  import Sha1Rounds

  // The hash value after each block of s.
  ghost predicate AfterBlock(hs: seq<Regs>, s: seq<byte>, n: nat) {
    64 * n <= |s| && n < |hs| && hs[n] == HashBlocks(s, n)
  }

  ghost predicate IsChain(hs: seq<Regs>, s: seq<byte>) {
    && |hs| == |s| / 64 + 1
    && forall n: nat {:trigger AfterBlock(hs, s, n)} | n < |hs| :: AfterBlock(hs, s, n)
  }

  lemma EmptyChain()
    ensures IsChain([H0], [])
  {}

  lemma ExtendChain(hs: seq<Regs>, s: seq<byte>, d: seq<byte>) returns (hs': seq<Regs>)
    requires IsChain(hs, s)
    ensures IsChain(hs', s + d)
    ensures hs'[|s| / 64] == hs[|s| / 64]
  {
    var t := s + d;
    hs' := seq(|t| / 64 + 1, n requires 0 <= n < |t| / 64 + 1 => HashBlocks(t, n));
    assert AfterBlock(hs, s, |s| / 64);
    HashBlocksPrefix(s, d, |s| / 64);
  }

  lemma ChainEnd(hs: seq<Regs>, s: seq<byte>)
    requires IsChain(hs, Pad(s))
    ensures DigestBytes(hs[|Pad(s)| / 64]) == Sha1(s)
  {
    assert AfterBlock(hs, Pad(s), |Pad(s)| / 64);
  }

  // The two 32-bit words keep counting bits across the carry.
  lemma CountCarry(n: nat, len: nat, c0: nat, c1: nat)
    requires len < TWO32 && c0 < TWO32 && c1 < TWO32
    requires c1 * TWO32 + c0 == 8 * n % TWO64
    ensures var low := (c0 + len * 8 % TWO32) % TWO32;
            var high := ((if low < c0 then (c1 + 1) % TWO32 else c1) + len / 0x2000_0000) % TWO32;
            high * TWO32 + low == 8 * (n + len) % TWO64
  {
    var l, h := len * 8 % TWO32, len / 0x2000_0000;
    var low := (c0 + l) % TWO32;
    var carry := if low < c0 then 1 else 0;
    LowCarry(c0, l, low);
    HighCarry(c1, carry, h);
    CountWords(n, len, c0, c1, l, h, low, carry, (c1 + carry + h) % TWO32);
  }

  lemma CountWords(n: nat, len: nat, c0: nat, c1: nat, l: nat, h: nat, low: nat, carry: nat, high: nat)
    requires c1 * TWO32 + c0 == 8 * n % TWO64
    requires l == len * 8 % TWO32 && h == len / 0x2000_0000 && low < TWO32
    requires c0 + l == low + carry * TWO32 && high == (c1 + carry + h) % TWO32
    ensures high * TWO32 + low == 8 * (n + len) % TWO64
  {
    var over := (c1 + carry + h) / TWO32;
    BitsInWords(len, l, h);
    InWords(c1 + carry + h, over, high);
    WordsAdd(c0, c1, l, h, len, low, carry, high, over);
    SumMod(8 * n, c1 * TWO32 + c0, len * 8, over, high * TWO32 + low);
  }

  lemma BitsInWords(len: nat, l: nat, h: nat)
    requires l == len * 8 % TWO32 && h == len / 0x2000_0000
    ensures len * 8 == h * TWO32 + l
  {}

  lemma InWords(x: nat, over: nat, high: nat)
    requires over == x / TWO32 && high == x % TWO32
    ensures x == over * TWO32 + high && high < TWO32
  {}

  // The carry test of the low word.
  lemma LowCarry(c0: nat, l: nat, low: nat)
    requires c0 < TWO32 && l < TWO32 && low == (c0 + l) % TWO32
    ensures c0 + l == low + (if low < c0 then 1 else 0) * TWO32
  {}

  // The carry may be added to the high word before or after it wraps around.
  lemma HighCarry(c1: nat, carry: nat, h: nat)
    requires c1 < TWO32 && carry <= 1
    ensures ((if carry == 1 then (c1 + 1) % TWO32 else c1) + h) % TWO32 == (c1 + carry + h) % TWO32
  {
    var a := c1 + carry;
    assert a + h == a / TWO32 * TWO32 + (a % TWO32 + h);
  }

  lemma WordsAdd(c0: nat, c1: nat, l: nat, h: nat, len: nat, low: nat, carry: nat, high: nat, over: nat)
    requires len * 8 == h * TWO32 + l && c0 + l == low + carry * TWO32 && c1 + carry + h == over * TWO32 + high
    ensures c1 * TWO32 + c0 + len * 8 == over * TWO64 + (high * TWO32 + low)
  {}

  lemma SumMod(a: nat, m: nat, b: nat, over: nat, r: nat)
    requires a % TWO64 == m && m + b == over * TWO64 + r && r < TWO64
    ensures (a + b) % TWO64 == r
  {
    assert a + b == (a / TWO64 + over) * TWO64 + r;
  }

  lemma TailLength(n: nat, c0: nat, c1: nat)
    requires c0 < TWO32 && c1 * TWO32 + c0 == 8 * n % TWO64
    ensures c0 / 8 % 64 == n % 64
  {
    var q := 8 * n / TWO64;
    var k := q * 0x80_0000_0000_0000 + c1 * 0x80_0000;
    assert c0 == 8 * (n - 64 * k);
    Mod64(n, k);
  }

  lemma Mod64(n: int, k: int)
    ensures (n - 64 * k) % 64 == n % 64
  {
    assert n - 64 * k == 64 * (n / 64 - k) + n % 64;
  }

  // Where the blocks of before + d come from.
  lemma BlockOfTail(before: seq<byte>, d: seq<byte>, q: nat, j: nat, i: nat)
    requires |before| == 64 * q + j && i <= |d|
    ensures (before + d)[64 * q..64 * q + j + i] == before[64 * q..] + d[..i]
  {}

  lemma BlockOfData(before: seq<byte>, data: seq<byte>, off: nat, len: nat, i: nat, k: nat)
    requires off + len <= |data| && i <= k <= len
    ensures data[off + i..off + k] == (before + data[off..off + len])[|before| + i..|before| + k]
  {
    var d := data[off..off + len];
    SliceOfSlice(data, off, off + len, i, k);
    assert (before + d)[|before| + i..|before| + k] == d[i..k];
  }

  lemma DivMod64(n: nat, q: nat, r: nat)
    requires n == 64 * q + r && r < 64
    ensures n / 64 == q && n % 64 == r
  {}

  method AbsorbBlock(state: array<bv32>, data: array<byte>, at: nat,
                     ghost hs: seq<Regs>, ghost s: seq<byte>, ghost n: nat)
    requires state.Length == 5 && at + 64 <= data.Length && IsChain(hs, s)
    requires 64 * n + 64 <= |s| && data[at..at + 64] == s[64 * n..64 * n + 64]
    requires Sha1Rounds.RegsOf(state[..]) == hs[n]
    modifies state
    ensures Sha1Rounds.RegsOf(state[..]) == hs[n + 1]
  {
    assert AfterBlock(hs, s, n) && AfterBlock(hs, s, n + 1);
    Sha1Rounds.Transform(state, data, at);
  }

  class Context {
    const state: array<bv32>
    // count[0] and count[1]: the bit count modulo 2^64 as two 32-bit words.
    var count0: nat
    var count1: nat
    const buffer: array<byte>
    // Everything hashed so far.
    ghost var message: seq<byte>
    // The hash value after each block of the message.
    ghost var hashes: seq<Regs>

    ghost predicate CountIs(n: nat)
      reads this
    {
      && count0 < TWO32 && count1 < TWO32
      && count1 * TWO32 + count0 == 8 * n % TWO64
    }

    ghost predicate Valid()
      reads this, state, buffer
    {
      && state.Length == 5 && buffer.Length == 64
      && CountIs(|message|)
      && IsChain(hashes, message)
      && Sha1Rounds.RegsOf(state[..]) == hashes[|message| / 64]
      && buffer[..|message| % 64] == message[64 * (|message| / 64)..]
    }

    constructor ()
      ensures Valid() && message == []
      ensures fresh(state) && fresh(buffer)
    {
      state := new bv32[5] [0x67452301, 0xEFCDAB89, 0x98BADCFE, 0x10325476, 0xC3D2E1F0];
      count0, count1 := 0, 0;
      buffer := new byte[64];
      message, hashes := [], [H0];
      EmptyChain();
    }

    // The then-branch of update: completes the buffered block, then hashes the
    // whole blocks that remain and returns how much of the data they took.
    method AbsorbBlocks(j: nat, data: array<byte>, off: nat, len: nat, ghost before: seq<byte>,
                        ghost q: nat, ghost s: seq<byte>, ghost hs: seq<Regs>)
      returns (i: nat, ghost n: nat)
      requires state.Length == 5 && buffer.Length == 64 && data != buffer && off + len <= data.Length
      requires |before| == 64 * q + j && j < 64 && buffer[..j] == before[64 * q..] && j + len > 63
      requires s == before + data[off..off + len] && IsChain(hs, s)
      requires Sha1Rounds.RegsOf(state[..]) == hs[q]
      modifies state, buffer
      ensures i <= len < i + 64 && |before| + i == 64 * n
      ensures Sha1Rounds.RegsOf(state[..]) == hs[n]
    {
      i := 64 - j;
      CopyBytes(buffer, j, data, off, i);
      SliceOfSlice(data[..], off, off + len, 0, i);
      BlockOfTail(before, data[off..off + len], q, j, i);
      AbsorbBlock(state, buffer, 0, hs, s, q);
      n := q + 1;
      while i + 63 < len
        invariant i <= len && 64 * n == |before| + i
        invariant Sha1Rounds.RegsOf(state[..]) == hs[n]
      {
        BlockOfData(before, data[..], off, len, i, i + 64);
        assert data[..][off + i..off + i + 64] == data[off + i..off + i + 64];
        AbsorbBlock(state, data, off + i, hs, s, n);
        n := n + 1;
        i := i + 64;
      }
    }

    // All of update after the counting.
    method Absorb(j0: nat, data: array<byte>, off: nat, len: nat, ghost before: seq<byte>,
                  ghost q: nat, ghost s: seq<byte>, ghost hs: seq<Regs>)
      returns (ghost n: nat, ghost j1: nat)
      requires state.Length == 5 && buffer.Length == 64 && data != buffer && off + len <= data.Length
      requires |before| == 64 * q + j0 && j0 < 64 && buffer[..j0] == before[64 * q..]
      requires s == before + data[off..off + len] && IsChain(hs, s)
      requires Sha1Rounds.RegsOf(state[..]) == hs[q]
      modifies state, buffer
      ensures |s| == 64 * n + j1 && j1 < 64
      ensures Sha1Rounds.RegsOf(state[..]) == hs[n]
      ensures buffer[..j1] == s[64 * n..]
    {
      var j, i := j0, 0;
      n := q;
      if j + len > 63 {
        i, n := AbsorbBlocks(j, data, off, len, before, q, s, hs);
        j := 0;
        BlockOfData(before, data[..], off, len, i, len);
        assert s[64 * n..] == buffer[..j] + data[..][off + i..off + len];
      } else {
        BlockOfTail(before, data[off..off + len], q, j, len);
        assert s[64 * n..] == buffer[..j] + data[..][off + i..off + len];
      }
      j1 := j + len - i;
      CopyBytes(buffer, j, data, off + i, len - i);
    }

    // The first half of update: counts the bits and returns the number of
    // bytes that were in the buffer.
    method AddCount(len: nat, ghost n: nat) returns (j: nat)
      requires CountIs(n) && len < TWO32
      modifies this`count0, this`count1
      ensures CountIs(n + len) && j == n % 64
    {
      j := count0;
      count0 := (count0 + len * 8 % TWO32) % TWO32;
      if count0 < j {
        count1 := (count1 + 1) % TWO32;
      }
      count1 := (count1 + len / 0x2000_0000) % TWO32;
      CountCarry(n, len, j, old(count1));
      TailLength(n, j, old(count1));
      j := j / 8 % 64;
    }

    method Update(data: array<byte>, off: nat, len: nat)
      requires Valid() && data != buffer && off + len <= data.Length
      requires len + 63 < TWO32
      modifies this, state, buffer
      ensures Valid() && message == old(message) + data[off..off + len]
    {
      ghost var before := message;
      ghost var s := before + data[off..off + len];
      ghost var hs := ExtendChain(hashes, before, data[off..off + len]);
      var j := AddCount(len, |before|);
      message, hashes := s, hs;
      ghost var n, j1 := Absorb(j, data, off, len, before, |before| / 64, s, hs);
      DivMod64(|s|, n, j1);
    }

    method UpdateByte(c: byte)
      requires Valid()
      modifies this, state, buffer
      ensures Valid() && message == old(message) + [c]
    {
      var data := new byte[1];
      data[0] := c;
      Update(data, 0, 1);
      assert data[0..0 + 1] == [c];
    }

    // The loop of sha1_compute.
    method UpdateEach(str: array<byte>, len: int)
      requires Valid() && message == [] && len <= str.Length && str != buffer
      modifies this, state, buffer
      ensures Valid() && message == str[..if len > 0 then len else 0]
    {
      ghost var all := str[..];
      var i := 0;
      while i < len
        invariant 0 <= i <= str.Length && (i <= len || i == 0)
        invariant Valid() && message == all[..i]
      {
        assert all[..i] + str[i..i + 1] == all[..i + 1];
        Update(str, i, 1);
        i := i + 1;
      }
    }

    // The padding loop of finish.
    method UpdateZeros(ghost s: seq<byte>)
      requires Valid() && message == s + [0x80]
      modifies this, state, buffer
      ensures Valid() && message == s + [0x80] + Zeros(ZeroBytes(|s|))
    {
      ghost var zeros := 0;
      while count0 / 8 % 64 != 56
        invariant Valid() && message == s + [0x80] + Zeros(zeros)
        invariant zeros <= ZeroBytes(|s|)
        decreases ZeroBytes(|s|) - zeros
      {
        TailLength(|message|, count0, count1);
        UpdateByte(0);
        zeros := zeros + 1;
        assert s + [0x80] + Zeros(zeros - 1) + [0] == s + [0x80] + Zeros(zeros);
      }
      TailLength(|message|, count0, count1);
      ZeroBytesLeast(|s|, zeros);
    }

    // The loop of finish that writes count, most significant byte first.
    method CountBytes() returns (finalcount: array<byte>)
      requires Valid()
      ensures fresh(finalcount) && finalcount[..] == LengthField(|message|)
    {
      finalcount := new byte[8];
      for i := 0 to 8
        invariant forall j | 0 <= j < i :: finalcount[j] == CountByte(count1, count0, j)
      {
        finalcount[i] := CountByte(count1, count0, i);
      }
      CountIsLength(count1, count0, |message|, finalcount[..]);
    }

    method Finish(digest: array<byte>)
      requires Valid() && digest.Length == 20 && digest != buffer
      modifies this, state, buffer, digest
      ensures digest[..] == Sha1(old(message))
    {
      ghost var s := message;
      var finalcount := CountBytes();
      UpdateByte(0x80);
      UpdateZeros(s);
      Update(finalcount, 0, 8);
      assert finalcount[0..0 + 8] == finalcount[..];
      PadIs(s);
      ChainEnd(hashes, s);
      WriteDigest(digest);
    }

    method WriteDigest(digest: array<byte>)
      requires state.Length == 5 && digest.Length == 20
      modifies digest
      ensures digest[..] == DigestBytes(Sha1Rounds.RegsOf(state[..]))
    {
      for i := 0 to 20
        invariant digest[..i] == DigestBytes(Sha1Rounds.RegsOf(state[..]))[..i]
      {
        digest[i] := WordByte(state[i / 4], i % 4);
        assert state[i / 4] == WordAt(Sha1Rounds.RegsOf(state[..]), i / 4);
      }
    }
  }

  /** sha1_compute: the message is fed to update byte by byte. */
  method Sha1Compute(str: array<byte>, len: int, hashOut: array<byte>)
    requires len <= str.Length && hashOut.Length == 20
    modifies hashOut
    ensures hashOut[..] == Sha1(old(str[..if len > 0 then len else 0]))
  {
    var context := new Context();
    context.UpdateEach(str, len);
    context.Finish(hashOut);
  }

  // (n >> (k * 8)) & 255
  function ShiftDown(n: nat, k: nat): (b: nat)
    requires k < 4
    ensures b < 256
  {
    if k == 0 then n % 256
    else if k == 1 then n / 0x100 % 256
    else if k == 2 then n / 0x1_0000 % 256
    else n / 0x100_0000 % 256
  }

  function CountByte(c1: nat, c0: nat, i: nat): byte
    requires i < 8
  {
    ByteOf(ShiftDown(if i >= 4 then c0 else c1, 3 - i % 4))
  }

  lemma CountBytesAre(c1: nat, c0: nat, s: seq<byte>)
    requires |s| == 8 && forall i | 0 <= i < 8 :: s[i] == CountByte(c1, c0, i)
    ensures s == BigEndian(c1, 4) + BigEndian(c0, 4)
  {
    BigEndianFour(c1);
    BigEndianFour(c0);
    assert s[0] == CountByte(c1, c0, 0) && s[1] == CountByte(c1, c0, 1)
        && s[2] == CountByte(c1, c0, 2) && s[3] == CountByte(c1, c0, 3);
    assert s[4] == CountByte(c1, c0, 4) && s[5] == CountByte(c1, c0, 5)
        && s[6] == CountByte(c1, c0, 6) && s[7] == CountByte(c1, c0, 7);
    FourAndFour(s, BigEndian(c1, 4), BigEndian(c0, 4));
  }

  lemma CountIsLength(c1: nat, c0: nat, n: nat, s: seq<byte>)
    requires c0 < TWO32 && c1 * TWO32 + c0 == 8 * n % TWO64
    requires |s| == 8 && forall i | 0 <= i < 8 :: s[i] == CountByte(c1, c0, i)
    ensures s == LengthField(n)
  {
    var bits := 8 * n % TWO64;
    CountBytesAre(c1, c0, s);
    BigEndianJoin(c1, c0);
    assert s == BigEndian(bits, 8);
  }

  lemma FourAndFour(s: seq<byte>, a: seq<byte>, b: seq<byte>)
    requires |s| == 8 && |a| == |b| == 4
    requires a == [s[0], s[1], s[2], s[3]] && b == [s[4], s[5], s[6], s[7]]
    ensures s == a + b
  {}

  lemma PadIs(s: seq<byte>)
    ensures s + [0x80] + Zeros(ZeroBytes(|s|)) + LengthField(|s|) == Pad(s)
  {}

  lemma BigEndianFour(n: nat)
    ensures BigEndian(n, 4) == [ByteOf(ShiftDown(n, 3)), ByteOf(ShiftDown(n, 2)),
                                ByteOf(ShiftDown(n, 1)), ByteOf(ShiftDown(n, 0))]
  {
    var n1, n2, n3 := n / 256, n / 0x1_0000, n / 0x100_0000;
    assert n2 == n1 / 256 && n3 == n2 / 256;
    assert BigEndian(n3, 1) == BigEndian(n3 / 256, 0) + [ByteOf(n3 % 256)] == [ByteOf(n3 % 256)];
    assert BigEndian(n2, 2) == BigEndian(n3, 1) + [ByteOf(n2 % 256)];
    assert BigEndian(n1, 3) == BigEndian(n2, 2) + [ByteOf(n1 % 256)];
    assert BigEndian(n, 4) == BigEndian(n1, 3) + [ByteOf(n % 256)];
  }

  lemma BigEndianJoin(high: nat, low: nat)
    requires low < TWO32
    ensures BigEndian(high, 4) + BigEndian(low, 4) == BigEndian(high * TWO32 + low, 8)
  {
    Pow256Four();
    BigEndianSplit(high, low, 4, high * TWO32 + low);
  }

  lemma {:induction false} BigEndianSplit(high: nat, low: nat, k: nat, m: nat)
    requires low < Pow256(k) && m == high * Pow256(k) + low
    ensures BigEndian(m, 4 + k) == BigEndian(high, 4) + BigEndian(low, k)
  {
    if k == 0 {
      assert m == high;
    } else {
      LastDigit(high, Pow256(k - 1), low);
      BigEndianSplit(high, low / 256, k - 1, m / 256);
      LastByte(m, 3 + k);
      LastByte(low, k - 1);
      ConcatAssoc(BigEndian(high, 4), BigEndian(low / 256, k - 1), [ByteOf(low % 256)]);
    }
  }

  lemma LastByte(n: nat, width: nat)
    ensures BigEndian(n, width + 1) == BigEndian(n / 256, width) + [ByteOf(n % 256)]
  {}

  lemma LastDigit(high: nat, p: nat, low: nat)
    ensures (high * (256 * p) + low) / 256 == high * p + low / 256
    ensures (high * (256 * p) + low) % 256 == low % 256
  {
    var x := high * p;
    assert high * (256 * p) == 256 * x;
  }
}
