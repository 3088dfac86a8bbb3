/** Bytes, memory copies and big-endian integers: what the C library and the
    network byte order functions provide to the client. */
module Bytes {

  type byte = bv8

  datatype Option<+T> = None | Some(value: T)

  const TWO32: nat := 0x1_0000_0000
  const TWO63: nat := 0x8000_0000_0000_0000
  const TWO64: nat := 0x1_0000_0000_0000_0000

  type uint32 = n: nat | n < TWO32

  // s with the bytes of data written over it from position p.
  function Splice(s: seq<byte>, p: nat, data: seq<byte>): (r: seq<byte>)
    requires p + |data| <= |s|
    ensures |r| == |s|
  {
    s[..p] + data + s[p + |data|..]
  }

  lemma SpliceAt(s: seq<byte>, p: nat, data: seq<byte>, i: nat)
    requires p + |data| <= |s| && i < |s|
    ensures Splice(s, p, data)[i] == if p <= i < p + |data| then data[i - p] else s[i]
  {}

  function ByteVal(b: byte): (n: nat)
    ensures n < 256
  {
    b as int
  }

  // Defined by counting up, so that proofs about integers never meet an
  // integer-to-bit-vector conversion.
  function ByteOf(n: nat): (b: byte)
    requires n < 256
  {
    if n == 0 then 0 else ByteOf(n - 1) + 1
  }

  lemma {:induction false} ByteValOf(n: nat)
    requires n < 256
    ensures ByteVal(ByteOf(n)) == n
  {
    if n > 0 {
      ByteValOf(n - 1);
    }
  }

  /** The `width` low-order base-256 digits of n, most significant first. */
  function BigEndian(n: nat, width: nat): (s: seq<byte>)
    ensures |s| == width
  {
    if width == 0 then [] else BigEndian(n / 256, width - 1) + [ByteOf(n % 256)]
  }

  function FromBigEndian(s: seq<byte>): nat {
    if |s| == 0 then 0 else FromBigEndian(s[..|s| - 1]) * 256 + ByteVal(s[|s| - 1])
  }

  function Pow256(width: nat): (p: nat)
    ensures p > 0
  {
    if width == 0 then 1 else 256 * Pow256(width - 1)
  }

  lemma {:induction false} BigEndianRoundTrip(n: nat, width: nat)
    requires n < Pow256(width)
    ensures FromBigEndian(BigEndian(n, width)) == n
  {
    if width > 0 {
      BigEndianRoundTrip(n / 256, width - 1);
      ByteValOf(n % 256);
      assert BigEndian(n, width)[..width - 1] == BigEndian(n / 256, width - 1);
    }
  }

  // A byte is the number it stands for.
  lemma ByteIs(b: byte, n: nat)
    requires n < 256
    ensures ByteVal(b) == b as int && ByteOf(n) as int == n && ByteOf(ByteVal(b)) == b
  {
    ByteValOf(n);
    ByteValOf(ByteVal(b));
  }

  lemma DivMod256(n: nat, v: nat)
    requires v < 256
    ensures (n * 256 + v) / 256 == n && (n * 256 + v) % 256 == v
  {}

  // The bytes are those of the number, most significant first.
  ghost predicate Spells(s: seq<byte>, n: nat) {
    FromBigEndian(s) == n && BigEndian(n, |s|) == s
  }

  // One more byte, at the end.
  lemma OneMoreByte(s: seq<byte>, b: byte, n: nat, s': seq<byte>, n': nat)
    requires Spells(s, n) && s' == s + [b] && n' == n * 256 + ByteVal(b)
    ensures Spells(s', n')
  {
    ByteIs(b, 0);
    DivMod256(n, ByteVal(b));
    assert s'[..|s|] == s && s'[|s'| - 1] == b;
  }

  lemma {:induction false} FromBigEndianBound(s: seq<byte>)
    ensures FromBigEndian(s) < Pow256(|s|)
  {
    if |s| > 0 {
      FromBigEndianBound(s[..|s| - 1]);
    }
  }

  lemma Pow256Four()
    ensures Pow256(4) == TWO32
  {
    assert Pow256(2) == 0x1_0000;
  }

  lemma BigEndian32RoundTrip(n: nat)
    requires n < TWO32
    ensures FromBigEndian(BigEndian(n, 4)) == n
  {
    Pow256Four();
    BigEndianRoundTrip(n, 4);
  }

  lemma BigEndian32Bound(s: seq<byte>)
    requires |s| == 4
    ensures FromBigEndian(s) < TWO32
  {
    Pow256Four();
    FromBigEndianBound(s);
  }

  lemma SliceJoin<T>(s: seq<T>, a: nat, b: nat, c: nat)
    requires a <= b <= c <= |s|
    ensures s[a..b] + s[b..c] == s[a..c]
  {}

  lemma ConcatAssoc<T>(a: seq<T>, b: seq<T>, c: seq<T>)
    ensures a + b + c == a + (b + c)
  {}

  lemma SliceOfSlice<T>(s: seq<T>, a: nat, b: nat, i: nat, k: nat)
    requires a <= b <= |s| && i <= k <= b - a
    ensures s[a..b][i..k] == s[a + i..a + k]
  {
    var t := s[a..b];
    forall x | 0 <= x < k - i
      ensures t[i..k][x] == s[a + i..a + k][x]
    {
      assert t[i..k][x] == t[i + x] == s[a + i + x];
    }
  }

  /** memcpy between two distinct arrays. */
  method CopyBytes(dst: array<byte>, at: nat, src: array<byte>, from: nat, len: nat)
    requires dst != src
    requires at + len <= dst.Length && from + len <= src.Length
    modifies dst
    ensures dst[..] == old(dst[..at]) + src[from..from + len] + old(dst[at + len..])
    ensures dst[..at + len] == old(dst[..at]) + src[from..from + len]
  {
    forall k | 0 <= k < len {
      dst[at + k] := src[from + k];
    }
    assert dst[at..at + len] == src[from..from + len];
    assert dst[..] == dst[..at] + dst[at..at + len] + dst[at + len..];
    assert dst[..at] == old(dst[..at]);
    assert dst[at + len..] == old(dst[at + len..]);
  }
}
