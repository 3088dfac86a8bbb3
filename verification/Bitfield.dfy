/** src/bitfield_macro.h, and the two loops that pack and unpack a bitfield
    message (src/peer_msg.cpp). */
module Bitfield {
  import opened Bytes

  // BITFIELD_NUM_BYTES
  function NumBytes(len: nat): nat {
    len / 8 + if len % 8 != 0 then 1 else 0
  }

  // 1 << (CHAR_BIT - (index % CHAR_BIT) - 1)
  function Mask(j: nat): byte
    requires j < 8
  {
    1 << (8 - j - 1)
  }

  predicate Bit(x: byte, j: nat)
    requires j < 8
  {
    x & Mask(j) != 0
  }

  // BITFIELD_ISSET
  predicate IsSet(index: nat, buff: seq<byte>)
    requires index / 8 < |buff|
  {
    Bit(buff[index / 8], index % 8)
  }

  lemma Masks()
    ensures Mask(0) == 128 && Mask(1) == 64 && Mask(2) == 32 && Mask(3) == 16
    ensures Mask(4) == 8 && Mask(5) == 4 && Mask(6) == 2 && Mask(7) == 1
  {}

  lemma MaskSet(x: byte, j: nat, k: nat)
    requires j < 8 && k < 8
    ensures Bit(x | Mask(j), k) == (j == k || Bit(x, k))
  {
    Masks();
  }

  lemma MaskClear(x: byte, j: nat, k: nat)
    requires j < 8 && k < 8
    ensures Bit(x & !Mask(j), k) == (j != k && Bit(x, k))
  {
    Masks();
  }

  // A byte is determined by its eight bits.
  lemma SameBits(x: byte, y: byte)
    requires forall j: nat | j < 8 :: Bit(x, j) == Bit(y, j)
    ensures x == y
  {
    Masks();
    assert Bit(x, 0) == Bit(y, 0) && Bit(x, 1) == Bit(y, 1) && Bit(x, 2) == Bit(y, 2) && Bit(x, 3) == Bit(y, 3);
    assert Bit(x, 4) == Bit(y, 4) && Bit(x, 5) == Bit(y, 5) && Bit(x, 6) == Bit(y, 6) && Bit(x, 7) == Bit(y, 7);
  }

  /** Writes one bit and leaves all others alone. */
  ghost predicate BitWritten(before: seq<byte>, after: seq<byte>, index: nat, bit: bool) {
    && |after| == |before|
    && index / 8 < |after| && IsSet(index, after) == bit
    && forall k: nat | k / 8 < |after| && k != index :: IsSet(k, after) == IsSet(k, before)
  }

  lemma ByteWritten(before: seq<byte>, b: byte, index: nat, bit: bool)
    requires index / 8 < |before|
    requires forall j: nat | j < 8 ::
               Bit(b, j) == if j == index % 8 then bit else Bit(before[index / 8], j)
    ensures BitWritten(before, before[index / 8 := b], index, bit)
  {}

  // BITFIELD_SET
  method Set(index: nat, buff: array<byte>)
    requires index / 8 < buff.Length
    modifies buff
    ensures BitWritten(old(buff[..]), buff[..], index, true)
  {
    var b := buff[index / 8] | Mask(index % 8);
    forall k: nat | k < 8 {
      MaskSet(buff[index / 8], index % 8, k);
    }
    ByteWritten(buff[..], b, index, true);
    buff[index / 8] := b;
  }

  // BITFIELD_CLR
  method Clear(index: nat, buff: array<byte>)
    requires index / 8 < buff.Length
    modifies buff
    ensures BitWritten(old(buff[..]), buff[..], index, false)
  {
    var b := buff[index / 8] & !Mask(index % 8);
    forall k: nat | k < 8 {
      MaskClear(buff[index / 8], index % 8, k);
    }
    ByteWritten(buff[..], b, index, false);
    buff[index / 8] := b;
  }

  /** The bits of a bitfield, most significant bit of the first byte first,
      and zero in the spare bits of the last byte. */
  ghost predicate Packs(bits: seq<bool>, bytes: seq<byte>) {
    && |bytes| == NumBytes(|bits|)
    && forall k: nat | k / 8 < |bytes| :: IsSet(k, bytes) == (k < |bits| && bits[k])
  }

  lemma PacksUnique(bits: seq<bool>, x: seq<byte>, y: seq<byte>)
    requires Packs(bits, x) && Packs(bits, y)
    ensures x == y
  {
    forall i | 0 <= i < |x|
      ensures x[i] == y[i]
    {
      forall j: nat | j < 8
        ensures Bit(x[i], j) == Bit(y[i], j)
      {
        var k := 8 * i + j;
        assert k / 8 == i && k % 8 == j;
        assert IsSet(k, x) == IsSet(k, y);
      }
      SameBits(x[i], y[i]);
    }
  }

  // Byte i of a packed bitfield, from its first n bits.
  function PackedByte(bits: seq<bool>, i: nat, n: nat): byte
    requires n <= 8
  {
    if n == 0 then 0
    else PackedByte(bits, i, n - 1) | (if 8 * i + n - 1 < |bits| && bits[8 * i + n - 1] then Mask(n - 1) else 0)
  }

  lemma {:induction false} PackedByteBits(bits: seq<bool>, i: nat, n: nat, j: nat)
    requires n <= 8 && j < 8
    ensures Bit(PackedByte(bits, i, n), j) == (j < n && 8 * i + j < |bits| && bits[8 * i + j])
  {
    if n > 0 {
      PackedByteBits(bits, i, n - 1, j);
      MaskSet(PackedByte(bits, i, n - 1), n - 1, j);
    }
  }

  function Packed(bits: seq<bool>): (bytes: seq<byte>)
    ensures |bytes| == NumBytes(|bits|)
  {
    seq(NumBytes(|bits|), i requires 0 <= i => PackedByte(bits, i, 8))
  }

  lemma PackedPacks(bits: seq<bool>)
    ensures Packs(bits, Packed(bits))
  {
    forall k: nat | k / 8 < NumBytes(|bits|)
      ensures IsSet(k, Packed(bits)) == (k < |bits| && bits[k])
    {
      PackedByteBits(bits, k / 8, 8, k % 8);
    }
  }

  /** The loop of peer_msg_send. */
  method Pack(bits: seq<bool>) returns (buff: array<byte>)
    ensures fresh(buff) && buff[..] == Packed(bits)
  {
    buff := new byte[NumBytes(|bits|)](_ => 0);
    assert forall k: nat | k / 8 < buff.Length :: !IsSet(k, buff[..]);
    for i := 0 to |bits|
      invariant forall k: nat | k / 8 < buff.Length :: IsSet(k, buff[..]) == (k < i && bits[k])
    {
      if bits[i] {
        Set(i, buff);
      } else {
        Clear(i, buff);
      }
    }
    PackedPacks(bits);
    PacksUnique(bits, buff[..], Packed(bits));
  }

  function Unpacked(bytes: seq<byte>): (bits: seq<bool>)
    ensures |bits| == 8 * |bytes|
  {
    seq(8 * |bytes|, k requires 0 <= k < 8 * |bytes| => IsSet(k, bytes))
  }

  /** The loop of peer_msg_recv_pastlen. */
  method Unpack(buff: seq<byte>) returns (bits: seq<bool>)
    ensures bits == Unpacked(buff)
  {
    bits := seq(8 * |buff|, _ => false);
    for i := 0 to |bits|
      invariant |bits| == 8 * |buff|
      invariant forall k | 0 <= k < i :: bits[k] == IsSet(k, buff)
    {
      bits := bits[i := IsSet(i, buff)];
    }
  }

  // Unpacking what was packed gives the bits back, then zeros.
  lemma UnpackPack(bits: seq<bool>, bytes: seq<byte>)
    requires Packs(bits, bytes)
    ensures Unpacked(bytes) == bits + seq(8 * |bytes| - |bits|, _ => false)
  {}
}
