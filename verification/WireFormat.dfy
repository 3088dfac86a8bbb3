/** The peer wire protocol in bytes: what each message looks like on the wire
    (BEP 3, and the PORT message of src/peer_msg.cpp), and the handshake. */
module WireFormat {
  import opened Bytes
  import opened Bitfield
  import opened PeerMsg
  import opened PeerWire
  import opened Torrent
  import Client

  lemma SmallBytes()
    ensures ByteOf(0) == 0 && ByteOf(1) == 1 && ByteOf(2) == 2 && ByteOf(3) == 3 && ByteOf(4) == 4
    ensures ByteOf(5) == 5 && ByteOf(6) == 6 && ByteOf(7) == 7 && ByteOf(9) == 9 && ByteOf(13) == 13
  {
    assert ByteOf(4) == 4 && ByteOf(8) == 8 && ByteOf(12) == 12;
  }

  /** Four bytes, the most significant first, are a number, both ways. */
  lemma FourBytes(a: byte, b: byte, c: byte, d: byte)
    ensures var n := ((ByteVal(a) * 256 + ByteVal(b)) * 256 + ByteVal(c)) * 256 + ByteVal(d);
            n < TWO32 && U32([a, b, c, d]) == n && BigEndian(n, 4) == [a, b, c, d]
  {
    var x := ByteVal(a);
    var y := x * 256 + ByteVal(b);
    var z := y * 256 + ByteVal(c);
    SpellsFour([a], [a, b], [a, b, c], [a, b, c, d], a, b, c, d, x, y, z, z * 256 + ByteVal(d));
  }

  lemma SpellsFour(s1: seq<byte>, s2: seq<byte>, s3: seq<byte>, s4: seq<byte>, a: byte, b: byte, c: byte, d: byte,
                   x: nat, y: nat, z: nat, n: nat)
    requires s1 == [a] && s2 == s1 + [b] && s3 == s2 + [c] && s4 == s3 + [d]
    requires x == ByteVal(a) && y == x * 256 + ByteVal(b) && z == y * 256 + ByteVal(c) && n == z * 256 + ByteVal(d)
    ensures Spells(s4, n)
  {
    OneMoreByte([], a, 0, s1, x);
    OneMoreByte(s1, b, x, s2, y);
    OneMoreByte(s2, c, y, s3, z);
    OneMoreByte(s3, d, z, s4, n);
  }

  lemma Prefix(n: nat, d: byte)
    requires n < 256 && ByteVal(d) == n
    ensures BigEndian(n, 4) == [0, 0, 0, d]
  {
    FourBytes(0, 0, 0, d);
  }

  /** What peer_msg_send puts on the wire, byte by byte: the length, the
      identifier of the message, and its payload. */
  lemma SentAsBytes(msg: Msg, pieces: nat)
    ensures match msg
            case KeepAlive => SentBytes(msg, pieces) == [0, 0, 0, 0]
            case Choke => SentBytes(msg, pieces) == [0, 0, 0, 1, 0]
            case Unchoke => SentBytes(msg, pieces) == [0, 0, 0, 1, 1]
            case Interested => SentBytes(msg, pieces) == [0, 0, 0, 1, 2]
            case NotInterested => SentBytes(msg, pieces) == [0, 0, 0, 1, 3]
            case Have(i) => SentBytes(msg, pieces) == [0, 0, 0, 5, 4] + BigEndian(i, 4)
            case BitfieldMsg(bits) => SentBytes(msg, pieces) == BigEndian(1 + NumBytes(pieces), 4) + [5] + Packed(bits)
            case Request(index, begin, length) =>
              SentBytes(msg, pieces) ==
              [0, 0, 0, 13, 6] + BigEndian(index, 4) + BigEndian(begin, 4) + BigEndian(length, 4)
            case Port(port) => SentBytes(msg, pieces) == [0, 0, 0, 5, 9] + BigEndian(port, 4)
            case _ => true
  {
    SmallBytes();
    match msg
    case KeepAlive => Prefix(0, 0);
    case Choke => OneByte(msg, pieces, 0);
    case Unchoke => OneByte(msg, pieces, 1);
    case Interested => OneByte(msg, pieces, 2);
    case NotInterested => OneByte(msg, pieces, 3);
    case Have(i) => Headed(msg, pieces, 5, 4, BigEndian(i, 4));
    case BitfieldMsg(bits) => assert Body(msg) == [ByteOf(5)] + Packed(bits);
    case Request(index, begin, length) => RequestParts(index, begin, length, pieces);
    case Port(port) => Headed(msg, pieces, 5, 9, BigEndian(port, 4));
    case _ =>
  }

  lemma OneByte(msg: Msg, pieces: nat, id: byte)
    requires ByteOf(1) == 1 && Payload(msg) == [] && !msg.KeepAlive?
    requires TypeOf(msg) == ByteVal(id) && MsgLength(TypeOf(msg), pieces) == 1
    ensures SentBytes(msg, pieces) == [0, 0, 0, 1, id]
  {
    ByteIs(id, 0);
    Prefix(1, 1);
    assert [0, 0, 0, 1, id] == [0, 0, 0, 1] + ([id] + []);
  }

  lemma Headed(msg: Msg, pieces: nat, len: byte, id: byte, payload: seq<byte>)
    requires Payload(msg) == payload && !msg.KeepAlive?
    requires TypeOf(msg) == ByteVal(id) && MsgLength(TypeOf(msg), pieces) == ByteVal(len)
    ensures SentBytes(msg, pieces) == [0, 0, 0, len, id] + payload
  {
    ByteIs(id, 0);
    Prefix(ByteVal(len), len);
    assert Body(msg) == [id] + payload;
    ConcatAssoc([0, 0, 0, len], [id], payload);
    assert [0, 0, 0, len] + [id] == [0, 0, 0, len, id];
  }

  lemma RequestParts(index: uint32, begin: uint32, length: uint32, pieces: nat)
    ensures SentBytes(Request(index, begin, length), pieces) ==
            [0, 0, 0, 13, 6] + BigEndian(index, 4) + BigEndian(begin, 4) + BigEndian(length, 4)
  {
    var a, b, c := BigEndian(index, 4), BigEndian(begin, 4), BigEndian(length, 4);
    Headed(Request(index, begin, length), pieces, 13, 6, a + b + c);
    ConcatAssoc([0, 0, 0, 13, 6], a, b);
    ConcatAssoc([0, 0, 0, 13, 6], a + b, c);
  }

  /** The same bytes are read as that message, whatever follows them. */
  lemma ReadFromBytes(t: TorrentInfo, n: uint32, begin: uint32, length: uint32, rest: seq<byte>)
    requires 0 < |t.pieces| && NumBytes(|t.pieces|) + 1 < TWO32
    ensures Reading(t, [0, 0, 0, 0] + rest) == Some(Read(KeepAlive, 4))
    ensures Reading(t, [0, 0, 0, 1, 0] + rest) == Some(Read(Choke, 5))
    ensures Reading(t, [0, 0, 0, 1, 1] + rest) == Some(Read(Unchoke, 5))
    ensures Reading(t, [0, 0, 0, 1, 2] + rest) == Some(Read(Interested, 5))
    ensures Reading(t, [0, 0, 0, 1, 3] + rest) == Some(Read(NotInterested, 5))
    ensures Reading(t, [0, 0, 0, 5, 4] + BigEndian(n, 4) + rest) == Some(Read(Have(n), 9))
    ensures Reading(t, [0, 0, 0, 13, 6] + BigEndian(n, 4) + BigEndian(begin, 4) + BigEndian(length, 4) + rest) ==
            Some(Read(Request(n, begin, length), 17))
    ensures Reading(t, [0, 0, 0, 5, 9] + BigEndian(n, 4) + rest) == Some(Read(Port(n), 9))
  {
    ReadBack(t, KeepAlive, rest);
    ReadBack(t, Choke, rest);
    ReadBack(t, Unchoke, rest);
    ReadBack(t, Interested, rest);
    ReadBack(t, NotInterested, rest);
    ReadBack(t, Have(n), rest);
    ReadBack(t, Request(n, begin, length), rest);
    ReadBack(t, Port(n), rest);
  }

  lemma ReadBack(t: TorrentInfo, msg: Msg, rest: seq<byte>)
    requires Sendable(msg) && !msg.BitfieldMsg? && 0 < |t.pieces| && NumBytes(|t.pieces|) + 1 < TWO32
    ensures match msg
            case KeepAlive => Reading(t, [0, 0, 0, 0] + rest) == Some(Read(msg, 4))
            case Choke => Reading(t, [0, 0, 0, 1, 0] + rest) == Some(Read(msg, 5))
            case Unchoke => Reading(t, [0, 0, 0, 1, 1] + rest) == Some(Read(msg, 5))
            case Interested => Reading(t, [0, 0, 0, 1, 2] + rest) == Some(Read(msg, 5))
            case NotInterested => Reading(t, [0, 0, 0, 1, 3] + rest) == Some(Read(msg, 5))
            case Have(i) => Reading(t, [0, 0, 0, 5, 4] + BigEndian(i, 4) + rest) == Some(Read(msg, 9))
            case Request(index, begin, length) =>
              Reading(t, [0, 0, 0, 13, 6] + BigEndian(index, 4) + BigEndian(begin, 4) + BigEndian(length, 4) + rest) ==
              Some(Read(msg, 17))
            case Port(port) => Reading(t, [0, 0, 0, 5, 9] + BigEndian(port, 4) + rest) == Some(Read(msg, 9))
            case _ => true
  {
    SentAsBytes(msg, |t.pieces|);
    SentIsRead(t, msg, rest);
  }

  /** A bitfield message of the right length is read as the bits of its bytes. */
  lemma ReadBitfieldFromBytes(t: TorrentInfo, bytes: seq<byte>, rest: seq<byte>)
    requires 0 < |t.pieces| && |bytes| == NumBytes(|t.pieces|) && 1 + |bytes| < TWO32
    ensures Reading(t, BigEndian(1 + |bytes|, 4) + ([5] + bytes) + rest) ==
            Some(Read(BitfieldMsg(Unpacked(bytes)), 5 + |bytes|))
  {
    var body := [5] + bytes;
    PrefixOf(1 + |bytes|, body, rest);
    assert (body + rest)[1..1 + |bytes|] == bytes;
    ByteIs(5, 5);
  }

  /** A CANCEL message fails an assertion, and a message of an unknown kind is
      refused. */
  lemma RefusedBytes(t: TorrentInfo, id: byte, len: uint32, rest: seq<byte>)
    requires len > 0
    ensures id >= 8 && id != 9 ==> Reading(t, BigEndian(len, 4) + [id] + rest) == None
    ensures Aborts(t, [8] + rest, 1) && (id > 9 ==> !Aborts(t, [id] + rest, len))
  {
    PrefixOf(len, [id], rest);
    ByteIs(id, 0);
    ByteIs(8, 0);
  }

  /** Which length each kind of message may announce. */
  lemma LengthsAre(pieces: nat, len: nat)
    ensures ValidLen(0, pieces, len) <==> len == 1
    ensures ValidLen(1, pieces, len) <==> len == 1
    ensures ValidLen(2, pieces, len) <==> len == 1
    ensures ValidLen(3, pieces, len) <==> len == 1
    ensures ValidLen(4, pieces, len) <==> len == 5
    ensures ValidLen(5, pieces, len) <==> 8 * (len - 2) < pieces <= 8 * (len - 1)
    ensures ValidLen(6, pieces, len) <==> len == 13
    ensures ValidLen(7, pieces, len) <==> 10 <= len <= 16393
    ensures ValidLen(8, pieces, len) <==> len == 1
    ensures ValidLen(9, pieces, len) <==> len == 5
  {}

  /** The bytes of a PIECE message. */
  lemma PieceBytesAre(index: uint32, begin: uint32, data: seq<byte>)
    ensures PieceText(index, begin, data) ==
            BigEndian(9 + |data|, 4) + [7] + BigEndian(index, 4) + BigEndian(begin, 4) + data
  {
    SmallBytes();
    var p, a, b := BigEndian(9 + |data|, 4), BigEndian(index, 4), BigEndian(begin, 4);
    ConcatAssoc(p, [7] + a + b, data);
    ConcatAssoc(p, [7] + a, b);
    ConcatAssoc(p, [7], a);
  }

  /** A bitfield is packed with the first piece in the highest bit of the first
      byte, in as few bytes as hold it, whose spare bits are 0. */
  lemma BitsAre(bits: seq<bool>, i: nat)
    requires i < 8 * |Packed(bits)|
    ensures |bits| <= 8 * |Packed(bits)| < |bits| + 8
    ensures var mask: seq<byte> := [128, 64, 32, 16, 8, 4, 2, 1];
            Packed(bits)[i / 8] & mask[i % 8] != 0 <==> i < |bits| && bits[i]
  {
    PackedPacks(bits);
    Masks();
    assert IsSet(i, Packed(bits)) == (i < |bits| && bits[i]);
  }

  // And read in the same way.
  lemma BitsRead(bytes: seq<byte>, i: nat)
    requires i < 8 * |bytes|
    ensures var mask: seq<byte> := [128, 64, 32, 16, 8, 4, 2, 1];
            |Unpacked(bytes)| == 8 * |bytes| && (Unpacked(bytes)[i] <==> bytes[i / 8] & mask[i % 8] != 0)
  {
    Masks();
  }

  /** What every connection says first: a bitfield of zeros, then unchoke. */
  lemma GreetingIs(pieces: nat)
    ensures Client.Greeting(pieces) ==
            BigEndian(1 + NumBytes(pieces), 4) + [5] + seq(NumBytes(pieces), _ => 0) + [0, 0, 0, 1, 1]
  {
    var bits, zeros: seq<byte> := seq(pieces, _ => false), seq(NumBytes(pieces), _ => 0);
    SentAsBytes(Client.FirstBitfield(pieces), pieces);
    SentAsBytes(Unchoke, pieces);
    PackedPacks(bits);
    PacksUnique(bits, Packed(bits), zeros);
  }

  /** The 68 bytes of the handshake: 19, "BitTorrent protocol", eight zeros, the
      info hash and the peer's identifier. */
  lemma HandshakeIs(infoHash: seq<byte>, peerId: seq<byte>)
    requires |infoHash| == 20 && |peerId| == 20
    ensures Handshake(infoHash, peerId) ==
            [19, 66, 105, 116, 84, 111, 114, 114, 101, 110, 116, 32, 112, 114, 111, 116, 111, 99, 111, 108]
            + [0, 0, 0, 0, 0, 0, 0, 0] + infoHash + peerId
  {
    assert [19] + PSTR ==
           [19, 66, 105, 116, 84, 111, 114, 114, 101, 110, 116, 32, 112, 114, 111, 116, 111, 99, 111, 108];
  }
}
