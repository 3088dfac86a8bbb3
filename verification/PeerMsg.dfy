/** The peer wire messages of src/peer_msg.cpp, except PIECE. */
module PeerMsg {
  import opened Bytes
  import opened Bitfield
  import opened PieceRequest

  datatype Msg =
    | KeepAlive
    | Choke
    | Unchoke
    | Interested
    | NotInterested
    | Have(have: uint32)
    | BitfieldMsg(bits: seq<bool>)
    | Request(index: uint32, begin: uint32, length: uint32)
    | Piece(index: uint32, begin: uint32, blockLen: nat)
    | Cancel
    | Port(listenPort: uint32)

  // enum msg_type; KEEPALIVE is -1 and never sent.
  function TypeOf(msg: Msg): (t: int)
    ensures -1 <= t < 10
  {
    match msg
    case KeepAlive => -1
    case Choke => 0
    case Unchoke => 1
    case Interested => 2
    case NotInterested => 3
    case Have(_) => 4
    case BitfieldMsg(_) => 5
    case Request(_, _, _) => 6
    case Piece(_, _, _) => 7
    case Cancel => 8
    case Port(_) => 9
  }

  /** What the protocol (BEP 3, 'peer messages') puts after the length prefix
      of a message: an identifier and a payload.  PORT is not in BEP 3; the
      client gives it a payload of four bytes. */
  function Body(msg: Msg): seq<byte> {
    if msg.KeepAlive? then [] else [ByteOf(TypeOf(msg))] + Payload(msg)
  }

  function Payload(msg: Msg): seq<byte> {
    match msg
    case Have(piece) => BigEndian(piece, 4)
    case BitfieldMsg(bits) => Packed(bits)
    case Request(index, begin, length) => BigEndian(index, 4) + BigEndian(begin, 4) + BigEndian(length, 4)
    case Port(port) => BigEndian(port, 4)
    case _ => []
  }

  // A message on the wire, prefixed with the length of its body.
  function Wire(msg: Msg): seq<byte> {
    BigEndian(|Body(msg)|, 4) + Body(msg)
  }

  // The messages the client writes in full.
  predicate Sendable(msg: Msg) {
    !msg.Piece? && !msg.Cancel?
  }

  function MsgLength(t: int, pieces: nat): nat {
    if t == -1 then 0
    else if t == 7 then 1 + 2 * 4 + PEER_REQUEST_SIZE
    else if t == 5 then 1 + NumBytes(pieces)
    else if t == 6 then 1 + 3 * 4
    else if t == 4 || t == 9 then 1 + 4
    else 1
  }

  predicate ValidLen(t: int, pieces: nat, len: nat) {
    if t == 7 then 1 + 2 * 4 + 1 <= len <= 1 + 2 * 4 + PEER_REQUEST_SIZE
    else len == MsgLength(t, pieces)
  }

  // What peer_msg_send writes: the length it announces is computed from the
  // type and the number of pieces.
  function SentBytes(msg: Msg, pieces: nat): seq<byte> {
    BigEndian(MsgLength(TypeOf(msg), pieces), 4) + Body(msg)
  }

  lemma {:induction false} BigEndianInjective(a: nat, b: nat, width: nat)
    requires a < Pow256(width) && b < Pow256(width) && BigEndian(a, width) == BigEndian(b, width)
    ensures a == b
  {
    BigEndianRoundTrip(a, width);
    BigEndianRoundTrip(b, width);
  }

  /** The client writes a message as the protocol has it exactly when a
      bitfield fills as many bytes as the torrent's pieces need. */
  lemma SentIsWireIff(msg: Msg, pieces: nat)
    requires Sendable(msg) && NumBytes(pieces) + 1 < TWO32
    requires msg.BitfieldMsg? ==> NumBytes(|msg.bits|) + 1 < TWO32
    ensures SentBytes(msg, pieces) == Wire(msg) <==>
            (msg.BitfieldMsg? ==> NumBytes(|msg.bits|) == NumBytes(pieces))
  {
    BodyLength(msg, pieces);
    PrefixInjective(MsgLength(TypeOf(msg), pieces), |Body(msg)|, Body(msg));
  }

  // A bitfield of eight bits for nine pieces announces one byte too many.
  lemma ShortBitfieldMisframed(bits: seq<bool>)
    requires |bits| == 8
    ensures SentBytes(BitfieldMsg(bits), 9) != Wire(BitfieldMsg(bits))
  {
    SentIsWireIff(BitfieldMsg(bits), 9);
  }

  lemma BodyLength(msg: Msg, pieces: nat)
    requires Sendable(msg)
    ensures |Body(msg)| == if msg.BitfieldMsg? then 1 + NumBytes(|msg.bits|) else MsgLength(TypeOf(msg), pieces)
  {
    match msg
    case Have(piece) => assert |Payload(msg)| == 4;
    case BitfieldMsg(bits) => assert |Payload(msg)| == NumBytes(|bits|);
    case Request(index, begin, length) => assert |Payload(msg)| == 12;
    case Port(port) => assert |Payload(msg)| == 4;
    case _ =>
  }

  lemma PrefixInjective(a: uint32, b: uint32, body: seq<byte>)
    ensures BigEndian(a, 4) + body == BigEndian(b, 4) + body <==> a == b
  {
    var x, y := BigEndian(a, 4) + body, BigEndian(b, 4) + body;
    assert x[..4] == BigEndian(a, 4) && y[..4] == BigEndian(b, 4);
    if x == y {
      Pow256Four();
      BigEndianInjective(a, b, 4);
    }
  }

  // What a receiver makes of the bytes of a message other than PIECE.
  function Decode(s: seq<byte>, pieces: nat): Option<(Msg, seq<byte>)> {
    if |s| < 4 then None else DecodeBody(s[4..], FromBigEndian(s[..4]), pieces)
  }

  function DecodeBody(s: seq<byte>, len: nat, pieces: nat): Option<(Msg, seq<byte>)> {
    if len == 0 then Some((KeepAlive, s))
    else if |s| == 0 || ByteVal(s[0]) >= 10 || !ValidLen(ByteVal(s[0]), pieces, len) then None
    else if |s| < len then None
    else
      var payload, rest := s[1..len], s[len..];
      match ByteVal(s[0])
      case 0 => Some((Choke, rest))
      case 1 => Some((Unchoke, rest))
      case 2 => Some((Interested, rest))
      case 3 => Some((NotInterested, rest))
      case 4 => Some((Have(U32(payload)), rest))
      case 5 => if len == 1 then None else Some((BitfieldMsg(Unpacked(payload)), rest))
      case 6 => Some((Request(U32(payload[..4]), U32(payload[4..8]), U32(payload[8..])), rest))
      case 9 => Some((Port(U32(payload)), rest))
      case _ => None
  }

  // ntohl
  function U32(s: seq<byte>): uint32
    requires |s| == 4
  {
    BigEndian32Bound(s);
    FromBigEndian(s)
  }

  // A bitfield arrives with the spare bits of its last byte, as zeros.
  function Arrives(msg: Msg): Msg {
    if msg.BitfieldMsg? then
      BitfieldMsg(msg.bits + seq(8 * NumBytes(|msg.bits|) - |msg.bits|, _ => false))
    else msg
  }

  // The bitfields the client sends are as long as its list of pieces.
  predicate Fits(msg: Msg, pieces: nat) {
    msg.BitfieldMsg? ==> NumBytes(|msg.bits|) == NumBytes(pieces)
  }

  lemma TypeByte(msg: Msg)
    requires Sendable(msg) && !msg.KeepAlive?
    ensures ByteVal(Body(msg)[0]) == TypeOf(msg)
  {
    ByteValOf(TypeOf(msg));
  }

  lemma PayloadDecodes(msg: Msg)
    requires Sendable(msg)
    ensures msg.Have? ==> U32(Payload(msg)) == msg.have
    ensures msg.Port? ==> U32(Payload(msg)) == msg.listenPort
    ensures msg.BitfieldMsg? ==> BitfieldMsg(Unpacked(Payload(msg))) == Arrives(msg)
    ensures msg.Request? ==>
              var p := Payload(msg);
              U32(p[..4]) == msg.index && U32(p[4..8]) == msg.begin && U32(p[8..]) == msg.length
  {
    match msg
    case Have(piece) => BigEndian32RoundTrip(piece);
    case Port(port) => BigEndian32RoundTrip(port);
    case BitfieldMsg(bits) =>
      PackedPacks(bits);
      UnpackPack(bits, Packed(bits));
    case Request(index, begin, length) =>
      BigEndian32RoundTrip(index);
      BigEndian32RoundTrip(begin);
      BigEndian32RoundTrip(length);
      var p := Payload(msg);
      assert p[..4] == BigEndian(index, 4) && p[4..8] == BigEndian(begin, 4) && p[8..] == BigEndian(length, 4);
    case _ =>
  }

  /** A message is read back from what was written, whatever follows it. */
  lemma RoundTrip(msg: Msg, pieces: nat, rest: seq<byte>)
    requires Sendable(msg) && Fits(msg, pieces) && 0 < pieces && NumBytes(pieces) + 1 < TWO32
    ensures Decode(SentBytes(msg, pieces) + rest, pieces) == Some((Arrives(msg), rest))
  {
    var len := MsgLength(TypeOf(msg), pieces);
    assert SentBytes(msg, pieces) + rest == BigEndian(len, 4) + (Body(msg) + rest);
    DecodePrefixed(len, Body(msg) + rest, pieces);
    BodyDecodes(msg, pieces, rest);
  }

  lemma DecodePrefixed(len: uint32, t: seq<byte>, pieces: nat)
    ensures Decode(BigEndian(len, 4) + t, pieces) == DecodeBody(t, len, pieces)
  {
    var s := BigEndian(len, 4) + t;
    assert s[..4] == BigEndian(len, 4) && s[4..] == t;
    BigEndian32RoundTrip(len);
  }

  lemma BodyDecodes(msg: Msg, pieces: nat, rest: seq<byte>)
    requires Sendable(msg) && Fits(msg, pieces) && 0 < pieces
    ensures DecodeBody(Body(msg) + rest, MsgLength(TypeOf(msg), pieces), pieces) == Some((Arrives(msg), rest))
  {
    var s, len := Body(msg) + rest, MsgLength(TypeOf(msg), pieces);
    if msg.KeepAlive? {
      assert s == rest;
    } else {
      TypeByte(msg);
      PayloadDecodes(msg);
      assert len == |Body(msg)|;
      assert s[1..len] == Payload(msg) && s[len..] == rest;
    }
  }

  lemma EmptyBitfieldBytes()
    ensures SentBytes(BitfieldMsg([]), 0) == BigEndian(1, 4) + [ByteOf(5)]
  {
    var msg := BitfieldMsg([]);
    assert Payload(msg) == Packed(msg.bits) == [];
    assert Body(msg) == [ByteOf(TypeOf(msg))] + Payload(msg);
    assert MsgLength(TypeOf(msg), 0) == 1;
  }

  lemma EmptyBitfieldRefused(s: seq<byte>)
    requires |s| > 0 && ByteVal(s[0]) == 5
    ensures DecodeBody(s, 1, 0) == None
  {}

  // With no pieces at all the bitfield the client sends is never received.
  lemma EmptyBitfieldLost(rest: seq<byte>)
    ensures Decode(SentBytes(BitfieldMsg([]), 0) + rest, 0) == None
  {
    var body := [ByteOf(5)] + rest;
    EmptyBitfieldBytes();
    ConcatAssoc(BigEndian(1, 4), [ByteOf(5)], rest);
    DecodePrefixed(1, body, 0);
    ByteValOf(5);
    EmptyBitfieldRefused(body);
  }

  function SentAll(msgs: seq<Msg>, pieces: nat): seq<byte> {
    if |msgs| == 0 then [] else SentBytes(msgs[0], pieces) + SentAll(msgs[1..], pieces)
  }

  function DecodeAll(s: seq<byte>, n: nat, pieces: nat): Option<(seq<Msg>, seq<byte>)> {
    if n == 0 then Some(([], s))
    else
      match Decode(s, pieces)
      case None => None
      case Some((msg, rest)) =>
        match DecodeAll(rest, n - 1, pieces)
        case None => None
        case Some((msgs, rest')) => Some(([msg] + msgs, rest'))
  }

  // What a sequence of messages arrives as.
  function ArrivesAll(msgs: seq<Msg>): (arrived: seq<Msg>)
    ensures |arrived| == |msgs| && forall i | 0 <= i < |msgs| :: arrived[i] == Arrives(msgs[i])
  {
    if |msgs| == 0 then [] else [Arrives(msgs[0])] + ArrivesAll(msgs[1..])
  }

  /** Any sequence of messages is read back as the same sequence, using up
      exactly the bytes that were written. */
  lemma {:induction false} StreamRoundTrip(msgs: seq<Msg>, pieces: nat, rest: seq<byte>)
    requires forall i | 0 <= i < |msgs| :: Sendable(msgs[i]) && Fits(msgs[i], pieces)
    requires 0 < pieces && NumBytes(pieces) + 1 < TWO32
    ensures DecodeAll(SentAll(msgs, pieces) + rest, |msgs|, pieces) == Some((ArrivesAll(msgs), rest))
  {
    if |msgs| == 0 {
      assert SentAll(msgs, pieces) + rest == rest;
    } else {
      var tail := SentAll(msgs[1..], pieces) + rest;
      ConcatAssoc(SentBytes(msgs[0], pieces), SentAll(msgs[1..], pieces), rest);
      RoundTrip(msgs[0], pieces, tail);
      StreamRoundTrip(msgs[1..], pieces, rest);
    }
  }
}
