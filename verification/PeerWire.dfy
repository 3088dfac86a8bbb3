/** Sending and receiving peer messages over a connection (src/peer_msg.cpp). */
module PeerWire {
  import opened Bytes
  import opened Bitfield
  import opened Socket
  import opened PeerMsg
  import opened FileLayout
  import opened PieceRequest
  import PieceLayout
  import opened Torrent

  // Sends the next part of all, when its first n bytes have gone out.
  method SendPart(conn: Connection, part: seq<byte>, ghost before: seq<byte>, ghost all: seq<byte>, ghost n: nat,
                  ghost room: nat)
    returns (ok: bool)
    requires n + |part| <= |all| && all[n..n + |part|] == part
    requires n <= room && conn.room == room - n && conn.outbox == before + all[..n]
    modifies conn`outbox, conn`room
    ensures ok <==> n + |part| <= room
    ensures ok ==> conn.outbox == before + all[..n + |part|] && conn.room == room - (n + |part|)
    ensures !ok ==> conn.outbox == before + Taken(all, room)
  {
    ok := PeerSendBuff(conn, part);
    var put := AtMost(|part|, room - n);
    assert all[..n] + part[..put] == all[..n + put];
  }

  lemma PrefixParts(prefix: seq<byte>, t: byte, payload: seq<byte>)
    requires |prefix| == 4
    ensures var all := prefix + ([t] + payload);
            |all| == 5 + |payload| && all[0..4] == prefix && all[4..5] == [t] && all[5..] == payload
  {}

  lemma SentParts(msg: Msg, pieces: nat)
    ensures var all := SentBytes(msg, pieces);
            && |all| >= 4 && all[0..4] == BigEndian(MsgLength(TypeOf(msg), pieces), 4)
            && (msg.KeepAlive? ==> |all| == 4)
            && (!msg.KeepAlive? ==> |all| == 5 + |Payload(msg)| && all[4..5] == [ByteOf(TypeOf(msg))]
                                    && all[5..] == Payload(msg))
  {
    var prefix := BigEndian(MsgLength(TypeOf(msg), pieces), 4);
    if msg.KeepAlive? {
      assert SentBytes(msg, pieces) == prefix;
    } else {
      var t, payload := ByteOf(TypeOf(msg)), Payload(msg);
      assert SentBytes(msg, pieces) == prefix + ([t] + payload);
      PrefixParts(prefix, t, payload);
    }
  }

  // The three integers of a REQUEST message.
  method SendRequestPayload(conn: Connection, msg: Msg, ghost before: seq<byte>, ghost all: seq<byte>, ghost room: nat)
    returns (ok: bool)
    requires msg.Request? && |all| == 17 && all[5..] == Payload(msg)
    requires 5 <= room && conn.room == room - 5 && conn.outbox == before + all[..5]
    modifies conn`outbox, conn`room
    ensures ok <==> |all| <= room
    ensures conn.outbox == before + Taken(all, room)
    ensures ok ==> conn.room == room - |all|
  {
    assert all[5..9] == all[5..][..4] == BigEndian(msg.index, 4);
    assert all[9..13] == all[5..][4..8] == BigEndian(msg.begin, 4);
    assert all[13..17] == all[5..][8..] == BigEndian(msg.length, 4);
    ok := SendPart(conn, BigEndian(msg.index, 4), before, all, 5, room);
    if !ok {
      return;
    }
    ok := SendPart(conn, BigEndian(msg.begin, 4), before, all, 9, room);
    if !ok {
      return;
    }
    ok := SendPart(conn, BigEndian(msg.length, 4), before, all, 13, room);
  }

  method SendPayload(conn: Connection, msg: Msg, ghost before: seq<byte>, ghost all: seq<byte>, ghost room: nat)
    returns (ok: bool)
    requires |all| == 5 + |Payload(msg)| && all[5..] == Payload(msg) && Sendable(msg)
    requires 5 <= room && conn.room == room - 5 && conn.outbox == before + all[..5]
    modifies conn`outbox, conn`room
    ensures ok <==> |all| <= room
    ensures conn.outbox == before + Taken(all, room)
    ensures ok ==> conn.room == room - |all|
  {
    assert all[5..|all|] == all[5..];
    ok := true;
    match msg {
      case Have(piece) =>
        ok := SendPart(conn, BigEndian(piece, 4), before, all, 5, room);
      case BitfieldMsg(bits) =>
        var buff := Pack(bits);
        ok := SendPart(conn, buff[..], before, all, 5, room);
      case Request(index, begin, length) =>
        ok := SendRequestPayload(conn, msg, before, all, room);
      case Port(port) =>
        ok := SendPart(conn, BigEndian(port, 4), before, all, 5, room);
      case _ =>
    }
  }

  /** peer_msg_send, for the messages the client writes in full: it succeeds
      exactly when there is room for the whole message, and has sent as much of
      it as there was room for. */
  method PeerMsgSend(conn: Connection, pieces: nat, msg: Msg) returns (ok: bool)
    requires Sendable(msg)
    modifies conn`outbox, conn`room
    ensures ok <==> |SentBytes(msg, pieces)| <= old(conn.room)
    ensures conn.outbox == old(conn.outbox) + Taken(SentBytes(msg, pieces), old(conn.room))
    ensures ok ==> conn.room == old(conn.room) - |SentBytes(msg, pieces)|
  {
    ghost var before, all, room := conn.outbox, SentBytes(msg, pieces), conn.room;
    SentParts(msg, pieces);
    ok := SendPart(conn, BigEndian(MsgLength(TypeOf(msg), pieces), 4), before, all, 0, room);
    if !ok || msg.KeepAlive? {
      return;
    }
    ok := SendPart(conn, [ByteOf(TypeOf(msg))], before, all, 4, room);
    if !ok {
      return;
    }
    ok := SendPayload(conn, msg, before, all, room);
  }

  lemma SentAllNext(msgs: seq<Msg>, i: nat, pieces: nat)
    requires i < |msgs|
    ensures SentAll(msgs[i..], pieces) == SentBytes(msgs[i], pieces) + SentAll(msgs[i + 1..], pieces)
  {
    assert msgs[i..][1..] == msgs[i + 1..];
  }

  // Before message i of the sequence is sent: what has gone out, and what is
  // still to be sent.
  ghost predicate SentSoFar(conn: Connection, before: seq<byte>, all: seq<byte>, rest: seq<byte>, room: nat)
    reads conn
  {
    && |all| + conn.room == room + |rest| && conn.outbox + rest == before + all
    && |before| <= |conn.outbox|
  }

  // Where the room ends inside the next message, it ends inside all of them.
  lemma CutShort(before: seq<byte>, all: seq<byte>, outbox: seq<byte>, bytes: seq<byte>, rest: seq<byte>, left: nat, room: nat)
    requires outbox + (bytes + rest) == before + all && |outbox| + left == |before| + room && left < |bytes|
    requires |before| <= |outbox|
    ensures |all| > room && outbox + bytes[..left] == before + all[..room]
  {
    var whole := before + all;
    assert outbox + bytes[..left] == whole[..|outbox| + left];
    assert whole[..|before| + room] == before + all[..room];
  }

  // Sends message i of the sequence.
  method SendNext(conn: Connection, pieces: nat, msg: Msg, ghost msgs: seq<Msg>, ghost i: nat,
                  ghost before: seq<byte>, ghost all: seq<byte>, ghost room: nat)
    returns (ok: bool)
    requires i < |msgs| && msg == msgs[i] && Sendable(msg)
    requires SentSoFar(conn, before, all, SentAll(msgs[i..], pieces), room)
    modifies conn`outbox, conn`room
    ensures ok ==> SentSoFar(conn, before, all, SentAll(msgs[i + 1..], pieces), room)
    ensures !ok ==> |all| > room && conn.outbox == before + Taken(all, room)
  {
    SentAllNext(msgs, i, pieces);
    ok := SendOne(conn, pieces, msg, before, all, SentAll(msgs[i + 1..], pieces), room);
  }

  // Sends a message, when rest is to follow it.
  method SendOne(conn: Connection, pieces: nat, msg: Msg,
                 ghost before: seq<byte>, ghost all: seq<byte>, ghost rest: seq<byte>, ghost room: nat)
    returns (ok: bool)
    requires Sendable(msg) && SentSoFar(conn, before, all, SentBytes(msg, pieces) + rest, room)
    modifies conn`outbox, conn`room
    ensures ok ==> SentSoFar(conn, before, all, rest, room)
    ensures !ok ==> |all| > room && conn.outbox == before + Taken(all, room)
  {
    ghost var outbox, bytes, left := conn.outbox, SentBytes(msg, pieces), conn.room;
    ok := PeerMsgSend(conn, pieces, msg);
    if ok {
      ConcatAssoc(outbox, bytes, rest);
      assert conn.outbox == outbox + bytes;
    } else {
      CutShort(before, all, outbox, bytes, rest, left, room);
      assert conn.outbox == outbox + bytes[..left];
    }
  }

  /** A sequence of messages, sent one after the other. */
  method SendMessages(conn: Connection, pieces: nat, msgs: seq<Msg>) returns (ok: bool)
    requires forall i | 0 <= i < |msgs| :: Sendable(msgs[i])
    modifies conn`outbox, conn`room
    ensures ok <==> |SentAll(msgs, pieces)| <= old(conn.room)
    ensures ok ==> conn.outbox == old(conn.outbox) + SentAll(msgs, pieces)
    ensures ok ==> conn.room == old(conn.room) - |SentAll(msgs, pieces)|
    ensures conn.outbox == old(conn.outbox) + Taken(SentAll(msgs, pieces), old(conn.room))
  {
    ghost var before, all, room := conn.outbox, SentAll(msgs, pieces), conn.room;
    assert msgs[0..] == msgs;
    for i := 0 to |msgs|
      invariant SentSoFar(conn, before, all, SentAll(msgs[i..], pieces), room)
    {
      ok := SendNext(conn, pieces, msgs[i], msgs, i, before, all, room);
      if !ok {
        return;
      }
    }
    ok := true;
    AllSent(conn.outbox, before, all, SentAll(msgs[|msgs|..], pieces));
  }

  lemma AllSent(outbox: seq<byte>, before: seq<byte>, all: seq<byte>, rest: seq<byte>)
    requires outbox + rest == before + all && rest == []
    ensures outbox == before + all && all[..|all|] == all
  {
    assert outbox + [] == outbox;
  }

  // What receiving a message ends in; Aborted stands for a failed assertion.
  datatype Received = Message(msg: Msg) | Failed | Aborted

  // Receives len bytes into memory of its own.
  method RecvBytes(conn: Connection, len: nat) returns (ok: bool, bytes: seq<byte>)
    modifies conn`inbox, conn`later
    ensures ok <==> 0 < len <= |old(conn.inbox)|
    ensures ok ==> bytes == old(conn.inbox)[..len]
    ensures Took(len, old(conn.inbox), old(conn.later), conn.inbox, conn.later)
  {
    var buff := new byte[len](_ => 0);
    ok := PeerRecvBuff(conn, buff, 0, len);
    bytes := buff[..];
    if ok {
      assert bytes == old(conn.inbox)[..len];
    }
  }

  /** Bytes from..mid of the image have been asked of the stream: those that it
      had are there, and no other byte has changed. */
  ghost predicate Filled(image0: seq<byte>, image: seq<byte>, from: nat, mid: nat, stream: seq<byte>) {
    && |image| == |image0| && from <= mid <= |image|
    && (forall i | 0 <= i < |image| && !(from <= i < mid) :: image[i] == image0[i])
    && (forall i | from <= i < mid && i - from < |stream| :: image[i] == stream[i - from])
  }

  lemma FilledMore(image0: seq<byte>, image: seq<byte>, from: nat, mid: nat, stream: seq<byte>, later: seq<byte>,
                   inbox: seq<byte>, later': seq<byte>, data: seq<byte>, len: nat, to: nat)
    requires to == mid + len && Filled(image0, image, from, mid, stream) && Took(mid - from, stream, later, inbox, later')
    requires to <= |image| && |data| == AtMost(len, |inbox|) && data == inbox[..|data|]
    ensures Filled(image0, Splice(image, mid, data), from, to, stream)
  {
    var after := Splice(image, mid, data);
    forall i | from <= i < to && i - from < |stream|
      ensures after[i] == stream[i - from]
    {
      if i >= mid {
        assert after[i] == data[i - mid] == inbox[i - mid];
      }
    }
  }

  // The bytes of one are the first ones of the other.
  predicate Agree(a: seq<byte>, b: seq<byte>) { a <= b || b <= a }

  // What is written is one splice, whether or not the stream gave out.
  lemma FilledIsWritten(image0: seq<byte>, image: seq<byte>, from: nat, to: nat, stream: seq<byte>)
    requires Filled(image0, image, from, to, stream)
    ensures image == Splice(image0, from, image[from..to])
    ensures Agree(image[from..to], stream)
  {}

  // A block that arrived whole is one write of the stream's next bytes.
  lemma FilledIsSplice(image0: seq<byte>, image: seq<byte>, from: nat, to: nat, stream: seq<byte>)
    requires Filled(image0, image, from, to, stream) && to - from <= |stream|
    ensures image == Splice(image0, from, stream[..to - from])
  {}

  /** Receives one segment of a block into its file; a failure is only logged. */
  method RecvSegment(t: TorrentInfo, conn: Connection, s: Segment, ghost contents: seq<seq<byte>>)
    returns (ghost contents': seq<seq<byte>>, ghost data: seq<byte>)
    requires t.Valid() && t.Distinct() && t.Holds(contents) && Inside(contents, s)
    modifies conn`inbox, conn`later, t.files[s.file]
    ensures |data| == AtMost(s.length, |old(conn.inbox)|) && data == old(conn.inbox)[..|data|]
    ensures Took(s.length, old(conn.inbox), old(conn.later), conn.inbox, conn.later)
    ensures contents' == contents[s.file := Splice(contents[s.file], s.offset, data)] && t.Holds(contents')
  {
    ghost var stream, got := conn.inbox, AtMost(s.length, |conn.inbox|);
    var ok := PeerRecvBuff(conn, t.files[s.file], s.offset, s.length);
    data := stream[..got];
    DeliveredIsSplice(contents[s.file], s.offset, stream, got, t.files[s.file][..], stream[got..]);
    contents' := contents[s.file := Splice(contents[s.file], s.offset, data)];
    forall f | 0 <= f < |t.files|
      ensures t.files[f][..] == contents'[f]
    {
      assert f != s.file ==> t.files[f] != t.files[s.file];
    }
  }

  // Part of a block has been asked of the stream: bytes from..mid.
  ghost predicate Underway(t: TorrentInfo, conn: Connection, contents: seq<seq<byte>>, image0: seq<byte>,
                           from: nat, mid: nat, stream: seq<byte>, later: seq<byte>)
    reads t.files, conn
  {
    && t.Holds(contents) && Filled(image0, Flat(contents), from, mid, stream)
    && Took(mid - from, stream, later, conn.inbox, conn.later)
  }

  method RecvNextSegment(t: TorrentInfo, conn: Connection, s: Segment, ghost contents: seq<seq<byte>>,
                         ghost image0: seq<byte>, ghost from: nat, ghost mid: nat, ghost to: nat,
                         ghost stream: seq<byte>, ghost later: seq<byte>)
    returns (ghost contents': seq<seq<byte>>)
    requires t.Valid() && t.Distinct() && Placed(t.sizes, s, mid) && to == mid + s.length
    requires Underway(t, conn, contents, image0, from, mid, stream, later)
    modifies conn`inbox, conn`later, t.files[s.file]
    ensures Underway(t, conn, contents', image0, from, to, stream, later)
  {
    assert Sizes(contents) == t.sizes;
    PlacedBound(t.sizes, s, mid);
    ghost var inbox, later1 := conn.inbox, conn.later;
    ghost var data;
    contents', data := RecvSegment(t, conn, s, contents);
    FlatWrite(contents, s.file, s.offset, data, |contents|);
    FilledMore(image0, Flat(contents), from, mid, stream, later, inbox, later1, data, s.length, to);
    TookTo(from, mid, s.length, to, stream, later, inbox, later1, conn.inbox, conn.later);
  }

  lemma TookTo(from: nat, mid: nat, len: nat, to: nat, stream: seq<byte>, later: seq<byte>,
               inbox': seq<byte>, later': seq<byte>, inbox'': seq<byte>, later'': seq<byte>)
    requires from <= mid && to == mid + len
    requires Took(mid - from, stream, later, inbox', later') && Took(len, inbox', later', inbox'', later'')
    ensures Took(to - from, stream, later, inbox'', later'')
  {
    TookMore(mid - from, len, stream, later, inbox', later', inbox'', later'');
  }

  // Receives segment j of a block, when those before it have been received.
  method RecvSegmentAt(t: TorrentInfo, conn: Connection, segments: seq<Segment>, j: nat,
                       ghost contents: seq<seq<byte>>, ghost image0: seq<byte>,
                       ghost from: nat, ghost mid: nat, ghost to: nat, ghost stream: seq<byte>, ghost later: seq<byte>)
    returns (ghost contents': seq<seq<byte>>, ghost mid': nat)
    requires t.Valid() && t.Distinct() && Covers(t.sizes, segments, from, to) && j < |segments|
    requires mid == from + LengthTo(segments, j)
    requires Underway(t, conn, contents, image0, from, mid, stream, later)
    modifies conn`inbox, conn`later, t.files
    ensures mid' == from + LengthTo(segments, j + 1)
    ensures Underway(t, conn, contents', image0, from, mid', stream, later)
  {
    CoversAt(t.sizes, segments, from, to, j);
    mid' := mid + segments[j].length;
    contents' := RecvNextSegment(t, conn, segments[j], contents, image0, from, mid, mid', stream, later);
  }

  /** The loop of peer_msg_recv_piece over the segments of a block. */
  method RecvBlock(t: TorrentInfo, conn: Connection, segments: seq<Segment>, ghost contents0: seq<seq<byte>>,
                   ghost image0: seq<byte>, ghost from: nat, ghost to: nat, ghost stream: seq<byte>, ghost later: seq<byte>)
    returns (ghost contents: seq<seq<byte>>)
    requires t.Valid() && t.Distinct() && Covers(t.sizes, segments, from, to)
    requires Underway(t, conn, contents0, image0, from, from, stream, later)
    modifies conn`inbox, conn`later, t.files
    ensures Underway(t, conn, contents, image0, from, to, stream, later)
  {
    contents := contents0;
    ghost var mid := from;
    for j := 0 to |segments|
      invariant mid == from + LengthTo(segments, j)
      invariant Underway(t, conn, contents, image0, from, mid, stream, later)
    {
      contents, mid := RecvSegmentAt(t, conn, segments, j, contents, image0, from, mid, to, stream, later);
    }
    assert mid == to;
  }

  // Reads the index and the begin of a PIECE message.
  method RecvPieceHeader(conn: Connection) returns (ok: bool, index: uint32, begin: uint32)
    modifies conn`inbox, conn`later
    ensures ok <==> |old(conn.inbox)| >= 8
    ensures ok ==> index == U32(old(conn.inbox)[..4]) && begin == U32(old(conn.inbox)[4..8])
    ensures Took(8, old(conn.inbox), old(conn.later), conn.inbox, conn.later)
  {
    ghost var stream, later := conn.inbox, conn.later;
    index, begin := 0, 0;
    var bytes;
    ok, bytes := RecvBytes(conn, 4);
    if !ok {
      return;
    }
    index := U32(bytes);
    ghost var stream1, later1 := conn.inbox, conn.later;
    ok, bytes := RecvBytes(conn, 4);
    TookMore(4, 4, stream, later, stream1, later1, conn.inbox, conn.later);
    if !ok {
      return;
    }
    assert bytes == stream[4..8];
    begin := U32(bytes);
  }

  // The request for piece index has a block that begins at begin.
  ghost predicate HasBlock(t: TorrentInfo, index: nat, begin: nat) {
    var from, to := RequestStart(t.pieceLength, index), RequestEnd(Total(t.sizes), t.pieceLength, index);
    begin % PEER_REQUEST_SIZE == 0 && begin / PEER_REQUEST_SIZE < BlockCount(to - from)
  }

  // Where that block is and how long.
  function BlockPlace(t: TorrentInfo, index: nat, begin: nat): nat {
    RequestStart(t.pieceLength, index) + begin
  }

  ghost function BlockLength(t: TorrentInfo, index: nat, begin: nat): (n: nat)
    requires HasBlock(t, index, begin)
    ensures n > 0
  {
    var from, to := RequestStart(t.pieceLength, index), RequestEnd(Total(t.sizes), t.pieceLength, index);
    BlockEnd(from, to, begin / PEER_REQUEST_SIZE) - (from + begin)
  }

  lemma NoBlockAt(t: TorrentInfo, blocks: seq<Block>, index: nat, begin: nat)
    requires AreBlocks(t.sizes, blocks, RequestStart(t.pieceLength, index),
                       RequestEnd(Total(t.sizes), t.pieceLength, index))
    requires forall j | 0 <= j < |blocks| :: blocks[j].begin != begin
    ensures !HasBlock(t, index, begin)
  {
    var j := begin / PEER_REQUEST_SIZE;
    if HasBlock(t, index, begin) {
      PieceLayout.BlockBegins(t.sizes, blocks, RequestStart(t.pieceLength, index),
                              RequestEnd(Total(t.sizes), t.pieceLength, index), j, begin);
    }
  }

  // Finds the block that a PIECE message names.
  method FindBlock(t: TorrentInfo, index: uint32, begin: uint32) returns (found: bool, segments: seq<Segment>)
    requires t.Valid()
    ensures found <==> HasBlock(t, index, begin)
    ensures found ==>
              var from, to := BlockPlace(t, index, begin), BlockPlace(t, index, begin) + BlockLength(t, index, begin);
              to <= Total(t.sizes) && Covers(t.sizes, segments, from, to)
  {
    segments := [];
    var request := new PieceRequest.Request();
    PieceRequestCreate(t.sizes, t.pieceLength, index, request);
    var at := PieceRequestBlockAt(request.blockRequests, begin);
    if at.None? {
      NoBlockAt(t, request.blockRequests, index, begin);
      return false, segments;
    }
    ghost var from, to := RequestStart(t.pieceLength, index), RequestEnd(Total(t.sizes), t.pieceLength, index);
    BlockCovers(t.sizes, request.blockRequests, from, to, at.value);
    return true, request.blockRequests[at.value].segments;
  }

  // Fills bytes from..to of the torrent from the stream.
  method FillBlock(t: TorrentInfo, conn: Connection, segments: seq<Segment>, ghost from: nat, ghost to: nat)
    requires t.Valid() && t.Distinct() && Covers(t.sizes, segments, from, to) && to <= Total(t.sizes)
    modifies conn`inbox, conn`later, t.files
    ensures Filled(old(t.Image()), t.Image(), from, to, old(conn.inbox))
    ensures from <= to && Took(to - from, old(conn.inbox), old(conn.later), conn.inbox, conn.later)
  {
    ghost var contents, image0 := t.Contents(), t.Image();
    t.ImageIs(contents);
    contents := RecvBlock(t, conn, segments, contents, image0, from, to, conn.inbox, conn.later);
    t.ImageIs(contents);
  }

  // The block that a PIECE message names has been filled from block, or as much
  // of it as there is.
  ghost predicate Stored(t: TorrentInfo, image0: seq<byte>, image: seq<byte>, index: nat, begin: nat, block: seq<byte>) {
    && HasBlock(t, index, begin)
    && var from := BlockPlace(t, index, begin);
       Filled(image0, image, from, from + BlockLength(t, index, begin), block)
  }

  /** peer_msg_recv_piece: the block that the next eight bytes name is filled
      from the stream behind them.  It fails only when these eight are not there,
      and aborts only when there is no such block. */
  method PeerMsgRecvPiece(t: TorrentInfo, conn: Connection, len: nat) returns (r: Received)
    requires t.Valid() && t.Distinct() && 8 < len
    modifies conn`inbox, conn`later, t.files
    ensures r.Failed? <==> |old(conn.inbox)| < 8
    ensures !r.Message? ==>
              t.Image() == old(t.Image()) && Took(8, old(conn.inbox), old(conn.later), conn.inbox, conn.later)
    ensures |old(conn.inbox)| >= 8 ==>
              var index, begin := U32(old(conn.inbox)[..4]), U32(old(conn.inbox)[4..8]);
              if HasBlock(t, index, begin) then
                && r == Message(Piece(index, begin, len - 8))
                && Stored(t, old(t.Image()), t.Image(), index, begin, old(conn.inbox)[8..])
                && Took(8 + BlockLength(t, index, begin), old(conn.inbox), old(conn.later), conn.inbox, conn.later)
              else r == Aborted
  {
    ghost var stream, later := conn.inbox, conn.later;
    var ok, index, begin := RecvPieceHeader(conn);
    if !ok {
      return Failed;
    }
    var found, segments := FindBlock(t, index, begin);
    if !found {
      return Aborted;
    }
    ghost var from, n := BlockPlace(t, index, begin), BlockLength(t, index, begin);
    FillBlock(t, conn, segments, from, from + n);
    TookMore(8, n, stream, later, stream[8..], later, conn.inbox, conn.later);
    r := Message(Piece(index, begin, len - 8));
  }

  // Receives the payload of a message of a type other than PIECE and CANCEL.
  method RecvPayload(conn: Connection, id: nat, len: nat, pieces: nat, ghost body: seq<byte>) returns (r: Received)
    requires id < 10 && id != 7 && id != 8 && len > 0 && ValidLen(id, pieces, len)
    requires |body| > 0 && ByteVal(body[0]) == id && conn.inbox == body[1..]
    modifies conn`inbox, conn`later
    ensures match DecodeBody(body, len, pieces)
            case Some((msg, rest)) => r == Message(msg) && conn.inbox == rest && conn.later == old(conn.later)
            case None => r == Failed && Took(len - 1, body[1..], old(conn.later), conn.inbox, conn.later)
  {
    if id < 4 {
      return Message([Choke, Unchoke, Interested, NotInterested][id]);
    }
    var ok, bytes := RecvBytes(conn, len - 1);
    if !ok {
      return Failed;
    }
    assert bytes == body[1..len] && conn.inbox == body[len..];
    match id
    case 4 => r := Message(Have(U32(bytes)));
    case 5 =>
      var bits := Unpack(bytes);
      r := Message(BitfieldMsg(bits));
    case 6 => r := Message(Request(U32(bytes[..4]), U32(bytes[4..8]), U32(bytes[8..])));
    case _ => r := Message(Port(U32(bytes)));
  }

  // The message in body, of len bytes, is a PIECE message of a length that is
  // allowed.
  ghost predicate IsPiece(body: seq<byte>, len: nat, pieces: nat) {
    len > 0 && |body| > 0 && ByteVal(body[0]) == 7 && ValidLen(7, pieces, len)
  }

  // A message, and how many bytes the client takes for it.
  datatype Read = Read(msg: Msg, used: nat)

  /** The message at the head of body, behind a length prefix of len.  For a
      PIECE message the client takes the bytes of the block, whatever len is. */
  ghost function ReadBody(t: TorrentInfo, body: seq<byte>, len: nat): Option<Read> {
    if IsPiece(body, len, |t.pieces|) then
      if |body| < 9 || !HasBlock(t, U32(body[1..5]), U32(body[5..9])) then None
      else
        var index, begin := U32(body[1..5]), U32(body[5..9]);
        Some(Read(Piece(index, begin, len - 9), 9 + BlockLength(t, index, begin)))
    else
      match DecodeBody(body, len, |t.pieces|)
      case Some((msg, _)) => Some(Read(msg, len))
      case None => None
  }

  // The message at the head of the stream.
  ghost function Reading(t: TorrentInfo, stream: seq<byte>): (r: Option<Read>)
    ensures r.Some? ==> r.value.used >= 4 && |stream| >= 4
    ensures r.Some? && !r.value.msg.Piece? ==> r.value.used <= |stream|
    ensures r.Some? && r.value.msg.Piece? ==>
              && |stream| >= 13 && HasBlock(t, r.value.msg.index, r.value.msg.begin)
              && r.value.used == 13 + BlockLength(t, r.value.msg.index, r.value.msg.begin)
  {
    if |stream| < 4 then None
    else
      match ReadBody(t, stream[4..], U32(stream[..4]))
      case Some(read) => Some(Read(read.msg, 4 + read.used))
      case None => None
  }

  // A message that ends in a failed assertion: a CANCEL message, or a PIECE
  // message for a block that does not exist.
  ghost predicate Aborts(t: TorrentInfo, body: seq<byte>, len: nat) {
    && len > 0 && |body| > 0
    && (|| (ByteVal(body[0]) == 8 && ValidLen(8, |t.pieces|, len))
        || (IsPiece(body, len, |t.pieces|) && |body| >= 9 && !HasBlock(t, U32(body[1..5]), U32(body[5..9]))))
  }

  /** What receiving a message comes to, when body is the stream behind its
      length prefix. */
  ghost predicate Outcome(t: TorrentInfo, r: Received, image0: seq<byte>, image: seq<byte>, len: nat,
                          body: seq<byte>, later: seq<byte>, inbox': seq<byte>, later': seq<byte>)
  {
    match ReadBody(t, body, len)
    case None =>
      && r == (if Aborts(t, body, len) then Aborted else Failed)
      && image == image0 && Suffix(inbox' + later', body + later)
    case Some(read) =>
      && r == Message(read.msg) && Took(read.used, body, later, inbox', later')
      && (if read.msg.Piece? then |body| >= 9 && Stored(t, image0, image, read.msg.index, read.msg.begin, body[9..])
          else image == image0)
  }

  lemma PieceHeaderAt(body: seq<byte>)
    ensures |body| >= 9 ==>
              body[1..][..4] == body[1..5] && body[1..][4..8] == body[5..9] && body[1..][8..] == body[9..]
  {}

  // The PIECE case of peer_msg_recv_pastlen.
  method RecvPieceBody(t: TorrentInfo, conn: Connection, len: nat, ghost body: seq<byte>, ghost later: seq<byte>)
    returns (r: Received)
    requires t.Valid() && t.Distinct() && IsPiece(body, len, |t.pieces|)
    requires conn.inbox == body[1..] && conn.later == later
    modifies conn`inbox, conn`later, t.files
    ensures Outcome(t, r, old(t.Image()), t.Image(), len, body, later, conn.inbox, conn.later)
  {
    PieceHeaderAt(body);
    r := PeerMsgRecvPiece(t, conn, len - 1);
    ghost var n := if r.Message? then 8 + BlockLength(t, r.msg.index, r.msg.begin) else 8;
    TookMore(1, n, body, later, body[1..], later, conn.inbox, conn.later);
    TookSuffix(1 + n, body, later, conn.inbox, conn.later);
  }

  // A message of an unknown type, or of a length its type does not have, fails;
  // a CANCEL message aborts.
  lemma Refused(t: TorrentInfo, id: nat, len: nat, image: seq<byte>, body: seq<byte>, later: seq<byte>)
    requires len > 0 && |body| > 0 && ByteVal(body[0]) == id
    requires id >= 10 || !ValidLen(id, |t.pieces|, len) || id == 8
    ensures var r := if id == 8 && ValidLen(id, |t.pieces|, len) then Aborted else Failed;
            Outcome(t, r, image, image, len, body, later, body[1..], later)
  {
    TookSuffix(1, body, later, body[1..], later);
    assert DecodeBody(body, len, |t.pieces|) == None;
  }

  // What has been received of a message that is not a PIECE message.
  lemma PayloadOutcome(t: TorrentInfo, r: Received, len: nat, image: seq<byte>, body: seq<byte>, later: seq<byte>,
                       inbox': seq<byte>, later': seq<byte>)
    requires len > 0 && |body| > 0 && ByteVal(body[0]) < 10 && ByteVal(body[0]) != 7 && ByteVal(body[0]) != 8
    requires match DecodeBody(body, len, |t.pieces|)
             case Some((msg, rest)) => r == Message(msg) && inbox' == rest && later' == later
             case None => r == Failed && Took(len - 1, body[1..], later, inbox', later')
    ensures Outcome(t, r, image, image, len, body, later, inbox', later')
  {
    if r == Failed {
      TookMore(1, len - 1, body, later, body[1..], later, inbox', later');
      TookSuffix(len, body, later, inbox', later');
    }
  }

  // The part of peer_msg_recv_pastlen behind the type byte.
  method RecvTyped(t: TorrentInfo, conn: Connection, id: nat, len: nat, ghost body: seq<byte>, ghost later: seq<byte>)
    returns (r: Received)
    requires t.Valid() && t.Distinct() && len > 0 && |body| > 0 && ByteVal(body[0]) == id
    requires conn.inbox == body[1..] && conn.later == later
    modifies conn`inbox, conn`later, t.files
    ensures Outcome(t, r, old(t.Image()), t.Image(), len, body, later, conn.inbox, conn.later)
  {
    if id >= 10 || !ValidLen(id, |t.pieces|, len) {
      Refused(t, id, len, t.Image(), body, later);
      return Failed;
    }
    if id == 7 {
      r := RecvPieceBody(t, conn, len, body, later);
      return;
    }
    if id == 8 {
      Refused(t, id, len, t.Image(), body, later);
      return Aborted;
    }
    r := RecvPayload(conn, id, len, |t.pieces|, body);
    PayloadOutcome(t, r, len, t.Image(), body, later, conn.inbox, conn.later);
  }

  /** peer_msg_recv_pastlen */
  method PeerMsgRecvPastLen(t: TorrentInfo, conn: Connection, len: nat) returns (r: Received)
    requires t.Valid() && t.Distinct()
    modifies conn`inbox, conn`later, t.files
    ensures Outcome(t, r, old(t.Image()), t.Image(), len, old(conn.inbox), old(conn.later), conn.inbox, conn.later)
  {
    ghost var body, later := conn.inbox, conn.later;
    if len == 0 {
      return Message(KeepAlive);
    }
    var ok, byte0 := RecvBytes(conn, 1);
    if !ok {
      TookSuffix(1, body, later, conn.inbox, conn.later);
      return Failed;
    }
    r := RecvTyped(t, conn, ByteVal(byte0[0]), len, body, later);
  }

  /** peer_msg_recv: what it returns, what it takes off the stream and what it
      writes are determined by the message at the head of the stream, whatever
      the socket does with the bytes. */
  method PeerMsgRecv(t: TorrentInfo, conn: Connection) returns (r: Received)
    requires t.Valid() && t.Distinct()
    modifies conn`inbox, conn`later, t.files
    ensures Receives(t, r, old(t.Image()), t.Image(), old(conn.inbox), old(conn.later), conn.inbox, conn.later)
  {
    ghost var stream, later := conn.inbox, conn.later;
    var ok, prefix := RecvBytes(conn, 4);
    if !ok {
      TookSuffix(4, stream, later, conn.inbox, conn.later);
      return Failed;
    }
    r := PeerMsgRecvPastLen(t, conn, U32(prefix));
    OutcomeIs(t, r, old(t.Image()), t.Image(), stream, later, conn.inbox, conn.later);
  }

  ghost predicate Receives(t: TorrentInfo, r: Received, image0: seq<byte>, image: seq<byte>,
                            stream: seq<byte>, later: seq<byte>, inbox': seq<byte>, later': seq<byte>)
  {
    match Reading(t, stream)
    case None =>
      && r == (if |stream| >= 4 && Aborts(t, stream[4..], U32(stream[..4])) then Aborted else Failed)
      && image == image0 && Suffix(inbox' + later', stream + later)
    case Some(read) =>
      && r == Message(read.msg) && Took(read.used, stream, later, inbox', later')
      && (if read.msg.Piece? then Stored(t, image0, image, read.msg.index, read.msg.begin, stream[13..])
          else image == image0)
  }

  lemma OutcomeIs(t: TorrentInfo, r: Received, image0: seq<byte>, image: seq<byte>,
                  stream: seq<byte>, later: seq<byte>, inbox': seq<byte>, later': seq<byte>)
    requires |stream| >= 4
    requires Outcome(t, r, image0, image, U32(stream[..4]), stream[4..], later, inbox', later')
    ensures Receives(t, r, image0, image, stream, later, inbox', later')
  {
    var body := stream[4..];
    match ReadBody(t, body, U32(stream[..4]))
    case None =>
      assert stream + later == stream[..4] + (body + later);
      SuffixTransitive(inbox' + later', body + later, stream + later);
    case Some(read) =>
      TookMore(4, read.used, stream, later, body, later, inbox', later');
      if read.msg.Piece? {
        assert body[9..] == stream[13..];
      }
  }

  // A message other than PIECE is read exactly when the stream decodes, and is
  // what it decodes to.
  lemma ReadingIsDecode(t: TorrentInfo, stream: seq<byte>)
    ensures match Reading(t, stream)
            case Some(read) =>
              !read.msg.Piece? ==> Decode(stream, |t.pieces|) == Some((read.msg, stream[read.used..]))
            case None => Decode(stream, |t.pieces|) == None
  {
    if |stream| >= 4 {
      var body, len := stream[4..], U32(stream[..4]);
      assert len <= |body| ==> body[len..] == stream[4 + len..];
    }
  }

  // peer_msg_recv of a message that decodes.
  method RecvDecoded(t: TorrentInfo, conn: Connection) returns (r: Received)
    requires t.Valid() && t.Distinct()
    modifies conn`inbox, conn`later, t.files
    ensures match Decode(old(conn.inbox), |t.pieces|)
            case Some((msg, rest)) =>
              r == Message(msg) && conn.inbox == rest && conn.later == old(conn.later) && t.Image() == old(t.Image())
            case None => true
  {
    ReadingIsDecode(t, conn.inbox);
    PieceIsNotDecoded(t, conn.inbox);
    r := PeerMsgRecv(t, conn);
  }

  lemma PieceIsNotDecoded(t: TorrentInfo, stream: seq<byte>)
    ensures Reading(t, stream).Some? && Reading(t, stream).value.msg.Piece? ==> Decode(stream, |t.pieces|) == None
  {}

  /** A message that the client sends is read by another, whatever follows it. */
  lemma SentIsRead(t: TorrentInfo, msg: Msg, rest: seq<byte>)
    requires Sendable(msg) && Fits(msg, |t.pieces|) && 0 < |t.pieces| && NumBytes(|t.pieces|) + 1 < TWO32
    ensures var bytes := SentBytes(msg, |t.pieces|);
            && Reading(t, bytes + rest) == Some(Read(Arrives(msg), |bytes|)) && (bytes + rest)[|bytes|..] == rest
  {
    var stream := SentBytes(msg, |t.pieces|) + rest;
    RoundTrip(msg, |t.pieces|, rest);
    ReadingIsDecode(t, stream);
    PieceIsNotDecoded(t, stream);
    assert |stream[Reading(t, stream).value.used..]| == |rest|;
  }

  lemma DecodeAllNext(s: seq<byte>, n: nat, pieces: nat, msgs: seq<Msg>, rest: seq<byte>)
    requires n > 0 && DecodeAll(s, n, pieces) == Some((msgs, rest))
    ensures |msgs| > 0 && Decode(s, pieces).Some? && Decode(s, pieces).value.0 == msgs[0]
    ensures DecodeAll(Decode(s, pieces).value.1, n - 1, pieces) == Some((msgs[1..], rest))
  {}

  // What is still to be received, when the messages decode: n of them, left.
  ghost predicate ToReceive(stream: seq<byte>, n: nat, pieces: nat, left: seq<Msg>, rest: seq<byte>) {
    DecodeAll(stream, n, pieces) == Some((left, rest))
  }

  lemma AllReceived(stream: seq<byte>, pieces: nat, msgs: seq<Msg>, left: seq<Msg>, rest: seq<byte>)
    requires ToReceive(stream, 0, pieces, left, rest)
    ensures stream == rest && msgs + left == msgs
  {}

  // The next of n messages, when they decode, after those in got.
  method RecvNext(t: TorrentInfo, conn: Connection, got: seq<Msg>,
                  ghost n: nat, ghost good: bool, ghost left: seq<Msg>, ghost rest: seq<byte>)
    returns (r: Received, ghost left': seq<Msg>)
    requires t.Valid() && t.Distinct() && n > 0
    requires good ==> ToReceive(conn.inbox, n, |t.pieces|, left, rest)
    modifies conn`inbox, conn`later, t.files
    ensures good ==>
              && r.Message? && got + [r.msg] + left' == got + left
              && ToReceive(conn.inbox, n - 1, |t.pieces|, left', rest)
              && conn.later == old(conn.later) && t.Image() == old(t.Image())
  {
    left' := left;
    if good {
      DecodeAllNext(conn.inbox, n, |t.pieces|, left, rest);
      left' := left[1..];
      assert [left[0]] + left' == left;
    }
    r := RecvDecoded(t, conn);
  }

  // The loop that receives n messages, which decode as all when good is set.
  method RecvLoop(t: TorrentInfo, conn: Connection, n: nat, ghost good: bool, ghost all: seq<Msg>, ghost rest: seq<byte>)
    returns (msgs: seq<Msg>)
    requires t.Valid() && t.Distinct()
    requires good ==> ToReceive(conn.inbox, n, |t.pieces|, all, rest)
    modifies conn`inbox, conn`later, t.files
    ensures good ==> msgs == all && conn.inbox == rest && conn.later == old(conn.later) && t.Image() == old(t.Image())
  {
    msgs := [];
    ghost var left, later, image := all, conn.later, t.Image();
    ghost var todo := n;
    for i := 0 to n
      invariant todo == n - i && (good ==> ToReceive(conn.inbox, todo, |t.pieces|, left, rest))
      invariant good ==> msgs + left == all && conn.later == later && t.Image() == image
    {
      var r;
      r, left := RecvNext(t, conn, msgs, todo, good, left, rest);
      todo := todo - 1;
      if !r.Message? {
        return;
      }
      msgs := msgs + [r.msg];
    }
    if good {
      AllReceived(conn.inbox, |t.pieces|, msgs, left, rest);
    }
  }

  /** Receives n messages, or as many as come before something else. */
  method RecvMessages(t: TorrentInfo, conn: Connection, n: nat) returns (msgs: seq<Msg>)
    requires t.Valid() && t.Distinct()
    modifies conn`inbox, conn`later, t.files
    ensures match DecodeAll(old(conn.inbox), n, |t.pieces|)
            case Some((decoded, rest)) =>
              msgs == decoded && conn.inbox == rest && conn.later == old(conn.later) && t.Image() == old(t.Image())
            case None => true
  {
    ghost var all := DecodeAll(conn.inbox, n, |t.pieces|);
    msgs := RecvLoop(t, conn, n, all.Some?, if all.Some? then all.value.0 else [], if all.Some? then all.value.1 else []);
  }

  /** Messages written by one client are read back by another as they were sent,
      using up exactly the bytes that were written, whatever the sockets do with
      the bytes. */
  method Exchange(t: TorrentInfo, from: Connection, to: Connection, msgs: seq<Msg>, ghost rest: seq<byte>)
    returns (received: seq<Msg>)
    requires t.Valid() && t.Distinct() && from != to
    requires forall i | 0 <= i < |msgs| :: Sendable(msgs[i]) && Fits(msgs[i], |t.pieces|)
    requires 0 < |t.pieces| && NumBytes(|t.pieces|) + 1 < TWO32
    // All the bytes go out, and are what the other side has to read.
    requires |SentAll(msgs, |t.pieces|)| <= from.room && to.inbox == SentAll(msgs, |t.pieces|) + rest
    modifies from`outbox, from`room, to`inbox, to`later, t.files
    ensures from.outbox == old(from.outbox) + SentAll(msgs, |t.pieces|)
    ensures received == ArrivesAll(msgs) && to.inbox == rest && t.Image() == old(t.Image())
  {
    var ok := SendMessages(from, |t.pieces|, msgs);
    StreamRoundTrip(msgs, |t.pieces|, rest);
    received := RecvMessages(t, to, |msgs|);
  }

  // The client takes as many bytes for a PIECE message as it announces exactly
  // when what it brings is as long as the block.
  lemma ConsumedIff(t: TorrentInfo, stream: seq<byte>)
    requires Reading(t, stream).Some? && Reading(t, stream).value.msg.Piece?
    ensures var read := Reading(t, stream).value;
            read.used == 4 + U32(stream[..4]) <==> read.msg.blockLen == BlockLength(t, read.msg.index, read.msg.begin)
  {}

  // The bytes of a PIECE message (BEP 3).
  function PieceText(index: uint32, begin: uint32, data: seq<byte>): (text: seq<byte>)
    ensures |text| == 13 + |data|
  {
    BigEndian(9 + |data|, 4) + PieceBody(index, begin, data)
  }

  function PieceBody(index: uint32, begin: uint32, data: seq<byte>): (body: seq<byte>)
    ensures |body| == 9 + |data|
  {
    PieceHeader(index, begin) + data
  }

  function PieceHeader(index: uint32, begin: uint32): (header: seq<byte>)
    ensures |header| == 9
  {
    [ByteOf(7)] + BigEndian(index, 4) + BigEndian(begin, 4)
  }

  lemma PieceBodyParts(index: uint32, begin: uint32, data: seq<byte>, rest: seq<byte>)
    ensures var body := PieceBody(index, begin, data) + rest;
            && |body| >= 9 && ByteVal(body[0]) == 7 && U32(body[1..5]) == index && U32(body[5..9]) == begin
            && body[9..] == data + rest
  {
    var body := PieceBody(index, begin, data) + rest;
    ConcatAssoc(PieceHeader(index, begin), data, rest);
    ByteValOf(7);
    BigEndian32RoundTrip(index);
    BigEndian32RoundTrip(begin);
    assert body[1..5] == BigEndian(index, 4) && body[5..9] == BigEndian(begin, 4);
  }

  /** A PIECE message for a block is read as such, whatever follows it. */
  lemma PieceIsRead(t: TorrentInfo, index: uint32, begin: uint32, data: seq<byte>, rest: seq<byte>)
    requires HasBlock(t, index, begin) && 0 < |data| <= PEER_REQUEST_SIZE
    ensures var stream := PieceText(index, begin, data) + rest;
            && Reading(t, stream) == Some(Read(Piece(index, begin, |data|), 13 + BlockLength(t, index, begin)))
            && stream[13..] == data + rest
  {
    var len, body := 9 + |data|, PieceBody(index, begin, data) + rest;
    PrefixOf(len, PieceBody(index, begin, data), rest);
    PieceBodyIsRead(t, index, begin, data, rest);
    PieceBodyParts(index, begin, data, rest);
  }

  lemma PrefixOf(len: uint32, body: seq<byte>, rest: seq<byte>)
    ensures var stream := BigEndian(len, 4) + body + rest;
            |stream| >= 4 && U32(stream[..4]) == len && stream[4..] == body + rest
  {
    var stream := BigEndian(len, 4) + body + rest;
    assert stream[..4] == BigEndian(len, 4);
    BigEndian32RoundTrip(len);
  }

  lemma PieceBodyIsRead(t: TorrentInfo, index: uint32, begin: uint32, data: seq<byte>, rest: seq<byte>)
    requires HasBlock(t, index, begin) && 0 < |data| <= PEER_REQUEST_SIZE
    ensures ReadBody(t, PieceBody(index, begin, data) + rest, 9 + |data|) ==
            Some(Read(Piece(index, begin, |data|), 9 + BlockLength(t, index, begin)))
  {
    PieceBodyParts(index, begin, data, rest);
    assert IsPiece(PieceBody(index, begin, data) + rest, 9 + |data|, |t.pieces|);
  }

  // A PIECE message that brings one byte of a block of 16384: the client takes
  // 16383 bytes of what follows it for the rest of the block.
  lemma ShortPieceMisread(t: TorrentInfo, b: byte) returns (stream: seq<byte>)
    requires HasBlock(t, 0, 0) && BlockLength(t, 0, 0) == PEER_REQUEST_SIZE
    ensures |stream| == 14 && Reading(t, stream) == Some(Read(Piece(0, 0, 1), 13 + PEER_REQUEST_SIZE))
  {
    stream := PieceText(0, 0, [b]);
    PieceIsRead(t, 0, 0, [b], []);
    assert stream + [] == stream;
  }

  // "BitTorrent protocol"
  const PSTR: seq<byte> := [66, 105, 116, 84, 111, 114, 114, 101, 110, 116, 32, 112, 114, 111, 116, 111, 99, 111, 108]

  function Handshake(infoHash: seq<byte>, peerId: seq<byte>): seq<byte> {
    [19] + PSTR + [0, 0, 0, 0, 0, 0, 0, 0] + infoHash + peerId
  }

  /** peer_send_handshake */
  method PeerSendHandshake(conn: Connection, infoHash: seq<byte>, peerId: seq<byte>) returns (ok: bool)
    requires |infoHash| == 20 && |peerId| == 20
    modifies conn`outbox, conn`room
    ensures ok <==> 68 <= old(conn.room)
    ensures conn.outbox == old(conn.outbox) + Taken(Handshake(infoHash, peerId), old(conn.room))
  {
    ok := PeerSendBuff(conn, Handshake(infoHash, peerId));
  }

  function HandshakeLength(wantId: bool): (n: nat)
    ensures n == 48 || n == 68
  {
    if wantId then 68 else 48
  }

  // The stream begins with a handshake that carries this hash and identifier.
  ghost predicate HandshakeAt(stream: seq<byte>, wantId: bool, infoHash: seq<byte>, peerId: seq<byte>) {
    && |stream| >= HandshakeLength(wantId)
    && stream[..20] == [19] + PSTR && stream[28..48] == infoHash
    && (if wantId then stream[48..68] == peerId else peerId == [])
  }

  /** peer_recv_handshake, which reads the peer's identifier only when asked. */
  method PeerRecvHandshake(conn: Connection, wantId: bool) returns (ok: bool, infoHash: seq<byte>, peerId: seq<byte>)
    modifies conn`inbox, conn`later
    ensures ok <==> |old(conn.inbox)| >= HandshakeLength(wantId) && old(conn.inbox)[..20] == [19] + PSTR
    ensures ok ==> HandshakeAt(old(conn.inbox), wantId, infoHash, peerId)
    ensures ok ==> infoHash == old(conn.inbox)[28..48] && (wantId ==> peerId == old(conn.inbox)[48..68])
    ensures Took(HandshakeLength(wantId), old(conn.inbox), old(conn.later), conn.inbox, conn.later)
  {
    infoHash, peerId := [], [];
    ghost var stream := conn.inbox;
    var buff;
    ok, buff := RecvBytes(conn, HandshakeLength(wantId));
    if !ok {
      return;
    }
    assert buff[..20] == [buff[0]] + buff[1..20] == stream[..20];
    assert stream[..20][1..] == buff[1..20] && ([19] + PSTR)[1..] == PSTR;
    if buff[0] != 19 || buff[1..20] != PSTR {
      return false, [], [];
    }
    infoHash := buff[28..48];
    if wantId {
      peerId := buff[48..68];
    }
  }

  // A handshake that was sent carries its own hash and identifier.
  lemma HandshakeRoundTrip(infoHash: seq<byte>, peerId: seq<byte>, wantId: bool, hash: seq<byte>, id: seq<byte>, rest: seq<byte>)
    requires |infoHash| == 20 && |peerId| == 20
    ensures HandshakeAt(Handshake(infoHash, peerId) + rest, wantId, hash, id) <==>
              hash == infoHash && id == if wantId then peerId else []
  {
    var stream := Handshake(infoHash, peerId) + rest;
    assert stream[..20] == [19] + PSTR && stream[28..48] == infoHash && stream[48..68] == peerId;
  }
}
