/** src/peer_connection.cpp: the steps of one connection. */
module PeerConnection {
  import opened Bytes
  import opened FileLayout
  import opened PieceRequest
  import opened PieceLayout
  import opened DownloadMachine
  import opened DownloadSafety
  import opened Courtesy
  import opened Torrent
  import opened PeerMsg
  import opened PeerWire
  import opened Bitfield
  import opened Socket
  import Sha1Spec

  // PEER_NUM_OUTSTANDING_REQUESTS
  const OUTSTANDING: nat := 1

  class ConnState {
    var localChoked: bool
    var localInterested: bool
    var remoteChoked: bool
    var remoteInterested: bool
    var peerHave: seq<bool>
    var localHave: seq<bool>
    var blocksRecvd: nat
    var peerRequests: seq<Msg>
    // The open requests: at most OUTSTANDING.
    var localRequests: seq<PieceRequest.Request>

    /** conn_state_init */
    constructor (t: TorrentInfo)
      requires |t.piecesState| == |t.pieces|
      ensures localChoked && !localInterested && remoteChoked && !remoteInterested
      ensures peerHave == seq(|t.pieces|, _ => false) && localRequests == [] && peerRequests == [] && blocksRecvd == 0
      ensures |localHave| == |t.pieces| && forall i | 0 <= i < |t.pieces| :: localHave[i] <==> t.piecesState[i] == PieceState.Have
    {
      localChoked, localInterested, remoteChoked, remoteInterested := true, false, true, false;
      peerHave := seq(|t.pieces|, _ => false);
      blocksRecvd, peerRequests, localRequests := 0, [], [];
      var have := t.MakeBitfield();
      localHave := have;
    }
  }

  // Which of a request's blocks have arrived.
  function DoneOf(blocks: seq<Block>): (done: seq<bool>)
    ensures |done| == |blocks|
  {
    seq(|blocks|, k requires 0 <= k < |blocks| => blocks[k].completed)
  }

  ghost function OpenOf(r: PieceRequest.Request): Open
    reads r
  {
    Open(r.pieceIndex, DoneOf(r.blockRequests), r.blocksLeft)
  }

  ghost function PeerOf(c: ConnState): Peer
    reads c, c.localRequests
  {
    Peer(c.peerHave, c.localHave, c.localChoked, c.localInterested, |c.peerRequests|,
         if |c.localRequests| == 0 then None else Some(OpenOf(c.localRequests[0])))
  }

  // The machine state that a torrent with these bytes and a connection are in.
  ghost function StateWith(t: TorrentInfo, c: ConnState, image: seq<byte>): State
    reads t, c, c.localRequests
  {
    State(image, t.piecesState, t.piecesLeft, t.completed, Some(PeerOf(c)))
  }

  ghost function StateOf(t: TorrentInfo, c: ConnState): State
    requires t.Valid()
    reads t, t.files, c, c.localRequests
  {
    StateWith(t, c, t.Image())
  }

  ghost predicate HashedBy(m: Meta, s: seq<byte>) {
    m.hash(s) == Sha1Spec.Sha1(s)
  }

  // The torrent has the machine's constants, and SHA-1 for its hash.
  ghost predicate Describes(m: Meta, t: TorrentInfo) {
    && m.total == Total(t.sizes) && m.pieceLength == t.pieceLength && m.hashes == t.pieces
    && forall s {:trigger HashedBy(m, s)} :: HashedBy(m, s)
  }

  // The torrent is one that the client can walk.
  ghost predicate Walkable(m: Meta, t: TorrentInfo) {
    t.Valid() && m.Valid() && Describes(m, t) && WellCut(t.sizes, t.pieceLength, |t.pieces|)
  }

  // The blocks of an open request are those of its piece.
  ghost predicate IsRequestFor(t: TorrentInfo, r: PieceRequest.Request)
    reads r
  {
    && r.pieceIndex < |t.pieces|
    && AreBlocks(t.sizes, r.blockRequests, RequestStart(t.pieceLength, r.pieceIndex),
                 RequestEnd(Total(t.sizes), t.pieceLength, r.pieceIndex))
  }

  ghost predicate Ready(m: Meta, t: TorrentInfo, c: ConnState)
    reads t, t.files, c, c.localRequests
  {
    && Walkable(m, t) && |c.localRequests| <= OUTSTANDING
    && (c.localRequests != [] ==> IsRequestFor(t, c.localRequests[0]))
    && Inv(m, StateOf(t, c))
  }

  lemma RequestMatches(m: Meta, t: TorrentInfo, blocks: seq<Block>, i: nat, k: nat)
    requires Walkable(m, t) && i < |t.pieces|
    requires AreBlocks(t.sizes, blocks, RequestStart(t.pieceLength, i), RequestEnd(Total(t.sizes), t.pieceLength, i))
    ensures RequestStart(t.pieceLength, i) == m.From(i) < m.To(i) == RequestEnd(Total(t.sizes), t.pieceLength, i)
    ensures |blocks| == m.Blocks(i)
    ensures k < |blocks| ==> blocks[k].begin == PEER_REQUEST_SIZE * k && blocks[k].len == m.BlockLen(i, k)
  {
    WellCutRequest(t.sizes, t.pieceLength, |t.pieces|, i);
    if k < |blocks| {
      BlockCovers(t.sizes, blocks, m.From(i), m.To(i), k);
    }
  }

  /** The inner loop of process_piece_msg: marks the first block of that begin
      and length, and counts it. */
  method MarkBlock(m: Meta, t: TorrentInfo, r: PieceRequest.Request, begin: nat, len: nat)
    requires Walkable(m, t) && IsRequestFor(t, r) && r.blocksLeft > 0
    modifies r`blockRequests, r`blocksLeft
    ensures OpenOf(r) == Mark(m, old(OpenOf(r)), begin, len) && IsRequestFor(t, r)
    ensures (forall k | 0 <= k < |old(r.blockRequests)| ::
               !(old(r.blockRequests)[k].begin == begin && old(r.blockRequests)[k].len == len)) ==>
              r.blockRequests == old(r.blockRequests) && r.blocksLeft == old(r.blocksLeft)
    ensures forall k | 0 <= k < |old(r.blockRequests)|
                     && old(r.blockRequests)[k].begin == begin && old(r.blockRequests)[k].len == len ::
              && r.blockRequests == old(r.blockRequests)[k := old(r.blockRequests)[k].(completed := true)]
              && r.blocksLeft == old(r.blocksLeft) - 1
  {
    var blocks := r.blockRequests;
    var k := 0;
    while k < |blocks|
      invariant k <= |blocks| && r.blockRequests == blocks && r.blocksLeft == old(r.blocksLeft)
      invariant forall j | 0 <= j < k :: !(blocks[j].begin == begin && blocks[j].len == len)
      invariant forall j | 0 <= j < k :: !Names(m, r.pieceIndex, j, begin, len)
    {
      RequestMatches(m, t, blocks, r.pieceIndex, k);
      if blocks[k].len == len && blocks[k].begin == begin {
        assert begin / PEER_REQUEST_SIZE == k;
        r.blockRequests := blocks[k := blocks[k].(completed := true)];
        r.blocksLeft := r.blocksLeft - 1;
        assert DoneOf(r.blockRequests) == DoneOf(blocks)[k := true];
        OneBegin(t, blocks, r.pieceIndex, k);
        SameBlocks(t.sizes, blocks, k, RequestStart(t.pieceLength, r.pieceIndex),
                   RequestEnd(Total(t.sizes), t.pieceLength, r.pieceIndex));
        return;
      }
      k := k + 1;
    }
  }

  // No other block begins where block k does.
  lemma OneBegin(t: TorrentInfo, blocks: seq<Block>, i: nat, k: nat)
    requires AreBlocks(t.sizes, blocks, RequestStart(t.pieceLength, i), RequestEnd(Total(t.sizes), t.pieceLength, i))
    requires k < |blocks|
    ensures forall j | 0 <= j < |blocks| && blocks[j].begin == blocks[k].begin :: j == k
  {
    var from, to := RequestStart(t.pieceLength, i), RequestEnd(Total(t.sizes), t.pieceLength, i);
    forall j | 0 <= j < |blocks| && blocks[j].begin == blocks[k].begin
      ensures j == k
    {
      assert IsBlock(t.sizes, blocks[j], from, to, j) && IsBlock(t.sizes, blocks[k], from, to, k);
    }
  }

  lemma SameBlocks(sizes: seq<nat>, blocks: seq<Block>, k: nat, from: nat, to: nat)
    requires AreBlocks(sizes, blocks, from, to) && k < |blocks|
    ensures AreBlocks(sizes, blocks[k := blocks[k].(completed := true)], from, to)
  {
    var marked := blocks[k := blocks[k].(completed := true)];
    forall j | 0 <= j < |marked|
      ensures IsBlock(sizes, marked[j], from, to, j)
    {
      assert IsBlock(sizes, blocks[j], from, to, j);
    }
  }

  /** torrent_sha1_verify in the machine's terms. */
  method CheckPiece(m: Meta, t: TorrentInfo, index: nat) returns (valid: bool)
    requires Walkable(m, t) && index < |t.pieces|
    ensures valid <==> Verified(m, t.Image(), index)
    ensures var from, to := t.pieceLength * index, Min(t.pieceLength * (index + 1), Total(t.sizes));
            0 <= from < to <= Total(t.sizes) && (valid <==> Sha1Spec.Sha1(t.Image()[from..to]) == t.pieces[index])
  {
    valid := t.Sha1Verify(index);
    ghost var image := t.Image();
    WellCutRequest(t.sizes, t.pieceLength, |t.pieces|, index);
    assert RequestBytes(image, t.pieceLength, index) == PieceBytes(m, image, index);
    assert HashedBy(m, PieceBytes(m, image, index));
  }

  lemma AtLeast(a: nat, b: nat)
    requires a > 0
    ensures b <= a * b
  {}

  lemma IndexFits(m: Meta, t: TorrentInfo, i: nat)
    requires Walkable(m, t) && i < |t.pieces|
    ensures i < TWO32
  {
    AtLeast(t.pieceLength, i);
    assert PieceStart(t.pieceLength, i) < TWO32;
  }

  // A call has added these bytes to the stream, or as many as there was room
  // for, and what room there is then.
  ghost predicate Told(before: seq<byte>, after: seq<byte>, bytes: seq<byte>, room: nat, room': nat) {
    after == before + Taken(bytes, room) && Paid(bytes, room, room')
  }

  ghost predicate Paid(bytes: seq<byte>, room: nat, room': nat) {
    |bytes| <= room ==> room' == room - |bytes|
  }

  method Tell(conn: Connection, pieces: nat, msg: Msg) returns (ok: bool)
    requires Sendable(msg)
    modifies conn`outbox, conn`room
    ensures ok <==> |SentBytes(msg, pieces)| <= old(conn.room)
    ensures Told(old(conn.outbox), conn.outbox, SentBytes(msg, pieces), old(conn.room), conn.room)
    ensures ok ==> conn.outbox == old(conn.outbox) + SentBytes(msg, pieces)
    ensures ok ==> conn.room == old(conn.room) - |SentBytes(msg, pieces)|
  {
    ok := PeerMsgSend(conn, pieces, msg);
  }

  // The HAVE message for a piece that has become HAVE.
  function HaveNews(before: seq<PieceState>, after: seq<PieceState>, index: nat): seq<byte> {
    if index < |before| && index < |after| && index < TWO32
       && before[index] != PieceState.Have && after[index] == PieceState.Have
    then SentBytes(Msg.Have(index), |after|) else []
  }

  // What process_piece_msg does to the shared state when a request is full,
  // and the HAVE message for a piece that is right.
  method FinishPiece(m: Meta, t: TorrentInfo, conn: Connection, index: nat, ghost image: seq<byte>) returns (valid: bool)
    requires Walkable(m, t) && image == t.Image() && index < |t.pieces| && |t.piecesState| == |t.pieces|
    requires t.piecesState[index] == Requested && t.piecesLeft > 0
    modifies t`piecesState, t`piecesLeft, t`completed, conn`outbox, conn`room
    ensures valid <==> Verified(m, image, index)
    ensures t.piecesState == old(t.piecesState)[index := if valid then PieceState.Have else NotRequested]
    ensures t.piecesLeft == old(t.piecesLeft) - if valid then 1 else 0
    ensures t.completed == (old(t.completed) || (valid && t.piecesLeft == 0))
    ensures Told(old(conn.outbox), conn.outbox, HaveNews(old(t.piecesState), t.piecesState, index), old(conn.room), conn.room)
    ensures index < TWO32
    ensures conn.outbox ==
            old(conn.outbox) + if valid then Taken(SentBytes(Msg.Have(index), |t.pieces|), old(conn.room)) else []
  {
    IndexFits(m, t, index);
    valid := CheckPiece(m, t, index);
    if !valid {
      t.piecesState := t.piecesState[index := NotRequested];
    } else {
      t.HandlePieceDnldCompletion(index);
      SendHave(conn, index, |t.pieces|);
    }
  }

  // The HAVE message at the end of handle_piece_dnld_completion.
  method SendHave(conn: Connection, index: uint32, pieces: nat)
    modifies conn`outbox, conn`room
    ensures Told(old(conn.outbox), conn.outbox, SentBytes(Msg.Have(index), pieces), old(conn.room), conn.room)
  {
    var _ := Tell(conn, pieces, Msg.Have(index));
  }

  // The machine's step for the block that completes a request.
  lemma ArriveLast(m: Meta, s: State, i: nat, begin: nat, len: nat)
    requires |s.pieces| == |m.hashes| && i < |s.pieces| && s.pieces[i] == Requested
    requires s.peer.Some? && s.peer.value.open.Some? && s.peer.value.open.value.index == i
    requires Mark(m, s.peer.value.open.value, begin, len).left == 0
    ensures var verified := Verified(m, s.image, i);
            var left := s.piecesLeft - if verified then 1 else 0;
            ArriveStep(m, s, i, begin, len) ==
            State(s.image, s.pieces[i := if verified then PieceState.Have else NotRequested], left,
                  s.completed || (verified && left == 0), Some(s.peer.value.(open := None)))
  {}

  // The machine's step for a message that leaves the request open.
  lemma ArriveMore(m: Meta, s: State, i: nat, begin: nat, len: nat)
    requires |s.pieces| == |m.hashes| && i < |s.pieces|
    requires s.peer.Some? && s.peer.value.open.Some? && s.peer.value.open.value.index == i
    requires Mark(m, s.peer.value.open.value, begin, len).left != 0
    ensures ArriveStep(m, s, i, begin, len) ==
            State(s.image, s.pieces, s.piecesLeft, s.completed,
                  Some(s.peer.value.(open := Some(Mark(m, s.peer.value.open.value, begin, len)))))
  {}

  // process_piece_msg once it has found the open request of the piece.
  method AnswerRequest(m: Meta, t: TorrentInfo, c: ConnState, conn: Connection, r: PieceRequest.Request,
                       begin: nat, len: nat, ghost image: seq<byte>)
    requires Walkable(m, t) && image == t.Image() && IsRequestFor(t, r) && c.localRequests == [r]
    requires |t.piecesState| == |t.pieces| && t.piecesState[r.pieceIndex] == Requested
    requires t.piecesLeft > 0 && r.blocksLeft > 0
    modifies t`piecesState, t`piecesLeft, t`completed, c`localRequests,
             r`blockRequests, r`blocksLeft, conn`outbox, conn`room
    ensures c.localRequests == if r.blocksLeft == 0 then [] else [r]
    ensures IsRequestFor(t, r)
    ensures StateWith(t, c, image) == ArriveStep(m, old(StateWith(t, c, image)), r.pieceIndex, begin, len)
    ensures Told(old(conn.outbox), conn.outbox, HaveNews(old(t.piecesState), t.piecesState, r.pieceIndex), old(conn.room), conn.room)
  {
    ghost var before := StateWith(t, c, image);
    MarkBlock(m, t, r, begin, len);
    if r.blocksLeft == 0 {
      var valid := FinishPiece(m, t, conn, r.pieceIndex, image);
      c.localRequests := [];
      ArriveLast(m, before, r.pieceIndex, begin, len);
    } else {
      ArriveMore(m, before, r.pieceIndex, begin, len);
    }
  }

  method AnswerOpen(m: Meta, t: TorrentInfo, c: ConnState, conn: Connection, begin: nat, len: nat)
    requires Ready(m, t, c) && c.localRequests != []
    modifies t`piecesState, t`piecesLeft, t`completed, c`localRequests, c.localRequests,
             conn`outbox, conn`room
    ensures Ready(m, t, c)
    ensures var index := old(c.localRequests[0].pieceIndex);
            && StateOf(t, c) == ArriveStep(m, old(StateOf(t, c)), index, begin, len)
            && Told(old(conn.outbox), conn.outbox, HaveNews(old(t.piecesState), t.piecesState, index), old(conn.room), conn.room)
    ensures c.localRequests == old(c.localRequests) || c.localRequests == []
  {
    ghost var before := StateOf(t, c);
    var r := c.localRequests[0];
    ArriveInv(m, before, r.pieceIndex, begin, len);
    CountMissingUpdate(t.piecesState, r.pieceIndex, PieceState.Have);
    AnswerRequest(m, t, c, conn, r, begin, len, t.Image());
    assert StateOf(t, c) == ArriveStep(m, before, r.pieceIndex, begin, len);
  }

  /** process_piece_msg */
  method ProcessPieceMsg(m: Meta, t: TorrentInfo, c: ConnState, conn: Connection, index: nat, begin: nat, len: nat)
    requires Ready(m, t, c)
    modifies t`piecesState, t`piecesLeft, t`completed, c`localRequests, c.localRequests,
             conn`outbox, conn`room
    ensures Ready(m, t, c) && StateOf(t, c) == ArriveStep(m, old(StateOf(t, c)), index, begin, len)
    ensures c.localRequests == old(c.localRequests) || c.localRequests == []
    ensures Told(old(conn.outbox), conn.outbox, HaveNews(old(t.piecesState), t.piecesState, index), old(conn.room), conn.room)
    // A HAVE message for the piece, if it has become HAVE, and nothing else.
    ensures |t.piecesState| == |old(t.piecesState)| == |t.pieces| && (index < |t.pieces| ==> index < TWO32)
    ensures if index < |t.pieces| && old(t.piecesState)[index] != PieceState.Have && t.piecesState[index] == PieceState.Have
            then conn.outbox == old(conn.outbox) + Taken(SentBytes(Msg.Have(index), |t.pieces|), old(conn.room))
            else conn.outbox == old(conn.outbox)
  {
    ghost var before, outbox, room := t.piecesState, conn.outbox, conn.room;
    if c.localRequests != [] && c.localRequests[0].pieceIndex == index {
      AnswerOpen(m, t, c, conn, begin, len);
    }
    if index < |t.pieces| {
      IndexFits(m, t, index);
    }
    ToldHave(before, t.piecesState, index, outbox, conn.outbox, room, conn.room);
  }

  // What is told of a piece that may have become HAVE.
  lemma ToldHave(before: seq<PieceState>, after: seq<PieceState>, index: nat, outbox: seq<byte>, outbox': seq<byte>,
                 room: nat, room': nat)
    requires |before| == |after| && (index < |before| ==> index < TWO32)
    requires Told(outbox, outbox', HaveNews(before, after, index), room, room')
    ensures if index < |before| && before[index] != PieceState.Have && after[index] == PieceState.Have
            then outbox' == outbox + Taken(SentBytes(Msg.Have(index), |before|), room)
            else outbox' == outbox
  {}

  lemma BlockAsks(m: Meta, i: nat, k: nat)
    requires m.Valid() && m.pieceLength < TWO32 && i < |m.hashes| && k < m.Blocks(i)
    ensures PEER_REQUEST_SIZE * k < TWO32 && 0 < m.BlockLen(i, k) < TWO32
  {
    PieceRange(m, i);
    assert m.pieceLength * (i + 1) == m.pieceLength * i + m.pieceLength;
  }

  function AskMsg(m: Meta, i: uint32, k: nat): Msg
    requires m.Valid() && m.pieceLength < TWO32 && i < |m.hashes| && k < m.Blocks(i)
  {
    BlockAsks(m, i, k);
    Msg.Request(i, PEER_REQUEST_SIZE * k, m.BlockLen(i, k))
  }

  /** The messages that ask for the blocks of piece i, in order. */
  function AskMsgs(m: Meta, i: uint32): (msgs: seq<Msg>)
    requires m.Valid() && m.pieceLength < TWO32 && i < |m.hashes|
    ensures |msgs| == m.Blocks(i)
    ensures forall k: nat | k < |msgs| :: msgs[k] == AskMsg(m, i, k)
  {
    seq(m.Blocks(i), k requires 0 <= k < m.Blocks(i) => AskMsg(m, i, k))
  }

  // The message that asks for block k is one of them.
  lemma AskMsgAt(m: Meta, t: TorrentInfo, blocks: seq<Block>, i: uint32, k: nat)
    requires Walkable(m, t) && i < |t.pieces| && m.pieceLength < TWO32 && k < |blocks|
    requires AreBlocks(t.sizes, blocks, RequestStart(t.pieceLength, i), RequestEnd(Total(t.sizes), t.pieceLength, i))
    ensures k < |AskMsgs(m, i)| && blocks[k].begin < TWO32 && blocks[k].len < TWO32
    ensures AskMsgs(m, i)[k] == Msg.Request(i, blocks[k].begin, blocks[k].len)
  {
    RequestMatches(m, t, blocks, i, k);
    BlockAsks(m, i, k);
  }

  // Asks for block k, when the blocks before it have been asked for.
  method SendBlockAt(m: Meta, t: TorrentInfo, conn: Connection, blocks: seq<Block>, i: uint32, k: nat,
                     ghost msgs: seq<Msg>, ghost before: seq<byte>, ghost all: seq<byte>, ghost room: nat)
    returns (ok: bool)
    requires Walkable(m, t) && i < |t.pieces| && m.pieceLength < TWO32 && k < |blocks| && msgs == AskMsgs(m, i)
    requires AreBlocks(t.sizes, blocks, RequestStart(t.pieceLength, i), RequestEnd(Total(t.sizes), t.pieceLength, i))
    requires k < |msgs| && SentSoFar(conn, before, all, SentAll(msgs[k..], |t.pieces|), room)
    modifies conn`outbox, conn`room
    ensures ok ==> SentSoFar(conn, before, all, SentAll(msgs[k + 1..], |t.pieces|), room)
    ensures !ok ==> |all| > room && conn.outbox == before + Taken(all, room)
  {
    AskMsgAt(m, t, blocks, i, k);
    ok := SendNext(conn, |t.pieces|, Msg.Request(i, blocks[k].begin, blocks[k].len), msgs, k, before, all, room);
  }

  // The loop of send_requests: asks for the blocks of a fresh request in order.
  method SendAsks(m: Meta, t: TorrentInfo, conn: Connection, blocks: seq<Block>, i: uint32, ghost msgs: seq<Msg>)
    returns (ok: bool)
    requires Walkable(m, t) && i < |t.pieces| && m.pieceLength < TWO32 && |blocks| == |msgs| && msgs == AskMsgs(m, i)
    requires AreBlocks(t.sizes, blocks, RequestStart(t.pieceLength, i), RequestEnd(Total(t.sizes), t.pieceLength, i))
    modifies conn`outbox, conn`room
    ensures ok <==> |SentAll(msgs, |t.pieces|)| <= old(conn.room)
    ensures Told(old(conn.outbox), conn.outbox, SentAll(msgs, |t.pieces|), old(conn.room), conn.room)
  {
    ghost var before, all, room := conn.outbox, SentAll(msgs, |t.pieces|), conn.room;
    assert msgs[0..] == msgs;
    for k := 0 to |blocks|
      invariant SentSoFar(conn, before, all, SentAll(msgs[k..], |t.pieces|), room)
    {
      ok := SendBlockAt(m, t, conn, blocks, i, k, msgs, before, all, room);
      if !ok {
        return;
      }
    }
    ok := true;
    AllSent(conn.outbox, before, all, SentAll(msgs[|msgs|..], |t.pieces|));
  }

  // Sends the messages for the blocks of a fresh request, one by one.
  method SendBlockRequests(m: Meta, t: TorrentInfo, conn: Connection, r: PieceRequest.Request) returns (ok: bool)
    requires Walkable(m, t) && IsRequestFor(t, r)
    modifies conn`outbox, conn`room
    ensures var bytes := RequestsFor(m, r.pieceIndex, |t.pieces|);
            && Told(old(conn.outbox), conn.outbox, bytes, old(conn.room), conn.room)
            && (ok <==> |bytes| <= old(conn.room))
  {
    IndexFits(m, t, r.pieceIndex);
    RequestMatches(m, t, r.blockRequests, r.pieceIndex, 0);
    ok := SendAsks(m, t, conn, r.blockRequests, r.pieceIndex, AskMsgs(m, r.pieceIndex));
  }

  // The bytes of the messages that ask for all blocks of piece i.
  ghost function RequestsFor(m: Meta, i: nat, pieces: nat): seq<byte> {
    if m.Valid() && m.pieceLength < TWO32 && i < |m.hashes| && i < TWO32 then SentAll(AskMsgs(m, i), pieces) else []
  }

  // The bytes that send_requests sends.
  ghost function AskBytes(m: Meta, picked: Option<nat>, interested: bool, pieces: nat): seq<byte> {
    if picked.Some? then RequestsFor(m, picked.value, pieces) else GoodBye(interested, pieces)
  }

  // A fresh request is an open request none of whose blocks has arrived.
  lemma FreshOpen(m: Meta, t: TorrentInfo, r: PieceRequest.Request, i: nat)
    requires Walkable(m, t) && i < |t.pieces| && Created(t.sizes, t.pieceLength, i, r)
    ensures IsRequestFor(t, r)
    ensures OpenOf(r) == Open(i, seq(m.Blocks(i), _ => false), m.Blocks(i))
  {
    RequestMatches(m, t, r.blockRequests, i, 0);
    assert DoneOf(r.blockRequests) == seq(m.Blocks(i), _ => false);
  }

  // The part of send_requests that opens a request for the picked piece.
  method OpenRequest(m: Meta, t: TorrentInfo, c: ConnState, i: nat) returns (r: PieceRequest.Request)
    requires Walkable(m, t) && i < |t.pieces| && c.localRequests == []
    modifies c`localRequests
    ensures fresh(r) && c.localRequests == [r] && IsRequestFor(t, r) && r.pieceIndex == i
    ensures OpenOf(r) == Open(i, seq(m.Blocks(i), _ => false), m.Blocks(i))
  {
    r := new PieceRequest.Request();
    PieceRequestCreate(t.sizes, t.pieceLength, i, r);
    FreshOpen(m, t, r, i);
    c.localRequests := c.localRequests + [r];
  }

  /** show_not_interested */
  method ShowNotInterested(c: ConnState, conn: Connection, pieces: nat)
    modifies c`localInterested, conn`outbox, conn`room
    ensures Told(old(conn.outbox), conn.outbox, SentBytes(NotInterested, pieces), old(conn.room), conn.room)
    ensures c.localInterested <==> old(c.localInterested) && |SentBytes(NotInterested, pieces)| > old(conn.room)
  {
    var ok := Tell(conn, pieces, NotInterested);
    if ok {
      c.localInterested := false;
    }
  }

  // The parts of send_requests that change the machine's state.
  method PickAndOpen(m: Meta, t: TorrentInfo, c: ConnState) returns (picked: Option<nat>)
    requires Ready(m, t, c) && c.localRequests == []
    modifies t`piecesState, c`localRequests
    ensures Ready(m, t, c) && IsPick(old(t.piecesState), c.peerHave, picked)
    ensures StateOf(t, c) == AskStep(m, old(StateOf(t, c)), picked, false)
    ensures picked.None? ==> c.localRequests == []
    ensures picked.Some? ==>
              && |c.localRequests| == 1 && fresh(c.localRequests[0]) && c.localRequests[0].pieceIndex == picked.value
              && picked.value < |t.pieces| && old(t.piecesState)[picked.value] != PieceState.Have
  {
    ghost var before := StateOf(t, c);
    picked := t.NextRequest(c.peerHave);
    if picked.Some? {
      var r := OpenRequest(m, t, c, picked.value);
    }
    assert StateOf(t, c) == AskStep(m, before, picked, false);
    AskInv(m, before, picked, false);
  }

  // The NOT INTERESTED message that follows when there is nothing to ask.
  function GoodBye(interested: bool, pieces: nat): seq<byte> {
    if interested then SentBytes(NotInterested, pieces) else []
  }

  // The state after the client has said whether it is interested.
  function WithInterest(s: State, interested: bool): State
    requires s.peer.Some?
  {
    s.(peer := Some(s.peer.value.(interested := interested)))
  }

  method SayGoodBye(m: Meta, t: TorrentInfo, c: ConnState, conn: Connection)
    requires Ready(m, t, c)
    modifies c`localInterested, conn`outbox, conn`room
    ensures Ready(m, t, c)
    ensures var bytes := GoodBye(old(c.localInterested), |t.pieces|);
            && StateOf(t, c) == WithInterest(old(StateOf(t, c)), old(c.localInterested) && |bytes| > old(conn.room))
            && Told(old(conn.outbox), conn.outbox, bytes, old(conn.room), conn.room)
  {
    ghost var before := StateOf(t, c);
    if c.localInterested {
      ShowNotInterested(c, conn, |t.pieces|);
    }
    assert StateOf(t, c) == WithInterest(before, c.localInterested);
  }

  // The messages of send_requests.
  method TellPeer(m: Meta, t: TorrentInfo, c: ConnState, conn: Connection, picked: Option<nat>) returns (ok: bool)
    requires Ready(m, t, c)
    requires picked.Some? ==> |c.localRequests| == 1 && c.localRequests[0].pieceIndex == picked.value
    modifies c`localInterested, conn`outbox, conn`room
    ensures Ready(m, t, c)
    ensures var bytes := AskBytes(m, picked, old(c.localInterested), |t.pieces|);
            && Told(old(conn.outbox), conn.outbox, bytes, old(conn.room), conn.room)
            && (ok <==> picked.None? || |bytes| <= old(conn.room))
            && StateOf(t, c) == (if picked.Some? then old(StateOf(t, c))
                                 else WithInterest(old(StateOf(t, c)), old(c.localInterested) && |bytes| > old(conn.room)))
  {
    ok := true;
    if picked.Some? {
      ok := AskForBlocks(m, t, c, conn);
    } else {
      SayGoodBye(m, t, c, conn);
    }
  }

  // Asks for the blocks of the open request.
  method AskForBlocks(m: Meta, t: TorrentInfo, c: ConnState, conn: Connection) returns (ok: bool)
    requires Ready(m, t, c) && |c.localRequests| == 1
    modifies conn`outbox, conn`room
    ensures Ready(m, t, c) && StateOf(t, c) == old(StateOf(t, c))
    ensures var bytes := RequestsFor(m, c.localRequests[0].pieceIndex, |t.pieces|);
            && Told(old(conn.outbox), conn.outbox, bytes, old(conn.room), conn.room)
            && (ok <==> |bytes| <= old(conn.room))
  {
    ok := SendBlockRequests(m, t, conn, c.localRequests[0]);
  }

  /** send_requests: with a request open it does nothing; otherwise it opens one
      for a piece that the client does not have and asks the peer for every block
      of that piece.  When there is none an interested client says that it is not
      interested. */
  method SendRequests(m: Meta, t: TorrentInfo, c: ConnState, conn: Connection) returns (ok: bool, picked: Option<nat>)
    requires Ready(m, t, c)
    modifies t`piecesState, c`localRequests, c`localInterested, conn`outbox, conn`room
    ensures Ready(m, t, c)
    ensures old(c.localRequests) != [] ==>
              && ok && StateOf(t, c) == old(StateOf(t, c)) && conn.outbox == old(conn.outbox) && conn.room == old(conn.room)
    ensures c.localRequests == old(c.localRequests) || (|c.localRequests| == 1 && fresh(c.localRequests[0]))
    ensures old(c.localRequests) == [] ==>
              var bytes := AskBytes(m, picked, old(c.localInterested), |t.pieces|);
              && IsPick(old(t.piecesState), old(c.peerHave), picked)
              && StateOf(t, c) == AskStep(m, old(StateOf(t, c)), picked, |bytes| <= old(conn.room))
              && Told(old(conn.outbox), conn.outbox, bytes, old(conn.room), conn.room)
              && (ok <==> picked.None? || |bytes| <= old(conn.room))
    // A REQUEST message for every block, in order, when there is room for them.
    ensures old(c.localRequests) == [] && picked.Some? ==>
              var i := picked.value;
              && i < |m.hashes| && i < TWO32 && m.pieceLength < TWO32
              && var msgs := AskMsgs(m, i);
                 && |msgs| == m.Blocks(i)
                 && (forall k: nat | k < |msgs| ::
                       && msgs[k].Request? && msgs[k].index == i
                       && msgs[k].begin == 16384 * k && msgs[k].length == m.BlockLen(i, k))
                 && (|SentAll(msgs, |t.pieces|)| <= old(conn.room) ==>
                       ok && conn.outbox == old(conn.outbox) + SentAll(msgs, |t.pieces|))
    // A NOT INTERESTED message, from a client that was interested.
    ensures old(c.localRequests) == [] && picked.None? ==>
              conn.outbox == old(conn.outbox) +
                (if old(c.localInterested) then Taken(SentBytes(NotInterested, |t.pieces|), old(conn.room)) else [])
  {
    ok, picked := true, None;
    if OUTSTANDING <= |c.localRequests| {
      return;
    }
    picked := PickAndOpen(m, t, c);
    AsksAre(m, t, picked);
    ghost var outbox, room, interested := conn.outbox, conn.room, c.localInterested;
    ok := TellPeer(m, t, c, conn, picked);
    ToldAsks(m, picked, interested, |t.pieces|, outbox, conn.outbox, room, conn.room);
  }

  // What asking for a piece comes to.
  lemma AsksAre(m: Meta, t: TorrentInfo, picked: Option<nat>)
    requires Walkable(m, t) && (picked.Some? ==> picked.value < |t.pieces|)
    ensures picked.Some? ==>
              var i := picked.value;
              && i < |m.hashes| && i < TWO32 && m.pieceLength < TWO32
              && var msgs := AskMsgs(m, i);
                 && |msgs| == m.Blocks(i)
                 && (forall k: nat | k < |msgs| ::
                       && msgs[k].Request? && msgs[k].index == i
                       && msgs[k].begin == 16384 * k && msgs[k].length == m.BlockLen(i, k))
  {
    if picked.Some? {
      IndexFits(m, t, picked.value);
    }
  }

  lemma ToldAsks(m: Meta, picked: Option<nat>, interested: bool, pieces: nat, before: seq<byte>, after: seq<byte>,
                 room: nat, room': nat)
    requires Told(before, after, AskBytes(m, picked, interested, pieces), room, room')
    ensures picked.Some? && m.Valid() && m.pieceLength < TWO32 && picked.value < |m.hashes| && picked.value < TWO32 ==>
              var bytes := SentAll(AskMsgs(m, picked.value), pieces);
              |bytes| <= room ==> after == before + bytes
    ensures picked.None? ==>
              after == before + (if interested then Taken(SentBytes(NotInterested, pieces), room) else [])
  {}

  // The message asks for the byte at this offset in its piece.
  predicate Asks(msg: Msg, offset: nat) {
    msg.Request? && msg.begin <= offset < msg.begin + msg.length
  }

  /** Every byte of a piece is asked for by exactly one of the REQUEST messages,
      and no byte behind its end is. */
  lemma AskedOnce(m: Meta, i: uint32, offset: nat)
    requires m.Valid() && m.pieceLength < TWO32 && i < |m.hashes|
    ensures var msgs, length := AskMsgs(m, i), m.To(i) - m.From(i);
            && (offset < length <==> exists k: nat :: k < |msgs| && Asks(msgs[k], offset))
            && (forall j: nat, k: nat | j < |msgs| && k < |msgs| && Asks(msgs[j], offset) && Asks(msgs[k], offset) :: j == k)
  {
    var msgs, length := AskMsgs(m, i), m.To(i) - m.From(i);
    PieceRange(m, i);
    forall k: nat | k < |msgs|
      ensures Asks(msgs[k], offset) <==> offset < length && k == offset / PEER_REQUEST_SIZE
    {
      BlockAsks(m, i, k);
    }
    if offset < length {
      assert Asks(msgs[offset / PEER_REQUEST_SIZE], offset);
    }
  }

  /** The BITFIELD step of process_msg: copies the peer's bits and says whether
      the peer has a piece that the client lacks. */
  method ProcessBitfield(t: TorrentInfo, c: ConnState, bits: seq<bool>) returns (interested: bool)
    requires |c.peerHave| == |t.pieces| == |t.piecesState| <= |bits|
    modifies c`peerHave
    ensures c.peerHave == bits[..|t.pieces|]
    ensures interested <==> exists i :: 0 <= i < |t.pieces| && bits[i] && t.piecesState[i] != PieceState.Have
  {
    for i := 0 to |c.peerHave|
      invariant |c.peerHave| == |t.pieces|
      invariant forall k | 0 <= k < i :: c.peerHave[k] == bits[k]
    {
      c.peerHave := c.peerHave[i := bits[i]];
    }
    interested := false;
    for i := 0 to |t.pieces|
      invariant forall k | 0 <= k < i :: !(bits[k] && t.piecesState[k] != PieceState.Have)
    {
      if t.piecesState[i] != PieceState.Have && c.peerHave[i] {
        return true;
      }
    }
  }

  /** show_interested */
  method ShowInterested(c: ConnState, conn: Connection, pieces: nat)
    modifies c`localInterested, conn`outbox, conn`room
    ensures Told(old(conn.outbox), conn.outbox, SentBytes(Msg.Interested, pieces), old(conn.room), conn.room)
    ensures c.localInterested <==> old(c.localInterested) || |SentBytes(Msg.Interested, pieces)| <= old(conn.room)
  {
    var ok := Tell(conn, pieces, Msg.Interested);
    if ok {
      c.localInterested := true;
    }
  }

  // The client is to tell the peer of its interest: the peer has a piece that
  // the client lacks, or announces one that the client had itself.
  ghost predicate Wanted(t: TorrentInfo, c: ConnState, msg: Msg)
    reads t, c
  {
    || (msg.Have? && !c.localInterested && msg.have < |c.localHave| && c.localHave[msg.have])
    || (msg.BitfieldMsg?
        && exists i :: 0 <= i < |t.pieces| && i < |t.piecesState| && i < |msg.bits|
                       && msg.bits[i] && t.piecesState[i] != PieceState.Have)
  }

  function Interest(wanted: bool, pieces: nat): seq<byte> {
    if wanted then SentBytes(Msg.Interested, pieces) else []
  }

  // The steps of process_msg for messages other than PIECE.
  method ProcessOther(t: TorrentInfo, c: ConnState, conn: Connection, msg: Msg)
    requires !msg.Piece? && |c.peerHave| == |t.pieces| == |t.piecesState| && Fitting(c.peerHave, msg)
    modifies c`localChoked, c`localInterested, c`remoteInterested, c`peerHave, c`peerRequests, conn`outbox, conn`room
    ensures c.peerHave == HaveAfter(old(c.peerHave), msg)
    ensures match msg
            case Have(i) => c.peerHave == old(c.peerHave)[i := true]
            case BitfieldMsg(bits) => c.peerHave == bits[..|t.pieces|]
            case _ => c.peerHave == old(c.peerHave)
    ensures c.localChoked == if msg.Choke? then true else if msg.Unchoke? then false else old(c.localChoked)
    ensures c.remoteInterested ==
            if msg.Interested? then true else if msg.NotInterested? then false else old(c.remoteInterested)
    ensures c.peerRequests == old(c.peerRequests) + if msg.Request? then [msg] else []
    ensures var wanted := Attracts(t.piecesState, c.localHave, old(c.localInterested), msg);
            && Told(old(conn.outbox), conn.outbox, Interest(wanted, |t.pieces|), old(conn.room), conn.room)
            && (c.localInterested <==>
                  old(c.localInterested) || (wanted && |SentBytes(Msg.Interested, |t.pieces|)| <= old(conn.room)))
    // An INTERESTED message, when the peer has a piece that the client lacks, or
    // announces one that the client had itself.
    ensures msg.BitfieldMsg? ==>
              conn.outbox == old(conn.outbox) +
                if exists i :: 0 <= i < |t.pieces| && msg.bits[i] && t.piecesState[i] != PieceState.Have
                then Taken(SentBytes(Msg.Interested, |t.pieces|), old(conn.room)) else []
    ensures msg.Have? ==>
              conn.outbox == old(conn.outbox) +
                if !old(c.localInterested) && msg.have < |c.localHave| && c.localHave[msg.have]
                then Taken(SentBytes(Msg.Interested, |t.pieces|), old(conn.room)) else []
    ensures !msg.BitfieldMsg? && !msg.Have? ==> conn.outbox == old(conn.outbox)
  {
    match msg
    case Choke =>
      c.localChoked := true;
    case Unchoke =>
      c.localChoked := false;
    case Interested =>
      c.remoteInterested := true;
    case NotInterested =>
      c.remoteInterested := false;
    case Have(i) =>
      if !c.localInterested && i < |c.localHave| && c.localHave[i] {
        ShowInterested(c, conn, |t.pieces|);
      }
      c.peerHave := c.peerHave[i := true];
    case BitfieldMsg(bits) =>
      var interested := ProcessBitfield(t, c, bits);
      if interested {
        ShowInterested(c, conn, |t.pieces|);
      }
    case Request(_, _, _) =>
      c.peerRequests := c.peerRequests + [msg];
    case _ =>
  }

  // The INTERESTED message that a message calls for.
  ghost function InterestFor(s: State, msg: Msg, pieces: nat): seq<byte>
    requires s.peer.Some?
  {
    Interest(Attracts(s.pieces, s.peer.value.localHave, s.peer.value.interested, msg), pieces)
  }

  lemma HeardInv(m: Meta, s: State, msg: Msg, sent: bool) returns (s': State)
    requires Inv(m, s) && s.peer.Some? && !msg.Piece? && Fitting(s.peer.value.peerHave, msg)
    ensures s' == HearStep(s, msg, sent) && Inv(m, s')
  {
    s' := HearStep(s, msg, sent);
    StepInv(m, s, Hear(msg, sent), s');
  }

  // What the client knows of the peer afterwards.
  lemma HeardPeer(s: State, msg: Msg, sent: bool, c: Peer)
    requires s.peer.Some? && Fitting(s.peer.value.peerHave, msg)
    ensures (var b := s.peer.value;
             && c.peerHave == HaveAfter(b.peerHave, msg) && c.localHave == b.localHave && c.open == b.open
             && c.choked == (if msg.Choke? then true else if msg.Unchoke? then false else b.choked)
             && c.interested == (b.interested || (Attracts(s.pieces, b.localHave, b.interested, msg) && sent))
             && c.pending == b.pending + (if msg.Request? then 1 else 0)) ==>
            HearStep(s, msg, sent) == s.(peer := Some(c))
  {}

  // What a message other than PIECE does to the machine's state.
  method ProcessHeard(m: Meta, t: TorrentInfo, c: ConnState, conn: Connection, msg: Msg)
    requires Ready(m, t, c) && !msg.Piece? && Fitting(c.peerHave, msg)
    modifies c`localChoked, c`localInterested, c`remoteInterested, c`peerHave, c`peerRequests, conn`outbox, conn`room
    ensures Ready(m, t, c)
    ensures var bytes := InterestFor(old(StateOf(t, c)), msg, |t.pieces|);
            && StateOf(t, c) == HearStep(old(StateOf(t, c)), msg, |bytes| <= old(conn.room))
            && Told(old(conn.outbox), conn.outbox, bytes, old(conn.room), conn.room)
    ensures conn.outbox == old(conn.outbox) +
              if old(Wanted(t, c, msg)) then Taken(SentBytes(Msg.Interested, |t.pieces|), old(conn.room)) else []
  {
    ghost var before, room := StateOf(t, c), conn.room;
    ghost var bytes := InterestFor(before, msg, |t.pieces|);
    ProcessOther(t, c, conn, msg);
    ghost var after := HeardInv(m, before, msg, |bytes| <= room);
    HeardPeer(before, msg, |bytes| <= room, PeerOf(c));
    assert StateOf(t, c) == after;
  }

  method CountBlock(m: Meta, t: TorrentInfo, c: ConnState)
    requires Ready(m, t, c)
    modifies c`blocksRecvd
    ensures Ready(m, t, c) && StateOf(t, c) == old(StateOf(t, c))
  {
    ghost var before := StateOf(t, c);
    c.blocksRecvd := c.blocksRecvd + 1;
    assert StateOf(t, c) == before;
  }

  // The machine's state after a message that has been received.
  ghost function MsgStep(m: Meta, s: State, msg: Msg, sent: bool): State
    requires Inv(m, s) && s.peer.Some? && Fitting(s.peer.value.peerHave, msg)
  {
    if msg.Piece? then ArriveStep(m, s, msg.index, msg.begin, msg.blockLen) else HearStep(s, msg, sent)
  }

  // The answer that the message calls for: HAVE for a piece that it completes,
  // or INTERESTED.
  ghost function AnswerTo(m: Meta, s: State, msg: Msg): seq<byte>
    requires Inv(m, s) && s.peer.Some?
  {
    if msg.Piece? then HaveNews(s.pieces, ArriveStep(m, s, msg.index, msg.begin, msg.blockLen).pieces, msg.index)
    else InterestFor(s, msg, |s.pieces|)
  }

  /** process_msg: every message takes the machine's step for it, and is answered
      with exactly the message that the step calls for. */
  method ProcessMsg(m: Meta, t: TorrentInfo, c: ConnState, conn: Connection, msg: Msg)
    requires Ready(m, t, c) && Fitting(c.peerHave, msg)
    modifies t`piecesState, t`piecesLeft, t`completed, c, c.localRequests, conn`outbox, conn`room
    ensures Ready(m, t, c) && (c.localRequests == old(c.localRequests) || c.localRequests == [])
    ensures var answer := AnswerTo(m, old(StateOf(t, c)), msg);
            && StateOf(t, c) == MsgStep(m, old(StateOf(t, c)), msg, |answer| <= old(conn.room))
            && Told(old(conn.outbox), conn.outbox, answer, old(conn.room), conn.room)
    // HAVE for a piece that the message completes, INTERESTED when the peer has
    // something to offer, and nothing else.
    ensures |t.piecesState| == |old(t.piecesState)| == |t.pieces|
    ensures msg.Piece? ==>
              if msg.index < |t.pieces| && old(t.piecesState)[msg.index] != PieceState.Have
                 && t.piecesState[msg.index] == PieceState.Have
              then conn.outbox == old(conn.outbox) + Taken(SentBytes(Msg.Have(msg.index), |t.pieces|), old(conn.room))
              else conn.outbox == old(conn.outbox)
    ensures !msg.Piece? ==>
              conn.outbox == old(conn.outbox) +
                if old(Wanted(t, c, msg)) then Taken(SentBytes(Msg.Interested, |t.pieces|), old(conn.room)) else []
  {
    if msg.Piece? {
      ProcessPieceMsg(m, t, c, conn, msg.index, msg.begin, msg.blockLen);
      CountBlock(m, t, c);
    } else {
      ProcessHeard(m, t, c, conn, msg);
    }
  }

  // A bitfield of the torrent's size that the client packs, sends and receives
  // leaves the receiver with the bits that were sent.
  lemma BitfieldArrives(have: seq<bool>, bits: seq<bool>, rest: seq<byte>)
    requires |bits| == |have| > 0 && NumBytes(|bits|) + 1 < TWO32
    ensures var received := Decode(SentBytes(BitfieldMsg(bits), |bits|) + rest, |bits|);
            && received.Some? && received.value.1 == rest
            && received.value.0.BitfieldMsg? && |have| <= |received.value.0.bits|
            && HaveAfter(have, received.value.0) == bits
  {
    RoundTrip(BitfieldMsg(bits), |bits|, rest);
  }

  // The machine's event for the bytes that a PIECE message writes: a block of its
  // piece, or a stray one when there is no such piece.
  function WriteOf(m: Meta, t: TorrentInfo, index: nat, begin: nat, data: seq<byte>): (e: Event)
    ensures IsWrite(e) && e.data == data
  {
    if index < |m.hashes| then Write(index, begin / PEER_REQUEST_SIZE, data) else Stray(BlockPlace(t, index, begin), data)
  }

  /** The bytes of a PIECE message for a piece that does not exist, whose block is
      written over the start of the files: with pieces of 16384 bytes the place of
      piece 262144 is taken to be 0. */
  lemma StrayPieceIsHeard(m: Meta, t: TorrentInfo, data: seq<byte>, rest: seq<byte>)
    requires t.pieceLength == PEER_REQUEST_SIZE == |data| <= Total(t.sizes) && |m.hashes| <= 0x4_0000
    ensures var stream := PieceText(0x4_0000, 0, data) + rest;
            && Reading(t, stream) == Some(Read(Piece(0x4_0000, 0, PEER_REQUEST_SIZE), 13 + PEER_REQUEST_SIZE))
            && stream[13..] == data + rest && WriteOf(m, t, 0x4_0000, 0, data) == Stray(0, data)
  {
    assert PEER_REQUEST_SIZE * 0x4_0000 == TWO32;
    PieceIsRead(t, 0x4_0000, 0, data, rest);
  }

  // The place that the request of a piece that exists gives a block is that of
  // the block in the piece.
  lemma BlockPlaceIs(m: Meta, t: TorrentInfo, index: nat, begin: nat)
    requires Walkable(m, t) && index < |t.pieces| && HasBlock(t, index, begin)
    ensures var k := begin / PEER_REQUEST_SIZE;
            && k < m.Blocks(index) && begin == PEER_REQUEST_SIZE * k
            && BlockPlace(t, index, begin) == m.BlockFrom(index, k) && BlockLength(t, index, begin) == m.BlockLen(index, k)
  {
    WellCutRequest(t.sizes, t.pieceLength, |t.pieces|, index);
  }

  /** Filling a block, whole or not, is the machine's Write step, or its Stray
      step when the piece does not exist. */
  lemma StoredIsStep(m: Meta, t: TorrentInfo, s: State, image: seq<byte>, index: nat, begin: nat, block: seq<byte>)
    returns (data: seq<byte>)
    requires Walkable(m, t) && Inv(m, s) && Stored(t, s.image, image, index, begin, block)
    ensures |data| == BlockLength(t, index, begin) && Agree(data, block)
    ensures BlockPlace(t, index, begin) + |data| <= |s.image|
    ensures image == Splice(s.image, BlockPlace(t, index, begin), data)
    ensures var e := WriteOf(m, t, index, begin, data);
            && Step(m, s, e, s.(image := image)) && Brings(m, e, index, begin) && Place(m, e) == BlockPlace(t, index, begin)
  {
    var from, n := BlockPlace(t, index, begin), BlockLength(t, index, begin);
    data := image[from..from + n];
    FilledIsWritten(s.image, image, from, from + n, block);
    if index < |t.pieces| {
      BlockPlaceIs(m, t, index, begin);
    }
  }
}
