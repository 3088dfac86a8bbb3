/** A download from one peer that has every piece: if it says so, lets the client
    ask, and answers each request with the blocks of the original, and the client
    can send what it has to, the connection ends with the original. */
module Seed {
  import opened Bytes
  import opened Bitfield
  import opened PieceRequest
  import opened PieceLayout
  import opened DownloadMachine
  import opened DownloadHonest
  import opened Torrent
  import opened PeerMsg
  import opened PeerWire
  import opened PeerConnection
  import opened Socket
  import opened Course
  import opened Client

  // Block k of piece i of the original.
  function BlockBytes(m: Meta, truth: seq<byte>, i: nat, k: nat): seq<byte> {
    var from, len := m.BlockFrom(i, k), m.BlockLen(i, k);
    if 0 <= len && from + len <= |truth| then truth[from..from + len] else []
  }

  // The PIECE message that brings it.
  function BlockText(m: Meta, truth: seq<byte>, i: nat, k: nat): seq<byte> {
    if i < TWO32 && PEER_REQUEST_SIZE * k < TWO32
    then PieceText(i, PEER_REQUEST_SIZE * k, BlockBytes(m, truth, i, k)) else []
  }

  // The messages for the blocks of piece i from block k on.
  function BlocksText(m: Meta, truth: seq<byte>, i: nat, k: nat): seq<byte>
    decreases m.Blocks(i) - k
  {
    if k < m.Blocks(i) then BlockText(m, truth, i, k) + BlocksText(m, truth, i, k + 1) else []
  }

  // The messages for the blocks of the pieces from piece i on.
  function PiecesText(m: Meta, truth: seq<byte>, i: nat): seq<byte>
    decreases |m.hashes| - i
  {
    if i < |m.hashes| then BlocksText(m, truth, i, 0) + PiecesText(m, truth, i + 1) else []
  }

  // The bitfield of a peer that has everything.
  function AllBits(n: nat): Msg { BitfieldMsg(seq(n, _ => true)) }

  /** What the peer says: its bitfield, UNCHOKE, and then every block once. */
  function SeedText(m: Meta, truth: seq<byte>): seq<byte> {
    var n := |m.hashes|;
    SentBytes(AllBits(n), n) + (SentBytes(Msg.Unchoke, n) + PiecesText(m, truth, 0))
  }

  // How many messages are queued in each turn: the first two, and then the
  // blocks that the turn before has asked for.
  ghost predicate SeedTurns(m: Meta, queued: seq<nat>) {
    && |queued| == |m.hashes| + 1 && queued[0] == 2
    && forall i | 0 <= i < |m.hashes| :: queued[i + 1] == m.Blocks(i)
  }

  function HaveText(m: Meta, i: nat): seq<byte> {
    if i < TWO32 then SentBytes(Msg.Have(i), |m.hashes|) else []
  }

  // The messages that ask for the pieces from piece i on, with the HAVE message
  // for each when it has come.
  ghost function AskAndTell(m: Meta, i: nat): (msgs: seq<Msg>)
    requires m.Valid() && m.pieceLength < TWO32
    decreases |m.hashes| - i
  {
    if i < |m.hashes| && i < TWO32 then AskMsgs(m, i) + ([Msg.Have(i)] + AskAndTell(m, i + 1)) else [NotInterested]
  }

  // What the client says from the requests for piece i on.
  ghost function TalkFrom(m: Meta, i: nat): seq<byte> {
    if m.Valid() && m.pieceLength < TWO32 then SentAll(AskAndTell(m, i), |m.hashes|) else []
  }

  lemma {:induction false} SentAllConcat(a: seq<Msg>, b: seq<Msg>, pieces: nat)
    ensures SentAll(a + b, pieces) == SentAll(a, pieces) + SentAll(b, pieces)
  {
    if |a| == 0 {
      assert a + b == b;
    } else {
      assert (a + b)[1..] == a[1..] + b;
      SentAllConcat(a[1..], b, pieces);
      ConcatAssoc(SentBytes(a[0], pieces), SentAll(a[1..], pieces), SentAll(b, pieces));
    }
  }

  lemma SentAllOne(msg: Msg, pieces: nat)
    ensures SentAll([msg], pieces) == SentBytes(msg, pieces)
  {
    assert SentAll([msg], pieces) == SentBytes(msg, pieces) + SentAll([], pieces);
  }

  lemma SentAllParts(a: seq<Msg>, msg: Msg, b: seq<Msg>, pieces: nat)
    ensures SentAll(a + ([msg] + b), pieces) == SentAll(a, pieces) + (SentBytes(msg, pieces) + SentAll(b, pieces))
  {
    SentAllOne(msg, pieces);
    SentAllConcat([msg], b, pieces);
    SentAllConcat(a, [msg] + b, pieces);
  }

  // The requests for piece i, then HAVE for it, and then the rest.
  lemma TalkNext(m: Meta, i: nat)
    requires m.Valid() && m.pieceLength < TWO32 && i < |m.hashes| && i < TWO32
    ensures TalkFrom(m, i) == RequestsFor(m, i, |m.hashes|) + (HaveText(m, i) + TalkFrom(m, i + 1))
  {
    SentAllParts(AskMsgs(m, i), Msg.Have(i), AskAndTell(m, i + 1), |m.hashes|);
  }

  lemma TalkEnds(m: Meta, i: nat)
    requires m.Valid() && m.pieceLength < TWO32 && i >= |m.hashes|
    ensures TalkFrom(m, i) == SentBytes(NotInterested, |m.hashes|)
  {
    var last := NotInterested;
    SentAllOne(last, |m.hashes|);
  }

  // What it says before, behind its greeting.
  ghost function TalkAll(m: Meta): seq<byte> {
    SentBytes(Msg.Interested, |m.hashes|) + TalkFrom(m, 0)
  }

  // What the peer has been told, with what is still to be said, makes goal, and
  // there is room for that.
  ghost predicate Says(p: Point, talk: seq<byte>, goal: seq<byte>) {
    p.out + talk == goal && |talk| <= p.room
  }

  lemma SaysNext(a: Point, b: Point, bytes: seq<byte>, talk: seq<byte>, goal: seq<byte>)
    requires Says(a, bytes + talk, goal) && Told(a.out, b.out, bytes, a.room, b.room)
    ensures |bytes| <= a.room && Says(b, talk, goal)
  {
    assert Taken(bytes, a.room) == bytes;
    ConcatAssoc(a.out, bytes, talk);
  }

  lemma SaysNothing(a: Point, b: Point, talk: seq<byte>, goal: seq<byte>)
    requires Says(a, talk, goal) && Told(a.out, b.out, [], a.room, b.room)
    ensures Says(b, talk, goal)
  {
    assert [] + talk == talk;
    SaysNext(a, b, [], talk, goal);
  }

  // The pieces before piece i have been gained, and none after it asked for.
  predicate GainedTo(pieces: seq<PieceState>, i: nat) {
    forall j | 0 <= j < |pieces| :: pieces[j] == if j < i then PieceState.Have else NotRequested
  }

  // The client may ask for piece i, if there is one.
  ghost predicate Gathered(m: Meta, truth: seq<byte>, s: State, i: nat) {
    OnTrack(m, s, truth) && Waiting(s) && GainedTo(s.pieces, i) && i <= |s.pieces|
  }

  // The blocks of piece i from block k on.
  function BlocksFrom(m: Meta, i: nat, k: nat): (order: seq<nat>)
    requires k <= m.Blocks(i)
    ensures |order| == m.Blocks(i) - k
  {
    seq(m.Blocks(i) - k, x requires 0 <= x < m.Blocks(i) - k => k + x)
  }

  // The blocks of the open request before block k have arrived, and no other.
  predicate DoneTo(done: seq<bool>, k: nat) {
    forall x: nat | x < |done| :: done[x] <==> x < k
  }

  // The client has asked for piece i, and its blocks before block k have come.
  ghost predicate Fetching(m: Meta, truth: seq<byte>, s: State, i: nat, k: nat) {
    && OnTrack(m, s, truth) && i < |s.pieces| && k < m.Blocks(i)
    && s.peer.Some? && s.peer.value.open.Some? && s.peer.value.open.value.index == i
    && DoneTo(s.peer.value.open.value.done, k)
    && GainedTo(s.pieces[i := NotRequested], i)
    && MayAsk(s.peer.value) && forall j | 0 <= j < |s.peer.value.peerHave| :: s.peer.value.peerHave[j]
  }

  // What it lacks is the blocks from block k on.
  lemma FetchingLacks(m: Meta, truth: seq<byte>, s: State, i: nat, k: nat)
    requires Fetching(m, truth, s, i, k)
    ensures Lacks(m, s, i, BlocksFrom(m, i, k)) && BlocksFrom(m, i, k)[0] == k
  {
    var order, done := BlocksFrom(m, i, k), s.peer.value.open.value.done;
    forall x: nat | x < |done|
      ensures done[x] <==> x !in order
    {
      assert x >= k ==> order[x - k] == x;
    }
  }

  lemma LacksDone(m: Meta, s: State, i: nat, k: nat)
    requires k <= m.Blocks(i) && Lacks(m, s, i, BlocksFrom(m, i, k)) && |s.peer.value.open.value.done| == m.Blocks(i)
    ensures DoneTo(s.peer.value.open.value.done, k)
  {
    var order := BlocksFrom(m, i, k);
    forall x: nat | k <= x < m.Blocks(i)
      ensures x in order
    {
      assert order[x - k] == x;
    }
  }

  lemma SmallIndex(m: Meta, t: TorrentInfo, i: nat, k: nat)
    requires Walkable(m, t) && i < |t.pieces| && k < m.Blocks(i)
    ensures i < TWO32 && PEER_REQUEST_SIZE * k < TWO32 && m.pieceLength < TWO32
    ensures HasBlock(t, i, PEER_REQUEST_SIZE * k) && BlockPlace(t, i, PEER_REQUEST_SIZE * k) == m.BlockFrom(i, k)
    ensures BlockLength(t, i, PEER_REQUEST_SIZE * k) == m.BlockLen(i, k)
  {
    IndexFits(m, t, i);
    WellCutRequest(t.sizes, t.pieceLength, |t.pieces|, i);
    BlockAsks(m, i, k);
    assert PEER_REQUEST_SIZE * k / PEER_REQUEST_SIZE == k && PEER_REQUEST_SIZE * k % PEER_REQUEST_SIZE == 0;
  }

  // The next block is at the head of the stream.
  lemma BlockIsNext(m: Meta, t: TorrentInfo, truth: seq<byte>, i: nat, k: nat, after: seq<byte>)
    requires Walkable(m, t) && i < |t.pieces| && k < m.Blocks(i) && |truth| == m.total
    ensures var stream, data := BlockText(m, truth, i, k) + after, BlockBytes(m, truth, i, k);
            && i < TWO32 && PEER_REQUEST_SIZE * k < TWO32 && |data| == m.BlockLen(i, k)
            && Reading(t, stream) == Some(Read(Piece(i, PEER_REQUEST_SIZE * k, |data|), 13 + |data|))
            && |stream| >= 13 && stream[13..] == data + after
  {
    SmallIndex(m, t, i, k);
    BlockFits(m, i, k);
    PieceIsRead(t, i, PEER_REQUEST_SIZE * k, BlockBytes(m, truth, i, k), after);
  }

  // Hearing it delivers it.
  lemma HearBlock(m: Meta, t: TorrentInfo, truth: seq<byte>, a: Point, data: seq<byte>, b: Point, i: nat, k: nat,
                  after: seq<byte>, later: seq<byte>)
    requires Walkable(m, t) && Fetching(m, truth, a.s, i, k) && HearsIt(m, t, a, data, b)
    requires a.line == Line(BlockText(m, truth, i, k) + after, later)
    ensures Deliverable(m, a.s, truth, i, k) && b.s == Deliver(m, a.s, truth, i, k)
    ensures b.line == Line(after, later) && Told(a.out, b.out, HaveNews(a.s.pieces, b.s.pieces, i), a.room, b.room)
  {
    var len := m.BlockLen(i, k);
    BlockIsNext(m, t, truth, i, k, after);
    BlockFits(m, i, k);
    SmallIndex(m, t, i, k);
    var bytes := BlockBytes(m, truth, i, k);
    assert Agree(data, bytes + after) && |data| == |bytes|;
    assert data == bytes;
    assert a.line.now[13 + |bytes|..] == after;
  }

  // What delivering block k does to the machine.
  lemma DeliverGoes(m: Meta, truth: seq<byte>, s: State, i: nat, k: nat)
    requires Fetching(m, truth, s, i, k)
    ensures Deliverable(m, s, truth, i, k)
    ensures var s' := Deliver(m, s, truth, i, k);
            if k + 1 < m.Blocks(i) then Fetching(m, truth, s', i, k + 1) && s'.pieces == s.pieces
            else Gathered(m, truth, s', i + 1) && s'.pieces == s.pieces[i := PieceState.Have]
  {
    var order := BlocksFrom(m, i, k);
    FetchingLacks(m, truth, s, i, k);
    DeliverStep(m, s, truth, i, order);
    if k + 1 < m.Blocks(i) {
      assert order[1..] == BlocksFrom(m, i, k + 1);
      LacksDone(m, Deliver(m, s, truth, i, k), i, k + 1);
    }
    GainOne(s.pieces, i);
  }

  lemma GainOne(pieces: seq<PieceState>, i: nat)
    requires i < |pieces| && GainedTo(pieces[i := NotRequested], i)
    ensures GainedTo(pieces[i := PieceState.Have], i + 1)
  {
    forall j | 0 <= j < |pieces| && j != i
      ensures pieces[j] == if j < i + 1 then PieceState.Have else NotRequested
    {
      assert pieces[i := NotRequested][j] == pieces[j];
    }
  }

  // The next block is heard.
  lemma BlockGoes(m: Meta, t: TorrentInfo, truth: seq<byte>, a: Point, data: seq<byte>, b: Point, i: nat, k: nat,
                  after: seq<byte>, later: seq<byte>, talk: seq<byte>, goal: seq<byte>)
    requires Walkable(m, t) && Fetching(m, truth, a.s, i, k) && HearsIt(m, t, a, data, b)
    requires a.line == Line(BlocksText(m, truth, i, k) + after, later) && Says(a, HaveText(m, i) + talk, goal)
    ensures b.line == Line(BlocksText(m, truth, i, k + 1) + after, later)
    ensures if k + 1 < m.Blocks(i) then Fetching(m, truth, b.s, i, k + 1) && Says(b, HaveText(m, i) + talk, goal)
            else Gathered(m, truth, b.s, i + 1) && Says(b, talk, goal)
  {
    var rest := BlocksText(m, truth, i, k + 1);
    ConcatAssoc(BlockText(m, truth, i, k), rest, after);
    HearBlock(m, t, truth, a, data, b, i, k, rest + after, later);
    DeliverGoes(m, truth, a.s, i, k);
    SmallIndex(m, t, i, k);
    if k + 1 < m.Blocks(i) {
      SaysNothing(a, b, HaveText(m, i) + talk, goal);
    } else {
      SaysNext(a, b, HaveText(m, i), talk, goal);
    }
  }

  // After k messages of a turn that fetches piece i.
  ghost predicate At(m: Meta, truth: seq<byte>, p: Point, i: nat, k: nat, after: seq<byte>, later: seq<byte>, talk: seq<byte>, goal: seq<byte>) {
    match m.Blocks(i) - k
    case 0 => p.line == Line(after, later) && Gathered(m, truth, p.s, i + 1) && Says(p, talk, goal)
    case _ =>
      && p.line == Line(BlocksText(m, truth, i, k) + after, later)
      && Fetching(m, truth, p.s, i, k) && Says(p, HaveText(m, i) + talk, goal)
  }

  // After move n + k, when the turn has begun at move n.
  ghost predicate AtMove(m: Meta, truth: seq<byte>, log: Log, n: nat, i: nat, k: nat, after: seq<byte>, later: seq<byte>, talk: seq<byte>, goal: seq<byte>) {
    n + k < |log.points| && At(m, truth, log.points[n + k], i, k, after, later, talk, goal)
  }

  lemma AtNext(m: Meta, t: TorrentInfo, lines: seq<Line>, truth: seq<byte>, log: Log, n: nat, i: nat, k: nat,
               after: seq<byte>, later: seq<byte>, talk: seq<byte>, goal: seq<byte>)
    requires Walkable(m, t) && IsLog(m, t, lines, log) && n + k < |log.moves| && log.moves[n + k].Hears?
    requires k < m.Blocks(i)
    ensures AtMove(m, truth, log, n, i, k, after, later, talk, goal) ==> AtMove(m, truth, log, n, i, k + 1, after, later, talk, goal)
  {
    assert IsMoveAt(m, t, lines, log, n + k);
    if AtMove(m, truth, log, n, i, k, after, later, talk, goal) {
      BlockGoes(m, t, truth, log.points[n + k], log.moves[n + k].data, log.points[n + k + 1], i, k, after, later, talk, goal);
    }
  }

  // The first q messages of the turn that fetches piece i.
  lemma {:induction false} FetchTo(m: Meta, t: TorrentInfo, lines: seq<Line>, truth: seq<byte>, log: Log,
                                   n: nat, i: nat, q: nat, after: seq<byte>, later: seq<byte>, talk: seq<byte>, goal: seq<byte>)
    requires Walkable(m, t) && IsLog(m, t, lines, log) && q <= m.Blocks(i) && n + q <= |log.moves|
    requires forall j | n <= j < n + q :: log.moves[j].Hears?
    ensures AtMove(m, truth, log, n, i, 0, after, later, talk, goal) ==> AtMove(m, truth, log, n, i, q, after, later, talk, goal)
  {
    if q > 0 {
      FetchTo(m, t, lines, truth, log, n, i, q - 1, after, later, talk, goal);
      AtNext(m, t, lines, truth, log, n, i, q - 1, after, later, talk, goal);
    }
  }

  lemma NotStuck(m: Meta, t: TorrentInfo, truth: seq<byte>, p: Point, i: nat, k: nat, after: seq<byte>, later: seq<byte>, talk: seq<byte>, goal: seq<byte>)
    requires Walkable(m, t) && k < m.Blocks(i) && At(m, truth, p, i, k, after, later, talk, goal)
    ensures !Stuck(t, p)
  {
    ConcatAssoc(BlockText(m, truth, i, k), BlocksText(m, truth, i, k + 1), after);
    BlockIsNext(m, t, truth, i, k, BlocksText(m, truth, i, k + 1) + after);
  }

  // Once the blocks of piece i - 1 have come the client asks for piece i.
  lemma AskGoes(m: Meta, t: TorrentInfo, truth: seq<byte>, a: Point, picked: Option<nat>, b: Point, i: nat,
               talk: seq<byte>, goal: seq<byte>)
    requires Walkable(m, t) && Gathered(m, truth, a.s, i) && i < |t.pieces| && AsksIt(m, a, picked, b)
    requires Says(a, RequestsFor(m, i, |m.hashes|) + talk, goal)
    ensures AskFits(m, a, picked) && Fetching(m, truth, b.s, i, 0) && b.line == a.line && Says(b, talk, goal) && !b.s.completed
  {
    NextPick(a.s.pieces, a.s.peer.value.peerHave, picked, i);
    AskOnTrack(m, a.s, truth, i);
    AskFetches(m, truth, a.s, i);
    AllGathered(m, truth, a.s, i);
    SaysNext(a, b, RequestsFor(m, i, |m.hashes|), talk, goal);
  }

  lemma NextPick(pieces: seq<PieceState>, have: seq<bool>, picked: Option<nat>, i: nat)
    requires |have| == |pieces| && i < |pieces| && GainedTo(pieces, i) && IsPick(pieces, have, picked)
    requires forall j | 0 <= j < |have| :: have[j]
    ensures picked == Some(i) && IsPick(pieces, have, Some(i))
  {
    assert IsPick(pieces, have, Some(i));
    PickExact(pieces, have, picked, Some(i));
  }

  lemma AskFetches(m: Meta, truth: seq<byte>, s: State, i: nat)
    requires Gathered(m, truth, s, i) && i < |s.pieces| && OnTrack(m, AskStep(m, s, Some(i), true), truth) && m.Blocks(i) > 0
    ensures Fetching(m, truth, AskStep(m, s, Some(i), true), i, 0)
  {
    assert AskStep(m, s, Some(i), true).pieces[i := NotRequested] == s.pieces;
  }

  // Once the blocks of the last piece have come the download is the original.
  lemma AllGathered(m: Meta, truth: seq<byte>, s: State, i: nat)
    requires Gathered(m, truth, s, i)
    ensures s.completed <==> i == |s.pieces|
    ensures i == |s.pieces| ==> s.image == truth
  {
    CountMissingZero(s.pieces);
    assert i < |s.pieces| ==> s.pieces[i] == NotRequested;
    CompleteIsTrue(m, s, truth);
  }

  // The client has asked for piece i, and all that is still to be said and sent
  // is there.
  ghost predicate Begins(m: Meta, truth: seq<byte>, p: Point, i: nat, rest: seq<byte>, later: seq<byte>, goal: seq<byte>) {
    At(m, truth, p, i, 0, PiecesText(m, truth, i + 1) + rest, later, TalkFrom(m, i + 1), goal)
  }

  // The client may ask for piece i, if there is one.
  ghost predicate MayBegin(m: Meta, truth: seq<byte>, p: Point, i: nat, rest: seq<byte>, later: seq<byte>, goal: seq<byte>) {
    p.line == Line(PiecesText(m, truth, i) + rest, later) && Gathered(m, truth, p.s, i) && Says(p, TalkFrom(m, i), goal)
  }

  // Asking for piece i begins its turn.
  lemma BeginGoes(m: Meta, t: TorrentInfo, truth: seq<byte>, a: Point, picked: Option<nat>, b: Point, i: nat,
                  rest: seq<byte>, later: seq<byte>, goal: seq<byte>)
    requires Walkable(m, t) && MayBegin(m, truth, a, i, rest, later, goal) && i < |t.pieces| && AsksIt(m, a, picked, b)
    ensures AskFits(m, a, picked) && Begins(m, truth, b, i, rest, later, goal) && !b.s.completed
  {
    IndexFits(m, t, i);
    TalkNext(m, i);
    AskGoes(m, t, truth, a, picked, b, i, HaveText(m, i) + TalkFrom(m, i + 1), goal);
    ConcatAssoc(BlocksText(m, truth, i, 0), PiecesText(m, truth, i + 1), rest);
  }

  // At the end of a turn the client has asked for piece i, or there is none and
  // the download is the original.
  ghost predicate Turned(m: Meta, t: TorrentInfo, truth: seq<byte>, p: Point, alive: bool, i: nat, rest: seq<byte>, later: seq<byte>, goal: seq<byte>) {
    if i < |t.pieces| then alive && Begins(m, truth, p, i, rest, later, goal)
    else !alive && p.s.completed && p.s.image == truth && p.out == goal
  }

  // How a turn ends once the blocks of the piece before piece i have come.
  lemma TurnEndGoes(m: Meta, t: TorrentInfo, lines: seq<Line>, truth: seq<byte>, log: Log, log': Log, alive: bool, i: nat,
                    rest: seq<byte>, later: seq<byte>, goal: seq<byte>)
    requires Walkable(m, t) && IsLog(m, t, lines, log') && log.points != [] && TurnEnds(m, log, log', alive)
    ensures MayBegin(m, truth, Last(log), i, rest, later, goal) ==> Turned(m, t, truth, Last(log'), alive, i, rest, later, goal)
  {
    if MayBegin(m, truth, Last(log), i, rest, later, goal) {
      var n := |log.moves|;
      assert IsMoveAt(m, t, lines, log', n);
      assert log'.points[n] == Last(log);
      var picked := log'.moves[n].picked;
      if i < |t.pieces| {
        BeginGoes(m, t, truth, Last(log), picked, Last(log'), i, rest, later, goal);
      } else {
        AllGathered(m, truth, Last(log).s, i);
        TalkEnds(m, i);
        LastWords(m, Last(log), picked, Last(log'), goal);
      }
    }
  }

  // When there is nothing left to ask for the client says so.
  lemma LastWords(m: Meta, a: Point, picked: Option<nat>, b: Point, goal: seq<byte>)
    requires AsksIt(m, a, picked, b) && GainedTo(a.s.pieces, |a.s.pieces|) && |a.s.pieces| == |m.hashes|
    requires a.s.peer.value.interested && Says(a, SentBytes(NotInterested, |m.hashes|), goal)
    ensures b.out == goal && b.s.completed == a.s.completed && b.s.image == a.s.image
  {
    PickMeans(a.s.pieces, a.s.peer.value.peerHave, picked);
    var bytes := SentBytes(NotInterested, |m.hashes|);
    assert bytes + [] == bytes;
    SaysNext(a, b, bytes, [], goal);
    assert b.out + [] == b.out;
  }

  lemma BeginsAt(m: Meta, truth: seq<byte>, log: Log, log1: Log, i: nat, rest: seq<byte>, later: seq<byte>, goal: seq<byte>)
    requires IsPath(log) && Extends(log, log1)
    ensures Begins(m, truth, Last(log), i, rest, later, goal) ==>
              AtMove(m, truth, log1, |log.moves|, i, 0, PiecesText(m, truth, i + 1) + rest, later, TalkFrom(m, i + 1), goal)
  {
    assert log1.points[|log.moves|] == Last(log);
  }

  lemma AtNotStuck(m: Meta, t: TorrentInfo, truth: seq<byte>, log: Log, n: nat, i: nat, k: nat,
                   after: seq<byte>, later: seq<byte>, talk: seq<byte>, goal: seq<byte>)
    requires Walkable(m, t) && IsPath(log) && n + k == |log.moves| && k < m.Blocks(i)
    ensures AtMove(m, truth, log, n, i, k, after, later, talk, goal) ==> !Stuck(t, Last(log))
  {
    if AtMove(m, truth, log, n, i, k, after, later, talk, goal) {
      NotStuck(m, t, truth, log.points[n + k], i, k, after, later, talk, goal);
    }
  }

  lemma AtEnd(m: Meta, truth: seq<byte>, log: Log, n: nat, i: nat, q: nat, rest: seq<byte>, later: seq<byte>, goal: seq<byte>)
    requires IsPath(log) && n + q == |log.moves| && q == m.Blocks(i)
    ensures AtMove(m, truth, log, n, i, q, PiecesText(m, truth, i + 1) + rest, later, TalkFrom(m, i + 1), goal) ==>
              MayBegin(m, truth, Last(log), i + 1, rest, later, goal)
  {
    assert [] + (PiecesText(m, truth, i + 1) + rest) == PiecesText(m, truth, i + 1) + rest;
    assert log.points[n + q] == Last(log);
  }

  // The messages of the turn that fetches piece i, of q blocks: the client does
  // not get stuck.
  lemma TurnHears(m: Meta, t: TorrentInfo, lines: seq<Line>, truth: seq<byte>, log: Log, log1: Log, n: nat, q: nat, i: nat,
                  rest: seq<byte>, later: seq<byte>, goal: seq<byte>)
    requires Walkable(m, t) && IsLog(m, t, lines, log1) && Heard(log, log1, n) && n <= q == m.Blocks(i)
    requires n < q ==> Stuck(t, Last(log1))
    ensures Begins(m, truth, Last(log), i, rest, later, goal) ==>
              n == q && MayBegin(m, truth, Last(log1), i + 1, rest, later, goal)
  {
    var from, after, talk := |log.moves|, PiecesText(m, truth, i + 1) + rest, TalkFrom(m, i + 1);
    BeginsAt(m, truth, log, log1, i, rest, later, goal);
    FetchTo(m, t, lines, truth, log1, from, i, n, after, later, talk, goal);
    if n < q {
      AtNotStuck(m, t, truth, log1, from, i, n, after, later, talk, goal);
    } else {
      AtEnd(m, truth, log1, from, i, n, rest, later, goal);
    }
  }

  // The turn that fetches piece i, of q blocks, and asks for the next.
  lemma FetchTurn(m: Meta, t: TorrentInfo, lines: seq<Line>, truth: seq<byte>, log: Log, q: nat, log': Log, alive: bool, i: nat,
                  rest: seq<byte>, later: seq<byte>, goal: seq<byte>)
    requires Walkable(m, t) && IsLog(m, t, lines, log') && log.points != [] && q == m.Blocks(i)
    requires TurnTaken(m, t, log, q, log', alive)
    ensures log'.points != []
    ensures Begins(m, truth, Last(log), i, rest, later, goal) ==> Turned(m, t, truth, Last(log'), alive, i + 1, rest, later, goal)
  {
    var log1, n :| TurnThrough(m, t, log, q, log1, n, log', alive);
    EarlierLog(m, t, lines, log1, log');
    TurnHears(m, t, lines, truth, log, log1, n, q, i, rest, later, goal);
    if n == q {
      TurnEndGoes(m, t, lines, truth, log1, log', alive, i + 1, rest, later, goal);
    }
  }

  lemma FewPieces(m: Meta, t: TorrentInfo)
    requires Walkable(m, t)
    ensures 0 < |t.pieces| <= TWO32 && NumBytes(|t.pieces|) + 1 < TWO32
  {
    PieceExists(m.total, m.pieceLength, 0);
    IndexFits(m, t, |t.pieces| - 1);
  }

  // A message other than PIECE that is at the head of the stream is heard.
  lemma HearSent(m: Meta, t: TorrentInfo, a: Point, data: seq<byte>, b: Point, msg: Msg, after: seq<byte>, later: seq<byte>)
    requires Walkable(m, t) && Sendable(msg) && Fits(msg, |t.pieces|) && HearsIt(m, t, a, data, b)
    requires a.line == Line(SentBytes(msg, |t.pieces|) + after, later)
    ensures a.s.peer.Some? && Fitting(a.s.peer.value.peerHave, Arrives(msg))
    ensures var answer := InterestFor(a.s, Arrives(msg), |a.s.pieces|);
            && b.s == HearStep(a.s, Arrives(msg), |answer| <= a.room) && Told(a.out, b.out, answer, a.room, b.room)
    ensures b.line == Line(after, later)
  {
    FewPieces(m, t);
    SentIsRead(t, msg, after);
  }

  lemma SentNotStuck(m: Meta, t: TorrentInfo, a: Point, msg: Msg, after: seq<byte>, later: seq<byte>)
    requires Walkable(m, t) && Sendable(msg) && !msg.Have? && Fits(msg, |t.pieces|)
    requires a.line == Line(SentBytes(msg, |t.pieces|) + after, later)
    ensures !Stuck(t, a)
  {
    FewPieces(m, t);
    SentIsRead(t, msg, after);
  }

  // The connection has just been opened, by a client that has nothing.
  ghost predicate JustOpened(m: Meta, truth: seq<byte>, p: Point, s: State, rest: seq<byte>, later: seq<byte>, goal: seq<byte>) {
    && Init(m, s) && Genuine(m, truth) && p.s == s.(peer := Some(FreshPeer(s.pieces)))
    && p.line == Line(SeedText(m, truth) + rest, later)
    && Says(p, TalkAll(m), goal)
  }

  // The peer's bitfield has been heard, and the client has told of its interest.
  ghost predicate Interested(m: Meta, truth: seq<byte>, p: Point, s: State, rest: seq<byte>, later: seq<byte>, goal: seq<byte>) {
    && Init(m, s) && Genuine(m, truth) && |m.hashes| > 0
    && p.s == HearStep(s.(peer := Some(FreshPeer(s.pieces))), SeedBits(|s.pieces|), true)
    && p.line == Line(SentBytes(Msg.Unchoke, |m.hashes|) + (PiecesText(m, truth, 0) + rest), later)
    && Says(p, TalkFrom(m, 0), goal)
  }

  // The peer's bitfield makes the client tell it of its interest.
  lemma HearAll(m: Meta, t: TorrentInfo, truth: seq<byte>, a: Point, data: seq<byte>, b: Point, s: State,
                rest: seq<byte>, later: seq<byte>, goal: seq<byte>)
    requires Walkable(m, t) && JustOpened(m, truth, a, s, rest, later, goal) && HearsIt(m, t, a, data, b)
    ensures Interested(m, truth, b, s, rest, later, goal)
  {
    var n := |m.hashes|;
    FewPieces(m, t);
    SeedTextParts(m, truth, rest);
    HearSent(m, t, a, data, b, AllBits(n), SentBytes(Msg.Unchoke, n) + (PiecesText(m, truth, 0) + rest), later);
    AllAttract(a.s, n);
    SaysNext(a, b, SentBytes(Msg.Interested, n), TalkFrom(m, 0), goal);
  }

  // A client that has nothing is interested in a peer that has everything.
  lemma AllAttract(s: State, n: nat)
    requires n > 0 && |s.pieces| == n && s.pieces[0] == NotRequested && s.peer.Some?
    ensures InterestFor(s, SeedBits(n), n) == SentBytes(Msg.Interested, n)
  {
    assert SeedBits(n).bits[0] && s.pieces[0] != PieceState.Have;
  }

  lemma SeedTextParts(m: Meta, truth: seq<byte>, rest: seq<byte>)
    ensures var n := |m.hashes|;
            SeedText(m, truth) + rest ==
            SentBytes(AllBits(n), n) + (SentBytes(Msg.Unchoke, n) + (PiecesText(m, truth, 0) + rest))
  {
    var n := |m.hashes|;
    ConcatAssoc(SentBytes(AllBits(n), n), SentBytes(Msg.Unchoke, n) + PiecesText(m, truth, 0), rest);
    ConcatAssoc(SentBytes(Msg.Unchoke, n), PiecesText(m, truth, 0), rest);
  }

  // After UNCHOKE the client may ask.
  lemma HearUnchoke(m: Meta, t: TorrentInfo, truth: seq<byte>, a: Point, data: seq<byte>, b: Point, s: State,
                    rest: seq<byte>, later: seq<byte>, goal: seq<byte>)
    requires Walkable(m, t) && Interested(m, truth, a, s, rest, later, goal) && HearsIt(m, t, a, data, b)
    ensures MayBegin(m, truth, b, 0, rest, later, goal)
  {
    HearSent(m, t, a, data, b, Msg.Unchoke, PiecesText(m, truth, 0) + rest, later);
    SaysNothing(a, b, TalkFrom(m, 0), goal);
    var states, events, s' := MeetSeed(m, s, truth);
    assert b.s == s';
  }

  // The first turn: the peer's bitfield and UNCHOKE.
  lemma FirstTurn(m: Meta, t: TorrentInfo, lines: seq<Line>, truth: seq<byte>, log: Log, q: nat, log': Log, alive: bool, s: State,
                  rest: seq<byte>, later: seq<byte>, goal: seq<byte>)
    requires Walkable(m, t) && IsLog(m, t, lines, log') && log.points != []
    requires q == 2 && TurnTaken(m, t, log, q, log', alive)
    ensures log'.points != []
    ensures JustOpened(m, truth, Last(log), s, rest, later, goal) ==> Turned(m, t, truth, Last(log'), alive, 0, rest, later, goal)
  {
    var log1, n :| TurnThrough(m, t, log, q, log1, n, log', alive);
    EarlierLog(m, t, lines, log1, log');
    FirstHears(m, t, lines, truth, log, log1, n, s, rest, later, goal);
    if n == 2 {
      TurnEndGoes(m, t, lines, truth, log1, log', alive, 0, rest, later, goal);
    }
  }

  // After the first k messages of the first turn, which has begun at move j.
  ghost predicate AtFirst(m: Meta, truth: seq<byte>, log: Log, j: nat, k: nat, s: State, rest: seq<byte>, later: seq<byte>, goal: seq<byte>) {
    && k <= 2 && j + k < |log.points|
    && (k == 0 ==> JustOpened(m, truth, log.points[j], s, rest, later, goal))
    && (k == 1 ==> Interested(m, truth, log.points[j + 1], s, rest, later, goal))
    && (k == 2 ==> MayBegin(m, truth, log.points[j + 2], 0, rest, later, goal))
  }

  lemma FirstNext(m: Meta, t: TorrentInfo, lines: seq<Line>, truth: seq<byte>, log: Log, j: nat, k: nat, s: State,
                  rest: seq<byte>, later: seq<byte>, goal: seq<byte>)
    requires Walkable(m, t) && IsLog(m, t, lines, log) && k < 2 && j + k < |log.moves| && log.moves[j + k].Hears?
    ensures AtFirst(m, truth, log, j, k, s, rest, later, goal) ==> AtFirst(m, truth, log, j, k + 1, s, rest, later, goal)
  {
    if AtFirst(m, truth, log, j, k, s, rest, later, goal) {
      assert IsMoveAt(m, t, lines, log, j + k);
      if k == 0 {
        HearAll(m, t, truth, log.points[j], log.moves[j].data, log.points[j + 1], s, rest, later, goal);
      } else {
        HearUnchoke(m, t, truth, log.points[j + 1], log.moves[j + 1].data, log.points[j + 2], s, rest, later, goal);
      }
    }
  }

  lemma FirstNotStuck(m: Meta, t: TorrentInfo, truth: seq<byte>, log: Log, j: nat, k: nat, s: State,
                      rest: seq<byte>, later: seq<byte>, goal: seq<byte>)
    requires Walkable(m, t) && IsPath(log) && j + k == |log.moves| && k < 2
    ensures AtFirst(m, truth, log, j, k, s, rest, later, goal) ==> !Stuck(t, Last(log))
  {
    if k == 0 {
      assert log.points[j] == Last(log);
      BitsNotStuck(m, t, truth, log.points[j], s, rest, later, goal);
    } else {
      assert k == 1 && log.points[j + 1] == Last(log);
      UnchokeNotStuck(m, t, truth, log.points[j + 1], s, rest, later, goal);
    }
  }

  lemma BitsNotStuck(m: Meta, t: TorrentInfo, truth: seq<byte>, p: Point, s: State, rest: seq<byte>, later: seq<byte>, goal: seq<byte>)
    requires Walkable(m, t)
    ensures JustOpened(m, truth, p, s, rest, later, goal) ==> !Stuck(t, p)
  {
    var n := |m.hashes|;
    if JustOpened(m, truth, p, s, rest, later, goal) {
      SeedTextParts(m, truth, rest);
      SentNotStuck(m, t, p, AllBits(n), SentBytes(Msg.Unchoke, n) + (PiecesText(m, truth, 0) + rest), later);
    }
  }

  lemma UnchokeNotStuck(m: Meta, t: TorrentInfo, truth: seq<byte>, p: Point, s: State, rest: seq<byte>, later: seq<byte>, goal: seq<byte>)
    requires Walkable(m, t)
    ensures Interested(m, truth, p, s, rest, later, goal) ==> !Stuck(t, p)
  {
    if Interested(m, truth, p, s, rest, later, goal) {
      SentNotStuck(m, t, p, Msg.Unchoke, PiecesText(m, truth, 0) + rest, later);
    }
  }

  lemma FirstBegins(m: Meta, truth: seq<byte>, log: Log, log1: Log, j: nat, s: State, rest: seq<byte>, later: seq<byte>, goal: seq<byte>)
    requires IsPath(log) && IsPath(log1) && Extends(log, log1) && j == |log.moves|
    ensures JustOpened(m, truth, Last(log), s, rest, later, goal) ==> AtFirst(m, truth, log1, j, 0, s, rest, later, goal)
    ensures AtFirst(m, truth, log1, j, 2, s, rest, later, goal) && |log1.moves| == j + 2 ==> MayBegin(m, truth, Last(log1), 0, rest, later, goal)
  {
    assert log1.points[j] == Last(log);
  }

  // The messages of the first turn: the client does not get stuck.
  lemma FirstHears(m: Meta, t: TorrentInfo, lines: seq<Line>, truth: seq<byte>, log: Log, log1: Log, n: nat, s: State,
                   rest: seq<byte>, later: seq<byte>, goal: seq<byte>)
    requires Walkable(m, t) && IsLog(m, t, lines, log1) && Heard(log, log1, n) && n <= 2
    requires n < 2 ==> Stuck(t, Last(log1))
    ensures JustOpened(m, truth, Last(log), s, rest, later, goal) ==> n == 2 && MayBegin(m, truth, Last(log1), 0, rest, later, goal)
  {
    var j := |log.moves|;
    FirstBegins(m, truth, log, log1, j, s, rest, later, goal);
    if n > 0 {
      FirstNext(m, t, lines, truth, log1, j, 0, s, rest, later, goal);
    }
    if n > 1 {
      FirstNext(m, t, lines, truth, log1, j, 1, s, rest, later, goal);
    } else {
      FirstNotStuck(m, t, truth, log1, j, n, s, rest, later, goal);
    }
  }

  lemma TurnAdds(m: Meta, t: TorrentInfo, log: Log, queued: nat, log': Log, alive: bool)
    requires TurnTaken(m, t, log, queued, log', alive)
    ensures AddsInner(log, log')
  {
    var log1, n :| TurnThrough(m, t, log, queued, log1, n, log', alive);
    TurnIs(m, t, log, queued, log1, n, log', alive);
  }

  // The record after each turn is part of the last one.
  lemma {:induction false} TurnsAdd(m: Meta, t: TorrentInfo, queued: seq<nat>, logs: seq<Log>, alive: bool, j: nat)
    requires j < |logs| && IsPath(logs[|logs| - 1])
    requires forall k: nat | k < |logs| - 1 :: TurnAt(m, t, logs, queued, k, alive)
    ensures IsPath(logs[j]) && Extends(logs[j], logs[|logs| - 1])
    decreases |logs| - j
  {
    if j + 1 < |logs| {
      assert TurnAt(m, t, logs, queued, j, alive);
      TurnAdds(m, t, logs[j], queued[j], logs[j + 1], WentOn(logs, alive, j));
      TurnsAdd(m, t, queued, logs, alive, j + 1);
      ExtendsOn(logs[j], logs[j + 1], logs[|logs| - 1]);
    }
  }

  // What is so after turn j.
  ghost predicate TurnedAt(m: Meta, t: TorrentInfo, truth: seq<byte>, logs: seq<Log>, alive: bool, j: nat,
                           rest: seq<byte>, later: seq<byte>, goal: seq<byte>) {
    && j + 1 < |logs| && logs[j + 1].points != []
    && Turned(m, t, truth, Last(logs[j + 1]), WentOn(logs, alive, j), j, rest, later, goal)
  }

  lemma TurnZero(m: Meta, t: TorrentInfo, lines: seq<Line>, truth: seq<byte>, queued: seq<nat>, logs: seq<Log>, alive: bool,
                 s: State, rest: seq<byte>, later: seq<byte>, goal: seq<byte>)
    requires Walkable(m, t) && logs != [] && logs[0].points != [] && IsLog(m, t, lines, logs[|logs| - 1])
    requires queued != [] && queued[0] == 2 && TurnsTaken(m, t, queued, |queued|, true, logs, alive)
    ensures JustOpened(m, truth, Last(logs[0]), s, rest, later, goal) ==> TurnedAt(m, t, truth, logs, alive, 0, rest, later, goal)
  {
    TurnIsLogged(m, t, lines, queued, logs, alive, 0);
    FirstTurn(m, t, lines, truth, logs[0], queued[0], logs[1], WentOn(logs, alive, 0), s, rest, later, goal);
  }

  // Turn j + 1 fetches piece j.
  lemma TurnNext(m: Meta, t: TorrentInfo, lines: seq<Line>, truth: seq<byte>, queued: seq<nat>, logs: seq<Log>, alive: bool,
                 rest: seq<byte>, later: seq<byte>, goal: seq<byte>, j: nat)
    requires Walkable(m, t) && j < |t.pieces| && logs != [] && IsLog(m, t, lines, logs[|logs| - 1])
    requires j + 1 < |queued| && queued[j + 1] == m.Blocks(j) && TurnsTaken(m, t, queued, |queued|, true, logs, alive)
    ensures TurnedAt(m, t, truth, logs, alive, j, rest, later, goal) ==> TurnedAt(m, t, truth, logs, alive, j + 1, rest, later, goal)
  {
    if j + 1 < |logs| && WentOn(logs, alive, j) {
      TurnIsLogged(m, t, lines, queued, logs, alive, j + 1);
      FetchTurn(m, t, lines, truth, logs[j + 1], queued[j + 1], logs[j + 2], WentOn(logs, alive, j + 1), j, rest, later, goal);
    }
  }

  // The turns go on until every piece has been asked for.
  lemma {:induction false} TurnsGo(m: Meta, t: TorrentInfo, truth: seq<byte>, logs: seq<Log>, alive: bool,
                                   rest: seq<byte>, later: seq<byte>, goal: seq<byte>, n: nat)
    requires forall j: nat | j < n ::
               TurnedAt(m, t, truth, logs, alive, j, rest, later, goal) ==> TurnedAt(m, t, truth, logs, alive, j + 1, rest, later, goal)
    ensures TurnedAt(m, t, truth, logs, alive, 0, rest, later, goal) ==> TurnedAt(m, t, truth, logs, alive, n, rest, later, goal)
  {
    if n > 0 {
      TurnsGo(m, t, truth, logs, alive, rest, later, goal, n - 1);
    }
  }

  lemma TurnIsLogged(m: Meta, t: TorrentInfo, lines: seq<Line>, queued: seq<nat>, logs: seq<Log>, alive: bool, j: nat)
    requires logs != [] && IsLog(m, t, lines, logs[|logs| - 1]) && TurnsTaken(m, t, queued, |queued|, true, logs, alive)
    requires j < |queued| && j < |logs| && (j + 1 < |logs| || alive || j == 0)
    ensures j + 1 < |logs| && IsPath(logs[j]) && IsLog(m, t, lines, logs[j + 1])
    ensures TurnTaken(m, t, logs[j], queued[j], logs[j + 1], WentOn(logs, alive, j))
  {
    assert TurnAt(m, t, logs, queued, j, alive);
    TurnsAdd(m, t, queued, logs, alive, j);
    TurnsAdd(m, t, queued, logs, alive, j + 1);
    EarlierLog(m, t, lines, logs[j + 1], logs[|logs| - 1]);
  }

  /** However its socket splits the bytes, a connection with such a peer ends with
      a complete download, which is the original, and the peer has been told all
      that there is to say. */
  lemma SeedCompletes(m: Meta, t: TorrentInfo, lines: seq<Line>, truth: seq<byte>, queued: seq<nat>, outbox: seq<byte>, room: nat,
                      log: Log, logs: seq<Log>, alive: bool, log': Log, rest: seq<byte>)
    requires Walkable(m, t) && IsLog(m, t, lines, log') && IsPath(log)
    requires ConnectionTaken(m, t, queued, outbox, room, log, logs, alive, log')
    ensures SeedReady(m, truth, queued, lines, room, log, rest) ==>
              && Last(log').s.completed && Last(log').s.image == truth
              && Last(log').out == outbox + Greeting(|m.hashes|) + TalkAll(m)
  {
    if SeedReady(m, truth, queued, lines, room, log, rest) {
      ReadySeedCompletes(m, t, lines, truth, queued, outbox, room, log, logs, alive, log', rest);
    }
  }

  // The next connection is one with such a peer, and there is room for all that
  // the client has to say.
  ghost predicate SeedReady(m: Meta, truth: seq<byte>, queued: seq<nat>, lines: seq<Line>, room: nat, log: Log, rest: seq<byte>)
    requires log.points != []
  {
    && Init(m, Last(log).s) && Genuine(m, truth) && SeedTurns(m, queued)
    && room >= |Greeting(|m.hashes|)| + |TalkAll(m)|
    && Last(log).begun < |lines| && lines[Last(log).begun].now == SeedText(m, truth) + rest
  }

  lemma ReadySeedCompletes(m: Meta, t: TorrentInfo, lines: seq<Line>, truth: seq<byte>, queued: seq<nat>, outbox: seq<byte>,
                           room: nat, log: Log, logs: seq<Log>, alive: bool, log': Log, rest: seq<byte>)
    requires Walkable(m, t) && IsLog(m, t, lines, log') && IsPath(log)
    requires SeedReady(m, truth, queued, lines, room, log, rest)
    requires ConnectionTaken(m, t, queued, outbox, room, log, logs, alive, log')
    ensures Last(log').s.completed && Last(log').s.image == truth
    ensures Last(log').out == outbox + Greeting(|m.hashes|) + TalkAll(m)
  {
    var greeted :| HasOpened(log, logs[0], |t.pieces|, outbox, room, greeted)
                   && TurnsTaken(m, t, queued, |queued|, greeted, logs, alive) && Ends(logs[|logs| - 1], log');
    var last, n, s, later := logs[|logs| - 1], |m.hashes|, Last(log).s, lines[Last(log).begun].later;
    var goal := outbox + Greeting(n) + TalkAll(m);
    EarlierLog(m, t, lines, last, log');
    TurnsAdd(m, t, queued, logs, alive, 0);
    OpenedBy(m, t, lines, truth, outbox, room, log, logs[0], last, greeted, rest, later, goal);
    TurnZero(m, t, lines, truth, queued, logs, alive, s, rest, later, goal);
    forall j: nat | j < n
      ensures TurnedAt(m, t, truth, logs, alive, j, rest, later, goal) ==> TurnedAt(m, t, truth, logs, alive, j + 1, rest, later, goal)
    {
      TurnNext(m, t, lines, truth, queued, logs, alive, rest, later, goal, j);
    }
    TurnsGo(m, t, truth, logs, alive, rest, later, goal, n);
    assert |logs| == n + 2;
    EndsSame(m, t, lines, last, log');
  }

  lemma OpenedBy(m: Meta, t: TorrentInfo, lines: seq<Line>, truth: seq<byte>, outbox: seq<byte>, room: nat, log: Log, log1: Log,
                 last: Log, greeted: bool, rest: seq<byte>, later: seq<byte>, goal: seq<byte>)
    requires IsPath(log) && IsPath(log1) && HasOpened(log, log1, |t.pieces|, outbox, room, greeted)
    requires Walkable(m, t) && IsLog(m, t, lines, last) && Extends(log1, last)
    requires Init(m, Last(log).s) && Genuine(m, truth) && room >= |Greeting(|m.hashes|)| + |TalkAll(m)|
    requires goal == outbox + Greeting(|m.hashes|) + TalkAll(m)
    requires Last(log).begun < |lines| && lines[Last(log).begun] == Line(SeedText(m, truth) + rest, later)
    ensures greeted && JustOpened(m, truth, Last(log1), Last(log).s, rest, later, goal)
  {
    OpensAs(m, t, lines, log, log1, last);
    Greeted(outbox, Last(log1), Greeting(|m.hashes|), TalkAll(m), room);
    var n := |m.hashes|;
    assert |SentBytes(FirstBitfield(n), n)| <= |Greeting(n)|;
  }

  lemma OpensAs(m: Meta, t: TorrentInfo, lines: seq<Line>, log: Log, log1: Log, last: Log)
    requires IsPath(log) && IsPath(log1) && Extends(log, log1) && Extends(log1, last) && IsLog(m, t, lines, last)
    requires |log1.moves| == |log.moves| + 1 && log1.moves[|log.moves|] == Opens
    ensures Step(m, Last(log).s, Connect, Last(log1).s)
    ensures Last(log).begun < |lines| && Last(log1).line == lines[Last(log).begun]
  {
    var j := |log.moves|;
    assert IsMoveAt(m, t, lines, last, j);
    assert last.points[j] == Last(log) && last.points[j + 1] == Last(log1) && last.moves[j] == Opens;
  }

  lemma Greeted(outbox: seq<byte>, p: Point, greeting: seq<byte>, talk: seq<byte>, room: nat)
    requires Told(outbox, p.out, greeting, room, p.room) && room >= |greeting| + |talk|
    ensures Says(p, talk, outbox + greeting + talk)
  {
    assert Taken(greeting, room) == greeting;
  }

  // The end of the connection changes neither the files, nor what is complete,
  // nor what has been said.
  lemma EndsSame(m: Meta, t: TorrentInfo, lines: seq<Line>, log: Log, log': Log)
    requires IsLog(m, t, lines, log') && Ends(log, log')
    ensures Last(log').s.completed == Last(log).s.completed && Last(log').s.image == Last(log).s.image
    ensures Last(log').out == Last(log).out
  {
    var j := |log.moves|;
    assert IsMoveAt(m, t, lines, log', j);
    assert log'.points[j] == Last(log) && log'.points[j + 1] == Last(log');
  }

  // The record before the first connection.
  lemma SeedStarts(m: Meta, t: TorrentInfo, truth: seq<byte>, queued: seq<nat>, line: Line, room: nat, s: State, rest: seq<byte>)
    returns (lines: seq<Line>, log: Log)
    requires Init(m, s) && Genuine(m, truth) && line.now == SeedText(m, truth) + rest
    requires room >= |Greeting(|m.hashes|)| + |TalkAll(m)| && SeedTurns(m, queued)
    ensures IsLog(m, t, lines, log) && Last(log).s == s && Last(log).begun < |lines| && lines[Last(log).begun] == line
    ensures SeedReady(m, truth, queued, lines, room, log, rest)
  {
    lines, log := [line], Log([Point(s, Line([], []), 0, [], 0)], []);
  }

  // The connection with such a peer, in a download that has gained nothing yet.
  method RunSeeded(m: Meta, t: TorrentInfo, conn: Connection, queued: seq<nat>,
                   ghost truth: seq<byte>, ghost lines: seq<Line>, ghost log: Log, ghost rest: seq<byte>)
    requires Resting(m, t, lines, log) && IsNext(conn, lines, log)
    requires SeedReady(m, truth, queued, lines, conn.room, log, rest)
    modifies t`piecesState, t`piecesLeft, t`completed, t.files, conn
    ensures t.completed && t.Image() == truth
    ensures conn.outbox == old(conn.outbox) + Greeting(|m.hashes|) + TalkAll(m)
  {
    ghost var outbox, room := conn.outbox, conn.room;
    ghost var log', logs, alive;
    log', logs, alive := RunConnection(m, t, conn, queued, lines, log);
    SeedCompletes(m, t, lines, truth, queued, outbox, room, log, logs, alive, log', rest);
  }

  /** All that the client says to such a peer: its empty bitfield, UNCHOKE and
      INTERESTED; then, piece by piece, a REQUEST message for every block and,
      when the piece has come, HAVE; and NOT INTERESTED. */
  ghost function Said(m: Meta): (msgs: seq<Msg>)
    requires m.Valid() && m.pieceLength < TWO32
  {
    [BitfieldMsg(seq(|m.hashes|, _ => false)), Msg.Unchoke, Msg.Interested] + AskAndTell(m, 0)
  }

  lemma ThreeFirst<T>(a: T, b: T, c: T, rest: seq<T>)
    ensures [a, b, c] + rest == [a, b] + ([c] + rest) && [a, b] == [a] + [b]
  {}

  lemma SentThree(a: Msg, b: Msg, c: Msg, rest: seq<Msg>, pieces: nat)
    ensures SentAll([a, b, c] + rest, pieces) ==
            (SentBytes(a, pieces) + SentBytes(b, pieces)) + (SentBytes(c, pieces) + SentAll(rest, pieces))
  {
    ThreeFirst(a, b, c, rest);
    SentAllOne(a, pieces);
    SentAllOne(b, pieces);
    SentAllOne(c, pieces);
    SentAllConcat([a], [b], pieces);
    SentAllConcat([c], rest, pieces);
    SentAllConcat([a, b], [c] + rest, pieces);
  }

  lemma SaidIsSent(m: Meta)
    requires m.Valid() && m.pieceLength < TWO32
    ensures SentAll(Said(m), |m.hashes|) == Greeting(|m.hashes|) + TalkAll(m)
  {
    SentThree(FirstBitfield(|m.hashes|), Msg.Unchoke, Msg.Interested, AskAndTell(m, 0), |m.hashes|);
  }

  /** A fresh download from one peer that has every piece: the peer sends its
      bitfield, UNCHOKE, and then each block of the original once, as it is asked
      for; the socket does not fail, and takes what the client has to say.  Then
      the download is complete, and is the original; and the client has asked for
      every block before it came, and announced every piece. */
  method DownloadFromSeed(m: Meta, t: TorrentInfo, conn: Connection, queued: seq<nat>,
                          ghost truth: seq<byte>, ghost rest: seq<byte>)
    requires Walkable(m, t) && t.Distinct() && Init(m, Idle(t)) && Genuine(m, truth)
    requires conn.inbox == SeedText(m, truth) + rest && SeedTurns(m, queued)
    requires conn.room >= |SentAll(Said(m), |m.hashes|)|
    modifies t`piecesState, t`piecesLeft, t`completed, t.files, conn
    ensures t.completed && t.Image() == truth
    ensures conn.outbox == old(conn.outbox) + SentAll(Said(m), |m.hashes|)
  {
    InitInv(m, Idle(t));
    SaidIsSent(m);
    ghost var lines, log := SeedStarts(m, t, truth, queued, LineOf(conn), conn.room, Idle(t), rest);
    ConcatAssoc(conn.outbox, Greeting(|m.hashes|), TalkAll(m));
    RunSeeded(m, t, conn, queued, truth, lines, log, rest);
  }
}
