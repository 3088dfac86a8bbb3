/** A connection from its first message to its end (src/peer_connection.cpp). */
module Client {
  import opened Bytes
  import opened Bitfield
  import opened DownloadMachine
  import opened Torrent
  import opened PeerMsg
  import opened PeerWire
  import opened PeerConnection
  import opened Socket
  import opened Course

  ghost function LineOf(conn: Connection): Line
    reads conn
  {
    Line(conn.inbox, conn.later)
  }

  // The machine state of a torrent that no connection is working on.
  ghost function Idle(t: TorrentInfo): State
    requires t.Valid()
    reads t, t.files
  {
    State(t.Image(), t.piecesState, t.piecesLeft, t.completed, None)
  }

  // A connection is at work, and the record has led to the state it is in.
  ghost predicate Active(m: Meta, t: TorrentInfo, c: ConnState, lines: seq<Line>, log: Log)
    reads t, t.files, c, c.localRequests
  {
    Ready(m, t, c) && t.Distinct() && IsLog(m, t, lines, log) && Last(log).s == StateOf(t, c)
  }

  // The record knows what the socket holds and takes.
  ghost predicate Follows(conn: Connection, log: Log)
    requires log.points != []
    reads conn
  {
    Last(log).line == LineOf(conn) && Speaks(conn, log)
  }

  // The record knows what room the socket has and what the peer has been told.
  ghost predicate Speaks(conn: Connection, log: Log)
    requires log.points != []
    reads conn
  {
    Last(log).room == conn.room && Last(log).out == conn.outbox
  }

  // A message that has been read fits the torrent, but for a HAVE message for a
  // piece that does not exist.
  lemma ReadFits(t: TorrentInfo, stream: seq<byte>, have: seq<bool>)
    requires Reading(t, stream).Some? && |have| == |t.pieces|
    requires var msg := Reading(t, stream).value.msg; msg.Have? ==> msg.have < |t.pieces|
    ensures Fitting(have, Reading(t, stream).value.msg)
  {
    var msg := Reading(t, stream).value.msg;
    if msg.BitfieldMsg? {
      var len, s := U32(stream[..4]), stream[4..];
      assert |s[1..len]| == NumBytes(|t.pieces|);
      assert |Unpacked(s[1..len])| == 8 * NumBytes(|t.pieces|);
    }
  }

  // What peer_msg_recv has done to the files is what the machine's step does.
  lemma ReceivedIs(m: Meta, t: TorrentInfo, s: State, image: seq<byte>, r: Received, line: Line, rest: Line)
    returns (data: seq<byte>)
    requires Walkable(m, t) && Inv(m, s)
    requires Receives(t, r, s.image, image, line.now, line.later, rest.now, rest.later)
    ensures Inv(m, s.(image := image)) && InState(m, t, s, line, r, data, s.(image := image), rest)
  {
    data := [];
    if r.Message? && r.msg.Piece? {
      var index, begin := r.msg.index, r.msg.begin;
      data := StoredIsStep(m, t, s, image, index, begin, line.now[13..]);
      StepInv(m, s, WriteOf(m, t, index, begin, data), s.(image := image));
    }
  }

  // What has been received of the message at the head of the stream.
  ghost predicate InState(m: Meta, t: TorrentInfo, s: State, line: Line, r: Received, data: seq<byte>, s': State, rest: Line) {
    match Reading(t, line.now)
    case None => !r.Message? && s' == s
    case Some(read) =>
      r == Message(read.msg) && s' == Written(t, s, read.msg, data) && TakenIn(m, t, s, line, read, data, rest)
  }

  // peer_msg_recv as the machine sees it.
  method Receive(m: Meta, t: TorrentInfo, c: ConnState, conn: Connection) returns (r: Received, ghost data: seq<byte>)
    requires Ready(m, t, c) && t.Distinct()
    modifies conn`inbox, conn`later, t.files
    ensures Ready(m, t, c)
    ensures InState(m, t, old(StateOf(t, c)), old(LineOf(conn)), r, data, StateOf(t, c), LineOf(conn))
  {
    ghost var s, line := StateOf(t, c), LineOf(conn);
    r := PeerMsgRecv(t, conn);
    data := ReceivedIs(m, t, s, t.Image(), r, line, LineOf(conn));
    assert StateOf(t, c) == s.(image := t.Image());
  }

  // No message can be heard at p: none can be read, or it is a HAVE message for
  // a piece that does not exist, which fails an assertion.
  ghost predicate Stuck(t: TorrentInfo, p: Point) {
    match Reading(t, p.line.now)
    case None => true
    case Some(read) => read.msg.Have? && p.s.peer.Some? && read.msg.have >= |p.s.peer.value.peerHave|
  }

  // One more message has been heard.
  ghost predicate HeardOne(log: Log, log': Log) {
    AddsInner(log, log') && |log'.moves| == |log.moves| + 1 && log'.moves[|log.moves|].Hears?
  }

  // The next message has been received, which leaves the machine in mid and the
  // socket with line.
  ghost predicate Half(m: Meta, t: TorrentInfo, lines: seq<Line>, log: Log, read: Read, data: seq<byte>, mid: State, line: Line) {
    && IsLog(m, t, lines, log) && Inv(m, Last(log).s) && Reading(t, Last(log).line.now) == Some(read)
    && TakenIn(m, t, Last(log).s, Last(log).line, read, data, line)
    && mid == Written(t, Last(log).s, read.msg, data)
  }

  // The message has been processed, which has led from mid to b.
  ghost predicate Answered(m: Meta, log: Log, msg: Msg, mid: State, b: Point)
    requires log.points != []
  {
    && Inv(m, mid) && mid.peer.Some? && Fitting(mid.peer.value.peerHave, msg) && b.begun == Last(log).begun
    && var answer := AnswerTo(m, mid, msg);
       && b.s == MsgStep(m, mid, msg, |answer| <= Last(log).room)
       && Told(Last(log).out, b.out, answer, Last(log).room, b.room)
  }

  // What receiving and processing a message adds to the record.
  lemma HearsNext(m: Meta, t: TorrentInfo, lines: seq<Line>, log: Log, read: Read, data: seq<byte>, mid: State, b: Point)
    returns (log': Log)
    requires log.points != []
    ensures Half(m, t, lines, log, read, data, mid, b.line) && Answered(m, log, read.msg, mid, b) ==>
              IsLog(m, t, lines, log') && HeardOne(log, log') && Last(log') == b
  {
    log' := Then(log, Hears(data), b);
    if Half(m, t, lines, log, read, data, mid, b.line) && Answered(m, log, read.msg, mid, b) {
      assert HearsIt(m, t, Last(log), data, b);
      OneMoreMove(m, t, lines, log, Hears(data), b);
    }
  }

  /** One round of process_queued_msgs: the message at the head of the stream is
      heard, unless the client gets stuck. */
  method ReceiveAndProcess(m: Meta, t: TorrentInfo, c: ConnState, conn: Connection, ghost lines: seq<Line>, ghost log: Log)
    returns (ok: bool, ghost log': Log)
    requires Active(m, t, c, lines, log) && Follows(conn, log)
    modifies t`piecesState, t`piecesLeft, t`completed, t.files, c, c.localRequests, conn
    ensures Active(m, t, c, lines, log')
    ensures if ok then HeardOne(log, log') && Follows(conn, log') else log' == log && Stuck(t, Last(log)) && Speaks(conn, log)
    ensures c.localRequests == old(c.localRequests) || c.localRequests == []
  {
    ghost var a := Last(log);
    var r;
    ghost var data;
    r, data := Receive(m, t, c, conn);
    // A HAVE message for a piece that does not exist fails an assertion.
    if !r.Message? || (r.msg.Have? && r.msg.have >= |c.peerHave|) {
      return false, log;
    }
    ReadFits(t, a.line.now, c.peerHave);
    log' := ProcessRead(m, t, c, conn, r.msg, Reading(t, a.line.now).value, data, lines, log);
    ok := true;
  }

  // The second half of a round: the message that has been received is processed.
  method ProcessRead(m: Meta, t: TorrentInfo, c: ConnState, conn: Connection, msg: Msg,
                     ghost read: Read, ghost data: seq<byte>, ghost lines: seq<Line>, ghost log: Log)
    returns (ghost log': Log)
    requires Ready(m, t, c) && t.Distinct() && read.msg == msg && Fitting(c.peerHave, msg)
    requires Half(m, t, lines, log, read, data, StateOf(t, c), LineOf(conn)) && Speaks(conn, log)
    modifies t`piecesState, t`piecesLeft, t`completed, c, c.localRequests, conn`outbox, conn`room
    ensures Active(m, t, c, lines, log') && HeardOne(log, log') && Follows(conn, log')
    ensures c.localRequests == old(c.localRequests) || c.localRequests == []
  {
    ghost var mid, line, begun := StateOf(t, c), LineOf(conn), Last(log).begun;
    ProcessMsg(m, t, c, conn, msg);
    log' := HearsNext(m, t, lines, log, read, data, mid, Point(StateOf(t, c), line, conn.room, conn.outbox, begun));
  }

  // Only messages have been heard since, n of them.
  ghost predicate Heard(log: Log, log': Log, n: nat) {
    && AddsInner(log, log') && |log'.moves| == |log.moves| + n
    && forall j | |log.moves| <= j < |log'.moves| :: log'.moves[j].Hears?
  }

  lemma HeardMore(a: Log, b: Log, c: Log, n: nat)
    requires Heard(a, b, n) && HeardOne(b, c)
    ensures Heard(a, c, n + 1)
  {
    AddsInnerOn(a, b, c);
  }

  /** process_queued_msgs, when this many messages are queued: the next messages
      of the stream are heard, in their order, unless the client gets stuck. */
  method ProcessQueued(m: Meta, t: TorrentInfo, c: ConnState, conn: Connection, queued: nat,
                       ghost lines: seq<Line>, ghost log: Log)
    returns (ok: bool, ghost log': Log, ghost n: nat)
    requires Active(m, t, c, lines, log) && Follows(conn, log)
    modifies t`piecesState, t`piecesLeft, t`completed, t.files, c, c.localRequests, conn
    ensures Active(m, t, c, lines, log') && Heard(log, log', n)
    ensures if ok then n == queued && Follows(conn, log') else n < queued && Stuck(t, Last(log')) && Speaks(conn, log')
    ensures c.localRequests == old(c.localRequests) || c.localRequests == []
  {
    log', ok, n := log, true, 0;
    for i := 0 to queued
      invariant ok && Active(m, t, c, lines, log') && Follows(conn, log')
      invariant n == i && Heard(log, log', n)
      invariant c.localRequests == old(c.localRequests) || c.localRequests == []
    {
      ok, log', n := NextQueued(m, t, c, conn, lines, log, log', n);
      if !ok {
        return;
      }
    }
  }

  // One more queued message, after n others.
  method NextQueued(m: Meta, t: TorrentInfo, c: ConnState, conn: Connection,
                    ghost lines: seq<Line>, ghost log: Log, ghost log1: Log, ghost n: nat)
    returns (ok: bool, ghost log': Log, ghost n': nat)
    requires Active(m, t, c, lines, log1) && Follows(conn, log1) && Heard(log, log1, n)
    modifies t`piecesState, t`piecesLeft, t`completed, t.files, c, c.localRequests, conn
    ensures Active(m, t, c, lines, log') && Heard(log, log', n')
    ensures if ok then n' == n + 1 && Follows(conn, log') else n' == n && Stuck(t, Last(log')) && Speaks(conn, log')
    ensures c.localRequests == old(c.localRequests) || c.localRequests == []
  {
    n' := n;
    ok, log' := ReceiveAndProcess(m, t, c, conn, lines, log1);
    if ok {
      HeardMore(log, log1, log', n);
      n' := n + 1;
    }
  }

  // The client asks at p.
  predicate AsksAt(p: Point) {
    p.s.peer.Some? && p.s.peer.value.open.None? && MayAsk(p.s.peer.value)
  }

  // All the messages that ask for a piece go out.
  ghost predicate AskFits(m: Meta, p: Point, picked: Option<nat>) {
    picked.Some? ==> |RequestsFor(m, picked.value, |p.s.pieces|)| <= p.room
  }

  /** What is left of a turn once its messages have been heard: the client asks
      exactly when it may.  The turn ends well when everything has been sent and
      the download is not complete. */
  ghost predicate TurnEnds(m: Meta, log: Log, log': Log, alive: bool)
    requires log.points != [] && log'.points != []
  {
    && AddsInner(log, log')
    && if AsksAt(Last(log)) then
         && |log'.moves| == |log.moves| + 1 && log'.moves[|log.moves|].Asks?
         && (alive <==> AskFits(m, Last(log), log'.moves[|log.moves|].picked) && !Last(log').s.completed)
       else log' == log && (alive <==> !Last(log).s.completed)
  }

  // What send_requests adds to the record, if anything.
  ghost predicate Asked(m: Meta, log: Log, log': Log, ok: bool)
    requires log.points != []
  {
    && AddsInner(log, log')
    && if AsksAt(Last(log)) then
         && |log'.moves| == |log.moves| + 1 && log'.moves[|log.moves|].Asks?
         && (ok <==> AskFits(m, Last(log), log'.moves[|log.moves|].picked))
       else log' == log && ok
  }

  // The client has asked at the end of the record, which has led to b.
  ghost predicate AskedFor(m: Meta, log: Log, picked: Option<nat>, b: Point)
    requires log.points != []
  {
    && Inv(m, Last(log).s) && AsksAt(Last(log)) && b.line == Last(log).line && b.begun == Last(log).begun
    && var s := Last(log).s;
       var bytes := AskBytes(m, picked, s.peer.value.interested, |s.pieces|);
       && IsPick(s.pieces, s.peer.value.peerHave, picked) && b.s == AskStep(m, s, picked, |bytes| <= Last(log).room)
       && Told(Last(log).out, b.out, bytes, Last(log).room, b.room)
  }

  lemma AsksNext(m: Meta, t: TorrentInfo, lines: seq<Line>, log: Log, picked: Option<nat>, b: Point) returns (log': Log)
    requires log.points != []
    ensures IsLog(m, t, lines, log) && AskedFor(m, log, picked, b) ==>
              && IsLog(m, t, lines, log') && AddsInner(log, log') && Last(log') == b
              && b.s.completed == Last(log).s.completed
              && |log'.moves| == |log.moves| + 1 && log'.moves[|log.moves|] == Asks(picked)
  {
    log' := Then(log, Asks(picked), b);
    if IsLog(m, t, lines, log) && AskedFor(m, log, picked, b) {
      assert AsksIt(m, Last(log), picked, b);
      OneMoreMove(m, t, lines, log, Asks(picked), b);
    }
  }

  // The send_requests call of a turn, when the client may ask, and where it leads.
  method AskNow(m: Meta, t: TorrentInfo, c: ConnState, conn: Connection, ghost lines: seq<Line>, ghost log: Log)
    returns (ok: bool, ghost picked: Option<nat>, ghost b: Point)
    requires Active(m, t, c, lines, log) && Follows(conn, log) && MayAsk(PeerOf(c))
    modifies t`piecesState, c`localRequests, c`localInterested, conn`outbox, conn`room
    ensures Ready(m, t, c) && b == Point(StateOf(t, c), LineOf(conn), conn.room, conn.outbox, Last(log).begun)
    ensures if old(c.localRequests) == [] then AskedFor(m, log, picked, b) && (ok <==> AskFits(m, Last(log), picked))
            else ok && b == Last(log)
    ensures c.localRequests == old(c.localRequests) || (|c.localRequests| == 1 && fresh(c.localRequests[0]))
  {
    ok, picked := SendRequests(m, t, c, conn);
    b := Point(StateOf(t, c), LineOf(conn), conn.room, conn.outbox, Last(log).begun);
  }

  // It goes on record.
  method AskPeer(m: Meta, t: TorrentInfo, c: ConnState, conn: Connection, ghost lines: seq<Line>, ghost log: Log)
    returns (ok: bool, ghost log': Log)
    requires Active(m, t, c, lines, log) && Follows(conn, log) && MayAsk(PeerOf(c))
    modifies t`piecesState, c`localRequests, c`localInterested, conn`outbox, conn`room
    ensures Active(m, t, c, lines, log') && Follows(conn, log') && Asked(m, log, log', ok)
    ensures c.localRequests == old(c.localRequests) || (|c.localRequests| == 1 && fresh(c.localRequests[0]))
    ensures Last(log').s.completed == Last(log).s.completed
  {
    ghost var asks := c.localRequests == [];
    log' := log;
    ghost var picked, b;
    ok, picked, b := AskNow(m, t, c, conn, lines, log);
    if asks {
      log' := AsksNext(m, t, lines, log, picked, b);
      assert log'.moves[|log.moves|].picked == picked;
    }
  }

  // The rest of a turn, after its messages.
  method EndTurn(m: Meta, t: TorrentInfo, c: ConnState, conn: Connection, ghost lines: seq<Line>, ghost log: Log)
    returns (alive: bool, ghost log': Log)
    requires Active(m, t, c, lines, log) && Follows(conn, log)
    modifies t`piecesState, c`localRequests, c`localInterested, conn`outbox, conn`room
    ensures Active(m, t, c, lines, log') && Follows(conn, log') && TurnEnds(m, log, log', alive)
    ensures c.localRequests == old(c.localRequests) || (|c.localRequests| == 1 && fresh(c.localRequests[0]))
  {
    var ok := true;
    log' := log;
    if c.peerRequests == [] && !c.localChoked && c.localInterested {
      ok, log' := AskPeer(m, t, c, conn, lines, log);
    }
    alive := ok && !t.completed;
  }

  // The record log1 after the messages of a turn, n of them, and log' after the
  // turn.
  ghost predicate TurnThrough(m: Meta, t: TorrentInfo, log: Log, queued: nat, log1: Log, n: nat, log': Log, alive: bool) {
    && log1.points != [] && log'.points != [] && Heard(log, log1, n)
    && if n < queued then log' == log1 && !alive && Stuck(t, Last(log1))
       else n == queued && TurnEnds(m, log1, log', alive)
  }

  /** One turn of the loop of peer_connection. */
  ghost predicate TurnTaken(m: Meta, t: TorrentInfo, log: Log, queued: nat, log': Log, alive: bool) {
    exists log1, n :: TurnThrough(m, t, log, queued, log1, n, log', alive)
  }

  lemma TurnIs(m: Meta, t: TorrentInfo, log: Log, queued: nat, log1: Log, n: nat, log': Log, alive: bool)
    requires TurnThrough(m, t, log, queued, log1, n, log', alive)
    ensures TurnTaken(m, t, log, queued, log', alive) && AddsInner(log, log')
  {
    if n == queued {
      AddsInnerOn(log, log1, log');
    }
  }

  /** A turn hears the queued messages and then asks exactly when the client may;
      it ends well when the client has not got stuck, everything has been sent,
      and the download is not complete. */
  method Turn(m: Meta, t: TorrentInfo, c: ConnState, conn: Connection, queued: nat, ghost lines: seq<Line>, ghost log: Log)
    returns (alive: bool, ghost log': Log)
    requires Active(m, t, c, lines, log) && Follows(conn, log)
    modifies t`piecesState, t`piecesLeft, t`completed, t.files, c, c.localRequests, conn
    ensures Active(m, t, c, lines, log') && Speaks(conn, log') && (alive ==> Follows(conn, log'))
    ensures TurnTaken(m, t, log, queued, log', alive) && AddsInner(log, log')
    ensures || c.localRequests == old(c.localRequests) || c.localRequests == []
            || (|c.localRequests| == 1 && fresh(c.localRequests[0]))
  {
    ghost var log1, n;
    alive, log1, n := ProcessQueued(m, t, c, conn, queued, lines, log);
    log' := log1;
    if alive {
      alive, log' := EndTurn(m, t, c, conn, lines, log1);
    }
    TurnIs(m, t, log, queued, log1, n, log', alive);
  }

  // Turn j has ended well, unless it is the last and alive is not set.
  predicate WentOn(logs: seq<Log>, alive: bool, j: nat) { j + 2 < |logs| || alive }

  ghost predicate TurnAt(m: Meta, t: TorrentInfo, logs: seq<Log>, queued: seq<nat>, j: nat, alive: bool) {
    && j < |queued| && j + 1 < |logs|
    && TurnTaken(m, t, logs[j], queued[j], logs[j + 1], WentOn(logs, alive, j))
  }

  /** The records after turn upon turn, at most n of them; each but the last has
      ended well, and the last has when alive is set, in which case there have
      been n. */
  ghost predicate TurnsTaken(m: Meta, t: TorrentInfo, queued: seq<nat>, n: nat, started: bool, logs: seq<Log>, alive: bool) {
    && 1 <= |logs| <= n + 1 && n <= |queued|
    && (alive ==> started && |logs| == n + 1) && (|logs| == 1 ==> alive == started) && (!started ==> |logs| == 1)
    && forall j: nat | j < |logs| - 1 :: TurnAt(m, t, logs, queued, j, alive)
  }

  lemma OneMoreTurn(m: Meta, t: TorrentInfo, queued: seq<nat>, n: nat, logs: seq<Log>, log': Log, alive: bool)
    requires n < |queued| && TurnsTaken(m, t, queued, n, true, logs, true)
    requires TurnTaken(m, t, logs[|logs| - 1], queued[n], log', alive)
    ensures TurnsTaken(m, t, queued, n + 1, true, logs + [log'], alive)
  {
    var more := logs + [log'];
    forall j: nat | j < |more| - 1
      ensures TurnAt(m, t, more, queued, j, alive)
    {
      assert j < |logs| - 1 ==> TurnAt(m, t, logs, queued, j, true);
    }
  }

  // The records lead from log to log'.
  ghost predicate TurnsTo(m: Meta, t: TorrentInfo, queued: seq<nat>, n: nat, started: bool, log: Log, logs: seq<Log>,
                          log': Log, alive: bool) {
    && TurnsTaken(m, t, queued, n, started, logs, alive)
    && logs[0] == log && logs[|logs| - 1] == log'
  }

  // Turns that have ended badly are the same among one more.
  lemma NoMoreTurns(m: Meta, t: TorrentInfo, queued: seq<nat>, n: nat, started: bool, log: Log, logs: seq<Log>, log': Log)
    ensures TurnsTo(m, t, queued, n, started, log, logs, log', false) && n < |queued| ==>
              TurnsTo(m, t, queued, n + 1, started, log, logs, log', false)
  {}

  // The client goes on with the peer as long as it is alive.
  ghost predicate GoesOn(m: Meta, t: TorrentInfo, c: ConnState, conn: Connection, lines: seq<Line>, log: Log, alive: bool)
    reads t, t.files, c, c.localRequests, conn
  {
    Active(m, t, c, lines, log) && Speaks(conn, log) && (alive ==> Follows(conn, log))
  }

  // The loop of peer_connection.
  method Turns(m: Meta, t: TorrentInfo, c: ConnState, conn: Connection, queued: seq<nat>, started: bool,
               ghost lines: seq<Line>, ghost log: Log)
    returns (alive: bool, ghost log': Log, ghost logs: seq<Log>)
    requires Active(m, t, c, lines, log) && Follows(conn, log) && c.localRequests == []
    modifies t`piecesState, t`piecesLeft, t`completed, t.files, c, conn
    ensures Active(m, t, c, lines, log') && AddsInner(log, log') && Speaks(conn, log')
    ensures TurnsTo(m, t, queued, |queued|, started, log, logs, log', alive)
  {
    alive, log', logs := started, log, [log];
    for i := 0 to |queued|
      invariant GoesOn(m, t, c, conn, lines, log', alive) && AddsInner(log, log')
      invariant c.localRequests == [] || (|c.localRequests| == 1 && fresh(c.localRequests[0]))
      invariant TurnsTo(m, t, queued, i, started, log, logs, log', alive)
    {
      if alive {
        alive, log', logs := NextTurn(m, t, c, conn, queued, i, started, lines, log, log', logs);
      } else {
        NoMoreTurns(m, t, queued, i, started, log, logs, log');
      }
    }
  }

  // One more turn, after i others.
  method NextTurn(m: Meta, t: TorrentInfo, c: ConnState, conn: Connection, queued: seq<nat>, i: nat, ghost started: bool,
                  ghost lines: seq<Line>, ghost log: Log, ghost log1: Log, ghost logs: seq<Log>)
    returns (alive: bool, ghost log': Log, ghost logs': seq<Log>)
    requires GoesOn(m, t, c, conn, lines, log1, true) && AddsInner(log, log1)
    requires i < |queued| && TurnsTo(m, t, queued, i, started, log, logs, log1, true)
    modifies t`piecesState, t`piecesLeft, t`completed, t.files, c, conn
    modifies if c.localRequests == [] then {} else {c.localRequests[0]}
    ensures GoesOn(m, t, c, conn, lines, log', alive) && AddsInner(log, log')
    ensures TurnsTo(m, t, queued, i + 1, started, log, logs', log', alive)
    ensures || c.localRequests == old(c.localRequests) || c.localRequests == []
            || (|c.localRequests| == 1 && fresh(c.localRequests[0]))
  {
    alive, log' := Turn(m, t, c, conn, queued[i], lines, log1);
    AddsInnerOn(log, log1, log');
    OneMoreTurn(m, t, queued, i, logs, log', alive);
    logs' := logs + [log'];
  }

  // The initial bitfield, whose bits are all unset.
  function FirstBitfield(pieces: nat): Msg { BitfieldMsg(seq(pieces, _ => false)) }

  // The messages that open a connection: the initial bitfield, then unchoke.
  method Greet(c: ConnState, conn: Connection, pieces: nat) returns (ok: bool)
    modifies c`remoteChoked, conn`outbox, conn`room
    ensures var first, second := SentBytes(FirstBitfield(pieces), pieces), SentBytes(Msg.Unchoke, pieces);
            && (ok <==> |first| <= old(conn.room))
            && (if ok then Told(old(conn.outbox) + first, conn.outbox, second, old(conn.room) - |first|, conn.room)
                else Told(old(conn.outbox), conn.outbox, first, old(conn.room), conn.room))
            && (c.remoteChoked <==> old(c.remoteChoked) && |first| + |second| > old(conn.room))
  {
    ok := Tell(conn, pieces, FirstBitfield(pieces));
    if ok {
      Unchoke(c, conn, pieces);
    }
  }

  /** unchoke */
  method Unchoke(c: ConnState, conn: Connection, pieces: nat)
    modifies c`remoteChoked, conn`outbox, conn`room
    ensures Told(old(conn.outbox), conn.outbox, SentBytes(Msg.Unchoke, pieces), old(conn.room), conn.room)
    ensures c.remoteChoked <==> old(c.remoteChoked) && |SentBytes(Msg.Unchoke, pieces)| > old(conn.room)
  {
    var ok := Tell(conn, pieces, Msg.Unchoke);
    if ok {
      c.remoteChoked := false;
    }
  }

  // The bytes of the greeting.
  function Greeting(pieces: nat): seq<byte> {
    SentBytes(FirstBitfield(pieces), pieces) + SentBytes(Msg.Unchoke, pieces)
  }

  // A torrent that no connection is working on, and how it came to be so.
  ghost predicate Resting(m: Meta, t: TorrentInfo, lines: seq<Line>, log: Log)
    reads t, t.files
  {
    && Walkable(m, t) && t.Distinct() && Inv(m, Idle(t)) && IsLog(m, t, lines, log) && Last(log).s == Idle(t)
  }

  // The next of the sockets is this one.
  ghost predicate IsNext(conn: Connection, lines: seq<Line>, log: Log)
    requires log.points != []
    reads conn
  {
    Last(log).begun < |lines| && lines[Last(log).begun] == LineOf(conn)
  }

  // What opening a connection adds to the record, once the client has sent its
  // greeting as far as there was room.
  ghost predicate HasOpened(log: Log, log': Log, pieces: nat, outbox: seq<byte>, room: nat, greeted: bool)
    requires log.points != [] && log'.points != []
  {
    && Extends(log, log') && IsPath(log) && IsPath(log') && Last(log').begun == Last(log).begun + 1
    && |log'.moves| == |log.moves| + 1 && log'.moves[|log.moves|] == Opens
    && (greeted <==> |SentBytes(FirstBitfield(pieces), pieces)| <= room)
    && Told(outbox, Last(log').out, Greeting(pieces), room, Last(log').room)
  }

  // A new connection, before any message has been exchanged.
  method Open(m: Meta, t: TorrentInfo) returns (c: ConnState)
    requires Walkable(m, t) && Inv(m, Idle(t))
    ensures fresh(c) && c.localRequests == [] && Ready(m, t, c) && Step(m, Idle(t), Connect, StateOf(t, c))
  {
    c := new ConnState(t);
    ghost var peer := FreshPeer(t.piecesState);
    assert c.localHave == peer.localHave && c.peerHave == peer.peerHave;
    assert StateOf(t, c) == Idle(t).(peer := Some(peer));
    StepInv(m, Idle(t), Connect, StateOf(t, c));
  }

  // A connection up to the loop of peer_connection.
  method Start(m: Meta, t: TorrentInfo, conn: Connection, ghost lines: seq<Line>, ghost log: Log)
    returns (c: ConnState, greeted: bool, ghost log': Log)
    requires Resting(m, t, lines, log) && IsNext(conn, lines, log)
    modifies conn`outbox, conn`room
    ensures fresh(c) && c.localRequests == [] && Active(m, t, c, lines, log') && Follows(conn, log')
    ensures HasOpened(log, log', |t.pieces|, old(conn.outbox), old(conn.room), greeted)
  {
    ghost var line := LineOf(conn);
    c := Open(m, t);
    ghost var s := StateOf(t, c);
    greeted := GreetPeer(m, t, c, conn);
    log' := OpensNext(m, t, lines, log, Point(s, line, conn.room, conn.outbox, Last(log).begun + 1));
  }

  lemma OpensNext(m: Meta, t: TorrentInfo, lines: seq<Line>, log: Log, b: Point) returns (log': Log)
    requires IsLog(m, t, lines, log) && Inv(m, Last(log).s) && Step(m, Last(log).s, Connect, b.s)
    requires Last(log).begun < |lines| && b.line == lines[Last(log).begun] && b.begun == Last(log).begun + 1
    ensures IsLog(m, t, lines, log') && Extends(log, log') && Last(log') == b
    ensures |log'.moves| == |log.moves| + 1 && log'.moves[|log.moves|] == Opens
  {
    log' := Then(log, Opens, b);
    OneMoreMove(m, t, lines, log, Opens, b);
  }

  // Two messages, of which the second is sent when there was room for the first.
  lemma ToldBoth(before: seq<byte>, after: seq<byte>, first: seq<byte>, second: seq<byte>, room: nat, room': nat)
    requires if |first| <= room then Told(before + first, after, second, room - |first|, room')
             else Told(before, after, first, room, room')
    ensures Told(before, after, first + second, room, room')
  {
    if |first| <= room {
      assert Taken(first + second, room) == first + Taken(second, room - |first|);
      ConcatAssoc(before, first, Taken(second, room - |first|));
    } else {
      assert (first + second)[..room] == first[..room];
    }
  }

  // The greeting changes nothing that the machine sees.
  method GreetPeer(m: Meta, t: TorrentInfo, c: ConnState, conn: Connection) returns (ok: bool)
    requires Ready(m, t, c)
    modifies c`remoteChoked, conn`outbox, conn`room
    ensures Ready(m, t, c) && StateOf(t, c) == old(StateOf(t, c))
    ensures ok <==> |SentBytes(FirstBitfield(|t.pieces|), |t.pieces|)| <= old(conn.room)
    ensures Told(old(conn.outbox), conn.outbox, Greeting(|t.pieces|), old(conn.room), conn.room)
  {
    ghost var outbox, room := conn.outbox, conn.room;
    ok := Greet(c, conn, |t.pieces|);
    ToldBoth(outbox, conn.outbox, SentBytes(FirstBitfield(|t.pieces|), |t.pieces|), SentBytes(Msg.Unchoke, |t.pieces|),
             room, conn.room);
  }

  // The connection ends, whatever state it is in.
  lemma Close(m: Meta, t: TorrentInfo, c: ConnState, lines: seq<Line>, log: Log) returns (log': Log)
    requires Active(m, t, c, lines, log)
    ensures Resting(m, t, lines, log') && Extends(log, log') && Last(log') == Last(log).(s := Idle(t))
    ensures |log'.moves| == |log.moves| + 1 && log'.moves[|log.moves|] == Closes
  {
    var a := Last(log);
    var b := a.(s := Idle(t));
    assert b.s == a.s.(peer := None);
    StepInv(m, a.s, Die, b.s);
    log' := Then(log, Closes, b);
    OneMoreMove(m, t, lines, log, Closes, b);
  }

  /** A whole connection: log is the record before it, logs are those after its
      greeting and after each of its turns, and log' is the one after it. */
  ghost predicate ConnectionTaken(m: Meta, t: TorrentInfo, queued: seq<nat>, outbox: seq<byte>, room: nat,
                                  log: Log, logs: seq<Log>, alive: bool, log': Log) {
    && log.points != [] && logs != [] && logs[0].points != []
    && exists greeted ::
         && HasOpened(log, logs[0], |t.pieces|, outbox, room, greeted)
         && TurnsTaken(m, t, queued, |queued|, greeted, logs, alive)
         && Ends(logs[|logs| - 1], log')
  }

  ghost predicate Ends(log: Log, log': Log) {
    && Extends(log, log') && IsPath(log) && IsPath(log') && Last(log').begun == Last(log).begun
    && |log'.moves| == |log.moves| + 1 && log'.moves[|log.moves|] == Closes
  }

  /** peer_connection after the handshake: the greeting and then turn after turn,
      with queued[j] messages found in turn j, until a call fails, the download is
      complete, or the connection is gone after the last turn. */
  method RunConnection(m: Meta, t: TorrentInfo, conn: Connection, queued: seq<nat>, ghost lines: seq<Line>, ghost log: Log)
    returns (ghost log': Log, ghost logs: seq<Log>, ghost alive: bool)
    requires Resting(m, t, lines, log) && IsNext(conn, lines, log)
    modifies t`piecesState, t`piecesLeft, t`completed, t.files, conn
    ensures Resting(m, t, lines, log') && AddsConnection(log, log') && Speaks(conn, log')
    ensures ConnectionTaken(m, t, queued, old(conn.outbox), old(conn.room), log, logs, alive, log')
  {
    var c, greeted, going;
    ghost var log1, log2;
    c, greeted, log1 := Start(m, t, conn, lines, log);
    going, log2, logs := Turns(m, t, c, conn, queued, greeted, lines, log1);
    log' := Close(m, t, c, lines, log2);
    alive := going;
    WholeConnection(log, log1, log2, log');
    assert HasOpened(log, logs[0], |t.pieces|, old(conn.outbox), old(conn.room), greeted);
  }

  lemma WholeConnection(log: Log, log1: Log, log2: Log, log': Log)
    requires IsPath(log) && Extends(log, log1) && AddsInner(log1, log2) && Ends(log2, log')
    requires |log1.moves| == |log.moves| + 1 && log1.moves[|log.moves|] == Opens && Last(log1).begun == Last(log).begun + 1
    ensures AddsConnection(log, log')
  {
    assert log2.moves[..|log1.moves|] == log1.moves && log'.moves[..|log2.moves|] == log2.moves;
    assert |log'.moves| == |log2.moves| + 1;
  }
}
