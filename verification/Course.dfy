/** The course of a download: what its connections hear, ask and change, move by
    move, as the streams of its peers and the room in its sockets allow. */
module Course {
  import opened Bytes
  import opened DownloadMachine
  import opened DownloadSafety
  import opened Courtesy
  import opened Asking
  import opened Torrent
  import opened PeerWire
  import opened PeerConnection
  import opened Socket

  // What a socket holds: the bytes it delivers before it fails, and those that
  // may follow.
  datatype Line = Line(now: seq<byte>, later: seq<byte>)

  // Where a download is: the state of the machine, what the socket of the last
  // connection holds and takes, what its peer has been told, and how many
  // connections there have been.
  datatype Point = Point(s: State, line: Line, room: nat, out: seq<byte>, begun: nat)

  // A message that has been heard brings the bytes that a PIECE message writes.
  datatype Move =
    | Opens
    | Hears(data: seq<byte>)
    | Asks(picked: Option<nat>)
    | Closes

  // The bytes after a write.
  function Put(image: seq<byte>, from: nat, data: seq<byte>): seq<byte> {
    if from + |data| <= |image| then Splice(image, from, data) else image
  }

  /** What a PIECE message writes, and what the socket holds then.  When the
      socket fails inside the block only the first part of data is the peer's. */
  ghost predicate Brought(line: Line, read: Read, data: seq<byte>, rest: Line) {
    && |line.now| >= 13 && 13 + |data| == read.used
    && Agree(data, line.now[13..]) && Took(read.used, line.now, line.later, rest.now, rest.later)
  }

  // The state once the bytes of a PIECE message have been received.
  function Written(t: TorrentInfo, s: State, msg: Msg, data: seq<byte>): State {
    if msg.Piece? then s.(image := Put(s.image, BlockPlace(t, msg.index, msg.begin), data)) else s
  }

  // The message at the head of the stream has been received: a PIECE message has
  // written its block, and the stream goes on behind it.
  ghost predicate TakenIn(m: Meta, t: TorrentInfo, s: State, line: Line, read: Read, data: seq<byte>, rest: Line) {
    if read.msg.Piece? then
      && Brought(line, read, data, rest)
      && Step(m, s, WriteOf(m, t, read.msg.index, read.msg.begin, data), Written(t, s, read.msg, data))
    else data == [] && read.used <= |line.now| && rest == Line(line.now[read.used..], line.later)
  }

  /** The message at the head of the stream has been received and processed. */
  ghost predicate HearsIt(m: Meta, t: TorrentInfo, a: Point, data: seq<byte>, b: Point) {
    match Reading(t, a.line.now)
    case None => false
    case Some(read) =>
      var msg, mid := read.msg, Written(t, a.s, read.msg, data);
      && TakenIn(m, t, a.s, a.line, read, data, b.line)
      && Inv(m, mid) && mid.peer.Some? && Fitting(mid.peer.value.peerHave, msg)
      && var answer := AnswerTo(m, mid, msg);
         && b.s == MsgStep(m, mid, msg, |answer| <= a.room) && b.begun == a.begun
         && Told(a.out, b.out, answer, a.room, b.room)
  }

  /** The client has asked for a piece, or found that there is none to ask for. */
  ghost predicate AsksIt(m: Meta, a: Point, picked: Option<nat>, b: Point) {
    && a.s.peer.Some?
    && var bytes := AskBytes(m, picked, a.s.peer.value.interested, |a.s.pieces|);
       && Step(m, a.s, Ask(picked, |bytes| <= a.room), b.s)
       && Told(a.out, b.out, bytes, a.room, b.room) && b.line == a.line && b.begun == a.begun
  }

  /** One move, with sockets that held lines when the download began. */
  ghost predicate IsMove(m: Meta, t: TorrentInfo, lines: seq<Line>, a: Point, move: Move, b: Point) {
    && Inv(m, a.s)
    && match move
       case Opens =>
         && Step(m, a.s, Connect, b.s)
         && a.begun < |lines| && b.line == lines[a.begun] && b.begun == a.begun + 1
       case Hears(data) => HearsIt(m, t, a, data, b)
       case Asks(picked) => AsksIt(m, a, picked, b)
       case Closes => Step(m, a.s, Die, b.s) && b == a.(s := b.s)
  }

  datatype Log = Log(points: seq<Point>, moves: seq<Move>)

  predicate IsPath(log: Log) { |log.points| == |log.moves| + 1 }

  ghost predicate IsMoveAt(m: Meta, t: TorrentInfo, lines: seq<Line>, log: Log, j: nat) {
    j < |log.moves| && j + 1 < |log.points| && IsMove(m, t, lines, log.points[j], log.moves[j], log.points[j + 1])
  }

  /** A record of moves, each from where the one before it has led: the messages
      of every stream are heard in their order, and none twice. */
  ghost predicate IsLog(m: Meta, t: TorrentInfo, lines: seq<Line>, log: Log) {
    IsPath(log) && forall j: nat | j < |log.moves| :: IsMoveAt(m, t, lines, log, j)
  }

  function Last(log: Log): Point
    requires log.points != []
  {
    log.points[|log.points| - 1]
  }

  function Then(log: Log, move: Move, b: Point): Log {
    Log(log.points + [b], log.moves + [move])
  }

  ghost predicate Extends(log: Log, log': Log) {
    log.points <= log'.points && log.moves <= log'.moves
  }

  lemma ExtendsOn(a: Log, b: Log, c: Log)
    requires Extends(a, b) && Extends(b, c)
    ensures Extends(a, c)
  {}

  lemma OneMoreMove(m: Meta, t: TorrentInfo, lines: seq<Line>, log: Log, move: Move, b: Point)
    requires IsLog(m, t, lines, log) && IsMove(m, t, lines, Last(log), move, b)
    ensures IsLog(m, t, lines, Then(log, move, b)) && Last(Then(log, move, b)) == b
    ensures Extends(log, Then(log, move, b))
  {
    var after := Then(log, move, b);
    forall j: nat | j < |after.moves|
      ensures IsMoveAt(m, t, lines, after, j)
    {
      assert j < |log.moves| ==> IsMoveAt(m, t, lines, log, j);
    }
  }

  // What has been recorded up to some time is a record.
  lemma EarlierLog(m: Meta, t: TorrentInfo, lines: seq<Line>, log: Log, log': Log)
    requires IsLog(m, t, lines, log') && IsPath(log) && Extends(log, log')
    ensures IsLog(m, t, lines, log)
  {
    forall j: nat | j < |log.moves|
      ensures IsMoveAt(m, t, lines, log, j)
    {
      assert IsMoveAt(m, t, lines, log', j);
    }
  }

  // The moves between the opening of a connection and its end.
  predicate Inner(move: Move) { move.Hears? || move.Asks? }

  ghost predicate AddsInner(log: Log, log': Log) {
    && Extends(log, log') && IsPath(log) && IsPath(log') && Last(log').begun == Last(log).begun
    && forall j | |log.moves| <= j < |log'.moves| :: Inner(log'.moves[j])
  }

  lemma AddsInnerOn(a: Log, b: Log, c: Log)
    requires AddsInner(a, b) && AddsInner(b, c)
    ensures AddsInner(a, c)
  {
    forall j | |a.moves| <= j < |c.moves|
      ensures Inner(c.moves[j])
    {
      assert j < |b.moves| ==> c.moves[j] == b.moves[j];
    }
  }

  // The machine's event for a message that has been received.
  function EventOf(msg: Msg, sent: bool): Event {
    if msg.Piece? then Arrive(msg.index, msg.begin, msg.blockLen) else Hear(msg, sent)
  }

  lemma MsgIsStep(m: Meta, s: State, msg: Msg, sent: bool)
    requires Inv(m, s) && s.peer.Some? && Fitting(s.peer.value.peerHave, msg)
    ensures Step(m, s, EventOf(msg, sent), MsgStep(m, s, msg, sent)) && Inv(m, MsgStep(m, s, msg, sent))
  {
    StepInv(m, s, EventOf(msg, sent), MsgStep(m, s, msg, sent));
  }

  // One or two steps of the machine make a move.
  lemma MoveSteps(m: Meta, t: TorrentInfo, lines: seq<Line>, a: Point, move: Move, b: Point)
    returns (mid: State, write: seq<Event>, e: Event)
    requires IsMove(m, t, lines, a, move, b)
    ensures Step(m, mid, e, b.s) && !IsWrite(e) && (move.Asks? ==> e.Ask?)
    ensures write == if move.Hears? then WriteAt(m, t, Reading(t, a.line.now).value.msg, move.data) else []
    ensures if write == [] then mid == a.s else Step(m, a.s, write[0], mid)
  {
    mid, write := a.s, [];
    match move
    case Opens => e := Connect;
    case Closes => e := Die;
    case Asks(picked) =>
      e := Ask(picked, |AskBytes(m, picked, a.s.peer.value.interested, |a.s.pieces|)| <= a.room);
    case Hears(data) =>
      var msg := Reading(t, a.line.now).value.msg;
      mid := Written(t, a.s, msg, data);
      var sent := |AnswerTo(m, mid, msg)| <= a.room;
      MsgIsStep(m, mid, msg, sent);
      e := EventOf(msg, sent);
      write := WriteAt(m, t, msg, data);
  }

  lemma MoreSteps(m: Meta, states: seq<State>, events: seq<Event>, e: Event, s: State)
    requires Steps(m, states, events) && Step(m, states[|events|], e, s)
    ensures Steps(m, states + [s], events + [e])
    ensures (states + [s])[0] == states[0] && (states + [s])[|events| + 1] == s
  {
    forall j: nat | j < |events| + 1
      ensures IsStep(m, states + [s], events + [e], j)
    {
      assert j < |events| ==> IsStep(m, states, events, j);
    }
  }

  /** The course of a download is a run of the machine. */
  lemma {:induction false} LogIsRun(m: Meta, t: TorrentInfo, lines: seq<Line>, log: Log, n: nat)
    returns (states: seq<State>, events: seq<Event>)
    requires IsLog(m, t, lines, log) && n <= |log.moves|
    ensures Steps(m, states, events) && states[0] == log.points[0].s && states[|events|] == log.points[n].s
  {
    if n == 0 {
      states, events := [log.points[0].s], [];
    } else {
      states, events := LogIsRun(m, t, lines, log, n - 1);
      assert IsMoveAt(m, t, lines, log, n - 1);
      var b := log.points[n];
      var mid, write, e := MoveSteps(m, t, lines, log.points[n - 1], log.moves[n - 1], b);
      if write != [] {
        MoreSteps(m, states, events, write[0], mid);
        states, events := states + [mid], events + write;
      }
      MoreSteps(m, states, events, e, b.s);
      states, events := states + [b.s], events + [e];
    }
  }

  // The write of the PIECE message at the head of the stream, if there is one.
  function WriteAt(m: Meta, t: TorrentInfo, msg: Msg, data: seq<byte>): seq<Event> {
    if msg.Piece? then [WriteOf(m, t, msg.index, msg.begin, data)] else []
  }

  // The bytes that this move writes change no byte of a piece the client has.
  ghost predicate RespectsMove(m: Meta, t: TorrentInfo, a: Point, move: Move) {
    move.Hears? && Reading(t, a.line.now).Some? ==>
      var msg := Reading(t, a.line.now).value.msg;
      msg.Piece? ==> Respects(m, a.s, WriteOf(m, t, msg.index, msg.begin, move.data))
  }

  lemma MoveSafe(m: Meta, t: TorrentInfo, lines: seq<Line>, a: Point, move: Move, b: Point)
    requires IsMove(m, t, lines, a, move, b) && Safe(m, a.s) && RespectsMove(m, t, a, move)
    ensures Inv(m, b.s) && Safe(m, b.s)
  {
    var mid, write, e := MoveSteps(m, t, lines, a, move, b);
    if write != [] {
      StepInv(m, a.s, write[0], mid);
      StepSafe(m, a.s, write[0], mid);
    }
    StepInv(m, mid, e, b.s);
    StepSafe(m, mid, e, b.s);
  }

  // No move changes a byte of a piece that the client has.
  ghost predicate AllRespect(m: Meta, t: TorrentInfo, log: Log) {
    forall j | 0 <= j < |log.moves| && j < |log.points| :: RespectsMove(m, t, log.points[j], log.moves[j])
  }

  lemma {:induction false} LogSafe(m: Meta, t: TorrentInfo, lines: seq<Line>, log: Log, n: nat)
    requires IsLog(m, t, lines, log) && n <= |log.moves| && AllRespect(m, t, log)
    requires Inv(m, log.points[0].s) && Safe(m, log.points[0].s)
    ensures Inv(m, log.points[n].s) && Safe(m, log.points[n].s)
  {
    if n > 0 {
      LogSafe(m, t, lines, log, n - 1);
      assert IsMoveAt(m, t, lines, log, n - 1);
      MoveSafe(m, t, lines, log.points[n - 1], log.moves[n - 1], log.points[n]);
    }
  }

  // Still stalled, and only the pieces of open may have changed.
  ghost predicate StallsOn(s: State, s': State, open: set<nat>) {
    && Stalled(s', open) && |s'.pieces| == |s.pieces|
    && forall i | 0 <= i < |s.pieces| && i !in open :: s'.pieces[i] == s.pieces[i]
  }

  lemma StallsOnAgain(s: State, s': State, s'': State, open: set<nat>)
    ensures StallsOn(s, s', open) && StallsOn(s', s'', open) ==> StallsOn(s, s'', open)
  {}

  lemma StepStalls(m: Meta, s: State, e: Event, s': State, open: set<nat>)
    ensures Stalled(s, open) && Step(m, s, e, s') && !e.Die? ==> StallsOn(s, s', open) && !e.Ask?
  {
    if Stalled(s, open) && Step(m, s, e, s') && !e.Die? {
      StalledStep(m, s, e, s', open);
    }
  }

  lemma MoveStalls(m: Meta, t: TorrentInfo, lines: seq<Line>, a: Point, move: Move, b: Point, open: set<nat>)
    ensures IsMove(m, t, lines, a, move, b) && Inner(move) && Stalled(a.s, open) ==>
              StallsOn(a.s, b.s, open) && move.Hears?
  {
    if IsMove(m, t, lines, a, move, b) && Inner(move) && Stalled(a.s, open) {
      var mid, write, e := MoveSteps(m, t, lines, a, move, b);
      if write != [] {
        StepStalls(m, a.s, write[0], mid, open);
      }
      StepStalls(m, mid, e, b.s, open);
      StallsOnAgain(a.s, mid, b.s, open);
    }
  }

  lemma LogMoveStalls(m: Meta, t: TorrentInfo, lines: seq<Line>, log: Log, j: nat, open: set<nat>)
    requires IsLog(m, t, lines, log) && j < |log.moves| && Inner(log.moves[j])
    ensures Stalled(log.points[j].s, open) ==>
              StallsOn(log.points[j].s, log.points[j + 1].s, open) && log.moves[j].Hears?
  {
    assert IsMoveAt(m, t, lines, log, j);
    MoveStalls(m, t, lines, log.points[j], log.moves[j], log.points[j + 1], open);
  }

  lemma {:induction false} LogStallsOn(m: Meta, t: TorrentInfo, lines: seq<Line>, log: Log, a: nat, b: nat, open: set<nat>)
    requires IsLog(m, t, lines, log) && a <= b <= |log.moves| && Stalled(log.points[a].s, open)
    requires forall j | a <= j < b :: Inner(log.moves[j])
    ensures StallsOn(log.points[a].s, log.points[b].s, open)
  {
    if a < b {
      LogStallsOn(m, t, lines, log, a, b - 1, open);
      LogMoveStalls(m, t, lines, log, b - 1, open);
      StallsOnAgain(log.points[a].s, log.points[b - 1].s, log.points[b].s, open);
    }
  }

  /** Once a request of the peer's is pending the client only listens: until the
      connection closes no piece changes but those of open, where its own open
      request is. */
  lemma LogStalls(m: Meta, t: TorrentInfo, lines: seq<Line>, log: Log, a: nat, b: nat, open: set<nat>)
    requires IsLog(m, t, lines, log) && a <= b <= |log.moves| && Stalled(log.points[a].s, open)
    requires forall j | a <= j < b :: Inner(log.moves[j])
    ensures Stalled(log.points[b].s, open) && forall j | a <= j < b :: log.moves[j].Hears?
    ensures |log.points[b].s.pieces| == |log.points[a].s.pieces|
    ensures forall i | 0 <= i < |log.points[a].s.pieces| && i !in open :: log.points[b].s.pieces[i] == log.points[a].s.pieces[i]
  {
    LogStallsOn(m, t, lines, log, a, b, open);
    forall j | a <= j < b
      ensures log.moves[j].Hears?
    {
      LogStallsOn(m, t, lines, log, a, j, open);
      LogMoveStalls(m, t, lines, log, j, open);
    }
  }

  /** The peer's stream is well-behaved, when the files hold image: each of its
      PIECE messages, read from the start, is allowed after the ones before it,
      whatever the socket makes of it. */
  ghost predicate Courteous(m: Meta, t: TorrentInfo, line: Line, image: seq<byte>, named: Named, manner: Manner)
    decreases |line.now| + |line.later|
  {
    match Reading(t, line.now)
    case None => true
    case Some(read) =>
      if read.msg.Piece? then
        var index, begin := read.msg.index, read.msg.begin;
        var from := BlockPlace(t, index, begin);
        forall data, rest | Brought(line, read, data, rest) ::
          && Allows(m, manner, image, named, index, begin, from, data)
          && Courteous(m, t, rest, Put(image, from, data), named + {(index, begin)}, manner)
      else Courteous(m, t, Line(line.now[read.used..], line.later), image, named, manner)
  }

  /** The files may hold this after a connection, which may end at any message. */
  ghost predicate MayLeave(t: TorrentInfo, line: Line, image: seq<byte>, final: seq<byte>)
    decreases |line.now| + |line.later|
  {
    || final == image
    || match Reading(t, line.now)
       case None => false
       case Some(read) =>
         if read.msg.Piece? then
           var from := BlockPlace(t, read.msg.index, read.msg.begin);
           exists data, rest ::
             && Brought(line, read, data, rest)
             && MayLeave(t, rest, Put(image, from, data), final)
         else MayLeave(t, Line(line.now[read.used..], line.later), image, final)
  }

  // Well-behaved peers have kept the download well, and what this one has still
  // to say is well-behaved after the blocks it has named.
  ghost predicate Going(m: Meta, t: TorrentInfo, p: Point, named: Named, manner: Manner) {
    Kept(m, p.s, named, manner) && Courteous(m, t, p.line, p.s.image, named, manner)
  }

  // What the files may hold at the end of the connection.
  ghost predicate MayEnd(t: TorrentInfo, p: Point, final: seq<byte>) {
    MayLeave(t, p.line, p.s.image, final)
  }

  ghost predicate EndsWithin(t: TorrentInfo, b: Point, a: Point) {
    forall final | MayEnd(t, b, final) :: MayEnd(t, a, final)
  }

  lemma NextIsPiece(m: Meta, t: TorrentInfo, line: Line, image: seq<byte>, named: Named, manner: Manner,
                    read: Read, data: seq<byte>, rest: Line)
    requires Reading(t, line.now) == Some(read) && read.msg.Piece? && Courteous(m, t, line, image, named, manner)
    requires Brought(line, read, data, rest)
    ensures var from := BlockPlace(t, read.msg.index, read.msg.begin);
            && Allows(m, manner, image, named, read.msg.index, read.msg.begin, from, data)
            && Courteous(m, t, rest, Put(image, from, data), named + {(read.msg.index, read.msg.begin)}, manner)
            && forall final | MayLeave(t, rest, Put(image, from, data), final) :: MayLeave(t, line, image, final)
  {}

  // A PIECE message is heard.
  lemma PieceGoes(m: Meta, t: TorrentInfo, a: Point, data: seq<byte>, b: Point, named: Named, manner: Manner, read: Read)
    requires Walkable(m, t) && Reading(t, a.line.now) == Some(read) && read.msg.Piece?
    requires Going(m, t, a, named, manner) && HearsIt(m, t, a, data, b)
    ensures Going(m, t, b, named + {(read.msg.index, read.msg.begin)}, manner) && EndsWithin(t, b, a)
  {
    var msg := read.msg;
    var e, mid := WriteOf(m, t, msg.index, msg.begin, data), Written(t, a.s, msg, data);
    NextIsPiece(m, t, a.line, a.s.image, named, manner, read, data, b.line);
    if msg.index < |m.hashes| {
      BlockPlaceIs(m, t, msg.index, msg.begin);
    }
    assert Kept(m, b.s, named + {(msg.index, msg.begin)}, manner) by {
      PieceKeeps(m, a.s, named, manner, e, mid, msg.index, msg.begin, msg.blockLen);
    }
    ArriveFrame(m, mid, msg.index, msg.begin, msg.blockLen);
  }

  // Any other message is heard.
  lemma OtherGoes(m: Meta, t: TorrentInfo, a: Point, data: seq<byte>, b: Point, named: Named, manner: Manner, read: Read)
    requires Reading(t, a.line.now) == Some(read) && !read.msg.Piece?
    requires Going(m, t, a, named, manner) && HearsIt(m, t, a, data, b)
    ensures Going(m, t, b, named, manner) && EndsWithin(t, b, a)
  {
    var sent := |AnswerTo(m, a.s, read.msg)| <= a.room;
    MsgIsStep(m, a.s, read.msg, sent);
    OtherKeeps(m, a.s, named, manner, Hear(read.msg, sent), b.s);
  }

  // The blocks that have been named once a message has been heard.
  ghost function NamedAfter(t: TorrentInfo, a: Point, move: Move, named: Named): Named
    requires move.Hears? ==> Reading(t, a.line.now).Some?
  {
    if move.Hears? && Reading(t, a.line.now).value.msg.Piece? then
      var msg := Reading(t, a.line.now).value.msg;
      named + {(msg.index, msg.begin)}
    else named
  }

  /** Whatever is heard or asked, well-behaved peers keep the download well. */
  lemma MoveGoes(m: Meta, t: TorrentInfo, lines: seq<Line>, a: Point, move: Move, b: Point, named: Named, manner: Manner)
    requires Walkable(m, t) && IsMove(m, t, lines, a, move, b) && Inner(move)
    ensures Going(m, t, a, named, manner) ==> Going(m, t, b, NamedAfter(t, a, move, named), manner) && EndsWithin(t, b, a)
  {
    if Going(m, t, a, named, manner) {
      if move.Hears? {
        var read := Reading(t, a.line.now).value;
        if read.msg.Piece? {
          PieceGoes(m, t, a, move.data, b, named, manner, read);
        } else {
          OtherGoes(m, t, a, move.data, b, named, manner, read);
        }
      } else {
        var mid, write, e := MoveSteps(m, t, lines, a, move, b);
        OtherKeeps(m, a.s, named, manner, e, b.s);
      }
    }
  }

  // A connection whose socket held start, when the files held image, has gone on
  // to point k.
  ghost predicate GoneTo(m: Meta, t: TorrentInfo, log: Log, k: nat, start: Line, image: seq<byte>, manner: Manner) {
    && k < |log.points|
    && exists named ::
         && Going(m, t, log.points[k], named, manner)
         && forall final | MayEnd(t, log.points[k], final) :: MayLeave(t, start, image, final)
  }

  lemma GoesFirst(m: Meta, t: TorrentInfo, lines: seq<Line>, log: Log, n: nat, start: Line, manner: Manner)
    requires IsLog(m, t, lines, log) && n < |log.moves| && log.moves[n].Opens?
    requires log.points[n].begun < |lines| && start == lines[log.points[n].begun]
    requires Kept(m, log.points[n].s, {}, manner) && Courteous(m, t, start, log.points[n].s.image, {}, manner)
    ensures GoneTo(m, t, log, n + 1, start, log.points[n].s.image, manner)
  {
    assert IsMoveAt(m, t, lines, log, n);
    OtherKeeps(m, log.points[n].s, {}, manner, Connect, log.points[n + 1].s);
    assert Going(m, t, log.points[n + 1], {}, manner);
  }

  lemma GoesNext(m: Meta, t: TorrentInfo, lines: seq<Line>, log: Log, k: nat, start: Line, image: seq<byte>, manner: Manner)
    requires Walkable(m, t) && IsLog(m, t, lines, log) && k < |log.moves| && Inner(log.moves[k])
    ensures GoneTo(m, t, log, k, start, image, manner) ==> GoneTo(m, t, log, k + 1, start, image, manner)
  {
    if GoneTo(m, t, log, k, start, image, manner) {
      assert IsMoveAt(m, t, lines, log, k);
      var a, move, b := log.points[k], log.moves[k], log.points[k + 1];
      var named :| Going(m, t, a, named, manner);
      MoveGoes(m, t, lines, a, move, b, named, manner);
      assert Going(m, t, b, NamedAfter(t, a, move, named), manner);
    }
  }

  // A connection has opened at move n, and gone on to point k.
  lemma {:induction false} ConnectionGoes(m: Meta, t: TorrentInfo, lines: seq<Line>, log: Log, n: nat, k: nat,
                                          start: Line, image: seq<byte>, manner: Manner)
    requires Walkable(m, t) && IsLog(m, t, lines, log) && n < k <= |log.moves|
    requires forall j | n < j < k :: Inner(log.moves[j])
    ensures GoneTo(m, t, log, n + 1, start, image, manner) ==> GoneTo(m, t, log, k, start, image, manner)
    decreases k
  {
    if k > n + 1 {
      ConnectionGoes(m, t, lines, log, n, k - 1, start, image, manner);
      GoesNext(m, t, lines, log, k - 1, start, image, manner);
    }
  }

  // A connection that opens at move n and closes at move k.
  ghost predicate IsConnection(log: Log, n: nat, k: nat) {
    && n < k < |log.moves| && log.moves[n].Opens? && log.moves[k].Closes?
    && forall j | n < j < k :: Inner(log.moves[j])
  }

  // The record of a whole connection has been added.
  ghost predicate AddsConnection(log: Log, log': Log) {
    && Extends(log, log') && log.points != [] && Last(log').begun == Last(log).begun + 1
    && |log.moves| + 1 < |log'.moves| && IsConnection(log', |log.moves|, |log'.moves| - 1)
  }

  /** What a connection to a well-behaved peer finds well it leaves well. */
  lemma ConnectionKeeps(m: Meta, t: TorrentInfo, lines: seq<Line>, log: Log, n: nat, k: nat, manner: Manner)
    requires Walkable(m, t) && IsLog(m, t, lines, log) && IsConnection(log, n, k)
    requires Kept(m, log.points[n].s, {}, manner) && log.points[n].begun < |lines|
    requires Courteous(m, t, lines[log.points[n].begun], log.points[n].s.image, {}, manner)
    ensures Kept(m, log.points[k + 1].s, {}, manner)
    ensures MayLeave(t, lines[log.points[n].begun], log.points[n].s.image, log.points[k + 1].s.image)
  {
    var start, image := lines[log.points[n].begun], log.points[n].s.image;
    GoesFirst(m, t, lines, log, n, start, manner);
    ConnectionGoes(m, t, lines, log, n, k, start, image, manner);
    ConnectionLeaves(m, t, lines, log, k, start, image, manner);
  }

  lemma ConnectionLeaves(m: Meta, t: TorrentInfo, lines: seq<Line>, log: Log, k: nat, start: Line, image: seq<byte>, manner: Manner)
    requires IsLog(m, t, lines, log) && k < |log.moves| && log.moves[k].Closes?
    requires GoneTo(m, t, log, k, start, image, manner)
    ensures Kept(m, log.points[k + 1].s, {}, manner) && MayLeave(t, start, image, log.points[k + 1].s.image)
  {
    assert IsMoveAt(m, t, lines, log, k);
    var end := log.points[k + 1].s;
    var named :| Going(m, t, log.points[k], named, manner);
    OtherKeeps(m, log.points[k].s, named, manner, Die, end);
    NamesStartAfresh(m, end, named, manner);
    assert MayEnd(t, log.points[k], end.image);
  }
}
