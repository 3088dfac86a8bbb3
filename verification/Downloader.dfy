/** The connections of a download one after the other (src/bt_downloader.cpp),
    and what they make of it. */
module Downloader {
  import opened Bytes
  import opened DownloadMachine
  import opened DownloadHonest
  import opened Courtesy
  import opened Torrent
  import opened PeerConnection
  import opened Course
  import opened Client
  import opened Socket
  import Sha1Spec

  // What each peer's socket holds.
  ghost function Lines(conns: seq<Connection>): (lines: seq<Line>)
    reads conns
    ensures |lines| == |conns|
    ensures forall i | 0 <= i < |conns| :: lines[i] == LineOf(conns[i])
  {
    if |conns| == 0 then [] else Lines(conns[..|conns| - 1]) + [LineOf(conns[|conns| - 1])]
  }

  /** The files may hold this when connection i begins, wherever the ones before
      it have ended. */
  ghost predicate MayFind(t: TorrentInfo, lines: seq<Line>, image: seq<byte>, i: nat, found: seq<byte>)
    requires i <= |lines|
  {
    if i == 0 then found == image
    else
      var last := lines[i - 1];
      exists before :: MayLeave(t, last, before, found) && MayFind(t, lines, image, i - 1, before)
  }

  /** The peers, one after the other, are well-behaved, whatever the files hold by
      then. */
  ghost predicate AllCourteous(m: Meta, t: TorrentInfo, lines: seq<Line>, image: seq<byte>, manner: Manner) {
    forall i, found | 0 <= i < |lines| && MayFind(t, lines, image, i, found) ::
      Courteous(m, t, lines[i], found, {}, manner)
  }

  // Every piece has the hash that the metainfo file advertises for it.
  ghost predicate AllGenuine(m: Meta, t: TorrentInfo)
    requires t.Valid() && m.hashes == t.pieces
    reads t.files
  {
    forall i | 0 <= i < |t.pieces| :: Sha1Spec.Sha1(PieceBytes(m, t.Image(), i)) == t.pieces[i]
  }

  // What the connections up to i have kept.
  ghost predicate KeptAt(m: Meta, t: TorrentInfo, lines: seq<Line>, image: seq<byte>, manner: Manner, s: State, i: nat)
    requires i <= |lines|
  {
    Kept(m, s, {}, manner) && MayFind(t, lines, image, i, s.image)
  }

  ghost predicate KeepsAll(m: Meta, t: TorrentInfo, lines: seq<Line>, start: State, s: State, i: nat)
    requires i <= |lines|
  {
    forall manner | Kept(m, start, {}, manner) && AllCourteous(m, t, lines, start.image, manner) ::
      KeptAt(m, t, lines, start.image, manner, s, i)
  }

  // The connection whose record has been added is connection i.
  lemma KeepsOneMore(m: Meta, t: TorrentInfo, lines: seq<Line>, start: State, log: Log, log': Log, i: nat)
    requires Walkable(m, t) && IsLog(m, t, lines, log') && log.points != [] && |log.points| == |log.moves| + 1
    requires i < |lines| && Last(log).begun == i && AddsConnection(log, log')
    requires KeepsAll(m, t, lines, start, Last(log).s, i)
    ensures KeepsAll(m, t, lines, start, Last(log').s, i + 1)
  {
    var n, k := |log.moves|, |log'.moves| - 1;
    assert log'.points[n] == Last(log) && log'.points[k + 1] == Last(log');
    forall manner | Kept(m, start, {}, manner) && AllCourteous(m, t, lines, start.image, manner)
      ensures KeptAt(m, t, lines, start.image, manner, Last(log').s, i + 1)
    {
      assert KeptAt(m, t, lines, start.image, manner, Last(log).s, i);
      ConnectionKeeps(m, t, lines, log', n, k, manner);
    }
  }

  // At the start there is nothing to keep.
  lemma StartKept(m: Meta, s: State, manner: Manner)
    requires m.Valid() && Init(m, s)
    ensures Inv(m, s) && (manner.Sparing? || Genuine(m, manner.truth) ==> Kept(m, s, {}, manner))
  {
    InitInv(m, s);
  }

  /** What a well-behaved download comes to. */
  lemma EndKept(m: Meta, t: TorrentInfo, s: State, named: Named, manner: Manner)
    requires Kept(m, s, named, manner)
    ensures match manner
            case Sparing => Safe(m, s)
            case Truthful(truth) => HaveTrue(m, s, truth) && (s.completed ==> s.image == truth)
  {
    if manner.Truthful? {
      CompleteIsTrue(m, s, manner.truth);
    }
  }

  lemma CompleteIsGenuine(m: Meta, t: TorrentInfo)
    requires Walkable(m, t) && Inv(m, Idle(t)) && Safe(m, Idle(t))
    ensures t.completed ==> AllGenuine(m, t)
  {
    CountMissingZero(t.piecesState);
    if t.completed {
      forall i | 0 <= i < |t.pieces|
        ensures Sha1Spec.Sha1(PieceBytes(m, t.Image(), i)) == t.pieces[i]
      {
        assert Verified(m, t.Image(), i) && HashedBy(m, PieceBytes(m, t.Image(), i));
      }
    }
  }

  // No socket is there twice.
  ghost predicate AllDiffer(conns: seq<Connection>) {
    forall j, k | 0 <= j < k < |conns| :: conns[j] != conns[k]
  }

  // The sockets from i on have not been used.
  ghost predicate Unused(conns: seq<Connection>, lines: seq<Line>, i: nat)
    requires |conns| == |lines|
    reads conns
  {
    forall k | i <= k < |conns| :: LineOf(conns[k]) == lines[k]
  }

  // The first i connections are over.
  ghost predicate After(m: Meta, t: TorrentInfo, lines: seq<Line>, start: State, log: Log, i: nat)
    reads t, t.files
  {
    && i <= |lines| && Resting(m, t, lines, log) && log.points[0] == Beginning(start) && Last(log).begun == i
    && KeepsAll(m, t, lines, start, Idle(t), i)
  }

  // Connection i; the others are as they were.
  method NextConnection(m: Meta, t: TorrentInfo, conns: seq<Connection>, i: nat, queued: seq<nat>,
                        ghost lines: seq<Line>, ghost start: State, ghost log: Log)
    returns (ghost log': Log)
    requires i < |conns| == |lines| && AllDiffer(conns) && Unused(conns, lines, i)
    requires After(m, t, lines, start, log, i)
    modifies t`piecesState, t`piecesLeft, t`completed, t.files, conns
    ensures After(m, t, lines, start, log', i + 1) && Unused(conns, lines, i + 1)
  {
    ghost var logs, alive;
    log', logs, alive := RunConnection(m, t, conns[i], queued, lines, log);
    KeepsOneMore(m, t, lines, start, log, log', i);
  }

  /** The connections of a download, one after the other, whatever the peers say
      and however the sockets behave: what happens is a run of the machine, and
      every move of it is the client's own or hears the next message of a peer's
      stream.  If no message of the peers' changes a byte of a piece that has its
      hash by then, every piece the client has at the end carries the advertised
      SHA-1 hash, and all pieces are there when the download is complete; the same
      follows when no move changes a byte of a piece that the client has.  If the
      peers' blocks are the original's, none twice over one connection, and no
      socket fails inside one, every piece the client has is the original's, and a
      complete download is the original. */
  method Download(m: Meta, t: TorrentInfo, conns: seq<Connection>, queued: seq<seq<nat>>) returns (ghost log: Log)
    requires Walkable(m, t) && t.Distinct() && Init(m, Idle(t)) && |queued| == |conns|
    requires forall j, k | 0 <= j < k < |conns| :: conns[j] != conns[k]
    modifies t`piecesState, t`piecesLeft, t`completed, t.files, conns
    ensures IsLog(m, t, old(Lines(conns)), log) && log.points[0] == Beginning(old(Idle(t)))
    ensures Last(log).s == Idle(t) && Last(log).begun == |conns| && Inv(m, Idle(t)) && Reached(m, Idle(t))
    ensures old(AllCourteous(m, t, Lines(conns), t.Image(), Sparing)) || AllRespect(m, t, log) ==>
              Safe(m, Idle(t)) && (t.completed ==> AllGenuine(m, t))
    ensures forall truth | Genuine(m, truth) && old(AllCourteous(m, t, Lines(conns), t.Image(), Truthful(truth))) ::
              HaveTrue(m, Idle(t), truth) && (t.completed ==> t.Image() == truth)
  {
    ghost var start, lines := Idle(t), Lines(conns);
    InitInv(m, start);
    log := Log([Beginning(start)], []);
    BeforeAll(m, t, lines, start, log);
    log := Connections(m, t, conns, queued, 0, lines, start, log);
    Outcome(m, t, lines, log, start);
  }

  // A download that no connection has worked on.
  function Beginning(start: State): Point { Point(start, Line([], []), 0, [], 0) }

  // Some run of the machine leads there.
  ghost predicate Reached(m: Meta, s: State) {
    exists states, events :: IsRun(m, states, events) && states[|events|] == s
  }

  // No connection is over at first.
  lemma BeforeAll(m: Meta, t: TorrentInfo, lines: seq<Line>, start: State, log: Log)
    requires t.Valid() && start == Idle(t) && log == Log([Beginning(start)], [])
    ensures Walkable(m, t) && t.Distinct() && Inv(m, start) ==> After(m, t, lines, start, log, 0)
  {}

  // The connections from i on.
  method Connections(m: Meta, t: TorrentInfo, conns: seq<Connection>, queued: seq<seq<nat>>, i: nat,
                     ghost lines: seq<Line>, ghost start: State, ghost log: Log)
    returns (ghost log': Log)
    requires i <= |queued| == |conns| == |lines| && AllDiffer(conns)
    requires After(m, t, lines, start, log, i) && Unused(conns, lines, i)
    modifies t`piecesState, t`piecesLeft, t`completed, t.files, conns
    ensures After(m, t, lines, start, log', |conns|)
    decreases |conns| - i
  {
    log' := log;
    if i < |conns| {
      log' := NextConnection(m, t, conns, i, queued[i], lines, start, log);
      log' := Connections(m, t, conns, queued, i + 1, lines, start, log');
    }
  }

  lemma Outcome(m: Meta, t: TorrentInfo, lines: seq<Line>, log: Log, start: State)
    requires Walkable(m, t) && Init(m, start) && Inv(m, Idle(t)) && KeepsAll(m, t, lines, start, Idle(t), |lines|)
    requires IsLog(m, t, lines, log) && log.points[0].s == start && Last(log).s == Idle(t)
    ensures Reached(m, Idle(t))
    ensures AllCourteous(m, t, lines, start.image, Sparing) || AllRespect(m, t, log) ==>
              Safe(m, Idle(t)) && (t.completed ==> AllGenuine(m, t))
    ensures forall truth | Genuine(m, truth) && AllCourteous(m, t, lines, start.image, Truthful(truth)) ::
              HaveTrue(m, Idle(t), truth) && (t.completed ==> t.Image() == truth)
  {
    var s, n := Idle(t), |lines|;
    InitInv(m, start);
    var states, events := LogIsRun(m, t, lines, log, |log.moves|);
    assert IsRun(m, states, events);
    if AllCourteous(m, t, lines, start.image, Sparing) {
      StartKept(m, start, Sparing);
      assert KeptAt(m, t, lines, start.image, Sparing, s, n);
      CompleteIsGenuine(m, t);
    }
    if AllRespect(m, t, log) {
      LogSafe(m, t, lines, log, |log.moves|);
      CompleteIsGenuine(m, t);
    }
    forall truth | Genuine(m, truth) && AllCourteous(m, t, lines, start.image, Truthful(truth))
      ensures HaveTrue(m, s, truth) && (t.completed ==> t.Image() == truth)
    {
      StartKept(m, start, Truthful(truth));
      assert KeptAt(m, t, lines, start.image, Truthful(truth), s, n);
      EndKept(m, t, s, {}, Truthful(truth));
    }
  }
}
