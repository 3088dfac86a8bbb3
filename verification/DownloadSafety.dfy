/** When the pieces a client has stay right: which writes keep them, over every
    run, and inputs at which the client loses one. */
module DownloadSafety {
  import opened Bytes
  import opened PieceRequest
  import opened PieceLayout
  import opened DownloadMachine
  import PeerMsg

  predicate IsWrite(e: Event) { e.Write? || e.Stray? }

  // Where a write goes.
  function Place(m: Meta, e: Event): nat
    requires IsWrite(e)
  {
    if e.Write? then m.BlockFrom(e.index, e.block) else e.from
  }

  // The n bytes from there on meet piece i.
  predicate Touches(m: Meta, i: nat, from: nat, n: nat) {
    m.From(i) < from + n && from < m.To(i)
  }

  /** Writing these bytes there changes no byte of a piece the client has. */
  ghost predicate Harmless(m: Meta, s: State, from: nat, data: seq<byte>) {
    && from + |data| <= |s.image|
    && forall i, p | 0 <= i < |s.pieces| && s.pieces[i] == Have && m.From(i) <= p < m.To(i) && from <= p < from + |data| ::
         data[p - from] == s.image[p]
  }

  // The peer's bytes do no harm where they are written.
  ghost predicate Respects(m: Meta, s: State, e: Event) {
    IsWrite(e) ==> Harmless(m, s, Place(m, e), e.data)
  }

  lemma PieceBytesIff(m: Meta, a: seq<byte>, b: seq<byte>, i: nat)
    requires m.Valid() && i < |m.hashes| && |a| == |b| == m.total
    ensures PieceBytes(m, a, i) == PieceBytes(m, b, i) <==> forall p | m.From(i) <= p < m.To(i) :: a[p] == b[p]
  {
    PieceRange(m, i);
    var from, to := m.From(i), m.To(i);
    if PieceBytes(m, a, i) == PieceBytes(m, b, i) {
      forall p | from <= p < to
        ensures a[p] == b[p]
      {
        assert a[p] == a[from..to][p - from] && b[p] == b[from..to][p - from];
      }
    }
  }

  // A write leaves the pieces it does not touch as they are.
  lemma WriteFrame(m: Meta, image: seq<byte>, from: nat, data: seq<byte>, i: nat)
    requires m.Valid() && |image| == m.total && i < |m.hashes| && from + |data| <= |image|
    requires !Touches(m, i, from, |data|)
    ensures PieceBytes(m, Splice(image, from, data), i) == PieceBytes(m, image, i)
  {
    PieceBytesIff(m, Splice(image, from, data), image, i);
  }

  // A block of one piece touches no other.
  lemma BlockTouchesOne(m: Meta, i: nat, k: nat, j: nat)
    requires m.Valid() && i < |m.hashes| && j < |m.hashes| && i != j && k < m.Blocks(i)
    ensures m.BlockLen(i, k) >= 0 && !Touches(m, j, m.BlockFrom(i, k), m.BlockLen(i, k))
  {
    PieceRange(m, i);
    PieceRange(m, j);
    if i < j {
      PiecesDisjoint(m.total, m.pieceLength, i, j);
    } else {
      PiecesDisjoint(m.total, m.pieceLength, j, i);
    }
  }

  // A write that touches no piece the client has does no harm.
  lemma UntouchedIsHarmless(m: Meta, s: State, from: nat, data: seq<byte>)
    requires from + |data| <= |s.image|
    requires forall i | 0 <= i < |s.pieces| && s.pieces[i] == Have :: !Touches(m, i, from, |data|)
    ensures Harmless(m, s, from, data)
  {}

  // In particular a block of a piece the client does not have.
  lemma MissingPieceIsHarmless(m: Meta, s: State, e: Event, s': State)
    requires Inv(m, s) && e.Write? && Step(m, s, e, s') && s.pieces[e.index] != Have
    ensures Respects(m, s, e)
  {
    forall j | 0 <= j < |s.pieces| && s.pieces[j] == Have
      ensures !Touches(m, j, Place(m, e), |e.data|)
    {
      BlockTouchesOne(m, e.index, e.block, j);
    }
    UntouchedIsHarmless(m, s, Place(m, e), e.data);
  }

  /** A write, of a block or a stray one, keeps a safe state safe exactly when
      the pieces it touches that the client has still have their hashes. */
  lemma WriteSafeIff(m: Meta, s: State, e: Event, s': State)
    requires Inv(m, s) && Safe(m, s) && IsWrite(e) && Step(m, s, e, s')
    ensures Safe(m, s') <==>
            forall i | 0 <= i < |s.pieces| && s.pieces[i] == Have && Touches(m, i, Place(m, e), |e.data|) ::
              Verified(m, s'.image, i)
  {
    forall i | 0 <= i < |s.pieces| && !Touches(m, i, Place(m, e), |e.data|)
      ensures Verified(m, s'.image, i) == Verified(m, s.image, i)
    {
      WriteFrame(m, s.image, Place(m, e), e.data, i);
    }
  }

  // What a write does to a piece changes its hash if it changes its bytes.
  ghost predicate Separates(m: Meta, a: seq<byte>, b: seq<byte>) {
    forall i | 0 <= i < |m.hashes| && PieceBytes(m, a, i) != PieceBytes(m, b, i) ::
      m.hash(PieceBytes(m, a, i)) != m.hash(PieceBytes(m, b, i))
  }

  /** Unless the hash function fails to tell the old bytes of a piece from the
      new ones, a write keeps a safe state safe exactly when it changes no byte
      of a piece the client has. */
  lemma HarmlessIff(m: Meta, s: State, e: Event, s': State)
    requires Inv(m, s) && Safe(m, s) && IsWrite(e) && Step(m, s, e, s')
    requires Separates(m, s.image, s'.image)
    ensures Safe(m, s') <==> Respects(m, s, e)
  {
    if Respects(m, s, e) {
      StepSafe(m, s, e, s');
    }
    if Safe(m, s') {
      SafeIsHarmless(m, s, Place(m, e), e.data);
    }
  }

  lemma SafeIsHarmless(m: Meta, s: State, from: nat, data: seq<byte>)
    requires Inv(m, s) && Safe(m, s) && from + |data| <= |s.image|
    requires Separates(m, s.image, Splice(s.image, from, data)) && Safe(m, s.(image := Splice(s.image, from, data)))
    ensures Harmless(m, s, from, data)
  {
    var after := s.(image := Splice(s.image, from, data));
    forall i, p | 0 <= i < |s.pieces| && s.pieces[i] == Have && m.From(i) <= p < m.To(i) && from <= p < from + |data|
      ensures data[p - from] == s.image[p]
    {
      assert Verified(m, s.image, i) && Verified(m, after.image, i);
      SameHashSameByte(m, s.image, after.image, i, p);
      SpliceAt(s.image, from, data, p);
    }
  }

  lemma SameHashSameByte(m: Meta, a: seq<byte>, b: seq<byte>, i: nat, p: nat)
    requires m.Valid() && i < |m.hashes| && |a| == |b| == m.total && Separates(m, a, b)
    requires Verified(m, a, i) && Verified(m, b, i) && m.From(i) <= p < m.To(i)
    ensures p < |a| && a[p] == b[p]
  {
    PieceRange(m, i);
    PieceBytesIff(m, a, b, i);
  }

  lemma HarmlessKeeps(m: Meta, s: State, from: nat, data: seq<byte>, i: nat)
    requires Inv(m, s) && Harmless(m, s, from, data) && i < |s.pieces| && s.pieces[i] == Have
    ensures PieceBytes(m, Splice(s.image, from, data), i) == PieceBytes(m, s.image, i)
  {
    var after := Splice(s.image, from, data);
    forall p | m.From(i) <= p < m.To(i)
      ensures after[p] == s.image[p]
    {
      PieceRange(m, i);
      SpliceAt(s.image, from, data, p);
    }
    PieceBytesIff(m, after, s.image, i);
  }

  lemma StepSafe(m: Meta, s: State, e: Event, s': State)
    requires Inv(m, s) && Safe(m, s) && Step(m, s, e, s') && Respects(m, s, e)
    ensures |s'.pieces| == |m.hashes| && Safe(m, s')
  {
    if IsWrite(e) {
      forall i | 0 <= i < |s.pieces| && s.pieces[i] == Have
        ensures Verified(m, s'.image, i)
      {
        HarmlessKeeps(m, s, Place(m, e), e.data, i);
      }
    }
  }

  /** Safety over every run in which no write changes a byte of a piece that the
      client has: every piece the client has carries the advertised hash, and a
      complete download has every piece. */
  lemma {:induction false} RunSafe(m: Meta, states: seq<State>, events: seq<Event>, n: nat)
    requires m.Valid() && IsRun(m, states, events) && n < |states|
    requires forall j | 0 <= j < |events| :: Respects(m, states[j], events[j])
    ensures Inv(m, states[n]) && Safe(m, states[n])
    ensures states[n].completed ==> forall i | 0 <= i < |m.hashes| :: Verified(m, states[n].image, i)
  {
    RunInv(m, states, events, n);
    if n == 0 {
      InitInv(m, states[0]);
    } else {
      RunSafe(m, states, events, n - 1);
      assert IsStep(m, states, events, n - 1);
      StepSafe(m, states[n - 1], events[n - 1], states[n]);
    }
    CountMissingZero(states[n].pieces);
  }

  /** What a write does along a run can be told before it: when the hash function
      tells what each write changes of a piece, every state of a run is safe
      exactly when no write changes a byte of a piece that the client has. */
  lemma RunSafeIff(m: Meta, states: seq<State>, events: seq<Event>)
    requires m.Valid() && IsRun(m, states, events)
    requires forall j | 0 <= j < |events| && IsWrite(events[j]) :: Separates(m, states[j].image, states[j + 1].image)
    ensures (forall n: nat | n < |states| :: |states[n].pieces| == |m.hashes| && Safe(m, states[n])) <==>
            (forall j | 0 <= j < |events| :: Respects(m, states[j], events[j]))
  {
    if forall j | 0 <= j < |events| :: Respects(m, states[j], events[j]) {
      forall n: nat | n < |states|
        ensures |states[n].pieces| == |m.hashes| && Safe(m, states[n])
      {
        RunSafe(m, states, events, n);
      }
    }
    if forall n: nat | n < |states| :: |states[n].pieces| == |m.hashes| && Safe(m, states[n]) {
      forall j | 0 <= j < |events|
        ensures Respects(m, states[j], events[j])
      {
        RunInv(m, states, events, j);
        assert IsStep(m, states, events, j);
        if IsWrite(events[j]) {
          HarmlessIff(m, states[j], events[j], states[j + 1]);
        }
      }
    }
  }

  // The peer's blocks are of the piece that the client has asked for.
  predicate AskedFor(s: State, e: Event) {
    && !e.Stray?
    && (e.Write? ==> s.peer.Some? && s.peer.value.open.Some? && s.peer.value.open.value.index == e.index)
  }

  /** Over every run in which peers send blocks of the piece they are asked for,
      right or wrong, every piece the client has carries the advertised hash. */
  lemma RunAskedSafe(m: Meta, states: seq<State>, events: seq<Event>, n: nat)
    requires m.Valid() && IsRun(m, states, events) && n < |states|
    requires forall j | 0 <= j < |events| :: AskedFor(states[j], events[j])
    ensures Inv(m, states[n]) && Safe(m, states[n])
    ensures states[n].completed ==> forall i | 0 <= i < |m.hashes| :: Verified(m, states[n].image, i)
  {
    forall j | 0 <= j < |events|
      ensures Respects(m, states[j], events[j])
    {
      RunInv(m, states, events, j);
      assert IsStep(m, states, events, j);
      if events[j].Write? {
        MissingPieceIsHarmless(m, states[j], events[j], states[j + 1]);
      }
    }
    RunSafe(m, states, events, n);
  }

  // A torrent of two pieces, of 16384 bytes and of one.
  function TwoPieces(hash: seq<byte> -> seq<byte>, first: seq<byte>, second: seq<byte>): (m: Meta)
    ensures m.Valid()
    ensures m.Blocks(0) == 1 && m.BlockLen(0, 0) == PEER_REQUEST_SIZE && m.BlockFrom(0, 0) == 0
    ensures m.From(0) == 0 && m.To(0) == PEER_REQUEST_SIZE
  {
    Meta(PEER_REQUEST_SIZE + 1, PEER_REQUEST_SIZE, [hash(first), hash(second)], hash)
  }

  // A connection to a peer that has both pieces and lets the client ask.
  function Knowing(open: Option<Open>): Option<Peer> {
    Some(Peer([true, true], [false, false], false, true, 0, open))
  }

  // The client has asked for piece 0 of such a peer.
  function AskedForFirst(image: seq<byte>, pieces: seq<PieceState>): State {
    State(image, pieces, 2, false, Knowing(Some(Open(0, [false], 1))))
  }

  // The bitfield of such a peer, with its spare bits.
  const BOTH: PeerMsg.Msg := PeerMsg.BitfieldMsg([true, true, false, false, false, false, false, false])

  // The steps after which the client may ask such a peer: it sends its bitfield
  // and UNCHOKE.
  lemma MeetPeer(m: Meta, zeros: seq<byte>) returns (states: seq<State>, events: seq<Event>)
    requires m.Valid() && |m.hashes| == 2 && |zeros| == m.total
    ensures IsRun(m, states, events) && events == [Connect, Hear(BOTH, true), Hear(PeerMsg.Unchoke, true)]
    ensures states[3] == State(zeros, [NotRequested, NotRequested], 2, false, Knowing(None))
  {
    var none := [NotRequested, NotRequested];
    var s0 := State(zeros, none, 2, false, None);
    var s1 := s0.(peer := Some(Peer([false, false], [false, false], true, false, 0, None)));
    var s2 := s0.(peer := Some(Peer([true, true], [false, false], true, true, 0, None)));
    var s3 := s0.(peer := Knowing(None));
    states, events := [s0, s1, s2, s3], [Connect, Hear(BOTH, true), Hear(PeerMsg.Unchoke, true)];
    assert seq(2, _ => NotRequested) == none;
    assert FreshPeer(none) == s1.peer.value;
    HearBoth(s1, s2, s3);
    assert Step(m, s0, events[0], s1) && Step(m, s1, events[1], s2) && Step(m, s2, events[2], s3);
    assert forall j: nat | j < 3 :: IsStep(m, states, events, j);
  }

  // The steps that lead to the request for piece 0.
  lemma AskFirst(m: Meta, zeros: seq<byte>) returns (states: seq<State>, events: seq<Event>)
    requires m.Valid() && |m.hashes| == 2 && m.Blocks(0) == 1 && |zeros| == m.total
    ensures IsRun(m, states, events)
    ensures events == [Connect, Hear(BOTH, true), Hear(PeerMsg.Unchoke, true), Ask(Some(0), true)]
    ensures states[4] == AskedForFirst(zeros, [Requested, NotRequested])
  {
    states, events := MeetPeer(m, zeros);
    var asked := AskedForFirst(zeros, [Requested, NotRequested]);
    assert seq(1, _ => false) == [false];
    assert IsPick(states[3].pieces, [true, true], Some(0));
    OneMore(m, states, events, Ask(Some(0), true), asked);
    states, events := states + [asked], events + [Ask(Some(0), true)];
  }

  lemma HearBoth(s1: State, s2: State, s3: State)
    requires s1.pieces == [NotRequested, NotRequested]
    requires s1.peer == Some(Peer([false, false], [false, false], true, false, 0, None))
    requires s2 == s1.(peer := Some(Peer([true, true], [false, false], true, true, 0, None)))
    requires s3 == s1.(peer := Knowing(None))
    ensures Fitting([false, false], BOTH)
    ensures HearStep(s1, BOTH, true) == s2 && HearStep(s2, PeerMsg.Unchoke, true) == s3
  {
    assert BOTH.bits[0] && s1.pieces[0] != Have;
    assert BOTH.bits[..2] == [true, true];
  }

  lemma OneMore(m: Meta, states: seq<State>, events: seq<Event>, e: Event, s: State)
    requires IsRun(m, states, events) && Step(m, states[|events|], e, s)
    ensures IsRun(m, states + [s], events + [e]) && (states + [s])[|events| + 1] == s
  {
    forall j: nat | j < |events| + 1
      ensures IsStep(m, states + [s], events + [e], j)
    {
      assert j < |events| ==> IsStep(m, states, events, j);
    }
  }

  /** Without its condition safety fails, for every hash function that tells two
      blocks apart, while the download still goes on: a second block for a piece
      the client has, or a stray block for one that does not exist, leaves the
      wrong bytes in it. */
  lemma OverwriteBreaksSafety(hash: seq<byte> -> seq<byte>, good: seq<byte>, bad: seq<byte>, stray: bool)
    returns (m: Meta, states: seq<State>, events: seq<Event>)
    requires |good| == |bad| == PEER_REQUEST_SIZE && hash(good) != hash(bad)
    ensures m.Valid() && m.hash == hash && IsRun(m, states, events)
    ensures events != [] && events[|events| - 1] == if stray then Stray(0, bad) else Write(0, 0, bad)
    ensures !states[|events|].completed && |states[|events|].pieces| == |m.hashes| && !Safe(m, states[|events|])
  {
    m := TwoPieces(hash, good, [0]);
    var zeros := seq(PEER_REQUEST_SIZE, _ => 0) + [0];
    states, events := AskFirst(m, zeros);
    var s4 := AskedForFirst(good + [0], [Requested, NotRequested]);
    assert Splice(zeros, 0, good) == good + [0];
    OneMore(m, states, events, Write(0, 0, good), s4);
    states, events := states + [s4], events + [Write(0, 0, good)];
    var s5 := State(good + [0], [Have, NotRequested], 1, false, Knowing(None));
    FirstArrives(m, s4, s5, good);
    OneMore(m, states, events, Arrive(0, 0, PEER_REQUEST_SIZE), s5);
    states, events := states + [s5], events + [Arrive(0, 0, PEER_REQUEST_SIZE)];
    var s6 := s5.(image := bad + [0]);
    assert Splice(good + [0], 0, bad) == bad + [0];
    var last := if stray then Stray(0, bad) else Write(0, 0, bad);
    OneMore(m, states, events, last, s6);
    states, events := states + [s6], events + [last];
    assert PieceBytes(m, bad + [0], 0) == bad;
    assert !Verified(m, s6.image, 0);
  }

  lemma FirstArrives(m: Meta, s: State, s': State, good: seq<byte>)
    requires |good| == PEER_REQUEST_SIZE && |m.hashes| == 2 && m.hashes[0] == m.hash(good)
    requires m.From(0) == 0 && m.To(0) == PEER_REQUEST_SIZE && m.BlockLen(0, 0) == PEER_REQUEST_SIZE
    requires s == AskedForFirst(good + [0], [Requested, NotRequested])
    requires s' == State(good + [0], [Have, NotRequested], 1, false, Knowing(None))
    ensures Step(m, s, Arrive(0, 0, PEER_REQUEST_SIZE), s')
  {
    assert PieceBytes(m, good + [0], 0) == good;
    assert Mark(m, Open(0, [false], 1), 0, PEER_REQUEST_SIZE) == Open(0, [true], 0);
  }
}
