/** Downloads from peers that send each block once, and true blocks: the count
    of blocks left, the hash checks, and how such a download ends. */
module DownloadHonest {
  import opened Bytes
  import opened PieceRequest
  import opened PieceLayout
  import opened DownloadMachine
  import opened DownloadSafety
  import PeerMsg

  // The block a PIECE message names has not arrived before.
  predicate NoRepeat(m: Meta, s: State, e: Event)
    requires s.peer.Some? && s.peer.value.open.Some?
  {
    var open := s.peer.value.open.value;
    e.Arrive? && e.index == open.index ==>
      var k := e.begin / PEER_REQUEST_SIZE;
      !(k < |open.done| && Names(m, open.index, k, e.begin, e.len) && open.done[k])
  }

  // The request's count of blocks left is right.
  predicate Exact(s: State) {
    s.peer.Some? && s.peer.value.open.Some? ==>
      s.peer.value.open.value.left == CountFalse(s.peer.value.open.value.done)
  }

  /** A PIECE message for the open request keeps the count of blocks left right
      exactly when it does not repeat a block, or only one block was left, in
      which case it ends the request. */
  lemma ExactIff(m: Meta, s: State, e: Event, s': State)
    requires Inv(m, s) && Exact(s) && e.Arrive? && Step(m, s, e, s')
    requires s.peer.Some? && s.peer.value.open.Some?
    ensures Exact(s') <==> NoRepeat(m, s, e) || s.peer.value.open.value.left == 1
  {
    var open := s.peer.value.open.value;
    var k := e.begin / PEER_REQUEST_SIZE;
    if e.index == open.index && k < |open.done| {
      CountFalseUpdate(open.done, k);
    }
  }

  // Whatever the event, it does not repeat a block of an open request.
  ghost predicate FreshBlock(m: Meta, s: State, e: Event) {
    s.peer.Some? && s.peer.value.open.Some? ==> NoRepeat(m, s, e)
  }

  lemma StepExact(m: Meta, s: State, e: Event, s': State)
    requires Inv(m, s) && Exact(s) && Step(m, s, e, s') && FreshBlock(m, s, e)
    ensures Exact(s')
  {
    if e.Ask? && e.picked.Some? {
      CountFalseFresh(m.Blocks(e.picked.value));
    }
    if e.Arrive? && s.peer.Some? && s.peer.value.open.Some? {
      ExactIff(m, s, e, s');
    }
  }

  /** Over every run in which no block is repeated within a request, blocks left
      is the number of blocks that have not arrived. */
  lemma {:induction false} RunExact(m: Meta, states: seq<State>, events: seq<Event>, n: nat)
    requires m.Valid() && IsRun(m, states, events) && n < |states|
    requires forall j | 0 <= j < |events| :: FreshBlock(m, states[j], events[j])
    ensures Inv(m, states[n]) && Exact(states[n])
  {
    RunInv(m, states, events, n);
    if n > 0 {
      RunExact(m, states, events, n - 1);
      assert IsStep(m, states, events, n - 1);
      StepExact(m, states[n - 1], events[n - 1], states[n]);
    }
  }

  // A torrent of one piece of three blocks.
  function ThreeBlocks(hash: seq<byte> -> seq<byte>, h: seq<byte>): (m: Meta)
    ensures m.Valid() && m.Blocks(0) == 3 && m.BlockLen(0, 0) == PEER_REQUEST_SIZE
  {
    Meta(3 * PEER_REQUEST_SIZE, 3 * PEER_REQUEST_SIZE, [h], hash)
  }

  // Its only piece is asked for, and blocks have arrived.
  function AskedForOnly(image: seq<byte>, done: seq<bool>, left: int): State {
    State(image, [Requested], 1, false, Some(Peer([true], [false], false, true, 0, Some(Open(0, done, left)))))
  }

  /** A run in which the count of blocks left goes wrong: of three blocks the
      first arrives twice, and one seems to be left where two are. */
  lemma RepeatBreaksCount(hash: seq<byte> -> seq<byte>, h: seq<byte>)
    returns (m: Meta, states: seq<State>, events: seq<Event>)
    ensures m.Valid() && m.hash == hash && IsRun(m, states, events)
    ensures |events| == 6 && events[4] == events[5] == Arrive(0, 0, PEER_REQUEST_SIZE)
    ensures Exact(states[4]) && Exact(states[5]) && !Exact(states[6])
    ensures states[6].peer.Some? && states[6].peer.value.open == Some(Open(0, [true, false, false], 1))
  {
    m := ThreeBlocks(hash, h);
    var zeros := seq(3 * PEER_REQUEST_SIZE, _ => 0);
    states, events := AskOnly(m, zeros);
    var e := Arrive(0, 0, PEER_REQUEST_SIZE);
    var one, two := AskedForOnly(zeros, [true, false, false], 2), AskedForOnly(zeros, [true, false, false], 1);
    assert [false, false, false][0 := true] == [true, false, false] == [true, false, false][0 := true];
    FirstOfThree(m, zeros, [false, false, false], 3);
    OneMore(m, states, events, e, one);
    states, events := states + [one], events + [e];
    FirstOfThree(m, zeros, [true, false, false], 2);
    OneMore(m, states, events, e, two);
    states, events := states + [two], events + [e];
    assert [false, false, false][1..] == [true, false, false][1..] == [false, false] && [false, false][1..] == [false];
  }

  lemma FirstOfThree(m: Meta, zeros: seq<byte>, done: seq<bool>, left: int)
    requires |m.hashes| == 1 && |done| == 3 && left > 1 && m.BlockLen(0, 0) == PEER_REQUEST_SIZE
    ensures ArriveStep(m, AskedForOnly(zeros, done, left), 0, 0, PEER_REQUEST_SIZE) ==
            AskedForOnly(zeros, done[0 := true], left - 1)
  {}

  // The steps that lead to the request for the only piece of three blocks.
  lemma AskOnly(m: Meta, zeros: seq<byte>) returns (states: seq<State>, events: seq<Event>)
    requires m.Valid() && |m.hashes| == 1 && m.Blocks(0) == 3 && |zeros| == m.total
    ensures IsRun(m, states, events) && |events| == 4
    ensures states[4] == AskedForOnly(zeros, [false, false, false], 3)
  {
    var s0 := State(zeros, [NotRequested], 1, false, None);
    var s1 := s0.(peer := Some(Peer([false], [false], true, false, 0, None)));
    var s2 := s0.(peer := Some(Peer([true], [false], true, true, 0, None)));
    var s3 := s0.(peer := Some(Peer([true], [false], false, true, 0, None)));
    var s4 := AskedForOnly(zeros, [false, false, false], 3);
    states := [s0, s1, s2, s3, s4];
    events := [Connect, Hear(ONLY, true), Hear(PeerMsg.Unchoke, true), Ask(Some(0), true)];
    assert seq(1, _ => NotRequested) == [NotRequested] && FreshPeer([NotRequested]) == s1.peer.value;
    HearOnly(s1, s2);
    assert seq(3, _ => false) == [false, false, false];
    assert Step(m, s0, events[0], s1) && Step(m, s1, events[1], s2);
    assert Step(m, s2, events[2], s3) && Step(m, s3, events[3], s4);
    assert forall j: nat | j < 4 :: IsStep(m, states, events, j);
  }

  // The bitfield of a peer that has the only piece, with its spare bits.
  const ONLY: PeerMsg.Msg := PeerMsg.BitfieldMsg([true, false, false, false, false, false, false, false])

  lemma HearOnly(s: State, s': State)
    requires s.pieces == [NotRequested] && s.peer == Some(Peer([false], [false], true, false, 0, None))
    requires s' == s.(peer := Some(Peer([true], [false], true, true, 0, None)))
    ensures Fitting([false], ONLY) && HearStep(s, ONLY, true) == s'
  {
    assert ONLY.bits[0] && s.pieces[0] != Have && ONLY.bits[..1] == [true];
  }

  /** When no block is repeated the hash check runs exactly when the last
      missing block arrives. */
  lemma CheckedAtLastBlock(m: Meta, s: State, e: Event, s': State)
    requires Inv(m, s) && Exact(s) && e.Arrive? && Step(m, s, e, s')
    requires s.peer.Some? && s.peer.value.open.Some? && NoRepeat(m, s, e)
    ensures var open := s.peer.value.open.value;
            s'.peer.value.open.None? <==>
              e.index == open.index && forall k | 0 <= k < |open.done| :: Mark(m, open, e.begin, e.len).done[k]
  {
    var open := s.peer.value.open.value;
    var marked := Mark(m, open, e.begin, e.len);
    var k := e.begin / PEER_REQUEST_SIZE;
    CountFalseZero(marked.done);
    if k < |open.done| {
      CountFalseUpdate(open.done, k);
    }
  }

  // Block k of piece i holds the same bytes in both images.
  predicate SameBlock(m: Meta, a: seq<byte>, b: seq<byte>, i: nat, k: nat) {
    var from, len := m.BlockFrom(i, k), m.BlockLen(i, k);
    0 <= len && from + len <= |a| && from + len <= |b| && a[from..from + len] == b[from..from + len]
  }

  // The blocks that have arrived of the open request are those of truth.
  ghost predicate Trusted(m: Meta, s: State, truth: seq<byte>) {
    s.peer.Some? && s.peer.value.open.Some? ==>
      var open := s.peer.value.open.value;
      forall k: nat | k < |open.done| && open.done[k] :: SameBlock(m, s.image, truth, open.index, k)
  }

  // The bytes the metainfo file was made from.
  ghost predicate Genuine(m: Meta, truth: seq<byte>) {
    |truth| == m.total && forall i | 0 <= i < |m.hashes| :: Verified(m, truth, i)
  }

  // What happens when the peer sends blocks of truth, each once, and the socket
  // does not fail inside one: the block that a PIECE message announces is in
  // place.
  ghost predicate Honest(m: Meta, s: State, e: Event, truth: seq<byte>) {
    match e
    case Write(i, k, data) =>
      m.BlockFrom(i, k) + |data| <= |truth| && data == truth[m.BlockFrom(i, k)..m.BlockFrom(i, k) + |data|]
    case Stray(_, _) => false
    case Arrive(i, begin, len) =>
      && (s.peer.Some? && s.peer.value.open.Some? ==> NoRepeat(m, s, e))
      && SameBlock(m, s.image, truth, i, begin / PEER_REQUEST_SIZE)
    case _ => true
  }

  lemma BlocksMakePiece(m: Meta, a: seq<byte>, b: seq<byte>, i: nat)
    requires m.Valid() && i < |m.hashes| && |a| == |b| == m.total
    requires forall k: nat | k < m.Blocks(i) :: SameBlock(m, a, b, i, k)
    ensures PieceBytes(m, a, i) == PieceBytes(m, b, i)
  {
    PieceRange(m, i);
    forall p | m.From(i) <= p < m.To(i)
      ensures a[p] == b[p]
    {
      var k := (p - m.From(i)) / PEER_REQUEST_SIZE;
      var from, len := m.BlockFrom(i, k), m.BlockLen(i, k);
      assert SameBlock(m, a, b, i, k);
      assert a[p] == a[from..from + len][p - from] == b[from..from + len][p - from];
    }
  }

  // Writing true bytes makes no block less true.
  lemma WriteTrue(m: Meta, image: seq<byte>, truth: seq<byte>, p: nat, n: nat, i: nat, k: nat)
    requires |image| == |truth| && p + n <= |image| && SameBlock(m, image, truth, i, k)
    ensures SameBlock(m, Splice(image, p, truth[p..p + n]), truth, i, k)
  {
    var after := Splice(image, p, truth[p..p + n]);
    var from, len := m.BlockFrom(i, k), m.BlockLen(i, k);
    forall x | from <= x < from + len
      ensures after[x] == truth[x]
    {
      assert image[x] == image[from..from + len][x - from] == truth[from..from + len][x - from];
    }
  }

  ghost predicate NoneGivenBack(before: seq<PieceState>, after: seq<PieceState>) {
    |before| == |after| && forall i | 0 <= i < |before| :: before[i] != NotRequested ==> after[i] != NotRequested
  }

  // What a step with an honest peer keeps: an open request ends only by making
  // its piece HAVE, or with its peer.
  ghost predicate StaysHonest(m: Meta, s: State, e: Event, s': State, truth: seq<byte>) {
    && Exact(s') && Trusted(m, s', truth) && NoneGivenBack(s.pieces, s'.pieces)
    && (s.peer.Some? && s.peer.value.open.Some? && !e.Die? ==>
          && s'.peer.Some?
          && (s'.peer.value.open.None? ==>
                var i := s.peer.value.open.value.index; i < |s'.pieces| && s'.pieces[i] == Have))
  }

  /** When every block that is announced is in place no hash check fails: no
      piece that was asked for is given back, and an open request ends with its
      piece or its peer. */
  lemma HonestStep(m: Meta, s: State, e: Event, s': State, truth: seq<byte>)
    requires Inv(m, s) && Exact(s) && Trusted(m, s, truth)
    requires Genuine(m, truth)
    requires Step(m, s, e, s') && Honest(m, s, e, truth)
    ensures StaysHonest(m, s, e, s', truth)
  {
    if e.Write? {
      HonestWriteStep(m, s, e, s', truth);
    } else if e.Arrive? {
      HonestArriveStep(m, s, e, s', truth);
    } else {
      OtherStep(m, s, e, s', truth);
    }
  }

  lemma HonestWriteStep(m: Meta, s: State, e: Event, s': State, truth: seq<byte>)
    requires Inv(m, s) && Exact(s) && Trusted(m, s, truth)
    requires Genuine(m, truth)
    requires e.Write? && Step(m, s, e, s') && Honest(m, s, e, truth)
    ensures StaysHonest(m, s, e, s', truth)
  {
    var p, n := m.BlockFrom(e.index, e.block), |e.data|;
    HonestWrite(m, s, p, n, truth);
    assert s' == s.(image := Splice(s.image, p, truth[p..p + n]));
  }

  lemma HonestArriveStep(m: Meta, s: State, e: Event, s': State, truth: seq<byte>)
    requires Inv(m, s) && Exact(s) && Trusted(m, s, truth)
    requires Genuine(m, truth)
    requires e.Arrive? && Step(m, s, e, s') && Honest(m, s, e, truth)
    ensures StaysHonest(m, s, e, s', truth)
  {
    if s.peer.Some? && s.peer.value.open.Some? {
      HonestArrive(m, s, e, s', truth);
    }
  }

  // The steps that neither write nor answer a request.
  lemma OtherStep(m: Meta, s: State, e: Event, s': State, truth: seq<byte>)
    requires Inv(m, s) && Exact(s) && Trusted(m, s, truth)
    requires Step(m, s, e, s') && !e.Write? && !e.Stray? && !e.Arrive?
    ensures StaysHonest(m, s, e, s', truth)
  {
    if e.Ask? && e.picked.Some? {
      CountFalseFresh(m.Blocks(e.picked.value));
    }
  }

  lemma HonestWrite(m: Meta, s: State, p: nat, n: nat, truth: seq<byte>)
    requires |s.image| == |truth| && p + n <= |truth| && Trusted(m, s, truth)
    ensures Trusted(m, s.(image := Splice(s.image, p, truth[p..p + n])), truth)
  {
    if s.peer.Some? && s.peer.value.open.Some? {
      var open := s.peer.value.open.value;
      forall k: nat | k < |open.done| && open.done[k]
        ensures SameBlock(m, Splice(s.image, p, truth[p..p + n]), truth, open.index, k)
      {
        WriteTrue(m, s.image, truth, p, n, open.index, k);
      }
    }
  }

  lemma HonestArrive(m: Meta, s: State, e: Event, s': State, truth: seq<byte>)
    requires Inv(m, s) && Exact(s) && Trusted(m, s, truth)
    requires Genuine(m, truth)
    requires e.Arrive? && Step(m, s, e, s') && Honest(m, s, e, truth)
    requires s.peer.Some? && s.peer.value.open.Some?
    ensures Exact(s') && Trusted(m, s', truth)
    ensures s'.image == s.image
    ensures s'.peer.value.open.None? ==>
              var i := s.peer.value.open.value.index;
              s'.pieces == s.pieces[i := Have] && PieceBytes(m, s.image, i) == PieceBytes(m, truth, i)
    ensures s'.peer.value.open.Some? ==> s'.pieces == s.pieces
  {
    var open := s.peer.value.open.value;
    var marked := Mark(m, open, e.begin, e.len);
    ExactIff(m, s, e, s');
    CheckedAtLastBlock(m, s, e, s');
    if e.index == open.index {
      assert forall k: nat | k < |marked.done| && marked.done[k] :: SameBlock(m, s.image, truth, open.index, k);
      MarkInv(m, s.pieces, open, e.begin, e.len);
      if s'.peer.value.open.None? {
        BlocksMakePiece(m, s.image, truth, open.index);
        assert Verified(m, truth, open.index);
      }
    }
  }

  // The pieces the client has are those of truth, byte by byte.
  ghost predicate HaveTrue(m: Meta, s: State, truth: seq<byte>)
    requires |s.pieces| <= |m.hashes|
  {
    forall i | 0 <= i < |s.pieces| && s.pieces[i] == Have :: PieceBytes(m, s.image, i) == PieceBytes(m, truth, i)
  }

  // Writing true bytes keeps a true piece true.
  lemma WriteTruePiece(m: Meta, image: seq<byte>, truth: seq<byte>, p: nat, n: nat, i: nat)
    requires |image| == |truth| && p + n <= |image| && PieceBytes(m, image, i) == PieceBytes(m, truth, i)
    ensures PieceBytes(m, Splice(image, p, truth[p..p + n]), i) == PieceBytes(m, truth, i)
  {
    var after, from, to := Splice(image, p, truth[p..p + n]), m.From(i), m.To(i);
    if from < to <= |image| {
      forall x | from <= x < to
        ensures after[x] == truth[x]
      {
        assert image[x] == image[from..to][x - from] == truth[from..to][x - from];
      }
    }
  }

  lemma WriteHaveTrue(m: Meta, s: State, p: nat, n: nat, truth: seq<byte>)
    requires |s.pieces| == |m.hashes| && HaveTrue(m, s, truth) && |s.image| == |truth| && p + n <= |truth|
    ensures HaveTrue(m, s.(image := Splice(s.image, p, truth[p..p + n])), truth)
  {
    forall i | 0 <= i < |s.pieces| && s.pieces[i] == Have
      ensures PieceBytes(m, Splice(s.image, p, truth[p..p + n]), i) == PieceBytes(m, truth, i)
    {
      WriteTruePiece(m, s.image, truth, p, n, i);
    }
  }

  lemma ArriveHaveTrue(m: Meta, s: State, e: Event, s': State, truth: seq<byte>)
    requires Inv(m, s) && Exact(s) && Trusted(m, s, truth) && Genuine(m, truth)
    requires HaveTrue(m, s, truth) && e.Arrive? && Step(m, s, e, s') && Honest(m, s, e, truth)
    ensures |s'.pieces| == |s.pieces| && HaveTrue(m, s', truth)
  {
    if s.peer.Some? && s.peer.value.open.Some? {
      HonestArrive(m, s, e, s', truth);
    }
  }

  /** With an honest peer a piece becomes HAVE only with its true bytes, and
      keeps them. */
  lemma HonestHave(m: Meta, s: State, e: Event, s': State, truth: seq<byte>)
    requires Inv(m, s) && Exact(s) && Trusted(m, s, truth) && Genuine(m, truth)
    requires HaveTrue(m, s, truth) && Step(m, s, e, s') && Honest(m, s, e, truth)
    ensures |s'.pieces| == |s.pieces| && HaveTrue(m, s', truth)
  {
    if e.Write? {
      var p, n := m.BlockFrom(e.index, e.block), |e.data|;
      WriteHaveTrue(m, s, p, n, truth);
      assert s' == s.(image := Splice(s.image, p, truth[p..p + n]));
    } else if e.Arrive? {
      ArriveHaveTrue(m, s, e, s', truth);
    }
  }

  // Pieces that are right add up to an image that is right.
  lemma PiecesMakeImage(m: Meta, a: seq<byte>, b: seq<byte>)
    requires m.Valid() && |a| == |b| == m.total
    requires forall i | 0 <= i < |m.hashes| :: PieceBytes(m, a, i) == PieceBytes(m, b, i)
    ensures a == b
  {
    forall p | 0 <= p < |a|
      ensures a[p] == b[p]
    {
      var i := PieceOf(m.total, m.pieceLength, p);
      var from, to := m.From(i), m.To(i);
      assert PieceBytes(m, a, i) == PieceBytes(m, b, i);
      assert a[p] == a[from..to][p - from] == b[from..to][p - from];
    }
  }

  // The state of a download whose peers have been honest.
  ghost predicate OnTrack(m: Meta, s: State, truth: seq<byte>) {
    Inv(m, s) && Exact(s) && Trusted(m, s, truth) && Genuine(m, truth) && HaveTrue(m, s, truth)
  }

  lemma StepOnTrack(m: Meta, s: State, e: Event, s': State, truth: seq<byte>)
    requires OnTrack(m, s, truth) && Step(m, s, e, s') && Honest(m, s, e, truth)
    ensures OnTrack(m, s', truth) && NoneGivenBack(s.pieces, s'.pieces)
  {
    StepInv(m, s, e, s');
    HonestStep(m, s, e, s', truth);
    HonestHave(m, s, e, s', truth);
  }

  /** Over every run of true blocks that are announced once they are in place:
      no piece that was asked for is given back because its hash was wrong, every
      piece the client has holds the original bytes, and a complete download is
      the original. */
  lemma {:induction false} HonestRun(m: Meta, states: seq<State>, events: seq<Event>, truth: seq<byte>, n: nat)
    requires m.Valid() && IsRun(m, states, events) && Genuine(m, truth) && n < |states|
    requires forall j | 0 <= j < |events| :: Honest(m, states[j], events[j], truth)
    ensures OnTrack(m, states[n], truth)
    ensures n > 0 ==> NoneGivenBack(states[n - 1].pieces, states[n].pieces)
    ensures states[n].completed ==> states[n].image == truth
  {
    if n == 0 {
      InitInv(m, states[0]);
    } else {
      HonestRun(m, states, events, truth, n - 1);
      assert IsStep(m, states, events, n - 1);
      StepOnTrack(m, states[n - 1], events[n - 1], states[n], truth);
    }
    CompleteIsTrue(m, states[n], truth);
  }

  lemma CompleteIsTrue(m: Meta, s: State, truth: seq<byte>)
    requires Inv(m, s) && HaveTrue(m, s, truth) && |truth| == m.total
    ensures s.completed ==> s.image == truth
  {
    CountMissingZero(s.pieces);
    if s.completed {
      PiecesMakeImage(m, s.image, truth);
    }
  }

  // Blocks that differ make pieces that differ.
  lemma PieceHasBlocks(m: Meta, a: seq<byte>, b: seq<byte>, i: nat, k: nat)
    requires m.Valid() && i < |m.hashes| && |a| == |b| == m.total && k < m.Blocks(i)
    requires PieceBytes(m, a, i) == PieceBytes(m, b, i)
    ensures SameBlock(m, a, b, i, k)
  {
    PieceRange(m, i);
    PieceBytesIff(m, a, b, i);
  }

  /** When the hash function tells the piece from the original, a request that
      ends makes its piece HAVE exactly when all of its blocks are in place, and
      otherwise gives it back. */
  lemma GivenBackIff(m: Meta, s: State, e: Event, s': State, truth: seq<byte>)
    requires Inv(m, s) && Genuine(m, truth) && Separates(m, s.image, truth)
    requires e.Arrive? && Step(m, s, e, s') && s.peer.Some? && s.peer.value.open.Some?
    requires s'.peer.value.open.None?
    ensures var i := s.peer.value.open.value.index;
            && s'.pieces == s.pieces[i := if s'.pieces[i] == Have then Have else NotRequested]
            && (s'.pieces[i] == Have <==> forall k: nat | k < m.Blocks(i) :: SameBlock(m, s.image, truth, i, k))
  {
    var i := s.peer.value.open.value.index;
    assert Verified(m, truth, i);
    if forall k: nat | k < m.Blocks(i) :: SameBlock(m, s.image, truth, i, k) {
      BlocksMakePiece(m, s.image, truth, i);
    }
    if PieceBytes(m, s.image, i) == PieceBytes(m, truth, i) {
      forall k: nat | k < m.Blocks(i)
        ensures SameBlock(m, s.image, truth, i, k)
      {
        PieceHasBlocks(m, s.image, truth, i, k);
      }
    }
  }

  /** A socket that fails inside a block leaves it torn, and the client does not
      notice: the block counts as arrived, the hash check fails, and the piece is
      given back although the peer sent true bytes. */
  lemma TornBlockGivesBack(hash: seq<byte> -> seq<byte>, good: seq<byte>, got: nat)
    returns (m: Meta, states: seq<State>, events: seq<Event>, torn: seq<byte>)
    requires |good| == PEER_REQUEST_SIZE && got < |good|
    requires hash(good[..got] + seq(|good| - got, _ => 0)) != hash(good)
    ensures m.Valid() && m.hash == hash && IsRun(m, states, events) && |events| == 6
    ensures m.hashes[0] == hash(good)
    // Only the first got bytes of the block have replaced what was there.
    ensures events[4] == Write(0, 0, torn) && |torn| == |good| <= |states[4].image|
    ensures torn == Splice(states[4].image[..|good|], 0, good[..got])
    ensures states[5].pieces == [Requested, NotRequested] && states[6].pieces == [NotRequested, NotRequested]
  {
    m := TwoPieces(hash, good, [0]);
    var zeros := seq(PEER_REQUEST_SIZE, _ => 0) + [0];
    states, events := AskFirst(m, zeros);
    torn := good[..got] + seq(|good| - got, _ => 0);
    assert torn == Splice(zeros[..|good|], 0, good[..got]);
    var s4 := AskedForFirst(torn + [0], [Requested, NotRequested]);
    assert Splice(zeros, 0, torn) == torn + [0];
    OneMore(m, states, events, Write(0, 0, torn), s4);
    states, events := states + [s4], events + [Write(0, 0, torn)];
    var s5 := State(torn + [0], [NotRequested, NotRequested], 2, false, Knowing(None));
    assert PieceBytes(m, torn + [0], 0) == torn;
    assert Mark(m, Open(0, [false], 1), 0, PEER_REQUEST_SIZE) == Open(0, [true], 0);
    OneMore(m, states, events, Arrive(0, 0, PEER_REQUEST_SIZE), s5);
    states, events := states + [s5], events + [Arrive(0, 0, PEER_REQUEST_SIZE)];
  }

  // The open request after block k of truth has been written and announced.
  function Deliver(m: Meta, s: State, truth: seq<byte>, i: nat, k: nat): State
    requires Deliverable(m, s, truth, i, k)
  {
    var from, len := m.BlockFrom(i, k), m.BlockLen(i, k);
    ArriveStep(m, s.(image := Splice(s.image, from, truth[from..from + len])), i, PEER_REQUEST_SIZE * k, len)
  }

  predicate Deliverable(m: Meta, s: State, truth: seq<byte>, i: nat, k: nat) {
    && |s.pieces| == |m.hashes| && |s.image| == |truth|
    && 0 <= m.BlockLen(i, k) && m.BlockFrom(i, k) + m.BlockLen(i, k) <= |truth|
    && (s.peer.Some? && s.peer.value.open.Some? ==> s.peer.value.open.value.index < |s.pieces|)
  }

  // The open request of s is for piece i and lacks exactly the blocks of order.
  ghost predicate Lacks(m: Meta, s: State, i: nat, order: seq<nat>) {
    && s.peer.Some? && s.peer.value.open.Some?
    && var open := s.peer.value.open.value;
    && open.index == i
    && (forall x | 0 <= x < |order| :: order[x] < |open.done|)
    && (forall k: nat | k < |open.done| :: open.done[k] <==> k !in order)
    && (forall x, y | 0 <= x < y < |order| :: order[x] != order[y])
  }

  // The write of block k of truth, before it is announced.
  lemma DeliverWrite(m: Meta, s: State, truth: seq<byte>, i: nat, k: nat) returns (mid: State)
    requires OnTrack(m, s, truth) && i < |s.pieces| && k < m.Blocks(i)
    ensures Deliverable(m, s, truth, i, k)
    ensures var from, len := m.BlockFrom(i, k), m.BlockLen(i, k);
            mid == s.(image := Splice(s.image, from, truth[from..from + len]))
    ensures OnTrack(m, mid, truth) && SameBlock(m, mid.image, truth, i, k)
  {
    var from, len := m.BlockFrom(i, k), m.BlockLen(i, k);
    BlockFits(m, i, k);
    var data := truth[from..from + len];
    mid := s.(image := Splice(s.image, from, data));
    HonestWrite(m, s, from, len, truth);
    HonestHave(m, s, Write(i, k, data), mid, truth);
    assert mid.image[from..from + len] == data;
  }

  // The announcement of a block that is in place, and is missing.
  lemma DeliverArrive(m: Meta, s: State, truth: seq<byte>, i: nat, order: seq<nat>, s': State)
    requires OnTrack(m, s, truth)
    requires |order| > 0 && Lacks(m, s, i, order) && SameBlock(m, s.image, truth, i, order[0])
    requires m.BlockLen(i, order[0]) >= 0
    requires s' == ArriveStep(m, s, i, PEER_REQUEST_SIZE * order[0], m.BlockLen(i, order[0]))
    ensures OnTrack(m, s', truth) && SamePeer(s, s')
    ensures if |order| == 1
            then s'.peer.value.open.None? && s'.pieces == s.pieces[i := Have]
            else Lacks(m, s', i, order[1..]) && s'.pieces == s.pieces
  {
    var k, len := order[0], m.BlockLen(i, order[0]);
    var e := Arrive(i, PEER_REQUEST_SIZE * k, len);
    assert PEER_REQUEST_SIZE * k / PEER_REQUEST_SIZE == k;
    assert OnTrack(m, s', truth) by {
      StepOnTrack(m, s, e, s', truth);
    }
    HonestArrive(m, s, e, s', truth);
    CheckedAtLastBlock(m, s, e, s');
    ArriveFrame(m, s, i, PEER_REQUEST_SIZE * k, len);
    var marked := Mark(m, s.peer.value.open.value, PEER_REQUEST_SIZE * k, len);
    MarkLacks(m, s.peer.value.open.value, order, marked);
    assert |order| > 1 ==> s'.peer.value.open == Some(marked);
  }

  // What is lacking after the first block of order has been marked.
  lemma MarkLacks(m: Meta, open: Open, order: seq<nat>, marked: Open)
    requires |order| > 0 && (forall x | 0 <= x < |order| :: order[x] < |open.done|)
    requires forall k: nat | k < |open.done| :: open.done[k] <==> k !in order
    requires forall x, y | 0 <= x < y < |order| :: order[x] != order[y]
    requires marked.done == open.done[order[0] := true]
    ensures forall k: nat | k < |marked.done| :: marked.done[k] <==> k !in order[1..]
    ensures (forall k | 0 <= k < |marked.done| :: marked.done[k]) <==> |order| == 1
  {
    assert forall k: nat :: k in order <==> k == order[0] || k in order[1..];
    if |order| > 1 {
      assert order[1] in order[1..] && !marked.done[order[1]];
    }
  }

  lemma DeliverStep(m: Meta, s: State, truth: seq<byte>, i: nat, order: seq<nat>)
    requires OnTrack(m, s, truth) && |order| > 0 && Lacks(m, s, i, order)
    ensures Deliverable(m, s, truth, i, order[0])
    ensures var s' := Deliver(m, s, truth, i, order[0]);
            && OnTrack(m, s', truth) && SamePeer(s, s')
            && (if |order| == 1
                then s'.peer.value.open.None? && s'.pieces == s.pieces[i := Have]
                else Lacks(m, s', i, order[1..]) && s'.pieces == s.pieces)
  {
    var mid := DeliverWrite(m, s, truth, i, order[0]);
    BlockFits(m, i, order[0]);
    DeliverArrive(m, mid, truth, i, order, Deliver(m, s, truth, i, order[0]));
  }

  lemma BlockFits(m: Meta, i: nat, k: nat)
    requires m.Valid() && i < |m.hashes| && k < m.Blocks(i)
    ensures 0 < m.BlockLen(i, k) && m.BlockFrom(i, k) + m.BlockLen(i, k) <= m.To(i) <= m.total
  {
    PieceRange(m, i);
  }

  ghost predicate Delivered(m: Meta, s: State, truth: seq<byte>, i: nat, order: seq<nat>, s': State)
    decreases |order|
  {
    if |order| == 0 then s' == s
    else Deliverable(m, s, truth, i, order[0]) && Delivered(m, Deliver(m, s, truth, i, order[0]), truth, i, order[1..], s')
  }

  /** An honest peer that answers every missing block of the open request once,
      in any order, gives the client the piece. */
  lemma {:induction false} HonestDelivery(m: Meta, s: State, truth: seq<byte>, i: nat, order: seq<nat>, s': State)
    requires OnTrack(m, s, truth)
    requires |order| > 0 && Lacks(m, s, i, order) && Delivered(m, s, truth, i, order, s')
    ensures OnTrack(m, s', truth) && s'.pieces == s.pieces[i := Have] && s'.piecesLeft == s.piecesLeft - 1
    ensures SamePeer(s, s') && s'.peer.value.open.None?
    decreases |order|
  {
    DeliverStep(m, s, truth, i, order);
    CountMissingUpdate(s.pieces, i, Have);
    if |order| > 1 {
      HonestDelivery(m, Deliver(m, s, truth, i, order[0]), truth, i, order[1..], s');
    }
  }

  // A round with an honest peer: the client asks for piece i and gets all of
  // its blocks, in this order.
  datatype Round = Round(piece: nat, order: seq<nat>)

  ghost predicate IsRound(m: Meta, s: State, truth: seq<byte>, r: Round, s': State) {
    && Shaped(m, s) && s.peer.Some? && s.peer.value.open.None? && MayAsk(s.peer.value)
    && IsPick(s.pieces, s.peer.value.peerHave, Some(r.piece))
    && var asked := AskStep(m, s, Some(r.piece), true);
       Lacks(m, asked, r.piece, r.order) && Delivered(m, asked, truth, r.piece, r.order, s')
  }

  // The client may ask for a piece, of a peer that has all of them.
  predicate Waiting(s: State) {
    s.peer.Some? && s.peer.value.open.None? && MayAsk(s.peer.value) && forall j | 0 <= j < |s.peer.value.peerHave| :: s.peer.value.peerHave[j]
  }

  lemma AskOnTrack(m: Meta, s: State, truth: seq<byte>, i: nat)
    requires OnTrack(m, s, truth) && Waiting(s) && IsPick(s.pieces, s.peer.value.peerHave, Some(i))
    ensures OnTrack(m, AskStep(m, s, Some(i), true), truth) && m.Blocks(i) > 0
    ensures AskStep(m, s, Some(i), true).piecesLeft == s.piecesLeft
  {
    var asked := AskStep(m, s, Some(i), true);
    StepInv(m, s, Ask(Some(i), true), asked);
    OtherStep(m, s, Ask(Some(i), true), asked, truth);
    PieceRange(m, i);
  }

  lemma RoundGains(m: Meta, s: State, truth: seq<byte>, r: Round, s': State)
    requires OnTrack(m, s, truth) && Waiting(s) && IsRound(m, s, truth, r, s')
    ensures OnTrack(m, s', truth) && Waiting(s') && s'.piecesLeft == s.piecesLeft - 1
  {
    var asked := AskStep(m, s, Some(r.piece), true);
    AskOnTrack(m, s, truth, r.piece);
    assert !asked.peer.value.open.value.done[0];
    HonestDelivery(m, asked, truth, r.piece, r.order, s');
  }

  lemma {:induction false} DeliveryExists(m: Meta, s: State, truth: seq<byte>, i: nat, order: seq<nat>) returns (s': State)
    requires OnTrack(m, s, truth) && (|order| > 0 ==> Lacks(m, s, i, order))
    ensures Delivered(m, s, truth, i, order, s')
    decreases |order|
  {
    s' := s;
    if |order| > 0 {
      DeliverStep(m, s, truth, i, order);
      s' := DeliveryExists(m, Deliver(m, s, truth, i, order[0]), truth, i, order[1..]);
    }
  }

  /** While pieces are left there is something to ask a peer that has every
      piece, and its answers in any order make a round. */
  lemma RoundExists(m: Meta, s: State, truth: seq<byte>) returns (r: Round, s': State)
    requires OnTrack(m, s, truth) && Waiting(s) && s.piecesLeft > 0
    ensures IsRound(m, s, truth, r, s')
  {
    CountMissingZero(s.pieces);
    var picked := PickExists(s.pieces, s.peer.value.peerHave);
    var i := picked.value;
    AskOnTrack(m, s, truth, i);
    var order := seq(m.Blocks(i), k requires 0 <= k < m.Blocks(i) => k);
    var asked := AskStep(m, s, Some(i), true);
    forall k: nat | k < m.Blocks(i)
      ensures k in order
    {
      assert order[k] == k;
    }
    s' := DeliveryExists(m, asked, truth, i, order);
    r := Round(i, order);
  }

  ghost predicate IsRoundAt(m: Meta, states: seq<State>, truth: seq<byte>, rounds: seq<Round>, j: nat) {
    j < |rounds| && j + 1 < |states| && IsRound(m, states[j], truth, rounds[j], states[j + 1])
  }

  /** A peer that has every piece and answers honestly completes the download:
      each round gains a piece, and when none is left the download is the
      original. */
  lemma {:induction false} HonestRounds(m: Meta, states: seq<State>, truth: seq<byte>, rounds: seq<Round>, n: nat)
    requires |states| == |rounds| + 1 && n <= |rounds|
    requires forall j: nat | j < |rounds| :: IsRoundAt(m, states, truth, rounds, j)
    requires OnTrack(m, states[0], truth) && Waiting(states[0])
    ensures OnTrack(m, states[n], truth) && Waiting(states[n])
    ensures states[n].piecesLeft == states[0].piecesLeft - n
    ensures n == states[0].piecesLeft <==> states[n].completed
    ensures states[n].completed ==> states[n].image == truth
  {
    if n > 0 {
      HonestRounds(m, states, truth, rounds, n - 1);
      assert IsRoundAt(m, states, truth, rounds, n - 1);
      RoundGains(m, states[n - 1], truth, rounds[n - 1], states[n]);
    }
    CompleteIsTrue(m, states[n], truth);
  }

  // Steps, each of them honest, from one state to another.
  ghost predicate HonestSteps(m: Meta, truth: seq<byte>, states: seq<State>, events: seq<Event>, s: State, s': State) {
    && Steps(m, states, events) && states[0] == s && states[|events|] == s'
    && forall j | 0 <= j < |events| :: Honest(m, states[j], events[j], truth)
  }

  lemma NoSteps(m: Meta, truth: seq<byte>, s: State)
    ensures HonestSteps(m, truth, [s], [], s, s)
  {}

  lemma OneHonestStep(m: Meta, truth: seq<byte>, s: State, e: Event, s': State)
    requires Step(m, s, e, s') && Honest(m, s, e, truth)
    ensures HonestSteps(m, truth, [s, s'], [e], s, s')
  {
    assert IsStep(m, [s, s'], [e], 0);
  }

  lemma JoinAt<T>(a: seq<T>, b: seq<T>, j: nat)
    requires |a| > 0 && |b| > 0 && a[|a| - 1] == b[0] && j < |a| + |b| - 1
    ensures (a + b[1..])[j] == if j < |a| then a[j] else b[j - (|a| - 1)]
    ensures j == |a| - 1 ==> (a + b[1..])[j] == b[0]
  {}

  ghost predicate HonestAt(m: Meta, truth: seq<byte>, states: seq<State>, events: seq<Event>, j: nat) {
    IsStep(m, states, events, j) && Honest(m, states[j], events[j], truth)
  }

  lemma JoinStepAt(m: Meta, truth: seq<byte>, a: seq<State>, x: seq<Event>, b: seq<State>, y: seq<Event>, j: nat)
    requires |a| == |x| + 1 && |b| == |y| + 1 && a[|x|] == b[0] && j < |x| + |y|
    requires if j < |x| then HonestAt(m, truth, a, x, j) else HonestAt(m, truth, b, y, j - |x|)
    ensures HonestAt(m, truth, a + b[1..], x + y, j)
  {
    JoinAt(a, b, j);
    JoinAt(a, b, j + 1);
    var states, events := a + b[1..], x + y;
    if j < |x| {
      assert states[j] == a[j] && states[j + 1] == a[j + 1] && events[j] == x[j];
    } else {
      var i := j - |x|;
      assert states[j] == b[i] && states[j + 1] == b[i + 1] && events[j] == y[i];
    }
  }

  lemma JoinSteps(m: Meta, truth: seq<byte>, a: seq<State>, x: seq<Event>, b: seq<State>, y: seq<Event>,
                  s: State, mid: State, s': State)
    requires HonestSteps(m, truth, a, x, s, mid) && HonestSteps(m, truth, b, y, mid, s')
    ensures HonestSteps(m, truth, a + b[1..], x + y, s, s')
  {
    forall j: nat | j < |x| + |y|
      ensures HonestAt(m, truth, a + b[1..], x + y, j)
    {
      assert j < |x| ==> IsStep(m, a, x, j);
      assert j >= |x| ==> IsStep(m, b, y, j - |x|);
      JoinStepAt(m, truth, a, x, b, y, j);
    }
    var states, events := a + b[1..], x + y;
    forall j: nat | j < |events|
      ensures IsStep(m, states, events, j) && Honest(m, states[j], events[j], truth)
    {
      assert HonestAt(m, truth, states, events, j);
    }
    JoinAt(a, b, 0);
    JoinAt(a, b, |x| + |y|);
  }

  // A block that is delivered takes two honest steps.
  lemma DeliverSteps(m: Meta, s: State, truth: seq<byte>, i: nat, order: seq<nat>)
    returns (states: seq<State>, events: seq<Event>)
    requires OnTrack(m, s, truth) && |order| > 0 && Lacks(m, s, i, order)
    ensures Deliverable(m, s, truth, i, order[0])
    ensures HonestSteps(m, truth, states, events, s, Deliver(m, s, truth, i, order[0]))
  {
    var k := order[0];
    var from, len := m.BlockFrom(i, k), m.BlockLen(i, k);
    var mid := DeliverWrite(m, s, truth, i, k);
    BlockFits(m, i, k);
    assert PEER_REQUEST_SIZE * k / PEER_REQUEST_SIZE == k;
    var write, arrive := Write(i, k, truth[from..from + len]), Arrive(i, PEER_REQUEST_SIZE * k, len);
    var s' := ArriveStep(m, mid, i, PEER_REQUEST_SIZE * k, len);
    OneHonestStep(m, truth, s, write, mid);
    OneHonestStep(m, truth, mid, arrive, s');
    JoinSteps(m, truth, [s, mid], [write], [mid, s'], [arrive], s, mid, s');
    states, events := [s, mid] + [mid, s'][1..], [write] + [arrive];
  }

  lemma {:induction false} DeliverySteps(m: Meta, s: State, truth: seq<byte>, i: nat, order: seq<nat>, s': State)
    returns (states: seq<State>, events: seq<Event>)
    requires OnTrack(m, s, truth) && (|order| > 0 ==> Lacks(m, s, i, order)) && Delivered(m, s, truth, i, order, s')
    ensures HonestSteps(m, truth, states, events, s, s')
    decreases |order|
  {
    if |order| == 0 {
      NoSteps(m, truth, s);
      states, events := [s], [];
    } else {
      var a, x := DeliverSteps(m, s, truth, i, order);
      DeliverStep(m, s, truth, i, order);
      var mid := Deliver(m, s, truth, i, order[0]);
      var b, y := DeliverySteps(m, mid, truth, i, order[1..], s');
      JoinSteps(m, truth, a, x, b, y, s, mid, s');
      states, events := a + b[1..], x + y;
    }
  }

  /** A round is a sequence of honest steps of the machine. */
  lemma RoundSteps(m: Meta, s: State, truth: seq<byte>, r: Round, s': State)
    returns (states: seq<State>, events: seq<Event>)
    requires OnTrack(m, s, truth) && Waiting(s) && IsRound(m, s, truth, r, s')
    ensures HonestSteps(m, truth, states, events, s, s')
  {
    var asked := AskStep(m, s, Some(r.piece), true);
    AskOnTrack(m, s, truth, r.piece);
    OneHonestStep(m, truth, s, Ask(Some(r.piece), true), asked);
    var b, y := DeliverySteps(m, asked, truth, r.piece, r.order, s');
    JoinSteps(m, truth, [s, asked], [Ask(Some(r.piece), true)], b, y, s, asked, s');
    states, events := [s, asked] + b[1..], [Ask(Some(r.piece), true)] + y;
  }

  /** From every such state there are honest steps that complete the download,
      and then it is the original. */
  lemma {:induction false} CanComplete(m: Meta, s: State, truth: seq<byte>)
    returns (states: seq<State>, events: seq<Event>, s': State)
    requires OnTrack(m, s, truth) && Waiting(s)
    ensures HonestSteps(m, truth, states, events, s, s') && s'.completed && s'.image == truth
    decreases s.piecesLeft
  {
    if s.piecesLeft == 0 {
      CompleteIsTrue(m, s, truth);
      NoSteps(m, truth, s);
      states, events, s' := [s], [], s;
    } else {
      var r, mid := RoundExists(m, s, truth);
      RoundGains(m, s, truth, r, mid);
      var a, x := RoundSteps(m, s, truth, r, mid);
      var b, y;
      b, y, s' := CanComplete(m, mid, truth);
      JoinSteps(m, truth, a, x, b, y, s, mid, s');
      states, events := a + b[1..], x + y;
    }
  }

  // A peer that has every piece has said so, and lets the client ask.
  ghost function SeedMet(s: State): State {
    HearStep(HearStep(s.(peer := Some(FreshPeer(s.pieces))), SeedBits(|s.pieces|), true), PeerMsg.Unchoke, true)
  }

  lemma MeetSeed(m: Meta, s: State, truth: seq<byte>) returns (states: seq<State>, events: seq<Event>, s': State)
    requires m.Valid() && Init(m, s) && Genuine(m, truth)
    ensures HonestSteps(m, truth, states, events, s, s') && OnTrack(m, s', truth) && Waiting(s') && s' == SeedMet(s)
    ensures events == [Connect, Hear(SeedBits(|s.pieces|), true), Hear(PeerMsg.Unchoke, true)]
  {
    InitInv(m, s);
    var n, msg := |s.pieces|, SeedBits(|s.pieces|);
    var met := s.(peer := Some(FreshPeer(s.pieces)));
    var told := HearStep(met, msg, true);
    s' := HearStep(told, PeerMsg.Unchoke, true);
    StepInv(m, s, Connect, met);
    StepInv(m, met, Hear(msg, true), told);
    StepInv(m, told, Hear(PeerMsg.Unchoke, true), s');
    assert msg.bits[0] && s.pieces[0] != Have;
    OneHonestStep(m, truth, s, Connect, met);
    OneHonestStep(m, truth, met, Hear(msg, true), told);
    OneHonestStep(m, truth, told, Hear(PeerMsg.Unchoke, true), s');
    JoinSteps(m, truth, [s, met], [Connect], [met, told], [Hear(msg, true)], s, met, told);
    states, events := [s, met] + [met, told][1..], [Connect] + [Hear(msg, true)];
    JoinSteps(m, truth, states, events, [told, s'], [Hear(PeerMsg.Unchoke, true)], s, told, s');
    states, events := states + [told, s'][1..], events + [Hear(PeerMsg.Unchoke, true)];
  }

  // The bitfield of a peer that has all of n pieces, as it is received.
  function SeedBits(n: nat): (msg: PeerMsg.Msg)
    ensures msg.BitfieldMsg? && |msg.bits| >= n && forall i | 0 <= i < n :: msg.bits[i]
  {
    PeerMsg.Arrives(PeerMsg.BitfieldMsg(seq(n, _ => true)))
  }

  /** In particular from the start: one honest peer that has every piece, sends
      its bitfield and UNCHOKE and never a REQUEST message is enough for a run
      that ends with the original. */
  lemma FreshDownloadCompletes(m: Meta, s: State, truth: seq<byte>) returns (states: seq<State>, events: seq<Event>)
    requires m.Valid() && Init(m, s) && Genuine(m, truth)
    ensures IsRun(m, states, events) && forall j | 0 <= j < |events| :: Honest(m, states[j], events[j], truth)
    ensures states[|events|].completed && states[|events|].image == truth
  {
    var a, x, met := MeetSeed(m, s, truth);
    var b, y, s' := CanComplete(m, met, truth);
    JoinSteps(m, truth, a, x, b, y, s, met, s');
    states, events := a + b[1..], x + y;
  }
}
