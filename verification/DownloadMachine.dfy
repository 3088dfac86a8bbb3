/** A download as a state machine over the steps of its connections, which run
    one after the other (src/peer_connection.cpp, src/torrent_info.cpp). */
module DownloadMachine {
  import opened Bytes
  import opened PieceRequest
  import opened PieceLayout
  import PeerMsg

  type Msg = PeerMsg.Msg

  datatype PieceState = NotRequested | Requested | Have

  // What the metainfo file fixes, and the hash function.
  datatype Meta = Meta(total: nat, pieceLength: nat, hashes: seq<seq<byte>>, hash: seq<byte> -> seq<byte>) {
    ghost predicate Valid() {
      && 0 < total && 0 < pieceLength && pieceLength % PEER_REQUEST_SIZE == 0
      && |hashes| == PieceCount(total, pieceLength)
    }

    function From(i: nat): nat { PieceStart(pieceLength, i) }

    function To(i: nat): int { PieceEnd(total, pieceLength, i) }

    function Blocks(i: nat): nat {
      if From(i) < To(i) then BlockCount(To(i) - From(i)) else 0
    }

    // Block k of piece i: where it starts, and how long it is.
    function BlockFrom(i: nat, k: nat): nat { From(i) + PEER_REQUEST_SIZE * k }

    function BlockLen(i: nat, k: nat): int { Min(PEER_REQUEST_SIZE, To(i) - BlockFrom(i, k)) }
  }

  // An open request: which of its blocks have arrived, and how many it
  // believes are left.
  datatype Open = Open(index: nat, done: seq<bool>, left: int)

  // What the client knows of a connection: the pieces that its peer has, those
  // it had itself when the connection began, whether the peer chokes it, whether
  // it has told the peer of its interest, how many requests of the peer's are
  // pending, and its own open request.
  datatype Peer = Peer(
    peerHave: seq<bool>,
    localHave: seq<bool>,
    choked: bool,
    interested: bool,
    pending: nat,
    open: Option<Open>)

  datatype State = State(
    image: seq<byte>,
    pieces: seq<PieceState>,
    piecesLeft: int,
    completed: bool,
    peer: Option<Peer>)

  datatype Event =
    | Connect
    | Die
    // A message other than PIECE, and whether the answer it calls for goes out.
    | Hear(msg: Msg, sent: bool)
    // The call of send_requests, and whether its NOT INTERESTED goes out.
    | Ask(picked: Option<nat>, sent: bool)
    | Write(index: nat, block: nat, data: seq<byte>)
    | Stray(from: nat, data: seq<byte>)
    | Arrive(index: nat, begin: nat, len: nat)

  // torrent_init
  ghost predicate Init(m: Meta, s: State) {
    && |s.image| == m.total
    && s.pieces == seq(|m.hashes|, _ => NotRequested)
    && s.piecesLeft == |m.hashes| && !s.completed && s.peer.None?
  }

  /** torrent_next_request: the least piece not requested that the peer has,
      else the greatest requested one that it has. */
  ghost predicate IsPick(pieces: seq<PieceState>, have: seq<bool>, picked: Option<nat>)
    requires |have| == |pieces|
  {
    match picked
    case Some(i) =>
      && i < |pieces| && have[i] && pieces[i] != Have
      && (if pieces[i] == NotRequested
          then forall j | 0 <= j < i :: !(have[j] && pieces[j] == NotRequested)
          else && (forall j | 0 <= j < |pieces| :: !(have[j] && pieces[j] == NotRequested))
               && (forall j | i < j < |pieces| :: !(have[j] && pieces[j] == Requested)))
    case None =>
      forall j | 0 <= j < |pieces| && have[j] :: pieces[j] == Have
  }

  function PieceBytes(m: Meta, image: seq<byte>, i: nat): seq<byte> {
    if m.From(i) < m.To(i) <= |image| then image[m.From(i)..m.To(i)] else []
  }

  predicate Verified(m: Meta, image: seq<byte>, i: nat)
    requires i < |m.hashes|
  {
    m.hash(PieceBytes(m, image, i)) == m.hashes[i]
  }

  // Whether a PIECE message names block k of piece i.
  predicate Names(m: Meta, i: nat, k: nat, begin: nat, len: nat) {
    begin == PEER_REQUEST_SIZE * k && len == m.BlockLen(i, k)
  }

  // Marking the block a PIECE message names, in process_piece_msg.
  function Mark(m: Meta, open: Open, begin: nat, len: nat): Open {
    var k := begin / PEER_REQUEST_SIZE;
    if k < |open.done| && Names(m, open.index, k, begin, len) then
      open.(done := open.done[k := true], left := open.left - 1)
    else open
  }

  // handle_piece_dnld_completion
  function Complete(s: State, i: nat): State
    requires i < |s.pieces|
  {
    if s.pieces[i] == Have then s
    else
      var left := s.piecesLeft - 1;
      s.(pieces := s.pieces[i := Have], piecesLeft := left, completed := s.completed || left == 0)
  }

  // process_piece_msg
  function ArriveStep(m: Meta, s: State, index: nat, begin: nat, len: nat): State
    requires |s.pieces| == |m.hashes|
    requires s.peer.Some? && s.peer.value.open.Some? ==> s.peer.value.open.value.index < |s.pieces|
  {
    if s.peer.None? || s.peer.value.open.None? || s.peer.value.open.value.index != index then s
    else
      var c := s.peer.value;
      var open := Mark(m, c.open.value, begin, len);
      if open.left != 0 then s.(peer := Some(c.(open := Some(open))))
      else
        var closed := s.(peer := Some(c.(open := None)));
        if Verified(m, s.image, index) then Complete(closed, index)
        else closed.(pieces := s.pieces[index := NotRequested])
  }

  // conn_state_init
  function FreshPeer(pieces: seq<PieceState>): Peer {
    Peer(seq(|pieces|, _ => false), seq(|pieces|, i requires 0 <= i < |pieces| => pieces[i] == Have), true, false, 0, None)
  }

  // What the client believes the peer has, after a message.
  function HaveAfter(have: seq<bool>, msg: Msg): (have': seq<bool>)
    requires Fitting(have, msg)
    ensures |have'| == |have|
  {
    match msg
    case Have(i) => have[i := true]
    case BitfieldMsg(bits) => bits[..|have|]
    case _ => have
  }

  // The piece a HAVE message names exists, and a bitfield has enough bits.
  predicate Fitting(have: seq<bool>, msg: Msg) {
    && (msg.Have? ==> msg.have < |have|)
    && (msg.BitfieldMsg? ==> |have| <= |msg.bits|)
  }

  // The message makes the client tell the peer that it is interested.
  ghost predicate Attracts(pieces: seq<PieceState>, localHave: seq<bool>, interested: bool, msg: Msg) {
    match msg
    case Have(i) => !interested && i < |localHave| && localHave[i]
    case BitfieldMsg(bits) =>
      exists i :: 0 <= i < |pieces| && i < |bits| && bits[i] && pieces[i] != Have
    case _ => false
  }

  // process_msg, for messages other than PIECE
  ghost function HearStep(s: State, msg: Msg, sent: bool): State
    requires s.peer.Some? && Fitting(s.peer.value.peerHave, msg)
  {
    var c := s.peer.value;
    s.(peer := Some(Peer(
      HaveAfter(c.peerHave, msg),
      c.localHave,
      if msg.Choke? then true else if msg.Unchoke? then false else c.choked,
      c.interested || (Attracts(s.pieces, c.localHave, c.interested, msg) && sent),
      c.pending + (if msg.Request? then 1 else 0),
      c.open)))
  }

  /** The client calls send_requests only when nothing of the peer's is pending,
      and the peer does not choke it and knows of its interest. */
  predicate MayAsk(c: Peer) { c.pending == 0 && !c.choked && c.interested }

  // send_requests, when torrent_next_request picks a piece or none
  function AskStep(m: Meta, s: State, picked: Option<nat>, sent: bool): State
    requires s.peer.Some? && (picked.Some? ==> picked.value < |s.pieces|)
  {
    match picked
    case None => s.(peer := Some(s.peer.value.(interested := s.peer.value.interested && !sent)))
    case Some(i) =>
      s.(pieces := s.pieces[i := Requested],
         peer := Some(s.peer.value.(
           open := Some(Open(i, seq(m.Blocks(i), _ => false), m.Blocks(i))))))
  }

  // The list sizes the client sets up once.
  ghost predicate Shaped(m: Meta, s: State) {
    && |s.pieces| == |m.hashes|
    && (s.peer.Some? ==>
          var c := s.peer.value;
          && |c.peerHave| == |c.localHave| == |s.pieces|
          && (c.open.Some? ==> c.open.value.index < |s.pieces|))
  }

  ghost predicate Step(m: Meta, s: State, e: Event, s': State) {
    && Shaped(m, s)
    && match e {
         case Connect =>
           s.peer.None? && s' == s.(peer := Some(FreshPeer(s.pieces)))
         case Die =>
           s' == s.(peer := None)
         case Hear(msg, sent) =>
           && s.peer.Some? && !msg.Piece? && Fitting(s.peer.value.peerHave, msg)
           && s' == HearStep(s, msg, sent)
         case Ask(picked, sent) =>
           && s.peer.Some? && s.peer.value.open.None? && MayAsk(s.peer.value)
           && IsPick(s.pieces, s.peer.value.peerHave, picked)
           && s' == AskStep(m, s, picked, sent)
         case Write(i, k, data) =>
           && i < |s.pieces| && k < m.Blocks(i) && |data| == m.BlockLen(i, k)
           && m.BlockFrom(i, k) + |data| <= |s.image|
           && s' == s.(image := Splice(s.image, m.BlockFrom(i, k), data))
         // A block of a piece that does not exist: its place is taken modulo
         // 2^32 and may lie anywhere.
         case Stray(from, data) =>
           && from + |data| <= |s.image|
           && s' == s.(image := Splice(s.image, from, data))
         case Arrive(i, begin, len) =>
           s' == ArriveStep(m, s, i, begin, len)
       }
  }

  function CountMissing(pieces: seq<PieceState>): nat {
    if |pieces| == 0 then 0 else (if pieces[0] == Have then 0 else 1) + CountMissing(pieces[1..])
  }

  function CountFalse(done: seq<bool>): nat {
    if |done| == 0 then 0 else (if done[0] then 0 else 1) + CountFalse(done[1..])
  }

  /** What holds in every reachable state. */
  ghost predicate Inv(m: Meta, s: State) {
    && m.Valid() && |s.image| == m.total && |s.pieces| == |m.hashes|
    && s.piecesLeft == CountMissing(s.pieces)
    && (s.completed <==> s.piecesLeft == 0)
    && (s.peer.Some? ==>
          var c := s.peer.value;
          && |c.peerHave| == |c.localHave| == |s.pieces|
          && (c.open.Some? ==> OpenInv(m, s.pieces, c.open.value)))
  }

  // An open request is for a requested piece and has blocks left; it never
  // believes that more are left than have not arrived.
  ghost predicate OpenInv(m: Meta, pieces: seq<PieceState>, open: Open)
    requires |pieces| == |m.hashes|
  {
    && open.index < |pieces| && pieces[open.index] == Requested
    && |open.done| == m.Blocks(open.index)
    && 1 <= open.left <= CountFalse(open.done)
  }

  /** Safety: a piece the client has carries the advertised hash. */
  ghost predicate Safe(m: Meta, s: State)
    requires |s.pieces| == |m.hashes|
  {
    forall i | 0 <= i < |s.pieces| :: s.pieces[i] == Have ==> Verified(m, s.image, i)
  }

  lemma {:induction false} CountMissingUpdate(pieces: seq<PieceState>, i: nat, p: PieceState)
    requires i < |pieces|
    ensures CountMissing(pieces[i := p]) ==
            CountMissing(pieces) - (if pieces[i] == Have then 0 else 1) + (if p == Have then 0 else 1)
  {
    if i == 0 {
      assert pieces[i := p][1..] == pieces[1..];
    } else {
      assert pieces[i := p][1..] == pieces[1..][i - 1 := p];
      CountMissingUpdate(pieces[1..], i - 1, p);
    }
  }

  lemma {:induction false} CountMissingZero(pieces: seq<PieceState>)
    ensures CountMissing(pieces) == 0 <==> forall i | 0 <= i < |pieces| :: pieces[i] == Have
  {
    if |pieces| > 0 {
      CountMissingZero(pieces[1..]);
      assert forall i | 1 <= i < |pieces| :: pieces[i] == pieces[1..][i - 1];
      assert forall i | 0 <= i < |pieces[1..]| :: pieces[1..][i] == pieces[i + 1];
    }
  }

  lemma {:induction false} CountMissingFresh(n: nat)
    ensures CountMissing(seq(n, _ => NotRequested)) == n
  {
    if n > 0 {
      CountMissingFresh(n - 1);
      assert seq(n, _ => NotRequested)[1..] == seq(n - 1, _ => NotRequested);
    }
  }

  lemma {:induction false} CountFalseUpdate(done: seq<bool>, k: nat)
    requires k < |done|
    ensures CountFalse(done[k := true]) == CountFalse(done) - (if done[k] then 0 else 1)
  {
    if k == 0 {
      assert done[k := true][1..] == done[1..];
    } else {
      assert done[k := true][1..] == done[1..][k - 1 := true];
      CountFalseUpdate(done[1..], k - 1);
    }
  }

  lemma {:induction false} CountFalseZero(done: seq<bool>)
    ensures CountFalse(done) == 0 <==> forall k | 0 <= k < |done| :: done[k]
  {
    if |done| > 0 {
      CountFalseZero(done[1..]);
      assert forall k | 1 <= k < |done| :: done[k] == done[1..][k - 1];
      assert forall k | 0 <= k < |done[1..]| :: done[1..][k] == done[k + 1];
    }
  }

  lemma {:induction false} CountFalseFresh(n: nat)
    ensures CountFalse(seq(n, _ => false)) == n
  {
    if n > 0 {
      CountFalseFresh(n - 1);
      assert seq(n, _ => false)[1..] == seq(n - 1, _ => false);
    }
  }

  /** The pieces of a torrent and their blocks, in numbers. */
  lemma PiecesAre(m: Meta, i: nat, k: nat)
    requires m.Valid() && i < |m.hashes|
    ensures m.From(i) == m.pieceLength * i
    ensures m.To(i) == if m.pieceLength * (i + 1) < m.total then m.pieceLength * (i + 1) else m.total
    ensures 16384 * (m.Blocks(i) - 1) < m.To(i) - m.From(i) <= 16384 * m.Blocks(i)
    ensures m.BlockFrom(i, k) == m.From(i) + 16384 * k
    ensures k < m.Blocks(i) ==>
              m.BlockLen(i, k) == if k + 1 < m.Blocks(i) then 16384 else m.To(i) - m.From(i) - 16384 * k
    ensures 0 < |m.hashes| && m.pieceLength * (|m.hashes| - 1) < m.total <= m.pieceLength * |m.hashes|
  {
    PieceRange(m, i);
    PieceExists(m.total, m.pieceLength, |m.hashes| - 1);
    PieceExists(m.total, m.pieceLength, |m.hashes|);
  }

  /** What a PIECE message does, in its own terms: it counts for the open request
      when it names the piece, the place of a block and that block's length, and
      when none is left the piece is checked against its hash. */
  lemma ArriveMeans(m: Meta, s: State, index: nat, begin: nat, len: nat)
    requires Inv(m, s)
    ensures var s' := ArriveStep(m, s, index, begin, len);
            if s.peer.None? || s.peer.value.open.None? || s.peer.value.open.value.index != index then s' == s
            else
              var open, k := s.peer.value.open.value, begin / 16384;
              var from, to := m.pieceLength * index, m.pieceLength * (index + 1);
              var end := if to < m.total then to else m.total;
              var here := begin == 16384 * k && from + begin < end
                          && len == if from + begin + 16384 < end then 16384 else end - (from + begin);
              var left := open.left - (if here then 1 else 0);
              && 0 <= from < end <= |s.image| && s'.image == s.image
              && if left > 0 then
                   && s' == s.(peer := s'.peer) && SamePeer(s, s') && (here ==> k < |open.done|)
                   && s'.peer.value.open == Some(Open(index, if here then open.done[k := true] else open.done, left))
                 else
                   && SamePeer(s, s') && s'.peer.value.open.None? && index < |s.pieces| && index < |m.hashes|
                   && if m.hash(s.image[from..end]) == m.hashes[index] then
                        && s'.pieces == s.pieces[index := Have] && s'.piecesLeft == s.piecesLeft - 1
                        && (s'.completed <==> s'.piecesLeft == 0)
                      else
                        && s'.pieces == s.pieces[index := NotRequested] && s'.piecesLeft == s.piecesLeft
                        && s'.completed == s.completed
  {
    if s.peer.Some? && s.peer.value.open.Some? && s.peer.value.open.value.index == index {
      PiecesAre(m, index, begin / 16384);
      PieceRange(m, index);
      MarkMeans(m, s.peer.value.open.value, begin, len);
      ArriveInv(m, s, index, begin, len);
    }
  }

  /** What a message other than PIECE does, in its own terms. */
  lemma HearMeans(m: Meta, s: State, msg: Msg, sent: bool)
    requires Inv(m, s) && s.peer.Some? && Fitting(s.peer.value.peerHave, msg)
    ensures var s' := HearStep(s, msg, sent);
            && s' == s.(peer := s'.peer) && s'.peer.Some?
            && var c, c' := s.peer.value, s'.peer.value;
               && c'.open == c.open && c'.localHave == c.localHave && |c'.peerHave| == |c.peerHave|
               && (c'.choked <==> msg.Choke? || (c.choked && !msg.Unchoke?))
               && c'.pending == c.pending + (if msg.Request? then 1 else 0)
               && (forall i | 0 <= i < |c.peerHave| ::
                     c'.peerHave[i] == if msg.BitfieldMsg? then msg.bits[i]
                                       else c.peerHave[i] || (msg.Have? && msg.have == i))
               && (msg.BitfieldMsg? ==>
                     (c'.interested <==>
                        || c.interested
                        || (sent && exists i :: 0 <= i < |s.pieces| && msg.bits[i] && s.pieces[i] != Have)))
               && (msg.Have? ==>
                     (c'.interested <==> c.interested || (sent && c.localHave[msg.have])))
               && (!msg.BitfieldMsg? && !msg.Have? ==> c'.interested == c.interested)
  {}

  /** What send_requests does, in its own terms: the piece it picks becomes
      requested, with none of its blocks there; with nothing to pick it is no
      longer interested once it has told the peer so. */
  lemma AskMeans(m: Meta, s: State, picked: Option<nat>, sent: bool)
    requires Inv(m, s) && s.peer.Some? && (picked.Some? ==> picked.value < |s.pieces|)
    ensures var s', c := AskStep(m, s, picked, sent), s.peer.value;
            && s'.image == s.image && s'.piecesLeft == s.piecesLeft && s'.completed == s.completed
            && s'.peer.Some? && |s'.pieces| == |s.pieces|
            && (forall i | 0 <= i < |s.pieces| ::
                  s'.pieces[i] == if picked == Some(i) then Requested else s.pieces[i])
            && var c' := s'.peer.value;
               && c'.peerHave == c.peerHave && c'.localHave == c.localHave
               && c'.choked == c.choked && c'.pending == c.pending
               && (c'.interested <==> c.interested && !(picked.None? && sent))
               && (picked.None? ==> c'.open == c.open)
               && (picked.Some? ==>
                     && c'.open.Some? && c'.open.value.index == picked.value
                     && c'.open.value.left == |c'.open.value.done| == m.Blocks(picked.value)
                     && forall k | 0 <= k < |c'.open.value.done| :: !c'.open.value.done[k])
  {}

  lemma MarkMeans(m: Meta, open: Open, begin: nat, len: nat)
    requires m.Valid() && open.index < |m.hashes| && |open.done| == m.Blocks(open.index)
    ensures var from, end, k := m.From(open.index), m.To(open.index), begin / 16384;
            var here := begin == 16384 * k && from + begin < end
                        && len == if from + begin + 16384 < end then 16384 else end - (from + begin);
            && (here ==> k < |open.done|)
            && Mark(m, open, begin, len) == if here then open.(done := open.done[k := true], left := open.left - 1) else open
  {
    PieceRange(m, open.index);
  }

  lemma PieceRange(m: Meta, i: nat)
    requires m.Valid() && i < |m.hashes|
    ensures m.From(i) < m.To(i) <= m.total && m.Blocks(i) > 0
  {
    PieceExists(m.total, m.pieceLength, i);
    assert m.pieceLength * (i + 1) == m.pieceLength * i + m.pieceLength;
  }

  lemma InitInv(m: Meta, s: State)
    requires m.Valid() && Init(m, s)
    ensures Inv(m, s) && Safe(m, s)
  {
    CountMissingFresh(|m.hashes|);
    PieceExists(m.total, m.pieceLength, 0);
  }

  lemma StepInv(m: Meta, s: State, e: Event, s': State)
    requires Inv(m, s) && Step(m, s, e, s')
    ensures Inv(m, s')
  {
    match e
    case Ask(picked, sent) =>
      AskInv(m, s, picked, sent);
    case Arrive(i, begin, len) =>
      ArriveInv(m, s, i, begin, len);
    case _ =>
  }

  lemma AskInv(m: Meta, s: State, picked: Option<nat>, sent: bool)
    requires Inv(m, s) && s.peer.Some? && s.peer.value.open.None? && IsPick(s.pieces, s.peer.value.peerHave, picked)
    ensures Inv(m, AskStep(m, s, picked, sent))
  {
    if picked.Some? {
      CountMissingUpdate(s.pieces, picked.value, Requested);
      CountFalseFresh(m.Blocks(picked.value));
      PieceRange(m, picked.value);
    }
  }

  lemma MarkInv(m: Meta, pieces: seq<PieceState>, open: Open, begin: nat, len: nat)
    requires |pieces| == |m.hashes| && OpenInv(m, pieces, open)
    ensures var marked := Mark(m, open, begin, len);
            && marked.index == open.index && |marked.done| == |open.done|
            && 0 <= marked.left <= CountFalse(marked.done)
  {
    var k := begin / PEER_REQUEST_SIZE;
    if k < |open.done| {
      CountFalseUpdate(open.done, k);
    }
  }

  lemma ArriveInv(m: Meta, s: State, i: nat, begin: nat, len: nat)
    requires Inv(m, s)
    ensures Inv(m, ArriveStep(m, s, i, begin, len))
  {
    if s.peer.Some? && s.peer.value.open.Some? && s.peer.value.open.value.index == i {
      MarkInv(m, s.pieces, s.peer.value.open.value, begin, len);
      CountMissingUpdate(s.pieces, i, Have);
      CountMissingUpdate(s.pieces, i, NotRequested);
    }
  }

  // Nothing of the connection has changed but its open request.
  predicate SamePeer(s: State, s': State) {
    s.peer.Some? && s'.peer.Some? && s'.peer.value == s.peer.value.(open := s'.peer.value.open)
  }

  lemma ArriveFrame(m: Meta, s: State, i: nat, begin: nat, len: nat)
    requires Inv(m, s)
    ensures var s' := ArriveStep(m, s, i, begin, len);
            && s'.image == s.image
            && (s.peer.Some? ==> SamePeer(s, s'))
  {}

  /** HAVE never reverts, the number of pieces left never rises, and it drops
      by one exactly when a piece becomes HAVE. */
  lemma StepMonotone(m: Meta, s: State, e: Event, s': State)
    requires Inv(m, s) && Step(m, s, e, s')
    ensures |s'.pieces| == |s.pieces|
    ensures forall i | 0 <= i < |s.pieces| :: s.pieces[i] == Have ==> s'.pieces[i] == Have
    ensures s.piecesLeft - 1 <= s'.piecesLeft <= s.piecesLeft
    ensures s'.piecesLeft < s.piecesLeft <==> exists i :: 0 <= i < |s.pieces| && s.pieces[i] != Have && s'.pieces[i] == Have
  {
  }

  ghost predicate IsStep(m: Meta, states: seq<State>, events: seq<Event>, j: nat) {
    j < |events| && j + 1 < |states| && Step(m, states[j], events[j], states[j + 1])
  }

  // Each event is a step from one state to the next.
  ghost predicate Steps(m: Meta, states: seq<State>, events: seq<Event>) {
    && |states| == |events| + 1
    && forall j: nat | j < |events| :: IsStep(m, states, events, j)
  }

  /** A run begins as torrent_init leaves the download. */
  ghost predicate IsRun(m: Meta, states: seq<State>, events: seq<Event>) {
    Steps(m, states, events) && Init(m, states[0])
  }

  lemma {:induction false} RunInv(m: Meta, states: seq<State>, events: seq<Event>, n: nat)
    requires m.Valid() && IsRun(m, states, events) && n < |states|
    ensures Inv(m, states[n])
  {
    if n == 0 {
      InitInv(m, states[0]);
    } else {
      RunInv(m, states, events, n - 1);
      assert IsStep(m, states, events, n - 1);
      StepInv(m, states[n - 1], events[n - 1], states[n]);
    }
  }

  /** What torrent_next_request picks, in its own terms: the first piece that has
      not been asked for and that the peer has; when there is none, the last one
      that has been asked for; never one that the client has. */
  lemma PickMeans(pieces: seq<PieceState>, have: seq<bool>, picked: Option<nat>)
    requires |have| == |pieces| && IsPick(pieces, have, picked)
    ensures forall i | 0 <= i < |pieces| && have[i] && pieces[i] == NotRequested
                     && (forall j | 0 <= j < i :: !have[j] || pieces[j] != NotRequested) ::
              picked == Some(i)
    ensures forall i | 0 <= i < |pieces| && have[i] && pieces[i] == Requested
                     && (forall j | 0 <= j < |pieces| :: !have[j] || pieces[j] != NotRequested)
                     && (forall j | i < j < |pieces| :: !have[j] || pieces[j] != Requested) ::
              picked == Some(i)
    ensures (forall i | 0 <= i < |pieces| :: !have[i] || pieces[i] == Have) ==> picked == None
  {
    if picked.Some? {
      assert have[picked.value] && pieces[picked.value] != Have;
    }
  }

  /** torrent_next_request always has an answer. */
  lemma PickExists(pieces: seq<PieceState>, have: seq<bool>) returns (picked: Option<nat>)
    requires |have| == |pieces|
    ensures IsPick(pieces, have, picked)
  {
    var i := 0;
    while i < |pieces| && !(have[i] && pieces[i] == NotRequested)
      invariant i <= |pieces| && forall j | 0 <= j < i :: !(have[j] && pieces[j] == NotRequested)
    {
      i := i + 1;
    }
    if i < |pieces| {
      return Some(i);
    }
    while i > 0 && !(have[i - 1] && pieces[i - 1] == Requested)
      invariant i <= |pieces| && forall j | i <= j < |pieces| :: !(have[j] && pieces[j] == Requested)
    {
      i := i - 1;
    }
    picked := if i > 0 then Some(i - 1) else None;
  }

  /** torrent_next_request has exactly one answer, and it is none exactly when
      every piece the peer has is one the client has. */
  lemma PickExact(pieces: seq<PieceState>, have: seq<bool>, a: Option<nat>, b: Option<nat>)
    requires |have| == |pieces| && IsPick(pieces, have, a) && IsPick(pieces, have, b)
    ensures a == b
    ensures a.None? <==> forall j | 0 <= j < |pieces| && have[j] :: pieces[j] == Have
  {}
}
