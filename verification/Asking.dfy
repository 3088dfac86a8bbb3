/** When the client may ask for a piece, and what keeps it from asking: it pushes
    its peer's requests on a queue that nothing ever empties
    (src/peer_connection.cpp). */
module Asking {
  import opened Bytes
  import opened PieceRequest
  import opened DownloadMachine
  import opened DownloadSafety
  import PeerMsg

  // Some step of the machine asks.
  ghost predicate CanAsk(m: Meta, s: State) {
    exists picked, sent :: AsksHere(m, s, picked, sent)
  }

  ghost predicate AsksHere(m: Meta, s: State, picked: Option<nat>, sent: bool) {
    && s.peer.Some? && (picked.Some? ==> picked.value < |s.pieces|)
    && Step(m, s, Ask(picked, sent), AskStep(m, s, picked, sent))
  }

  /** The client can ask exactly when it has no request open, the peer lets it
      and knows of its interest, and no request of the peer's is pending. */
  lemma CanAskIff(m: Meta, s: State)
    requires Inv(m, s)
    ensures CanAsk(m, s) <==>
              && s.peer.Some? && s.peer.value.open.None?
              && !s.peer.value.choked && s.peer.value.interested && s.peer.value.pending == 0
  {
    if s.peer.Some? && s.peer.value.open.None? && MayAsk(s.peer.value) {
      var picked := PickExists(s.pieces, s.peer.value.peerHave);
      assert AsksHere(m, s, picked, true);
    }
  }

  // The peer's requests are pending, and the open request, if any, is for a
  // piece of open.
  ghost predicate Stalled(s: State, open: set<nat>) {
    && s.peer.Some? && s.peer.value.pending > 0
    && (s.peer.value.open.Some? ==> s.peer.value.open.value.index in open)
  }

  lemma StalledStep(m: Meta, s: State, e: Event, s': State, open: set<nat>)
    requires Stalled(s, open) && Step(m, s, e, s') && !e.Die?
    ensures Stalled(s', open) && !e.Ask? && |s'.pieces| == |s.pieces|
    ensures forall i | 0 <= i < |s.pieces| && i !in open :: s'.pieces[i] == s.pieces[i]
  {}

  /** Once a request of the peer's has been heard the client asks for nothing
      more over that connection: until it ends no piece changes but that of the
      request that was open. */
  lemma {:induction false} RequestStalls(m: Meta, states: seq<State>, events: seq<Event>, a: nat, b: nat, open: set<nat>)
    requires Steps(m, states, events) && a <= b < |states| && Stalled(states[a], open)
    requires forall j | a <= j < b :: !events[j].Die?
    ensures Stalled(states[b], open) && forall j | a <= j < b :: !events[j].Ask?
    ensures |states[b].pieces| == |states[a].pieces|
    ensures forall i | 0 <= i < |states[a].pieces| && i !in open :: states[b].pieces[i] == states[a].pieces[i]
  {
    if a < b {
      RequestStalls(m, states, events, a, b - 1, open);
      assert IsStep(m, states, events, b - 1);
      StalledStep(m, states[b - 1], events[b - 1], states[b], open);
    }
  }

  /** A run after which nothing is gained: a peer that has both pieces of a
      torrent sends its bitfield, UNCHOKE and then a REQUEST message. */
  lemma RequestStallsAll(hash: seq<byte> -> seq<byte>, first: seq<byte>, second: seq<byte>)
    returns (m: Meta, states: seq<State>, events: seq<Event>)
    requires |first| == PEER_REQUEST_SIZE
    ensures m.Valid() && m.hash == hash && IsRun(m, states, events)
    ensures events == [Connect, Hear(BOTH, true), Hear(PeerMsg.Unchoke, true),
                       Hear(PeerMsg.Request(0, 0, PEER_REQUEST_SIZE), true)]
    ensures states[4].piecesLeft == 2 && Stalled(states[4], {}) && !CanAsk(m, states[4])
  {
    m := TwoPieces(hash, first, second);
    var zeros := seq(PEER_REQUEST_SIZE, _ => 0) + [0];
    states, events := MeetPeer(m, zeros);
    var e := Hear(PeerMsg.Request(0, 0, PEER_REQUEST_SIZE), true);
    var s := HearStep(states[3], e.msg, true);
    OneMore(m, states, events, e, s);
    states, events := states + [s], events + [e];
    RunInv(m, states, events, 4);
    CanAskIff(m, s);
  }

  /** A choked client asks for nothing until it hears UNCHOKE. */
  lemma {:induction false} ChokeStops(m: Meta, states: seq<State>, events: seq<Event>, a: nat, b: nat)
    requires Steps(m, states, events) && a <= b < |states| && states[a].peer.Some? && states[a].peer.value.choked
    requires forall j | a <= j < b :: !events[j].Die? && !(events[j].Hear? && events[j].msg.Unchoke?)
    ensures states[b].peer.Some? && states[b].peer.value.choked && forall j | a <= j < b :: !events[j].Ask?
  {
    if a < b {
      ChokeStops(m, states, events, a, b - 1);
      assert IsStep(m, states, events, b - 1);
    }
  }

  // A client that had no piece when the connection began has not told its peer of
  // any interest.
  ghost predicate Indifferent(s: State) {
    && s.peer.Some? && !s.peer.value.interested
    && forall i | 0 <= i < |s.peer.value.localHave| :: !s.peer.value.localHave[i]
  }

  lemma IndifferentStep(m: Meta, s: State, e: Event, s': State)
    requires Indifferent(s) && Step(m, s, e, s') && !e.Die? && !(e.Hear? && e.msg.BitfieldMsg?)
    ensures Indifferent(s') && !e.Ask?
  {}

  /** HAVE messages do not help: the client answers one with INTERESTED only when
      it had the piece itself, so until a bitfield is heard a client that had none
      asks for nothing, whatever pieces its peer announces. */
  lemma {:induction false} HaveAttractsNone(m: Meta, states: seq<State>, events: seq<Event>, a: nat, b: nat)
    requires Steps(m, states, events) && a <= b < |states| && Indifferent(states[a])
    requires forall j | a <= j < b :: !events[j].Die? && !(events[j].Hear? && events[j].msg.BitfieldMsg?)
    ensures Indifferent(states[b]) && forall j | a <= j < b :: !events[j].Ask?
  {
    if a < b {
      HaveAttractsNone(m, states, events, a, b - 1);
      assert IsStep(m, states, events, b - 1);
      IndifferentStep(m, states[b - 1], events[b - 1], states[b]);
    }
  }
}
