/** What it takes of the peers' messages for a download to stay right, step by
    step: which blocks may be sent, given what the files hold and which blocks
    have been named. */
module Courtesy {
  import opened Bytes
  import opened PieceRequest
  import opened DownloadMachine
  import opened DownloadSafety
  import opened DownloadHonest

  /** Two ways for peers to behave well.  Sparing peers change no byte of a piece
      that, by then, has the advertised hash.  Truthful peers send the bytes of
      truth, and name no block twice over one connection. */
  datatype Manner = Sparing | Truthful(truth: seq<byte>)

  // Blocks that a connection's PIECE messages have named, by index and begin.
  type Named = set<(nat, nat)>

  /** Writing these bytes there changes no byte of a piece that has its hash. */
  ghost predicate Spares(m: Meta, image: seq<byte>, from: nat, data: seq<byte>) {
    && from + |data| <= |image|
    && forall i, p | 0 <= i < |m.hashes| && Verified(m, image, i) && m.From(i) <= p < m.To(i)
                   && from <= p < from + |data| ::
         data[p - from] == image[p]
  }

  /** After these blocks have been named the next PIECE message may name this one
      and write these bytes there. */
  ghost predicate Allows(m: Meta, manner: Manner, image: seq<byte>, named: Named, index: nat, begin: nat,
                         from: nat, data: seq<byte>) {
    match manner
    case Sparing => Spares(m, image, from, data)
    case Truthful(truth) =>
      (index, begin) !in named && from + |data| <= |truth| && data == truth[from..from + |data|]
  }

  // The blocks that have arrived of an open request have been named.
  ghost predicate DoneNamed(s: State, named: Named) {
    s.peer.Some? && s.peer.value.open.Some? ==>
      var open := s.peer.value.open.value;
      forall k: nat | k < |open.done| && open.done[k] :: (open.index, PEER_REQUEST_SIZE * k) in named
  }

  // The state of a download whose peers have all been truthful.
  ghost predicate KeptTrue(m: Meta, s: State, named: Named, truth: seq<byte>) {
    && Inv(m, s) && Exact(s) && DoneNamed(s, named)
    && Genuine(m, truth) && Trusted(m, s, truth) && HaveTrue(m, s, truth)
  }

  /** What well-behaved peers keep. */
  ghost predicate Kept(m: Meta, s: State, named: Named, manner: Manner) {
    match manner
    case Sparing => Inv(m, s) && Safe(m, s)
    case Truthful(truth) => KeptTrue(m, s, named, truth)
  }

  // The write that a PIECE message brings: a block of its piece, or a stray one.
  ghost predicate Brings(m: Meta, e: Event, index: nat, begin: nat) {
    if index < |m.hashes| then e.Write? && e.index == index && begin == PEER_REQUEST_SIZE * e.block else e.Stray?
  }

  lemma SpareWrite(m: Meta, s: State, e: Event, s': State)
    requires Inv(m, s) && Safe(m, s) && IsWrite(e) && Step(m, s, e, s') && Spares(m, s.image, Place(m, e), e.data)
    ensures Inv(m, s') && Safe(m, s')
  {
    StepSafe(m, s, e, s');
    StepInv(m, s, e, s');
  }

  lemma TrueWrite(m: Meta, s: State, named: Named, truth: seq<byte>, e: Event, s': State)
    requires KeptTrue(m, s, named, truth) && IsWrite(e) && Step(m, s, e, s')
    requires Place(m, e) + |e.data| <= |truth| && e.data == truth[Place(m, e)..Place(m, e) + |e.data|]
    ensures KeptTrue(m, s', named, truth)
  {
    var p, n := Place(m, e), |e.data|;
    StepInv(m, s, e, s');
    HonestWrite(m, s, p, n, truth);
    WriteHaveTrue(m, s, p, n, truth);
    assert s' == s.(image := Splice(s.image, p, truth[p..p + n]));
  }

  // The block that is named next has not arrived.
  lemma NotRepeated(m: Meta, s: State, named: Named, index: nat, begin: nat, len: nat)
    requires DoneNamed(s, named) && (index, begin) !in named
    ensures FreshBlock(m, s, Arrive(index, begin, len))
  {}

  // What naming a block changes about the names.
  lemma MarkNamed(m: Meta, s: State, named: Named, index: nat, begin: nat, len: nat)
    requires Inv(m, s) && DoneNamed(s, named) && s.peer.Some? && s.peer.value.open.Some?
    ensures var open := s.peer.value.open.value;
            var marked := Mark(m, open, begin, len);
            open.index == index ==>
              forall k: nat | k < |marked.done| && marked.done[k] ::
                (index, PEER_REQUEST_SIZE * k) in named + {(index, begin)}
  {}

  lemma TrueArrive(m: Meta, s: State, named: Named, truth: seq<byte>, index: nat, begin: nat, len: nat)
    requires KeptTrue(m, s, named, truth) && (index, begin) !in named
    requires index < |m.hashes| ==> SameBlock(m, s.image, truth, index, begin / PEER_REQUEST_SIZE)
    ensures KeptTrue(m, ArriveStep(m, s, index, begin, len), named + {(index, begin)}, truth)
  {
    var e, s' := Arrive(index, begin, len), ArriveStep(m, s, index, begin, len);
    StepInv(m, s, e, s');
    NotRepeated(m, s, named, index, begin, len);
    if s.peer.Some? && s.peer.value.open.Some? && s.peer.value.open.value.index == index {
      MarkNamed(m, s, named, index, begin, len);
      HonestArrive(m, s, e, s', truth);
    }
  }

  /** Receiving and processing a PIECE message that is allowed keeps all that
      well-behaved peers keep. */
  lemma PieceKeeps(m: Meta, s: State, named: Named, manner: Manner, e: Event, mid: State, index: nat, begin: nat, len: nat)
    requires Kept(m, s, named, manner) && IsWrite(e) && Step(m, s, e, mid) && Brings(m, e, index, begin)
    requires Allows(m, manner, s.image, named, index, begin, Place(m, e), e.data)
    ensures Kept(m, ArriveStep(m, mid, index, begin, len), named + {(index, begin)}, manner)
  {
    match manner
    case Sparing =>
      SpareWrite(m, s, e, mid);
      StepInv(m, mid, Arrive(index, begin, len), ArriveStep(m, mid, index, begin, len));
      StepSafe(m, mid, Arrive(index, begin, len), ArriveStep(m, mid, index, begin, len));
    case Truthful(truth) =>
      TrueWrite(m, s, named, truth, e, mid);
      if index < |m.hashes| {
        BlockInPlace(m, s, truth, e, mid);
      }
      TrueArrive(m, mid, named, truth, index, begin, len);
  }

  lemma BlockInPlace(m: Meta, s: State, truth: seq<byte>, e: Event, s': State)
    requires |s.image| == |truth| && e.Write? && Step(m, s, e, s')
    requires Place(m, e) + |e.data| <= |truth| && e.data == truth[Place(m, e)..Place(m, e) + |e.data|]
    ensures SameBlock(m, s'.image, truth, e.index, PEER_REQUEST_SIZE * e.block / PEER_REQUEST_SIZE)
  {
    assert PEER_REQUEST_SIZE * e.block / PEER_REQUEST_SIZE == e.block;
    assert s'.image[Place(m, e)..Place(m, e) + |e.data|] == e.data;
  }

  // The steps of a connection that neither write nor answer a request.
  lemma OtherKeeps(m: Meta, s: State, named: Named, manner: Manner, e: Event, s': State)
    requires Kept(m, s, named, manner) && Step(m, s, e, s') && !IsWrite(e) && !e.Arrive?
    ensures Kept(m, s', named, manner)
  {
    StepInv(m, s, e, s');
    if e.Ask? && e.picked.Some? {
      CountFalseFresh(m.Blocks(e.picked.value));
    }
  }

  /** Between connections the names start afresh. */
  lemma NamesStartAfresh(m: Meta, s: State, named: Named, manner: Manner)
    requires Kept(m, s, named, manner) && s.peer.None?
    ensures Kept(m, s, {}, manner)
  {}
}
