/** A connected socket, and the two loops of src/peer_msg.cpp over it. */
module Socket {
  import opened Bytes

  // The first got bytes of the stream have moved into the buffer, at off.
  ghost predicate Delivered(before: seq<byte>, off: nat, stream: seq<byte>, got: nat, after: seq<byte>, rest: seq<byte>) {
    && got <= |stream| && off + got <= |before| == |after|
    && rest == stream[got..]
    && forall i | 0 <= i < |before| ::
         after[i] == if off <= i < off + got then stream[i - off] else before[i]
  }

  lemma DeliveredIsSplice(before: seq<byte>, off: nat, stream: seq<byte>, got: nat, after: seq<byte>, rest: seq<byte>)
    requires Delivered(before, off, stream, got, after, rest)
    ensures after == Splice(before, off, stream[..got])
  {}

  lemma DeliveredMore(before: seq<byte>, off: nat, stream: seq<byte>, got: nat, mid: seq<byte>, inbox: seq<byte>,
                      nb: nat, after: seq<byte>, rest: seq<byte>)
    requires Delivered(before, off, stream, got, mid, inbox)
    requires Delivered(mid, off + got, inbox, nb, after, rest)
    ensures Delivered(before, off, stream, got + nb, after, rest)
  {}

  // How many of n bytes there are room for, or bytes there.
  function AtMost(n: nat, limit: nat): nat { if n <= limit then n else limit }

  /** What the socket will do is fixed beforehand, but for how it splits the
      bytes: recv delivers inbox and then fails or reports the end of the stream
      once, after which a first part of later takes the place of inbox; send
      takes room bytes and then fails once. */
  class Connection {
    var inbox: seq<byte>
    var later: seq<byte>
    // What the peer has been told.
    var outbox: seq<byte>
    var room: nat

    constructor (inbox: seq<byte>, later: seq<byte>, room: nat)
      ensures this.inbox == inbox && this.later == later && outbox == [] && this.room == room
    {
      this.inbox, this.later, outbox, this.room := inbox, later, [], room;
    }

    /** recv: -1 for a failure, 0 for the end of the stream, or how many of the
        bytes asked for it has delivered. */
    method Recv(buff: array<byte>, off: nat, len: nat) returns (nb: int)
      requires off + len <= buff.Length && len > 0
      modifies this`inbox, this`later, buff
      ensures if old(inbox) == [] then nb == -1 || nb == 0 else 0 < nb <= len
      ensures nb > 0 ==> Delivered(old(buff[..]), off, old(inbox), nb, buff[..], inbox) && later == old(later)
      ensures nb <= 0 ==> buff[..] == old(buff[..]) && inbox + later == old(later)
    {
      if inbox == [] {
        var end, again: nat := *, *;
        inbox, later := later[..AtMost(again, |later|)], later[AtMost(again, |later|)..];
        nb := if end == 0 then 0 else -1;
      } else {
        var some: nat := *;
        nb := 1 + AtMost(some, AtMost(len, |inbox|) - 1);
        forall i | 0 <= i < nb {
          buff[off + i] := inbox[i];
        }
        inbox := inbox[nb..];
      }
    }

    /** send: -1 for a failure, or how many of the bytes offered it has taken. */
    method Send(data: seq<byte>) returns (sent: int)
      requires data != []
      modifies this`outbox, this`room
      ensures if old(room) == 0 then sent == -1 else 0 < sent <= |data|
      ensures sent == -1 ==> outbox == old(outbox)
      ensures sent > 0 ==> outbox == old(outbox) + data[..sent] && room == old(room) - sent
    {
      if room == 0 {
        room := *;
        sent := -1;
      } else {
        var some: nat := *;
        sent := 1 + AtMost(some, AtMost(|data|, room) - 1);
        outbox := outbox + data[..sent];
        room := room - sent;
      }
    }
  }

  // What a socket with this much room takes of the bytes.
  function Taken(bytes: seq<byte>, room: nat): seq<byte> {
    bytes[..AtMost(|bytes|, room)]
  }

  /** peer_send_buff: however send splits the bytes, it succeeds exactly when
      there is room for all of them, and has sent as many as there was room for. */
  method PeerSendBuff(conn: Connection, buff: seq<byte>) returns (ok: bool)
    modifies conn`outbox, conn`room
    ensures ok <==> |buff| <= old(conn.room)
    ensures ok ==> conn.outbox == old(conn.outbox) + buff && conn.room == old(conn.room) - |buff|
    ensures !ok ==> conn.outbox == old(conn.outbox) + buff[..old(conn.room)]
    ensures conn.outbox == old(conn.outbox) + Taken(buff, old(conn.room))
  {
    var total := 0;
    ghost var room := conn.room;
    while total < |buff|
      invariant 0 <= total <= |buff| && total <= room && conn.room == room - total
      invariant conn.outbox == old(conn.outbox) + buff[..total]
    {
      var sent := conn.Send(buff[total..]);
      if sent == -1 {
        return false;
      }
      assert buff[..total + sent] == buff[..total] + buff[total..][..sent];
      total := total + sent;
    }
    return true;
  }

  /** peer_recv_buff: however recv splits the bytes, it succeeds exactly when the
      stream has len bytes before the next failure, and has filled the buffer
      with as many as there were. */
  method PeerRecvBuff(conn: Connection, buff: array<byte>, off: nat, len: nat) returns (ok: bool)
    requires off + len <= buff.Length
    modifies conn`inbox, conn`later, buff
    ensures ok <==> 0 < len <= |old(conn.inbox)|
    ensures ok ==> buff[off..off + len] == old(conn.inbox)[..len] && conn.inbox == old(conn.inbox)[len..]
    ensures buff[..off] == old(buff[..off]) && buff[off + len..] == old(buff[off + len..])
    ensures var got := AtMost(len, |old(conn.inbox)|);
            && Delivered(old(buff[..]), off, old(conn.inbox), got, buff[..], old(conn.inbox)[got..])
            && (ok || len == 0 ==> conn.inbox == old(conn.inbox)[got..] && conn.later == old(conn.later))
    ensures !ok && len > 0 ==> conn.inbox + conn.later == old(conn.later)
  {
    var total := 0;
    if len == 0 {
      return false;
    }
    ghost var stream, before := conn.inbox, buff[..];
    while true
      invariant 0 <= total < len && total <= |stream|
      invariant Delivered(before, off, stream, total, buff[..], conn.inbox)
      invariant conn.later == old(conn.later)
      decreases len - total
    {
      ghost var mid, inbox := buff[..], conn.inbox;
      var nb := conn.Recv(buff, off + total, len - total);
      if nb == -1 {
        return false;
      }
      if nb > 0 {
        DeliveredMore(before, off, stream, total, mid, inbox, nb, buff[..], conn.inbox);
      }
      total := total + nb;
      if !(nb > 0 && total < len) {
        break;
      }
    }
    return total == len;
  }

  ghost predicate Suffix(s: seq<byte>, whole: seq<byte>) {
    |s| <= |whole| && s == whole[|whole| - |s|..]
  }

  lemma SuffixTransitive(a: seq<byte>, b: seq<byte>, c: seq<byte>)
    requires Suffix(a, b) && Suffix(b, c)
    ensures Suffix(a, c)
  {
    SliceOfSlice(c, |c| - |b|, |c|, |b| - |a|, |b|);
  }

  /** After n bytes have been asked of a socket that had stream and later: they
      have been taken off the stream, or else it has failed on the way. */
  ghost predicate Took(n: nat, stream: seq<byte>, later: seq<byte>, inbox': seq<byte>, later': seq<byte>) {
    if n <= |stream| then inbox' == stream[n..] && later' == later
    else Suffix(inbox' + later', later)
  }

  lemma TookSuffix(n: nat, stream: seq<byte>, later: seq<byte>, inbox': seq<byte>, later': seq<byte>)
    requires Took(n, stream, later, inbox', later')
    ensures Suffix(inbox' + later', stream + later)
  {
    if n <= |stream| {
      assert stream + later == stream[..n] + (inbox' + later');
    }
  }

  lemma TookMore(a: nat, b: nat, stream: seq<byte>, later: seq<byte>, inbox': seq<byte>, later': seq<byte>,
                 inbox'': seq<byte>, later'': seq<byte>)
    requires Took(a, stream, later, inbox', later') && Took(b, inbox', later', inbox'', later'')
    ensures Took(a + b, stream, later, inbox'', later'')
  {
    if a > |stream| {
      TookSuffix(b, inbox', later', inbox'', later'');
      SuffixTransitive(inbox'' + later'', inbox' + later', later);
    } else if b <= |inbox'| {
      assert stream[a..][b..] == stream[a + b..];
    }
  }
}
