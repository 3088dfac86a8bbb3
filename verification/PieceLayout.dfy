/** What the requests for the pieces of a torrent cover, taken together. */
module PieceLayout {
  import opened Bytes
  import opened FileLayout
  import opened PieceRequest

  // Byte range of piece i in the whole.
  function PieceStart(pieceLength: nat, i: nat): nat { pieceLength * i }

  function PieceEnd(total: nat, pieceLength: nat, i: nat): int {
    Min(pieceLength * (i + 1), total)
  }

  /** The request for a piece that exists covers that piece exactly when the
      32-bit product does not wrap and the piece length is a multiple of the
      block size, or else the piece is the last one. */
  lemma RequestIsPieceIff(total: nat, pieceLength: nat, index: nat)
    requires pieceLength < TWO32 && PieceStart(pieceLength, index) < total
    ensures (&& RequestStart(pieceLength, index) == PieceStart(pieceLength, index)
             && RequestEnd(total, pieceLength, index) == PieceEnd(total, pieceLength, index))
       <==> (&& PieceStart(pieceLength, index) < TWO32
             && (pieceLength % PEER_REQUEST_SIZE == 0 || total <= PieceStart(pieceLength, index + 1)))
  {
    var start := PieceStart(pieceLength, index);
    assert PieceStart(pieceLength, index + 1) == start + pieceLength;
    assert RequestStart(pieceLength, index) == start <==> start < TWO32;
  }

  // A torrent of pieces of 10000 bytes: the request for piece 0 runs over
  // into piece 1.
  lemma ShortPieceOverruns()
    ensures RequestStart(10000, 0) == PieceStart(10000, 0) == 0
    ensures PieceEnd(20000, 10000, 0) == 10000
    ensures RequestEnd(20000, 10000, 0) == 20000
  {}

  // Piece 262144 of a torrent of more than 2^32 bytes is looked for at its start.
  lemma LargeTorrentWraps()
    ensures PieceStart(16384, 262144) == TWO32
    ensures RequestStart(16384, 262144) == 0
  {}

  function PieceCount(total: nat, pieceLength: nat): nat
    requires pieceLength > 0
  {
    (total + pieceLength - 1) / pieceLength
  }

  /** A torrent that the client can walk: its piece length is a multiple of the
      block size and its pieces start below 2^32. */
  ghost predicate WellCut(sizes: seq<nat>, pieceLength: nat, pieces: nat) {
    && Mapped(sizes)
    && 0 < pieceLength < TWO32 && pieceLength % PEER_REQUEST_SIZE == 0
    && pieces == PieceCount(Total(sizes), pieceLength)
    && (forall i | 0 <= i < pieces :: PieceStart(pieceLength, i) < TWO32)
  }

  lemma DivBounds(n: nat, d: nat, q: nat)
    requires d > 0
    ensures q == n / d <==> d * q <= n < d * (q + 1)
  {
    var r := n / d;
    assert n == d * r + n % d;
    if q < r {
      assert d * (q + 1) <= d * r;
    } else if q > r {
      assert d * q >= d * (r + 1);
    }
  }

  // Which pieces exist.
  lemma PieceExists(total: nat, pieceLength: nat, i: nat)
    requires pieceLength > 0
    ensures i < PieceCount(total, pieceLength) <==> PieceStart(pieceLength, i) < total
  {
    var n := PieceCount(total, pieceLength);
    DivBounds(total + pieceLength - 1, pieceLength, n);
    if i < n {
      assert pieceLength * (i + 1) <= pieceLength * n;
      assert pieceLength * (i + 1) == pieceLength * i + pieceLength;
    } else {
      assert pieceLength * n <= pieceLength * i;
      assert pieceLength * (n + 1) == pieceLength * n + pieceLength;
    }
  }

  lemma WellCutRequest(sizes: seq<nat>, pieceLength: nat, pieces: nat, i: nat)
    requires WellCut(sizes, pieceLength, pieces) && i < pieces
    ensures PieceStart(pieceLength, i) < PieceEnd(Total(sizes), pieceLength, i) <= Total(sizes)
    ensures RequestStart(pieceLength, i) == PieceStart(pieceLength, i)
    ensures RequestEnd(Total(sizes), pieceLength, i) == PieceEnd(Total(sizes), pieceLength, i)
  {
    PieceExists(Total(sizes), pieceLength, i);
    RequestIsPieceIff(Total(sizes), pieceLength, i);
    assert pieceLength * (i + 1) == pieceLength * i + pieceLength;
  }

  // The byte ranges of different pieces are disjoint.
  lemma PiecesDisjoint(total: nat, pieceLength: nat, i: nat, j: nat)
    requires i < j
    ensures PieceEnd(total, pieceLength, i) <= PieceStart(pieceLength, j)
  {
    assert pieceLength * (i + 1) <= pieceLength * j;
  }

  ghost predicate HoldsByte(b: Block, f: nat, o: nat) {
    exists s :: s in b.segments && Within(s, f, o)
  }

  /** The block list of the request for every piece. */
  ghost predicate AllRequests(sizes: seq<nat>, pieceLength: nat, requests: seq<seq<Block>>) {
    forall i | 0 <= i < |requests| ::
      AreBlocks(sizes, requests[i], RequestStart(pieceLength, i), RequestEnd(Total(sizes), pieceLength, i))
  }

  // A block of a walk over from..to holds the bytes of its own range.
  lemma BlockHolds(sizes: seq<nat>, blocks: seq<Block>, from: nat, to: nat, k: nat, f: nat, o: nat)
    requires AreBlocks(sizes, blocks, from, to) && k < |blocks|
    requires f < |sizes| && o < sizes[f]
    ensures var place := Start(sizes, f) + o;
            HoldsByte(blocks[k], f, o) <==>
              from + PEER_REQUEST_SIZE * k <= place < Min(from + PEER_REQUEST_SIZE * (k + 1), to)
  {
    var b := blocks[k];
    assert IsBlock(sizes, b, from, to, k);
    CoversExactly(sizes, b.segments, from + b.begin, from + b.begin + b.len, f, o);
  }

  // The blocks of a walk over from..to share no byte and leave none out.
  lemma WalkPartition(sizes: seq<nat>, blocks: seq<Block>, from: nat, to: nat, f: nat, o: nat)
    requires AreBlocks(sizes, blocks, from, to) && from < to
    requires f < |sizes| && o < sizes[f]
    ensures from <= Start(sizes, f) + o < to <==> exists k :: 0 <= k < |blocks| && HoldsByte(blocks[k], f, o)
    ensures forall k, k' | 0 <= k < |blocks| && 0 <= k' < |blocks| ::
              HoldsByte(blocks[k], f, o) && HoldsByte(blocks[k'], f, o) ==> k == k'
  {
    var place := Start(sizes, f) + o;
    var block := (place - from) / PEER_REQUEST_SIZE;
    forall k | 0 <= k < |blocks|
      ensures HoldsByte(blocks[k], f, o) <==> from <= place < to && k == block
    {
      BlockHolds(sizes, blocks, from, to, k, f, o);
    }
    if from <= place < to {
      assert block < |blocks|;
      assert HoldsByte(blocks[block], f, o);
    }
  }

  /** Partition: every byte of every file lies in exactly one block of the
      request of exactly one piece. */
  lemma Partition(sizes: seq<nat>, pieceLength: nat, requests: seq<seq<Block>>, f: nat, o: nat)
    requires WellCut(sizes, pieceLength, |requests|) && AllRequests(sizes, pieceLength, requests)
    requires f < |sizes| && o < sizes[f]
    ensures exists i, k :: 0 <= i < |requests| && 0 <= k < |requests[i]| && HoldsByte(requests[i][k], f, o)
    ensures forall i, k, i', k' | 0 <= i < |requests| && 0 <= k < |requests[i]|
                               && 0 <= i' < |requests| && 0 <= k' < |requests[i']| ::
              HoldsByte(requests[i][k], f, o) && HoldsByte(requests[i'][k'], f, o) ==> i == i' && k == k'
  {
    var place := Start(sizes, f) + o;
    StartMonotone(sizes, f + 1, |sizes|);
    var piece := PieceOf(Total(sizes), pieceLength, place);
    forall i | 0 <= i < |requests|
      ensures (exists k :: 0 <= k < |requests[i]| && HoldsByte(requests[i][k], f, o)) <==> i == piece
      ensures forall k, k' | 0 <= k < |requests[i]| && 0 <= k' < |requests[i]| ::
                HoldsByte(requests[i][k], f, o) && HoldsByte(requests[i][k'], f, o) ==> k == k'
    {
      WellCutRequest(sizes, pieceLength, |requests|, i);
      PieceHolds(Total(sizes), pieceLength, place, piece, i);
      WalkPartition(sizes, requests[i], RequestStart(pieceLength, i),
                    RequestEnd(Total(sizes), pieceLength, i), f, o);
    }
    var block :| 0 <= block < |requests[piece]| && HoldsByte(requests[piece][block], f, o);
  }

  // The piece a place falls in.
  lemma PieceOf(total: nat, pieceLength: nat, place: nat) returns (i: nat)
    requires pieceLength > 0 && place < total
    ensures i < PieceCount(total, pieceLength)
    ensures PieceStart(pieceLength, i) <= place < PieceEnd(total, pieceLength, i)
  {
    i := place / pieceLength;
    DivBounds(place, pieceLength, i);
    PieceExists(total, pieceLength, i);
  }

  lemma PieceHolds(total: nat, pieceLength: nat, place: nat, piece: nat, i: nat)
    requires PieceStart(pieceLength, piece) <= place < PieceEnd(total, pieceLength, piece)
    ensures PieceStart(pieceLength, i) <= place < PieceEnd(total, pieceLength, i) <==> i == piece
  {
    if i < piece {
      PiecesDisjoint(total, pieceLength, i, piece);
    } else if i > piece {
      PiecesDisjoint(total, pieceLength, piece, i);
    }
  }

  // A block begins at offset exactly when offset is a multiple of the block
  // size inside the piece, and then only one does.
  lemma BlockBegins(sizes: seq<nat>, blocks: seq<Block>, from: nat, to: nat, k: nat, offset: nat)
    requires AreBlocks(sizes, blocks, from, to) && k < |blocks|
    ensures blocks[k].begin == offset <==> offset == PEER_REQUEST_SIZE * k
  {
    assert IsBlock(sizes, blocks[k], from, to, k);
  }
}
