/** src/torrent_info.cpp: the shared state of a download. */
module Torrent {
  import opened Bytes
  import opened FileLayout
  import opened PieceRequest
  import opened DownloadMachine
  import Sha1Spec
  import Sha1Stream

  ghost function ContentsOf(files: seq<array<byte>>): (contents: seq<seq<byte>>)
    reads files
    ensures |contents| == |files|
    ensures forall f | 0 <= f < |files| :: contents[f] == files[f][..]
  {
    if |files| == 0 then [] else ContentsOf(files[..|files| - 1]) + [files[|files| - 1][..]]
  }

  function Range(image: seq<byte>, from: nat, to: nat): seq<byte> {
    if from < to <= |image| then image[from..to] else []
  }

  // What the request for a piece covers.
  function RequestBytes(image: seq<byte>, pieceLength: nat, index: nat): seq<byte> {
    Range(image, RequestStart(pieceLength, index), RequestEnd(|image|, pieceLength, index))
  }

  /** create_pieces_vector: the advertised hashes, 20 bytes each.  A string of
      another length fails an assertion, and an empty one throws. */
  method CreatePiecesVector(hashes: seq<byte>) returns (pieces: Option<seq<seq<byte>>>)
    ensures pieces.None? <==> |hashes| % 20 != 0 || |hashes| == 0
    ensures pieces.Some? ==>
              && |pieces.value| == |hashes| / 20
              && forall i | 0 <= i < |pieces.value| :: pieces.value[i] == hashes[20 * i..20 * i + 20]
  {
    if |hashes| % 20 != 0 {
      return None;
    }
    var list: seq<seq<byte>> := [];
    var i := 0;
    while i < |hashes|
      invariant i == 20 * |list| <= |hashes|
      invariant forall k | 0 <= k < |list| :: list[k] == hashes[20 * k..20 * k + 20]
    {
      list := list + [hashes[i..i + 20]];
      i := i + 20;
    }
    if |list| == 0 {
      return None;
    }
    return Some(list);
  }

  method DigestMatches(context: Sha1Stream.Context, hash: seq<byte>, ghost bytes: seq<byte>) returns (valid: bool)
    requires context.Valid() && context.message == bytes
    modifies context, context.state, context.buffer
    ensures valid <==> Sha1Spec.Sha1(bytes) == hash
  {
    var digest := new byte[20];
    context.Finish(digest);
    valid := digest[..] == hash;
  }

  class TorrentInfo {
    const pieceLength: nat
    // The mapped files, and the size of each.
    const files: seq<array<byte>>
    const sizes: seq<nat>
    // The advertised hash of each piece.
    const pieces: seq<seq<byte>>
    var piecesState: seq<PieceState>
    var piecesLeft: nat
    var completed: bool

    constructor (pieceLength: nat, files: seq<array<byte>>, pieces: seq<seq<byte>>)
      ensures this.pieceLength == pieceLength && this.files == files && this.pieces == pieces
      ensures |sizes| == |files| && forall f | 0 <= f < |files| :: sizes[f] == files[f].Length
      ensures piecesState == seq(|pieces|, _ => NotRequested)
      ensures piecesLeft == |pieces| && !completed
    {
      this.pieceLength, this.files, this.pieces := pieceLength, files, pieces;
      sizes := seq(|files|, f requires 0 <= f < |files| => files[f].Length);
      piecesState := seq(|pieces|, _ => NotRequested);
      piecesLeft := |pieces|;
      completed := false;
    }

    ghost predicate Valid() {
      && Mapped(sizes) && pieceLength < TWO32
      && |sizes| == |files| && (forall f {:trigger files[f]} | 0 <= f < |files| :: sizes[f] == files[f].Length)
    }

    // The files were mapped one by one, each into memory of its own.
    ghost predicate Distinct() {
      forall f, g | 0 <= f < g < |files| :: files[f] != files[g]
    }

    // The bytes in each file.
    ghost predicate Holds(contents: seq<seq<byte>>)
      reads files
    {
      && |contents| == |files|
      && forall f {:trigger files[f]} {:trigger contents[f]} | 0 <= f < |files| :: files[f][..] == contents[f]
    }

    ghost function Contents(): (contents: seq<seq<byte>>)
      reads files
      ensures Holds(contents)
    {
      ContentsOf(files)
    }

    // All the bytes of the torrent.
    ghost function Image(): (image: seq<byte>)
      requires Valid()
      reads files
      ensures |image| == Total(sizes)
    {
      assert Sizes(Contents()) == sizes;
      Flat(Contents())
    }

    lemma ImageIs(contents: seq<seq<byte>>)
      requires Valid() && Holds(contents)
      ensures Image() == Flat(contents)
    {
      assert contents == Contents();
    }

    // The context has hashed these bytes, and the files are as they were.
    ghost predicate Hashed(context: Sha1Stream.Context, contents: seq<seq<byte>>, bytes: seq<byte>)
      reads files, context, context.state, context.buffer
    {
      && context.Valid() && context.buffer !in files && Holds(contents)
      && context.message == bytes
    }

    method HashSegment(context: Sha1Stream.Context, s: Segment, ghost contents: seq<seq<byte>>, ghost bytes: seq<byte>)
      requires Hashed(context, contents, bytes) && Inside(contents, s) && s.length <= PEER_REQUEST_SIZE
      modifies context, context.state, context.buffer
      ensures Hashed(context, contents, bytes + Piece(contents, s))
    {
      assert files[s.file][..][s.offset..s.offset + s.length] == files[s.file][s.offset..s.offset + s.length];
      context.Update(files[s.file], s.offset, s.length);
    }

    // The inner loop of torrent_sha1_verify.
    method HashSegments(context: Sha1Stream.Context, segments: seq<Segment>,
                        ghost contents: seq<seq<byte>>, ghost bytes: seq<byte>)
      requires Hashed(context, contents, bytes) && InFiles(contents, segments)
      requires forall k | 0 <= k < |segments| :: segments[k].length <= PEER_REQUEST_SIZE
      modifies context, context.state, context.buffer
      ensures Hashed(context, contents, bytes + GatherTo(contents, segments, |segments|))
    {
      assert bytes == bytes + GatherTo(contents, segments, 0);
      for j := 0 to |segments|
        invariant Hashed(context, contents, bytes + GatherTo(contents, segments, j))
      {
        ghost var sofar, piece := GatherTo(contents, segments, j), Piece(contents, segments[j]);
        HashSegment(context, segments[j], contents, bytes + sofar);
        ConcatAssoc(bytes, sofar, piece);
      }
    }

    // What a block adds to the bytes hashed so far.
    lemma BlockBytes(blocks: seq<Block>, contents: seq<seq<byte>>, from: nat, to: nat, k: nat)
      requires Valid() && Holds(contents) && AreBlocks(sizes, blocks, from, to) && k < |blocks|
      ensures var segments, start := blocks[k].segments, from + PEER_REQUEST_SIZE * k;
              && InFiles(contents, segments)
              && (forall j | 0 <= j < |segments| :: segments[j].length <= PEER_REQUEST_SIZE)
              && start < BlockEnd(from, to, k) <= to <= |Flat(contents)|
              && GatherTo(contents, segments, |segments|) == Flat(contents)[start..BlockEnd(from, to, k)]
    {
      var segments, start := blocks[k].segments, from + PEER_REQUEST_SIZE * k;
      assert Sizes(contents) == sizes;
      BlockCovers(sizes, blocks, from, to, k);
      GatherIsSlice(contents, segments, start, BlockEnd(from, to, k));
      forall j | 0 <= j < |segments|
        ensures segments[j].length <= PEER_REQUEST_SIZE
      {
        CoversAt(sizes, segments, start, BlockEnd(from, to, k), j);
      }
    }

    /** torrent_make_bitfield */
    method MakeBitfield() returns (out: seq<bool>)
      requires |piecesState| == |pieces|
      ensures |out| == |pieces| && forall i | 0 <= i < |pieces| :: out[i] <==> piecesState[i] == Have
    {
      out := seq(|pieces|, _ => false);
      for i := 0 to |pieces|
        invariant |out| == |pieces|
        invariant forall k | 0 <= k < |pieces| :: out[k] <==> k < i && piecesState[k] == Have
      {
        if piecesState[i] == Have {
          out := out[i := true];
        }
      }
    }

    /** torrent_next_request */
    method NextRequest(peerHave: seq<bool>) returns (picked: Option<nat>)
      requires |piecesState| == |pieces| == |peerHave|
      modifies this`piecesState
      ensures IsPick(old(piecesState), peerHave, picked)
      ensures piecesState == if picked.None? then old(piecesState) else old(piecesState)[picked.value := Requested]
    {
      var request, notRequest := 0, 0;
      var hasRequest, hasNotRequest := false, false;
      var i := 0;
      while i < |pieces|
        invariant i <= |pieces| && piecesState == old(piecesState) && !hasNotRequest
        invariant forall j | 0 <= j < i && peerHave[j] :: piecesState[j] != NotRequested
        invariant hasRequest ==> request < i && peerHave[request] && piecesState[request] == Requested
        invariant forall j | 0 <= j < i && peerHave[j] && piecesState[j] == Requested :: hasRequest && j <= request
      {
        if piecesState[i] == Requested && peerHave[i] {
          request := i;
          hasRequest := true;
        }
        if piecesState[i] == NotRequested && peerHave[i] {
          notRequest := i;
          hasNotRequest := true;
          break;
        }
        i := i + 1;
      }
      if !hasRequest && !hasNotRequest {
        return None;
      }
      var r := if hasNotRequest then notRequest else request;
      piecesState := piecesState[r := Requested];
      return Some(r);
    }

    /** handle_piece_dnld_completion, up to the HAVE message it sends. */
    method HandlePieceDnldCompletion(index: nat)
      requires index < |piecesState|
      requires piecesState[index] != Have ==> piecesLeft > 0
      modifies this`piecesState, this`piecesLeft, this`completed
      ensures piecesState == old(piecesState)[index := Have]
      ensures piecesLeft == old(piecesLeft) - if old(piecesState)[index] == Have then 0 else 1
      ensures completed == (old(completed) || (old(piecesState)[index] != Have && piecesLeft == 0))
    {
      if piecesState[index] != Have {
        piecesState := piecesState[index := Have];
        piecesLeft := piecesLeft - 1;
        if piecesLeft == 0 {
          completed := true;
        }
      }
    }

    method BlocksOf(index: nat) returns (blocks: seq<Block>)
      requires Valid()
      ensures AreBlocks(sizes, blocks, RequestStart(pieceLength, index), RequestEnd(Total(sizes), pieceLength, index))
    {
      var request := new Request();
      PieceRequestCreate(sizes, pieceLength, index, request);
      blocks := request.blockRequests;
    }

    // Hashes the bytes that the request for a piece covers.
    method HashRequest(context: Sha1Stream.Context, index: nat, ghost contents: seq<seq<byte>>)
      requires Valid() && Hashed(context, contents, [])
      modifies context, context.state, context.buffer
      ensures context.Valid() && context.message == RequestBytes(Flat(contents), pieceLength, index)
    {
      var blocks := BlocksOf(index);
      assert Sizes(contents) == sizes;
      ghost var total := |Flat(contents)|;
      HashBlocks(context, blocks, contents, RequestStart(pieceLength, index), RequestEnd(total, pieceLength, index));
    }

    // The hash of the request for a piece, when the files hold these bytes.
    method RequestMatches(index: nat, ghost contents: seq<seq<byte>>) returns (valid: bool)
      requires Valid() && Holds(contents) && index < |pieces|
      ensures valid <==> Sha1Spec.Sha1(RequestBytes(Flat(contents), pieceLength, index)) == pieces[index]
    {
      var context := new Sha1Stream.Context();
      HashRequest(context, index, contents);
      valid := DigestMatches(context, pieces[index], RequestBytes(Flat(contents), pieceLength, index));
    }

    /** torrent_sha1_verify: hashing the segments of the request one by one
        tells whether the bytes the request covers have the advertised hash. */
    method Sha1Verify(index: nat) returns (valid: bool)
      requires Valid() && index < |pieces|
      ensures valid <==> Sha1Spec.Sha1(RequestBytes(Image(), pieceLength, index)) == pieces[index]
    {
      ghost var contents := Contents();
      valid := RequestMatches(index, contents);
      ImageIs(contents);
    }

    // The outer loop of torrent_sha1_verify.
    method HashBlocks(context: Sha1Stream.Context, blocks: seq<Block>, ghost contents: seq<seq<byte>>,
                      ghost from: nat, ghost to: nat)
      requires Valid() && Hashed(context, contents, []) && AreBlocks(sizes, blocks, from, to)
      requires from < to ==> to <= |Flat(contents)|
      modifies context, context.state, context.buffer
      ensures Hashed(context, contents, Range(Flat(contents), from, to))
    {
      ghost var flat := Flat(contents);
      for k := 0 to |blocks|
        invariant Hashed(context, contents, FirstBlocks(flat, from, to, k))
      {
        BlockBytes(blocks, contents, from, to, k);
        FirstBlocksNext(flat, from, to, k);
        HashSegments(context, blocks[k].segments, contents, FirstBlocks(flat, from, to, k));
      }
    }
  }

  // The bytes of the first k blocks of a walk over from..to.
  function FirstBlocks(flat: seq<byte>, from: nat, to: nat, k: nat): seq<byte> {
    if k > 0 && from <= BlockEnd(from, to, k - 1) <= |flat| then flat[from..BlockEnd(from, to, k - 1)] else []
  }

  lemma FirstBlocksNext(flat: seq<byte>, from: nat, to: nat, k: nat)
    requires from + PEER_REQUEST_SIZE * k < to <= |flat|
    ensures FirstBlocks(flat, from, to, k) + flat[from + PEER_REQUEST_SIZE * k..BlockEnd(from, to, k)]
         == FirstBlocks(flat, from, to, k + 1)
  {
    SliceJoin(flat, from, from + PEER_REQUEST_SIZE * k, BlockEnd(from, to, k));
  }
}
