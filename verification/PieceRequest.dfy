/** src/piece_request.cpp: cutting a piece into blocks, and the blocks into
    segments of files. */
module PieceRequest {
  import opened Bytes
  import opened FileLayout

  const PEER_REQUEST_SIZE: nat := 16384

  datatype Block = Block(segments: seq<Segment>, begin: nat, len: nat, completed: bool)

  function Min(a: int, b: int): int { if a < b then a else b }

  // The place in the whole where the walk for a piece starts: an unsigned
  // 32-bit product.
  function RequestStart(pieceLength: nat, index: nat): nat {
    pieceLength * index % TWO32
  }

  // Where the walk ends.  A block is never capped by what is left of the
  // piece, so when the piece length is not a multiple of the block size the
  // walk misses the end of the piece and runs on to the end of the files.
  function RequestEnd(total: nat, pieceLength: nat, index: nat): (end: nat)
    ensures RequestStart(pieceLength, index) <= end
  {
    var start := RequestStart(pieceLength, index);
    if start >= total then start
    else if pieceLength % PEER_REQUEST_SIZE == 0 then Min(start + pieceLength, total)
    else total
  }

  function BlockCount(bytes: nat): nat {
    (bytes + PEER_REQUEST_SIZE - 1) / PEER_REQUEST_SIZE
  }

  // Block k of a walk over bytes from..to.
  ghost predicate IsBlock(sizes: seq<nat>, b: Block, from: nat, to: nat, k: nat) {
    && b.begin == PEER_REQUEST_SIZE * k
    && b.len == Min(PEER_REQUEST_SIZE, to - (from + b.begin))
    && b.len > 0
    && Covers(sizes, b.segments, from + b.begin, from + b.begin + b.len)
  }

  /** The blocks cut bytes from..to of the whole into pieces of the block size,
      the last of which may be shorter. */
  ghost predicate AreBlocks(sizes: seq<nat>, blocks: seq<Block>, from: nat, to: nat) {
    && from <= to && (from < to ==> to <= Total(sizes))
    && |blocks| == BlockCount(to - from)
    && forall k | 0 <= k < |blocks| :: IsBlock(sizes, blocks[k], from, to, k)
  }

  // Where block k of a walk over from..to ends.
  function BlockEnd(from: nat, to: nat, k: nat): int {
    Min(from + PEER_REQUEST_SIZE * (k + 1), to)
  }

  lemma BlockCovers(sizes: seq<nat>, blocks: seq<Block>, from: nat, to: nat, k: nat)
    requires AreBlocks(sizes, blocks, from, to) && k < |blocks|
    ensures blocks[k].begin == PEER_REQUEST_SIZE * k
    ensures var start, end := from + PEER_REQUEST_SIZE * k, BlockEnd(from, to, k);
            && start < end <= to <= Total(sizes) && end - start <= PEER_REQUEST_SIZE
            && blocks[k].len == end - start
            && Covers(sizes, blocks[k].segments, start, end)
  {
    assert IsBlock(sizes, blocks[k], from, to, k);
  }

  // A request starts with blocks none of which has arrived.
  ghost predicate FreshBlocks(sizes: seq<nat>, blocks: seq<Block>, from: nat, to: nat) {
    forall k | 0 <= k < |blocks| :: IsBlock(sizes, blocks[k], from, to, k) && !blocks[k].completed
  }

  lemma FreshBlocksAppend(sizes: seq<nat>, blocks: seq<Block>, b: Block, from: nat, to: nat)
    requires FreshBlocks(sizes, blocks, from, to)
    requires IsBlock(sizes, b, from, to, |blocks|) && !b.completed
    ensures FreshBlocks(sizes, blocks + [b], from, to)
  {}

  // The cursor of the walk is at place pos of the whole.
  ghost predicate At(sizes: seq<nat>, file: nat, offset: nat, pos: nat) {
    && file <= |sizes|
    && (if file < |sizes| then offset < sizes[file] else offset == 0)
    && pos == Start(sizes, file) + offset
  }

  lemma AtEnd(sizes: seq<nat>, file: nat, offset: nat, pos: nat)
    requires At(sizes, file, offset, pos)
    ensures pos <= Total(sizes) && (pos == Total(sizes) <==> file == |sizes|)
  {
    if file < |sizes| {
      StartMonotone(sizes, file + 1, |sizes|);
    }
  }

  method SkipUntilIndex(sizes: seq<nat>, pieceLength: nat, index: nat)
    returns (offset: nat, file: nat)
    requires Mapped(sizes)
    ensures At(sizes, file, offset, Min(RequestStart(pieceLength, index), Total(sizes)))
  {
    offset, file := 0, 0;
    var skip := pieceLength * index % TWO32;
    var i := 0;
    while i < |sizes| && skip > 0
      invariant i == file <= |sizes| && offset == 0 && skip >= 0
      invariant Start(sizes, i) + skip == RequestStart(pieceLength, index)
    {
      if sizes[i] > skip {
        offset, file := skip, i;
        AtEnd(sizes, file, offset, Start(sizes, i) + skip);
        return;
      }
      skip := skip - sizes[i];
      file := file + 1;
      i := i + 1;
    }
    StartMonotone(sizes, i, |sizes|);
  }

  lemma SubtractTwice(a: nat, x: nat, y: nat)
    ensures ((a - x) % TWO64 - y) % TWO64 == (a - (x + y)) % TWO64
  {
    var q := (a - x) / TWO64;
    assert a - x == q * TWO64 + (a - x) % TWO64;
    ModShift((a - x) % TWO64 - y, q);
  }

  lemma ModShift(n: int, q: int)
    ensures (n + q * TWO64) % TWO64 == n % TWO64
  {
    assert n + q * TWO64 == (n / TWO64 + q) * TWO64 + n % TWO64;
  }

  method NextBlockRequest(sizes: seq<nat>, offset0: nat, left0: nat, pieceLength: nat, file0: nat, ghost pos: nat)
    returns (block: Option<Block>, offset: nat, left: nat, file: nat)
    requires Mapped(sizes) && At(sizes, file0, offset0, pos) && left0 < TWO64
    ensures block.None? <==> left0 == 0 || pos == Total(sizes)
    ensures block.Some? ==>
              var b := block.value;
              && b.begin == (pieceLength - left0) % TWO64 && !b.completed
              && b.len == Min(PEER_REQUEST_SIZE, Total(sizes) - pos)
              && Covers(sizes, b.segments, pos, pos + b.len)
              && At(sizes, file, offset, pos + b.len)
              && left == (left0 - b.len) % TWO64
  {
    offset, left, file := offset0, left0, file0;
    AtEnd(sizes, file0, offset0, pos);
    if left == 0 || file >= |sizes| {
      return None, offset, left, file;
    }
    var begin := (pieceLength - left) % TWO64;
    var segments := [];
    var current := 0;
    var i := file;
    while i < |sizes| && current < PEER_REQUEST_SIZE
      invariant 0 <= current <= PEER_REQUEST_SIZE && At(sizes, file, offset, pos + current)
      invariant current < PEER_REQUEST_SIZE ==> i == file
      invariant Covers(sizes, segments, pos, pos + current)
      invariant left == (left0 - current) % TWO64
      invariant pos + current <= Total(sizes)
      decreases |sizes| - i
    {
      var segment := Segment(i, offset, sizes[i] - offset);
      if segment.length > PEER_REQUEST_SIZE - current {
        segment := segment.(length := PEER_REQUEST_SIZE - current);
        offset := offset + segment.length;
      } else {
        offset := 0;
        file := file + 1;
      }
      SubtractTwice(left0, current, segment.length);
      left := (left - segment.length) % TWO64;
      CoversAppend(sizes, segments, pos, pos + current, segment);
      segments := segments + [segment];
      current := current + segment.length;
      AtEnd(sizes, file, offset, pos + current);
      i := i + 1;
    }
    AtEnd(sizes, file, offset, pos + current);
    block := Some(Block(segments, begin, current, false));
  }

  // How far k blocks have come.
  ghost predicate Walked(total: nat, from: nat, to: nat, covered: nat, k: nat) {
    && covered <= to - from
    && BlockCount(covered) == k
    && (covered % PEER_REQUEST_SIZE == 0 || from + covered == total)
  }

  lemma Wrap(d: int, m: nat, q: int)
    requires d == q * TWO64 + m && m < TWO64
    ensures d % TWO64 == m
  {}

  // The size_t left still tells how much is covered after it has wrapped.
  lemma LeftTells(pieceLength: nat, covered: nat, len: nat)
    requires pieceLength < TWO32 && covered + len < TWO63
    ensures var left := (pieceLength - covered) % TWO64;
            && (left == 0 <==> covered == pieceLength)
            && (pieceLength - left) % TWO64 == covered
            && (left - len) % TWO64 == (pieceLength - (covered + len)) % TWO64
  {
    var d := pieceLength - covered;
    var left := if d >= 0 then d else d + TWO64;
    var e := pieceLength - (covered + len);
    var next := if e >= 0 then e else e + TWO64;
    Wrap(d, left, if d >= 0 then 0 else -1);
    Wrap(pieceLength - left, covered, if d >= 0 then 0 else -1);
    Wrap(e, next, if e >= 0 then 0 else -1);
    Wrap(left - len, next, if d >= 0 && e < 0 then -1 else 0);
  }

  lemma NextCount(covered: nat, len: nat)
    requires covered % PEER_REQUEST_SIZE == 0 && 0 < len <= PEER_REQUEST_SIZE
    ensures covered == PEER_REQUEST_SIZE * BlockCount(covered)
    ensures BlockCount(covered + len) == BlockCount(covered) + 1
    ensures len == PEER_REQUEST_SIZE ==> (covered + len) % PEER_REQUEST_SIZE == 0
  {}

  // A walk that has not come to its end has a whole block left, or all of
  // what the files hold.
  lemma WalkRest(total: nat, pieceLength: nat, index: nat, covered: nat, k: nat)
    requires pieceLength < TWO32
    requires var from, to := RequestStart(pieceLength, index), RequestEnd(total, pieceLength, index);
             Walked(total, from, to, covered, k) && from + covered < total
    ensures var from, to := RequestStart(pieceLength, index), RequestEnd(total, pieceLength, index);
            && (covered == pieceLength ==> from + covered == to)
            && (covered != pieceLength ==>
                  Min(PEER_REQUEST_SIZE, total - (from + covered)) == Min(PEER_REQUEST_SIZE, to - (from + covered)) > 0)
  {
    var from := RequestStart(pieceLength, index);
    if pieceLength % PEER_REQUEST_SIZE == 0 && from + pieceLength < total && covered != pieceLength {
      assert covered < pieceLength && (pieceLength - covered) % PEER_REQUEST_SIZE == 0;
    }
  }

  // The left that next_block_request gets tells whether the walk is over and
  // what the next block is, even after it has wrapped around.
  lemma WalkStep(total: nat, pieceLength: nat, index: nat, covered: nat, k: nat)
    requires total < TWO63 && pieceLength < TWO32
    requires var from, to := RequestStart(pieceLength, index), RequestEnd(total, pieceLength, index);
             Walked(total, from, to, covered, k)
    ensures var from, to := RequestStart(pieceLength, index), RequestEnd(total, pieceLength, index);
            var left := (pieceLength - covered) % TWO64;
            if left == 0 || Min(from, total) + covered == total then
              from + covered == to
            else
              var len := Min(PEER_REQUEST_SIZE, total - (from + covered));
              && (pieceLength - left) % TWO64 == PEER_REQUEST_SIZE * k == covered
              && len == Min(PEER_REQUEST_SIZE, to - (from + covered)) && len > 0
              && Walked(total, from, to, covered + len, k + 1)
              && (left - len) % TWO64 == (pieceLength - (covered + len)) % TWO64
  {
    var from, to := RequestStart(pieceLength, index), RequestEnd(total, pieceLength, index);
    if from + covered < total {
      var len := Min(PEER_REQUEST_SIZE, total - (from + covered));
      WalkRest(total, pieceLength, index, covered, k);
      LeftTells(pieceLength, covered, len);
      NextCount(covered, len);
    }
  }

  class Request {
    var pieceIndex: nat
    var blockRequests: seq<Block>
    var blocksLeft: nat

    constructor ()
      ensures blockRequests == []
    {
      pieceIndex, blockRequests, blocksLeft := 0, [], 0;
    }
  }

  /** What the fields of a request hold when it was created for a piece. */
  ghost predicate Created(sizes: seq<nat>, pieceLength: nat, index: nat, request: Request)
    reads request
  {
    && request.pieceIndex == index
    && (var from, to := RequestStart(pieceLength, index), RequestEnd(Total(sizes), pieceLength, index);
        && AreBlocks(sizes, request.blockRequests, from, to)
        && FreshBlocks(sizes, request.blockRequests, from, to))
    && request.blocksLeft == |request.blockRequests|
  }

  // One call of next_block_request, k blocks into the walk.
  method NextOfWalk(sizes: seq<nat>, offset0: nat, left0: nat, pieceLength: nat, file0: nat,
                    ghost index: nat, ghost covered: nat, ghost k: nat)
    returns (block: Option<Block>, offset: nat, left: nat, file: nat)
    requires Mapped(sizes) && pieceLength < TWO32 && left0 == (pieceLength - covered) % TWO64
    requires At(sizes, file0, offset0, Min(RequestStart(pieceLength, index), Total(sizes)) + covered)
    requires Walked(Total(sizes), RequestStart(pieceLength, index),
                    RequestEnd(Total(sizes), pieceLength, index), covered, k)
    ensures var from, to := RequestStart(pieceLength, index), RequestEnd(Total(sizes), pieceLength, index);
            match block
            case None => from + covered == to
            case Some(b) =>
              && IsBlock(sizes, b, from, to, k) && !b.completed && b.len > 0
              && Walked(Total(sizes), from, to, covered + b.len, k + 1)
              && At(sizes, file, offset, Min(from, Total(sizes)) + (covered + b.len))
              && left == (pieceLength - (covered + b.len)) % TWO64
  {
    ghost var pos := Min(RequestStart(pieceLength, index), Total(sizes)) + covered;
    AtEnd(sizes, file0, offset0, pos);
    WalkStep(Total(sizes), pieceLength, index, covered, k);
    block, offset, left, file := NextBlockRequest(sizes, offset0, left0, pieceLength, file0, pos);
    assert block.Some? ==>
        pos + block.value.len == Min(RequestStart(pieceLength, index), Total(sizes)) + (covered + block.value.len);
  }

  method PieceRequestCreate(sizes: seq<nat>, pieceLength: nat, index: nat, out: Request)
    requires Mapped(sizes) && pieceLength < TWO32 && out.blockRequests == []
    modifies out
    ensures Created(sizes, pieceLength, index, out)
  {
    var offset, file := SkipUntilIndex(sizes, pieceLength, index);
    out.pieceIndex := index;
    ghost var total := Total(sizes);
    ghost var from, to := RequestStart(pieceLength, index), RequestEnd(total, pieceLength, index);
    ghost var covered := 0;
    var left := pieceLength;
    while true
      invariant out.pieceIndex == index && left == (pieceLength - covered) % TWO64
      invariant At(sizes, file, offset, Min(from, total) + covered)
      invariant Walked(total, from, to, covered, |out.blockRequests|)
      invariant FreshBlocks(sizes, out.blockRequests, from, to)
      decreases total - covered
    {
      var block;
      block, offset, left, file :=
        NextOfWalk(sizes, offset, left, pieceLength, file, index, covered, |out.blockRequests|);
      if block.None? {
        break;
      }
      FreshBlocksAppend(sizes, out.blockRequests, block.value, from, to);
      out.blockRequests := out.blockRequests + [block.value];
      covered := covered + block.value.len;
    }
    out.blocksLeft := |out.blockRequests|;
  }

  /** piece_request_block_at: the first block that begins at offset. */
  method PieceRequestBlockAt(blocks: seq<Block>, offset: nat) returns (at: Option<nat>)
    ensures at.Some? ==> at.value < |blocks| && blocks[at.value].begin == offset
                         && forall j | 0 <= j < at.value :: blocks[j].begin != offset
    ensures at.None? ==> forall j | 0 <= j < |blocks| :: blocks[j].begin != offset
  {
    for i := 0 to |blocks|
      invariant forall j | 0 <= j < i :: blocks[j].begin != offset
    {
      if blocks[i].begin == offset {
        return Some(i);
      }
    }
    return None;
  }
}
