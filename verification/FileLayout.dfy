/** The files of a torrent seen as one run of bytes, and segments of them. */
module FileLayout {
  import opened Bytes

  // A file_mem: length bytes of a file, from an offset.
  datatype Segment = Segment(file: nat, offset: nat, length: nat)

  // Where file k starts in the concatenation of the files.
  function Start(sizes: seq<nat>, k: nat): nat
    requires k <= |sizes|
  {
    if k == 0 then 0 else Start(sizes, k - 1) + sizes[k - 1]
  }

  function Total(sizes: seq<nat>): nat {
    Start(sizes, |sizes|)
  }

  /** No file is empty, because mmap refuses an empty file, and the mapped
      files fit in the address space. */
  ghost predicate Mapped(sizes: seq<nat>) {
    && (forall f | 0 <= f < |sizes| :: sizes[f] > 0)
    && Total(sizes) < TWO63
  }

  // The segment lies in its file, at place p of the concatenated files.
  ghost predicate Placed(sizes: seq<nat>, s: Segment, p: nat) {
    && s.file < |sizes| && s.offset + s.length <= sizes[s.file]
    && p == Start(sizes, s.file) + s.offset
  }

  // How many bytes the first k segments hold.
  function LengthTo(segments: seq<Segment>, k: nat): nat
    requires k <= |segments|
  {
    if k == 0 then 0 else LengthTo(segments, k - 1) + segments[k - 1].length
  }

  /** The segments are, in order and without gap or overlap, bytes from..to of
      the concatenated files. */
  ghost predicate Covers(sizes: seq<nat>, segments: seq<Segment>, from: nat, to: nat) {
    && to == from + LengthTo(segments, |segments|)
    && forall k {:trigger PlacedAt(sizes, segments, from, k)} | 0 <= k < |segments| ::
         PlacedAt(sizes, segments, from, k)
  }

  // Segment k is where the segments before it end.
  ghost predicate PlacedAt(sizes: seq<nat>, segments: seq<Segment>, from: nat, k: nat)
    requires k < |segments|
  {
    Placed(sizes, segments[k], from + LengthTo(segments, k))
  }

  predicate Within(s: Segment, f: nat, o: nat) {
    s.file == f && s.offset <= o < s.offset + s.length
  }

  function Sizes(contents: seq<seq<byte>>): (sizes: seq<nat>)
    ensures |sizes| == |contents|
    ensures forall f | 0 <= f < |sizes| :: sizes[f] == |contents[f]|
  {
    seq(|contents|, f requires 0 <= f < |contents| => |contents[f]|)
  }

  // The first k files, concatenated.
  function FlatTo(contents: seq<seq<byte>>, k: nat): (flat: seq<byte>)
    requires k <= |contents|
    ensures |flat| == Start(Sizes(contents), k)
  {
    if k == 0 then [] else FlatTo(contents, k - 1) + contents[k - 1]
  }

  function Flat(contents: seq<seq<byte>>): seq<byte> {
    FlatTo(contents, |contents|)
  }

  ghost predicate InFiles(contents: seq<seq<byte>>, segments: seq<Segment>) {
    forall k | 0 <= k < |segments| :: Inside(contents, segments[k])
  }

  predicate Inside(contents: seq<seq<byte>>, s: Segment) {
    s.file < |contents| && s.offset + s.length <= |contents[s.file]|
  }

  function Piece(contents: seq<seq<byte>>, s: Segment): (bytes: seq<byte>)
    requires Inside(contents, s)
    ensures |bytes| == s.length
  {
    contents[s.file][s.offset..s.offset + s.length]
  }

  // The bytes of the first k segments, one after the other.
  ghost function GatherTo(contents: seq<seq<byte>>, segments: seq<Segment>, k: nat): seq<byte>
    requires k <= |segments| && InFiles(contents, segments)
  {
    if k == 0 then [] else GatherTo(contents, segments, k - 1) + Piece(contents, segments[k - 1])
  }

  lemma {:induction false} StartMonotone(sizes: seq<nat>, j: nat, k: nat)
    requires j <= k <= |sizes|
    ensures Start(sizes, j) <= Start(sizes, k)
    decreases k - j
  {
    if j < k {
      StartMonotone(sizes, j, k - 1);
    }
  }

  lemma {:induction false} FlatToPrefix(contents: seq<seq<byte>>, j: nat, k: nat)
    requires j <= k <= |contents|
    ensures FlatTo(contents, j) <= FlatTo(contents, k)
    decreases k - j
  {
    if j < k {
      FlatToPrefix(contents, j, k - 1);
    }
  }

  // A slice of a file is a slice of the whole.
  lemma FlatSlice(contents: seq<seq<byte>>, f: nat, o: nat, n: nat)
    requires f < |contents| && o + n <= |contents[f]|
    ensures var p := Start(Sizes(contents), f) + o;
            p + n <= |Flat(contents)| && Flat(contents)[p..p + n] == contents[f][o..o + n]
  {
    FlatToPrefix(contents, f + 1, |contents|);
    var before, file, flat := FlatTo(contents, f), contents[f], Flat(contents);
    assert FlatTo(contents, f + 1) == before + file;
    MiddleSlice(before, file, flat, o, n);
  }

  lemma MiddleSlice(before: seq<byte>, file: seq<byte>, flat: seq<byte>, o: nat, n: nat)
    requires before + file <= flat && o + n <= |file|
    ensures flat[|before| + o..|before| + o + n] == file[o..o + n]
  {
    var start := |before| + o;
    assert (before + file)[start..start + n] == file[o..o + n];
    assert flat[..|before + file|][start..start + n] == flat[start..start + n];
  }

  // The whole is the files, each behind the ones before it.
  lemma FlatIs(files: seq<seq<byte>>, last: seq<byte>)
    ensures Flat([]) == [] && Flat(files + [last]) == Flat(files) + last
    ensures Start(Sizes(files + [last]), |files|) == |Flat(files)|
  {
    FlatToOfPrefix(files, [last], |files|);
  }

  lemma {:induction false} FlatToOfPrefix(x: seq<seq<byte>>, y: seq<seq<byte>>, k: nat)
    requires k <= |x|
    ensures FlatTo(x + y, k) == FlatTo(x, k)
  {
    if k > 0 {
      FlatToOfPrefix(x, y, k - 1);
    }
  }

  lemma PlacedBound(sizes: seq<nat>, s: Segment, p: nat)
    requires Placed(sizes, s, p)
    ensures p + s.length <= Total(sizes)
  {
    StartMonotone(sizes, s.file + 1, |sizes|);
  }

  lemma {:induction false} LengthToMonotone(segments: seq<Segment>, j: nat, k: nat)
    requires j <= k <= |segments|
    ensures LengthTo(segments, j) <= LengthTo(segments, k)
    decreases k - j
  {
    if j < k {
      LengthToMonotone(segments, j, k - 1);
    }
  }

  // Segment k of a list that covers from..to lies inside.
  lemma CoversAt(sizes: seq<nat>, segments: seq<Segment>, from: nat, to: nat, k: nat)
    requires Covers(sizes, segments, from, to) && k < |segments|
    ensures Placed(sizes, segments[k], from + LengthTo(segments, k))
    ensures LengthTo(segments, k + 1) == LengthTo(segments, k) + segments[k].length
    ensures from + LengthTo(segments, k + 1) <= to
  {
    assert PlacedAt(sizes, segments, from, k);
    LengthToMonotone(segments, k + 1, |segments|);
  }

  lemma CoversBounds(sizes: seq<nat>, segments: seq<Segment>, from: nat, to: nat)
    requires Covers(sizes, segments, from, to) && from <= Total(sizes)
    ensures from <= to <= Total(sizes)
  {
    if |segments| > 0 {
      CoversAt(sizes, segments, from, to, |segments| - 1);
      PlacedBound(sizes, segments[|segments| - 1], from + LengthTo(segments, |segments| - 1));
    }
  }

  lemma CoversInFiles(contents: seq<seq<byte>>, segments: seq<Segment>, from: nat, to: nat)
    requires Covers(Sizes(contents), segments, from, to)
    ensures InFiles(contents, segments)
  {
    forall k | 0 <= k < |segments|
      ensures Inside(contents, segments[k])
    {
      CoversAt(Sizes(contents), segments, from, to, k);
    }
  }

  // What the segments gather is a slice of the whole.
  lemma {:induction false} GatherIsSliceTo(contents: seq<seq<byte>>, segments: seq<Segment>, from: nat, to: nat, k: nat)
    requires Covers(Sizes(contents), segments, from, to) && InFiles(contents, segments)
    requires to <= |Flat(contents)| && k <= |segments|
    ensures from + LengthTo(segments, k) <= to
    ensures GatherTo(contents, segments, k) == Flat(contents)[from..from + LengthTo(segments, k)]
  {
    LengthToMonotone(segments, k, |segments|);
    if k > 0 {
      GatherIsSliceTo(contents, segments, from, to, k - 1);
      CoversAt(Sizes(contents), segments, from, to, k - 1);
      var mid := from + LengthTo(segments, k - 1);
      GatherMore(contents, segments, from, mid, k);
    } else {
      assert Flat(contents)[from..from] == [];
    }
  }

  lemma GatherMore(contents: seq<seq<byte>>, segments: seq<Segment>, from: nat, mid: nat, k: nat)
    requires 0 < k <= |segments| && InFiles(contents, segments) && Placed(Sizes(contents), segments[k - 1], mid)
    requires from <= mid <= |Flat(contents)| && GatherTo(contents, segments, k - 1) == Flat(contents)[from..mid]
    ensures mid + segments[k - 1].length <= |Flat(contents)|
    ensures GatherTo(contents, segments, k) == Flat(contents)[from..mid + segments[k - 1].length]
  {
    PieceIsSlice(contents, segments[k - 1], mid);
    SliceJoin(Flat(contents), from, mid, mid + segments[k - 1].length);
  }

  lemma PieceIsSlice(contents: seq<seq<byte>>, s: Segment, p: nat)
    requires Placed(Sizes(contents), s, p)
    ensures Inside(contents, s) && p + s.length <= |Flat(contents)|
    ensures Piece(contents, s) == Flat(contents)[p..p + s.length]
  {
    FlatSlice(contents, s.file, s.offset, s.length);
  }

  /** The bytes of segments that cover from..to, one segment after the other,
      are bytes from..to of the whole. */
  lemma GatherIsSlice(contents: seq<seq<byte>>, segments: seq<Segment>, from: nat, to: nat)
    requires Covers(Sizes(contents), segments, from, to) && from <= |Flat(contents)|
    ensures from <= to <= |Flat(contents)| && InFiles(contents, segments)
    ensures GatherTo(contents, segments, |segments|) == Flat(contents)[from..to]
  {
    CoversInFiles(contents, segments, from, to);
    CoversBounds(Sizes(contents), segments, from, to);
    GatherIsSliceTo(contents, segments, from, to, |segments|);
  }

  lemma {:induction false} LengthToAppend(segments: seq<Segment>, s: Segment, k: nat)
    requires k <= |segments|
    ensures LengthTo(segments + [s], k) == LengthTo(segments, k)
  {
    if k > 0 {
      LengthToAppend(segments, s, k - 1);
    }
  }

  lemma CoversAppend(sizes: seq<nat>, segments: seq<Segment>, from: nat, mid: nat, s: Segment)
    requires Covers(sizes, segments, from, mid) && Placed(sizes, s, mid)
    ensures Covers(sizes, segments + [s], from, mid + s.length)
  {
    var longer := segments + [s];
    forall k | 0 <= k < |longer|
      ensures PlacedAt(sizes, longer, from, k)
    {
      LengthToAppend(segments, s, k);
      assert k < |segments| ==> PlacedAt(sizes, segments, from, k);
    }
    LengthToAppend(segments, s, |segments|);
  }

  // File byte (f, o) lies in a file, so its place in the whole is determined.
  lemma PlaceOf(sizes: seq<nat>, f: nat, o: nat, g: nat, p: nat)
    requires f < |sizes| && o < sizes[f] && g < |sizes| && p < sizes[g]
    requires Start(sizes, f) + o == Start(sizes, g) + p
    ensures f == g && o == p
  {
    if f < g {
      StartMonotone(sizes, f + 1, g);
    } else if g < f {
      StartMonotone(sizes, g + 1, f);
    }
  }

  // The first k segments hold exactly the file bytes placed before their end.
  lemma {:induction false} CoversExactlyTo(sizes: seq<nat>, segments: seq<Segment>, from: nat, to: nat,
                                           f: nat, o: nat, k: nat)
    requires Covers(sizes, segments, from, to) && f < |sizes| && o < sizes[f] && k <= |segments|
    ensures (exists j :: 0 <= j < k && Within(segments[j], f, o)) <==>
            from <= Start(sizes, f) + o < from + LengthTo(segments, k)
  {
    if k > 0 {
      CoversExactlyTo(sizes, segments, from, to, f, o, k - 1);
      var s, p, place := segments[k - 1], from + LengthTo(segments, k - 1), Start(sizes, f) + o;
      CoversAt(sizes, segments, from, to, k - 1);
      if p <= place < p + s.length {
        PlaceOf(sizes, f, o, s.file, s.offset + (place - p));
        assert Within(segments[k - 1], f, o);
      } else {
        assert !Within(segments[k - 1], f, o);
      }
    }
  }

  // The segments hold exactly the file bytes whose place is in from..to.
  lemma CoversExactly(sizes: seq<nat>, segments: seq<Segment>, from: nat, to: nat, f: nat, o: nat)
    requires Covers(sizes, segments, from, to) && f < |sizes| && o < sizes[f]
    ensures (exists s :: s in segments && Within(s, f, o)) <==> from <= Start(sizes, f) + o < to
  {
    CoversExactlyTo(sizes, segments, from, to, f, o, |segments|);
    if s :| s in segments && Within(s, f, o) {
      var j :| 0 <= j < |segments| && segments[j] == s;
    }
  }

  lemma SpliceLeft(x: seq<byte>, y: seq<byte>, p: nat, data: seq<byte>)
    requires p + |data| <= |x|
    ensures Splice(x + y, p, data) == Splice(x, p, data) + y
  {}

  lemma SpliceRight(x: seq<byte>, y: seq<byte>, p: nat, data: seq<byte>)
    requires p + |data| <= |y|
    ensures Splice(x + y, |x| + p, data) == x + Splice(y, p, data)
  {}

  // Writing into a file is writing into the whole.
  lemma {:induction false} FlatWrite(contents: seq<seq<byte>>, f: nat, o: nat, data: seq<byte>, k: nat)
    requires f < k <= |contents| && o + |data| <= |contents[f]|
    ensures var contents' := contents[f := Splice(contents[f], o, data)];
            var p := Start(Sizes(contents), f) + o;
            && p + |data| <= |FlatTo(contents, k)|
            && FlatTo(contents', k) == Splice(FlatTo(contents, k), p, data)
  {
    var contents' := contents[f := Splice(contents[f], o, data)];
    var p := Start(Sizes(contents), f) + o;
    if k == f + 1 {
      FlatToSame(contents, contents', f);
      SpliceRight(FlatTo(contents, f), contents[f], o, data);
    } else {
      FlatWrite(contents, f, o, data, k - 1);
      SpliceLeft(FlatTo(contents, k - 1), contents[k - 1], p, data);
    }
  }

  lemma {:induction false} FlatToSame(a: seq<seq<byte>>, b: seq<seq<byte>>, k: nat)
    requires k <= |a| && k <= |b| && a[..k] == b[..k]
    ensures FlatTo(a, k) == FlatTo(b, k)
  {
    if k > 0 {
      assert a[..k][..k - 1] == a[..k - 1] && b[..k][..k - 1] == b[..k - 1];
      assert a[..k][k - 1] == b[..k][k - 1];
      FlatToSame(a, b, k - 1);
    }
  }
}
