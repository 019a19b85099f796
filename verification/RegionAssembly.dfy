/** Reading a region of a dataset from the chunks that overlap it (`SelectedAssembly` in src/chunked_read.rs). */
module RegionAssembly {
  import opened Basics
  import opened RowMajor
  import opened Coverage
  import opened DenseGrid
  import opened ParsedIndex
  import opened Scatter
  import opened Assembly
  import opened WholeAssembly
  import opened Region
  import opened RegionCoverage

  // ---- A full-size payload holds the whole contribution ----

  lemma SizesWithin(region: Region, coord: seq<nat>, chunk: seq<nat>, extent: seq<nat>)
    requires region.Within(extent) && |chunk| == |extent| && Overlaps(region, coord, chunk)
    requires Positive(chunk) && Positive(region.count)
    ensures Positive(Sizes(region, coord, chunk))
    ensures forall i :: 0 <= i < |coord| ==>
      && Skips(region, coord)[i] + Sizes(region, coord, chunk)[i] <= chunk[i]
      && Offsets(region, coord)[i] + Sizes(region, coord, chunk)[i] <= region.count[i]
  {
    forall i | 0 <= i < |coord|
      ensures Sizes(region, coord, chunk)[i] > 0
      ensures Skips(region, coord)[i] + Sizes(region, coord, chunk)[i] <= chunk[i]
      ensures Offsets(region, coord)[i] + Sizes(region, coord, chunk)[i] <= region.count[i]
    {
      assert region.start[i] + region.count[i] <= extent[i] <= U64_MAX;
    }
  }

  lemma SkipFits(region: Region, coord: seq<nat>, chunk: seq<nat>, extent: seq<nat>)
    requires region.Within(extent) && |chunk| == |extent| && Overlaps(region, coord, chunk)
    requires Positive(chunk) && Positive(region.count)
    ensures Positive(Sizes(region, coord, chunk))
    ensures Dot(Skips(region, coord), Strides(chunk)) + Dot(Last(Sizes(region, coord, chunk)), Strides(chunk)) + 1
         <= Product(chunk)
  {
    SizesWithin(region, coord, chunk, extent);
    var skips, last := Skips(region, coord), Last(Sizes(region, coord, chunk));
    var end := seq(|coord|, i requires 0 <= i < |coord| => skips[i] + last[i]);
    DotSum(skips, last, end, Strides(chunk));
    FlatDot(end, chunk);
    FlatBound(end, chunk);
  }

  lemma PieceFits(region: Region, coord: seq<nat>, payload: seq<byte>, chunk: seq<nat>, size: nat, extent: seq<nat>)
    requires region.Within(extent) && |chunk| == |extent| && Overlaps(region, coord, chunk)
    requires Positive(chunk) && Positive(region.count)
    requires size > 0 && |payload| == Product(chunk) * size
    ensures Piece(region, coord, payload, chunk, size).Fits()
    ensures SourceOf(region, coord, chunk, size) <= |payload|
  {
    SkipFits(region, coord, chunk, extent);
    TailFits(Piece(region, coord, payload, chunk, size), payload, Dot(Skips(region, coord), Strides(chunk)), Product(chunk));
  }

  lemma TailFits(p: Placement, payload: seq<byte>, skip: nat, total: nat)
    requires p.Valid() && Positive(p.counts) && p.data == Tail(payload, Mul(skip, p.size))
    requires skip + Dot(Last(p.counts), p.strides) + 1 <= total && |payload| == total * p.size
    ensures p.Fits() && Mul(skip, p.size) <= |payload|
  {
    SkipScaled(skip, Dot(Last(p.counts), p.strides), total, p.size);
  }

  lemma SkipScaled(skip: nat, last: nat, total: nat, size: nat)
    requires skip + last + 1 <= total
    ensures skip * size <= total * size && (last + 1) * size <= total * size - skip * size
  {
    ScaledSum(skip, last + 1, total, size);
  }

  // ---- Bands: contributions that are one contiguous copy ----

  /** Past the first axis the contribution spans the whole chunk and the whole region. */
  predicate Banded(region: Region, coord: seq<nat>, chunk: seq<nat>)
    requires |coord| == |chunk| == |region.start| == |region.count|
  {
    forall i :: 1 <= i < |chunk| ==> Sizes(region, coord, chunk)[i] == chunk[i] == region.count[i]
  }

  lemma {:induction false} BandStrides(chunk: seq<nat>, count: seq<nat>)
    requires |chunk| == |count| && forall i :: 1 <= i < |chunk| ==> chunk[i] == count[i]
    ensures Strides(chunk) == Strides(count)
  {
    if chunk != [] {
      assert chunk[1..] == count[1..];
    }
  }

  /** The dot product with an offset that is zero past the first axis. */
  lemma LeadingDot(c: seq<nat>, strides: seq<nat>)
    requires |c| == |strides| > 0 && forall i :: 1 <= i < |c| ==> c[i] == 0
    ensures Dot(c, strides) == c[0] * strides[0]
  {
    assert c[1..] == Zeros(|c| - 1);
    DotZeros(strides[1..]);
  }

  lemma BandCollapses(region: Region, coord: seq<nat>, payload: seq<byte>, chunk: seq<nat>, size: nat, extent: seq<nat>)
    requires region.Within(extent) && |chunk| == |extent| > 0 && Overlaps(region, coord, chunk)
    requires Positive(chunk) && Positive(region.count)
    requires Banded(region, coord, chunk) && size > 0
    ensures var p := Piece(region, coord, payload, chunk, size);
      && p.Collapsed(0)
      && p.RunTarget(0, []) == Mul(Offsets(region, coord)[0], Strides(region.count)[0])
      && p.RunLength(0) == Mul(Sizes(region, coord, chunk)[0], Strides(region.count)[0])
  {
    SizesWithin(region, coord, chunk, extent);
    BandStrides(chunk, region.count);
    LeadingDot(Offsets(region, coord), Strides(region.count));
    StridesAt(region.count, 0);
  }

  /** A band's bytes are the element-by-element copy. */
  lemma BandCopies(region: Region, coord: seq<nat>, payload: seq<byte>, chunk: seq<nat>, size: nat, extent: seq<nat>,
                   before: seq<Cell>, after: seq<Cell>, source: nat, target: nat, length: nat)
    requires region.Within(extent) && |chunk| == |extent| > 0 && Overlaps(region, coord, chunk)
    requires Positive(chunk) && Positive(region.count)
    requires Banded(region, coord, chunk) && size > 0
    requires |after| == |before| == Product(region.count) * size
    requires source == SourceOf(region, coord, chunk, size) && source + length <= |payload|
    requires var p := Piece(region, coord, payload, chunk, size);
      p.Collapsed(0) && target == Mul(p.RunTarget(0, []), size) && length == Mul(p.RunLength(0), size)
    requires forall k :: 0 <= k < |after| ==>
      after[k] == if target <= k < target + length then before[k].Write(payload[source + (k - target)]) else before[k]
    ensures after == Piece(region, coord, payload, chunk, size).Apply(before)
  {
    var p := Piece(region, coord, payload, chunk, size);
    SizesWithin(region, coord, chunk, extent);
    BandBytes(p, payload, before, after, source, target, length);
    BandRun(p, before, after, target, length);
  }

  lemma BandBytes(p: Placement, payload: seq<byte>, before: seq<Cell>, after: seq<Cell>, source: nat, target: nat,
                  length: nat)
    requires p.data == Tail(payload, source) && source + length <= |payload| && |after| == |before|
    requires forall k :: 0 <= k < |after| ==>
      after[k] == if target <= k < target + length then before[k].Write(payload[source + (k - target)]) else before[k]
    ensures forall k :: 0 <= k < |after| ==>
      after[k] == if target <= k < target + length then before[k].Write(p.Byte(k - target)) else before[k]
  {
    forall k | 0 <= k < |after|
      ensures after[k] == if target <= k < target + length then before[k].Write(p.Byte(k - target)) else before[k]
    {
      if target <= k < target + length {
        TailAt(payload, source, k - target);
      }
    }
  }

  lemma BandRun(p: Placement, before: seq<Cell>, after: seq<Cell>, target: nat, length: nat)
    requires p.Collapsed(0) && Positive(p.counts) && |after| == |before| == Product(p.extent) * p.size
    requires target == Mul(p.RunTarget(0, []), p.size) && length == Mul(p.RunLength(0), p.size)
    requires forall k :: 0 <= k < |after| ==>
      after[k] == if target <= k < target + length then before[k].Write(p.Byte(k - target)) else before[k]
    requires p.Progress(before, before, 0, 0)
    ensures p.Progress(before, after, 0, Product(p.counts[..0]))
  {
    assert p.counts[..0] == [] && p.strides[..0] == [];
    assert p.RunSource(0, []) * p.size == 0;
    RunAdvances(p, before, before, after, 0, []);
  }

  /** `RegionChunk::Band`: one contiguous copy, of whole chunk rows past the first axis. */
  method CopyBand(output: array<Cell>, bytes: seq<byte>, source: nat, target: nat, length: nat, region: Region,
                  coord: seq<nat>, chunk: seq<nat>, size: nat, ghost extent: seq<nat>)
    returns (r: Result<()>)
    requires region.Within(extent) && |chunk| == |extent| > 0 && Overlaps(region, coord, chunk)
    requires Positive(chunk) && Positive(region.count)
    requires Banded(region, coord, chunk) && size > 0
    requires output.Length == Product(region.count) * size && |bytes| == Product(chunk) * size
    requires source == SourceOf(region, coord, chunk, size)
    requires target == Mul(Mul(Offsets(region, coord)[0], Strides(region.count)[0]), size)
    requires length == Mul(Mul(Sizes(region, coord, chunk)[0], Strides(region.count)[0]), size)
    modifies output
    ensures r.Ok? && output[..] == Piece(region, coord, bytes, chunk, size).Apply(old(output[..]))
  {
    ghost var p, before := Piece(region, coord, bytes, chunk, size), output[..];
    BandCollapses(region, coord, bytes, chunk, size, extent);
    SizesWithin(region, coord, chunk, extent);
    BandInside(p, size, target, length);
    PieceFits(region, coord, bytes, chunk, size, extent);
    r := CopyRun(bytes, output, source, target, length);
    ghost var after := output[..];
    assert forall k :: 0 <= k < |after| ==>
      after[k] == if target <= k < target + length then before[k].Write(bytes[source + (k - target)]) else before[k];
    BandCopies(region, coord, bytes, chunk, size, extent, before, after, source, target, length);
  }

  lemma BandInside(p: Placement, size: nat, target: nat, length: nat)
    requires p.Collapsed(0) && Positive(p.counts) && p.size == size
    requires target == Mul(p.RunTarget(0, []), size) && length == Mul(p.RunLength(0), size)
    ensures target + length <= Product(p.extent) * size
    ensures p.Fits() ==> length <= |p.data|
  {
    assert p.counts[..0] == [] && p.strides[..0] == [];
    RunInBuffer(p, 0, []);
    RunFits(p, 0, []);
    ScaledSum(p.RunTarget(0, []), p.RunLength(0), Product(p.extent), size);
  }

  // ---- One chunk ----

  /** One `ClippedAxis`, relative to the region and to the chunk. */
  method ClipAxis(region: Region, coord: seq<nat>, chunk: seq<nat>, i: nat, ghost extent: seq<nat>)
    returns (offset: nat, side: nat, skip: nat)
    requires region.Within(extent) && |chunk| == |extent| && Overlaps(region, coord, chunk)
    requires Positive(chunk) && Positive(region.count) && i < |coord|
    ensures offset == Offsets(region, coord)[i] && side == Sizes(region, coord, chunk)[i]
    ensures skip == Skips(region, coord)[i]
  {
    SizesWithin(region, coord, chunk, extent);
    var start := ClipStart(region.start[i], coord[i]);
    var end := ClipEnd(region.start[i], region.count[i], coord[i], chunk[i]);
    offset, side, skip := start - region.start[i], end - start, start - coord[i];
  }

  /** `RegionScatter::for_chunk`: the clipped box and where it starts in the chunk. */
  method ClipChunk(region: Region, coord: seq<nat>, chunk: seq<nat>, strides: seq<nat>, size: nat,
                   ghost extent: seq<nat>)
    returns (offsets: seq<nat>, sizes: seq<nat>, source: nat)
    requires region.Within(extent) && |chunk| == |extent| && Overlaps(region, coord, chunk)
    requires Positive(chunk) && Positive(region.count) && size > 0
    requires strides == Strides(chunk) && Product(chunk) * size <= USIZE_MAX
    ensures offsets == Offsets(region, coord) && sizes == Sizes(region, coord, chunk)
    ensures source == SourceOf(region, coord, chunk, size)
  {
    offsets, sizes, source := [], [], 0;
    ghost var skips := Skips(region, coord);
    for i := 0 to |coord|
      invariant offsets == Offsets(region, coord)[..i] && sizes == Sizes(region, coord, chunk)[..i]
      invariant source == Mul(Dot(skips[..i], strides[..i]), size)
    {
      var offset, side, start := ClipAxis(region, coord, chunk, i, extent);
      Snoc(Sizes(region, coord, chunk), i);
      Snoc(Offsets(region, coord), i);
      offsets, sizes := offsets + [offset], sizes + [side];
      SkipAdvances(region, coord, chunk, size, extent, i);
      var skip := Mul(Mul(start, strides[i]), size);
      source := source + skip;
      assert skip <= source <= U64_MAX;
    }
    assert skips[..|coord|] == skips && strides[..|coord|] == strides;
  }

  lemma Snoc(s: seq<nat>, i: nat)
    requires i < |s|
    ensures s[..i] + [s[i]] == s[..i + 1]
  {
  }

  /** One step of the skip, whose checked arithmetic stays within the chunk. */
  lemma SkipAdvances(region: Region, coord: seq<nat>, chunk: seq<nat>, size: nat, extent: seq<nat>, i: nat)
    requires region.Within(extent) && |chunk| == |extent| && Overlaps(region, coord, chunk)
    requires Positive(chunk) && Positive(region.count) && size > 0 && i < |coord|
    ensures var skips, strides := Skips(region, coord), Strides(chunk);
      && Mul(Dot(skips[..i + 1], strides[..i + 1]), size)
         == Mul(Dot(skips[..i], strides[..i]), size) + Mul(Mul(skips[i], strides[i]), size)
      && Mul(Dot(skips[..i + 1], strides[..i + 1]), size) <= Mul(Product(chunk), size)
  {
    var skips, strides := Skips(region, coord), Strides(chunk);
    SkipBelow(region, coord, chunk, extent, i);
    ScaleAdvance(Dot(skips[..i], strides[..i]), Mul(skips[i], strides[i]), Dot(skips[..i + 1], strides[..i + 1]),
                 Product(chunk), size);
  }

  lemma SkipBelow(region: Region, coord: seq<nat>, chunk: seq<nat>, extent: seq<nat>, i: nat)
    requires region.Within(extent) && |chunk| == |extent| && Overlaps(region, coord, chunk)
    requires Positive(chunk) && Positive(region.count) && i < |coord|
    ensures var skips, strides := Skips(region, coord), Strides(chunk);
      && Dot(skips[..i + 1], strides[..i + 1]) == Dot(skips[..i], strides[..i]) + Mul(skips[i], strides[i])
      && Dot(skips[..i + 1], strides[..i + 1]) <= Product(chunk)
  {
    DotAppend(Skips(region, coord), Strides(chunk), i);
    DotSplit(Skips(region, coord), Strides(chunk), i + 1);
    SkipFits(region, coord, chunk, extent);
  }

  lemma ScaleAdvance(a: nat, b: nat, c: nat, total: nat, size: nat)
    requires c == a + b <= total
    ensures Mul(c, size) == Mul(a, size) + Mul(b, size) && Mul(c, size) <= Mul(total, size)
  {
    MulAdd(a, b, size);
    MulStep(c, total, size);
  }

  lemma ClippedSizes(region: Region, coord: seq<nat>, chunk: seq<nat>, extent: seq<nat>)
    requires region.Within(extent) && |chunk| == |extent| && Overlaps(region, coord, chunk)
    requires Positive(chunk) && Positive(region.count)
    ensures Clip(Offsets(region, coord), Sizes(region, coord, chunk), region.count) == Sizes(region, coord, chunk)
  {
    SizesWithin(region, coord, chunk, extent);
    var offsets, sizes := Offsets(region, coord), Sizes(region, coord, chunk);
    forall i | 0 <= i < |coord| ensures Clip(offsets, sizes, region.count)[i] == sizes[i] {
      assert offsets[i] + sizes[i] <= region.count[i];
    }
  }

  lemma ClippedPiece(region: Region, coord: seq<nat>, payload: seq<byte>, chunk: seq<nat>, size: nat, extent: seq<nat>)
    requires region.Within(extent) && |chunk| == |extent| && Overlaps(region, coord, chunk)
    requires Positive(chunk) && Positive(region.count) && size > 0
    ensures PlacementOf(Tail(payload, SourceOf(region, coord, chunk, size)), Offsets(region, coord),
                        Sizes(region, coord, chunk), region.count, Strides(chunk), size)
         == Piece(region, coord, payload, chunk, size)
  {
    ClippedSizes(region, coord, chunk, extent);
  }

  /** `RegionScatter::for_chunk` with `RegionChunk::copy_to`: both of its branches copy the contribution. */
  method ScatterChunk(output: array<Cell>, bytes: seq<byte>, region: Region, coord: seq<nat>, chunk: seq<nat>,
                      strides: seq<nat>, countStrides: seq<nat>, size: nat, scratch: array<nat>, ghost extent: seq<nat>)
    returns (r: Result<()>)
    requires region.Within(extent) && |chunk| == |extent| == scratch.Length && Overlaps(region, coord, chunk)
    requires Positive(chunk) && Positive(region.count) && size > 0
    requires strides == Strides(chunk) && countStrides == Strides(region.count)
    requires output.Length == Product(region.count) * size <= USIZE_MAX
    requires |bytes| == Product(chunk) * size <= USIZE_MAX
    modifies output, scratch
    ensures r.Ok? && output[..] == Piece(region, coord, bytes, chunk, size).Apply(old(output[..]))
  {
    var offsets, sizes, source := ClipChunk(region, coord, chunk, strides, size, extent);
    SizesWithin(region, coord, chunk, extent);
    if |chunk| > 0 && sizes[1..] == chunk[1..] && region.count[1..] == chunk[1..] {
      BandTails(sizes, chunk, region.count);
      var target, length := Mul(Mul(offsets[0], countStrides[0]), size), Mul(Mul(sizes[0], countStrides[0]), size);
      r := CopyBand(output, bytes, source, target, length, region, coord, chunk, size, extent);
    } else {
      PieceFits(region, coord, bytes, chunk, size, extent);
      ClippedPiece(region, coord, bytes, chunk, size, extent);
      r := PlaceChunk(Tail(bytes, source), output, offsets, sizes, region.count, countStrides, strides, size, scratch,
                      chunk);
    }
  }

  lemma BandTails(sizes: seq<nat>, chunk: seq<nat>, count: seq<nat>)
    requires |sizes| == |chunk| == |count| > 0 && sizes[1..] == chunk[1..] && count[1..] == chunk[1..]
    ensures forall i :: 1 <= i < |chunk| ==> sizes[i] == chunk[i] == count[i]
  {
    forall i | 1 <= i < |chunk| ensures sizes[i] == chunk[i] == count[i] {
      assert sizes[i] == sizes[1..][i - 1] && chunk[i] == chunk[1..][i - 1] && count[i] == count[1..][i - 1];
    }
  }

  // ---- Complete rows ----

  /** The test for copying complete rows: the chunk spans a row, and starts at its beginning. */
  predicate RowBand(region: Region, coord: seq<nat>, chunk: seq<nat>, extent: seq<nat>)
    requires |coord| == |chunk| == |extent|
  {
    region.rows && forall i :: 1 <= i < |chunk| ==> coord[i] == 0 && chunk[i] == extent[i]
  }

  lemma RowsAreBanded(region: Region, coord: seq<nat>, chunk: seq<nat>, size: nat, extent: seq<nat>, rowBytes: nat)
    requires region.Within(extent) && |chunk| == |extent| > 0 && Overlaps(region, coord, chunk)
    requires Positive(chunk) && Positive(region.count) && RowBand(region, coord, chunk, extent)
    requires rowBytes == Product(extent[1..]) * size
    ensures Banded(region, coord, chunk)
    ensures SourceOf(region, coord, chunk, size) == Mul(Skips(region, coord)[0], rowBytes)
    ensures Mul(Mul(Offsets(region, coord)[0], Strides(region.count)[0]), size) == Mul(Offsets(region, coord)[0], rowBytes)
    ensures Mul(Mul(Sizes(region, coord, chunk)[0], Strides(region.count)[0]), size)
         == Mul(Sizes(region, coord, chunk)[0], rowBytes)
  {
    forall i | 1 <= i < |chunk| ensures Sizes(region, coord, chunk)[i] == chunk[i] == region.count[i] {
      assert region.start[i] + region.count[i] <= extent[i] <= U64_MAX;
    }
    assert region.count[1..] == extent[1..] && chunk[1..] == extent[1..];
    LeadingDot(Skips(region, coord), Strides(chunk));
    MulAssoc(Skips(region, coord)[0], Product(extent[1..]), size);
    MulAssoc(Offsets(region, coord)[0], Product(extent[1..]), size);
    MulAssoc(Sizes(region, coord, chunk)[0], Product(extent[1..]), size);
  }

  /** `RegionCopy::Band`: a chunk of complete rows is one copy, and a scalar one element. */
  method CopyRowBand(output: array<Cell>, bytes: seq<byte>, region: Region, coord: seq<nat>, chunk: seq<nat>,
                     size: nat, rowBytes: nat, ghost extent: seq<nat>)
    returns (r: Result<()>)
    requires region.Within(extent) && |chunk| == |extent| && Overlaps(region, coord, chunk)
    requires Positive(chunk) && Positive(region.count) && RowBand(region, coord, chunk, extent) && size > 0
    requires rowBytes == if extent == [] then size else Product(extent[1..]) * size
    requires output.Length == Product(region.count) * size && |bytes| == Product(chunk) * size
    modifies output
    ensures r.Ok? && output[..] == Piece(region, coord, bytes, chunk, size).Apply(old(output[..]))
  {
    if |chunk| == 0 {
      PieceFits(region, coord, bytes, chunk, size, extent);
      assert Tail(bytes, 0) == bytes;
      r := CopyScalar(Placement(bytes, [], [], [], [], size), output);
    } else {
      RowsAreBanded(region, coord, chunk, size, extent, rowBytes);
      SizesWithin(region, coord, chunk, extent);
      var start := ClipStart(region.start[0], coord[0]);
      var end := ClipEnd(region.start[0], region.count[0], coord[0], chunk[0]);
      r := CopyBand(output, bytes, Mul(start - coord[0], rowBytes), Mul(start - region.start[0], rowBytes),
                    Mul(end - start, rowBytes), region, coord, chunk, size, extent);
    }
  }

  // ---- Selection ----

  datatype SelectionCoverage = Empty | Complete | PotentiallyUncovered

  /** `ChunkSelection`: the chunks a region needs, in descriptor order. */
  datatype Selection = Selection(index: Index, region: Region, ordinals: seq<nat>, coverage: SelectionCoverage) {
    function Coord(k: nat): (c: seq<nat>)
      requires k < |ordinals| && ordinals[k] < |index.infos| && |index.extent| <= |index.infos[ordinals[k]].offsets|
      ensures |c| == |index.extent|
    {
      index.infos[ordinals[k]].offsets[..|index.extent|]
    }

    ghost predicate Valid() {
      && index.Valid() && region.Within(index.extent)
      && |index.chunk| == |index.extent| && Positive(index.chunk)
      && (coverage.Empty? <==> !Positive(region.count))
      && ordinals == Chosen()
      && (coverage.Complete? ==> RegionOnce(SelectedCoords(), index.chunk, region))
    }

    /** The ordinals of the overlapping chunks; an empty region needs none. */
    ghost function Chosen(): (s: seq<nat>)
      requires index.Valid()
      ensures forall k :: 0 <= k < |s| ==> s[k] < |index.infos|
    {
      var coords := Coords(index.infos, |index.extent|);
      if Positive(region.count) then Selected(coords, index.chunk, region, |coords|) else []
    }

    ghost function SelectedCoords(): (c: seq<seq<nat>>)
      requires index.Valid() && ordinals == Chosen()
      ensures |c| == |ordinals|
    {
      Pick(Coords(index.infos, |index.extent|), ordinals)
    }

    /** The chunks selected all overlap the region. */
    lemma Overlapping(k: nat)
      requires Valid() && k < |ordinals|
      ensures Positive(region.count) && ordinals[k] < |index.infos| && |index.extent| <= |index.infos[ordinals[k]].offsets|
      ensures Coord(k) == SelectedCoords()[k] && Overlaps(region, Coord(k), index.chunk)
    {
      assert ordinals[k] == Chosen()[k];
    }
  }

  /** The filter of `select`, in ascending descriptor order. */
  method SelectOrdinals(coords: seq<seq<nat>>, chunk: seq<nat>, region: Region) returns (ordinals: seq<nat>)
    ensures ordinals == Selected(coords, chunk, region, |coords|)
  {
    ordinals := [];
    for n := 0 to |coords|
      invariant ordinals == Selected(coords, chunk, region, n)
    {
      if Overlaps(region, coords[n], chunk) {
        ordinals := ordinals + [n];
      }
    }
  }

  /** `ParsedChunkIndex::select`. */
  method Select(index: Index, region: Region, extent: seq<nat>) returns (r: Result<Selection>)
    requires index.Valid() && region.Within(extent)
    ensures r.Ok? <==> extent == index.extent && |index.chunk| == |extent| && Positive(index.chunk)
    ensures r.Err? ==> r.error == Internal
    ensures r.Ok? ==> r.value.Valid() && r.value.index == index && r.value.region == region
    ensures r.Ok? ==> (r.value.coverage.Empty? <==> !Positive(region.count))
    ensures r.Ok? && Positive(region.count) ==>
      var coords := r.value.SelectedCoords();
      r.value.coverage.Complete? <==>
        || index.coverage.Some?
        || (&& Fits64(region.count) && Distinct(coords) && AllAligned(coords, index.chunk, extent)
            && RegionOnce(coords, index.chunk, region))
  {
    if index.extent != extent || |index.chunk| != |index.extent| {
      return Err(Internal);
    }
    if i :| 0 <= i < |index.chunk| && index.chunk[i] == 0 {
      return Err(Internal);
    }
    if i :| 0 <= i < |region.count| && region.count[i] == 0 {
      return Ok(Selection(index, region, [], Empty));
    }
    var coords := Coords(index.infos, |extent|);
    var ordinals := SelectOrdinals(coords, index.chunk, region);
    var complete := index.coverage.Some?;
    if complete {
      DenseSelection(coords, index.chunk, extent, region);
    } else {
      complete := CoversSelection(Pick(coords, ordinals), index.chunk, extent, region);
    }
    r := Ok(Selection(index, region, ordinals, if complete then Complete else PotentiallyUncovered));
  }

  // ---- The assembly ----

  /** `SelectedAssembly`. */
  class Assembler {
    const selection: Selection
    const size: nat
    const fill: seq<byte>
    const chunkBytes: nat
    const strides: seq<nat>
    const countStrides: seq<nat>
    /** The bytes of one complete row of the dataset. */
    const rowBytes: nat
    /** Whether every contribution is copied as complete rows. */
    const banded: bool
    const output: array<Cell>
    const scratch: array<nat>
    var placed: nat
    /** The payloads placed so far, in descriptor order. */
    ghost var payloads: seq<seq<byte>>

    ghost predicate Shape() {
      var chunk, extent, region := selection.index.chunk, selection.index.extent, selection.region;
      && selection.Valid() && 0 < size <= USIZE_MAX
      && scratch.Length == |extent| && strides == Strides(chunk) && countStrides == Strides(region.count)
      && chunkBytes == Product(chunk) * size <= USIZE_MAX
      && output.Length == Product(region.count) * size <= USIZE_MAX
      && rowBytes == RowBytes(extent, size)
      && (banded ==> AllRows(selection))
    }

    ghost function Initial(): (cells: seq<Cell>)
      requires size > 0
    {
      var length := Product(selection.region.count) * size;
      if selection.coverage.Complete? then Blank(length) else FillCells(length, fill, size)
    }

    ghost predicate Valid()
      reads this, output
    {
      && Shape()
      && placed == |payloads| <= |selection.ordinals|
      && (forall j :: 0 <= j < |payloads| ==> |payloads[j]| == chunkBytes)
      && output[..] == After(payloads)
    }

    /** The buffer once the first selected chunks have been placed from `payloads`. */
    ghost function After(payloads: seq<seq<byte>>): seq<Cell>
      requires Shape() && |payloads| <= |selection.ordinals|
    {
      var coords, region := selection.SelectedCoords()[..|payloads|], selection.region;
      PlaceAll(RegionPieces(coords, payloads, selection.index.chunk, region, size), Initial(), region.count, size)
    }

    lemma AfterNext(payloads: seq<seq<byte>>, bytes: seq<byte>)
      requires Shape() && |payloads| < |selection.ordinals|
      ensures |selection.SelectedCoords()[|payloads|]| == |selection.index.extent|
      ensures After(payloads + [bytes])
           == Piece(selection.region, selection.SelectedCoords()[|payloads|], bytes, selection.index.chunk, size)
              .Apply(After(payloads))
    {
      var n, coords, chunk := |payloads|, selection.SelectedCoords(), selection.index.chunk;
      var pieces := RegionPieces(coords[..n + 1], payloads + [bytes], chunk, selection.region, size);
      assert pieces[..n] == RegionPieces(coords[..n], payloads, chunk, selection.region, size);
    }

    constructor (selection: Selection, size: nat, fill: seq<byte>, chunkBytes: nat, strides: seq<nat>,
                 countStrides: seq<nat>, rowBytes: nat, banded: bool, length: nat)
      requires selection.Valid() && 0 < size <= USIZE_MAX
      requires chunkBytes == Product(selection.index.chunk) * size <= USIZE_MAX
      requires strides == Strides(selection.index.chunk) && countStrides == Strides(selection.region.count)
      requires length == Product(selection.region.count) * size <= USIZE_MAX
      requires rowBytes == RowBytes(selection.index.extent, size) && (banded ==> AllRows(selection))
      ensures Valid() && fresh(output) && fresh(scratch) && payloads == []
      ensures this.selection == selection && this.size == size && this.fill == fill && this.banded == banded
    {
      this.selection, this.size, this.fill, this.chunkBytes := selection, size, fill, chunkBytes;
      this.strides, this.countStrides, this.rowBytes, this.banded := strides, countStrides, rowBytes, banded;
      var cells := if selection.coverage.Complete? then Blank(length) else FillCells(length, fill, size);
      output := new Cell[length](i requires 0 <= i < length => cells[i]);
      scratch := new nat[|selection.index.extent|];
      placed, payloads := 0, [];
      new;
      assert output[..] == cells == Initial();
    }

    /** `SelectedAssembly::place`: writes the next selected chunk's contribution. */
    method Place(bytes: seq<byte>) returns (r: Result<()>)
      requires Valid()
      modifies this, output, scratch
      ensures Valid()
      ensures r.Ok? <==> |bytes| == chunkBytes && old(placed) < |selection.ordinals|
      ensures payloads == if r.Ok? then old(payloads) + [bytes] else old(payloads)
    {
      if |bytes| != chunkBytes {
        return Err(SizeMismatch);
      }
      if placed == |selection.ordinals| {
        return Err(Internal);
      }
      PlaceNext(bytes);
      placed, payloads := placed + 1, payloads + [bytes];
      r := Ok(());
    }

    /** Both geometries copy the contribution, and neither fails on a full-size payload. */
    method PlaceNext(bytes: seq<byte>)
      requires Valid() && placed < |selection.ordinals| && |bytes| == chunkBytes
      modifies output, scratch
      ensures output[..] == After(payloads + [bytes])
    {
      selection.Overlapping(placed);
      AfterNext(payloads, bytes);
      var coord, region := selection.Coord(placed), selection.region;
      var chunk, extent := selection.index.chunk, selection.index.extent;
      ghost var before := output[..];
      var r;
      if banded {
        assert RowBand(region, selection.SelectedCoords()[placed], chunk, extent);
        r := CopyRowBand(output, bytes, region, coord, chunk, size, rowBytes, extent);
      } else {
        r := ScatterChunk(output, bytes, region, coord, chunk, strides, countStrides, size, scratch, extent);
      }
      assert output[..] == Piece(region, coord, bytes, chunk, size).Apply(before);
    }

    /**
     `SelectedAssembly::finish`: refuses while a selected chunk remains, and otherwise publishes the
     region. Under complete coverage every byte has by then been written, exactly once.
     */
    method Finish() returns (r: Result<seq<byte>>)
      requires Valid()
      ensures r.Ok? <==> |payloads| == |selection.ordinals|
      ensures r.Ok? ==>
        r.value == RegionBytes(selection.SelectedCoords(), payloads, selection.index.chunk, selection.region, size, fill)
      ensures r.Ok? && selection.coverage.Complete? ==> forall k :: 0 <= k < output.Length ==> output[k].writes == 1
    {
      if placed != |selection.ordinals| {
        return Err(Internal);
      }
      ghost var coords, chunk, extent := selection.SelectedCoords(), selection.index.chunk, selection.index.extent;
      assert coords[..|payloads|] == coords;
      if selection.coverage.Complete? {
        CoveredRegion(coords, payloads, chunk, extent, selection.region, size, fill);
      } else {
        FilledRegion(coords, payloads, chunk, extent, selection.region, size, fill);
      }
      r := Ok(Publish(output[..]));
      assert selection.coverage.Complete? ==> forall k :: 0 <= k < output.Length ==> output[k] == output[..][k];
    }
  }

  function RowBytes(extent: seq<nat>, size: nat): nat {
    if extent == [] then size else Product(extent[1..]) * size
  }

  /** Every selected chunk is made of complete rows. */
  ghost predicate AllRows(selection: Selection)
    requires selection.Valid()
  {
    forall k :: 0 <= k < |selection.ordinals| ==>
      RowBand(selection.region, selection.SelectedCoords()[k], selection.index.chunk, selection.index.extent)
  }

  /** The condition for the row-band geometry. */
  ghost predicate RowGeometry(selection: Selection)
    requires selection.Valid()
  {
    && selection.region.rows
    && selection.index.chunk[Min(1, |selection.index.chunk|)..] == selection.index.extent[Min(1, |selection.index.chunk|)..]
    && forall k :: 0 <= k < |selection.ordinals| ==> TrailingZero(selection.SelectedCoords()[k])
  }

  predicate TrailingZero(coord: seq<nat>) {
    forall i :: 1 <= i < |coord| ==> coord[i] == 0
  }

  lemma RowGeometryRows(selection: Selection)
    requires selection.Valid() && RowGeometry(selection)
    ensures AllRows(selection)
  {
    var chunk, extent := selection.index.chunk, selection.index.extent;
    forall i | 1 <= i < |chunk| ensures chunk[i] == extent[i] {
      assert chunk[1..][i - 1] == extent[1..][i - 1];
    }
    forall k | 0 <= k < |selection.ordinals| ensures RowBand(selection.region, selection.SelectedCoords()[k], chunk, extent) {
      assert TrailingZero(selection.SelectedCoords()[k]);
    }
  }

  /** The scan for trailing offsets in `select`. */
  method TrailingOffsetsZero(selection: Selection) returns (zero: bool)
    requires selection.Valid()
    ensures zero <==> forall k :: 0 <= k < |selection.ordinals| ==> TrailingZero(selection.SelectedCoords()[k])
  {
    for k := 0 to |selection.ordinals|
      invariant forall j :: 0 <= j < k ==> TrailingZero(selection.SelectedCoords()[j])
    {
      selection.Overlapping(k);
      if !TrailingZero(selection.Coord(k)) {
        return false;
      }
    }
    zero := true;
  }

  /** A nonempty region whose bytes are addressable has addressable sides and strides. */
  lemma NonemptyFits(count: seq<nat>, size: nat)
    requires Positive(count) && size > 0 && Product(count) * size <= USIZE_MAX
    ensures StridesFit(count)
  {
    CountBelowBytes(Product(count), size, USIZE_MAX);
    forall i | 0 <= i < |count| ensures count[i] <= USIZE_MAX && Product(count[i..]) <= USIZE_MAX {
      SuffixWithin(count, i);
    }
  }

  lemma CountBelowBytes(count: nat, size: nat, limit: nat)
    requires size > 0 && count * size <= limit
    ensures count <= limit
  {
    MulStep(1, size, count);
  }

  lemma {:induction false} SuffixWithin(dims: seq<nat>, i: nat)
    requires Positive(dims) && i < |dims|
    ensures dims[i] <= Product(dims) && Product(dims[i..]) <= Product(dims)
  {
    ProductPositive(dims[1..]);
    MulStep(1, Product(dims[1..]), dims[0]);
    MulStep(1, dims[0], Product(dims[1..]));
    if i > 0 {
      SuffixWithin(dims[1..], i - 1);
      assert dims[1..][i - 1..] == dims[i..];
    } else {
      assert dims[0..] == dims;
    }
  }

  /** `SelectedAssembly::new`: fill is needed, and consulted, only where coverage is not proved. */
  method NewAssembler(selection: Selection, size: nat, fill: Option<seq<byte>>, length: nat)
    returns (r: Result<Assembler>)
    requires selection.Valid() && 0 < size <= USIZE_MAX
    requires length == Product(selection.region.count) * size <= USIZE_MAX
    ensures r.Ok? <==>
      && BoundedChunk(selection.index.chunk, size)
      && (selection.coverage.PotentiallyUncovered? ==> fill.Some?)
      && (selection.coverage.Empty? && !RowGeometry(selection) ==> StridesFit(selection.region.count))
    ensures r.Ok? ==>
      && r.value.Valid() && fresh(r.value) && fresh(r.value.output) && fresh(r.value.scratch)
      && r.value.selection == selection && r.value.size == size && r.value.payloads == []
      && (r.value.banded <==> RowGeometry(selection))
      && r.value.fill == Pattern(fill)
  {
    var chunk, extent, count := selection.index.chunk, selection.index.extent, selection.region.count;
    var chunkBytes := BoundedChunkLen(chunk, size);
    if chunkBytes.Err? {
      return Err(chunkBytes.error);
    }
    if selection.coverage.PotentiallyUncovered? && fill.None? {
      return Err(UnreadableFill);
    }
    var first := Min(1, |chunk|);
    var trailing := TrailingOffsetsZero(selection);
    var banded := selection.region.rows && trailing && chunk[first..] == extent[first..];
    if Positive(count) {
      NonemptyFits(count, size);
    }
    if !banded && !StridesFit(count) {
      return Err(TooLarge);
    }
    if banded {
      RowGeometryRows(selection);
    }
    NonemptyFits(chunk, size);
    var strides := RowMajorStrides(chunk);
    var assembler := new Assembler(selection, size, Pattern(fill), chunkBytes.value, strides.value, Strides(count),
                                   RowBytes(extent, size), banded, length);
    r := Ok(assembler);
  }
}
