/** Assembling a whole dataset from its decoded chunks (`WholeAssembly` in src/chunked_read.rs). */
module WholeAssembly {
  import opened Basics
  import opened RowMajor
  import opened DenseGrid
  import opened ParsedIndex
  import opened Scatter
  import opened Assembly

  const MAX_CHUNK_BYTES: nat := 0xFFFF_FFFF

  /** The running products `size`, `size * dims[0]`, ... stay at most `limit`. */
  predicate RunsWithin(size: nat, dims: seq<nat>, limit: nat) {
    forall i :: 0 <= i <= |dims| ==> size * Product(dims[..i]) <= limit
  }

  method RunningProduct(size: nat, dims: seq<nat>, limit: nat) returns (r: Option<nat>)
    requires size <= limit
    ensures r.Some? <==> RunsWithin(size, dims, limit)
    ensures r.Some? ==> r.value == Product(dims) * size
  {
    var product := size;
    for i := 0 to |dims|
      invariant product == size * Product(dims[..i])
      invariant forall j :: 0 <= j <= i ==> size * Product(dims[..j]) <= limit
    {
      ProductAppend(dims, i);
      MulAssoc(size, Product(dims[..i]), dims[i]);
      product := product * dims[i];
      if product > limit {
        return None;
      }
    }
    assert dims[..|dims|] == dims;
    r := Some(product);
  }

  predicate BoundedChunk(chunk: seq<nat>, size: nat) {
    RunsWithin(size, chunk, U64_MAX) && Product(chunk) * size <= MAX_CHUNK_BYTES && Product(chunk) * size <= USIZE_MAX
  }

  /** `bounded_chunk_len`: the byte size of a decoded chunk. */
  method BoundedChunkLen(chunk: seq<nat>, size: nat) returns (r: Result<nat>)
    requires size <= USIZE_MAX
    ensures r.Ok? <==> BoundedChunk(chunk, size)
    ensures r.Ok? ==> r.value == Product(chunk) * size
  {
    var logical := RunningProduct(size, chunk, U64_MAX);
    if logical.None? || logical.value > MAX_CHUNK_BYTES {
      return Err(InvalidGeometry);
    }
    if logical.value > USIZE_MAX {
      return Err(TooLarge);
    }
    r := Ok(logical.value);
  }

  predicate StridesFit(dims: seq<nat>) {
    && (forall i :: 0 <= i < |dims| ==> dims[i] <= USIZE_MAX)
    && (forall i :: 1 <= i < |dims| ==> Product(dims[i..]) <= USIZE_MAX)
  }

  /** The geometry checks of `WholeAssembly::new` pass. */
  predicate Addressable(chunk: seq<nat>, extent: seq<nat>, size: nat) {
    && |chunk| == |extent| && BoundedChunk(chunk, size)
    && StridesFit(chunk) && StridesFit(extent) && RunsWithin(size, extent, USIZE_MAX)
  }

  /** `bounded_chunk_len`, `WholeScatter::new` and `WholeScatter::byte_len`. */
  method Geometry(chunk: seq<nat>, extent: seq<nat>, size: nat)
    returns (r: Result<(nat, seq<nat>, seq<nat>, nat)>)
    requires size <= USIZE_MAX
    ensures r.Ok? <==> Addressable(chunk, extent, size)
    ensures r.Ok? ==> r.value == (Product(chunk) * size, Strides(chunk), Strides(extent), Product(extent) * size)
  {
    var chunkBytes := BoundedChunkLen(chunk, size);
    if chunkBytes.Err? {
      return Err(chunkBytes.error);
    }
    if |chunk| != |extent| {
      return Err(Internal);
    }
    if i :| 0 <= i < |chunk| && (chunk[i] > USIZE_MAX || extent[i] > USIZE_MAX) {
      return Err(TooLarge);
    }
    var extentStrides := RowMajorStrides(extent);
    var strides := RowMajorStrides(chunk);
    if extentStrides.Err? || strides.Err? {
      return Err(OffsetOverflow);
    }
    var length := RunningProduct(size, extent, USIZE_MAX);
    if length.None? {
      return Err(OffsetOverflow);
    }
    r := Ok((chunkBytes.value, strides.value, extentStrides.value, length.value));
  }

  /** A full-size payload holds every element of the clipped box. */
  lemma FullPayloadFits(p: Placement, chunk: seq<nat>)
    requires p.Valid() && |chunk| == |p.counts| && p.strides == Strides(chunk)
    requires forall i :: 0 <= i < |chunk| ==> p.counts[i] <= chunk[i]
    requires |p.data| == Product(chunk) * p.size
    ensures p.Fits()
  {
    if Positive(p.counts) {
      var last := Last(p.counts);
      FlatDot(last, chunk);
      FlatBound(last, chunk);
      MulStep(Dot(last, p.strides), Product(chunk), p.size);
      MulAdd(Dot(last, p.strides), 1, p.size);
    }
  }

  class Whole {
    const index: Index
    const size: nat
    const fill: seq<byte>
    /** Whether `output` started as uninitialised capacity rather than fill. */
    const dense: bool
    const chunkBytes: nat
    const strides: seq<nat>
    const extentStrides: seq<nat>
    const output: array<Cell>
    const coord: array<nat>
    var remaining: seq<ChunkInfo>
    /** The payloads placed so far, in descriptor order. */
    ghost var placed: seq<seq<byte>>

    ghost predicate Shape() {
      && index.Valid() && 0 < size <= USIZE_MAX
      && |index.chunk| == |index.extent| == coord.Length
      && strides == Strides(index.chunk) && extentStrides == Strides(index.extent)
      && chunkBytes == Product(index.chunk) * size <= USIZE_MAX
      && output.Length == Product(index.extent) * size <= USIZE_MAX
      && (dense ==> index.coverage.Some?)
    }

    ghost function Initial(): (cells: seq<Cell>)
      requires size > 0
    {
      var length := Product(index.extent) * size;
      if dense then Blank(length) else FillCells(length, fill, size)
    }

    ghost predicate Valid()
      reads this, output
    {
      && Shape()
      && |placed| <= |index.infos| && remaining == index.infos[|placed|..]
      && (forall j :: 0 <= j < |placed| ==> |placed[j]| == chunkBytes)
      && output[..] == After(placed)
    }

    /** The buffer once the first descriptors have been placed from `payloads`. */
    ghost function After(payloads: seq<seq<byte>>): seq<Cell>
      requires Shape() && |payloads| <= |index.infos|
    {
      var coords := Coords(index.infos, |index.extent|)[..|payloads|];
      PlaceAll(Pieces(coords, payloads, index.chunk, index.extent, size), Initial(), index.extent, size)
    }

    constructor (index: Index, size: nat, fill: seq<byte>, dense: bool, chunkBytes: nat, strides: seq<nat>,
                 extentStrides: seq<nat>, length: nat)
      requires index.Valid() && 0 < size <= USIZE_MAX && |index.chunk| == |index.extent|
      requires chunkBytes == Product(index.chunk) * size <= USIZE_MAX
      requires strides == Strides(index.chunk) && extentStrides == Strides(index.extent)
      requires length == Product(index.extent) * size <= USIZE_MAX
      requires dense ==> index.coverage.Some?
      ensures Valid() && fresh(output) && fresh(coord) && placed == []
      ensures this.index == index && this.size == size && this.fill == fill && this.dense == dense
    {
      this.index, this.size, this.fill, this.dense := index, size, fill, dense;
      this.chunkBytes, this.strides, this.extentStrides := chunkBytes, strides, extentStrides;
      var cells := if dense then Blank(length) else FillCells(length, fill, size);
      output := new Cell[length](i requires 0 <= i < length => cells[i]);
      coord := new nat[|index.extent|];
      remaining, placed := index.infos, [];
      new;
      assert output[..] == cells == Initial();
      assert index.infos[0..] == index.infos;
    }

    /**
     `WholeAssembly::place`: writes the next descriptor's contribution. It refuses a payload of the
     wrong size, a payload past the last descriptor, and an offset no buffer index can hold.
     */
    method Place(bytes: seq<byte>) returns (r: Result<()>)
      requires Valid()
      modifies this, output, coord
      ensures Valid()
      ensures r.Err? ==> placed == old(placed)
      ensures r.Ok? ==> placed == old(placed) + [bytes]
      ensures r.Ok? <==> |bytes| == chunkBytes && old(remaining) != [] && (forall i :: 0 <= i < |index.extent| ==>
                           old(remaining)[0].offsets[i] <= USIZE_MAX)
    {
      if |bytes| != chunkBytes {
        return Err(SizeMismatch);
      }
      if remaining == [] {
        return Err(Internal);
      }
      var info, rank := remaining[0], |index.extent|;
      assert info == index.infos[|placed|];
      if i :| 0 <= i < rank && info.offsets[i] > USIZE_MAX {
        return Err(TooLarge);
      }
      PlaceNext(bytes);
      remaining, placed := remaining[1..], placed + [bytes];
      assert remaining == index.infos[|placed|..];
      r := Ok(());
    }

    /** `WholeScatter::place`, which never fails on a full-size payload. */
    method PlaceNext(bytes: seq<byte>)
      requires Valid() && remaining != [] && |bytes| == chunkBytes
      modifies output, coord
      ensures output[..] == After(placed + [bytes])
    {
      var rank := |index.extent|;
      assert remaining[0] == index.infos[|placed|];
      var at := remaining[0].offsets[..rank];
      ghost var before := output[..];
      ghost var piece := PlacementOf(bytes, at, index.chunk, index.extent, strides, size);
      FullPayloadFits(piece, index.chunk);
      var r := PlaceChunk(bytes, output, at, index.chunk, index.extent, extentStrides, strides, size, coord,
                          index.chunk);
      assert output[..] == piece.Apply(before);
      AfterNext(placed, bytes);
    }

    lemma AfterNext(payloads: seq<seq<byte>>, bytes: seq<byte>)
      requires Shape() && |payloads| < |index.infos|
      ensures After(payloads + [bytes])
           == PlacementOf(bytes, index.infos[|payloads|].offsets[..|index.extent|], index.chunk, index.extent,
                          Strides(index.chunk), size).Apply(After(payloads))
    {
      var n, coords := |payloads|, Coords(index.infos, |index.extent|);
      var more := payloads + [bytes];
      var pieces := Pieces(coords[..n + 1], more, index.chunk, index.extent, size);
      assert pieces[..n] == Pieces(coords[..n], payloads, index.chunk, index.extent, size);
    }

    /**
     `WholeAssembly::finish`: refuses while a descriptor remains, and otherwise publishes the
     dataset. A dense buffer is published although it was never initialised: by then every byte has
     been written, exactly once.
     */
    method Finish() returns (r: Result<seq<byte>>)
      requires Valid()
      ensures r.Ok? <==> |placed| == |index.infos|
      ensures r.Ok? ==>
        r.value == WholeBytes(Coords(index.infos, |index.extent|), placed, index.chunk, index.extent, size, fill)
      ensures r.Ok? && dense ==> forall k :: 0 <= k < output.Length ==> output[k].writes == 1
    {
      if remaining != [] {
        return Err(Internal);
      }
      ghost var coords := Coords(index.infos, |index.extent|);
      assert coords[..|placed|] == coords;
      if dense {
        TiledIsWhole(coords, placed, index.chunk, index.extent, size, fill);
      } else {
        FilledIsWhole(coords, placed, index.chunk, index.extent, size, fill);
      }
      r := Ok(Publish(output[..]));
      assert dense ==> forall k :: 0 <= k < output.Length ==> output[k] == output[..][k];
    }
  }

  /** The fill pattern, where there is one to consult. */
  function Pattern(fill: Option<seq<byte>>): seq<byte> {
    if fill.Some? then fill.value else []
  }

  /** `WholeAssembly::new`: fill is needed, and consulted, only without a coverage proof. */
  method NewWhole(index: Index, size: nat, fill: Option<seq<byte>>) returns (r: Result<Whole>)
    requires index.Valid() && 0 < size <= USIZE_MAX
    ensures r.Ok? <==> Addressable(index.chunk, index.extent, size) && (index.coverage.Some? || fill.Some?)
    ensures r.Ok? ==>
      && r.value.Valid() && fresh(r.value) && fresh(r.value.output) && fresh(r.value.coord)
      && r.value.index == index && r.value.size == size && r.value.placed == []
      && (r.value.dense <==> index.coverage.Some?)
      && r.value.fill == Pattern(fill)
  {
    var geometry := Geometry(index.chunk, index.extent, size);
    if geometry.Err? {
      return Err(geometry.error);
    }
    var (chunkBytes, strides, extentStrides, length) := geometry.value;
    if index.coverage.None? && fill.None? {
      return Err(UnreadableFill);
    }
    assert length == size * Product(index.extent[..|index.extent|]) by {
      assert index.extent[..|index.extent|] == index.extent;
    }
    var whole := new Whole(index, size, Pattern(fill), index.coverage.Some?, chunkBytes, strides, extentStrides, length);
    r := Ok(whole);
  }
}
