/** The Implicit chunk index (`generate_implicit_chunks` in src/chunked_read.rs). */
module ImplicitIndex {
  import opened Basics
  import opened RowMajor
  import opened Coverage
  import opened DenseGrid
  import opened ChunkGrid
  import opened GridCode
  import WholeAssembly

  /** The logical byte size of one chunk. */
  function ChunkBytes(chunk: seq<nat>, elementSize: nat): nat { Product(chunk) * elementSize }

  /** Slot `n` starts `n` chunk sizes past the start of the array. */
  function SlotAddress(data: nat, slot: nat, bytes: nat): nat { data + slot * bytes }

  /** The chunk that call `n` of the iteration describes. */
  function ImplicitChunk(g: Grid, data: nat, bytes: nat, n: nat): ChunkInfo
    requires g.Valid()
  {
    var c := Unflat(n, CurrentCounts(g));
    ChunkInfo(SlotAddress(data, g.Number(c), bytes), bytes, 0, Corner(c, g.chunk))
  }

  /** Chunks of an Implicit index occupy pairwise disjoint byte ranges. */
  lemma ImplicitDisjoint(g: Grid, data: nat, bytes: nat, m: nat, n: nat)
    requires g.Valid() && |g.chunk| > 0 && WithinMaximum(g)
    requires m < Product(CurrentCounts(g)) && n < Product(CurrentCounts(g)) && m != n
    ensures var a, b := ImplicitChunk(g, data, bytes, m), ImplicitChunk(g, data, bytes, n);
      a.address + a.stored <= b.address || b.address + b.stored <= a.address
  {
    var counts := CurrentCounts(g);
    var a, b := Unflat(m, counts), Unflat(n, counts);
    FlatUnflat(m, counts);
    FlatUnflat(n, counts);
    CurrentReaches(g, a);
    CurrentReaches(g, b);
    if g.Number(a) == g.Number(b) {
      NumberInjective(g, a, b);
    }
    MulStep(g.Number(a), g.Number(b), bytes);
    MulStep(g.Number(b), g.Number(a), bytes);
  }

  ghost predicate Listed(infos: seq<ChunkInfo>, g: Grid, data: nat, bytes: nat)
    requires g.Valid()
  {
    forall n :: 0 <= n < |infos| ==> infos[n] == ImplicitChunk(g, data, bytes, n)
  }

  /** An Implicit index lists a tiling: every chunk of the extent is allocated. */
  lemma ImplicitTiles(g: Grid, infos: seq<ChunkInfo>, data: nat, bytes: nat)
    requires g.Valid() && |infos| == Product(CurrentCounts(g)) && Listed(infos, g, data, bytes)
    ensures HaveRank(infos, |g.dims|) && Tiles(Coords(infos, |g.dims|), g.chunk, g.dims)
  {
    var counts := CurrentCounts(g);
    forall n | 0 <= n < |infos|
      ensures |infos[n].offsets| == |g.dims| && Aligned(infos[n].offsets, g.chunk, g.dims)
      ensures GridPoint(infos[n].offsets, g.chunk) == Unflat(n, counts) && Flat(Unflat(n, counts), counts) == n
    {
      assert infos[n] == ImplicitChunk(g, data, bytes, n);
      FlatUnflat(n, counts);
      CornerAligned(Unflat(n, counts), g.chunk, g.dims);
    }
    var coords := Coords(infos, |g.dims|);
    forall n | 0 <= n < |infos| ensures coords[n] == infos[n].offsets {
      assert infos[n].offsets[..|g.dims|] == infos[n].offsets;
    }
  }

  /** The slot of a listed chunk, by its coordinates. */
  function SlotOfChunk(g: Grid, info: ChunkInfo): nat
    requires g.Valid() && |info.offsets| == |g.chunk|
  {
    g.Number(GridPoint(info.offsets, g.chunk))
  }

  lemma ListedAt(g: Grid, infos: seq<ChunkInfo>, data: nat, bytes: nat, n: nat)
    requires g.Valid() && |infos| == Product(CurrentCounts(g)) && Listed(infos, g, data, bytes) && n < |infos|
    ensures |infos[n].offsets| == |g.chunk| && infos[n].stored == bytes && infos[n].mask == 0
    ensures infos[n].address == data + Mul(SlotOfChunk(g, infos[n]), bytes)
    ensures GridPoint(infos[n].offsets, g.chunk) == Unflat(n, CurrentCounts(g))
  {
    FlatUnflat(n, CurrentCounts(g));
    CornerAligned(Unflat(n, CurrentCounts(g)), g.chunk, g.dims);
  }

  /** The chunk of slot 0 is at the start of the array, and each slot's chunk ends where the next one's begins. */
  lemma ImplicitPacked(g: Grid, infos: seq<ChunkInfo>, data: nat, bytes: nat, m: nat, n: nat)
    requires g.Valid() && |infos| == Product(CurrentCounts(g)) && Listed(infos, g, data, bytes)
    requires m < |infos| && n < |infos|
    ensures |infos[m].offsets| == |infos[n].offsets| == |g.chunk|
    ensures SlotOfChunk(g, infos[m]) == 0 ==> infos[m].address == data
    ensures SlotOfChunk(g, infos[n]) == SlotOfChunk(g, infos[m]) + 1 ==>
      infos[n].address == infos[m].address + infos[m].stored
  {
    ListedAt(g, infos, data, bytes, m);
    ListedAt(g, infos, data, bytes, n);
    MulAdd(SlotOfChunk(g, infos[m]), 1, bytes);
    assert Mul(0, bytes) == 0;
  }

  /** Address `a` is a byte of one of the chunks. */
  ghost predicate InSomeChunk(infos: seq<ChunkInfo>, a: nat) {
    exists n :: 0 <= n < |infos| && infos[n].address <= a < infos[n].address + infos[n].stored
  }

  /**
   Where the extent is a bounded maximum, the chunks are exactly the bytes of the array: as many chunk
   sizes from its start as the grid has slots.
   */
  lemma ImplicitFills(g: Grid, infos: seq<ChunkInfo>, data: nat, bytes: nat, a: nat)
    requires g.Valid() && |g.chunk| > 0 && |infos| == Product(CurrentCounts(g)) && Listed(infos, g, data, bytes)
    requires g.slots.Some? && !g.unnumberable && CurrentCounts(g) == Values(g.counts, |g.counts|)
    ensures InSomeChunk(infos, a) <==> data <= a < data + Mul(g.slots.value, bytes)
  {
    if InSomeChunk(infos, a) {
      var n :| 0 <= n < |infos| && infos[n].address <= a < infos[n].address + infos[n].stored;
      ListedAt(g, infos, data, bytes, n);
      FlatUnflat(n, CurrentCounts(g));
      BoundedSlots(g, Unflat(n, CurrentCounts(g)));
      MulStep(SlotOfChunk(g, infos[n]), g.slots.value, bytes);
      MulStep(SlotOfChunk(g, infos[n]) + 1, g.slots.value, bytes);
      MulAdd(SlotOfChunk(g, infos[n]), 1, bytes);
    }
    if data <= a < data + Mul(g.slots.value, bytes) {
      ByteInChunk(g, infos, data, bytes, a);
    }
  }

  lemma ByteInChunk(g: Grid, infos: seq<ChunkInfo>, data: nat, bytes: nat, a: nat)
    requires g.Valid() && |g.chunk| > 0 && |infos| == Product(CurrentCounts(g)) && Listed(infos, g, data, bytes)
    requires g.slots.Some? && !g.unnumberable && CurrentCounts(g) == Values(g.counts, |g.counts|)
    requires data <= a < data + Mul(g.slots.value, bytes)
    ensures InSomeChunk(infos, a)
  {
    var slot := Quot(a - data, bytes);
    QuotRem(a - data, bytes);
    DivBelow(a - data, bytes, g.slots.value);
    var c, counts := g.CoordsAt(slot), CurrentCounts(g);
    BoundedCoords(g, slot);
    FlatBound(c, counts);
    UnflatFlat(c, counts);
    ListedAt(g, infos, data, bytes, Flat(c, counts));
    assert infos[Flat(c, counts)].address <= a < infos[Flat(c, counts)].address + infos[Flat(c, counts)].stored;
  }

  /** Every chunk of the current extent has an address. */
  ghost predicate AddressesFit(g: Grid, data: nat, bytes: nat)
    requires g.Valid()
  {
    forall n :: 0 <= n < Product(CurrentCounts(g)) ==> ImplicitChunk(g, data, bytes, n).address <= U64_MAX
  }

  /** `generate_implicit_chunks`. */
  method GenerateImplicit(data: nat, g: Grid, elementSize: nat) returns (r: Result<seq<ChunkInfo>>)
    requires g.Valid() && elementSize <= U64_MAX && forall d :: 0 <= d < |g.dims| ==> g.dims[d] <= U64_MAX
    ensures r.Ok? <==>
      && WholeAssembly.RunsWithin(elementSize, g.chunk, U64_MAX) && Enumerable(g)
      && AddressesFit(g, data, ChunkBytes(g.chunk, elementSize))
    ensures r.Ok? ==>
      |r.value| == Product(CurrentCounts(g)) && Listed(r.value, g, data, ChunkBytes(g.chunk, elementSize))
  {
    var bytes := WholeAssembly.RunningProduct(elementSize, g.chunk, U64_MAX);
    if bytes.None? {
      return Err(ChunkedRead);
    }
    var slots := SlotsOf(g);
    if slots.Err? {
      return Err(slots.error);
    }
    r := ListChunks(slots.value, data, bytes.value);
  }

  /** Its loop: the address of each slot, refused past the addressable range. */
  method ListChunks(iter: SlotsInExtent, data: nat, bytes: nat) returns (r: Result<seq<ChunkInfo>>)
    requires iter.Valid() && iter.returned == 0
    modifies iter, iter.coords
    ensures r.Ok? <==> AddressesFit(iter.grid, data, bytes)
    ensures r.Ok? ==> |r.value| == Product(CurrentCounts(iter.grid)) && Listed(r.value, iter.grid, data, bytes)
  {
    var chunks: seq<ChunkInfo> := [];
    while iter.remaining > 0
      invariant iter.Valid()
      invariant |chunks| == iter.returned && Listed(chunks, iter.grid, data, bytes)
      invariant forall n :: 0 <= n < |chunks| ==> chunks[n].address <= U64_MAX
      decreases iter.remaining
    {
      ghost var n := iter.returned;
      var chunk := NextChunk(iter, data, bytes);
      if chunk.Err? {
        assert ImplicitChunk(iter.grid, data, bytes, n).address > U64_MAX;
        return chunk.PropagateFailure();
      }
      chunks := chunks + [chunk.value];
    }
    r := Ok(chunks);
  }

  method NextChunk(iter: SlotsInExtent, data: nat, bytes: nat) returns (r: Result<ChunkInfo>)
    requires iter.Valid() && iter.remaining > 0
    modifies iter, iter.coords
    ensures iter.Valid() && iter.returned == old(iter.returned) + 1
    ensures r.Ok? <==> ImplicitChunk(iter.grid, data, bytes, old(iter.returned)).address <= U64_MAX
    ensures r.Ok? ==> r.value == ImplicitChunk(iter.grid, data, bytes, old(iter.returned))
  {
    var next := iter.Next();
    var (slot, offsets) := next.value;
    var address := SlotAddress(data, slot, bytes);
    r := if address > U64_MAX then Err(ChunkedRead) else Ok(ChunkInfo(address, bytes, 0, offsets));
  }
}
