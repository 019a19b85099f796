/**
 Region reads: which chunks a region needs, what each contributes, and that the result is the whole
 read cut to the region (`RegionScatter` in src/chunked_read.rs, `select` in src/parsed_chunk_index.rs).
 */
module Region {
  import opened Basics
  import opened RowMajor
  import opened Coverage
  import opened Scatter
  import opened Assembly

  /** A box of a dataset; `rows` when it was requested, or recognised, as complete rows. */
  datatype Region = Region(start: seq<nat>, count: seq<nat>, rows: bool) {
    predicate Within(extent: seq<nat>) {
      && |start| == |count| == |extent|
      && (forall i :: 0 <= i < |extent| ==> start[i] + count[i] <= extent[i] <= U64_MAX)
      && (rows ==> forall i :: 1 <= i < |extent| ==> start[i] == 0 && count[i] == extent[i])
    }
  }

  function SaturatingAdd(a: nat, b: nat): nat { Min(a + b, U64_MAX) }

  /** `overlaps` along one axis, and the `ClippedAxis` bounds. */
  function ClipStart(start: nat, offset: nat): nat { Max(start, offset) }

  function ClipEnd(start: nat, count: nat, offset: nat, edge: nat): nat {
    Min(start + count, SaturatingAdd(offset, edge))
  }

  predicate Overlaps(region: Region, coord: seq<nat>, chunk: seq<nat>) {
    && |coord| == |chunk| == |region.start| == |region.count|
    && forall i :: 0 <= i < |coord| ==>
         coord[i] < region.start[i] + region.count[i] && SaturatingAdd(coord[i], chunk[i]) > region.start[i]
  }

  function Shift(g: seq<nat>, start: seq<nat>): (s: seq<nat>)
    requires |g| == |start|
    ensures |s| == |g|
  {
    seq(|g|, i requires 0 <= i < |g| => g[i] + start[i])
  }

  /** The position of byte `b` of element `g` in a row-major buffer. */
  function ByteIndex(g: seq<nat>, dims: seq<nat>, size: nat, b: nat): nat
    requires |g| == |dims|
  {
    Flat(g, dims) * size + b
  }

  // ---- One chunk's contribution ----

  /** Where the contribution starts in the region's output, per axis. */
  function Offsets(region: Region, coord: seq<nat>): (o: seq<nat>)
    requires |coord| == |region.start|
    ensures |o| == |coord|
  {
    seq(|coord|, i requires 0 <= i < |coord| => ClipStart(region.start[i], coord[i]) - region.start[i])
  }

  /** How many elements it has, per axis. */
  function Sizes(region: Region, coord: seq<nat>, chunk: seq<nat>): (s: seq<nat>)
    requires |coord| == |chunk| == |region.start| == |region.count|
    ensures |s| == |coord|
  {
    seq(|coord|, i requires 0 <= i < |coord| =>
      var lo, hi := ClipStart(region.start[i], coord[i]), ClipEnd(region.start[i], region.count[i], coord[i], chunk[i]);
      if lo < hi then hi - lo else 0)
  }

  /** Where it starts in the chunk, per axis. */
  function Skips(region: Region, coord: seq<nat>): (s: seq<nat>)
    requires |coord| == |region.start|
    ensures |s| == |coord|
  {
    seq(|coord|, i requires 0 <= i < |coord| => ClipStart(region.start[i], coord[i]) - coord[i])
  }

  function Tail(bytes: seq<byte>, from: nat): (t: seq<byte>)
    ensures forall i :: from <= i < |bytes| ==> i - from < |t| && t[i - from] == bytes[i]
    ensures |t| == if from <= |bytes| then |bytes| - from else 0
  {
    if from <= |bytes| then bytes[from..] else []
  }

  function SourceOf(region: Region, coord: seq<nat>, chunk: seq<nat>, size: nat): nat
    requires |coord| == |chunk| == |region.start|
  {
    Mul(Dot(Skips(region, coord), Strides(chunk)), size)
  }

  function Piece(region: Region, coord: seq<nat>, payload: seq<byte>, chunk: seq<nat>, size: nat): (p: Placement)
    requires |coord| == |chunk| == |region.start| == |region.count| && size > 0
    ensures p.Valid()
  {
    Placement(Tail(payload, SourceOf(region, coord, chunk, size)), Offsets(region, coord),
              Sizes(region, coord, chunk), region.count, Strides(chunk), size)
  }

  /** A chunk's piece covers exactly the region's elements that the chunk holds. */
  lemma PieceCovers(region: Region, coord: seq<nat>, payload: seq<byte>, chunk: seq<nat>, size: nat, extent: seq<nat>,
                    g: seq<nat>)
    requires region.Within(extent) && |coord| == |chunk| == |extent| && size > 0 && InBox(g, region.count)
    ensures var p := Piece(region, coord, payload, chunk, size);
      p.Covers(g) <==> Contains(coord, chunk, Shift(g, region.start))
  {
    var p, s := Piece(region, coord, payload, chunk, size), Shift(g, region.start);
    forall i | 0 <= i < |g|
      ensures p.offsets[i] <= g[i] < p.offsets[i] + p.counts[i] <==> coord[i] <= s[i] < coord[i] + chunk[i]
    {
      assert region.start[i] + region.count[i] <= extent[i] <= U64_MAX;
    }
  }

  /** ... and writes the payload element at their coordinate within the chunk, number `flat`. */
  lemma PiecePuts(region: Region, coord: seq<nat>, payload: seq<byte>, chunk: seq<nat>, size: nat, extent: seq<nat>,
                  g: seq<nat>, flat: nat, b: nat, cell: Cell)
    requires region.Within(extent) && |coord| == |chunk| == |extent| && size > 0 && InBox(g, region.count)
    requires Contains(coord, chunk, Shift(g, region.start)) && |payload| == Product(chunk) * size && b < size
    requires flat == Flat(Within(coord, chunk, Shift(g, region.start)), chunk)
    ensures Piece(region, coord, payload, chunk, size).Put(g, b, cell) == cell.Write(At(payload, Mul(flat, size) + b))
  {
    PieceCovers(region, coord, payload, chunk, size, extent, g);
    PieceOffset(region, coord, payload, chunk, size, extent, g, b);
    var p := Piece(region, coord, payload, chunk, size);
    TailByte(payload, Dot(Skips(region, coord), Strides(chunk)), Dot(p.Local(g), Strides(chunk)), flat, size, b);
  }

  lemma FlatInside(w: seq<nat>, chunk: seq<nat>, size: nat, b: nat)
    requires InBox(w, chunk) && b < size
    ensures Flat(w, chunk) * size + b < Product(chunk) * size
  {
    FlatBound(w, chunk);
    DigitBound(Flat(w, chunk), Product(chunk), size, b);
  }

  lemma SkipsAddUp(region: Region, coord: seq<nat>, p: Placement, chunk: seq<nat>, extent: seq<nat>, g: seq<nat>)
    requires region.Within(extent) && |coord| == |chunk| == |extent| && |g| == |coord|
    requires Contains(coord, chunk, Shift(g, region.start))
    requires p.Valid() && p.offsets == Offsets(region, coord) && p.Covers(g)
    ensures var flat := Flat(Within(coord, chunk, Shift(g, region.start)), chunk);
      flat == Dot(Skips(region, coord), Strides(chunk)) + Dot(p.Local(g), Strides(chunk))
  {
    var w, skips := Within(coord, chunk, Shift(g, region.start)), Skips(region, coord);
    forall i | 0 <= i < |w| ensures w[i] == skips[i] + p.Local(g)[i] {}
    DotSum(skips, p.Local(g), w, Strides(chunk));
    FlatDot(w, chunk);
  }

  /** A covered element's offset in the chunk is the piece's start plus its offset in the piece. */
  lemma PieceOffset(region: Region, coord: seq<nat>, payload: seq<byte>, chunk: seq<nat>, size: nat, extent: seq<nat>,
                    g: seq<nat>, b: nat)
    requires region.Within(extent) && |coord| == |chunk| == |extent| && size > 0 && InBox(g, region.count)
    requires Contains(coord, chunk, Shift(g, region.start)) && b < size
    requires Piece(region, coord, payload, chunk, size).Covers(g)
    ensures var flat := Flat(Within(coord, chunk, Shift(g, region.start)), chunk);
      && flat == Dot(Skips(region, coord), Strides(chunk))
                 + Dot(Piece(region, coord, payload, chunk, size).Local(g), Strides(chunk))
      && flat * size + b < Product(chunk) * size
  {
    SkipsAddUp(region, coord, Piece(region, coord, payload, chunk, size), chunk, extent, g);
    FlatInside(Within(coord, chunk, Shift(g, region.start)), chunk, size, b);
  }

  lemma TailByte(payload: seq<byte>, skip: nat, local: nat, flat: nat, size: nat, b: nat)
    requires flat == skip + local
    ensures At(Tail(payload, Mul(skip, size)), local * size + b) == At(payload, Mul(flat, size) + b)
  {
    MulAdd(skip, local, size);
    TailAt(payload, Mul(skip, size), local * size + b);
  }

  lemma TailAt(payload: seq<byte>, from: nat, i: nat)
    ensures At(Tail(payload, from), i) == At(payload, from + i)
  {
  }

  // ---- The region's bytes ----

  /** The region, element by element, by the same definition as the whole dataset. */
  function RegionBytes(coords: seq<seq<nat>>, payloads: seq<seq<byte>>, chunk: seq<nat>, region: Region, size: nat,
                       fill: seq<byte>): (bytes: seq<byte>)
    requires |payloads| == |coords| && size > 0 && |region.start| == |region.count|
  {
    seq(Product(region.count) * size, k requires 0 <= k =>
      ElementByte(coords, payloads, chunk, size, fill,
                  Shift(Unflat(Quot(k, size), region.count), region.start), Rem(k, size)))
  }

  /**
   A region read is the whole read cut to the region: byte `b` of the region's element `g` is byte
   `b` of the dataset's element `g` past the region's start.
   */
  lemma RegionIsCut(coords: seq<seq<nat>>, payloads: seq<seq<byte>>, chunk: seq<nat>, extent: seq<nat>, region: Region,
                    size: nat, fill: seq<byte>, g: seq<nat>, b: nat)
    requires |payloads| == |coords| && size > 0 && region.Within(extent) && InBox(g, region.count) && b < size
    ensures var s := Shift(g, region.start);
      && InBox(s, extent)
      && ByteIndex(g, region.count, size, b) < Product(region.count) * size
      && ByteIndex(s, extent, size, b) < Product(extent) * size
      && RegionBytes(coords, payloads, chunk, region, size, fill)[ByteIndex(g, region.count, size, b)]
         == WholeBytes(coords, payloads, chunk, extent, size, fill)[ByteIndex(s, extent, size, b)]
  {
    var s := Shift(g, region.start);
    ByteOfElement(g, region.count, size, b);
    ByteOfElement(s, extent, size, b);
  }

  lemma ByteOfElement(g: seq<nat>, dims: seq<nat>, size: nat, b: nat)
    requires InBox(g, dims) && b < size
    ensures ByteIndex(g, dims, size, b) < Product(dims) * size
    ensures Unflat(Quot(ByteIndex(g, dims, size, b), size), dims) == g && Rem(ByteIndex(g, dims, size, b), size) == b
  {
    FlatBound(g, dims);
    DigitBound(Flat(g, dims), Product(dims), size, b);
    DivModUnique(size, Flat(g, dims), b);
    UnflatFlat(g, dims);
  }

  // ---- Selection ----

  /** The ordinals below `n` of the chunks that overlap the region, ascending. */
  function Selected(coords: seq<seq<nat>>, chunk: seq<nat>, region: Region, n: nat): (s: seq<nat>)
    requires n <= |coords|
    ensures forall k :: 0 <= k < |s| ==> s[k] < n && Overlaps(region, coords[s[k]], chunk)
  {
    if n == 0 then []
    else
      var front := Selected(coords, chunk, region, n - 1);
      if Overlaps(region, coords[n - 1], chunk) then front + [n - 1] else front
  }

  function Pick<T>(xs: seq<T>, ordinals: seq<nat>): (r: seq<T>)
    requires forall k :: 0 <= k < |ordinals| ==> ordinals[k] < |xs|
    ensures |r| == |ordinals|
  {
    seq(|ordinals|, k requires 0 <= k < |ordinals| => xs[ordinals[k]])
  }

  /** A chunk that holds an element of the region overlaps it. */
  lemma HolderOverlaps(coord: seq<nat>, chunk: seq<nat>, extent: seq<nat>, region: Region, g: seq<nat>)
    requires region.Within(extent) && InBox(g, region.count) && Contains(coord, chunk, Shift(g, region.start))
    ensures Overlaps(region, coord, chunk)
  {
    var s := Shift(g, region.start);
    forall i | 0 <= i < |coord|
      ensures coord[i] < region.start[i] + region.count[i] && SaturatingAdd(coord[i], chunk[i]) > region.start[i]
    {
      assert coord[i] <= s[i] < coord[i] + chunk[i];
      assert region.start[i] + region.count[i] <= extent[i] <= U64_MAX;
    }
  }

  /** Leaving out the chunks that do not overlap changes no byte of the region. */
  lemma {:induction false} SelectionSuffices(coords: seq<seq<nat>>, payloads: seq<seq<byte>>, chunk: seq<nat>,
                                             extent: seq<nat>, region: Region, size: nat, fill: seq<byte>, g: seq<nat>,
                                             b: nat, n: nat)
    requires |payloads| == |coords| && region.Within(extent) && InBox(g, region.count) && n <= |coords|
    ensures var sel, s := Selected(coords, chunk, region, n), Shift(g, region.start);
      ElementByte(Pick(coords, sel), Pick(payloads, sel), chunk, size, fill, s, b)
      == ElementByte(coords[..n], payloads[..n], chunk, size, fill, s, b)
  {
    var s := Shift(g, region.start);
    if n > 0 {
      SelectionSuffices(coords, payloads, chunk, extent, region, size, fill, g, b, n - 1);
      var before, sel := Selected(coords, chunk, region, n - 1), Selected(coords, chunk, region, n);
      ElementLast(coords, payloads, chunk, size, fill, s, b, n);
      if Overlaps(region, coords[n - 1], chunk) {
        assert Pick(coords, sel) == Pick(coords, before) + [coords[n - 1]];
        assert Pick(payloads, sel) == Pick(payloads, before) + [payloads[n - 1]];
        ElementAppend(Pick(coords, before), Pick(payloads, before), coords[n - 1], payloads[n - 1], chunk, size, fill, s, b);
      } else if Contains(coords[n - 1], chunk, s) {
        HolderOverlaps(coords[n - 1], chunk, extent, region, g);
      }
    }
  }

  lemma ElementAppend(coords: seq<seq<nat>>, payloads: seq<seq<byte>>, coord: seq<nat>, payload: seq<byte>,
                      chunk: seq<nat>, size: nat, fill: seq<byte>, g: seq<nat>, b: nat)
    requires |payloads| == |coords|
    ensures ElementByte(coords + [coord], payloads + [payload], chunk, size, fill, g, b)
         == if Contains(coord, chunk, g) then At(payload, Flat(Within(coord, chunk, g), chunk) * size + b)
            else ElementByte(coords, payloads, chunk, size, fill, g, b)
  {
    assert (coords + [coord])[..|coords|] == coords;
  }

  lemma ElementLast(coords: seq<seq<nat>>, payloads: seq<seq<byte>>, chunk: seq<nat>, size: nat, fill: seq<byte>,
                    g: seq<nat>, b: nat, n: nat)
    requires |payloads| == |coords| && 0 < n <= |coords|
    ensures ElementByte(coords[..n], payloads[..n], chunk, size, fill, g, b)
         == if Contains(coords[n - 1], chunk, g) then
              At(payloads[n - 1], Flat(Within(coords[n - 1], chunk, g), chunk) * size + b)
            else ElementByte(coords[..n - 1], payloads[..n - 1], chunk, size, fill, g, b)
  {
    assert coords[..n] == coords[..n - 1] + [coords[n - 1]];
    assert payloads[..n] == payloads[..n - 1] + [payloads[n - 1]];
    ElementAppend(coords[..n - 1], payloads[..n - 1], coords[n - 1], payloads[n - 1], chunk, size, fill, g, b);
  }

  /** The leading-offset window that `candidates` searches holds every overlapping chunk. */
  lemma CandidateWindow(region: Region, coord: seq<nat>, chunk: seq<nat>)
    requires Overlaps(region, coord, chunk) && |coord| > 0 && Positive(chunk)
    ensures var lo := if region.start[0] >= chunk[0] - 1 then region.start[0] - (chunk[0] - 1) else 0;
      lo <= coord[0] < region.start[0] + region.count[0]
  {
  }

  // ---- Assembling a region ----

  function RegionPieces(coords: seq<seq<nat>>, payloads: seq<seq<byte>>, chunk: seq<nat>, region: Region, size: nat)
    : (pieces: seq<Placement>)
    requires |payloads| == |coords| && SameRank(coords, chunk) && |chunk| == |region.start| == |region.count| && size > 0
    ensures |pieces| == |coords| && Shaped(pieces, region.count, size)
  {
    seq(|coords|, j requires 0 <= j < |coords| => Piece(region, coords[j], payloads[j], chunk, size))
  }

  predicate FullSize(payloads: seq<seq<byte>>, chunk: seq<nat>, size: nat) {
    forall j :: 0 <= j < |payloads| ==> |payloads[j]| == Product(chunk) * size
  }

  lemma {:induction false} RegionWriterIsHolder(coords: seq<seq<nat>>, payloads: seq<seq<byte>>, chunk: seq<nat>, extent: seq<nat>,
                             region: Region, size: nat, g: seq<nat>)
    requires |payloads| == |coords| && SameRank(coords, chunk) && |chunk| == |extent| && size > 0
    requires region.Within(extent) && InBox(g, region.count)
    ensures LastWriter(RegionPieces(coords, payloads, chunk, region, size), region.count, size, g)
         == Holder(coords, chunk, Shift(g, region.start))
  {
    var pieces, s := RegionPieces(coords, payloads, chunk, region, size), Shift(g, region.start);
    forall j | 0 <= j < |coords| ensures CoversAs(pieces, coords, chunk, g, s, j) {
      PieceCovers(region, coords[j], payloads[j], chunk, size, extent, g);
    }
    WritersAreHolders(pieces, coords, chunk, region.count, size, g, s);
  }

  lemma RegionElement(coords: seq<seq<nat>>, payloads: seq<seq<byte>>, chunk: seq<nat>, extent: seq<nat>,
                      region: Region, size: nat, fill: seq<byte>, g: seq<nat>, b: nat, cell: Cell)
    requires |payloads| == |coords| && SameRank(coords, chunk) && |chunk| == |extent| && FullSize(payloads, chunk, size)
    requires region.Within(extent) && InBox(g, region.count) && b < size
    requires Holder(coords, chunk, Shift(g, region.start)).Some? || cell.value == Some(At(fill, b))
    ensures var pieces := RegionPieces(coords, payloads, chunk, region, size);
      Some(ElementByte(coords, payloads, chunk, size, fill, Shift(g, region.start), b))
      == match LastWriter(pieces, region.count, size, g)
         case None => cell.value
         case Some(j) => pieces[j].Put(g, b, cell).value
  {
    RegionWriterIsHolder(coords, payloads, chunk, extent, region, size, g);
    var h := Holder(coords, chunk, Shift(g, region.start));
    if h.Some? {
      var flat := Flat(Within(coords[h.value], chunk, Shift(g, region.start)), chunk);
      PiecePuts(region, coords[h.value], payloads[h.value], chunk, size, extent, g, flat, b, cell);
    }
  }

  lemma RegionByte(coords: seq<seq<nat>>, payloads: seq<seq<byte>>, chunk: seq<nat>, extent: seq<nat>,
                   region: Region, size: nat, fill: seq<byte>, before: seq<Cell>, k: nat)
    requires |payloads| == |coords| && SameRank(coords, chunk) && |chunk| == |extent| && FullSize(payloads, chunk, size)
    requires region.Within(extent) && size > 0 && k < |before| == Product(region.count) * size
    ensures var g := Unflat(Quot(k, size), region.count);
      && InBox(g, region.count)
      && (Holder(coords, chunk, Shift(g, region.start)).Some? || before[k].value == Some(At(fill, Rem(k, size))) ==>
            PlaceAll(RegionPieces(coords, payloads, chunk, region, size), before, region.count, size)[k].value
            == Some(RegionBytes(coords, payloads, chunk, region, size, fill)[k]))
  {
    var g, b := Unflat(Quot(k, size), region.count), Rem(k, size);
    DivBelow(k, size, Product(region.count));
    FlatUnflat(Quot(k, size), region.count);
    PlaceAllAt(RegionPieces(coords, payloads, chunk, region, size), before, region.count, size, k);
    if Holder(coords, chunk, Shift(g, region.start)).Some? || before[k].value == Some(At(fill, b)) {
      RegionElement(coords, payloads, chunk, extent, region, size, fill, g, b, before[k]);
    }
  }

  /** Every element of the region is held by exactly one of the chunks. */
  ghost predicate RegionOnce(coords: seq<seq<nat>>, chunk: seq<nat>, region: Region)
    requires |region.start| == |region.count|
  {
    forall g :: InBox(g, region.count) ==> exists j :: Owner(coords, chunk, Shift(g, region.start), j)
  }

  lemma FilledRegion(coords: seq<seq<nat>>, payloads: seq<seq<byte>>, chunk: seq<nat>, extent: seq<nat>,
                     region: Region, size: nat, fill: seq<byte>)
    requires |payloads| == |coords| && SameRank(coords, chunk) && |chunk| == |extent| && FullSize(payloads, chunk, size)
    requires region.Within(extent) && size > 0
    ensures var cells := PlaceAll(RegionPieces(coords, payloads, chunk, region, size),
                                  FillCells(Product(region.count) * size, fill, size), region.count, size);
      Initialised(cells) && Publish(cells) == RegionBytes(coords, payloads, chunk, region, size, fill)
  {
    var before := FillCells(Product(region.count) * size, fill, size);
    var cells := PlaceAll(RegionPieces(coords, payloads, chunk, region, size), before, region.count, size);
    var bytes := RegionBytes(coords, payloads, chunk, region, size, fill);
    forall k | 0 <= k < |cells| ensures cells[k].value == Some(bytes[k]) {
      RegionByte(coords, payloads, chunk, extent, region, size, fill, before, k);
    }
    assert Publish(cells) == bytes;
  }

  /** With complete coverage an uninitialised region buffer ends up written exactly once everywhere. */
  lemma CoveredRegion(coords: seq<seq<nat>>, payloads: seq<seq<byte>>, chunk: seq<nat>, extent: seq<nat>,
                      region: Region, size: nat, fill: seq<byte>)
    requires |payloads| == |coords| && SameRank(coords, chunk) && |chunk| == |extent| && FullSize(payloads, chunk, size)
    requires region.Within(extent) && size > 0 && RegionOnce(coords, chunk, region)
    ensures var cells := PlaceAll(RegionPieces(coords, payloads, chunk, region, size),
                                  Blank(Product(region.count) * size), region.count, size);
      && (forall k :: 0 <= k < |cells| ==> cells[k].writes == 1)
      && Initialised(cells) && Publish(cells) == RegionBytes(coords, payloads, chunk, region, size, fill)
  {
    var cells := PlaceAll(RegionPieces(coords, payloads, chunk, region, size),
                          Blank(Product(region.count) * size), region.count, size);
    var bytes := RegionBytes(coords, payloads, chunk, region, size, fill);
    forall k | 0 <= k < |cells| ensures cells[k] == Cell(Some(bytes[k]), 1) {
      CoveredByte(coords, payloads, chunk, extent, region, size, fill, k);
    }
    assert Publish(cells) == bytes;
  }

  lemma CoveredByte(coords: seq<seq<nat>>, payloads: seq<seq<byte>>, chunk: seq<nat>, extent: seq<nat>,
                    region: Region, size: nat, fill: seq<byte>, k: nat)
    requires |payloads| == |coords| && SameRank(coords, chunk) && |chunk| == |extent| && FullSize(payloads, chunk, size)
    requires region.Within(extent) && size > 0 && RegionOnce(coords, chunk, region)
    requires k < Product(region.count) * size
    ensures PlaceAll(RegionPieces(coords, payloads, chunk, region, size),
                     Blank(Product(region.count) * size), region.count, size)[k]
         == Cell(Some(RegionBytes(coords, payloads, chunk, region, size, fill)[k]), 1)
  {
    var before, g := Blank(Product(region.count) * size), Unflat(Quot(k, size), region.count);
    var pieces, s := RegionPieces(coords, payloads, chunk, region, size), Shift(g, region.start);
    RegionByte(coords, payloads, chunk, extent, region, size, fill, before, k);
    PlaceAllAt(pieces, before, region.count, size, k);
    var j: nat :| Owner(coords, chunk, s, j);
    forall i | 0 <= i < |pieces| ensures pieces[i].Covers(g) <==> i == j {
      PieceCovers(region, coords[i], payloads[i], chunk, size, extent, g);
    }
    TimesOnce(pieces, region.count, size, g, j);
  }

  /** Reading the region from the selected chunks alone gives the same bytes as reading it from all of them. */
  lemma RegionFromSelection(coords: seq<seq<nat>>, payloads: seq<seq<byte>>, chunk: seq<nat>, extent: seq<nat>,
                            region: Region, size: nat, fill: seq<byte>)
    requires |payloads| == |coords| && size > 0 && region.Within(extent)
    ensures var sel := Selected(coords, chunk, region, |coords|);
      RegionBytes(Pick(coords, sel), Pick(payloads, sel), chunk, region, size, fill)
      == RegionBytes(coords, payloads, chunk, region, size, fill)
  {
    var sel, n := Selected(coords, chunk, region, |coords|), Product(region.count) * size;
    var some := RegionBytes(Pick(coords, sel), Pick(payloads, sel), chunk, region, size, fill);
    var all := RegionBytes(coords, payloads, chunk, region, size, fill);
    forall k | 0 <= k < n ensures some[k] == all[k] {
      DivBelow(k, size, Product(region.count));
      FlatUnflat(Quot(k, size), region.count);
      var g := Unflat(Quot(k, size), region.count);
      SelectionSuffices(coords, payloads, chunk, extent, region, size, fill, g, Rem(k, size), |coords|);
      assert coords[..|coords|] == coords && payloads[..|payloads|] == payloads;
    }
  }
}
