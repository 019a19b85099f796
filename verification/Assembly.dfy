/**
 What a sequence of placements leaves in a buffer: which chunk's bytes each element ends up with,
 and how often each byte was written.
 */
module Assembly {
  import opened Basics
  import opened RowMajor
  import opened Coverage
  import opened Scatter

  predicate Shaped(pieces: seq<Placement>, extent: seq<nat>, size: nat) {
    size > 0 && forall j :: 0 <= j < |pieces| ==>
      && |pieces[j].offsets| == |pieces[j].counts| == |pieces[j].strides| == |extent|
      && pieces[j].extent == extent && pieces[j].size == size
  }

  /** The buffer after every piece has been placed, in order. */
  function PlaceAll(pieces: seq<Placement>, before: seq<Cell>, extent: seq<nat>, size: nat): (after: seq<Cell>)
    requires Shaped(pieces, extent, size)
    ensures |after| == |before|
  {
    if pieces == [] then before
    else pieces[|pieces| - 1].Apply(PlaceAll(pieces[..|pieces| - 1], before, extent, size))
  }

  /** The last piece that covers element `g`. */
  function LastWriter(pieces: seq<Placement>, extent: seq<nat>, size: nat, g: seq<nat>): (w: Option<nat>)
    requires Shaped(pieces, extent, size)
    ensures w.Some? ==> w.value < |pieces| && pieces[w.value].Covers(g)
    ensures forall j :: 0 <= j < |pieces| && pieces[j].Covers(g) ==> w.Some? && j <= w.value
  {
    if pieces == [] then None
    else if pieces[|pieces| - 1].Covers(g) then Some(|pieces| - 1)
    else LastWriter(pieces[..|pieces| - 1], extent, size, g)
  }

  /** How many pieces cover element `g`. */
  function Times(pieces: seq<Placement>, extent: seq<nat>, size: nat, g: seq<nat>): nat
    requires Shaped(pieces, extent, size)
  {
    if pieces == [] then 0
    else Times(pieces[..|pieces| - 1], extent, size, g) + if pieces[|pieces| - 1].Covers(g) then 1 else 0
  }

  lemma {:induction false} PlaceAllAt(pieces: seq<Placement>, before: seq<Cell>, extent: seq<nat>, size: nat, k: nat)
    requires Shaped(pieces, extent, size) && k < |before|
    ensures var g, cell := Unflat(Quot(k, size), extent), PlaceAll(pieces, before, extent, size)[k];
      && cell.writes == before[k].writes + Times(pieces, extent, size, g)
      && cell.value == match LastWriter(pieces, extent, size, g)
                       case None => before[k].value
                       case Some(j) => pieces[j].After(k, before[k]).value
  {
    if pieces != [] {
      PlaceAllAt(pieces[..|pieces| - 1], before, extent, size, k);
    }
  }

  /** An element that one piece covers is covered once. */
  lemma {:induction false} TimesOnce(pieces: seq<Placement>, extent: seq<nat>, size: nat, g: seq<nat>, j: int)
    requires Shaped(pieces, extent, size) && -1 <= j < |pieces|
    requires forall i :: 0 <= i < |pieces| ==> (pieces[i].Covers(g) <==> i == j)
    ensures Times(pieces, extent, size, g) == if j == -1 then 0 else 1
  {
    if pieces != [] {
      var front := pieces[..|pieces| - 1];
      TimesOnce(front, extent, size, g, if j == |front| then -1 else j);
    }
  }

  // ---- Elements and the chunks that hold them ----

  /** The last chunk, in descriptor order, that holds element `g`. */
  function Holder(coords: seq<seq<nat>>, chunk: seq<nat>, g: seq<nat>): (h: Option<nat>)
    ensures h.Some? ==> h.value < |coords| && Contains(coords[h.value], chunk, g)
    ensures forall j :: 0 <= j < |coords| && Contains(coords[j], chunk, g) ==> h.Some? && j <= h.value
  {
    if coords == [] then None
    else if Contains(coords[|coords| - 1], chunk, g) then Some(|coords| - 1)
    else Holder(coords[..|coords| - 1], chunk, g)
  }

  /** The coordinate of element `g` within the chunk at `coord`. */
  function Within(coord: seq<nat>, chunk: seq<nat>, g: seq<nat>): (c: seq<nat>)
    requires Contains(coord, chunk, g)
    ensures InBox(c, chunk)
  {
    seq(|g|, i requires 0 <= i < |g| => g[i] - coord[i])
  }

  function At(bytes: seq<byte>, i: nat): byte { if i < |bytes| then bytes[i] else 0 }

  /**
   Byte `b` of element `g` of the dataset: from the last chunk that holds it, or from the fill
   pattern. A reader never computes this; it is what every reader must return.
   */
  function ElementByte(coords: seq<seq<nat>>, payloads: seq<seq<byte>>, chunk: seq<nat>, size: nat,
                       fill: seq<byte>, g: seq<nat>, b: nat): byte
    requires |payloads| == |coords|
  {
    match Holder(coords, chunk, g)
    case None => At(fill, b)
    case Some(j) => At(payloads[j], Flat(Within(coords[j], chunk, g), chunk) * size + b)
  }

  /** The whole dataset, element by element. */
  function WholeBytes(coords: seq<seq<nat>>, payloads: seq<seq<byte>>, chunk: seq<nat>, extent: seq<nat>,
                      size: nat, fill: seq<byte>): (bytes: seq<byte>)
    requires |payloads| == |coords| && size > 0
  {
    seq(Product(extent) * size, k requires 0 <= k =>
      ElementByte(coords, payloads, chunk, size, fill, Unflat(Quot(k, size), extent), Rem(k, size)))
  }

  predicate SameRank(coords: seq<seq<nat>>, chunk: seq<nat>) {
    forall j :: 0 <= j < |coords| ==> |coords[j]| == |chunk|
  }

  function Pieces(coords: seq<seq<nat>>, payloads: seq<seq<byte>>, chunk: seq<nat>, extent: seq<nat>, size: nat)
    : (pieces: seq<Placement>)
    requires |payloads| == |coords| && |chunk| == |extent| && size > 0 && SameRank(coords, chunk)
    ensures |pieces| == |coords| && Shaped(pieces, extent, size)
  {
    seq(|coords|, j requires 0 <= j < |coords| =>
      PlacementOf(payloads[j], coords[j], chunk, extent, Strides(chunk), size))
  }

  /** Within the dataset, a chunk's clipped box holds the elements that the chunk holds. */
  lemma CoversContains(p: Placement, coord: seq<nat>, chunk: seq<nat>, g: seq<nat>)
    requires |coord| == |chunk| == |p.extent| && InBox(g, p.extent)
    requires p.offsets == coord && p.counts == Clip(coord, chunk, p.extent)
    ensures p.Covers(g) <==> Contains(coord, chunk, g)
    ensures p.Covers(g) ==> p.Local(g) == Within(coord, chunk, g)
  {
    forall i | 0 <= i < |g|
      ensures coord[i] <= g[i] < coord[i] + p.counts[i] <==> coord[i] <= g[i] < coord[i] + chunk[i]
    {
    }
  }

  /** Piece `j` covers element `g` exactly when chunk `j` holds the dataset element `s`. */
  ghost predicate CoversAs(pieces: seq<Placement>, coords: seq<seq<nat>>, chunk: seq<nat>, g: seq<nat>, s: seq<nat>, j: nat)
    requires j < |pieces| && j < |coords| && |pieces[j].offsets| == |pieces[j].counts|
  {
    pieces[j].Covers(g) <==> Contains(coords[j], chunk, s)
  }

  lemma {:induction false} WritersAreHolders(pieces: seq<Placement>, coords: seq<seq<nat>>, chunk: seq<nat>,
                                             count: seq<nat>, size: nat, g: seq<nat>, s: seq<nat>)
    requires |pieces| == |coords| && Shaped(pieces, count, size)
    requires forall j :: 0 <= j < |coords| ==> CoversAs(pieces, coords, chunk, g, s, j)
    ensures LastWriter(pieces, count, size, g) == Holder(coords, chunk, s)
  {
    var w, h := LastWriter(pieces, count, size, g), Holder(coords, chunk, s);
    assert w.Some? ==> CoversAs(pieces, coords, chunk, g, s, w.value);
    assert h.Some? ==> CoversAs(pieces, coords, chunk, g, s, h.value);
  }

  /** The last piece to write an element is the last chunk that holds it. */
  lemma {:induction false} WriterIsHolder(coords: seq<seq<nat>>, payloads: seq<seq<byte>>, chunk: seq<nat>, extent: seq<nat>,
                       size: nat, g: seq<nat>)
    requires |payloads| == |coords| && |chunk| == |extent| && size > 0 && SameRank(coords, chunk)
    requires InBox(g, extent)
    ensures LastWriter(Pieces(coords, payloads, chunk, extent, size), extent, size, g) == Holder(coords, chunk, g)
  {
    var pieces := Pieces(coords, payloads, chunk, extent, size);
    forall j | 0 <= j < |coords| ensures CoversAs(pieces, coords, chunk, g, g, j) {
      CoversContains(pieces[j], coords[j], chunk, g);
    }
    WritersAreHolders(pieces, coords, chunk, extent, size, g, g);
  }

  /** A piece writes, at element `g`, the payload element at its coordinate within the chunk. */
  lemma PieceByte(p: Placement, coord: seq<nat>, chunk: seq<nat>, g: seq<nat>, b: nat, cell: Cell)
    requires |coord| == |chunk| == |p.extent| && InBox(g, p.extent) && Contains(coord, chunk, g)
    requires p.offsets == coord && p.counts == Clip(coord, chunk, p.extent) && p.strides == Strides(chunk)
    ensures p.Put(g, b, cell) == cell.Write(At(p.data, Flat(Within(coord, chunk, g), chunk) * p.size + b))
  {
    CoversContains(p, coord, chunk, g);
    FlatDot(Within(coord, chunk, g), chunk);
  }

  /** Byte `b` of element `g` after every piece has been placed. */
  lemma PlacedElement(coords: seq<seq<nat>>, payloads: seq<seq<byte>>, chunk: seq<nat>, extent: seq<nat>, size: nat,
                      fill: seq<byte>, g: seq<nat>, b: nat, cell: Cell)
    requires |payloads| == |coords| && |chunk| == |extent| && size > 0 && SameRank(coords, chunk)
    requires InBox(g, extent)
    requires Holder(coords, chunk, g).Some? || cell.value == Some(At(fill, b))
    ensures var pieces := Pieces(coords, payloads, chunk, extent, size);
      Some(ElementByte(coords, payloads, chunk, size, fill, g, b))
      == match LastWriter(pieces, extent, size, g)
         case None => cell.value
         case Some(j) => pieces[j].Put(g, b, cell).value
  {
    WriterIsHolder(coords, payloads, chunk, extent, size, g);
    if Holder(coords, chunk, g).Some? {
      var j := Holder(coords, chunk, g).value;
      PieceByte(Pieces(coords, payloads, chunk, extent, size)[j], coords[j], chunk, g, b, cell);
    }
  }

  /** Byte `k` of the assembled buffer, whatever the chunks. */
  lemma PlacedByte(coords: seq<seq<nat>>, payloads: seq<seq<byte>>, chunk: seq<nat>, extent: seq<nat>, size: nat,
                   fill: seq<byte>, before: seq<Cell>, k: nat)
    requires |payloads| == |coords| && |chunk| == |extent| && size > 0 && SameRank(coords, chunk)
    requires k < |before| == Product(extent) * size
    ensures var g, cell := Unflat(Quot(k, size), extent),
                           PlaceAll(Pieces(coords, payloads, chunk, extent, size), before, extent, size)[k];
      && InBox(g, extent)
      && (Holder(coords, chunk, g).Some? || before[k].value == Some(At(fill, Rem(k, size))) ==>
            cell.value == Some(WholeBytes(coords, payloads, chunk, extent, size, fill)[k]))
  {
    var g, b := Unflat(Quot(k, size), extent), Rem(k, size);
    DivBelow(k, size, Product(extent));
    FlatUnflat(Quot(k, size), extent);
    PlaceAllAt(Pieces(coords, payloads, chunk, extent, size), before, extent, size, k);
    if Holder(coords, chunk, g).Some? || before[k].value == Some(At(fill, b)) {
      PlacedElement(coords, payloads, chunk, extent, size, fill, g, b, before[k]);
    }
  }

  function Blank(n: nat): (cells: seq<Cell>)
    ensures |cells| == n
  {
    seq(n, i => Cell(None, 0))
  }

  function FillCells(n: nat, fill: seq<byte>, size: nat): (cells: seq<Cell>)
    requires size > 0
    ensures |cells| == n
  {
    seq(n, k requires 0 <= k => Cell(Some(At(fill, Rem(k, size))), 0))
  }

  ghost predicate Initialised(cells: seq<Cell>) {
    forall k :: 0 <= k < |cells| ==> cells[k].value.Some?
  }

  /** The published bytes of a buffer. */
  function Publish(cells: seq<Cell>): (bytes: seq<byte>)
    requires Initialised(cells)
    ensures |bytes| == |cells|
  {
    seq(|cells|, k requires 0 <= k < |cells| => cells[k].value.value)
  }

  /** A filled buffer ends up holding the dataset, for any list of chunks: missing, overlapping or misaligned. */
  lemma FilledIsWhole(coords: seq<seq<nat>>, payloads: seq<seq<byte>>, chunk: seq<nat>, extent: seq<nat>, size: nat,
                      fill: seq<byte>)
    requires |payloads| == |coords| && |chunk| == |extent| && size > 0 && SameRank(coords, chunk)
    ensures var cells := PlaceAll(Pieces(coords, payloads, chunk, extent, size),
                                  FillCells(Product(extent) * size, fill, size), extent, size);
      Initialised(cells) && Publish(cells) == WholeBytes(coords, payloads, chunk, extent, size, fill)
  {
    var before := FillCells(Product(extent) * size, fill, size);
    var cells := PlaceAll(Pieces(coords, payloads, chunk, extent, size), before, extent, size);
    forall k | 0 <= k < |cells|
      ensures cells[k].value == Some(WholeBytes(coords, payloads, chunk, extent, size, fill)[k])
    {
      PlacedByte(coords, payloads, chunk, extent, size, fill, before, k);
    }
    assert Publish(cells) == WholeBytes(coords, payloads, chunk, extent, size, fill);
  }

  /**
   An uninitialised buffer into which a tiling has been placed is initialised: every byte was
   written exactly once, and holds the byte of the one chunk that contains its element.
   */
  lemma TiledIsWhole(coords: seq<seq<nat>>, payloads: seq<seq<byte>>, chunk: seq<nat>, extent: seq<nat>, size: nat,
                     fill: seq<byte>)
    requires |payloads| == |coords| && size > 0 && Tiles(coords, chunk, extent)
    ensures SameRank(coords, chunk)
    ensures var cells := PlaceAll(Pieces(coords, payloads, chunk, extent, size),
                                  Blank(Product(extent) * size), extent, size);
      && (forall k :: 0 <= k < |cells| ==> cells[k].writes == 1)
      && Initialised(cells) && Publish(cells) == WholeBytes(coords, payloads, chunk, extent, size, fill)
  {
    var before := Blank(Product(extent) * size);
    var pieces := Pieces(coords, payloads, chunk, extent, size);
    var cells := PlaceAll(pieces, before, extent, size);
    forall k | 0 <= k < |cells|
      ensures cells[k] == Cell(Some(WholeBytes(coords, payloads, chunk, extent, size, fill)[k]), 1)
    {
      TiledByte(coords, payloads, chunk, extent, size, fill, k);
    }
    assert Publish(cells) == WholeBytes(coords, payloads, chunk, extent, size, fill);
  }

  lemma TiledByte(coords: seq<seq<nat>>, payloads: seq<seq<byte>>, chunk: seq<nat>, extent: seq<nat>, size: nat,
                  fill: seq<byte>, k: nat)
    requires |payloads| == |coords| && size > 0 && Tiles(coords, chunk, extent) && SameRank(coords, chunk)
    requires k < Product(extent) * size
    ensures PlaceAll(Pieces(coords, payloads, chunk, extent, size), Blank(Product(extent) * size), extent, size)[k]
         == Cell(Some(WholeBytes(coords, payloads, chunk, extent, size, fill)[k]), 1)
  {
    var before, g := Blank(Product(extent) * size), Unflat(Quot(k, size), extent);
    var pieces := Pieces(coords, payloads, chunk, extent, size);
    PlacedByte(coords, payloads, chunk, extent, size, fill, before, k);
    PlaceAllAt(pieces, before, extent, size, k);
    TilesEachOnce(coords, chunk, extent);
    var j: nat :| Owner(coords, chunk, g, j);
    forall i | 0 <= i < |pieces| ensures pieces[i].Covers(g) <==> i == j {
      CoversContains(pieces[i], coords[i], chunk, g);
    }
    TimesOnce(pieces, extent, size, g, j);
  }
}
