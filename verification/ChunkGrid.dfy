/**
 Numbering the chunks of a positional index (src/chunk_grid.rs): mixed-radix slot numbers over the
 maximum chunk grid, with an unlimited dimension rotated to the front.
 */
module ChunkGrid {
  import opened Basics
  import opened RowMajor

  datatype MaxExtent = Unlimited | Fixed(size: nat)

  datatype GridOrder = RowMajorOrder | UnlimitedFirst

  /** The chunk count of each dimension of the maximum shape; `None` is unbounded. */
  type Counts = seq<Option<nat>>

  // ---- Rotation ----

  predicate Rotation(rotated: Option<nat>, rank: nat) {
    rotated.Some? ==> 0 < rotated.value < rank
  }

  /** `dim_at`: the dataset dimension at rotated position `i`. */
  function DimAt(i: nat, rotated: Option<nat>): nat {
    match rotated
    case None => i
    case Some(u) => if i == 0 then u else if i <= u then i - 1 else i
  }

  /** The rotated position of dataset dimension `d`. */
  function PositionOf(d: nat, rotated: Option<nat>): nat {
    match rotated
    case None => d
    case Some(u) => if d == u then 0 else if d < u then d + 1 else d
  }

  function Rotate<T>(x: seq<T>, rotated: Option<nat>): (r: seq<T>)
    requires Rotation(rotated, |x|)
    ensures |r| == |x|
    ensures forall i :: 0 <= i < |x| ==> r[i] == x[DimAt(i, rotated)]
  {
    match rotated
    case None => x
    case Some(u) => [x[u]] + x[..u] + x[u + 1..]
  }

  function Unrotate<T>(r: seq<T>, rotated: Option<nat>): (x: seq<T>)
    requires Rotation(rotated, |r|)
    ensures |x| == |r|
    ensures forall d :: 0 <= d < |r| ==> x[d] == r[PositionOf(d, rotated)]
  {
    match rotated
    case None => r
    case Some(u) => r[1..u + 1] + [r[0]] + r[u + 1..]
  }

  /** The rotation moves one dimension to the front and shifts those ahead of it; it loses none. */
  lemma RotateInverse<T>(x: seq<T>, rotated: Option<nat>)
    requires Rotation(rotated, |x|)
    ensures Unrotate(Rotate(x, rotated), rotated) == x
    ensures Rotate(Unrotate(x, rotated), rotated) == x
  {
    if rotated.Some? {
      var u, turned, back := rotated.value, Rotate(x, rotated), Unrotate(x, rotated);
      assert turned[1..u + 1] == x[..u] && turned[u + 1..] == x[u + 1..];
      assert back[..u] == x[1..u + 1] && back[u + 1..] == x[u + 1..];
      SplitAt(x, u);
    }
  }

  lemma RotateProduct(x: seq<nat>, rotated: Option<nat>)
    requires Rotation(rotated, |x|)
    ensures Product(Rotate(x, rotated)) == Product(x)
  {
    if rotated.Some? {
      var u := rotated.value;
      var a, b := x[..u], x[u + 1..];
      assert Product([x[u]] + (a + b)) == x[u] * Product(a + b) by {
        assert ([x[u]] + (a + b))[1..] == a + b;
      }
      assert [x[u]] + (a + b) == [x[u]] + a + b;
      SplitAt(x, u);
      ProductInsert(a, x[u], b);
    }
  }

  lemma ProductInsert(a: seq<nat>, y: nat, b: seq<nat>)
    ensures Product(a + [y] + b) == y * Product(a + b)
  {
    var x, u := a + [y] + b, |a|;
    ProductSplit(a + b, u);
    assert (a + b)[..u] == a && (a + b)[u..] == b;
    ProductSplit(x, u);
    assert x[..u] == a && x[u..] == [y] + b;
    assert ([y] + b)[1..] == b;
    MulSwap(y, Product(a), Product(b));
  }

  lemma MulSwap(a: nat, b: nat, c: nat)
    ensures a * (b * c) == b * (a * c)
  {
  }

  // ---- Open numbering: the first digit has no bound ----

  /** Every digit but the first is below its radix. */
  predicate Digits(c: seq<nat>, radix: seq<nat>) {
    |c| == |radix| && forall i :: 1 <= i < |c| ==> c[i] < radix[i]
  }

  lemma DigitsTail(c: seq<nat>, radix: seq<nat>)
    requires Digits(c, radix) && |c| > 0
    ensures InBox(c[1..], radix[1..])
  {
  }

  /** Decoding a number and encoding the digits gives the number back, for every number. */
  lemma EncodeDecode(n: nat, radix: seq<nat>)
    requires |radix| > 0 && Positive(radix[1..])
    ensures Digits(Unflat(n, radix), radix)
    ensures Flat(Unflat(n, radix), radix) == n
  {
    var rest := Product(radix[1..]);
    ProductPositive(radix[1..]);
    FlatUnflat(Rem(n, rest), radix[1..]);
    var c := Unflat(n, radix);
    assert c[1..] == Unflat(Rem(n, rest), radix[1..]);
    forall i | 1 <= i < |c| ensures c[i] < radix[i] {
      assert c[i] == c[1..][i - 1];
    }
    QuotRem(n, rest);
  }

  /** Encoding digits below their radix and decoding gives the digits back. */
  lemma DecodeEncode(c: seq<nat>, radix: seq<nat>)
    requires |radix| > 0 && Digits(c, radix)
    ensures Unflat(Flat(c, radix), radix) == c
  {
    var rest, tail := Product(radix[1..]), Flat(c[1..], radix[1..]);
    DigitsTail(c, radix);
    UnflatFlat(c[1..], radix[1..]);
    DivModUnique(rest, c[0], tail);
    assert c == [c[0]] + c[1..];
  }

  /** A larger first digit is a larger number, whatever the other digits. */
  lemma FirstDigitOrders(a: seq<nat>, b: seq<nat>, radix: seq<nat>)
    requires |radix| > 0 && Digits(a, radix) && Digits(b, radix) && a[0] < b[0]
    ensures Flat(a, radix) < Flat(b, radix)
  {
    DigitsTail(a, radix);
    FlatBound(a[1..], radix[1..]);
    MulStep(a[0], b[0], Product(radix[1..]));
  }

  // ---- The grid ----

  function MaxCounts(chunk: seq<nat>, dims: seq<nat>, max: Option<seq<MaxExtent>>): (counts: Counts)
    requires |dims| == |chunk| && Positive(chunk) && (max.Some? ==> |max.value| == |chunk|)
    ensures |counts| == |chunk|
  {
    seq(|chunk|, d requires 0 <= d < |chunk| =>
      match (if max.Some? then max.value[d] else Fixed(dims[d]))
      case Unlimited => None
      case Fixed(size) => Some(DivCeil(size, chunk[d])))
  }

  /** The first unbounded dimension, or the rank. */
  function FirstUnbounded(counts: Counts): (d: nat)
    ensures d <= |counts|
    ensures forall j :: 0 <= j < d ==> counts[j].Some?
    ensures d < |counts| ==> counts[d].None?
  {
    if counts == [] || counts[0].None? then 0 else 1 + FirstUnbounded(counts[1..])
  }

  function RotationOf(counts: Counts, order: GridOrder): (rotated: Option<nat>)
    ensures Rotation(rotated, |counts|)
  {
    if order.UnlimitedFirst? && 0 < FirstUnbounded(counts) < |counts| then Some(FirstUnbounded(counts)) else None
  }

  /** The radix of each rotated position. The first never enters a multiplier, so an unbounded one is 0 here. */
  function Radix(counts: Counts, rotated: Option<nat>): (radix: seq<nat>)
    requires Rotation(rotated, |counts|)
    ensures |radix| == |counts|
  {
    seq(|counts|, i requires 0 <= i < |counts| =>
      match Rotate(counts, rotated)[i]
      case None => 0
      case Some(n) => if i == 0 then n else Max(n, 1))
  }

  /** Rotated positions after the first are bounded. */
  predicate Bounded(counts: Counts, rotated: Option<nat>)
    requires Rotation(rotated, |counts|)
  {
    forall i :: 1 <= i < |counts| ==> Rotate(counts, rotated)[i].Some?
  }

  /** Some rotated position after the first has no chunks. */
  predicate Unnumberable(counts: Counts, rotated: Option<nat>)
    requires Rotation(rotated, |counts|)
  {
    exists i :: 1 <= i < |counts| && Rotate(counts, rotated)[i] == Some(0)
  }

  function Values(counts: Counts, n: nat): seq<nat>
    requires n <= |counts| && forall d :: 0 <= d < n ==> counts[d].Some?
  {
    seq(n, d requires 0 <= d < n => counts[d].value)
  }

  /** The running slot count fits, up to the first unbounded dimension. */
  predicate SlotsFit(counts: Counts) {
    forall n :: 0 <= n <= FirstUnbounded(counts) ==> Product(Values(counts, n)) <= U64_MAX
  }

  predicate MultipliersFit(radix: seq<nat>) {
    forall i :: 1 <= i < |radix| ==> Product(radix[i..]) <= U64_MAX
  }

  /** The fields of the constructed grid, and the counts they were computed from. */
  datatype Grid = Grid(chunk: seq<nat>, dims: seq<nat>, counts: Counts, rotated: Option<nat>, down: seq<nat>,
                       slots: Option<nat>, unnumberable: bool)
  {
    predicate Valid() {
      && |chunk| == |dims| == |counts| && Positive(chunk) && Rotation(rotated, |counts|)
      && Bounded(counts, rotated)
      && down == Strides(Radix(counts, rotated))
      && (unnumberable <==> Unnumberable(counts, rotated))
      && slots == if FirstUnbounded(counts) == |counts| then Some(Product(Values(counts, |counts|))) else None
    }

    /** The slot of chunk coordinates, as a mathematical number. */
    function Number(coords: seq<nat>): nat
      requires Valid() && |coords| == |chunk|
    {
      Flat(Rotate(coords, rotated), Radix(counts, rotated))
    }

    /** The chunk coordinates at a slot. */
    function CoordsAt(slot: nat): (coords: seq<nat>)
      requires Valid()
      ensures |coords| == |chunk|
    {
      Unrotate(Unflat(slot, Radix(counts, rotated)), rotated)
    }

    /** The coordinates are below the maximum counts in every rotated position but the first. */
    predicate Reaches(coords: seq<nat>)
      requires Valid()
    {
      |coords| == |chunk| && Digits(Rotate(coords, rotated), Radix(counts, rotated))
    }
  }

  lemma RadixPositive(g: Grid)
    requires g.Valid() && |g.chunk| > 0
    ensures Positive(Radix(g.counts, g.rotated)[1..])
  {
  }

  /** `offsets_at` and `slot_of` are inverse: a slot's coordinates have that slot. */
  lemma SlotOfCoords(g: Grid, slot: nat)
    requires g.Valid() && |g.chunk| > 0
    ensures g.Number(g.CoordsAt(slot)) == slot
    ensures g.Reaches(g.CoordsAt(slot))
  {
    var radix := Radix(g.counts, g.rotated);
    RadixPositive(g);
    EncodeDecode(slot, radix);
    RotateInverse(Unflat(slot, radix), g.rotated);
  }

  /** ... and coordinates within the maximum shape are those at their slot. */
  lemma CoordsOfSlot(g: Grid, coords: seq<nat>)
    requires g.Valid() && |g.chunk| > 0 && g.Reaches(coords)
    ensures g.CoordsAt(g.Number(coords)) == coords
  {
    DecodeEncode(Rotate(coords, g.rotated), Radix(g.counts, g.rotated));
    RotateInverse(coords, g.rotated);
  }

  lemma NumberInjective(g: Grid, a: seq<nat>, b: seq<nat>)
    requires g.Valid() && |g.chunk| > 0 && g.Reaches(a) && g.Reaches(b)
    requires g.Number(a) == g.Number(b)
    ensures a == b
  {
    CoordsOfSlot(g, a);
    CoordsOfSlot(g, b);
  }

  lemma BoundedRadix(g: Grid)
    requires g.Valid() && g.slots.Some? && !g.unnumberable
    ensures Radix(g.counts, g.rotated) == Rotate(Values(g.counts, |g.counts|), g.rotated)
    ensures Product(Radix(g.counts, g.rotated)) == g.slots.value
  {
    var sizes, radix := Values(g.counts, |g.counts|), Radix(g.counts, g.rotated);
    forall i | 0 <= i < |radix| ensures radix[i] == Rotate(sizes, g.rotated)[i] {
      assert Rotate(g.counts, g.rotated)[i] == Some(Rotate(sizes, g.rotated)[i]);
    }
    RotateProduct(sizes, g.rotated);
  }

  /** A bounded grid numbers each chunk of its maximum shape with a slot below `slots` of its own ... */
  lemma BoundedSlots(g: Grid, coords: seq<nat>)
    requires g.Valid() && |g.chunk| > 0 && g.slots.Some? && !g.unnumberable
    requires InBox(coords, Values(g.counts, |g.counts|))
    ensures g.Reaches(coords) && g.Number(coords) < g.slots.value && g.CoordsAt(g.Number(coords)) == coords
  {
    var radix, r := Radix(g.counts, g.rotated), Rotate(coords, g.rotated);
    BoundedRadix(g);
    assert InBox(r, radix);
    FlatBound(r, radix);
    CoordsOfSlot(g, coords);
  }

  /** ... and every slot below `slots` is one of theirs. */
  lemma BoundedCoords(g: Grid, slot: nat)
    requires g.Valid() && |g.chunk| > 0 && g.slots.Some? && !g.unnumberable && slot < g.slots.value
    ensures InBox(g.CoordsAt(slot), Values(g.counts, |g.counts|)) && g.Number(g.CoordsAt(slot)) == slot
  {
    var radix, sizes := Radix(g.counts, g.rotated), Values(g.counts, |g.counts|);
    BoundedRadix(g);
    FlatUnflat(slot, radix);
    SlotOfCoords(g, slot);
    UnrotateInBox(Unflat(slot, radix), sizes, g.rotated);
  }

  lemma {:induction false} PositionInverse(d: nat, rotated: Option<nat>, rank: nat)
    requires Rotation(rotated, rank) && d < rank
    ensures PositionOf(d, rotated) < rank && DimAt(PositionOf(d, rotated), rotated) == d
  {
  }

  lemma {:induction false} UnrotateInBox(c: seq<nat>, sizes: seq<nat>, rotated: Option<nat>)
    requires Rotation(rotated, |sizes|) && InBox(c, Rotate(sizes, rotated))
    ensures InBox(Unrotate(c, rotated), sizes)
  {
    forall d | 0 <= d < |sizes| ensures Unrotate(c, rotated)[d] < sizes[d] {
      var at := PositionOf(d, rotated);
      PositionInverse(d, rotated, |sizes|);
      assert c[at] < Rotate(sizes, rotated)[at];
    }
  }

  /** What `ChunkGrid::new` makes of a chunk shape, a current and a maximum shape, and an order. */
  predicate BuiltFrom(g: Grid, chunk: seq<nat>, dims: seq<nat>, max: Option<seq<MaxExtent>>, order: GridOrder) {
    && |dims| == |chunk| && (max.Some? ==> |max.value| == |chunk|) && Positive(chunk)
    && g.Valid() && g.chunk == chunk && g.dims == dims
    && g.counts == MaxCounts(chunk, dims, max) && g.rotated == RotationOf(g.counts, order)
  }

  /** Under one maximum shape the current shape does not enter the numbering. */
  lemma NumberingIsStable(g: Grid, grown: Grid, chunk: seq<nat>, dims: seq<nat>, longer: seq<nat>, max: seq<MaxExtent>,
                          order: GridOrder, c: seq<nat>)
    requires BuiltFrom(g, chunk, dims, Some(max), order) && BuiltFrom(grown, chunk, longer, Some(max), order)
    requires |c| == |chunk|
    ensures grown.Number(c) == g.Number(c)
  {
    assert grown.counts == g.counts;
  }

  /** The dimension that grows is the one numbered first: the unlimited one, wherever it is. */
  lemma UnlimitedIsFirst(counts: Counts, order: GridOrder, u: nat)
    requires u < |counts| && counts[u].None?
    requires Bounded(counts, RotationOf(counts, order))
    ensures DimAt(0, RotationOf(counts, order)) == u
  {
    var rotated := RotationOf(counts, order);
    var at := PositionOf(u, rotated);
    assert at < |counts| && Rotate(counts, rotated)[at] == counts[u];
  }

  /** `a` comes before `b` when dimension `first`, if any, is compared ahead of the others, which keep their order. */
  predicate NumberedBefore(a: seq<nat>, b: seq<nat>, first: Option<nat>)
    requires |a| == |b| && (first.Some? ==> first.value < |a|)
  {
    match first
    case None => LexLess(a, b)
    case Some(u) => a[u] < b[u] || (a[u] == b[u] && LexLess(a[..u] + a[u + 1..], b[..u] + b[u + 1..]))
  }

  /** The dimension that the order puts first: the first unlimited one, if the order is to do so. */
  predicate PutFirst(first: Option<nat>, rank: nat, max: Option<seq<MaxExtent>>, order: GridOrder)
    requires max.Some? ==> |max.value| == rank
  {
    match first
    case None => order.RowMajorOrder? || max.None? || forall d :: 0 <= d < rank ==> max.value[d].Fixed?
    case Some(u) =>
      && order.UnlimitedFirst? && max.Some? && u < rank && max.value[u].Unlimited?
      && forall d :: 0 <= d < u ==> max.value[d].Fixed?
  }

  /** Slots are numbered in row-major order of the coordinates, the unlimited dimension ahead of the others. */
  lemma {:induction false} NumberingOrder(g: Grid, chunk: seq<nat>, dims: seq<nat>, max: Option<seq<MaxExtent>>,
                                          order: GridOrder, first: Option<nat>, a: seq<nat>, b: seq<nat>)
    requires BuiltFrom(g, chunk, dims, max, order) && |chunk| > 0 && g.Reaches(a) && g.Reaches(b)
    requires PutFirst(first, |chunk|, max, order)
    ensures g.Number(a) < g.Number(b) <==> NumberedBefore(a, b, first)
  {
    FlatLexicographic(Rotate(a, g.rotated), Rotate(b, g.rotated), Radix(g.counts, g.rotated));
    FirstIsPutFirst(g, chunk, dims, max, order, first);
    RotatedLess(a, b, g.rotated, first);
  }

  lemma {:induction false} RotatedLess(a: seq<nat>, b: seq<nat>, rotated: Option<nat>, first: Option<nat>)
    requires |a| == |b| && Rotation(rotated, |a|) && (first.Some? ==> first.value < |a|)
    requires rotated == if first == Some(0) then None else first
    ensures LexLess(Rotate(a, rotated), Rotate(b, rotated)) <==> NumberedBefore(a, b, first)
  {
    if first.Some? {
      var u := first.value;
      FrontOf(a, rotated, u);
      FrontOf(b, rotated, u);
      FrontLess(a[u], a[..u] + a[u + 1..], b[u], b[..u] + b[u + 1..]);
    }
  }

  lemma FrontOf(x: seq<nat>, rotated: Option<nat>, u: nat)
    requires u < |x| && Rotation(rotated, |x|) && rotated == if u == 0 then None else Some(u)
    ensures Rotate(x, rotated) == [x[u]] + (x[..u] + x[u + 1..])
  {
    if u > 0 {
      Regroup([x[u]], x[..u], x[u + 1..]);
    }
  }

  lemma Regroup(a: seq<nat>, b: seq<nat>, c: seq<nat>)
    ensures a + b + c == a + (b + c)
  {
  }

  lemma FrontLess(x: nat, a: seq<nat>, y: nat, b: seq<nat>)
    requires |a| == |b|
    ensures LexLess([x] + a, [y] + b) <==> x < y || (x == y && LexLess(a, b))
  {
    assert ([x] + a)[1..] == a && ([y] + b)[1..] == b;
  }

  lemma FirstIsPutFirst(g: Grid, chunk: seq<nat>, dims: seq<nat>, max: Option<seq<MaxExtent>>, order: GridOrder,
                        first: Option<nat>)
    requires BuiltFrom(g, chunk, dims, max, order) && PutFirst(first, |chunk|, max, order)
    ensures g.rotated == if first == Some(0) then None else first
  {
    var d := FirstUnbounded(g.counts);
    if first.Some? {
      assert g.counts[first.value].None?;
      assert d == first.value;
    } else if order.UnlimitedFirst? {
      assert d < |chunk| ==> g.counts[d].None?;
    }
  }
}
