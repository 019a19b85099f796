/** The code of `ChunkGrid` (src/chunk_grid.rs). */
module GridCode {
  import opened Basics
  import opened RowMajor
  import opened Coverage
  import opened ChunkGrid
  import Scatter

  // ---- Construction ----

  method CountChunks(chunk: seq<nat>, dims: seq<nat>, max: Option<seq<MaxExtent>>) returns (r: Result<Counts>)
    requires |dims| == |chunk| && (max.Some? ==> |max.value| == |chunk|)
    ensures r.Ok? <==> Positive(chunk)
    ensures r.Ok? ==> r.value == MaxCounts(chunk, dims, max)
  {
    var counts: Counts := [];
    for d := 0 to |chunk|
      invariant |counts| == d && forall j :: 0 <= j < d ==> chunk[j] > 0
      invariant forall j :: 0 <= j < d ==>
        counts[j] == match (if max.Some? then max.value[j] else Fixed(dims[j]))
                     case Unlimited => None
                     case Fixed(size) => Some(DivCeil(size, chunk[j]))
    {
      if chunk[d] == 0 {
        return Err(ChunkedRead);
      }
      var extent := if max.Some? then max.value[d] else Fixed(dims[d]);
      counts := counts + [if extent.Unlimited? then None else Some(DivCeil(extent.size, chunk[d]))];
    }
    r := Ok(counts);
  }

  /** The multipliers from rotated position `i` on have been computed. */
  ghost predicate Multiplied(counts: Counts, rotated: Option<nat>, i: nat, down: seq<nat>, unnumberable: bool)
    requires Rotation(rotated, |counts|) && i < |counts|
  {
    var radix, turned := Radix(counts, rotated), Rotate(counts, rotated);
    && down == Strides(radix[i..])
    && (forall j :: i < j < |counts| ==> turned[j].Some? && Product(radix[j..]) <= U64_MAX)
    && (unnumberable <==> exists j :: i < j < |counts| && turned[j] == Some(0))
  }

  lemma MultipliedStep(counts: Counts, rotated: Option<nat>, i: nat, down: seq<nat>, unnumberable: bool, next: nat)
    requires Rotation(rotated, |counts|) && 0 < i < |counts| && Multiplied(counts, rotated, i, down, unnumberable)
    requires Rotate(counts, rotated)[i] == Some(next)
    ensures down[0] * Max(next, 1) == Product(Radix(counts, rotated)[i..])
    ensures down[0] * Max(next, 1) <= U64_MAX ==>
      Multiplied(counts, rotated, i - 1, [down[0] * Max(next, 1)] + down, unnumberable || next == 0)
  {
    var radix, turned := Radix(counts, rotated), Rotate(counts, rotated);
    Scatter.StrideStep(radix, i);
    assert radix[i] == Max(next, 1);
    assert next == 0 <==> turned[i] == Some(0);
  }

  lemma MultipliedLast(counts: Counts, rotated: Option<nat>)
    requires Rotation(rotated, |counts|) && counts != []
    ensures Multiplied(counts, rotated, |counts| - 1, [1], false)
  {
    var radix := Radix(counts, rotated);
    assert radix[|counts| - 1..][1..] == [];
  }

  /** One turn of the multiplier loop; `None` is an unbounded dimension or a product that does not fit. */
  method MultiplyNext(counts: Counts, rotated: Option<nat>, i: nat, down: seq<nat>, unnumberable: bool)
    returns (r: Option<(seq<nat>, bool)>)
    requires Rotation(rotated, |counts|) && 0 < i < |counts| && Multiplied(counts, rotated, i, down, unnumberable)
    ensures r.None? ==> !Bounded(counts, rotated) || !MultipliersFit(Radix(counts, rotated))
    ensures r.Some? ==> Multiplied(counts, rotated, i - 1, r.value.0, r.value.1)
  {
    var next := counts[DimAt(i, rotated)];
    assert next == Rotate(counts, rotated)[i];
    if next.None? {
      return None;
    }
    MultipliedStep(counts, rotated, i, down, unnumberable, next.value);
    var product := down[0] * Max(next.value, 1);
    if product > U64_MAX {
      return None;
    }
    r := Some(([product] + down, unnumberable || next.value == 0));
  }

  /** The multiplier loop: `down`, and whether it multiplied across a dimension without chunks. */
  method Multipliers(counts: Counts, rotated: Option<nat>) returns (r: Result<(seq<nat>, bool)>)
    requires Rotation(rotated, |counts|)
    ensures r.Ok? <==> Bounded(counts, rotated) && MultipliersFit(Radix(counts, rotated))
    ensures r.Ok? ==> r.value == (Strides(Radix(counts, rotated)), Unnumberable(counts, rotated))
  {
    if counts == [] {
      return Ok(([], false));
    }
    var i, unnumberable := |counts| - 1, false;
    var down: seq<nat> := [1];
    MultipliedLast(counts, rotated);
    while i > 0
      invariant 0 <= i < |counts| && Multiplied(counts, rotated, i, down, unnumberable)
    {
      var next := MultiplyNext(counts, rotated, i, down, unnumberable);
      if next.None? {
        return Err(ChunkedRead);
      }
      down, unnumberable := next.value.0, next.value.1;
      i := i - 1;
    }
    MultipliedDone(counts, rotated, down, unnumberable);
    r := Ok((down, unnumberable));
  }

  lemma MultipliedDone(counts: Counts, rotated: Option<nat>, down: seq<nat>, unnumberable: bool)
    requires Rotation(rotated, |counts|) && counts != [] && Multiplied(counts, rotated, 0, down, unnumberable)
    ensures Bounded(counts, rotated) && MultipliersFit(Radix(counts, rotated))
    ensures down == Strides(Radix(counts, rotated)) && (unnumberable <==> Unnumberable(counts, rotated))
  {
    var radix := Radix(counts, rotated);
    assert radix[0..] == radix;
  }

  method CountSlots(counts: Counts) returns (r: Result<Option<nat>>)
    ensures r.Ok? <==> SlotsFit(counts)
    ensures r.Ok? ==> r.value == if FirstUnbounded(counts) == |counts| then Some(Product(Values(counts, |counts|))) else None
  {
    var slots := Some(1);
    ghost var unbounded := FirstUnbounded(counts);
    for i := 0 to |counts|
      invariant i <= unbounded ==> slots == Some(Product(Values(counts, i)))
      invariant i > unbounded ==> slots == None
      invariant forall n :: 0 <= n <= i && n <= unbounded ==> Product(Values(counts, n)) <= U64_MAX
    {
      if slots.Some? && counts[i].Some? {
        SlotStep(counts, i);
        var product := slots.value * counts[i].value;
        if product > U64_MAX {
          return Err(ChunkedRead);
        }
        slots := Some(product);
      } else {
        slots := None;
      }
    }
    r := Ok(slots);
  }

  lemma SlotStep(counts: Counts, i: nat)
    requires i < |counts| && forall d :: 0 <= d <= i ==> counts[d].Some?
    ensures Product(Values(counts, i + 1)) == Product(Values(counts, i)) * counts[i].value
  {
    var v := Values(counts, i + 1);
    ProductAppend(v, i);
    assert v[..i] == Values(counts, i) && v[..i + 1] == v;
  }

  predicate Admissible(chunk: seq<nat>, dims: seq<nat>, max: Option<seq<MaxExtent>>, order: GridOrder) {
    && |dims| == |chunk| && (max.Some? ==> |max.value| == |chunk|) && Positive(chunk)
    && var counts := MaxCounts(chunk, dims, max);
       var rotated := RotationOf(counts, order);
       Bounded(counts, rotated) && MultipliersFit(Radix(counts, rotated)) && SlotsFit(counts)
  }

  /** `ChunkGrid::new`. */
  method NewGrid(chunk: seq<nat>, dims: seq<nat>, max: Option<seq<MaxExtent>>, order: GridOrder)
    returns (r: Result<Grid>)
    ensures r.Ok? <==> Admissible(chunk, dims, max, order)
    ensures r.Ok? ==> BuiltFrom(r.value, chunk, dims, max, order)
  {
    if |dims| != |chunk| || (max.Some? && |max.value| != |chunk|) {
      return Err(ChunkedRead);
    }
    var counts := CountChunks(chunk, dims, max);
    if counts.Err? {
      return Err(counts.error);
    }
    var rotated := RotationOf(counts.value, order);
    var multipliers := Multipliers(counts.value, rotated);
    if multipliers.Err? {
      return Err(multipliers.error);
    }
    var slots := CountSlots(counts.value);
    if slots.Err? {
      return Err(slots.error);
    }
    r := Ok(Grid(chunk, dims, counts.value, rotated, multipliers.value.0, slots.value, multipliers.value.1));
  }

  // ---- The two directions ----

  lemma NumberIsDot(g: Grid, coords: seq<nat>)
    requires g.Valid() && |coords| == |g.chunk|
    ensures g.Number(coords) == Dot(Rotate(coords, g.rotated), g.down)
  {
    FlatDot(Rotate(coords, g.rotated), Radix(g.counts, g.rotated));
  }

  /** A checked sum of products. */
  method CheckedDot(c: seq<nat>, strides: seq<nat>) returns (r: Option<nat>)
    requires |c| == |strides|
    ensures r.Some? <==> Dot(c, strides) <= U64_MAX
    ensures r.Some? ==> r.value == Dot(c, strides)
  {
    var sum: nat := 0;
    for i := 0 to |c|
      invariant sum == Dot(c[..i], strides[..i]) <= U64_MAX
    {
      DotAppend(c, strides, i);
      DotSplit(c, strides, i + 1);
      sum := sum + c[i] * strides[i];
      if sum > U64_MAX {
        return None;
      }
    }
    assert c[..|c|] == c && strides[..|c|] == strides;
    r := Some(sum);
  }

  /** The fold of `slot_terms`; `None` is a partial sum past the address range. */
  method SumTerms(g: Grid, coords: seq<nat>) returns (r: Option<nat>)
    requires g.Valid() && |coords| == |g.chunk|
    ensures r.Some? <==> g.Number(coords) <= U64_MAX
    ensures r.Some? ==> r.value == g.Number(coords)
  {
    NumberIsDot(g, coords);
    r := CheckedDot(Rotate(coords, g.rotated), g.down);
  }

  /** `slot_of`. */
  method SlotOf(g: Grid, coords: seq<nat>) returns (r: Result<nat>)
    requires g.Valid()
    ensures r.Ok? <==> !g.unnumberable && |coords| == |g.chunk| && g.Number(coords) <= U64_MAX
    ensures r.Ok? ==> r.value == g.Number(coords)
  {
    if g.unnumberable || |coords| != |g.chunk| {
      return Err(ChunkedRead);
    }
    var sum := SumTerms(g, coords);
    r := if sum.Some? then Ok(sum.value) else Err(ChunkedRead);
  }

  lemma UnflatStep(remaining: nat, radix: seq<nat>)
    requires radix != [] && Positive(radix[1..])
    ensures Product(radix[1..]) > 0
    ensures Unflat(remaining, radix)
         == [Quot(remaining, Product(radix[1..]))] + Unflat(Rem(remaining, Product(radix[1..])), radix[1..])
  {
    ProductPositive(radix[1..]);
  }

  /** The first `i` digits are done and the rest are those of `remaining`. */
  ghost predicate Decoding(slot: nat, radix: seq<nat>, i: nat, remaining: nat)
    requires i <= |radix|
  {
    Unflat(slot, radix)[i..] == Unflat(remaining, radix[i..])
  }

  lemma PositiveTail(radix: seq<nat>, i: nat)
    requires i < |radix| && Positive(radix[1..])
    ensures Positive(radix[i + 1..])
  {
    var tail := radix[i + 1..];
    forall j | 0 <= j < |tail| ensures tail[j] > 0 {
      assert tail[j] == radix[1..][i + j];
    }
  }

  lemma DecodingStep(slot: nat, radix: seq<nat>, i: nat, remaining: nat)
    requires i < |radix| && Positive(radix[1..]) && Decoding(slot, radix, i, remaining)
    ensures Strides(radix)[i] > 0 && Unflat(slot, radix)[i] == Quot(remaining, Strides(radix)[i])
    ensures Decoding(slot, radix, i + 1, Rem(remaining, Strides(radix)[i]))
  {
    StridesAt(radix, i);
    assert radix[i..][1..] == radix[i + 1..];
    PositiveTail(radix, i);
    UnflatStep(remaining, radix[i..]);
    var digits := Unflat(slot, radix);
    assert digits[i] == digits[i..][0];
    assert digits[i + 1..] == digits[i..][1..];
  }

  lemma DimAtInjective(i: nat, j: nat, rotated: Option<nat>, rank: nat)
    requires Rotation(rotated, rank) && i < rank && j < rank
    ensures DimAt(i, rotated) < rank && (DimAt(i, rotated) == DimAt(j, rotated) ==> i == j)
  {
  }

  /** `offsets_at`: the element offsets of the chunk at a slot. */
  method OffsetsAt(g: Grid, slot: nat) returns (r: Result<seq<nat>>)
    requires g.Valid()
    ensures r.Ok? <==> forall d :: 0 <= d < |g.chunk| ==> Corner(g.CoordsAt(slot), g.chunk)[d] <= U64_MAX
    ensures r.Ok? ==> r.value == Corner(g.CoordsAt(slot), g.chunk)
  {
    ghost var radix := Radix(g.counts, g.rotated);
    ghost var digits, corner := Unflat(slot, radix), Corner(g.CoordsAt(slot), g.chunk);
    if |g.chunk| > 0 {
      RadixPositive(g);
    }
    assert radix[0..] == radix && digits[0..] == digits;
    var offsets: seq<nat> := Zeros(|g.chunk|);
    var remaining := slot;
    for i := 0 to |g.down|
      invariant Decoding(slot, radix, i, remaining)
      invariant AllPlaced(offsets, corner, g.rotated, i)
    {
      var dim := DimAt(i, g.rotated);
      DecodingStep(slot, radix, i, remaining);
      CornerAtDigit(g, slot, i);
      var offset := Quot(remaining, g.down[i]) * g.chunk[dim];
      if offset > U64_MAX {
        return Err(ChunkedRead);
      }
      PlaceStep(offsets, corner, g.rotated, i, offset);
      offsets := offsets[dim := offset];
      remaining := Rem(remaining, g.down[i]);
    }
    PlaceDone(offsets, corner, g.rotated);
    r := Ok(offsets);
  }

  predicate Placed(offsets: seq<nat>, corner: seq<nat>, d: nat) {
    d < |offsets| && d < |corner| && offsets[d] == corner[d] <= U64_MAX
  }

  /** The offsets of the first `i` rotated positions are in place. */
  ghost predicate AllPlaced(offsets: seq<nat>, corner: seq<nat>, rotated: Option<nat>, i: nat) {
    |offsets| == |corner| && forall j :: 0 <= j < i ==> Placed(offsets, corner, DimAt(j, rotated))
  }

  lemma PlaceStep(offsets: seq<nat>, corner: seq<nat>, rotated: Option<nat>, i: nat, offset: nat)
    requires Rotation(rotated, |corner|) && i < |corner| && AllPlaced(offsets, corner, rotated, i)
    requires DimAt(i, rotated) < |corner| && offset == corner[DimAt(i, rotated)] <= U64_MAX
    ensures AllPlaced(offsets[DimAt(i, rotated) := offset], corner, rotated, i + 1)
  {
    var next := offsets[DimAt(i, rotated) := offset];
    forall j | 0 <= j < i + 1 ensures Placed(next, corner, DimAt(j, rotated)) {
      DimAtInjective(i, j, rotated, |corner|);
      assert j < i ==> Placed(offsets, corner, DimAt(j, rotated));
    }
  }

  lemma PlaceDone(offsets: seq<nat>, corner: seq<nat>, rotated: Option<nat>)
    requires Rotation(rotated, |corner|) && AllPlaced(offsets, corner, rotated, |corner|)
    ensures offsets == corner && forall d :: 0 <= d < |corner| ==> corner[d] <= U64_MAX
  {
    forall d | 0 <= d < |corner| ensures offsets[d] == corner[d] <= U64_MAX {
      assert Placed(offsets, corner, DimAt(PositionOf(d, rotated), rotated));
    }
  }

  lemma CornerAtDigit(g: Grid, slot: nat, i: nat)
    requires g.Valid() && i < |g.chunk|
    ensures var d := DimAt(i, g.rotated);
      && d < |g.chunk|
      && Corner(g.CoordsAt(slot), g.chunk)[d] == Unflat(slot, Radix(g.counts, g.rotated))[i] * g.chunk[d]
  {
    assert PositionOf(DimAt(i, g.rotated), g.rotated) == i;
  }

  /** `offsets_in_extent`: the chunk at a slot, if the dataset reaches it. */
  method OffsetsInExtent(g: Grid, slot: nat) returns (r: Result<Option<seq<nat>>>)
    requires g.Valid() && forall d :: 0 <= d < |g.dims| ==> g.dims[d] <= U64_MAX
    ensures r.Ok? <==>
      !g.unnumberable && forall d :: 0 <= d < |g.chunk| ==> Corner(g.CoordsAt(slot), g.chunk)[d] <= U64_MAX
    ensures r.Ok? && r.value.Some? ==>
      && Aligned(r.value.value, g.chunk, g.dims)
      && GridPoint(r.value.value, g.chunk) == g.CoordsAt(slot)
    ensures !g.unnumberable && InBox(g.CoordsAt(slot), GridCounts(g.chunk, g.dims)) ==>
      r == Ok(Some(Corner(g.CoordsAt(slot), g.chunk)))
    ensures r.Ok? && r.value.None? ==> !InBox(g.CoordsAt(slot), GridCounts(g.chunk, g.dims))
  {
    ghost var coords := g.CoordsAt(slot);
    forall d | 0 <= d < |g.chunk|
      ensures coords[d] < GridCounts(g.chunk, g.dims)[d] <==> Corner(coords, g.chunk)[d] < g.dims[d]
    {
      DivCeilBounds(g.dims[d], g.chunk[d], coords[d]);
    }
    if g.unnumberable {
      return Err(ChunkedRead);
    }
    var offsets := OffsetsAt(g, slot);
    if offsets.Err? {
      return Err(offsets.error);
    }
    if d :| 0 <= d < |offsets.value| && offsets.value[d] >= g.dims[d] {
      return Ok(None);
    }
    CornerAligned(coords, g.chunk, g.dims);
    r := Ok(Some(offsets.value));
  }

  // ---- The chunks of the current extent ----

  function CurrentCounts(g: Grid): (counts: seq<nat>)
    requires g.Valid()
    ensures |counts| == |g.chunk|
  {
    GridCounts(g.chunk, g.dims)
  }

  /** The current shape is within the maximum in every dimension that has one. */
  predicate WithinMaximum(g: Grid)
    requires g.Valid()
  {
    forall d :: 0 <= d < |g.counts| && g.counts[d].Some? ==> CurrentCounts(g)[d] <= g.counts[d].value
  }

  lemma CurrentReaches(g: Grid, c: seq<nat>)
    requires g.Valid() && WithinMaximum(g) && InBox(c, CurrentCounts(g))
    ensures g.Reaches(c)
  {
    var turned, radix := Rotate(c, g.rotated), Radix(g.counts, g.rotated);
    forall i | 1 <= i < |turned| ensures turned[i] < radix[i] {
      var d := DimAt(i, g.rotated);
      assert turned[i] == c[d] < CurrentCounts(g)[d];
      assert Rotate(g.counts, g.rotated)[i] == g.counts[d];
    }
  }

  lemma {:induction false} DivCeilMono(a: nat, b: nat, d: nat)
    requires a <= b && d > 0
    ensures DivCeil(a, d) <= DivCeil(b, d)
  {
    DivCeilBounds(a, d, DivCeil(b, d));
    DivCeilBounds(b, d, DivCeil(b, d));
  }

  predicate WithinShape(dims: seq<nat>, max: seq<MaxExtent>) {
    |dims| == |max| && forall d :: 0 <= d < |max| && max[d].Fixed? ==> dims[d] <= max[d].size
  }

  lemma ShapeWithinMaximum(g: Grid, chunk: seq<nat>, dims: seq<nat>, max: seq<MaxExtent>, order: GridOrder)
    requires BuiltFrom(g, chunk, dims, Some(max), order) && WithinShape(dims, max)
    ensures WithinMaximum(g)
  {
    forall d | 0 <= d < |g.counts| && g.counts[d].Some? ensures CurrentCounts(g)[d] <= g.counts[d].value {
      DivCeilMono(dims[d], max[d].size, chunk[d]);
    }
  }

  /**
   Growth along the unlimited dimension appends: every chunk of the shorter dataset keeps its slot,
   and every chunk that only the longer one has is numbered past all of them.
   */
  lemma GrowthAppends(g: Grid, grown: Grid, chunk: seq<nat>, dims: seq<nat>, longer: seq<nat>, max: seq<MaxExtent>,
                      order: GridOrder, u: nat, earlier: seq<nat>, later: seq<nat>)
    requires BuiltFrom(g, chunk, dims, Some(max), order) && BuiltFrom(grown, chunk, longer, Some(max), order)
    requires WithinShape(dims, max) && u < |max| && max[u].Unlimited?
    requires dims[u] <= longer[u] && longer == dims[u := longer[u]]
    requires InBox(earlier, CurrentCounts(g)) && InBox(later, CurrentCounts(grown)) && !InBox(later, CurrentCounts(g))
    ensures grown.Number(earlier) == g.Number(earlier) < grown.Number(later)
  {
    NumberingIsStable(g, grown, chunk, dims, longer, max, order, earlier);
    ShapeWithinMaximum(g, chunk, dims, max, order);
    ShapeWithinMaximum(grown, chunk, longer, max, order);
    CurrentReaches(g, earlier);
    CurrentReaches(grown, later);
    UnlimitedIsFirst(g.counts, order, u);
    forall d | 0 <= d < |chunk| && d != u ensures CurrentCounts(grown)[d] == CurrentCounts(g)[d] {
      assert longer[d] == dims[d];
    }
    assert later[u] >= CurrentCounts(g)[u];
    assert g.counts == grown.counts;
    FirstDigitOrders(Rotate(earlier, g.rotated), Rotate(later, g.rotated), Radix(g.counts, g.rotated));
  }

  /** Componentwise smaller coordinates have no larger slot. */
  lemma NumberMono(g: Grid, a: seq<nat>, b: seq<nat>)
    requires g.Valid() && |a| == |b| == |g.chunk| && forall i :: 0 <= i < |a| ==> a[i] <= b[i]
    ensures g.Number(a) <= g.Number(b)
  {
    NumberIsDot(g, a);
    NumberIsDot(g, b);
    DotMono(Rotate(a, g.rotated), Rotate(b, g.rotated), g.down);
  }

  /** `SlotsInExtent`: an odometer over the chunks of the current extent. */
  class SlotsInExtent {
    const grid: Grid
    const counts: seq<nat>
    const coords: array<nat>
    var remaining: nat
    /** How many chunks have been returned. */
    ghost var returned: nat

    ghost predicate Valid()
      reads this, coords
    {
      && grid.Valid() && counts == CurrentCounts(grid) && coords.Length == |counts|
      && returned + remaining == Product(counts)
      && (forall d :: 0 <= d < |counts| ==> grid.dims[d] <= U64_MAX)
      && (remaining > 0 ==>
            && InBox(coords[..], counts) && Flat(coords[..], counts) == returned
            && Positive(counts) && grid.Number(Last(counts)) <= U64_MAX)
    }

    constructor (grid: Grid, remaining: nat)
      requires grid.Valid() && remaining == Product(CurrentCounts(grid))
      requires forall d :: 0 <= d < |grid.dims| ==> grid.dims[d] <= U64_MAX
      requires remaining > 0 ==> Positive(CurrentCounts(grid)) && grid.Number(Last(CurrentCounts(grid))) <= U64_MAX
      ensures Valid() && fresh(coords) && this.grid == grid && returned == 0
    {
      this.grid, this.remaining, returned := grid, remaining, 0;
      counts := CurrentCounts(grid);
      coords := new nat[|CurrentCounts(grid)|](_ => 0);
      new;
      assert coords[..] == Zeros(|counts|);
      FlatZeros(counts);
    }

    /**
     `next`: call `n` returns the chunk whose coordinates have row-major number `n` in the current
     grid. Its unchecked sum and products stay below what the constructor checked.
     */
    method Next() returns (r: Option<(nat, seq<nat>)>)
      requires Valid()
      modifies this, coords
      ensures Valid()
      ensures r.None? <==> old(remaining) == 0
      ensures r.None? ==> returned == old(returned)
      ensures r.Some? ==>
        var c := Unflat(old(returned), counts);
        && returned == old(returned) + 1 && InBox(c, counts)
        && r.value == (grid.Number(c), Corner(c, grid.chunk)) && grid.Number(c) <= U64_MAX
    {
      if remaining == 0 {
        return None;
      }
      var at := coords[..];
      UnflatFlat(at, counts);
      SlotFits(grid, at);
      var slot := SumTerms(grid, at);
      r := Some((slot.value, Corner(at, grid.chunk)));
      Turn(coords, counts);
      remaining := remaining - 1;
      returned := returned + 1;
    }
  }

  /** The odometer step at the end of `next`. */
  method Turn(coords: array<nat>, counts: seq<nat>)
    requires coords.Length == |counts| && InBox(coords[..], counts)
    modifies coords
    ensures Flat(old(coords[..]), counts) + 1 < Product(counts) ==>
      InBox(coords[..], counts) && Flat(coords[..], counts) == Flat(old(coords[..]), counts) + 1
  {
    assert coords[..|counts|] == coords[..] && counts[..|counts|] == counts;
    var more := Scatter.Advance(coords, counts, |counts|);
    assert coords[..|counts|] == coords[..];
    if !more {
      FlatLast(counts);
    }
  }

  /** Every chunk of the extent starts below its dimension, and its slot is at most the last one's. */
  lemma SlotFits(g: Grid, c: seq<nat>)
    requires g.Valid() && InBox(c, CurrentCounts(g)) && g.Number(Last(CurrentCounts(g))) <= U64_MAX
    requires forall d :: 0 <= d < |g.dims| ==> g.dims[d] <= U64_MAX
    ensures g.Number(c) <= U64_MAX
    ensures forall d :: 0 <= d < |c| ==> Corner(c, g.chunk)[d] < g.dims[d] <= U64_MAX
  {
    NumberMono(g, c, Last(CurrentCounts(g)));
    CornerAligned(c, g.chunk, g.dims);
  }

  /** The chunks of the current extent can be counted, and the last one numbered. */
  predicate Enumerable(g: Grid)
    requires g.Valid()
  {
    var counts := CurrentCounts(g);
    && Fits64(counts)
    && (Product(counts) > 0 ==>
          Product(counts) <= USIZE_MAX && !g.unnumberable && Positive(counts) && g.Number(Last(counts)) <= U64_MAX)
  }

  /** `slots_in_extent`. */
  method SlotsOf(g: Grid) returns (r: Result<SlotsInExtent>)
    requires g.Valid() && forall d :: 0 <= d < |g.dims| ==> g.dims[d] <= U64_MAX
    ensures r.Ok? <==> Enumerable(g)
    ensures r.Ok? ==>
      && fresh(r.value) && fresh(r.value.coords) && r.value.Valid() && r.value.grid == g && r.value.returned == 0
  {
    var counts := CurrentCounts(g);
    var total := CheckedProduct(counts);
    if total.None? {
      return Err(ChunkedRead);
    }
    if total.value > 0 {
      if total.value > USIZE_MAX {
        return Err(TooLarge);
      }
      PositiveProduct(counts);
      var last := SlotOf(g, Last(counts));
      if last.Err? {
        return Err(last.error);
      }
    }
    var slots := new SlotsInExtent(g, total.value);
    r := Ok(slots);
  }

  /** The iteration visits each chunk of the extent exactly once, in lexicographic order. */
  lemma VisitsOnce(counts: seq<nat>, c: seq<nat>, m: nat, n: nat)
    requires m < n < Product(counts)
    ensures InBox(Unflat(m, counts), counts) && Unflat(m, counts) != Unflat(n, counts)
    ensures LexLess(Unflat(m, counts), Unflat(n, counts))
    ensures InBox(c, counts) ==> Flat(c, counts) < Product(counts) && Unflat(Flat(c, counts), counts) == c
  {
    FlatUnflat(m, counts);
    FlatUnflat(n, counts);
    FlatLexicographic(Unflat(m, counts), Unflat(n, counts), counts);
    if InBox(c, counts) {
      UnflatFlat(c, counts);
    }
  }
}
