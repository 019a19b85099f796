/** The proof that allocated chunks tile a dataset (`DenseCoverage` in src/chunked_read.rs). */
module Coverage {
  import opened Basics
  import opened RowMajor
  import opened Tiling
  import Scatter

  /** The number of chunks along each axis. */
  function GridCounts(chunk: seq<nat>, extent: seq<nat>): (counts: seq<nat>)
    requires |chunk| == |extent| && Positive(chunk)
    ensures |counts| == |chunk|
  {
    seq(|chunk|, i requires 0 <= i < |chunk| => DivCeil(extent[i], chunk[i]))
  }

  /** `coord` is the first element of a chunk of the grid. */
  predicate Aligned(coord: seq<nat>, chunk: seq<nat>, extent: seq<nat>)
    requires |chunk| == |extent| && Positive(chunk)
  {
    && |coord| == |chunk|
    && forall i :: 0 <= i < |coord| ==> coord[i] % chunk[i] == 0 && coord[i] < extent[i]
  }

  /** There is one aligned chunk per slot of the grid. */
  predicate Tiles(coords: seq<seq<nat>>, chunk: seq<nat>, extent: seq<nat>) {
    && |chunk| == |extent| && Positive(chunk)
    && (forall j :: 0 <= j < |coords| ==> Aligned(coords[j], chunk, extent))
    && Distinct(coords)
    && |coords| == Product(GridCounts(chunk, extent))
  }

  /** Every prefix product, as a running checked product computes them, fits a `u64`. */
  predicate Fits64(dims: seq<nat>) {
    forall i :: 0 <= i <= |dims| ==> Product(dims[..i]) <= U64_MAX
  }

  /** Element `g` lies in the chunk at `coord`. */
  predicate Contains(coord: seq<nat>, chunk: seq<nat>, g: seq<nat>) {
    |coord| == |chunk| == |g| && forall i :: 0 <= i < |g| ==> coord[i] <= g[i] < coord[i] + chunk[i]
  }

  /** Chunk `j` is the only one that holds element `g`. */
  ghost predicate Owner(coords: seq<seq<nat>>, chunk: seq<nat>, g: seq<nat>, j: nat) {
    && j < |coords| && Contains(coords[j], chunk, g)
    && forall i :: 0 <= i < |coords| && Contains(coords[i], chunk, g) ==> i == j
  }

  ghost predicate EachOnce(coords: seq<seq<nat>>, chunk: seq<nat>, extent: seq<nat>) {
    forall g :: InBox(g, extent) ==> exists j :: Owner(coords, chunk, g, j)
  }

  // ---- Grid positions ----

  /** The grid position of the chunk at, or holding, `coord`. */
  function GridPoint(coord: seq<nat>, chunk: seq<nat>): (q: seq<nat>)
    requires |coord| == |chunk| && Positive(chunk)
    ensures |q| == |coord|
  {
    seq(|coord|, i requires 0 <= i < |coord| => coord[i] / chunk[i])
  }

  function Corner(q: seq<nat>, chunk: seq<nat>): (coord: seq<nat>)
    requires |q| == |chunk|
    ensures |coord| == |q|
  {
    seq(|q|, i requires 0 <= i < |q| => q[i] * chunk[i])
  }

  lemma GridPointInBox(g: seq<nat>, chunk: seq<nat>, extent: seq<nat>)
    requires |chunk| == |extent| && Positive(chunk) && InBox(g, extent)
    ensures InBox(GridPoint(g, chunk), GridCounts(chunk, extent))
  {
    forall i | 0 <= i < |g| ensures g[i] / chunk[i] < DivCeil(extent[i], chunk[i]) {
      DivCeilBounds(extent[i], chunk[i], g[i] / chunk[i]);
      DivBelow(g[i], chunk[i], g[i] / chunk[i]);
    }
  }

  lemma CornerAligned(q: seq<nat>, chunk: seq<nat>, extent: seq<nat>)
    requires |chunk| == |extent| && Positive(chunk) && InBox(q, GridCounts(chunk, extent))
    ensures Aligned(Corner(q, chunk), chunk, extent)
    ensures GridPoint(Corner(q, chunk), chunk) == q
  {
    forall i | 0 <= i < |q|
      ensures Corner(q, chunk)[i] % chunk[i] == 0 && Corner(q, chunk)[i] < extent[i]
      ensures Corner(q, chunk)[i] / chunk[i] == q[i]
    {
      DivCeilBounds(extent[i], chunk[i], q[i]);
      DivModUnique(chunk[i], q[i], 0);
    }
  }

  /** An aligned chunk is determined by its grid position. */
  lemma AlignedCorner(coord: seq<nat>, chunk: seq<nat>, extent: seq<nat>)
    requires |chunk| == |extent| && Positive(chunk) && Aligned(coord, chunk, extent)
    ensures Corner(GridPoint(coord, chunk), chunk) == coord
    ensures InBox(coord, extent) && InBox(GridPoint(coord, chunk), GridCounts(chunk, extent))
  {
    GridPointInBox(coord, chunk, extent);
    forall i | 0 <= i < |coord| ensures coord[i] / chunk[i] * chunk[i] == coord[i] {
      assert coord[i] == coord[i] / chunk[i] * chunk[i] + coord[i] % chunk[i];
    }
  }

  /** An aligned chunk holds exactly the elements whose grid position is its own. */
  lemma AlignedContains(coord: seq<nat>, chunk: seq<nat>, extent: seq<nat>, g: seq<nat>)
    requires |chunk| == |extent| && Positive(chunk) && Aligned(coord, chunk, extent) && |g| == |chunk|
    ensures Contains(coord, chunk, g) <==> GridPoint(g, chunk) == GridPoint(coord, chunk)
  {
    AlignedCorner(coord, chunk, extent);
    var q := GridPoint(coord, chunk);
    forall i | 0 <= i < |g|
      ensures coord[i] <= g[i] < coord[i] + chunk[i] <==> GridPoint(g, chunk)[i] == q[i]
    {
      assert coord[i] == Corner(q, chunk)[i] == q[i] * chunk[i];
      ScaledRange(g[i], chunk[i], q[i], 1);
    }
    if Contains(coord, chunk, g) {
      assert GridPoint(g, chunk) == q;
    } else {
      assert exists i :: 0 <= i < |g| && !(coord[i] <= g[i] < coord[i] + chunk[i]);
    }
  }

  function Slot(coord: seq<nat>, chunk: seq<nat>, extent: seq<nat>): nat
    requires |coord| == |chunk| == |extent| && Positive(chunk)
  {
    Flat(GridPoint(coord, chunk), GridCounts(chunk, extent))
  }

  function Slots(coords: seq<seq<nat>>, chunk: seq<nat>, extent: seq<nat>): (s: seq<nat>)
    requires |chunk| == |extent| && Positive(chunk)
    requires forall j :: 0 <= j < |coords| ==> Aligned(coords[j], chunk, extent)
    ensures |s| == |coords|
  {
    seq(|coords|, j requires 0 <= j < |coords| =>
      assert Aligned(coords[j], chunk, extent); Slot(coords[j], chunk, extent))
  }

  lemma SlotInjective(a: seq<nat>, b: seq<nat>, chunk: seq<nat>, extent: seq<nat>)
    requires |chunk| == |extent| && Positive(chunk) && Aligned(a, chunk, extent) && Aligned(b, chunk, extent)
    ensures Slot(a, chunk, extent) < Product(GridCounts(chunk, extent))
    ensures Slot(a, chunk, extent) == Slot(b, chunk, extent) ==> a == b
  {
    AlignedCorner(a, chunk, extent);
    AlignedCorner(b, chunk, extent);
    FlatBound(GridPoint(a, chunk), GridCounts(chunk, extent));
    if Slot(a, chunk, extent) == Slot(b, chunk, extent) {
      FlatInjective(GridPoint(a, chunk), GridPoint(b, chunk), GridCounts(chunk, extent));
    }
  }

  lemma SlotsDistinct(coords: seq<seq<nat>>, chunk: seq<nat>, extent: seq<nat>)
    requires |chunk| == |extent| && Positive(chunk)
    requires forall j :: 0 <= j < |coords| ==> Aligned(coords[j], chunk, extent)
    ensures Distinct(coords) ==> Distinct(Slots(coords, chunk, extent))
    ensures forall j :: 0 <= j < |coords| ==> Slots(coords, chunk, extent)[j] < Product(GridCounts(chunk, extent))
  {
    var s := Slots(coords, chunk, extent);
    forall j | 0 <= j < |coords| ensures s[j] < Product(GridCounts(chunk, extent)) {
      SlotInjective(coords[j], coords[j], chunk, extent);
    }
    forall i, j | 0 <= i < j < |coords| ensures s[i] == s[j] ==> coords[i] == coords[j] {
      SlotInjective(coords[i], coords[j], chunk, extent);
    }
  }

  /** A tiling has a chunk in every slot. */
  lemma TilesSlot(coords: seq<seq<nat>>, chunk: seq<nat>, extent: seq<nat>, q: seq<nat>) returns (j: nat)
    requires Tiles(coords, chunk, extent) && InBox(q, GridCounts(chunk, extent))
    ensures j < |coords| && GridPoint(coords[j], chunk) == q
  {
    var counts, s := GridCounts(chunk, extent), Slots(coords, chunk, extent);
    SlotsDistinct(coords, chunk, extent);
    Pigeonhole(s, Product(counts));
    FlatBound(q, counts);
    assert Flat(q, counts) in Elements(s);
    j :| 0 <= j < |s| && s[j] == Flat(q, counts);
    AlignedCorner(coords[j], chunk, extent);
    FlatInjective(GridPoint(coords[j], chunk), q, counts);
  }

  /** A tiling holds every element of the dataset in exactly one chunk. */
  lemma TilesEachOnce(coords: seq<seq<nat>>, chunk: seq<nat>, extent: seq<nat>)
    requires Tiles(coords, chunk, extent)
    ensures EachOnce(coords, chunk, extent)
  {
    forall g | InBox(g, extent) ensures exists j :: Owner(coords, chunk, g, j) {
      GridPointInBox(g, chunk, extent);
      var j := TilesSlot(coords, chunk, extent, GridPoint(g, chunk));
      AlignedContains(coords[j], chunk, extent, g);
      forall i | 0 <= i < |coords| && Contains(coords[i], chunk, g) ensures i == j {
        AlignedContains(coords[i], chunk, extent, g);
        AlignedCorner(coords[i], chunk, extent);
        AlignedCorner(coords[j], chunk, extent);
        assert coords[i] == coords[j];
      }
      assert Owner(coords, chunk, g, j);
    }
  }

  lemma EachOnceDistinct(coords: seq<seq<nat>>, chunk: seq<nat>, extent: seq<nat>)
    requires |chunk| == |extent| && Positive(chunk)
    requires forall j :: 0 <= j < |coords| ==> Aligned(coords[j], chunk, extent)
    requires EachOnce(coords, chunk, extent)
    ensures Distinct(coords)
  {
    forall i, j | 0 <= i < j < |coords| ensures coords[i] != coords[j] {
      var g := coords[i];
      AlignedCorner(g, chunk, extent);
      var k: nat :| Owner(coords, chunk, g, k);
      assert Contains(coords[i], chunk, g);
    }
  }

  /** Conversely, aligned chunks that hold every element exactly once are a tiling. */
  lemma EachOnceTiles(coords: seq<seq<nat>>, chunk: seq<nat>, extent: seq<nat>)
    requires |chunk| == |extent| && Positive(chunk)
    requires forall j :: 0 <= j < |coords| ==> Aligned(coords[j], chunk, extent)
    requires EachOnce(coords, chunk, extent)
    ensures Tiles(coords, chunk, extent)
  {
    EachOnceDistinct(coords, chunk, extent);
    var s := Slots(coords, chunk, extent);
    SlotsDistinct(coords, chunk, extent);
    DistinctSize(s);
    forall n: nat | n < Product(GridCounts(chunk, extent)) ensures n in s {
      EachOnceSlot(coords, chunk, extent, n);
    }
    assert Elements(s) == Range(Product(GridCounts(chunk, extent)));
  }

  lemma EachOnceSlot(coords: seq<seq<nat>>, chunk: seq<nat>, extent: seq<nat>, n: nat)
    requires |chunk| == |extent| && Positive(chunk)
    requires forall j :: 0 <= j < |coords| ==> Aligned(coords[j], chunk, extent)
    requires EachOnce(coords, chunk, extent) && n < Product(GridCounts(chunk, extent))
    ensures n in Slots(coords, chunk, extent)
  {
    var counts := GridCounts(chunk, extent);
    FlatUnflat(n, counts);
    var q := Unflat(n, counts);
    var g := Corner(q, chunk);
    CornerAligned(q, chunk, extent);
    AlignedCorner(g, chunk, extent);
    var k: nat :| Owner(coords, chunk, g, k);
    AlignedContains(coords[k], chunk, extent, g);
    assert Slots(coords, chunk, extent)[k] == n;
  }

  // ---- Volumes ----

  /** The grid's cells, clipped to the dataset. */
  function DatasetAxes(chunk: seq<nat>, extent: seq<nat>): (axes: seq<seq<nat>>)
    requires |chunk| == |extent| && Positive(chunk)
    ensures |axes| == |chunk|
  {
    GridAxes(chunk, Zeros(|chunk|), extent, GridCounts(chunk, extent))
  }

  lemma DatasetCells(chunk: seq<nat>, extent: seq<nat>)
    requires |chunk| == |extent| && Positive(chunk)
    ensures Lengths(DatasetAxes(chunk, extent)) == GridCounts(chunk, extent)
    ensures Cells(DatasetAxes(chunk, extent)) == Product(GridCounts(chunk, extent))
    ensures VolumeTo(DatasetAxes(chunk, extent), Product(GridCounts(chunk, extent))) == Product(extent)
  {
    var axes := DatasetAxes(chunk, extent);
    assert Lengths(axes) == GridCounts(chunk, extent);
    CellsProduct(axes);
    VolumeTotal(axes);
    DatasetBox(chunk, extent);
  }

  lemma GridReaches(chunk: seq<nat>, extent: seq<nat>, lo: seq<nat>, hi: seq<nat>)
    requires |chunk| == |extent| == |lo| == |hi| && Positive(chunk)
    requires forall i :: 0 <= i < |lo| ==> lo[i] <= hi[i] <= extent[i]
    ensures Reaches(chunk, lo, hi, GridCounts(chunk, extent))
  {
    forall i | 0 <= i < |chunk| ensures StepsReach(chunk[i], lo[i], hi[i], GridCounts(chunk, extent)[i]) {
      DivCeilCovers(extent[i], chunk[i]);
      assert GridCounts(chunk, extent)[i] == DivCeil(extent[i], chunk[i]);
    }
  }

  lemma DatasetBox(chunk: seq<nat>, extent: seq<nat>)
    requires |chunk| == |extent| && Positive(chunk)
    ensures Box(DatasetAxes(chunk, extent)) == Product(extent)
  {
    var lo := Zeros(|chunk|);
    GridReaches(chunk, extent, lo, extent);
    GridBox(chunk, lo, extent, GridCounts(chunk, extent));
    assert Extents(lo, extent) == extent;
  }

  /** The volume of an aligned chunk's cell is its clipped element count. */
  lemma ChunkVolume(coord: seq<nat>, chunk: seq<nat>, extent: seq<nat>)
    requires |chunk| == |extent| && Positive(chunk) && Aligned(coord, chunk, extent)
    ensures Slot(coord, chunk, extent) < Cells(DatasetAxes(chunk, extent))
    ensures Volume(DatasetAxes(chunk, extent), Slot(coord, chunk, extent))
         == Product(Scatter.Clip(coord, chunk, extent))
  {
    var axes, q := DatasetAxes(chunk, extent), GridPoint(coord, chunk);
    DatasetCells(chunk, extent);
    AlignedCorner(coord, chunk, extent);
    VolumeSides(axes, q);
    forall i | 0 <= i < |coord| ensures Sides(axes, q)[i] == Scatter.Clip(coord, chunk, extent)[i] {
      assert q[i] * chunk[i] == Corner(q, chunk)[i] == coord[i];
      assert axes[i] == Cut(chunk[i], 0, extent[i], DivCeil(extent[i], chunk[i]));
    }
    assert Sides(axes, q) == Scatter.Clip(coord, chunk, extent);
  }

  lemma {:induction false} ProductMono(a: seq<nat>, b: seq<nat>)
    requires |a| == |b| && forall i :: 0 <= i < |a| ==> a[i] <= b[i]
    ensures Product(a) <= Product(b)
  {
    if a != [] {
      ProductMono(a[1..], b[1..]);
      MulStep(a[0], b[0], Product(a[1..]));
      MulStep(Product(a[1..]), Product(b[1..]), b[0]);
    }
  }

  /** The chunk counts of a dataset whose element count fits also fit. */
  lemma GridFits(chunk: seq<nat>, extent: seq<nat>, n: nat)
    requires |chunk| == |extent| && Positive(chunk) && n <= |chunk|
    ensures Product(GridCounts(chunk, extent)[..n]) <= Product(extent[..n])
  {
    var counts := GridCounts(chunk, extent);
    forall i | 0 <= i < n ensures counts[..n][i] <= extent[..n][i] {
      DivCeilBounds(extent[i], chunk[i], extent[i]);
      MulStep(1, chunk[i], extent[i]);
    }
    ProductMono(counts[..n], extent[..n]);
  }

  // ---- The bitset pass ----

  /** `DenseCoverage`: the geometry a proof was made for. */
  datatype DenseCoverage = DenseCoverage(chunk: seq<nat>, extent: seq<nat>)

  /** A running product in checked `u64` arithmetic. */
  method CheckedProduct(dims: seq<nat>) returns (r: Option<nat>)
    ensures r.Some? <==> Fits64(dims)
    ensures r.Some? ==> r.value == Product(dims)
  {
    var product: nat := 1;
    for i := 0 to |dims|
      invariant product == Product(dims[..i])
      invariant forall j :: 0 <= j <= i ==> Product(dims[..j]) <= U64_MAX
    {
      ProductAppend(dims, i);
      product := product * dims[i];
      if product > U64_MAX {
        return None;
      }
    }
    assert dims[..|dims|] == dims;
    r := Some(product);
  }

  /** The checked products of `DenseCoverage::new`; `None` is an early refusal. */
  method CheckedProducts(chunk: seq<nat>, extent: seq<nat>) returns (r: Option<(nat, nat)>)
    requires |chunk| == |extent|
    ensures r.Some? <==> Positive(chunk) && Fits64(chunk) && Fits64(extent)
    ensures r.Some? ==> r.value == (Product(GridCounts(chunk, extent)), Product(extent)) && r.value.1 <= U64_MAX
  {
    var slots, chunkElements, elements := 1, 1, 1;
    for i := 0 to |chunk|
      invariant forall j :: 0 <= j < i ==> chunk[j] > 0
      invariant forall j :: 0 <= j <= i ==> Product(chunk[..j]) <= U64_MAX && Product(extent[..j]) <= U64_MAX
      invariant chunkElements == Product(chunk[..i]) && elements == Product(extent[..i])
      invariant slots == Product(seq(i, j requires 0 <= j < i => DivCeil(extent[j], chunk[j])))
    {
      if chunk[i] == 0 {
        return None;
      }
      ProductAppend(chunk, i);
      ProductAppend(extent, i);
      chunkElements := chunkElements * chunk[i];
      elements := elements * extent[i];
      if chunkElements > U64_MAX || elements > U64_MAX {
        return None;
      }
      ghost var counts := seq(i + 1, j requires 0 <= j < i + 1 => DivCeil(extent[j], chunk[j]));
      ProductAppend(counts, i);
      assert counts[..i] == seq(i, j requires 0 <= j < i => DivCeil(extent[j], chunk[j]));
      assert counts[..i + 1] == counts;
      // The third checked product cannot overflow where the second does not.
      slots := slots * DivCeil(extent[i], chunk[i]);
      assert slots <= U64_MAX by {
        GridFits(chunk[..i + 1], extent[..i + 1], i + 1);
        assert GridCounts(chunk[..i + 1], extent[..i + 1]) == counts;
        assert extent[..i + 1][..i + 1] == extent[..i + 1];
      }
    }
    assert chunk[..|chunk|] == chunk && extent[..|extent|] == extent;
    assert GridCounts(chunk, extent) == seq(|chunk|, j requires 0 <= j < |chunk| => DivCeil(extent[j], chunk[j]));
    r := Some((slots, elements));
  }

  /** The inner loop of `DenseCoverage::new`: the slot and clipped element count of one chunk. */
  method LocateChunk(coord: seq<nat>, chunk: seq<nat>, extent: seq<nat>) returns (r: Option<(nat, nat)>)
    requires |chunk| == |extent| && Positive(chunk) && Fits64(chunk) && Fits64(extent)
    ensures r.Some? <==> Aligned(coord, chunk, extent)
    ensures r.Some? ==> r.value == (Slot(coord, chunk, extent), Product(Scatter.Clip(coord, chunk, extent)))
  {
    if |coord| != |extent| {
      return None;
    }
    var slot, contribution := 0, 1;
    ghost var q, counts, clip := GridPoint(coord, chunk), GridCounts(chunk, extent), Scatter.Clip(coord, chunk, extent);
    for i := 0 to |coord|
      invariant forall j :: 0 <= j < i ==> coord[j] % chunk[j] == 0 && coord[j] < extent[j]
      invariant slot == Flat(q[..i], counts[..i])
      invariant contribution == Product(clip[..i])
    {
      if coord[i] % chunk[i] != 0 || coord[i] >= extent[i] {
        return None;
      }
      FlatAppend(q, counts, i);
      ProductAppend(clip, i);
      slot := slot * DivCeil(extent[i], chunk[i]) + coord[i] / chunk[i];
      contribution := contribution * Min(chunk[i], extent[i] - coord[i]);
      LocateFits(coord, chunk, extent, i + 1);
      assert slot <= U64_MAX && contribution <= U64_MAX;
    }
    assert q[..|q|] == q && counts[..|q|] == counts && clip[..|q|] == clip;
    r := Some((slot, contribution));
  }

  /** The checked arithmetic on one chunk never overflows. */
  lemma LocateFits(coord: seq<nat>, chunk: seq<nat>, extent: seq<nat>, n: nat)
    requires |coord| == |chunk| == |extent| && n <= |chunk| && Positive(chunk)
    requires Fits64(chunk) && Fits64(extent)
    requires forall j :: 0 <= j < n ==> coord[j] % chunk[j] == 0 && coord[j] < extent[j]
    ensures Flat(GridPoint(coord, chunk)[..n], GridCounts(chunk, extent)[..n]) <= U64_MAX
    ensures Product(Scatter.Clip(coord, chunk, extent)[..n]) <= U64_MAX
  {
    GridPointInBox(coord[..n], chunk[..n], extent[..n]);
    assert GridPoint(coord[..n], chunk[..n]) == GridPoint(coord, chunk)[..n];
    assert GridCounts(chunk[..n], extent[..n]) == GridCounts(chunk, extent)[..n];
    FlatBound(GridPoint(coord, chunk)[..n], GridCounts(chunk, extent)[..n]);
    GridFits(chunk, extent, n);
    ProductMono(Scatter.Clip(coord, chunk, extent)[..n], chunk[..n]);
  }

  /** The slots of `coords` have been seen, and `covered` is the volume of their cells. */
  ghost predicate Seen(coords: seq<seq<nat>>, chunk: seq<nat>, extent: seq<nat>, seen: set<nat>, covered: nat) {
    && |chunk| == |extent| && Positive(chunk)
    && (forall j :: 0 <= j < |coords| ==> Aligned(coords[j], chunk, extent))
    && Distinct(coords)
    && seen == Elements(Slots(coords, chunk, extent))
    && covered == SeenTo(DatasetAxes(chunk, extent), seen, Cells(DatasetAxes(chunk, extent)))
  }

  lemma SeenStart(chunk: seq<nat>, extent: seq<nat>)
    requires |chunk| == |extent| && Positive(chunk)
    ensures Seen([], chunk, extent, {}, 0)
  {
    assert Slots([], chunk, extent) == [];
    SeenNone(DatasetAxes(chunk, extent), Cells(DatasetAxes(chunk, extent)));
  }

  lemma SeenStep(coords: seq<seq<nat>>, coord: seq<nat>, chunk: seq<nat>, extent: seq<nat>, seen: set<nat>,
                 covered: nat)
    requires Seen(coords, chunk, extent, seen, covered) && Aligned(coord, chunk, extent)
    ensures Slot(coord, chunk, extent) < Product(GridCounts(chunk, extent))
    ensures Slot(coord, chunk, extent) in seen <==> coord in coords
    ensures coord !in coords ==>
      var contribution := Product(Scatter.Clip(coord, chunk, extent));
      && Seen(coords + [coord], chunk, extent, seen + {Slot(coord, chunk, extent)}, covered + contribution)
      && covered + contribution <= Product(extent)
  {
    var slot, axes, s := Slot(coord, chunk, extent), DatasetAxes(chunk, extent), Slots(coords, chunk, extent);
    DatasetCells(chunk, extent);
    ChunkVolume(coord, chunk, extent);
    forall j | 0 <= j < |coords| ensures s[j] == slot <==> coords[j] == coord {
      SlotInjective(coords[j], coord, chunk, extent);
    }
    if coord !in coords {
      SeenMore(axes, seen, slot, Cells(axes));
      SeenBound(axes, seen + {slot}, Cells(axes));
      var next := coords + [coord];
      forall j | 0 <= j < |next| ensures Aligned(next[j], chunk, extent) {}
      assert Slots(next, chunk, extent) == s + [slot];
    }
  }

  /** With a chunk in every slot the clipped volumes add up to the dataset. */
  lemma SeenAll(coords: seq<seq<nat>>, chunk: seq<nat>, extent: seq<nat>, seen: set<nat>, covered: nat)
    requires Seen(coords, chunk, extent, seen, covered)
    requires |coords| == Product(GridCounts(chunk, extent))
    ensures covered == Product(extent)
  {
    DatasetCells(chunk, extent);
    SlotsDistinct(coords, chunk, extent);
    Pigeonhole(Slots(coords, chunk, extent), |coords|);
    SeenBound(DatasetAxes(chunk, extent), seen, |coords|);
  }

  const WORD: nat := 64

  /** Word `slot / 64`, bit `slot % 64` of the bitset is set for exactly the slots in `seen`. */
  ghost predicate Marks(bits: array2<bool>, seen: set<nat>, slots: nat)
    reads bits
  {
    && bits.Length0 == DivCeil(slots, WORD) && bits.Length1 == WORD
    && forall w, b :: 0 <= w < bits.Length0 && 0 <= b < WORD ==> (bits[w, b] <==> w * WORD + b in seen)
  }

  lemma BitOf(slot: nat, slots: nat)
    requires slot < slots
    ensures slot / WORD < DivCeil(slots, WORD)
    ensures forall w: nat, b: nat {:trigger w * WORD + b} :: b < WORD && w * WORD + b == slot ==> w == slot / WORD && b == slot % WORD
  {
    DivCeilBounds(slots, WORD, slot / WORD);
  }

  /** Tests and sets one bit. */
  method Mark(bits: array2<bool>, slot: nat, slots: nat, ghost seen: set<nat>) returns (unseen: bool)
    requires Marks(bits, seen, slots) && slot < slots
    modifies bits
    ensures unseen <==> slot !in seen
    ensures Marks(bits, seen + {slot}, slots)
  {
    BitOf(slot, slots);
    assert slot / WORD * WORD + slot % WORD == slot;
    unseen := !bits[slot / WORD, slot % WORD];
    bits[slot / WORD, slot % WORD] := true;
  }

  /**
   `DenseCoverage::new`. The last test of the original, that the clipped volumes add up to the
   dataset, never rejects: `covered == elements` is proved where it is made.
   */
  method ProveCoverage(coords: seq<seq<nat>>, chunk: seq<nat>, extent: seq<nat>)
    returns (r: Option<DenseCoverage>)
    ensures r.Some? <==> |chunk| > 0 && Tiles(coords, chunk, extent) && Fits64(chunk) && Fits64(extent)
                         && |coords| <= USIZE_MAX
    ensures r.Some? ==> r.value == DenseCoverage(chunk, extent)
  {
    if |chunk| != |extent| || |chunk| == 0 {
      return None;
    }
    var products := CheckedProducts(chunk, extent);
    if products.None? {
      return None;
    }
    var (slots, elements) := products.value;
    if slots > USIZE_MAX || |coords| != slots {
      return None;
    }
    var bits := new bool[DivCeil(slots, WORD), WORD]((w, b) => false);
    var covered: nat := 0;
    ghost var seen: set<nat> := {};
    SeenStart(chunk, extent);
    assert coords[..0] == [];
    for n := 0 to |coords|
      invariant Seen(coords[..n], chunk, extent, seen, covered)
      invariant Marks(bits, seen, slots)
    {
      var located := LocateChunk(coords[n], chunk, extent);
      if located.None? {
        return None;
      }
      SeenStep(coords[..n], coords[n], chunk, extent, seen, covered);
      var unseen := Mark(bits, located.value.0, slots, seen);
      if !unseen {
        return None;
      }
      seen := seen + {located.value.0};
      covered := covered + located.value.1;
      assert covered <= elements <= U64_MAX;
      assert coords[..n] + [coords[n]] == coords[..n + 1];
    }
    assert coords[..|coords|] == coords;
    SeenAll(coords, chunk, extent, seen, covered);
    assert covered == elements;
    r := Some(DenseCoverage(chunk, extent));
  }
}
