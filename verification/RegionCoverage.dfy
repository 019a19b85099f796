/** The proof that selected chunks partition a region (`covers_selection` in src/parsed_chunk_index.rs). */
module RegionCoverage {
  import opened Basics
  import opened RowMajor
  import opened Tiling
  import opened Coverage
  import opened Assembly
  import opened Region

  function Ends(region: Region): (e: seq<nat>)
    requires |region.start| == |region.count|
    ensures |e| == |region.start|
  {
    seq(|region.start|, i requires 0 <= i < |region.start| => region.start[i] + region.count[i])
  }

  /** The grid's cells, clipped to the region. */
  function RegionAxes(chunk: seq<nat>, extent: seq<nat>, region: Region): (axes: seq<seq<nat>>)
    requires |chunk| == |extent| == |region.start| == |region.count| && Positive(chunk)
    ensures |axes| == |chunk|
  {
    GridAxes(chunk, region.start, Ends(region), GridCounts(chunk, extent))
  }

  lemma RegionCells(chunk: seq<nat>, extent: seq<nat>, region: Region)
    requires region.Within(extent) && |chunk| == |extent| && Positive(chunk)
    ensures var axes := RegionAxes(chunk, extent, region);
      && Lengths(axes) == GridCounts(chunk, extent)
      && Cells(axes) == Product(GridCounts(chunk, extent))
      && VolumeTo(axes, Cells(axes)) == Product(region.count)
  {
    var axes := RegionAxes(chunk, extent, region);
    assert Lengths(axes) == GridCounts(chunk, extent);
    CellsProduct(axes);
    VolumeTotal(axes);
    GridReaches(chunk, extent, region.start, Ends(region));
    GridBox(chunk, region.start, Ends(region), GridCounts(chunk, extent));
    assert Extents(region.start, Ends(region)) == region.count;
  }

  /** The sides of a cell, clipped to the region. */
  function CellSides(q: seq<nat>, chunk: seq<nat>, region: Region): (s: seq<nat>)
    requires |q| == |chunk| == |region.start| == |region.count|
    ensures |s| == |q|
  {
    var corner := Corner(q, chunk);
    seq(|q|, i requires 0 <= i < |q| =>
      Overlap(corner[i], corner[i] + chunk[i], region.start[i], region.start[i] + region.count[i]))
  }

  lemma CellVolume(q: seq<nat>, chunk: seq<nat>, extent: seq<nat>, region: Region)
    requires region.Within(extent) && |chunk| == |extent| && Positive(chunk) && InBox(q, GridCounts(chunk, extent))
    ensures Flat(q, GridCounts(chunk, extent)) < Cells(RegionAxes(chunk, extent, region))
    ensures Volume(RegionAxes(chunk, extent, region), Flat(q, GridCounts(chunk, extent)))
         == Product(CellSides(q, chunk, region))
  {
    var axes := RegionAxes(chunk, extent, region);
    RegionCells(chunk, extent, region);
    VolumeSides(axes, q);
    SidesOfCell(q, chunk, extent, region);
  }

  lemma SidesOfCell(q: seq<nat>, chunk: seq<nat>, extent: seq<nat>, region: Region)
    requires |chunk| == |extent| == |region.start| == |region.count| && Positive(chunk)
    requires InBox(q, GridCounts(chunk, extent)) && InBox(q, Lengths(RegionAxes(chunk, extent, region)))
    ensures Sides(RegionAxes(chunk, extent, region), q) == CellSides(q, chunk, region)
  {
    var axes := RegionAxes(chunk, extent, region);
    forall i | 0 <= i < |q| ensures Sides(axes, q)[i] == CellSides(q, chunk, region)[i] {
      assert axes[i] == Cut(chunk[i], region.start[i], Ends(region)[i], GridCounts(chunk, extent)[i]);
      assert Corner(q, chunk)[i] == q[i] * chunk[i];
    }
  }

  /** The contribution counted for an aligned chunk is the volume of its cell. */
  lemma ContributionVolume(coord: seq<nat>, chunk: seq<nat>, extent: seq<nat>, region: Region)
    requires region.Within(extent) && |chunk| == |extent| && Positive(chunk) && Aligned(coord, chunk, extent)
    ensures Slot(coord, chunk, extent) < Cells(RegionAxes(chunk, extent, region))
    ensures Volume(RegionAxes(chunk, extent, region), Slot(coord, chunk, extent)) == Product(Sizes(region, coord, chunk))
  {
    AlignedCorner(coord, chunk, extent);
    CellVolume(GridPoint(coord, chunk), chunk, extent, region);
    ClippedSides(coord, GridPoint(coord, chunk), chunk, extent, region);
  }

  lemma ClippedSides(coord: seq<nat>, q: seq<nat>, chunk: seq<nat>, extent: seq<nat>, region: Region)
    requires region.Within(extent) && |q| == |chunk| == |extent| && coord == Corner(q, chunk)
    ensures CellSides(q, chunk, region) == Sizes(region, coord, chunk)
  {
    forall i | 0 <= i < |q| ensures CellSides(q, chunk, region)[i] == Sizes(region, coord, chunk)[i] {
      assert region.start[i] + region.count[i] <= extent[i] <= U64_MAX;
    }
  }

  /** A cell has volume exactly when it holds an element of the region. */
  lemma VolumeElement(q: seq<nat>, chunk: seq<nat>, extent: seq<nat>, region: Region, g: seq<nat>)
    requires region.Within(extent) && |chunk| == |extent| && Positive(chunk) && InBox(q, GridCounts(chunk, extent))
    requires InBox(g, region.count) && GridPoint(Shift(g, region.start), chunk) == q
    ensures Product(CellSides(q, chunk, region)) > 0
  {
    var s, corner := Shift(g, region.start), Corner(q, chunk);
    forall i | 0 <= i < |q| ensures CellSides(q, chunk, region)[i] > 0 {
      assert s[i] / chunk[i] == q[i] && corner[i] == q[i] * chunk[i];
      ScaledRange(s[i], chunk[i], q[i], 1);
    }
    ProductPositive(CellSides(q, chunk, region));
  }

  lemma ElementOfVolume(q: seq<nat>, chunk: seq<nat>, extent: seq<nat>, region: Region) returns (g: seq<nat>)
    requires region.Within(extent) && |chunk| == |extent| && Positive(chunk) && InBox(q, GridCounts(chunk, extent))
    requires Product(CellSides(q, chunk, region)) > 0
    ensures InBox(g, region.count) && GridPoint(Shift(g, region.start), chunk) == q
  {
    var sides, corner := CellSides(q, chunk, region), Corner(q, chunk);
    PositiveProduct(sides);
    g := seq(|q|, i requires 0 <= i < |q| => Max(corner[i], region.start[i]) - region.start[i]);
    forall i | 0 <= i < |q| ensures g[i] < region.count[i] && GridPoint(Shift(g, region.start), chunk)[i] == q[i] {
      FirstOfCell(q, chunk, region, i);
    }
    assert GridPoint(Shift(g, region.start), chunk) == q;
  }

  lemma FirstOfCell(q: seq<nat>, chunk: seq<nat>, region: Region, i: nat)
    requires |q| == |chunk| == |region.start| == |region.count| && Positive(chunk) && i < |q|
    requires CellSides(q, chunk, region)[i] > 0
    ensures var first := Max(Corner(q, chunk)[i], region.start[i]);
      first < region.start[i] + region.count[i] && first / chunk[i] == q[i]
  {
    FirstOverlap(q[i], chunk[i], region.start[i], region.start[i] + region.count[i]);
  }

  lemma FirstOverlap(q: nat, step: nat, start: nat, end: nat)
    requires step > 0 && Overlap(q * step, q * step + step, start, end) > 0
    ensures Max(q * step, start) < end && Max(q * step, start) / step == q
  {
    ScaledRange(Max(q * step, start), step, q, 1);
  }

  // ---- What the chunks counted so far add up to ----

  ghost predicate Counted(coords: seq<seq<nat>>, chunk: seq<nat>, extent: seq<nat>, region: Region, covered: nat) {
    && region.Within(extent) && |chunk| == |extent| && Positive(chunk)
    && (forall j :: 0 <= j < |coords| ==> Aligned(coords[j], chunk, extent))
    && covered == SeenTo(RegionAxes(chunk, extent, region), Elements(Slots(coords, chunk, extent)),
                         Cells(RegionAxes(chunk, extent, region)))
  }

  lemma CountedNone(chunk: seq<nat>, extent: seq<nat>, region: Region)
    requires region.Within(extent) && |chunk| == |extent| && Positive(chunk)
    ensures Counted([], chunk, extent, region, 0)
  {
    var axes := RegionAxes(chunk, extent, region);
    assert Elements(Slots([], chunk, extent)) == {};
    SeenNone(axes, Cells(axes));
  }

  lemma CountedStep(coords: seq<seq<nat>>, coord: seq<nat>, chunk: seq<nat>, extent: seq<nat>, region: Region,
                    covered: nat)
    requires Counted(coords, chunk, extent, region, covered) && Aligned(coord, chunk, extent) && coord !in coords
    ensures var next := covered + Product(Sizes(region, coord, chunk));
      Counted(coords + [coord], chunk, extent, region, next) && next <= Product(region.count)
  {
    var slot, axes, s := Slot(coord, chunk, extent), RegionAxes(chunk, extent, region), Slots(coords, chunk, extent);
    RegionCells(chunk, extent, region);
    ContributionVolume(coord, chunk, extent, region);
    forall j | 0 <= j < |coords| ensures s[j] != slot {
      SlotInjective(coords[j], coord, chunk, extent);
    }
    var next := coords + [coord];
    forall j | 0 <= j < |next| ensures Aligned(next[j], chunk, extent) {}
    assert Slots(next, chunk, extent) == s + [slot];
    assert Elements(s + [slot]) == Elements(s) + {slot};
    SeenMore(axes, Elements(s), slot, Cells(axes));
    SeenBound(axes, Elements(s) + {slot}, Cells(axes));
  }

  /** Distinct aligned chunks whose clipped volumes add up to the region hold every element of it once. */
  lemma CountedAll(coords: seq<seq<nat>>, chunk: seq<nat>, extent: seq<nat>, region: Region)
    requires Counted(coords, chunk, extent, region, Product(region.count)) && Distinct(coords)
    ensures RegionOnce(coords, chunk, region)
  {
    forall g | InBox(g, region.count) ensures exists j :: Owner(coords, chunk, Shift(g, region.start), j) {
      var s := Shift(g, region.start);
      GridPointInBox(s, chunk, extent);
      var j := CountedSlot(coords, chunk, extent, region, g);
      AlignedContains(coords[j], chunk, extent, s);
      forall i | 0 <= i < |coords| && Contains(coords[i], chunk, s) ensures i == j {
        AlignedContains(coords[i], chunk, extent, s);
        AlignedCorner(coords[i], chunk, extent);
        AlignedCorner(coords[j], chunk, extent);
        assert coords[i] == coords[j];
      }
      assert Owner(coords, chunk, s, j);
    }
  }

  lemma CountedSlot(coords: seq<seq<nat>>, chunk: seq<nat>, extent: seq<nat>, region: Region, g: seq<nat>)
    returns (j: nat)
    requires Counted(coords, chunk, extent, region, Product(region.count)) && InBox(g, region.count)
    requires InBox(GridPoint(Shift(g, region.start), chunk), GridCounts(chunk, extent))
    ensures j < |coords| && GridPoint(coords[j], chunk) == GridPoint(Shift(g, region.start), chunk)
  {
    var q, counts, axes := GridPoint(Shift(g, region.start), chunk), GridCounts(chunk, extent),
                           RegionAxes(chunk, extent, region);
    RegionCells(chunk, extent, region);
    SeenBound(axes, Elements(Slots(coords, chunk, extent)), Cells(axes));
    CellVolume(q, chunk, extent, region);
    VolumeElement(q, chunk, extent, region, g);
    assert Flat(q, counts) in Elements(Slots(coords, chunk, extent));
    j :| 0 <= j < |coords| && Slots(coords, chunk, extent)[j] == Flat(q, counts);
    AlignedCorner(coords[j], chunk, extent);
    FlatInjective(GridPoint(coords[j], chunk), q, counts);
  }

  /** Conversely, aligned chunks that hold every element of the region once add up to it. */
  lemma OnceCounted(coords: seq<seq<nat>>, chunk: seq<nat>, extent: seq<nat>, region: Region, covered: nat)
    requires Counted(coords, chunk, extent, region, covered) && RegionOnce(coords, chunk, region)
    ensures covered == Product(region.count)
  {
    var axes, seen := RegionAxes(chunk, extent, region), Elements(Slots(coords, chunk, extent));
    RegionCells(chunk, extent, region);
    forall n | 0 <= n < Cells(axes) && n !in seen ensures Volume(axes, n) == 0 {
      if Volume(axes, n) > 0 {
        OnceSlot(coords, chunk, extent, region, n);
      }
    }
    SeenBound(axes, seen, Cells(axes));
  }

  lemma OnceSlot(coords: seq<seq<nat>>, chunk: seq<nat>, extent: seq<nat>, region: Region, n: nat)
    requires region.Within(extent) && |chunk| == |extent| && Positive(chunk)
    requires forall j :: 0 <= j < |coords| ==> Aligned(coords[j], chunk, extent)
    requires RegionOnce(coords, chunk, region)
    requires n < Cells(RegionAxes(chunk, extent, region)) && Volume(RegionAxes(chunk, extent, region), n) > 0
    ensures n in Elements(Slots(coords, chunk, extent))
  {
    var counts := GridCounts(chunk, extent);
    RegionCells(chunk, extent, region);
    FlatUnflat(n, counts);
    var q := Unflat(n, counts);
    CellVolume(q, chunk, extent, region);
    var g := ElementOfVolume(q, chunk, extent, region);
    var j: nat :| Owner(coords, chunk, Shift(g, region.start), j);
    AlignedContains(coords[j], chunk, extent, Shift(g, region.start));
    assert Slots(coords, chunk, extent)[j] == n;
  }

  // ---- The code ----

  /** The running product of one chunk's clipped sides; it cannot exceed the region's own. */
  method Contribution(coord: seq<nat>, chunk: seq<nat>, region: Region) returns (product: nat)
    requires |coord| == |chunk| == |region.start| == |region.count| && Fits64(region.count)
    ensures product == Product(Sizes(region, coord, chunk)) <= U64_MAX
  {
    product := 1;
    ghost var sizes := Sizes(region, coord, chunk);
    for i := 0 to |coord|
      invariant product == Product(sizes[..i])
    {
      var lo, hi := ClipStart(region.start[i], coord[i]), ClipEnd(region.start[i], region.count[i], coord[i], chunk[i]);
      ProductAppend(sizes, i);
      product := product * if lo < hi then hi - lo else 0;
      assert product <= U64_MAX by {
        ProductMono(sizes[..i + 1], region.count[..i + 1]);
      }
    }
    assert sizes[..|coord|] == sizes;
    assert product <= U64_MAX by {
      ProductMono(sizes, region.count);
      assert region.count[..|coord|] == region.count;
    }
  }

  predicate AllAligned(coords: seq<seq<nat>>, chunk: seq<nat>, extent: seq<nat>)
    requires |chunk| == |extent| && Positive(chunk)
  {
    forall j :: 0 <= j < |coords| ==> Aligned(coords[j], chunk, extent)
  }

  /**
   `covers_selection`: an accepted selection of aligned chunks holds every element of the region
   exactly once, and every such selection whose element count fits a `u64` is accepted.
   */
  method CoversSelection(coords: seq<seq<nat>>, chunk: seq<nat>, extent: seq<nat>, region: Region)
    returns (complete: bool)
    requires region.Within(extent) && |chunk| == |extent| && Positive(chunk) && SameRank(coords, chunk)
    ensures complete <==> Fits64(region.count) && Distinct(coords) && AllAligned(coords, chunk, extent)
                          && RegionOnce(coords, chunk, region)
  {
    var elements := CheckedProduct(region.count);
    if elements.None? {
      return false;
    }
    if i, j :| 0 <= i < j < |coords| && coords[i] == coords[j] {
      return false;
    }
    var covered: nat := 0;
    CountedNone(chunk, extent, region);
    for n := 0 to |coords|
      invariant Counted(coords[..n], chunk, extent, region, covered)
    {
      var coord := coords[n];
      if i :| 0 <= i < |coord| && (coord[i] % chunk[i] != 0 || coord[i] >= extent[i]) {
        assert !Aligned(coords[n], chunk, extent);
        return false;
      }
      var contribution := Contribution(coord, chunk, region);
      CountedStep(coords[..n], coord, chunk, extent, region, covered);
      covered := covered + contribution;
      assert coords[..n] + [coord] == coords[..n + 1];
      assert covered <= U64_MAX by {
        assert region.count[..|region.count|] == region.count;
      }
    }
    assert coords[..|coords|] == coords;
    complete := covered == elements.value;
    if complete {
      CountedAll(coords, chunk, extent, region);
    } else if RegionOnce(coords, chunk, region) {
      OnceCounted(coords, chunk, extent, region, covered);
    }
  }

  /** A dense dataset's chunks hold every element of any region once, and so do the selected ones. */
  lemma DenseSelection(coords: seq<seq<nat>>, chunk: seq<nat>, extent: seq<nat>, region: Region)
    requires region.Within(extent) && Tiles(coords, chunk, extent)
    ensures RegionOnce(Pick(coords, Selected(coords, chunk, region, |coords|)), chunk, region)
  {
    var sel := Selected(coords, chunk, region, |coords|);
    TilesEachOnce(coords, chunk, extent);
    forall g | InBox(g, region.count) ensures exists k :: Owner(Pick(coords, sel), chunk, Shift(g, region.start), k) {
      var s := Shift(g, region.start);
      assert InBox(s, extent);
      var j: nat :| Owner(coords, chunk, s, j);
      HolderOverlaps(coords[j], chunk, extent, region, g);
      var k := SelectedHas(coords, chunk, region, |coords|, j);
      SelectedIncreasing(coords, chunk, region, |coords|);
      assert Owner(Pick(coords, sel), chunk, s, k);
    }
  }

  lemma {:induction false} SelectedHas(coords: seq<seq<nat>>, chunk: seq<nat>, region: Region, n: nat, j: nat)
    returns (k: nat)
    requires j < n <= |coords| && Overlaps(region, coords[j], chunk)
    ensures k < |Selected(coords, chunk, region, n)| && Selected(coords, chunk, region, n)[k] == j
  {
    if j == n - 1 {
      k := |Selected(coords, chunk, region, n - 1)|;
    } else {
      k := SelectedHas(coords, chunk, region, n - 1, j);
    }
  }

  lemma {:induction false} SelectedIncreasing(coords: seq<seq<nat>>, chunk: seq<nat>, region: Region, n: nat)
    requires n <= |coords|
    ensures forall i, j :: 0 <= i < j < |Selected(coords, chunk, region, n)| ==>
      Selected(coords, chunk, region, n)[i] < Selected(coords, chunk, region, n)[j]
  {
    if n > 0 {
      SelectedIncreasing(coords, chunk, region, n - 1);
    }
  }
}
