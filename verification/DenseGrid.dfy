/**
 Putting a tiling's chunks in row-major order (`plan_dense_grid` in src/chunked_read.rs), and exactly
 when what it accepts is a tiling.
 */
module DenseGrid {
  import opened Basics
  import opened RowMajor
  import opened Tiling
  import opened Coverage

  /** One allocated chunk, as its index lists it. A version 1 B-tree lists one offset past the rank. */
  datatype ChunkInfo = ChunkInfo(address: nat, stored: nat, mask: nat, offsets: seq<nat>)

  predicate HaveRank(infos: seq<ChunkInfo>, rank: nat) {
    forall j :: 0 <= j < |infos| ==> |infos[j].offsets| >= rank
  }

  function Coords(infos: seq<ChunkInfo>, rank: nat): (c: seq<seq<nat>>)
    requires HaveRank(infos, rank)
    ensures |c| == |infos|
  {
    seq(|infos|, j requires 0 <= j < |infos| => infos[j].offsets[..rank])
  }

  // ---- Wrapping arithmetic ----

  /** `plan_dense_grid` multiplies `u64`s unchecked, so its slots and its chunk count wrap here. */
  const WRAP: nat := U64_MAX + 1

  lemma WrapStep(a: nat, c: nat, b: nat)
    ensures (a % WRAP * c + b) % WRAP == (a * c + b) % WRAP
  {
    var k, r := a / WRAP, a % WRAP;
    var x := r * c + b;
    var u, t := x / WRAP, x % WRAP;
    assert a * c + b == k * c * WRAP + x by {
      MulAdd(k * WRAP, r, c);
      assert k * WRAP * c == k * c * WRAP;
    }
    MulAdd(k * c, u, WRAP);
    DivModUnique(WRAP, k * c + u, t);
  }

  /** The slot that `plan_dense_grid` computes for a chunk. */
  function Place(info: ChunkInfo, chunk: seq<nat>, extent: seq<nat>): nat
    requires |chunk| == |extent| <= |info.offsets| && Positive(chunk)
  {
    Slot(info.offsets[..|extent|], chunk, extent) % WRAP
  }

  predicate AlignedInfo(info: ChunkInfo, chunk: seq<nat>, extent: seq<nat>)
    requires |chunk| == |extent| && Positive(chunk)
  {
    |info.offsets| >= |extent| && Aligned(info.offsets[..|extent|], chunk, extent)
  }

  /** The chunks are aligned, and as many as the wrapped count of slots, each in a place of its own. */
  predicate Spread(infos: seq<ChunkInfo>, chunk: seq<nat>, extent: seq<nat>) {
    && |chunk| == |extent| && Positive(chunk)
    && |infos| == Product(GridCounts(chunk, extent)) % WRAP
    && HaveRank(infos, |extent|) && OwnPlaces(infos, chunk, extent)
    && forall j :: 0 <= j < |infos| ==> AlignedInfo(infos[j], chunk, extent) && Place(infos[j], chunk, extent) < |infos|
  }

  predicate OwnPlaces(infos: seq<ChunkInfo>, chunk: seq<nat>, extent: seq<nat>)
    requires |chunk| == |extent| && Positive(chunk) && HaveRank(infos, |extent|)
  {
    forall i, j :: 0 <= i < j < |infos| ==> Place(infos[i], chunk, extent) != Place(infos[j], chunk, extent)
  }

  /** Where the count of slots does not wrap, places are slots. */
  lemma PlaceIsSlot(info: ChunkInfo, chunk: seq<nat>, extent: seq<nat>)
    requires |chunk| == |extent| && Positive(chunk) && AlignedInfo(info, chunk, extent)
    requires Product(GridCounts(chunk, extent)) <= U64_MAX
    ensures Place(info, chunk, extent) == Slot(info.offsets[..|extent|], chunk, extent)
    ensures Place(info, chunk, extent) < Product(GridCounts(chunk, extent))
  {
    SlotInjective(info.offsets[..|extent|], info.offsets[..|extent|], chunk, extent);
  }

  lemma PlacesDiffer(a: ChunkInfo, b: ChunkInfo, chunk: seq<nat>, extent: seq<nat>)
    requires |chunk| == |extent| && Positive(chunk) && Product(GridCounts(chunk, extent)) <= U64_MAX
    requires AlignedInfo(a, chunk, extent) && AlignedInfo(b, chunk, extent)
    ensures Place(a, chunk, extent) == Place(b, chunk, extent) <==> a.offsets[..|extent|] == b.offsets[..|extent|]
  {
    PlaceIsSlot(a, chunk, extent);
    PlaceIsSlot(b, chunk, extent);
    SlotInjective(a.offsets[..|extent|], b.offsets[..|extent|], chunk, extent);
  }

  /** Where the count of slots does not wrap, exactly the tilings are spread. */
  lemma SpreadIsTiling(infos: seq<ChunkInfo>, chunk: seq<nat>, extent: seq<nat>)
    requires |chunk| == |extent| && Positive(chunk) && HaveRank(infos, |extent|)
    requires Product(GridCounts(chunk, extent)) <= U64_MAX
    ensures Spread(infos, chunk, extent) <==> Tiles(Coords(infos, |extent|), chunk, extent)
  {
    var coords := Coords(infos, |extent|);
    if Spread(infos, chunk, extent) {
      forall i, j | 0 <= i < j < |infos| ensures coords[i] != coords[j] {
        PlacesDiffer(infos[i], infos[j], chunk, extent);
      }
    } else if Tiles(coords, chunk, extent) {
      TilingIsSpread(infos, chunk, extent);
      assert false;
    }
  }

  lemma TilingIsSpread(infos: seq<ChunkInfo>, chunk: seq<nat>, extent: seq<nat>)
    requires HaveRank(infos, |extent|) && Tiles(Coords(infos, |extent|), chunk, extent)
    requires Product(GridCounts(chunk, extent)) <= U64_MAX
    ensures Spread(infos, chunk, extent)
  {
    var coords := Coords(infos, |extent|);
    forall j | 0 <= j < |infos|
      ensures AlignedInfo(infos[j], chunk, extent) && Place(infos[j], chunk, extent) < |infos|
    {
      assert Aligned(coords[j], chunk, extent);
      PlaceIsSlot(infos[j], chunk, extent);
    }
    forall i, j | 0 <= i < j < |infos| ensures Place(infos[i], chunk, extent) != Place(infos[j], chunk, extent) {
      assert coords[i] != coords[j];
      PlacesDiffer(infos[i], infos[j], chunk, extent);
    }
  }

  /** What is spread is a tiling exactly when the count of slots does not wrap. */
  lemma TilingIffUnwrapped(infos: seq<ChunkInfo>, chunk: seq<nat>, extent: seq<nat>)
    requires Spread(infos, chunk, extent)
    ensures HaveRank(infos, |extent|)
    ensures Tiles(Coords(infos, |extent|), chunk, extent) <==> Product(GridCounts(chunk, extent)) <= U64_MAX
  {
    if Product(GridCounts(chunk, extent)) <= U64_MAX {
      SpreadIsTiling(infos, chunk, extent);
    }
  }

  /** A grid of exactly `2^64` chunks: no chunks at all pass for all of them. */
  lemma EmptyPassesForAll()
    ensures var chunk, extent := [1, 1], [0x1_0000_0000, 0x1_0000_0000];
      Spread([], chunk, extent) && !Tiles([], chunk, extent)
  {
    var chunk, extent := [1, 1], [0x1_0000_0000, 0x1_0000_0000];
    var counts := GridCounts(chunk, extent);
    assert counts == extent && counts[1..] == [0x1_0000_0000];
    assert Product(counts[1..]) == 0x1_0000_0000 * Product([]);
    assert Product(counts) == WRAP;
  }

  // ---- The plan ----

  /** A plan, a refusal, or an index past the slots, which panics. */
  datatype Planned = Dense(order: seq<ChunkInfo>) | NotDense | Panicked

  /** `order` lists `infos` by place: slot `n` holds the one chunk whose place is `n`. */
  ghost predicate ByPlace(order: seq<ChunkInfo>, infos: seq<ChunkInfo>, chunk: seq<nat>, extent: seq<nat>) {
    && Spread(infos, chunk, extent) && |order| == |infos|
    && (forall j :: 0 <= j < |infos| ==> order[Place(infos[j], chunk, extent)] == infos[j])
    && (forall n :: 0 <= n < |order| ==> |order[n].offsets| >= |extent| && Place(order[n], chunk, extent) == n)
  }

  lemma AxisInRange(offset: nat, step: nat, length: nat)
    requires step > 0 && offset % step == 0
    ensures offset / step < DivCeil(length, step) <==> offset < length
  {
    DivCeilBounds(length, step, offset / step);
    assert offset == offset / step * step;
  }

  /** The place of one chunk, or a refusal if it is misaligned or out of range. */
  method LinearSlot(offsets: seq<nat>, chunk: seq<nat>, counts: seq<nat>, ghost extent: seq<nat>)
    returns (r: Option<nat>)
    requires |chunk| == |extent| <= |offsets| && Positive(chunk) && counts == GridCounts(chunk, extent)
    ensures r.Some? <==> Aligned(offsets[..|chunk|], chunk, extent)
    ensures r.Some? ==> r.value == Slot(offsets[..|chunk|], chunk, extent) % WRAP
  {
    var linear := 0;
    ghost var coord := offsets[..|chunk|];
    ghost var q := GridPoint(coord, chunk);
    for d := 0 to |chunk|
      invariant forall j :: 0 <= j < d ==> coord[j] % chunk[j] == 0 && coord[j] < extent[j]
      invariant linear == Flat(q[..d], counts[..d]) % WRAP
    {
      if offsets[d] % chunk[d] != 0 {
        assert coord[d] == offsets[d];
        return None;
      }
      var at := offsets[d] / chunk[d];
      AxisInRange(offsets[d], chunk[d], extent[d]);
      if at >= counts[d] {
        return None;
      }
      FlatAppend(q, counts, d);
      WrapStep(Flat(q[..d], counts[..d]), counts[d], at);
      linear := (linear * counts[d] + at) % WRAP;
    }
    assert q[..|q|] == q && counts[..|q|] == counts;
    r := Some(linear);
  }

  /** The chunks sit in their own places, and the other slots are empty. */
  ghost predicate Filled(slots: seq<Option<ChunkInfo>>, infos: seq<ChunkInfo>, chunk: seq<nat>, extent: seq<nat>)
    requires |chunk| == |extent| && Positive(chunk)
  {
    && HaveRank(infos, |extent|) && OwnPlaces(infos, chunk, extent)
    && (forall j :: 0 <= j < |infos| ==>
          && AlignedInfo(infos[j], chunk, extent)
          && Place(infos[j], chunk, extent) < |slots| && slots[Place(infos[j], chunk, extent)] == Some(infos[j]))
    && (forall n :: 0 <= n < |slots| && slots[n].Some? ==>
          slots[n].value in infos && Place(slots[n].value, chunk, extent) == n)
  }

  lemma FilledStep(slots: seq<Option<ChunkInfo>>, infos: seq<ChunkInfo>, info: ChunkInfo, chunk: seq<nat>,
                   extent: seq<nat>)
    requires |chunk| == |extent| && Positive(chunk) && AlignedInfo(info, chunk, extent)
    requires Filled(slots, infos, chunk, extent) && Place(info, chunk, extent) < |slots|
    requires slots[Place(info, chunk, extent)].None?
    ensures Filled(slots[Place(info, chunk, extent) := Some(info)], infos + [info], chunk, extent)
  {
  }

  /** As many chunks as slots fill every slot. */
  lemma FilledAll(slots: seq<Option<ChunkInfo>>, infos: seq<ChunkInfo>, chunk: seq<nat>, extent: seq<nat>)
    requires |chunk| == |extent| && Positive(chunk)
    requires Filled(slots, infos, chunk, extent) && |infos| == |slots|
    ensures forall n :: 0 <= n < |slots| ==> slots[n].Some?
  {
    var places := seq(|infos|, j requires 0 <= j < |infos| =>
      assert AlignedInfo(infos[j], chunk, extent); Place(infos[j], chunk, extent));
    Pigeonhole(places, |slots|);
    forall n | 0 <= n < |slots| ensures slots[n].Some? {
      assert n in Elements(places);
      var j :| 0 <= j < |places| && places[j] == n;
      assert slots[Place(infos[j], chunk, extent)] == Some(infos[j]);
    }
  }

  /** One turn of the loop: the next chunk goes to its place, unless it ends the planning. */
  method FillNext(slots: seq<Option<ChunkInfo>>, infos: seq<ChunkInfo>, n: nat, chunk: seq<nat>, counts: seq<nat>,
                  ghost extent: seq<nat>)
    returns (stop: Option<Planned>, next: seq<Option<ChunkInfo>>)
    requires |chunk| == |extent| && Positive(chunk) && counts == GridCounts(chunk, extent)
    requires n < |infos| == |slots| == Product(counts) % WRAP && |infos| <= USIZE_MAX
    requires Filled(slots, infos[..n], chunk, extent)
    ensures stop.None? ==> |next| == |slots| && Filled(next, infos[..n + 1], chunk, extent)
    ensures stop.Some? ==> !stop.value.Dense? && !Spread(infos, chunk, extent)
    ensures stop.Some? && stop.value.Panicked? ==> Product(counts) > U64_MAX
  {
    var info := infos[n];
    next := slots;
    if |info.offsets| < |chunk| {
      return Some(NotDense), next;
    }
    var linear := LinearSlot(info.offsets, chunk, counts, extent);
    if linear.None? {
      assert !AlignedInfo(infos[n], chunk, extent);
      return Some(NotDense), next;
    }
    assert linear.value == Place(infos[n], chunk, extent);
    if linear.value >= |slots| {
      if Product(counts) <= U64_MAX {
        PlaceIsSlot(info, chunk, extent);
      }
      return Some(if linear.value > USIZE_MAX then NotDense else Panicked), next;
    }
    if slots[linear.value].Some? {
      ghost var j :| 0 <= j < n && infos[..n][j] == slots[linear.value].value;
      assert Place(infos[j], chunk, extent) == Place(infos[n], chunk, extent);
      return Some(NotDense), next;
    }
    FilledStep(slots, infos[..n], info, chunk, extent);
    assert infos[..n] + [info] == infos[..n + 1];
    return None, slots[linear.value := Some(info)];
  }

  /**
   `plan_dense_grid`: accepts exactly the lists that are spread, and returns them by place. Where
   the count of slots does not wrap these are the tilings, and no index is out of range.
   */
  method PlanDenseGrid(infos: seq<ChunkInfo>, extent: seq<nat>, chunkDims: seq<nat>) returns (r: Planned)
    requires |infos| <= USIZE_MAX
    ensures r.Dense? <==> |chunkDims| >= |extent| && Spread(infos, chunkDims[..|extent|], extent)
    ensures r.Dense? ==> ByPlace(r.order, infos, chunkDims[..|extent|], extent)
    ensures r.Panicked? ==> |chunkDims| >= |extent| && Positive(chunkDims[..|extent|])
                            && Product(GridCounts(chunkDims[..|extent|], extent)) > U64_MAX
  {
    var rank := |extent|;
    if |chunkDims| < rank {
      return NotDense;
    }
    var chunk := chunkDims[..rank];
    if d :| 0 <= d < rank && chunk[d] == 0 {
      return NotDense;
    }
    var counts := GridCounts(chunk, extent);
    var total := Product(counts) % WRAP;
    if |infos| != total {
      return NotDense;
    }
    var slots: seq<Option<ChunkInfo>> := seq(total, _ => None);
    for n := 0 to |infos|
      invariant |slots| == total && Filled(slots, infos[..n], chunk, extent)
    {
      var stop: Option<Planned>;
      stop, slots := FillNext(slots, infos, n, chunk, counts, extent);
      if stop.Some? {
        return stop.value;
      }
    }
    assert infos[..|infos|] == infos;
    FilledAll(slots, infos, chunk, extent);
    r := Dense(seq(|slots|, n requires 0 <= n < |slots| && slots[n].Some? => slots[n].value));
  }
}
