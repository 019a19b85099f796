/**
 Placing one decoded chunk into a row-major buffer (`place_chunk` in src/chunked_read.rs).

 A buffer byte is a `Cell`: uninitialised spare capacity holds no value, and every store counts,
 so that "initialised exactly once" is a statement about the buffer.
 */
module Scatter {
  import opened Basics
  import opened RowMajor

  datatype Cell = Cell(value: Option<byte>, writes: nat) {
    function Write(b: byte): Cell { Cell(Some(b), writes + 1) }
  }

  /** The part of each side of a box at `offsets` that lies below `extent`. */
  function Clip(offsets: seq<nat>, dims: seq<nat>, extent: seq<nat>): seq<nat>
    requires |offsets| == |dims| == |extent|
  {
    seq(|dims|, i requires 0 <= i < |dims| =>
      if offsets[i] < extent[i] then Min(dims[i], extent[i] - offsets[i]) else 0)
  }

  /**
   One chunk's contribution to a buffer: the box of `counts` elements at `offsets` of a row-major
   buffer of shape `extent`, read from `data` with element strides `strides`.
   */
  datatype Placement = Placement(
    data: seq<byte>, offsets: seq<nat>, counts: seq<nat>, extent: seq<nat>, strides: seq<nat>, size: nat)
  {
    ghost predicate Valid() {
      && |offsets| == |counts| == |extent| == |strides|
      && size > 0
      && forall i :: 0 <= i < |counts| ==> counts[i] == 0 || offsets[i] + counts[i] <= extent[i]
    }

    /** The element at `g` of the buffer lies in the box. */
    predicate Covers(g: seq<nat>)
      requires |offsets| == |counts|
    {
      |g| == |counts| && forall i :: 0 <= i < |g| ==> offsets[i] <= g[i] < offsets[i] + counts[i]
    }

    /** The coordinate of buffer element `g` within the box. */
    function Local(g: seq<nat>): (c: seq<nat>)
      requires |offsets| == |counts| && Covers(g)
      ensures InBox(c, counts)
    {
      seq(|g|, i requires 0 <= i < |g| => g[i] - offsets[i])
    }

    function Byte(i: nat): byte { if i < |data| then data[i] else 0 }

    /** The element-by-element copy: what byte `b` of buffer element `g` becomes. */
    function Put(g: seq<nat>, b: nat, cell: Cell): Cell
      requires |offsets| == |counts| == |strides|
    {
      if Covers(g) then cell.Write(Byte(Dot(Local(g), strides) * size + b)) else cell
    }

    /** The same for byte `k` of the buffer. */
    function After(k: nat, cell: Cell): Cell
      requires |offsets| == |counts| == |strides| && size > 0
    {
      Put(Unflat(Quot(k, size), extent), Rem(k, size), cell)
    }

    function Apply(before: seq<Cell>): (after: seq<Cell>)
      requires |offsets| == |counts| == |strides| && size > 0
      ensures |after| == |before|
      ensures forall k :: 0 <= k < |after| ==> after[k] == After(k, before[k])
    {
      seq(|before|, k requires 0 <= k < |before| => After(k, before[k]))
    }

    /** The last element of the box lies within `data`. */
    ghost predicate Fits()
      requires |counts| == |strides|
    {
      Positive(counts) ==> (Dot(Last(counts), strides) + 1) * size <= |data|
    }

    // ---- Runs: the axes from `m` on are copied together ----

    /** Axes after `m` are whole in both shapes, and from `m` on both shapes have the same strides. */
    ghost predicate Collapsed(m: nat) {
      && Valid() && m < |counts|
      && (forall j :: m < j < |counts| ==> offsets[j] == 0 && counts[j] == extent[j])
      && (forall j :: m <= j < |counts| ==> strides[j] == Strides(extent)[j])
    }

    ghost function RunLength(m: nat): nat
      requires Valid() && m < |counts|
    {
      counts[m] * Product(extent[m + 1..])
    }

    ghost function RunSource(m: nat, coord: seq<nat>): nat
      requires Valid() && |coord| == m <= |counts|
    {
      Dot(coord, strides[..m])
    }

    ghost function RunTarget(m: nat, coord: seq<nat>): nat
      requires Valid() && |coord| == m <= |counts|
    {
      Dot(offsets, Strides(extent)) + Dot(coord, Strides(extent)[..m])
    }

    /** Byte `k` after the first `n` runs, in row-major order of the axes before `m`. */
    ghost function AfterRuns(k: nat, cell: Cell, m: nat, n: nat): Cell
      requires Valid() && m < |counts|
    {
      var g := Unflat(Quot(k, size), extent);
      if Covers(g) && Flat(Local(g)[..m], counts[..m]) < n then After(k, cell) else cell
    }

    ghost predicate Progress(before: seq<Cell>, now: seq<Cell>, m: nat, n: nat)
      requires Valid() && m < |counts|
    {
      && |now| == |before|
      && forall k :: 0 <= k < |now| ==> now[k] == AfterRuns(k, before[k], m, n)
    }
  }

  lemma RunArithmetic(a: nat, a': nat, p: nat, q: nat, n: nat, o: nat, c: nat, x: nat, f: nat)
    requires p == n * q && o + c <= n && x < n && f < q
    ensures a * p + o * q <= a' * p + x * q + f < a * p + o * q + c * q <==> a == a' && o <= x < o + c
  {
    ScaledSum(o, c, n, q);
    MulStep(x, n, q);
    if a < a' {
      MulStep(a, a', p);
    } else if a' < a {
      MulStep(a', a, p);
    } else {
      WithinScaled(o, c, x, f, q);
    }
  }

  lemma WithinScaled(o: nat, c: nat, x: nat, f: nat, q: nat)
    requires f < q
    ensures o * q <= x * q + f < o * q + c * q <==> o <= x < o + c
  {
    MulAdd(o, c, q);
    MulStep(x, o, q);
    MulStep(o, x, q);
    MulStep(x, o + c, q);
    MulStep(o + c, x, q);
  }

  lemma {:induction false} DotSum(a: seq<nat>, b: seq<nat>, c: seq<nat>, strides: seq<nat>)
    requires |a| == |b| == |c| == |strides|
    requires forall i :: 0 <= i < |c| ==> c[i] == a[i] + b[i]
    ensures Dot(c, strides) == Dot(a, strides) + Dot(b, strides)
  {
    if a != [] {
      DotSum(a[1..], b[1..], c[1..], strides[1..]);
      assert c[0] * strides[0] == a[0] * strides[0] + b[0] * strides[0];
    }
  }

  lemma {:induction false} DotZeros(strides: seq<nat>)
    ensures Dot(Zeros(|strides|), strides) == 0
  {
    if strides != [] {
      DotZeros(strides[1..]);
      assert Zeros(|strides|)[1..] == Zeros(|strides| - 1);
    }
  }

  /** The first element a run writes. */
  ghost function RunStart(p: Placement, m: nat, coord: seq<nat>): (t: seq<nat>)
    requires p.Collapsed(m) && InBox(coord, p.counts[..m])
    ensures |t| == |p.counts|
  {
    seq(|p.counts|, i requires 0 <= i < |p.counts| => if i < m then p.offsets[i] + coord[i] else p.offsets[i])
  }

  lemma RunStartFlat(p: Placement, m: nat, coord: seq<nat>)
    requires p.Collapsed(m) && InBox(coord, p.counts[..m])
    ensures p.RunTarget(m, coord) == Flat(RunStart(p, m, coord), p.extent)
  {
    var t, s := RunStart(p, m, coord), Strides(p.extent);
    var pad := coord + Zeros(|p.counts| - m);
    DotSum(p.offsets, pad, t, s);
    DotSplit(pad, s, m);
    assert pad[..m] == coord && pad[m..] == Zeros(|s[m..]|);
    DotZeros(s[m..]);
    FlatDot(t, p.extent);
  }

  lemma RowMatches(p: Placement, m: nat, coord: seq<nat>, g: seq<nat>)
    requires p.Collapsed(m) && Positive(p.counts) && InBox(coord, p.counts[..m]) && InBox(g, p.extent)
    ensures g[..m] == RunStart(p, m, coord)[..m] && p.offsets[m] <= g[m] < p.offsets[m] + p.counts[m]
       <==> p.Covers(g) && p.Local(g)[..m] == coord
  {
    var t := RunStart(p, m, coord);
    if g[..m] == t[..m] && p.offsets[m] <= g[m] < p.offsets[m] + p.counts[m] {
      forall i | 0 <= i < |g| ensures p.offsets[i] <= g[i] < p.offsets[i] + p.counts[i] {
        if i < m {
          assert g[i] == g[..m][i] == t[..m][i];
        }
      }
      forall i | 0 <= i < m ensures p.Local(g)[i] == coord[i] {
        assert g[i] == g[..m][i] == t[..m][i];
      }
      assert p.Local(g)[..m] == coord;
    }
    if p.Covers(g) && p.Local(g)[..m] == coord {
      forall i | 0 <= i < m ensures g[i] == t[i] {
        assert p.Local(g)[..m][i] == coord[i];
      }
      assert g[..m] == t[..m];
    }
  }

  /** A run writes exactly the elements of the box whose leading coordinates are `coord`. */
  lemma RunIsRow(p: Placement, m: nat, coord: seq<nat>, g: seq<nat>)
    requires p.Collapsed(m) && Positive(p.counts) && InBox(coord, p.counts[..m]) && InBox(g, p.extent)
    ensures var start, e := p.RunTarget(m, coord), Flat(g, p.extent);
      && (start <= e < start + p.RunLength(m) <==> p.Covers(g) && p.Local(g)[..m] == coord)
      && (p.Covers(g) && p.Local(g)[..m] == coord ==>
            Dot(p.Local(g), p.strides) == p.RunSource(m, coord) + (e - start))
  {
    var t, ext := RunStart(p, m, coord), p.extent;
    RowMatches(p, m, coord, g);
    RunInterval(p, m, coord, g);
    assert InBox(t[..m], ext[..m]) && InBox(g[..m], ext[..m]);
    if Flat(t[..m], ext[..m]) == Flat(g[..m], ext[..m]) {
      FlatInjective(t[..m], g[..m], ext[..m]);
    }
    if p.Covers(g) && p.Local(g)[..m] == coord {
      RunSourceOffset(p, m, g);
    }
  }

  /** The elements whose numbers lie in the run's interval are those of its row. */
  lemma RunInterval(p: Placement, m: nat, coord: seq<nat>, g: seq<nat>)
    requires p.Collapsed(m) && Positive(p.counts) && InBox(coord, p.counts[..m]) && InBox(g, p.extent)
    ensures var start, e, t := p.RunTarget(m, coord), Flat(g, p.extent), RunStart(p, m, coord);
      var same := Flat(t[..m], p.extent[..m]) == Flat(g[..m], p.extent[..m]);
      && (start <= e < start + p.RunLength(m) <==> same && p.offsets[m] <= g[m] < p.offsets[m] + p.counts[m])
      && (same ==> e + Mul(p.offsets[m], Product(p.extent[m + 1..])) == start + Flat(g[m..], p.extent[m..]))
  {
    var t, ext := RunStart(p, m, coord), p.extent;
    RunNumbers(p, m, coord, g);
    RunArithmetic(Flat(t[..m], ext[..m]), Flat(g[..m], ext[..m]), Product(ext[m..]), Product(ext[m + 1..]),
                  ext[m], p.offsets[m], p.counts[m], g[m], Flat(g[m + 1..], ext[m + 1..]));
  }

  /** The numbers of a run's first element and of any other, split at axis `m`. */
  lemma RunNumbers(p: Placement, m: nat, coord: seq<nat>, g: seq<nat>)
    requires p.Collapsed(m) && Positive(p.counts) && InBox(coord, p.counts[..m]) && InBox(g, p.extent)
    ensures var t, ext := RunStart(p, m, coord), p.extent;
      && p.RunTarget(m, coord) == Flat(t[..m], ext[..m]) * Product(ext[m..]) + p.offsets[m] * Product(ext[m + 1..])
      && Flat(g, ext) == Flat(g[..m], ext[..m]) * Product(ext[m..]) + Flat(g[m..], ext[m..])
      && Flat(g[m..], ext[m..]) == g[m] * Product(ext[m + 1..]) + Flat(g[m + 1..], ext[m + 1..])
      && Product(ext[m..]) == ext[m] * Product(ext[m + 1..]) && Flat(g[m + 1..], ext[m + 1..]) < Product(ext[m + 1..])
  {
    RunStartAt(p, m, coord);
    FlatAt(g, p.extent, m);
  }

  lemma RunStartAt(p: Placement, m: nat, coord: seq<nat>)
    requires p.Collapsed(m) && InBox(coord, p.counts[..m])
    ensures var t, ext := RunStart(p, m, coord), p.extent;
      p.RunTarget(m, coord) == Flat(t[..m], ext[..m]) * Product(ext[m..]) + p.offsets[m] * Product(ext[m + 1..])
  {
    var t, ext := RunStart(p, m, coord), p.extent;
    RunStartFlat(p, m, coord);
    FlatSplit(t, ext, m);
    assert ext[m..][1..] == ext[m + 1..] && t[m..][1..] == Zeros(|ext| - m - 1);
    FlatZeros(ext[m + 1..]);
  }

  lemma FlatAt(g: seq<nat>, ext: seq<nat>, m: nat)
    requires InBox(g, ext) && m < |ext|
    ensures Flat(g, ext) == Flat(g[..m], ext[..m]) * Product(ext[m..]) + Flat(g[m..], ext[m..])
    ensures Flat(g[m..], ext[m..]) == g[m] * Product(ext[m + 1..]) + Flat(g[m + 1..], ext[m + 1..])
    ensures Product(ext[m..]) == ext[m] * Product(ext[m + 1..]) && Flat(g[m + 1..], ext[m + 1..]) < Product(ext[m + 1..])
  {
    FlatSplit(g, ext, m);
    assert ext[m..][1..] == ext[m + 1..] && g[m..][1..] == g[m + 1..];
    FlatBound(g[m + 1..], ext[m + 1..]);
  }

  lemma RunSourceOffset(p: Placement, m: nat, g: seq<nat>)
    requires p.Collapsed(m) && InBox(g, p.extent) && p.Covers(g)
    ensures Dot(p.Local(g), p.strides) + Mul(p.offsets[m], Product(p.extent[m + 1..]))
         == Dot(p.Local(g)[..m], p.strides[..m]) + Flat(g[m..], p.extent[m..])
  {
    var c, ext := p.Local(g), p.extent;
    DotSplit(c, p.strides, m);
    StridesAt(ext, m);
    assert p.strides[m..] == Strides(ext[m..]);
    FlatDot(c[m..], ext[m..]);
    assert ext[m..][1..] == ext[m + 1..];
    LocalTail(p, m, g);
    FlatShift(c[m..], g[m..], ext[m..], p.offsets[m]);
  }

  lemma LocalTail(p: Placement, m: nat, g: seq<nat>)
    requires p.Collapsed(m) && p.Covers(g)
    ensures p.Local(g)[m..][1..] == g[m..][1..]
  {
    var a, b := p.Local(g)[m..][1..], g[m..][1..];
    forall i | 0 <= i < |b| ensures a[i] == b[i] {
      assert p.offsets[m + 1 + i] == 0;
    }
  }

  lemma FlatShift(c: seq<nat>, g: seq<nat>, dims: seq<nat>, o: nat)
    requires |c| == |g| == |dims| > 0 && g[0] == c[0] + o && c[1..] == g[1..]
    ensures Flat(c, dims) + o * Product(dims[1..]) == Flat(g, dims)
  {
    MulAdd(c[0], o, Product(dims[1..]));
  }

  /** Copying one more run advances `Progress` by one. */
  lemma RunAdvances(p: Placement, before: seq<Cell>, now: seq<Cell>, next: seq<Cell>, m: nat, coord: seq<nat>)
    requires p.Collapsed(m) && Positive(p.counts) && InBox(coord, p.counts[..m])
    requires |before| == Product(p.extent) * p.size
    requires p.Progress(before, now, m, Flat(coord, p.counts[..m]))
    requires |next| == |now|
    requires var d, s := p.RunTarget(m, coord) * p.size, p.RunSource(m, coord) * p.size;
      forall k :: 0 <= k < |now| ==>
        next[k] == if d <= k < d + p.RunLength(m) * p.size then now[k].Write(p.Byte(s + (k - d))) else now[k]
    ensures p.Progress(before, next, m, Flat(coord, p.counts[..m]) + 1)
  {
    forall k | 0 <= k < |next|
      ensures next[k] == p.AfterRuns(k, before[k], m, Flat(coord, p.counts[..m]) + 1)
    {
      RunAdvancesAt(p, before[k], now[k], next[k], m, coord, k);
    }
  }

  lemma RunAdvancesAt(p: Placement, before: Cell, now: Cell, next: Cell, m: nat, coord: seq<nat>, k: nat)
    requires p.Collapsed(m) && Positive(p.counts) && InBox(coord, p.counts[..m])
    requires k < Product(p.extent) * p.size
    requires now == p.AfterRuns(k, before, m, Flat(coord, p.counts[..m]))
    requires var d, s := p.RunTarget(m, coord) * p.size, p.RunSource(m, coord) * p.size;
      next == if d <= k < d + p.RunLength(m) * p.size then now.Write(p.Byte(s + (k - d))) else now
    ensures next == p.AfterRuns(k, before, m, Flat(coord, p.counts[..m]) + 1)
  {
    var g, box := Unflat(Quot(k, p.size), p.extent), p.counts[..m];
    RunByte(p, m, coord, k);
    if p.Covers(g) {
      var row := p.Local(g)[..m];
      if Flat(row, box) == Flat(coord, box) {
        FlatInjective(row, coord, box);
      }
    }
  }

  /** Which bytes of the buffer a run writes, and from where. */
  lemma RunByte(p: Placement, m: nat, coord: seq<nat>, k: nat)
    requires p.Collapsed(m) && Positive(p.counts) && InBox(coord, p.counts[..m])
    requires k < Product(p.extent) * p.size
    ensures var d, s, g := p.RunTarget(m, coord) * p.size, p.RunSource(m, coord) * p.size, Unflat(Quot(k, p.size), p.extent);
      && (d <= k < d + p.RunLength(m) * p.size <==> p.Covers(g) && p.Local(g)[..m] == coord)
      && (p.Covers(g) && p.Local(g)[..m] == coord ==> s + (k - d) == Dot(p.Local(g), p.strides) * p.size + Rem(k, p.size))
  {
    var g := Unflat(Quot(k, p.size), p.extent);
    DivBelow(k, p.size, Product(p.extent));
    FlatUnflat(Quot(k, p.size), p.extent);
    RunIsRow(p, m, coord, g);
    ScaledRange(k, p.size, p.RunTarget(m, coord), p.RunLength(m));
    if p.Covers(g) && p.Local(g)[..m] == coord {
      ScaledShift(k, p.size, p.RunTarget(m, coord), p.RunSource(m, coord));
    }
  }

  lemma RunInBuffer(p: Placement, m: nat, coord: seq<nat>)
    requires p.Collapsed(m) && Positive(p.counts) && InBox(coord, p.counts[..m])
    ensures p.RunTarget(m, coord) + p.RunLength(m) <= Product(p.extent)
  {
    var t, ext := RunStart(p, m, coord), p.extent;
    RunStartAt(p, m, coord);
    ProductSplit(ext, m);
    assert ext[m..][1..] == ext[m + 1..];
    assert InBox(t[..m], ext[..m]);
    FlatBound(t[..m], ext[..m]);
    RunBound(Flat(t[..m], ext[..m]), Product(ext[..m]), Product(ext[m..]), Product(ext[m + 1..]), ext[m],
             p.offsets[m], p.counts[m]);
  }

  lemma RunBound(a: nat, b: nat, p: nat, q: nat, n: nat, o: nat, c: nat)
    requires a < b && p == n * q && o + c <= n
    ensures a * p + o * q + c * q <= b * p
  {
    MulStep(a, b, p);
    ScaledSum(o, c, n, q);
  }

  /** No run reads past the last element of the box, and the last run ends on it. */
  lemma RunInSource(p: Placement, m: nat, coord: seq<nat>)
    requires p.Collapsed(m) && Positive(p.counts) && InBox(coord, p.counts[..m])
    ensures p.RunSource(m, coord) + p.RunLength(m) <= Dot(Last(p.counts), p.strides) + 1
    ensures coord == Last(p.counts[..m]) ==>
      p.RunSource(m, coord) + p.RunLength(m) == Dot(Last(p.counts), p.strides) + 1
  {
    var last, ext := Last(p.counts), p.extent;
    DotSplit(last, p.strides, m);
    assert last[..m] == Last(p.counts[..m]);
    DotMono(coord, last[..m], p.strides[..m]);
    StridesAt(ext, m);
    assert p.strides[m..] == Strides(ext[m..]);
    FlatDot(last[m..], ext[m..]);
    LastRun(p, m);
  }

  lemma LastRun(p: Placement, m: nat)
    requires p.Collapsed(m) && Positive(p.counts)
    ensures Flat(Last(p.counts)[m..], p.extent[m..]) + 1 == p.RunLength(m)
  {
    var last, tail := Last(p.counts), p.extent[m + 1..];
    assert last[m..][1..] == Last(tail) && p.extent[m..][1..] == tail;
    FlatLast(tail);
    MulPred(p.counts[m], Product(tail));
  }

  lemma MulPred(a: nat, b: nat)
    requires a > 0
    ensures (a - 1) * b + b == a * b
  {
  }

  /** Before any run the buffer is unchanged; after all of them it is the element-by-element copy. */
  lemma ProgressEnds(p: Placement, before: seq<Cell>, now: seq<Cell>, m: nat)
    requires p.Valid() && m < |p.counts| && |now| == |before|
    requires Positive(p.counts)
    ensures p.Progress(before, before, m, 0)
    ensures p.Progress(before, now, m, Product(p.counts[..m])) ==> now == p.Apply(before)
  {
    if p.Progress(before, now, m, Product(p.counts[..m])) {
      forall k | 0 <= k < |now| ensures now[k] == p.Apply(before)[k] {
        var g := Unflat(Quot(k, p.size), p.extent);
        if p.Covers(g) {
          FlatBound(p.Local(g)[..m], p.counts[..m]);
        }
      }
    }
  }

  /** A box with an empty side covers nothing. */
  lemma EmptyBox(p: Placement, before: seq<Cell>, i: nat)
    requires p.Valid() && i < |p.counts| && p.counts[i] == 0
    ensures p.Apply(before) == before && p.Fits()
  {
    forall k | 0 <= k < |before| ensures p.After(k, before[k]) == before[k] {
      var g := Unflat(Quot(k, p.size), p.extent);
      assert !(p.offsets[i] <= g[i] < p.offsets[i] + p.counts[i]);
    }
  }

  // ---- The copying code ----

  /** The checked end of a run that reaches past its slice: `add_offset` overflows, or the slice refuses. */
  function PastEnd(end: nat): Error { if end > USIZE_MAX then OffsetOverflow else Internal }

  /** `copy_scatter_run` with `ScatterDestination::copy`: both ranges are checked before a byte is written. */
  method CopyRun(data: seq<byte>, output: array<Cell>, source: nat, target: nat, length: nat)
    returns (r: Result<()>)
    modifies output
    ensures r.Ok? <==> source + length <= |data| && target + length <= output.Length
    ensures r.Err? ==> output[..] == old(output[..])
                       && r.error == PastEnd((if source + length > |data| then source else target) + length)
    ensures r.Ok? ==> forall k :: 0 <= k < output.Length ==>
      output[k] == if target <= k < target + length then old(output[k]).Write(data[source + (k - target)])
                   else old(output[k])
  {
    if source + length > |data| {
      return Err(PastEnd(source + length));
    }
    if target + length > output.Length {
      return Err(PastEnd(target + length));
    }
    for i := 0 to length
      invariant forall k :: 0 <= k < output.Length ==>
        output[k] == if target <= k < target + i then old(output[k]).Write(data[source + (k - target)])
                     else old(output[k])
    {
      output[target + i] := output[target + i].Write(data[source + i]);
    }
    r := Ok(());
  }

  lemma MergeStep(p: Placement, m: nat)
    requires p.Collapsed(m) && m > 0
    requires p.offsets[m] == 0 && p.counts[m] == p.extent[m] && p.strides[m - 1] == p.RunLength(m)
    ensures p.Collapsed(m - 1)
    ensures p.RunLength(m - 1) == p.RunLength(m) * p.counts[m - 1]
  {
    StridesAt(p.extent, m - 1);
    assert p.extent[m..][1..] == p.extent[m + 1..];
    assert Product(p.extent[m..]) == p.RunLength(m);
  }

  /**
   The contiguous-run search of `place_chunk`: trailing axes are merged while both shapes store them
   whole and with equal strides.
   */
  method MergeAxes(p: Placement, dims: seq<nat>, extentStrides: seq<nat>)
    returns (m: nat, contiguous: nat)
    requires p.Valid() && |p.counts| > 0 && Positive(p.counts)
    requires |dims| == |p.counts| && p.counts == Clip(p.offsets, dims, p.extent)
    requires extentStrides == Strides(p.extent)
    requires p.strides[|p.strides| - 1] == 1
    ensures p.Collapsed(m)
    ensures contiguous == p.RunLength(m)
  {
    m := |p.counts| - 1;
    contiguous := p.counts[m];
    StridesAt(p.extent, m);
    assert p.extent[m + 1..] == [];
    while m > 0
      && p.offsets[m] == 0
      && p.counts[m] == dims[m]
      && p.counts[m] == p.extent[m]
      && p.strides[m - 1] == contiguous
      && extentStrides[m - 1] == contiguous
      invariant p.Collapsed(m)
      invariant contiguous == p.RunLength(m)
    {
      MergeStep(p, m);
      m := m - 1;
      contiguous := contiguous * p.counts[m];
    }
  }

  /** The strides of the source are those of an enclosing shape, and both buffers are addressable. */
  ghost predicate Enclosed(p: Placement, enclosing: seq<nat>) {
    && p.Valid()
    && |enclosing| == |p.counts|
    && (forall i :: 0 <= i < |enclosing| ==> p.counts[i] <= enclosing[i])
    && p.strides == Strides(enclosing)
    && Product(enclosing) * p.size <= USIZE_MAX
    && Product(p.extent) * p.size <= USIZE_MAX
  }

  /** The checked offset arithmetic of `place_chunk` never fails: every run ends below `usize::MAX`. */
  lemma RunAddressable(p: Placement, enclosing: seq<nat>, m: nat, coord: seq<nat>)
    requires Enclosed(p, enclosing) && p.Collapsed(m) && Positive(p.counts) && InBox(coord, p.counts[..m])
    ensures p.RunSource(m, coord) * p.size + p.RunLength(m) * p.size <= USIZE_MAX
    ensures p.RunTarget(m, coord) * p.size + p.RunLength(m) * p.size <= USIZE_MAX
  {
    RunInBuffer(p, m, coord);
    ScaledSum(p.RunTarget(m, coord), p.RunLength(m), Product(p.extent), p.size);
    RunInSource(p, m, coord);
    assert InBox(Last(p.counts), enclosing);
    FlatDot(Last(p.counts), enclosing);
    FlatBound(Last(p.counts), enclosing);
    ScaledSum(p.RunSource(m, coord), p.RunLength(m), Product(enclosing), p.size);
  }

  lemma RunFits(p: Placement, m: nat, coord: seq<nat>)
    requires p.Collapsed(m) && Positive(p.counts) && InBox(coord, p.counts[..m])
    ensures p.Fits() ==> p.RunSource(m, coord) * p.size + p.RunLength(m) * p.size <= |p.data|
    ensures coord == Last(p.counts[..m]) ==>
      (p.Fits() <==> p.RunSource(m, coord) * p.size + p.RunLength(m) * p.size <= |p.data|)
  {
    RunInSource(p, m, coord);
    ScaledSum(p.RunSource(m, coord), p.RunLength(m), Dot(Last(p.counts), p.strides) + 1, p.size);
  }

  /** One run of any of the three branches: the source check, the copy, and its effect. */
  method CopyRunAt(p: Placement, output: array<Cell>, m: nat, source: nat, target: nat, length: nat,
                   ghost coord: seq<nat>, ghost before: seq<Cell>)
    returns (r: Result<()>)
    requires p.Collapsed(m) && Positive(p.counts) && InBox(coord, p.counts[..m])
    requires source == p.RunSource(m, coord) && target == p.RunTarget(m, coord) && length == p.RunLength(m)
    requires |before| == output.Length == Product(p.extent) * p.size
    requires source * p.size + length * p.size <= USIZE_MAX
    requires p.Progress(before, output[..], m, Flat(coord, p.counts[..m]))
    modifies output
    ensures r.Err? ==> !p.Fits() && r.error == Internal
    ensures r.Ok? && coord == Last(p.counts[..m]) ==> p.Fits()
    ensures r.Ok? ==> p.Progress(before, output[..], m, Flat(coord, p.counts[..m]) + 1)
  {
    RunInBuffer(p, m, coord);
    RunFits(p, m, coord);
    ScaledSum(target, length, Product(p.extent), p.size);
    ghost var now := output[..];
    var from, to, count := source * p.size, target * p.size, length * p.size;
    r := CopyRun(p.data, output, from, to, count);
    if r.Ok? {
      ghost var next := output[..];
      assert forall k :: 0 <= k < |now| ==>
        next[k] == if to <= k < to + count then now[k].Write(p.Byte(from + (k - to))) else now[k];
      RunAdvances(p, before, now, next, m, coord);
    }
  }

  /** `ScatterRows::copy_to`: one outer axis, copied with a fixed stride on each side. */
  method CopyRows(p: Placement, output: array<Cell>, extentStrides: seq<nat>, base: nat, length: nat,
                  ghost enclosing: seq<nat>)
    returns (r: Result<()>)
    requires Enclosed(p, enclosing) && p.Collapsed(1) && Positive(p.counts)
    requires extentStrides == Strides(p.extent) && base == Dot(p.offsets, extentStrides)
    requires length == p.RunLength(1)
    requires output.Length == Product(p.extent) * p.size
    modifies output
    ensures r.Ok? <==> p.Fits()
    ensures r.Err? ==> r.error == Internal && output[..] == old(output[..])
    ensures r.Ok? ==> output[..] == p.Apply(old(output[..]))
  {
    ghost var before := output[..];
    var count, rowStride, extentStride := p.counts[0], p.strides[0], extentStrides[0];
    assert p.counts[..1] == [count];
    RowCoord(p, count - 1);
    RunFits(p, 1, [count - 1]);
    RowWithinStride(p, enclosing);
    assert Last([count]) == [count - 1];
    if (count - 1) * rowStride * p.size + length * p.size > |p.data| {
      return Err(Internal);
    }
    ProgressEnds(p, before, before, 1);
    for i := 0 to count
      invariant p.Progress(before, output[..], 1, i)
    {
      RowCoord(p, i);
      RunAddressable(p, enclosing, 1, [i]);
      r := CopyRunAt(p, output, 1, i * rowStride, base + i * extentStride, length, [i], before);
      if r.Err? {
        assert false;
      }
    }
    assert Product([count]) == count * Product([]);
    ProgressEnds(p, before, output[..], 1);
    r := Ok(());
  }

  lemma RowCoord(p: Placement, i: nat)
    requires p.Collapsed(1) && i < p.counts[0]
    ensures InBox([i], p.counts[..1]) && Flat([i], p.counts[..1]) == i
    ensures p.RunSource(1, [i]) == i * p.strides[0]
    ensures p.RunTarget(1, [i]) == Dot(p.offsets, Strides(p.extent)) + i * Strides(p.extent)[0]
  {
    assert p.counts[..1][1..] == [];
    assert Product([]) == 1;
    var s, t := p.strides[..1], Strides(p.extent)[..1];
    assert [i][1..] == [] && s[1..] == [] && t[1..] == [];
    assert Dot([i], s) == i * s[0] + Dot([], []) && Dot([i], t) == i * t[0] + Dot([], []);
  }

  /** `ScatterRows::new` never refuses: a row fits both strides. */
  lemma RowWithinStride(p: Placement, enclosing: seq<nat>)
    requires Enclosed(p, enclosing) && p.Collapsed(1) && Positive(p.counts)
    ensures 0 < p.RunLength(1) <= p.strides[0]
    ensures p.RunLength(1) <= Strides(p.extent)[0]
  {
    StridesAt(p.extent, 0);
    StridesAt(enclosing, 0);
    StridesAt(p.extent, 1);
    StridesAt(enclosing, 1);
    assert p.extent[1..][1..] == p.extent[2..] && enclosing[1..][1..] == enclosing[2..];
    MulStep(p.counts[1], p.extent[1], Product(p.extent[2..]));
    MulStep(p.counts[1], enclosing[1], Product(p.extent[2..]));
    ProductPositive(p.extent[2..]);
    MulStep(1, p.counts[1], Product(p.extent[2..]));
  }

  /** The offset fold of `place_chunk`: `base` plus the dot product of a position and strides. */
  method OffsetOf(base: nat, position: seq<nat>, strides: seq<nat>) returns (offset: nat)
    requires |position| <= |strides|
    ensures offset == base + Dot(position, strides[..|position|])
  {
    offset := base;
    assert position[..0] == [];
    for i := 0 to |position|
      invariant offset == base + Dot(position[..i], strides[..i])
    {
      var cut := strides[..|position|];
      DotAppend(position, cut, i);
      assert cut[..i] == strides[..i] && cut[..i + 1] == strides[..i + 1];
      offset := offset + position[i] * strides[i];
    }
    assert position[..|position|] == position;
  }

  /**
   The odometer step over the first `m` axes: advances `coord` to the next point of the box in
   row-major order, or reports that there is none.
   */
  method Advance(coord: array<nat>, counts: seq<nat>, m: nat) returns (more: bool)
    requires m <= |counts| && m <= coord.Length
    requires InBox(coord[..m], counts[..m])
    modifies coord
    ensures !more ==> old(coord[..m]) == Last(counts[..m])
    ensures more ==> InBox(coord[..m], counts[..m])
    ensures more ==> Flat(coord[..m], counts[..m]) == Flat(old(coord[..m]), counts[..m]) + 1
  {
    ghost var c := coord[..m];
    var axis := m;
    while true
      invariant 0 <= axis <= m
      invariant coord[..axis] == c[..axis]
      invariant forall i :: axis <= i < m ==> coord[i] == 0 && c[i] == counts[i] - 1
      decreases axis
    {
      if axis == 0 {
        return false;
      }
      axis := axis - 1;
      assert coord[axis] == coord[..axis + 1][axis] == c[axis];
      coord[axis] := coord[axis] + 1;
      assert coord[..axis] == c[..axis];
      if coord[axis] < counts[axis] {
        FlatNext(c, coord[..m], counts[..m], axis);
        return true;
      }
      coord[axis] := 0;
    }
  }

  /** `coord.fill(0)`. */
  method Reset(coord: array<nat>)
    modifies coord
    ensures coord[..] == Zeros(coord.Length)
  {
    for i := 0 to coord.Length
      invariant forall j :: 0 <= j < i ==> coord[j] == 0
    {
      coord[i] := 0;
    }
  }

  /** One turn of the odometer loop: the run at `coord`. */
  method CopyRunNext(p: Placement, output: array<Cell>, extentStrides: seq<nat>, base: nat, m: nat, length: nat,
                     coord: seq<nat>, ghost enclosing: seq<nat>, ghost before: seq<Cell>)
    returns (r: Result<()>)
    requires Enclosed(p, enclosing) && p.Collapsed(m) && Positive(p.counts) && InBox(coord, p.counts[..m])
    requires extentStrides == Strides(p.extent) && base == Dot(p.offsets, extentStrides)
    requires length == p.RunLength(m) && |before| == output.Length == Product(p.extent) * p.size
    requires p.Progress(before, output[..], m, Flat(coord, p.counts[..m]))
    modifies output
    ensures r.Err? ==> !p.Fits() && r.error == Internal
    ensures r.Ok? && coord == Last(p.counts[..m]) ==> p.Fits()
    ensures r.Ok? ==> p.Progress(before, output[..], m, Flat(coord, p.counts[..m]) + 1)
  {
    RunAddressable(p, enclosing, m, coord);
    var source := OffsetOf(0, coord, p.strides);
    var target := OffsetOf(base, coord, extentStrides);
    r := CopyRunAt(p, output, m, source, target, length, coord, before);
  }

  /** The odometer loop of `place_chunk`: one run per point of the axes before `m`. */
  method CopyRuns(p: Placement, output: array<Cell>, extentStrides: seq<nat>, base: nat, m: nat, length: nat,
                  coord: array<nat>, ghost enclosing: seq<nat>)
    returns (r: Result<()>)
    requires Enclosed(p, enclosing) && p.Collapsed(m) && Positive(p.counts)
    requires extentStrides == Strides(p.extent) && base == Dot(p.offsets, extentStrides)
    requires length == p.RunLength(m) && coord.Length == |p.counts|
    requires output.Length == Product(p.extent) * p.size
    modifies output, coord
    ensures r.Ok? <==> p.Fits()
    ensures r.Err? ==> r.error == Internal
    ensures r.Ok? ==> output[..] == p.Apply(old(output[..]))
  {
    ghost var before, box := output[..], p.counts[..m];
    Reset(coord);
    assert coord[..m] == Zeros(m);
    FlatZeros(box);
    ProgressEnds(p, before, before, m);
    while true
      invariant InBox(coord[..m], box)
      invariant p.Progress(before, output[..], m, Flat(coord[..m], box))
      decreases Product(box) - Flat(coord[..m], box)
    {
      FlatBound(coord[..m], box);
      r := CopyRunNext(p, output, extentStrides, base, m, length, coord[..m], enclosing, before);
      if r.Err? {
        return;
      }
      var more := Advance(coord, p.counts, m);
      if !more {
        FlatLast(box);
        ProgressEnds(p, before, output[..], m);
        return;
      }
    }
  }

  lemma StrideStep(dims: seq<nat>, i: nat)
    requires 0 < i < |dims|
    ensures Strides(dims[i..])[0] * dims[i] == Product(dims[i..])
    ensures Strides(dims[i - 1..]) == [Product(dims[i..])] + Strides(dims[i..])
  {
    assert dims[i..][1..] == dims[i + 1..] && dims[i - 1..][1..] == dims[i..];
  }

  /** `row_major_strides`, whose products fit for every shape it is given by the readers. */
  method RowMajorStrides(dims: seq<nat>) returns (strides: Result<seq<nat>>)
    ensures strides.Ok? <==> forall i :: 1 <= i < |dims| ==> Product(dims[i..]) <= USIZE_MAX
    ensures strides.Ok? ==> strides.value == Strides(dims)
    ensures strides.Err? ==> strides.error == OffsetOverflow
  {
    if dims == [] {
      return Ok([]);
    }
    var s := [1];
    var i := |dims| - 1;
    assert dims[|dims|..] == [];
    assert Strides(dims[i..]) == [1] by {
      assert dims[i..][1..] == [];
    }
    while i > 0
      invariant 0 <= i < |dims|
      invariant s == Strides(dims[i..])
      invariant forall j :: i < j < |dims| ==> Product(dims[j..]) <= USIZE_MAX
    {
      var next := s[0] * dims[i];
      StrideStep(dims, i);
      if next > USIZE_MAX {
        return Err(OffsetOverflow);
      }
      s := [next] + s;
      i := i - 1;
    }
    assert dims[0..] == dims;
    strides := Ok(s);
  }

  /** What placing a chunk of shape `dims` at `offsets` contributes to a buffer of shape `extent`. */
  function PlacementOf(data: seq<byte>, offsets: seq<nat>, dims: seq<nat>, extent: seq<nat>,
                       strides: seq<nat>, size: nat): (p: Placement)
    requires |offsets| == |dims| == |extent| == |strides| && size > 0
    ensures p.Valid()
  {
    Placement(data, offsets, Clip(offsets, dims, extent), extent, strides, size)
  }

  /**
   `place_chunk`. Its contiguous-run, fixed-stride-row and odometer branches all perform the
   element-by-element copy of the clipped box, and it succeeds exactly when the data hold the box.
   */
  method PlaceChunk(data: seq<byte>, output: array<Cell>, offsets: seq<nat>, dims: seq<nat>, extent: seq<nat>,
                    extentStrides: seq<nat>, strides: seq<nat>, size: nat, coord: array<nat>,
                    ghost enclosing: seq<nat>)
    returns (r: Result<()>)
    requires size > 0 && output.Length == Product(extent) * size <= USIZE_MAX
    requires extentStrides == Strides(extent) && strides == Strides(enclosing)
    requires |dims| == |enclosing| ==> forall i :: 0 <= i < |dims| ==> dims[i] <= enclosing[i]
    requires Product(enclosing) * size <= USIZE_MAX
    modifies output, coord
    ensures !(|offsets| == |dims| == |extent| == |strides| == coord.Length) ==>
      r == Err(Internal) && output[..] == old(output[..])
    ensures |offsets| == |dims| == |extent| == |strides| == coord.Length ==>
      var p := PlacementOf(data, offsets, dims, extent, strides, size);
      && (r.Ok? <==> p.Fits())
      && (r.Ok? ==> output[..] == p.Apply(old(output[..])))
  {
    var rank := |extent|;
    if !(|offsets| == |dims| == |extentStrides| == |strides| == coord.Length == rank) {
      return Err(Internal);
    }
    var p := PlacementOf(data, offsets, dims, extent, strides, size);
    if rank == 0 {
      r := CopyScalar(p, output);
    } else {
      r := PlaceRanked(p, output, dims, extentStrides, coord, enclosing);
    }
  }

  /** `place_chunk` for a dataset without dimensions. */
  method CopyScalar(p: Placement, output: array<Cell>) returns (r: Result<()>)
    requires p.Valid() && p.counts == [] && output.Length == p.size
    modifies output
    ensures r.Ok? <==> p.Fits()
    ensures r.Ok? ==> output[..] == p.Apply(old(output[..]))
  {
    ScalarFits(p);
    ghost var before := output[..];
    r := CopyElement(p.data, output);
    if r.Ok? {
      ScalarCopy(p, before, output[..]);
    }
  }

  method CopyElement(data: seq<byte>, output: array<Cell>) returns (r: Result<()>)
    modifies output
    ensures r.Ok? <==> output.Length <= |data|
    ensures r.Ok? ==> forall k :: 0 <= k < output.Length ==> output[k] == old(output[k]).Write(data[k])
  {
    r := CopyRun(data, output, 0, 0, output.Length);
  }

  /** `place_chunk` past its rank checks: a chunk with no element in the extent contributes nothing. */
  method PlaceRanked(p: Placement, output: array<Cell>, dims: seq<nat>, extentStrides: seq<nat>,
                     coord: array<nat>, ghost enclosing: seq<nat>)
    returns (r: Result<()>)
    requires Enclosed(p, enclosing) && |p.counts| > 0
    requires |dims| == coord.Length == |p.counts| && p.counts == Clip(p.offsets, dims, p.extent)
    requires extentStrides == Strides(p.extent)
    requires output.Length == Product(p.extent) * p.size
    modifies output, coord
    ensures r.Ok? <==> p.Fits()
    ensures r.Ok? ==> output[..] == p.Apply(old(output[..]))
  {
    if i :| 0 <= i < |dims| && dims[i] == 0 {
      EmptyBox(p, output[..], i);
      return Ok(());
    }
    if i :| 0 <= i < |dims| && p.offsets[i] >= p.extent[i] {
      EmptyBox(p, output[..], i);
      return Ok(());
    }
    r := PlaceBox(p, output, dims, extentStrides, coord, enclosing);
  }

  /** The contiguous branch: the whole box is one run. */
  method CopyOneRun(p: Placement, output: array<Cell>, extentStrides: seq<nat>, base: nat, length: nat,
                    ghost enclosing: seq<nat>)
    returns (r: Result<()>)
    requires Enclosed(p, enclosing) && p.Collapsed(0) && Positive(p.counts)
    requires extentStrides == Strides(p.extent) && base == Dot(p.offsets, extentStrides)
    requires length == p.RunLength(0) && output.Length == Product(p.extent) * p.size
    modifies output
    ensures r.Ok? <==> p.Fits()
    ensures r.Err? ==> r.error == Internal
    ensures r.Ok? ==> output[..] == p.Apply(old(output[..]))
  {
    ghost var before := output[..];
    ProgressEnds(p, before, before, 0);
    assert p.counts[..0] == [];
    r := CopyRunNext(p, output, extentStrides, base, 0, length, [], enclosing, before);
    if r.Ok? {
      ProgressEnds(p, before, output[..], 0);
    }
  }

  /** The branches of `place_chunk` for a box with at least one element. */
  method PlaceBox(p: Placement, output: array<Cell>, dims: seq<nat>, extentStrides: seq<nat>, coord: array<nat>,
                  ghost enclosing: seq<nat>)
    returns (r: Result<()>)
    requires Enclosed(p, enclosing) && Positive(p.counts) && |p.counts| > 0
    requires |dims| == coord.Length == |p.counts| && p.counts == Clip(p.offsets, dims, p.extent)
    requires extentStrides == Strides(p.extent)
    requires output.Length == Product(p.extent) * p.size
    modifies output, coord
    ensures r.Ok? <==> p.Fits()
    ensures r.Err? ==> r.error == Internal
    ensures r.Ok? ==> output[..] == p.Apply(old(output[..]))
  {
    StridesAt(enclosing, |dims| - 1);
    assert enclosing[|dims|..] == [];
    var m, length := MergeAxes(p, dims, extentStrides);
    var base := OffsetOf(0, p.offsets, extentStrides);
    assert extentStrides[..|dims|] == extentStrides;
    if m == 0 {
      r := CopyOneRun(p, output, extentStrides, base, length, enclosing);
    } else if m == 1 {
      r := CopyRows(p, output, extentStrides, base, length, enclosing);
    } else {
      r := CopyRuns(p, output, extentStrides, base, m, length, coord, enclosing);
    }
  }

  lemma ScalarFits(p: Placement)
    requires p.Valid() && p.counts == []
    ensures p.Fits() <==> p.size <= |p.data|
  {
    assert Last([]) == [];
    assert Dot([], p.strides) == 0;
    assert (0 + 1) * p.size == p.size;
  }

  lemma ScalarCopy(p: Placement, before: seq<Cell>, after: seq<Cell>)
    requires p.Valid() && p.counts == [] && |before| == |after| == p.size <= |p.data|
    requires forall k :: 0 <= k < p.size ==> after[k] == before[k].Write(p.data[k])
    ensures after == p.Apply(before)
  {
    forall k | 0 <= k < p.size ensures after[k] == p.After(k, before[k]) {
      ScalarCopyAt(p, k, before[k]);
    }
  }

  lemma ScalarCopyAt(p: Placement, k: nat, cell: Cell)
    requires p.Valid() && p.counts == [] && k < p.size <= |p.data|
    ensures p.After(k, cell) == cell.Write(p.data[k])
  {
    assert Quot(k, p.size) == 0 && Rem(k, p.size) == k by {
      DivModUnique(p.size, 0, k);
    }
    assert Unflat(0, p.extent) == [] && p.Local([]) == [];
  }
}
