/**
 Counting arguments behind dense coverage: the clipped volumes of a grid's cells add up to the
 volume they are clipped to, and that many distinct cells are all of them.
 */
module Tiling {
  import opened Basics
  import opened RowMajor

  /** The number of integers in `[a, b)` that are also in `[lo, hi)`. */
  function Overlap(a: nat, b: nat, lo: nat, hi: nat): nat {
    var from, to := Max(a, lo), Min(b, hi);
    if from < to then to - from else 0
  }

  function Sum(s: seq<nat>): nat {
    if s == [] then 0 else Sum(s[..|s| - 1]) + s[|s| - 1]
  }

  /** `[lo, hi)` cut into the first `n` steps of `step`. */
  function Cut(step: nat, lo: nat, hi: nat, n: nat): (s: seq<nat>)
    ensures |s| == n
  {
    seq(n, q requires 0 <= q => Overlap(q * step, q * step + step, lo, hi))
  }

  lemma {:induction false} CutSum(step: nat, lo: nat, hi: nat, n: nat)
    requires lo <= hi
    ensures Sum(Cut(step, lo, hi, n)) == Overlap(0, n * step, lo, hi)
  {
    if n > 0 {
      CutSum(step, lo, hi, n - 1);
      assert Cut(step, lo, hi, n)[..n - 1] == Cut(step, lo, hi, n - 1);
      MulAdd(n - 1, 1, step);
    }
  }

  /** The number of cells of the grid whose axis `i` has `|axes[i]|` steps. */
  function Cells(axes: seq<seq<nat>>): nat {
    if axes == [] then 1 else |axes[0]| * Cells(axes[1..])
  }

  /** The volume of the cell in row-major position `slot`. */
  function Volume(axes: seq<seq<nat>>, slot: nat): nat
    requires slot < Cells(axes)
  {
    if axes == [] then 1
    else
      var rest := Cells(axes[1..]);
      DigitSplit(slot, |axes[0]|, rest);
      axes[0][slot / rest] * Volume(axes[1..], slot % rest)
  }

  /** The volume of the first `n` cells. */
  function VolumeTo(axes: seq<seq<nat>>, n: nat): nat
    requires n <= Cells(axes)
  {
    if n == 0 then 0 else VolumeTo(axes, n - 1) + Volume(axes, n - 1)
  }

  function Box(axes: seq<seq<nat>>): nat {
    if axes == [] then 1 else Sum(axes[0]) * Box(axes[1..])
  }

  lemma {:induction false} VolumeRow(axes: seq<seq<nat>>, q: nat, t: nat)
    requires axes != [] && q < |axes[0]| && t <= Cells(axes[1..])
    ensures q * Cells(axes[1..]) + t <= Cells(axes)
    ensures VolumeTo(axes, q * Cells(axes[1..]) + t)
         == VolumeTo(axes, q * Cells(axes[1..])) + axes[0][q] * VolumeTo(axes[1..], t)
  {
    var rest := Cells(axes[1..]);
    MulStep(q, |axes[0]|, rest);
    if t > 0 {
      VolumeRow(axes, q, t - 1);
      DivModUnique(rest, q, t - 1);
      assert Volume(axes, q * rest + (t - 1)) == axes[0][q] * Volume(axes[1..], t - 1);
      Distribute2(axes[0][q], VolumeTo(axes[1..], t - 1), Volume(axes[1..], t - 1));
    }
  }

  lemma Distribute2(a: nat, b: nat, c: nat)
    ensures a * (b + c) == a * b + a * c
  {
  }

  lemma {:induction false} VolumeRows(axes: seq<seq<nat>>, q: nat)
    requires axes != [] && q <= |axes[0]|
    ensures q * Cells(axes[1..]) <= Cells(axes)
    ensures VolumeTo(axes, q * Cells(axes[1..]))
         == Sum(axes[0][..q]) * VolumeTo(axes[1..], Cells(axes[1..]))
  {
    var rest, inner := Cells(axes[1..]), VolumeTo(axes[1..], Cells(axes[1..]));
    MulStep(q, |axes[0]|, rest);
    if q > 0 {
      VolumeRows(axes, q - 1);
      VolumeRow(axes, q - 1, rest);
      MulAdd(q - 1, 1, rest);
      assert axes[0][..q][..q - 1] == axes[0][..q - 1];
      assert Sum(axes[0][..q]) == Sum(axes[0][..q - 1]) + axes[0][q - 1];
      MulAdd(Sum(axes[0][..q - 1]), axes[0][q - 1], inner);
    }
  }

  /** A sum of products is a product of sums: the cells' volumes add up to the box's. */
  lemma {:induction false} VolumeTotal(axes: seq<seq<nat>>)
    ensures VolumeTo(axes, Cells(axes)) == Box(axes)
  {
    if axes == [] {
      assert VolumeTo(axes, 1) == VolumeTo(axes, 0) + Volume(axes, 0);
    } else {
      VolumeRows(axes, |axes[0]|);
      VolumeTotal(axes[1..]);
      assert axes[0][..|axes[0]|] == axes[0];
    }
  }

  function Lengths(axes: seq<seq<nat>>): (n: seq<nat>)
    ensures |n| == |axes|
  {
    seq(|axes|, i requires 0 <= i < |axes| => |axes[i]|)
  }

  /** The sides of the cell at grid position `q`. */
  function Sides(axes: seq<seq<nat>>, q: seq<nat>): (s: seq<nat>)
    requires InBox(q, Lengths(axes))
    ensures |s| == |axes|
  {
    seq(|axes|, i requires 0 <= i < |axes| => axes[i][q[i]])
  }

  lemma {:induction false} CellsProduct(axes: seq<seq<nat>>)
    ensures Cells(axes) == Product(Lengths(axes))
  {
    if axes != [] {
      CellsProduct(axes[1..]);
      assert Lengths(axes)[1..] == Lengths(axes[1..]);
    }
  }

  /** The volume of a cell is the product of its sides. */
  lemma {:induction false} VolumeSides(axes: seq<seq<nat>>, q: seq<nat>)
    requires InBox(q, Lengths(axes))
    ensures Flat(q, Lengths(axes)) < Cells(axes)
    ensures Volume(axes, Flat(q, Lengths(axes))) == Product(Sides(axes, q))
  {
    CellsProduct(axes);
    FlatBound(q, Lengths(axes));
    if axes != [] {
      var rest := axes[1..];
      assert Lengths(axes)[1..] == Lengths(rest) && Sides(axes, q)[1..] == Sides(rest, q[1..]);
      VolumeSides(rest, q[1..]);
      CellsProduct(rest);
      DivModUnique(Cells(rest), q[0], Flat(q[1..], Lengths(rest)));
    }
  }

  /** The steps of a grid over the box from `lo` to `hi`. */
  function GridAxes(step: seq<nat>, lo: seq<nat>, hi: seq<nat>, counts: seq<nat>): (axes: seq<seq<nat>>)
    requires |step| == |lo| == |hi| == |counts|
    ensures |axes| == |step|
  {
    seq(|step|, i requires 0 <= i < |step| => Cut(step[i], lo[i], hi[i], counts[i]))
  }

  function Extents(lo: seq<nat>, hi: seq<nat>): (e: seq<nat>)
    requires |lo| == |hi|
    ensures |e| == |lo|
  {
    seq(|lo|, i requires 0 <= i < |lo| => if lo[i] <= hi[i] then hi[i] - lo[i] else 0)
  }

  predicate StepsReach(step: nat, lo: nat, hi: nat, count: nat) { lo <= hi <= count * step }

  predicate Reaches(step: seq<nat>, lo: seq<nat>, hi: seq<nat>, counts: seq<nat>)
    requires |step| == |lo| == |hi| == |counts|
  {
    forall i :: 0 <= i < |step| ==> StepsReach(step[i], lo[i], hi[i], counts[i])
  }

  /** The cells of a grid that reaches `hi` hold together the whole box. */
  lemma {:induction false} GridBox(step: seq<nat>, lo: seq<nat>, hi: seq<nat>, counts: seq<nat>)
    requires |step| == |lo| == |hi| == |counts| && Reaches(step, lo, hi, counts)
    ensures Box(GridAxes(step, lo, hi, counts)) == Product(Extents(lo, hi))
  {
    if step != [] {
      var axes := GridAxes(step, lo, hi, counts);
      assert axes[1..] == GridAxes(step[1..], lo[1..], hi[1..], counts[1..]);
      assert Extents(lo, hi)[1..] == Extents(lo[1..], hi[1..]);
      GridBox(step[1..], lo[1..], hi[1..], counts[1..]);
      assert StepsReach(step[0], lo[0], hi[0], counts[0]);
      CutSum(step[0], lo[0], hi[0], counts[0]);
    }
  }

  // ---- Sums over the cells that have been seen ----

  ghost function SeenTo(axes: seq<seq<nat>>, seen: set<nat>, n: nat): nat
    requires n <= Cells(axes)
  {
    if n == 0 then 0
    else SeenTo(axes, seen, n - 1) + if n - 1 in seen then Volume(axes, n - 1) else 0
  }

  lemma {:induction false} SeenMore(axes: seq<seq<nat>>, seen: set<nat>, slot: nat, n: nat)
    requires n <= Cells(axes) && slot < Cells(axes) && slot !in seen
    ensures SeenTo(axes, seen + {slot}, n) == SeenTo(axes, seen, n) + if slot < n then Volume(axes, slot) else 0
  {
    if n > 0 {
      SeenMore(axes, seen, slot, n - 1);
    }
  }

  /** The cells seen never hold more than all of them, and hold as much only if none of the rest has volume. */
  lemma {:induction false} SeenBound(axes: seq<seq<nat>>, seen: set<nat>, n: nat)
    requires n <= Cells(axes)
    ensures SeenTo(axes, seen, n) <= VolumeTo(axes, n)
    ensures SeenTo(axes, seen, n) == VolumeTo(axes, n)
       <==> forall s :: 0 <= s < n && s !in seen ==> Volume(axes, s) == 0
  {
    if n > 0 {
      SeenBound(axes, seen, n - 1);
      if SeenTo(axes, seen, n) == VolumeTo(axes, n) {
        assert forall s :: 0 <= s < n && s !in seen ==> s < n - 1 || s == n - 1;
      }
    }
  }

  lemma SeenNone(axes: seq<seq<nat>>, n: nat)
    requires n <= Cells(axes)
    ensures SeenTo(axes, {}, n) == 0
  {
  }

  ghost function Range(n: nat): (s: set<nat>)
    ensures forall x: nat :: x in s <==> x < n
    ensures |s| == n
  {
    if n == 0 then {} else Range(n - 1) + {n - 1}
  }

  lemma {:induction false} SubsetSize<T>(a: set<T>, b: set<T>)
    requires a <= b
    ensures |a| <= |b|
    ensures |a| == |b| ==> a == b
  {
    if x :| x in a {
      SubsetSize(a - {x}, b - {x});
    }
  }

  ghost function Elements<T(!new)>(s: seq<T>): (r: set<T>)
    ensures forall x :: x in r <==> x in s
  {
    set x | x in s
  }

  lemma {:induction false} DistinctSize<T(!new)>(s: seq<T>)
    requires Distinct(s)
    ensures |Elements(s)| == |s|
  {
    if s != [] {
      var front, last := s[..|s| - 1], s[|s| - 1];
      DistinctSize(front);
      assert s == front + [last];
      assert Elements(s) == Elements(front) + {last};
    } else {
      assert Elements(s) == {};
    }
  }

  /** The pigeonhole step: `n` distinct numbers below `n` are all of them. */
  lemma Pigeonhole(s: seq<nat>, n: nat)
    requires Distinct(s) && |s| == n
    requires forall i :: 0 <= i < |s| ==> s[i] < n
    ensures Elements(s) == Range(n)
  {
    DistinctSize(s);
    SubsetSize(Elements(s), Range(n));
  }
}
