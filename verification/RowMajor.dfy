/**
 Mixed-radix positions: the row-major numbering of the points of a box.

 The same arithmetic numbers the elements of a dataset or a chunk, the chunks of a grid, and the
 runs that a scatter copies.
 */
module RowMajor {
  import opened Basics

  function Product(dims: seq<nat>): nat {
    if dims == [] then 1 else dims[0] * Product(dims[1..])
  }

  /** `c` is a point of the box whose side along axis `i` is `dims[i]`. */
  predicate InBox(c: seq<nat>, dims: seq<nat>) {
    |c| == |dims| && forall i :: 0 <= i < |c| ==> c[i] < dims[i]
  }

  predicate Positive(dims: seq<nat>) {
    forall i :: 0 <= i < |dims| ==> dims[i] > 0
  }

  /** The row-major number of a point. */
  function Flat(c: seq<nat>, dims: seq<nat>): nat
    requires |c| == |dims|
  {
    if c == [] then 0 else c[0] * Product(dims[1..]) + Flat(c[1..], dims[1..])
  }

  /** The point with row-major number `n`. */
  function Unflat(n: nat, dims: seq<nat>): (c: seq<nat>)
    ensures |c| == |dims|
  {
    if dims == [] then []
    else
      var rest := Product(dims[1..]);
      if rest == 0 then [0] + Unflat(0, dims[1..])
      else [Quot(n, rest)] + Unflat(Rem(n, rest), dims[1..])
  }

  /** Row-major strides, innermost stride 1. */
  function Strides(dims: seq<nat>): (s: seq<nat>)
    ensures |s| == |dims|
  {
    if dims == [] then [] else [Product(dims[1..])] + Strides(dims[1..])
  }

  function Dot(c: seq<nat>, strides: seq<nat>): nat
    requires |c| == |strides|
  {
    if c == [] then 0 else c[0] * strides[0] + Dot(c[1..], strides[1..])
  }

  function Zeros(n: nat): seq<nat> {
    seq(n, i => 0)
  }

  /** The last point of a nonempty box. */
  function Last(dims: seq<nat>): (c: seq<nat>)
    requires Positive(dims)
    ensures InBox(c, dims)
  {
    seq(|dims|, i requires 0 <= i < |dims| => dims[i] - 1)
  }

  lemma ProductPositive(dims: seq<nat>)
    requires Positive(dims)
    ensures Product(dims) > 0
  {
    if dims != [] {
      ProductPositive(dims[1..]);
    }
  }

  lemma ProductZero(dims: seq<nat>, i: nat)
    requires i < |dims| && dims[i] == 0
    ensures Product(dims) == 0
  {
    if i > 0 {
      ProductZero(dims[1..], i - 1);
    }
  }

  lemma PositiveProduct(dims: seq<nat>)
    requires Product(dims) > 0
    ensures Positive(dims)
  {
    forall i | 0 <= i < |dims| ensures dims[i] > 0 {
      if dims[i] == 0 {
        ProductZero(dims, i);
      }
    }
  }

  lemma {:induction false} ProductSplit(dims: seq<nat>, m: nat)
    requires m <= |dims|
    ensures Product(dims) == Product(dims[..m]) * Product(dims[m..])
  {
    if m == 0 {
      assert dims[0..] == dims && dims[..0] == [];
    } else {
      ProductSplit(dims[1..], m - 1);
      assert dims[1..][..m - 1] == dims[..m][1..];
      assert dims[1..][m - 1..] == dims[m..];
      MulAssoc(dims[0], Product(dims[..m][1..]), Product(dims[m..]));
    }
  }

  lemma MulAssoc(a: nat, b: nat, c: nat)
    ensures a * (b * c) == a * b * c
  {
  }

  lemma ProductAppend(dims: seq<nat>, m: nat)
    requires m < |dims|
    ensures Product(dims[..m + 1]) == Product(dims[..m]) * dims[m]
  {
    ProductSplit(dims[..m + 1], m);
    assert dims[..m + 1][..m] == dims[..m];
    assert dims[..m + 1][m..] == [dims[m]];
    assert Product([dims[m]]) == dims[m] * Product([]);
  }

  lemma {:induction false} FlatBound(c: seq<nat>, dims: seq<nat>)
    requires InBox(c, dims)
    ensures Flat(c, dims) < Product(dims)
  {
    if c != [] {
      FlatBound(c[1..], dims[1..]);
      DigitBound(c[0], dims[0], Product(dims[1..]), Flat(c[1..], dims[1..]));
    }
  }

  lemma {:induction false} FlatInjective(a: seq<nat>, b: seq<nat>, dims: seq<nat>)
    requires InBox(a, dims) && InBox(b, dims)
    requires Flat(a, dims) == Flat(b, dims)
    ensures a == b
  {
    if a != [] {
      var rest := Product(dims[1..]);
      FlatBound(a[1..], dims[1..]);
      FlatBound(b[1..], dims[1..]);
      DivModUnique(rest, a[0], Flat(a[1..], dims[1..]));
      DivModUnique(rest, b[0], Flat(b[1..], dims[1..]));
      FlatInjective(a[1..], b[1..], dims[1..]);
      assert a == [a[0]] + a[1..] && b == [b[0]] + b[1..];
    }
  }

  lemma {:induction false} FlatUnflat(n: nat, dims: seq<nat>)
    requires n < Product(dims)
    ensures InBox(Unflat(n, dims), dims)
    ensures Flat(Unflat(n, dims), dims) == n
  {
    if dims != [] {
      var rest := Product(dims[1..]);
      DigitSplit(n, dims[0], rest);
      FlatUnflat(Rem(n, rest), dims[1..]);
      assert Unflat(n, dims)[1..] == Unflat(Rem(n, rest), dims[1..]);
    }
  }

  lemma UnflatFlat(c: seq<nat>, dims: seq<nat>)
    requires InBox(c, dims)
    ensures Flat(c, dims) < Product(dims)
    ensures Unflat(Flat(c, dims), dims) == c
  {
    FlatBound(c, dims);
    FlatUnflat(Flat(c, dims), dims);
    FlatInjective(Unflat(Flat(c, dims), dims), c, dims);
  }

  lemma {:induction false} FlatSplit(c: seq<nat>, dims: seq<nat>, m: nat)
    requires |c| == |dims| && m <= |dims|
    ensures Flat(c, dims) == Flat(c[..m], dims[..m]) * Product(dims[m..]) + Flat(c[m..], dims[m..])
  {
    if m == 0 {
      assert c[0..] == c && dims[0..] == dims;
    } else {
      var inner := Product(dims[m..]);
      FlatSplit(c[1..], dims[1..], m - 1);
      assert c[1..][..m - 1] == c[..m][1..] && dims[1..][..m - 1] == dims[..m][1..];
      assert c[1..][m - 1..] == c[m..] && dims[1..][m - 1..] == dims[m..];
      ProductSplit(dims[1..], m - 1);
      var a, p, f := c[0], Product(dims[..m][1..]), Flat(c[..m][1..], dims[..m][1..]);
      assert Product(dims[1..]) == p * inner;
      assert Flat(c[..m], dims[..m]) == a * p + f;
      Distribute(a, p, f, inner);
    }
  }

  lemma Distribute(a: nat, p: nat, f: nat, q: nat)
    ensures (a * p + f) * q == a * (p * q) + f * q
  {
  }

  /** The Horner step: numbering one more axis. */
  lemma FlatAppend(c: seq<nat>, dims: seq<nat>, m: nat)
    requires |c| == |dims| && m < |dims|
    ensures Flat(c[..m + 1], dims[..m + 1]) == Flat(c[..m], dims[..m]) * dims[m] + c[m]
  {
    FlatSplit(c[..m + 1], dims[..m + 1], m);
    assert c[..m + 1][..m] == c[..m] && dims[..m + 1][..m] == dims[..m];
    assert c[..m + 1][m..] == [c[m]] && dims[..m + 1][m..] == [dims[m]];
    assert Product([dims[m]]) == dims[m] * Product([]);
    assert Flat([c[m]], [dims[m]]) == c[m] * Product([]) + Flat([], []);
  }

  lemma {:induction false} FlatZeros(dims: seq<nat>)
    ensures Flat(Zeros(|dims|), dims) == 0
  {
    if dims != [] {
      FlatZeros(dims[1..]);
      assert Zeros(|dims|)[1..] == Zeros(|dims| - 1);
    }
  }

  lemma {:induction false} FlatLast(dims: seq<nat>)
    requires Positive(dims)
    ensures Flat(Last(dims), dims) == Product(dims) - 1
  {
    if dims != [] {
      FlatLast(dims[1..]);
      assert Last(dims)[1..] == Last(dims[1..]);
    }
  }

  lemma {:induction false} FlatDot(c: seq<nat>, dims: seq<nat>)
    requires |c| == |dims|
    ensures Dot(c, Strides(dims)) == Flat(c, dims)
  {
    if c != [] {
      FlatDot(c[1..], dims[1..]);
      assert Strides(dims)[1..] == Strides(dims[1..]);
    }
  }

  lemma {:induction false} DotSplit(c: seq<nat>, strides: seq<nat>, m: nat)
    requires |c| == |strides| && m <= |c|
    ensures Dot(c, strides) == Dot(c[..m], strides[..m]) + Dot(c[m..], strides[m..])
  {
    if m == 0 {
      assert c[0..] == c && strides[0..] == strides;
    } else {
      DotSplit(c[1..], strides[1..], m - 1);
      assert c[1..][..m - 1] == c[..m][1..] && strides[1..][..m - 1] == strides[..m][1..];
      assert c[1..][m - 1..] == c[m..] && strides[1..][m - 1..] == strides[m..];
    }
  }

  lemma DotAppend(c: seq<nat>, strides: seq<nat>, m: nat)
    requires |c| == |strides| && m < |c|
    ensures Dot(c[..m + 1], strides[..m + 1]) == Dot(c[..m], strides[..m]) + c[m] * strides[m]
  {
    DotSplit(c[..m + 1], strides[..m + 1], m);
    assert c[..m + 1][..m] == c[..m] && strides[..m + 1][..m] == strides[..m];
    assert c[..m + 1][m..] == [c[m]] && strides[..m + 1][m..] == [strides[m]];
    assert Dot([c[m]], [strides[m]]) == c[m] * strides[m] + Dot([], []);
  }

  lemma {:induction false} DotMono(a: seq<nat>, b: seq<nat>, strides: seq<nat>)
    requires |a| == |b| == |strides|
    requires forall i :: 0 <= i < |a| ==> a[i] <= b[i]
    ensures Dot(a, strides) <= Dot(b, strides)
  {
    if a != [] {
      DotMono(a[1..], b[1..], strides[1..]);
      MulMono(a[0], b[0], strides[0]);
    }
  }

  lemma {:induction false} StridesAt(dims: seq<nat>, i: nat)
    requires i < |dims|
    ensures Strides(dims)[i] == Product(dims[i + 1..])
    ensures Strides(dims)[i..] == Strides(dims[i..])
  {
    if i > 0 {
      StridesAt(dims[1..], i - 1);
      assert dims[1..][i..] == dims[i + 1..] && dims[1..][i - 1..] == dims[i..];
      assert Strides(dims)[i..] == Strides(dims[1..])[i - 1..];
    }
  }

  /** The odometer step: the point after `c` in row-major order, when axis `a` is the one that advances. */
  lemma {:induction false} FlatNext(c: seq<nat>, next: seq<nat>, dims: seq<nat>, a: nat)
    requires InBox(c, dims) && a < |dims|
    requires forall i :: a < i < |dims| ==> c[i] == dims[i] - 1
    requires next == c[..a] + [c[a] + 1] + Zeros(|dims| - a - 1)
    ensures Flat(next, dims) == Flat(c, dims) + 1
  {
    if a == 0 {
      assert next == [c[0] + 1] + Zeros(|dims| - 1);
      FlatNextFirst(c, next, dims);
    } else {
      assert c[1..][..a - 1] == c[..a][1..];
      assert next[1..] == c[1..][..a - 1] + [c[1..][a - 1] + 1] + Zeros(|dims[1..]| - (a - 1) - 1);
      FlatNext(c[1..], next[1..], dims[1..], a - 1);
    }
  }

  lemma FlatNextFirst(c: seq<nat>, next: seq<nat>, dims: seq<nat>)
    requires InBox(c, dims) && |dims| > 0
    requires forall i :: 0 < i < |dims| ==> c[i] == dims[i] - 1
    requires next == [c[0] + 1] + Zeros(|dims| - 1)
    ensures Flat(next, dims) == Flat(c, dims) + 1
  {
    var tail := dims[1..];
    assert next[1..] == Zeros(|tail|);
    assert c[1..] == Last(tail);
    FlatZeros(tail);
    FlatLast(tail);
    assert (c[0] + 1) * Product(tail) == c[0] * Product(tail) + Product(tail);
  }

  // ---- The order of the numbering ----

  /** `a` comes before `b`, compared digit by digit from the front. */
  predicate LexLess(a: seq<nat>, b: seq<nat>) {
    |a| == |b| && a != [] && (a[0] < b[0] || (a[0] == b[0] && LexLess(a[1..], b[1..])))
  }

  /** Row-major numbers are in lexicographic order; the first digit need not be below its radix. */
  lemma {:induction false} FlatLexicographic(a: seq<nat>, b: seq<nat>, dims: seq<nat>)
    requires |a| == |b| == |dims|
    requires forall i :: 1 <= i < |dims| ==> a[i] < dims[i] && b[i] < dims[i]
    ensures Flat(a, dims) < Flat(b, dims) <==> LexLess(a, b)
  {
    if dims != [] {
      var rest := dims[1..];
      assert InBox(a[1..], rest) && InBox(b[1..], rest);
      FlatBound(a[1..], rest);
      FlatBound(b[1..], rest);
      MulStep(b[0], a[0], Product(rest));
      MulStep(a[0], b[0], Product(rest));
      FlatLexicographic(a[1..], b[1..], rest);
    }
  }
}
