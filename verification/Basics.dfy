/** Failure-carrying results, machine widths and a few facts about natural numbers. */
module Basics {

  datatype Option<+T> = None | Some(value: T)

  /** The ways an operation of the chunk engine refuses its input. */
  datatype Error =
    | ChunkedRead
    | InvalidGeometry
    | OffsetOverflow
    | SizeMismatch
    | TooLarge
    | UnreadableFill
    | Internal
    | SourceEnd
    | AppendUnsupported
    | Refused

  datatype Result<+T> = Ok(value: T) | Err(error: Error) {
    predicate IsFailure() { Err? }

    function PropagateFailure<U>(): Result<U>
      requires Err?
    {
      Err(error)
    }

    function Extract(): T
      requires Ok?
    {
      value
    }
  }

  type byte = b: int | 0 <= b < 256

  const U64_MAX: nat := 0xFFFF_FFFF_FFFF_FFFF

  /** The largest `usize`. The proofs hold for every pointer width of 16 to 64 bits. */
  type PointerRange = n: nat | 0xFFFF <= n <= U64_MAX witness U64_MAX
  const USIZE_MAX: PointerRange

  function Min(a: nat, b: nat): nat { if a <= b then a else b }

  function Max(a: nat, b: nat): nat { if a <= b then b else a }

  /** `u64::div_ceil`. */
  function DivCeil(n: nat, d: nat): nat
    requires d > 0
  {
    (n + d - 1) / d
  }

  /** The element that byte `k` of a buffer belongs to, and the byte's place in it. */
  function Quot(k: nat, size: nat): nat
    requires size > 0
  {
    k / size
  }

  function Rem(k: nat, size: nat): (r: nat)
    requires size > 0
    ensures r < size
  {
    k % size
  }

  lemma DivModUnique(d: nat, q: nat, r: nat)
    requires r < d
    ensures (q * d + r) / d == q && (q * d + r) % d == r
  {
    var n := q * d + r;
    assert n == n / d * d + n % d;
    if n / d < q {
      MulMono(n / d + 1, q, d);
    } else if n / d > q {
      MulMono(q + 1, n / d, d);
    }
  }

  lemma MulMono(a: nat, b: nat, c: nat)
    requires a <= b
    ensures a * c <= b * c
  {
  }

  lemma MulStep(a: nat, b: nat, c: nat)
    ensures a < b ==> a * c + c <= b * c
    ensures a <= b ==> a * c <= b * c
  {
    if a < b {
      MulMono(a + 1, b, c);
      assert (a + 1) * c == a * c + c;
    }
  }

  /** `DivCeil(n, d)` is the number of whole or partial steps of `d` below `n`. */
  lemma DivCeilBounds(n: nat, d: nat, q: nat)
    requires d > 0
    ensures q < DivCeil(n, d) <==> q * d < n
  {
    var c := DivCeil(n, d);
    var t := n + d - 1;
    assert t == c * d + t % d;
    if q < c {
      MulMono(q + 1, c, d);
    } else {
      MulMono(c, q, d);
    }
  }

  lemma DivCeilCovers(n: nat, d: nat)
    requires d > 0
    ensures n <= DivCeil(n, d) * d
  {
    DivCeilBounds(n, d, DivCeil(n, d));
  }

  /** A product of naturals, as one. */
  function Mul(a: nat, b: nat): nat { a * b }

  lemma MulAdd(a: nat, b: nat, c: nat)
    ensures (a + b) * c == a * c + b * c
  {
  }

  /** `n` times `size`, by addition. */
  function Bulk(n: nat, size: nat): nat {
    if n == 0 then 0 else Bulk(n - 1, size) + size
  }

  lemma {:induction false} BulkIsProduct(n: nat, size: nat)
    ensures Bulk(n, size) == n * size
  {
    if n > 0 {
      BulkIsProduct(n - 1, size);
      MulAdd(n - 1, 1, size);
    }
  }

  lemma {:induction false} BulkMono(m: nat, n: nat, size: nat)
    requires m <= n
    ensures Bulk(m, size) <= Bulk(n, size)
  {
    if m < n {
      BulkMono(m, n - 1, size);
    }
  }

  /** A digit below `n` followed by a remainder below `p` is below `n * p`. */
  lemma DigitBound(a: nat, n: nat, p: nat, f: nat)
    requires a < n && f < p
    ensures a * p + f < n * p
  {
    MulStep(a, n, p);
  }

  lemma QuotRem(k: nat, p: nat)
    requires p > 0
    ensures Quot(k, p) * p + Rem(k, p) == k
  {
  }

  lemma DigitSplit(k: nat, n: nat, p: nat)
    requires k < n * p
    ensures p > 0 && Quot(k, p) < n && Quot(k, p) * p + Rem(k, p) == k
  {
    assert p != 0;
    DivBelow(k, p, n);
  }

  lemma DivBelow(k: nat, d: nat, a: nat)
    requires d > 0
    ensures a * d <= k <==> a <= Quot(k, d)
    ensures k < a * d <==> Quot(k, d) < a
  {
    assert k == k / d * d + k % d;
    MulStep(a, k / d, d);
    MulStep(k / d, a, d);
  }

  lemma ScaledSum(a: nat, b: nat, c: nat, d: nat)
    requires a + b <= c
    ensures a * d + b * d <= c * d
    ensures a + b == c ==> a * d + b * d == c * d
  {
    assert (a + b) * d == a * d + b * d;
    MulMono(a + b, c, d);
  }

  /** Scaling a range of elements to a range of bytes. */
  lemma ScaledRange(k: nat, d: nat, start: nat, len: nat)
    requires d > 0
    ensures start * d <= k < start * d + len * d <==> start <= Quot(k, d) < start + len
  {
    assert (start + len) * d == start * d + len * d;
    DivBelow(k, d, start);
    DivBelow(k, d, start + len);
  }

  lemma ScaledShift(k: nat, d: nat, start: nat, source: nat)
    requires d > 0 && start <= Quot(k, d)
    ensures start * d <= k
    ensures source * d + (k - start * d) == (source + (Quot(k, d) - start)) * d + Rem(k, d)
  {
    DivBelow(k, d, start);
    assert k == k / d * d + k % d;
    assert (source + (k / d - start)) * d == source * d + k / d * d - start * d;
  }

  lemma SplitAt<T>(s: seq<T>, u: nat)
    requires u < |s|
    ensures s == s[..u] + [s[u]] + s[u + 1..]
  {
  }

  lemma SliceOfSlice<T>(s: seq<T>, a: nat, b: nat, lo: nat, hi: nat)
    requires a <= b <= |s| && lo <= hi <= b - a
    ensures s[a..b][lo..hi] == s[a + lo..a + hi]
  {
    var x, y := s[a..b][lo..hi], s[a + lo..a + hi];
    assert |x| == |y|;
    forall i | 0 <= i < |x| ensures x[i] == y[i] {
      assert x[i] == s[a..b][lo + i] == s[a + lo + i];
    }
  }

  predicate Distinct<T(==)>(s: seq<T>) {
    forall i, j :: 0 <= i < j < |s| ==> s[i] != s[j]
  }
}
