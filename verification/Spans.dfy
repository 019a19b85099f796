/** Coalesced reads of adjacent chunks (src/chunk_span.rs). */
module Spans {
  import opened Basics

  /** `AddressRange`: the bytes from `start` up to `end`. */
  datatype Range = Range(start: nat, end: nat) {
    predicate Ordered() { start <= end }

    predicate Contains(r: Range) { start <= r.start && r.end <= end }

    predicate Has(address: nat) { start <= address < end }

    function Length(): nat
      requires Ordered()
    {
      end - start
    }
  }

  const MAX_SPAN_BYTES: nat := 262144

  predicate Ordered(ranges: seq<Range>) {
    forall i :: 0 <= i < |ranges| ==> ranges[i].Ordered()
  }

  predicate NotAfter(ranges: seq<Range>, i: nat, j: nat)
    requires i < |ranges| && j < |ranges|
  {
    ranges[i].start <= ranges[j].start
  }

  predicate ByStart(ranges: seq<Range>) {
    forall i, j :: 0 <= i < j < |ranges| ==> NotAfter(ranges, i, j)
  }

  // ---- Planning ----

  /** One turn of the merge loop: extend the last span, or start a new one. */
  function MergeStep(spans: seq<Range>, r: Range): (next: seq<Range>)
    ensures |spans| <= |next| <= |spans| + 1 && |next| > 0
  {
    if spans != [] && r.start <= spans[|spans| - 1].end && r.end <= spans[|spans| - 1].start + MAX_SPAN_BYTES
    then
      var last := spans[|spans| - 1];
      spans[|spans| - 1 := Range(last.start, Max(last.end, r.end))]
    else spans + [r]
  }

  /** The spans after the first `n` ranges. */
  function MergeTo(ranges: seq<Range>, n: nat): seq<Range>
    requires n <= |ranges|
  {
    if n == 0 then [] else MergeStep(MergeTo(ranges, n - 1), ranges[n - 1])
  }

  function Merge(ranges: seq<Range>): seq<Range> { MergeTo(ranges, |ranges|) }

  ghost predicate Covered(r: Range, spans: seq<Range>) {
    exists i :: 0 <= i < |spans| && spans[i].Contains(r)
  }

  ghost predicate Planned(address: nat, ranges: seq<Range>) {
    exists i :: 0 <= i < |ranges| && ranges[i].Has(address)
  }

  lemma PlannedMore(address: nat, ranges: seq<Range>, more: seq<Range>)
    requires Planned(address, ranges) && ranges <= more
    ensures Planned(address, more)
  {
    var i :| 0 <= i < |ranges| && ranges[i].Has(address);
    assert more[i].Has(address);
  }

  /** What the plan promises: planned bytes only, and no long span but a single chunk. */
  ghost predicate SpanOk(s: Range, ranges: seq<Range>) {
    && s.Ordered()
    && (forall a :: s.Has(a) ==> Planned(a, ranges))
    && (s.end <= s.start + MAX_SPAN_BYTES || s in ranges)
  }

  lemma SpanOkMore(s: Range, ranges: seq<Range>, r: Range)
    requires SpanOk(s, ranges)
    ensures SpanOk(s, ranges + [r])
  {
    var more := ranges + [r];
    forall a | s.Has(a) ensures Planned(a, more) {
      PlannedMore(a, ranges, more);
    }
    assert s in ranges ==> s in more;
  }

  lemma SpanOkNew(ranges: seq<Range>, r: Range)
    requires r.Ordered()
    ensures SpanOk(r, ranges + [r])
  {
    var more := ranges + [r];
    assert more[|ranges|] == r;
  }

  lemma SpanOkExtended(last: Range, ranges: seq<Range>, r: Range)
    requires SpanOk(last, ranges) && r.Ordered()
    requires last.start <= r.start <= last.end && r.end <= last.start + MAX_SPAN_BYTES
    ensures SpanOk(Range(last.start, Max(last.end, r.end)), ranges + [r])
  {
    var more, s := ranges + [r], Range(last.start, Max(last.end, r.end));
    assert more[|ranges|] == r;
    SpanOkMore(last, ranges, r);
    forall a | s.Has(a) ensures Planned(a, more) {
      assert last.Has(a) || r.Has(a);
    }
    if s.end > s.start + MAX_SPAN_BYTES {
      assert s == last;
    }
  }

  ghost predicate AllOk(spans: seq<Range>, ranges: seq<Range>) {
    forall j {:trigger SpanOk(spans[j], ranges)} :: 0 <= j < |spans| ==> SpanOk(spans[j], ranges)
  }

  ghost predicate AllCovered(ranges: seq<Range>, spans: seq<Range>) {
    forall i {:trigger Covered(ranges[i], spans)} :: 0 <= i < |ranges| ==> Covered(ranges[i], spans)
  }

  ghost predicate PlanOk(spans: seq<Range>, ranges: seq<Range>) {
    && AllOk(spans, ranges) && AllCovered(ranges, spans)
    && ByStart(spans)
    && (ranges == [] <==> spans == [])
    && (ranges != [] ==> spans[|spans| - 1].start <= ranges[|ranges| - 1].start)
  }

  lemma MergeStepSpans(spans: seq<Range>, ranges: seq<Range>, r: Range)
    requires PlanOk(spans, ranges) && r.Ordered() && Ordered(ranges)
    requires ranges == [] || ranges[|ranges| - 1].start <= r.start
    ensures AllOk(MergeStep(spans, r), ranges + [r])
  {
    var next := MergeStep(spans, r);
    forall j | 0 <= j < |next| ensures SpanOk(next[j], ranges + [r]) {
      MergeStepSpan(spans, ranges, r, j);
    }
  }

  lemma MergeStepSpan(spans: seq<Range>, ranges: seq<Range>, r: Range, j: nat)
    requires AllOk(spans, ranges)
    requires r.Ordered() && (spans == [] || spans[|spans| - 1].start <= r.start) && j < |MergeStep(spans, r)|
    ensures SpanOk(MergeStep(spans, r)[j], ranges + [r])
  {
    assert j < |spans| ==> SpanOk(spans[j], ranges);
    if j == |spans| {
      SpanOkNew(ranges, r);
    } else if MergeStep(spans, r)[j] == spans[j] {
      SpanOkMore(spans[j], ranges, r);
    } else {
      SpanOkExtended(spans[j], ranges, r);
    }
  }

  lemma MergeStepCovers(spans: seq<Range>, ranges: seq<Range>, r: Range)
    requires AllCovered(ranges, spans)
    requires r.Ordered() && (spans == [] || spans[|spans| - 1].start <= r.start)
    ensures AllCovered(ranges + [r], MergeStep(spans, r))
  {
    var next := MergeStep(spans, r);
    forall i | 0 <= i < |ranges + [r]| ensures Covered((ranges + [r])[i], next) {
      if i < |ranges| {
        assert Covered(ranges[i], spans);
        var k :| 0 <= k < |spans| && spans[k].Contains(ranges[i]);
        assert next[k].Contains(ranges[i]);
      } else {
        assert next[|next| - 1].Contains(r);
      }
    }
  }

  lemma MergeStepSorted(spans: seq<Range>, r: Range)
    requires ByStart(spans) && (spans == [] || spans[|spans| - 1].start <= r.start)
    ensures ByStart(MergeStep(spans, r)) && MergeStep(spans, r)[|MergeStep(spans, r)| - 1].start <= r.start
  {
    var next := MergeStep(spans, r);
    forall i, j | 0 <= i < j < |next| ensures NotAfter(next, i, j) {
      assert i < |spans| && next[i].start == spans[i].start;
      assert i < |spans| - 1 ==> NotAfter(spans, i, |spans| - 1);
      assert j < |spans| ==> NotAfter(spans, i, j) && next[j].start == spans[j].start;
    }
  }

  lemma MergeStepPlan(spans: seq<Range>, ranges: seq<Range>, r: Range)
    requires PlanOk(spans, ranges) && Ordered(ranges) && r.Ordered()
    requires ranges == [] || ranges[|ranges| - 1].start <= r.start
    ensures PlanOk(MergeStep(spans, r), ranges + [r])
  {
    MergeStepSpans(spans, ranges, r);
    MergeStepCovers(spans, ranges, r);
    MergeStepSorted(spans, r);
  }

  /** The plan over chunks sorted by address. */
  lemma {:induction false} MergePlan(ranges: seq<Range>, n: nat)
    requires Ordered(ranges) && ByStart(ranges) && n <= |ranges|
    ensures PlanOk(MergeTo(ranges, n), ranges[..n])
  {
    if n > 0 {
      MergePlan(ranges, n - 1);
      assert n > 1 ==> NotAfter(ranges, n - 2, n - 1);
      assert ranges[..n] == ranges[..n - 1] + [ranges[n - 1]];
      MergeStepPlan(MergeTo(ranges, n - 1), ranges[..n - 1], ranges[n - 1]);
    }
  }

  // ---- Disjoint chunks ----

  predicate Ends(ranges: seq<Range>, i: nat, j: nat)
    requires i < |ranges| && j < |ranges|
  {
    ranges[i].end <= ranges[j].start
  }

  /** Nonempty chunks, each ending where or before the next starts. */
  predicate Apart(ranges: seq<Range>) {
    && (forall i :: 0 <= i < |ranges| ==> ranges[i].start < ranges[i].end)
    && (forall i, j :: 0 <= i < j < |ranges| ==> Ends(ranges, i, j))
  }

  lemma MergeStepApart(spans: seq<Range>, r: Range)
    requires Apart(spans) && r.start < r.end && (spans == [] || spans[|spans| - 1].end <= r.start)
    ensures Apart(MergeStep(spans, r)) && MergeStep(spans, r)[|MergeStep(spans, r)| - 1].end == r.end
  {
    var next := MergeStep(spans, r);
    forall i, j | 0 <= i < j < |next| ensures Ends(next, i, j) {
      assert i < |spans| && next[i] == spans[i];
      assert i < |spans| - 1 ==> Ends(spans, i, |spans| - 1);
      assert j < |spans| ==> Ends(spans, i, j) && next[j].start == spans[j].start;
    }
  }

  lemma {:induction false} MergeApart(ranges: seq<Range>, n: nat)
    requires Apart(ranges) && n <= |ranges|
    ensures var spans := MergeTo(ranges, n);
      Apart(spans) && (n > 0 ==> spans != [] && spans[|spans| - 1].end == ranges[n - 1].end)
  {
    if n > 0 {
      MergeApart(ranges, n - 1);
      assert n > 1 ==> Ends(ranges, n - 2, n - 1);
      MergeStepApart(MergeTo(ranges, n - 1), ranges[n - 1]);
    }
  }

  /** The span that range `i` went into. */
  function SpanIndex(ranges: seq<Range>, i: nat): (k: nat)
    requires i < |ranges|
  {
    |MergeTo(ranges, i + 1)| - 1
  }

  /** Earlier spans are left alone and the last one only lengthens. */
  ghost predicate Grown(before: seq<Range>, after: seq<Range>) {
    && |before| <= |after|
    && (forall k :: 0 <= k < |before| ==> after[k].start == before[k].start && before[k].end <= after[k].end)
  }

  lemma GrownStep(spans: seq<Range>, r: Range)
    ensures Grown(spans, MergeStep(spans, r))
  {
  }

  lemma {:induction false} MergeGrows(ranges: seq<Range>, m: nat, n: nat)
    requires m <= n <= |ranges|
    ensures Grown(MergeTo(ranges, m), MergeTo(ranges, n))
  {
    if m < n {
      MergeGrows(ranges, m, n - 1);
      GrownStep(MergeTo(ranges, n - 1), ranges[n - 1]);
    }
  }

  lemma SpanIndexStep(ranges: seq<Range>, i: nat)
    requires i < |ranges|
    ensures i == 0 ==> SpanIndex(ranges, i) == 0
    ensures i > 0 ==> SpanIndex(ranges, i - 1) <= SpanIndex(ranges, i) <= SpanIndex(ranges, i - 1) + 1
  {
    if i == 0 {
      assert MergeTo(ranges, 1) == MergeStep(MergeTo(ranges, 0), ranges[0]);
    }
  }

  lemma MergedLast(spans: seq<Range>, r: Range)
    requires spans == [] || spans[|spans| - 1].start <= spans[|spans| - 1].end <= r.start
    ensures MergeStep(spans, r)[|MergeStep(spans, r)| - 1].Contains(r)
  {
  }

  lemma SpanIndexHolds(ranges: seq<Range>, i: nat)
    requires Apart(ranges) && i < |ranges|
    ensures SpanIndex(ranges, i) < |Merge(ranges)| && Merge(ranges)[SpanIndex(ranges, i)].Contains(ranges[i])
  {
    SpanIndexThen(ranges, i);
    MergeGrows(ranges, i + 1, |ranges|);
    GrownContains(MergeTo(ranges, i + 1), Merge(ranges), SpanIndex(ranges, i), ranges[i]);
  }

  lemma SpanIndexThen(ranges: seq<Range>, i: nat)
    requires Apart(ranges) && i < |ranges|
    ensures MergeTo(ranges, i + 1)[SpanIndex(ranges, i)].Contains(ranges[i])
  {
    var spans := MergeTo(ranges, i);
    if i > 0 {
      MergeApart(ranges, i);
      assert Ends(ranges, i - 1, i);
      assert spans[|spans| - 1].start < spans[|spans| - 1].end;
    }
    MergedLast(spans, ranges[i]);
  }

  lemma GrownContains(before: seq<Range>, after: seq<Range>, k: nat, r: Range)
    requires Grown(before, after) && k < |before| && before[k].Contains(r)
    ensures k < |after| && after[k].Contains(r)
  {
  }

  lemma PlannedIsCovered(ranges: seq<Range>, spans: seq<Range>, a: nat)
    requires Planned(a, ranges) && AllCovered(ranges, spans)
    ensures Planned(a, spans)
  {
    var i :| 0 <= i < |ranges| && ranges[i].Has(a);
    assert Covered(ranges[i], spans);
    var k :| 0 <= k < |spans| && spans[k].Contains(ranges[i]);
    assert spans[k].Has(a);
  }

  lemma CoveredIsPlanned(ranges: seq<Range>, spans: seq<Range>, a: nat)
    requires Planned(a, spans) && AllOk(spans, ranges)
    ensures Planned(a, ranges)
  {
    var k :| 0 <= k < |spans| && spans[k].Has(a);
    assert SpanOk(spans[k], ranges);
  }

  lemma ApartUnique(spans: seq<Range>, a: nat)
    requires Apart(spans)
    ensures forall i, j :: 0 <= i < |spans| && 0 <= j < |spans| && spans[i].Has(a) && spans[j].Has(a) ==> i == j
  {
    forall i, j | 0 <= i < j < |spans| ensures !(spans[i].Has(a) && spans[j].Has(a)) {
      assert Ends(spans, i, j);
    }
  }

  lemma ApartByStart(ranges: seq<Range>)
    requires Apart(ranges)
    ensures Ordered(ranges) && ByStart(ranges)
  {
    forall i, j | 0 <= i < j < |ranges| ensures NotAfter(ranges, i, j) {
      assert Ends(ranges, i, j);
    }
  }

  /** The spans hold exactly the planned bytes. */
  lemma PlanExact(ranges: seq<Range>, a: nat)
    requires Ordered(ranges) && ByStart(ranges)
    ensures Planned(a, ranges) <==> Planned(a, Merge(ranges))
  {
    MergePlan(ranges, |ranges|);
    assert ranges[..|ranges|] == ranges;
    if Planned(a, ranges) {
      PlannedIsCovered(ranges, Merge(ranges), a);
    } else if Planned(a, Merge(ranges)) {
      CoveredIsPlanned(ranges, Merge(ranges), a);
    }
  }

  /** For disjoint chunks the spans partition exactly the planned bytes. */
  lemma SpansPartition(ranges: seq<Range>, a: nat)
    requires Apart(ranges)
    ensures Planned(a, ranges) <==> Planned(a, Merge(ranges))
    ensures var spans := Merge(ranges);
      forall i, j :: 0 <= i < |spans| && 0 <= j < |spans| && spans[i].Has(a) && spans[j].Has(a) ==> i == j
  {
    MergeApart(ranges, |ranges|);
    ApartUnique(Merge(ranges), a);
    ApartByStart(ranges);
    PlanExact(ranges, a);
  }

  // ---- When spans overlap ----

  /** The range starts inside the span being built but ends past its budget, and so starts a span of its own. */
  predicate Breaks(spans: seq<Range>, r: Range) {
    && spans != [] && r.start < spans[|spans| - 1].end
    && r.end > spans[|spans| - 1].start + MAX_SPAN_BYTES
  }

  predicate Disjoint(spans: seq<Range>) {
    forall i, j :: 0 <= i < j < |spans| ==> Ends(spans, i, j)
  }

  lemma DisjointStep(spans: seq<Range>, r: Range)
    requires Ordered(spans) && Disjoint(spans) && !Breaks(spans, r)
    ensures Disjoint(MergeStep(spans, r))
  {
    var next := MergeStep(spans, r);
    forall i, j | 0 <= i < j < |next| ensures Ends(next, i, j) {
      assert i < |spans| && next[i].end == spans[i].end;
      assert i < |spans| - 1 ==> Ends(spans, i, |spans| - 1);
      assert j < |spans| ==> Ends(spans, i, j) && next[j].start == spans[j].start;
      assert spans[|spans| - 1].Ordered();
    }
  }

  lemma OrderedStep(spans: seq<Range>, r: Range)
    requires Ordered(spans) && r.Ordered()
    ensures Ordered(MergeStep(spans, r))
  {
  }

  /** Range `n` breaks out of the span that the ranges before it have built. */
  predicate BreaksAt(ranges: seq<Range>, n: nat)
    requires n < |ranges|
  {
    Breaks(MergeTo(ranges, n), ranges[n])
  }

  lemma {:induction false} UnbrokenDisjoint(ranges: seq<Range>, n: nat)
    requires Ordered(ranges) && n <= |ranges| && forall m :: 0 <= m < n ==> !BreaksAt(ranges, m)
    ensures Ordered(MergeTo(ranges, n)) && Disjoint(MergeTo(ranges, n))
  {
    if n > 0 {
      UnbrokenDisjoint(ranges, n - 1);
      assert !BreaksAt(ranges, n - 1) && ranges[n - 1].Ordered();
      OrderedStep(MergeTo(ranges, n - 1), ranges[n - 1]);
      DisjointStep(MergeTo(ranges, n - 1), ranges[n - 1]);
    }
  }

  lemma BrokenOverlaps(ranges: seq<Range>, n: nat)
    requires n < |ranges| && BreaksAt(ranges, n)
    ensures !Disjoint(Merge(ranges))
  {
    var k, spans := |MergeTo(ranges, n)| - 1, Merge(ranges);
    MergeGrows(ranges, n + 1, |ranges|);
    var built := MergeTo(ranges, n) + [ranges[n]];
    assert MergeTo(ranges, n + 1) == built && built[k] == MergeTo(ranges, n)[k] && built[k + 1] == ranges[n];
    assert spans[k].end >= built[k].end && spans[k + 1].start == built[k + 1].start;
    assert !Ends(spans, k, k + 1);
  }

  /**
   The field comment says spans do not overlap by construction. They do exactly when some chunk
   starts before the end of the span being built and ends past that span's budget.
   */
  lemma DisjointIffUnbroken(ranges: seq<Range>)
    requires Ordered(ranges)
    ensures Disjoint(Merge(ranges)) <==> forall n :: 0 <= n < |ranges| ==> !BreaksAt(ranges, n)
  {
    if n :| 0 <= n < |ranges| && BreaksAt(ranges, n) {
      BrokenOverlaps(ranges, n);
    } else {
      UnbrokenDisjoint(ranges, |ranges|);
    }
  }

  /** Three chunks for which the plan has two overlapping spans. */
  lemma OverlappingSpans()
    ensures var ranges := [Range(0, 200000), Range(100000, 400000), Range(300000, 350000)];
      && ByStart(ranges) && Merge(ranges) == [Range(0, 200000), Range(100000, 400000)]
      && |Merge(ranges)| < |ranges| && !Disjoint(Merge(ranges))
  {
    var ranges := [Range(0, 200000), Range(100000, 400000), Range(300000, 350000)];
    assert MergeTo(ranges, 1) == MergeStep(MergeTo(ranges, 0), ranges[0]);
    assert MergeTo(ranges, 2) == MergeStep(MergeTo(ranges, 1), ranges[1]);
    assert !Ends(Merge(ranges), 0, 1);
  }

  // ---- When a plan is worth having ----

  /** Two neighbours that share a read if nothing before them does. */
  predicate Touches(ranges: seq<Range>, i: nat)
    requires 0 < i < |ranges|
  {
    ranges[i].start <= ranges[i - 1].end && ranges[i].end <= ranges[i - 1].start + MAX_SPAN_BYTES
  }

  predicate SomeTouch(ranges: seq<Range>) {
    exists i :: 0 < i < |ranges| && Touches(ranges, i)
  }

  lemma {:induction false} NothingMerges(ranges: seq<Range>, n: nat)
    requires n <= |ranges| && forall i :: 0 < i < n ==> !Touches(ranges, i)
    ensures MergeTo(ranges, n) == ranges[..n]
  {
    if n > 0 {
      NothingMerges(ranges, n - 1);
      assert n > 1 ==> !Touches(ranges, n - 1);
      assert ranges[..n] == ranges[..n - 1] + [ranges[n - 1]];
    }
  }

  lemma {:induction false} StaysMerged(ranges: seq<Range>, m: nat, n: nat)
    requires m <= n <= |ranges| && |MergeTo(ranges, m)| < m
    ensures |MergeTo(ranges, n)| < n
  {
    if m < n {
      StaysMerged(ranges, m, n - 1);
    }
  }

  /** Something merges exactly when two neighbours touch. */
  lemma MergesSome(ranges: seq<Range>)
    ensures |Merge(ranges)| < |ranges| <==> SomeTouch(ranges)
    ensures |Merge(ranges)| <= |ranges|
  {
    if i :| 0 < i < |ranges| && Touches(ranges, i) {
      var f := FirstTouch(ranges, i);
      NothingMerges(ranges, f);
      StaysMerged(ranges, f + 1, |ranges|);
    } else {
      NothingMerges(ranges, |ranges|);
      assert ranges[..|ranges|] == ranges;
    }
  }

  lemma {:induction false} FirstTouch(ranges: seq<Range>, i: nat) returns (f: nat)
    requires 0 < i < |ranges| && Touches(ranges, i)
    ensures 0 < f <= i && Touches(ranges, f) && forall k :: 0 < k < f ==> !Touches(ranges, k)
    decreases i
  {
    if k :| 0 < k < i && Touches(ranges, k) {
      f := FirstTouch(ranges, k);
    } else {
      f := i;
    }
  }
}
