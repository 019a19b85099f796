/** Serving chunks out of coalesced reads (`ChunkSpanReader` in src/chunk_span.rs). */
module SpanReader {
  import opened Basics
  import opened Sorting
  import opened Spans

  function Start(r: Range): nat { r.start }

  /** The ranges by ascending start, as the plan is made over them. */
  function SortByStart(ranges: seq<Range>): seq<Range> { SortBy(ranges, Start) }

  lemma SortedRanges(ranges: seq<Range>)
    requires Ordered(ranges)
    ensures var sorted := SortByStart(ranges);
      ByStart(sorted) && Ordered(sorted) && |sorted| == |ranges| && multiset(sorted) == multiset(ranges)
  {
    var sorted := SortByStart(ranges);
    SortByOrders(ranges, Start);
    SameElements(sorted, ranges);
    forall i, j | 0 <= i < j < |sorted| ensures NotAfter(sorted, i, j) {
      assert InOrder(sorted, Start, i, j);
    }
    forall i | 0 <= i < |sorted| ensures sorted[i].Ordered() {
      assert sorted[i] in ranges;
    }
  }

  // ---- What is read from the source ----

  /** How many leading spans start at or before `address`. */
  function StartedBy(spans: seq<Range>, address: nat): (n: nat)
    ensures n <= |spans|
    ensures forall i :: 0 <= i < n ==> spans[i].start <= address
    ensures n < |spans| ==> spans[n].start > address
  {
    if spans == [] || spans[0].start > address then 0 else 1 + StartedBy(spans[1..], address)
  }

  lemma {:induction false} StartedIs(spans: seq<Range>, address: nat, n: nat)
    requires n <= |spans| && (forall i :: 0 <= i < n ==> spans[i].start <= address)
    requires forall i :: n <= i < |spans| ==> spans[i].start > address
    ensures StartedBy(spans, address) == n
  {
    if n > 0 {
      StartedIs(spans[1..], address, n - 1);
    }
  }

  /** The span a request is served from: the last to start by then, if it contains the request. */
  function Locate(spans: seq<Range>, required: Range): Option<Range> {
    var n := StartedBy(spans, required.start);
    if n > 0 && spans[n - 1].Contains(required) then Some(spans[n - 1]) else None
  }

  /** The span that is held, and every range read from the source so far, in order. */
  datatype Fetches = Fetches(held: Option<Range>, log: seq<Range>)

  /** A request is served from the held span, or else from its own span, or else is read alone. */
  function Request(spans: seq<Range>, f: Fetches, required: Range): Fetches {
    if f.held.Some? && f.held.value.Contains(required) then f
    else
      match Locate(spans, required)
      case None => f.(log := f.log + [required])
      case Some(span) => Fetches(Some(span), f.log + [span])
  }

  class Reader {
    const spans: seq<Range>
    var held: Option<Range>
    var buf: seq<byte>
    /** Every range fetched from the source, in order. */
    ghost var fetched: seq<Range>

    ghost predicate Valid(source: seq<byte>)
      reads this
    {
      && Ordered(spans) && ByStart(spans)
      && (held.Some? ==>
            held.value in spans && held.value.end <= |source| && buf == source[held.value.start..held.value.end])
    }

    constructor (spans: seq<Range>)
      requires Ordered(spans) && ByStart(spans)
      ensures this.spans == spans && held == None && fetched == []
    {
      this.spans := spans;
      held, buf, fetched := None, [], [];
    }

    ghost function Fetched(): Fetches
      reads this
    {
      Fetches(held, fetched)
    }

    /** The spans are disjoint and the one at `k` contains the nonempty range `required`. */
    predicate Holds(k: nat, required: Range) {
      Apart(spans) && k < |spans| && spans[k].Contains(required) && required.start < required.end
    }

    /** `span_containing`: a binary search by start address. */
    method SpanContaining(required: Range) returns (r: Option<Range>)
      requires ByStart(spans)
      ensures r.Some? ==> r.value in spans && r.value.Contains(required)
      ensures forall k: nat :: Holds(k, required) ==> r == Some(spans[k])
      ensures r == Locate(spans, required)
    {
      var lo, hi := 0, |spans|;
      while lo < hi
        invariant 0 <= lo <= hi <= |spans|
        invariant forall i :: 0 <= i < lo ==> spans[i].start <= required.start
        invariant forall i :: hi <= i < |spans| ==> spans[i].start > required.start
      {
        var mid := (lo + hi) / 2;
        if spans[mid].start <= required.start {
          forall i | 0 <= i < mid ensures spans[i].start <= required.start {
            assert NotAfter(spans, i, mid);
          }
          lo := mid + 1;
        } else {
          forall i | mid < i < |spans| ensures spans[i].start > required.start {
            assert NotAfter(spans, mid, i);
          }
          hi := mid;
        }
      }
      StartedIs(spans, required.start, lo);
      if lo == 0 {
        return None;
      }
      forall k: nat | Holds(k, required) ensures k == lo - 1 {
        OnlySpan(required, k, lo - 1);
      }
      r := if spans[lo - 1].Contains(required) then Some(spans[lo - 1]) else None;
    }

    /**
     `chunk_bytes`. In any order of requests a success returns exactly the source's bytes, and a
     request is served from the held span whenever that contains it.
     */
    method ChunkBytes(source: seq<byte>, address: nat, len: nat) returns (r: Result<seq<byte>>)
      requires Valid(source) && |source| <= USIZE_MAX
      modifies this
      ensures Valid(source)
      ensures r.Ok? ==> address + len <= |source| && r.value == source[address..address + len]
      ensures forall k: nat :: Holds(k, Range(address, address + len)) && spans[k].end <= |source| ==>
        && r.Ok? && held == Some(spans[k])
        && fetched == if old(held) == Some(spans[k]) then old(fetched) else old(fetched) + [spans[k]]
      ensures address + len <= |source| && (forall s :: s in spans ==> s.end <= |source|) ==> r.Ok?
      ensures r.Ok? ==> Fetched() == Request(spans, old(Fetched()), Range(address, address + len))
    {
      if address + len > U64_MAX {
        return Err(OffsetOverflow);
      }
      var required := Range(address, address + len);
      if !(held.Some? && held.value.Contains(required)) {
        var span := SpanContaining(required);
        if span.None? {
          if address + len > |source| {
            return Err(SourceEnd);
          }
          fetched := fetched + [required];
          return Ok(source[address..address + len]);
        }
        held := None;
        if span.value.end > |source| {
          return Err(SourceEnd);
        }
        buf := source[span.value.start..span.value.end];
        held := Some(span.value);
        fetched := fetched + [span.value];
      } else {
        ghost var i :| 0 <= i < |spans| && spans[i] == held.value;
        forall k: nat | Holds(k, required) ensures k == i {
          OnlySpan(required, k, i);
          OnlySpan(required, i, k);
        }
      }
      var lo := address - held.value.start;
      SliceOfSlice(source, held.value.start, held.value.end, lo, lo + len);
      r := Ok(buf[lo..lo + len]);
    }

    /** Of disjoint spans, no later one starts at or before a nonempty range that an earlier one contains. */
    lemma OnlySpan(required: Range, k: nat, j: nat)
      requires k < |spans| && j < |spans|
      ensures Holds(k, required) && k < j ==> spans[j].start > required.start
    {
      assert Apart(spans) && k < j ==> Ends(spans, k, j);
    }
  }

  /** The byte ranges of chunks given by address and size. */
  function ChunkRanges(chunks: seq<(nat, nat)>): (ranges: seq<Range>)
    ensures |ranges| == |chunks| && Ordered(ranges)
  {
    seq(|chunks|, i requires 0 <= i < |chunks| => Range(chunks[i].0, chunks[i].0 + chunks[i].1))
  }

  predicate EndsFit(chunks: seq<(nat, nat)>) {
    forall i :: 0 <= i < |chunks| ==> chunks[i].0 + chunks[i].1 <= U64_MAX
  }

  /** The ranges of the chunks, unless an end exceeds the address range. */
  method RangesOf(chunks: seq<(nat, nat)>) returns (r: Option<seq<Range>>)
    ensures r.Some? <==> EndsFit(chunks)
    ensures r.Some? ==> r.value == ChunkRanges(chunks)
  {
    var ranges := [];
    for i := 0 to |chunks|
      invariant |ranges| == i
      invariant forall j :: 0 <= j < i ==> chunks[j].0 + chunks[j].1 <= U64_MAX
      invariant forall j :: 0 <= j < i ==> ranges[j] == Range(chunks[j].0, chunks[j].0 + chunks[j].1)
    {
      if chunks[i].0 + chunks[i].1 > U64_MAX {
        return None;
      }
      ranges := ranges + [Range(chunks[i].0, chunks[i].0 + chunks[i].1)];
    }
    r := Some(ranges);
  }

  /** The merge loop of `ChunkSpanReader::new`. */
  method MergeRanges(ranges: seq<Range>) returns (spans: seq<Range>)
    ensures spans == Merge(ranges) && |spans| <= |ranges|
  {
    spans := [];
    for n := 0 to |ranges|
      invariant spans == MergeTo(ranges, n) && |spans| <= n
    {
      var range := ranges[n];
      if spans != [] && range.start <= spans[|spans| - 1].end && range.end <= spans[|spans| - 1].start + MAX_SPAN_BYTES {
        var last := spans[|spans| - 1];
        spans := spans[|spans| - 1 := Range(last.start, Max(last.end, range.end))];
      } else {
        spans := spans + [range];
      }
    }
  }

  /** The ranges a plan for `chunks` is merged from. */
  function PlanRanges(chunks: seq<(nat, nat)>): seq<Range> { SortByStart(ChunkRanges(chunks)) }

  /**
   `ChunkSpanReader::new`: there is a plan exactly when every end is an address and two neighbours
   by start can share a read.
   */
  method Plan(chunks: seq<(nat, nat)>) returns (r: Option<Reader>)
    ensures r.Some? <==> EndsFit(chunks) && SomeTouch(PlanRanges(chunks))
    ensures r.Some? ==> fresh(r.value) && r.value.held == None && r.value.fetched == []
    ensures r.Some? ==> r.value.spans == Merge(PlanRanges(chunks)) && PlanOk(r.value.spans, PlanRanges(chunks))
    ensures r.Some? ==> |r.value.spans| < |chunks|
  {
    var ranges := RangesOf(chunks);
    if ranges.None? {
      return None;
    }
    SortedRanges(ranges.value);
    if |ranges.value| < 2 {
      return None;
    }
    var sorted := SortByStart(ranges.value);
    var spans := MergeRanges(sorted);
    MergesSome(sorted);
    if |spans| == |sorted| {
      return None;
    }
    PlanHolds(sorted);
    var reader := new Reader(spans);
    r := Some(reader);
  }

  lemma PlanHolds(ranges: seq<Range>)
    requires Ordered(ranges) && ByStart(ranges)
    ensures PlanOk(Merge(ranges), ranges) && Ordered(Merge(ranges)) && ByStart(Merge(ranges))
  {
    MergePlan(ranges, |ranges|);
    assert ranges[..|ranges|] == ranges;
    AllOrdered(Merge(ranges), ranges);
  }

  lemma AllOrdered(spans: seq<Range>, ranges: seq<Range>)
    requires AllOk(spans, ranges)
    ensures Ordered(spans)
  {
    forall i | 0 <= i < |spans| ensures spans[i].Ordered() {
      assert SpanOk(spans[i], ranges);
    }
  }

  /** `at[i]` is the span of chunk `i`: the spans are used in order, and all of them. */
  ghost predicate Assigned(spans: seq<Range>, chunks: seq<Range>, at: seq<nat>) {
    && |at| == |chunks|
    && (forall i :: 0 <= i < |at| ==> at[i] < |spans| && spans[at[i]].Contains(chunks[i]))
    && (forall i :: 0 < i < |at| ==> Follows(at, i))
    && (if |at| == 0 then spans == [] else at[0] == 0 && at[|at| - 1] == |spans| - 1)
  }

  predicate Follows(at: seq<nat>, i: nat)
    requires 0 < i < |at|
  {
    at[i - 1] <= at[i] <= at[i - 1] + 1
  }

  lemma Assign(chunks: seq<Range>) returns (at: seq<nat>)
    requires Apart(chunks)
    ensures Assigned(Merge(chunks), chunks, at)
  {
    at := seq(|chunks|, i requires 0 <= i < |chunks| => SpanIndex(chunks, i));
    forall i | 0 <= i < |at| ensures at[i] < |Merge(chunks)| && Merge(chunks)[at[i]].Contains(chunks[i]) {
      SpanIndexHolds(chunks, i);
    }
    forall i | 0 < i < |at| ensures Follows(at, i) {
      SpanIndexStep(chunks, i);
    }
    if chunks != [] {
      SpanIndexStep(chunks, 0);
    }
  }

  /** After `i` chunks the span of the last one is held, and the spans up to it have been fetched. */
  ghost predicate Served(reader: Reader, source: seq<byte>, at: seq<nat>, i: nat)
    requires i <= |at|
    reads reader
  {
    && reader.Valid(source)
    && (i == 0 ==> reader.held == None && reader.fetched == [])
    && (i > 0 ==> at[i - 1] < |reader.spans| && reader.held == Some(reader.spans[at[i - 1]])
                  && reader.fetched == reader.spans[..at[i - 1] + 1])
  }

  method FetchNext(reader: Reader, source: seq<byte>, chunk: Range, ghost at: seq<nat>, ghost i: nat)
    returns (bytes: seq<byte>)
    requires i < |at| && Served(reader, source, at, i) && |source| <= USIZE_MAX
    requires at[i] < |reader.spans| && reader.Holds(at[i], chunk) && reader.spans[at[i]].end <= |source|
    requires if i == 0 then at[0] == 0 else Follows(at, i)
    modifies reader
    ensures Served(reader, source, at, i + 1)
    ensures chunk.start <= chunk.end <= |source| && bytes == source[chunk.start..chunk.end]
  {
    ghost var k := at[i];
    ghost var span := reader.spans[k];
    assert i > 0 && at[i - 1] != k ==> Ends(reader.spans, k - 1, k);
    assert reader.held == Some(span) <==> i > 0 && at[i - 1] == k;
    var r := reader.ChunkBytes(source, chunk.start, chunk.end - chunk.start);
    assert reader.Holds(k, Range(chunk.start, chunk.start + (chunk.end - chunk.start)));
    bytes := r.value;
    assert reader.spans[..k] + [span] == reader.spans[..k + 1];
  }

  /**
   Requesting disjoint nonempty chunks once each in address order fetches each span once and
   nothing else, so by `SpansPartition` every planned byte once.
   */
  method FetchInOrder(reader: Reader, source: seq<byte>, chunks: seq<Range>) returns (bytes: seq<seq<byte>>)
    requires Apart(chunks) && reader.spans == Merge(chunks) && reader.Valid(source) && |source| <= USIZE_MAX
    requires reader.held == None && reader.fetched == []
    requires forall s :: s in reader.spans ==> s.end <= |source|
    modifies reader
    ensures reader.fetched == reader.spans
    ensures |bytes| == |chunks| && forall i :: 0 <= i < |chunks| ==>
      chunks[i].start <= chunks[i].end <= |source| && bytes[i] == source[chunks[i].start..chunks[i].end]
  {
    MergeApart(chunks, |chunks|);
    ghost var at := Assign(chunks);
    bytes := FetchAssigned(reader, source, chunks, at);
  }

  method FetchAssigned(reader: Reader, source: seq<byte>, chunks: seq<Range>, ghost at: seq<nat>)
    returns (bytes: seq<seq<byte>>)
    requires Apart(chunks) && Apart(reader.spans) && Assigned(reader.spans, chunks, at)
    requires Served(reader, source, at, 0) && |source| <= USIZE_MAX
    requires forall s :: s in reader.spans ==> s.end <= |source|
    modifies reader
    ensures reader.fetched == reader.spans
    ensures |bytes| == |chunks| && forall i :: 0 <= i < |chunks| ==>
      chunks[i].start <= chunks[i].end <= |source| && bytes[i] == source[chunks[i].start..chunks[i].end]
  {
    bytes := [];
    for i := 0 to |chunks|
      invariant Served(reader, source, at, i) && |bytes| == i
      invariant forall j :: 0 <= j < i ==>
        chunks[j].start <= chunks[j].end <= |source| && bytes[j] == source[chunks[j].start..chunks[j].end]
    {
      assert i > 0 ==> Follows(at, i);
      var next := FetchNext(reader, source, chunks[i], at, i);
      bytes := bytes + [next];
    }
    assert reader.spans[..|reader.spans|] == reader.spans;
  }
}
