/**
 The readers of whole chunked datasets (src/chunked_read.rs): directly, through the chunk cache, and
 through the cache with coalesced reads.
 */
module Reader {
  import opened Basics
  import opened RowMajor
  import opened DenseGrid
  import opened ParsedIndex
  import opened Assembly
  import opened WholeAssembly
  import opened ChunkCache
  import opened CacheRuns
  import opened CacheObject
  import opened Transparency
  import Spans
  import SpanReader

  /** The filter pipeline of a dataset, applied to a chunk's stored bytes; any failure is an error. */
  type Pipeline = (ChunkInfo, seq<byte>) -> Result<seq<byte>>

  /** `read_exact_at`. */
  function Fetch(source: seq<byte>, address: nat, length: nat): Result<seq<byte>> {
    if address + length <= |source| then Ok(source[address..address + length]) else Err(SourceEnd)
  }

  /** `decode_chunk`: the pipeline, then the check for the full logical size. */
  function Decode(pipeline: Pipeline, info: ChunkInfo, stored: seq<byte>, chunkBytes: nat): Result<seq<byte>> {
    match pipeline(info, stored)
    case Err(e) => Err(e)
    case Ok(bytes) => if |bytes| == chunkBytes then Ok(bytes) else Err(SizeMismatch)
  }

  /** The stored bytes of a chunk lie in the source, and the pipeline turns them into a full-size chunk. */
  predicate Intact(source: seq<byte>, pipeline: Pipeline, info: ChunkInfo, chunkBytes: nat) {
    && info.address + info.stored <= |source|
    && var decoded := pipeline(info, source[info.address..info.address + info.stored]);
       decoded.Ok? && |decoded.value| == chunkBytes
  }

  /** `read_decoded_chunk`. */
  function Load(source: seq<byte>, pipeline: Pipeline, info: ChunkInfo, chunkBytes: nat): (r: Result<seq<byte>>)
    ensures r.Ok? <==> Intact(source, pipeline, info, chunkBytes)
    ensures r.Ok? ==> r == pipeline(info, source[info.address..info.address + info.stored])
  {
    match Fetch(source, info.address, info.stored)
    case Err(e) => Err(e)
    case Ok(stored) => Decode(pipeline, info, stored, chunkBytes)
  }

  function Decoded(source: seq<byte>, pipeline: Pipeline, info: ChunkInfo, chunkBytes: nat): Option<seq<byte>> {
    var r := Load(source, pipeline, info, chunkBytes);
    if r.Ok? then Some(r.value) else None
  }

  /** What every chunk of an index decodes to. */
  function ContentsOf(source: seq<byte>, pipeline: Pipeline, index: Index, chunkBytes: nat): (t: Truth)
    requires HaveRank(index.infos, |index.extent|)
    ensures |t| == |index.infos|
  {
    seq(|index.infos|, j requires 0 <= j < |index.infos| =>
      (index.infos[j].offsets[..|index.extent|], Decoded(source, pipeline, index.infos[j], chunkBytes)))
  }

  predicate AllDecode(truth: Truth) {
    forall j :: 0 <= j < |truth| ==> truth[j].1.Some?
  }

  function Payloads(truth: Truth): (p: seq<seq<byte>>)
    requires AllDecode(truth)
    ensures |p| == |truth|
  {
    seq(|truth|, j requires 0 <= j < |truth| => truth[j].1.value)
  }

  /** The first `n` chunks have full-size bytes, and sit at addressable offsets. */
  predicate ReadableTo(truth: Truth, infos: seq<ChunkInfo>, rank: nat, chunkBytes: nat, n: nat)
    requires |truth| == |infos| && HaveRank(infos, rank) && n <= |infos|
  {
    forall j :: 0 <= j < n ==>
      && truth[j].1.Some? && |truth[j].1.value| == chunkBytes
      && forall i :: 0 <= i < rank ==> infos[j].offsets[i] <= USIZE_MAX
  }

  /** A whole read can succeed. */
  predicate Readable(index: Index, size: nat, fill: Option<seq<byte>>, truth: Truth)
    requires |truth| == |index.infos| && HaveRank(index.infos, |index.extent|)
  {
    && Addressable(index.chunk, index.extent, size) && (index.coverage.Some? || fill.Some?)
    && ReadableTo(truth, index.infos, |index.extent|, Mul(Product(index.chunk), size), |index.infos|)
  }

  /** What a whole read returns. */
  function Dataset(index: Index, size: nat, fill: Option<seq<byte>>, truth: Truth): seq<byte>
    requires |truth| == |index.infos| && HaveRank(index.infos, |index.extent|) && AllDecode(truth) && size > 0
  {
    WholeBytes(Coords(index.infos, |index.extent|), Payloads(truth), index.chunk, index.extent, size, Pattern(fill))
  }

  // ---- Placing what a chunk decodes to ----

  /** The chunks before `n` have been placed as they decode. */
  ghost predicate PlacedTo(whole: Whole, truth: Truth, n: nat)
    reads whole
  {
    && |truth| == |whole.index.infos| && HaveRank(whole.index.infos, |whole.index.extent|)
    && |whole.placed| == n <= |truth|
    && ReadableTo(truth, whole.index.infos, |whole.index.extent|, whole.chunkBytes, n)
    && forall j :: 0 <= j < n ==> truth[j].1 == Some(whole.placed[j])
  }

  lemma PlacedAll(whole: Whole, truth: Truth)
    requires PlacedTo(whole, truth, |truth|)
    ensures AllDecode(truth) && whole.placed == Payloads(truth)
  {
  }

  lemma PlacedOneMore(before: seq<seq<byte>>, bytes: seq<byte>, truth: Truth)
    requires |before| < |truth| && forall j :: 0 <= j < |before| ==> truth[j].1 == Some(before[j])
    requires truth[|before|].1 == Some(bytes)
    ensures forall j :: 0 <= j <= |before| ==> truth[j].1 == Some((before + [bytes])[j])
  {
  }

  /** Placing chunk `n` succeeds exactly when its bytes are full-size and its offsets addressable. */
  method PlaceDecoded(whole: Whole, bytes: seq<byte>, ghost truth: Truth, ghost n: nat) returns (r: Result<()>)
    requires whole.Valid() && PlacedTo(whole, truth, n) && n < |truth| && truth[n].1 == Some(bytes)
    modifies whole, whole.output, whole.coord
    ensures whole.Valid()
    ensures r.Ok? ==> PlacedTo(whole, truth, n + 1)
    ensures r.Err? ==> !ReadableTo(truth, whole.index.infos, |whole.index.extent|, whole.chunkBytes, |truth|)
  {
    assert whole.remaining[0] == whole.index.infos[n];
    PlacedOneMore(whole.placed, bytes, truth);
    r := whole.Place(bytes);
  }

  /** `finish`, once every chunk has been placed. */
  method FinishWhole(whole: Whole, ghost truth: Truth, ghost fill: Option<seq<byte>>) returns (r: Result<seq<byte>>)
    requires whole.Valid() && PlacedTo(whole, truth, |truth|) && whole.fill == Pattern(fill)
    ensures AllDecode(truth) && r == Ok(Dataset(whole.index, whole.size, fill, truth))
  {
    PlacedAll(whole, truth);
    r := whole.Finish();
  }

  // ---- Without a cache ----

  /** The outcome of a read past its geometry checks. */
  ghost predicate Outcome(r: Result<seq<byte>>, index: Index, size: nat, fill: Option<seq<byte>>, truth: Truth)
    requires |truth| == |index.infos| && HaveRank(index.infos, |index.extent|) && size > 0
  {
    if Readable(index, size, fill, truth) then r == Ok(Dataset(index, size, fill, truth)) else r.Err?
  }

  /** What a whole reader returns when it is given `truth` for the chunks; `None` is an error. */
  ghost function Answer(index: Index, size: nat, fill: Option<seq<byte>>, truth: Truth): Option<seq<byte>>
    requires |truth| == |index.infos| && HaveRank(index.infos, |index.extent|) && size > 0
  {
    if |index.chunk| != |index.extent| || !BoundedChunk(index.chunk, size) then None
    else if 0 in index.extent then Some([])
    else if Readable(index, size, fill, truth) then Some(Dataset(index, size, fill, truth))
    else None
  }

  /** The outcome every whole reader must have. */
  ghost predicate WholeRead(r: Result<seq<byte>>, index: Index, size: nat, fill: Option<seq<byte>>, truth: Truth)
    requires |truth| == |index.infos| && HaveRank(index.infos, |index.extent|) && size > 0
  {
    match Answer(index, size, fill, truth)
    case None => r.Err?
    case Some(bytes) => r == Ok(bytes)
  }

  /** The geometry checks both readers begin with, and the answer for a dataset without elements. */
  method CheckGeometry(index: Index, size: nat) returns (r: Result<bool>)
    requires 0 < size <= USIZE_MAX
    ensures r.Ok? <==> |index.chunk| == |index.extent| && BoundedChunk(index.chunk, size)
    ensures r.Ok? ==> (r.value <==> 0 in index.extent)
  {
    if |index.chunk| != |index.extent| {
      return Err(ChunkedRead);
    }
    var bounded := BoundedChunkLen(index.chunk, size);
    if bounded.Err? {
      return Err(bounded.error);
    }
    r := Ok(0 in index.extent);
  }

  /** One chunk of a whole read without a cache. */
  method VisitDirect(source: seq<byte>, pipeline: Pipeline, whole: Whole, n: nat, ghost truth: Truth)
    returns (r: Result<()>)
    requires whole.Valid() && PlacedTo(whole, truth, n) && n < |truth|
    requires truth == ContentsOf(source, pipeline, whole.index, whole.chunkBytes)
    modifies whole, whole.output, whole.coord
    ensures whole.Valid()
    ensures r.Ok? ==> PlacedTo(whole, truth, n + 1)
    ensures r.Err? ==> !ReadableTo(truth, whole.index.infos, |whole.index.extent|, whole.chunkBytes, |truth|)
  {
    var loaded := Load(source, pipeline, whole.index.infos[n], whole.chunkBytes);
    assert truth[n].1 == if loaded.Ok? then Some(loaded.value) else None;
    if loaded.Err? {
      return Err(loaded.error);
    }
    r := PlaceDecoded(whole, loaded.value, truth, n);
  }

  /** `read_chunked_data_from_source`. */
  method ReadUncached(source: seq<byte>, pipeline: Pipeline, index: Index, size: nat, fill: Option<seq<byte>>)
    returns (r: Result<seq<byte>>)
    requires index.Valid() && 0 < size <= USIZE_MAX
    ensures WholeRead(r, index, size, fill, ContentsOf(source, pipeline, index, Mul(Product(index.chunk), size)))
  {
    var empty := CheckGeometry(index, size);
    if empty.Err? {
      return Err(empty.error);
    }
    if empty.value {
      return Ok([]);
    }
    ghost var truth := ContentsOf(source, pipeline, index, Mul(Product(index.chunk), size));
    var assembly := NewWhole(index, size, fill);
    if assembly.Err? {
      return Err(assembly.error);
    }
    var whole := assembly.value;
    for n := 0 to |index.infos|
      invariant whole.Valid() && PlacedTo(whole, truth, n)
    {
      var visited := VisitDirect(source, pipeline, whole, n, truth);
      if visited.Err? {
        return Err(visited.error);
      }
    }
    r := FinishWhole(whole, truth, fill);
  }

  // ---- Coalesced reads ----

  /** Every chunk's stored bytes lie within the source. */
  predicate AllStored(source: seq<byte>, infos: seq<ChunkInfo>) {
    forall j :: 0 <= j < |infos| ==> infos[j].address + infos[j].stored <= |source|
  }

  predicate EndBy(ranges: seq<Spans.Range>, limit: nat) {
    forall i :: 0 <= i < |ranges| ==> ranges[i].end <= limit
  }

  /** Spans end no later than the chunks they were merged from. */
  lemma {:induction false} MergeEnds(ranges: seq<Spans.Range>, n: nat, limit: nat)
    requires n <= |ranges| && EndBy(ranges, limit)
    ensures EndBy(Spans.MergeTo(ranges, n), limit)
  {
    if n > 0 {
      MergeEnds(ranges, n - 1, limit);
    }
  }

  lemma SortedEnds(sorted: seq<Spans.Range>, ranges: seq<Spans.Range>, limit: nat)
    requires multiset(sorted) == multiset(ranges) && EndBy(ranges, limit)
    ensures EndBy(sorted, limit)
  {
    forall i | 0 <= i < |sorted| ensures sorted[i].end <= limit {
      assert sorted[i] in multiset(ranges);
    }
  }

  /** The chunks that a cache at `s` does not hold, by address and size, in index order. */
  function Unheld(s: Cache, infos: seq<ChunkInfo>, rank: nat, n: nat): seq<(nat, nat)>
    requires HaveRank(infos, rank) && n <= |infos|
  {
    if n == 0 then []
    else
      Unheld(s, infos, rank, n - 1)
      + if Holds(s, infos[n - 1].offsets[..rank]) then [] else [(infos[n - 1].address, infos[n - 1].stored)]
  }

  /** The spans that a coalesced read of `wanted` goes by: none if nothing can share a read. */
  function SpansFor(wanted: seq<(nat, nat)>): seq<Spans.Range> {
    if SpanReader.EndsFit(wanted) && Spans.SomeTouch(SpanReader.PlanRanges(wanted))
    then Spans.Merge(SpanReader.PlanRanges(wanted)) else []
  }

  /** The spans of a reader, if there is one. */
  function SpansOf(spans: Option<SpanReader.Reader>): seq<Spans.Range> {
    if spans.Some? then spans.value.spans else []
  }

  lemma {:induction false} UnheldStored(source: seq<byte>, s: Cache, infos: seq<ChunkInfo>, rank: nat, n: nat)
    requires HaveRank(infos, rank) && n <= |infos| && AllStored(source, infos)
    ensures forall k :: 0 <= k < |Unheld(s, infos, rank, n)| ==>
      Unheld(s, infos, rank, n)[k].0 + Unheld(s, infos, rank, n)[k].1 <= |source|
  {
    if n > 0 {
      UnheldStored(source, s, infos, rank, n - 1);
    }
  }

  lemma PlanEnds(source: seq<byte>, s: Cache, infos: seq<ChunkInfo>, rank: nat)
    requires HaveRank(infos, rank) && AllStored(source, infos)
    ensures EndBy(Spans.Merge(SpanReader.PlanRanges(Unheld(s, infos, rank, |infos|))), |source|)
  {
    var wanted := Unheld(s, infos, rank, |infos|);
    var ranges, sorted := SpanReader.ChunkRanges(wanted), SpanReader.PlanRanges(wanted);
    UnheldStored(source, s, infos, rank, |infos|);
    SpanReader.SortedRanges(ranges);
    SortedEnds(sorted, ranges, |source|);
    MergeEnds(sorted, |sorted|, |source|);
  }

  /** `plan_chunk_spans`: coalesces the chunks that the cache does not hold. */
  method PlanSpans(source: seq<byte>, cache: CacheInner, infos: seq<ChunkInfo>, rank: nat)
    returns (r: Option<SpanReader.Reader>)
    requires HaveRank(infos, rank)
    ensures r.Some? ==> fresh(r.value) && r.value.Valid(source) && r.value.Fetched() == SpanReader.Fetches(None, [])
    ensures SpansOf(r) == SpansFor(Unheld(cache.State(), infos, rank, |infos|))
    ensures r.Some? && AllStored(source, infos) ==> EndBy(r.value.spans, |source|)
  {
    var held := cache.DecompressedCoords();
    var wanted: seq<(nat, nat)> := [];
    for i := 0 to |infos|
      invariant wanted == Unheld(cache.State(), infos, rank, i)
    {
      if infos[i].offsets[..rank] !in held {
        wanted := wanted + [(infos[i].address, infos[i].stored)];
      }
    }
    r := SpanReader.Plan(wanted);
    if r.Some? {
      SpanReader.SortedRanges(SpanReader.ChunkRanges(wanted));
      SpanReader.PlanHolds(SpanReader.PlanRanges(wanted));
      if AllStored(source, infos) {
        PlanEnds(source, cache.State(), infos, rank);
      }
    }
  }

  // ---- Through the cache ----

  function RangeOf(info: ChunkInfo): Spans.Range { Spans.Range(info.address, info.address + info.stored) }

  /** A cached chunk under the lock, or else its stored bytes, by span or on their own, decoded. */
  method Obtain(source: seq<byte>, pipeline: Pipeline, cache: CacheInner, pass: nat, info: ChunkInfo, coord: Coord,
                spans: Option<SpanReader.Reader>, chunkBytes: nat, ghost f: SpanReader.Fetches)
    returns (r: Result<seq<byte>>, hit: bool, ghost after: SpanReader.Fetches)
    requires |source| <= USIZE_MAX && cache.Valid() && pass <= cache.pass
    requires spans.Some? ==> spans.value.Valid(source) && spans.value.Fetched() == f
    requires spans.None? ==> f.held.None?
    modifies cache, if spans.Some? then {spans.value} else {}
    ensures cache.Valid() && cache.State() == Lookup(old(cache.State()), pass, coord).0
    ensures spans.Some? ==> spans.value.Valid(source) && (r.Ok? ==> spans.value.Fetched() == after)
    ensures spans.None? ==> after.held.None?
    ensures r.Ok? ==> after == if hit then f
                               else SpanReader.Request(SpansOf(spans), f, RangeOf(info))
    ensures hit <==> Lookup(old(cache.State()), pass, coord).1.Some?
    ensures hit ==> r == Ok(Lookup(old(cache.State()), pass, coord).1.value)
    ensures !hit && r.Ok? ==> Decoded(source, pipeline, info, chunkBytes) == Some(r.value)
    ensures !hit && Decoded(source, pipeline, info, chunkBytes).Some? ==>
      (spans.Some? ==> EndBy(spans.value.spans, |source|)) ==> r.Ok?
  {
    after := f;
    var cached := cache.WithDecompressed(pass, coord);
    if cached.Some? {
      return Ok(cached.value), true, f;
    }
    hit := false;
    var stored;
    if spans.Some? {
      stored := spans.value.ChunkBytes(source, info.address, info.stored);
    } else {
      stored := Fetch(source, info.address, info.stored);
    }
    if stored.Err? {
      return Err(stored.error), false, f;
    }
    after := SpanReader.Request(SpansOf(spans), f, RangeOf(info));
    r := Decode(pipeline, info, stored.value, chunkBytes);
  }

  /** The readers differ in where stored bytes come from: each chunk on its own, or by coalesced spans. */
  datatype Access = Resident | Coalesced

  /** The spans that a read of `infos` which begins with the cache at `s` goes by. */
  function OpenedSpans(access: Access, s: Cache, infos: seq<ChunkInfo>, rank: nat): seq<Spans.Range>
    requires HaveRank(infos, rank)
  {
    if access.Coalesced? then SpansFor(Unheld(s, infos, rank, |infos|)) else []
  }

  /** What has been read from the source after `n` chunks: nothing for one that is held. */
  function TraceTo(s: Cache, pass: nat, truth: Truth, infos: seq<ChunkInfo>, spans: seq<Spans.Range>, n: nat)
    : SpanReader.Fetches
    requires n <= |truth| == |infos|
  {
    if n == 0 then SpanReader.Fetches(None, [])
    else
      var f := TraceTo(s, pass, truth, infos, spans, n - 1);
      if Holds(ServeTo(s, pass, truth, n - 1), truth[n - 1].0) then f
      else SpanReader.Request(spans, f, RangeOf(infos[n - 1]))
  }

  method OpenSpans(source: seq<byte>, cache: CacheInner, infos: seq<ChunkInfo>, rank: nat, access: Access)
    returns (r: Option<SpanReader.Reader>)
    requires HaveRank(infos, rank)
    ensures r.Some? ==> fresh(r.value) && r.value.Valid(source) && r.value.Fetched() == SpanReader.Fetches(None, [])
    ensures r.Some? && AllStored(source, infos) ==> EndBy(r.value.spans, |source|)
    ensures access.Resident? ==> r.None?
    ensures SpansOf(r) == OpenedSpans(access, cache.State(), infos, rank)
  {
    if access.Coalesced? {
      r := PlanSpans(source, cache, infos, rank);
    } else {
      r := None;
    }
  }

  /** Everything a whole read holds on to between chunks; it began with the cache at `s`. */
  ghost predicate Reading(whole: Whole, cache: CacheInner, pass: nat, spans: Option<SpanReader.Reader>,
                          source: seq<byte>, s: Cache, truth: Truth, given: Truth, n: nat, f: SpanReader.Fetches)
    requires n <= |truth| == |whole.index.infos|
    reads whole, whole.output, cache, if spans.Some? then {spans.value} else {}
  {
    && whole.Valid() && PlacedTo(whole, given, n)
    && cache.Valid() && pass <= cache.pass && cache.State() == ServeTo(s, pass, truth, n)
    && (if spans.Some? then spans.value.Valid(source) && spans.value.Fetched() == f else f.held.None?)
    && f == TraceTo(s, pass, truth, whole.index.infos, SpansOf(spans), n)
    && (spans.Some? && AllStored(source, whole.index.infos) ==> EndBy(spans.value.spans, |source|))
  }

  /** What stops a whole read: a chunk it is given no usable bytes for, or a span that leaves the source. */
  ghost predicate Stopped(whole: Whole, spans: Option<SpanReader.Reader>, source: seq<byte>, given: Truth)
    requires HaveRank(whole.index.infos, |whole.index.extent|) && |given| == |whole.index.infos|
  {
    || !ReadableTo(given, whole.index.infos, |whole.index.extent|, whole.chunkBytes, |given|)
    || (spans.Some? && !AllStored(source, whole.index.infos))
  }

  /** One chunk of a whole read. */
  method VisitWhole(source: seq<byte>, pipeline: Pipeline, whole: Whole, cache: CacheInner, pass: nat,
                    spans: Option<SpanReader.Reader>, n: nat, ghost s: Cache, ghost truth: Truth, ghost given: Truth,
                    ghost f: SpanReader.Fetches)
    returns (r: Result<()>, ghost after: SpanReader.Fetches)
    requires |source| <= USIZE_MAX && n < |truth| == |whole.index.infos|
    requires Reading(whole, cache, pass, spans, source, s, truth, given, n, f)
    requires truth == ContentsOf(source, pipeline, whole.index, whole.chunkBytes)
    requires given[n] == (truth[n].0, Serve(ServeTo(s, pass, truth, n), pass, truth[n]).1)
    modifies whole, whole.output, whole.coord, cache, if spans.Some? then {spans.value} else {}
    ensures r.Ok? ==> Reading(whole, cache, pass, spans, source, s, truth, given, n + 1, after)
    ensures r.Err? ==> Stopped(whole, spans, source, given)
    ensures r.Err? ==> cache.Valid() && cache.State() == Lookup(ServeTo(s, pass, truth, n), pass, truth[n].0).0
  {
    var info, coord := whole.index.infos[n], whole.index.infos[n].offsets[..|whole.index.extent|];
    assert truth[n] == (coord, Decoded(source, pipeline, info, whole.chunkBytes));
    var bytes, hit;
    bytes, hit, after := Obtain(source, pipeline, cache, pass, info, coord, spans, whole.chunkBytes, f);
    if bytes.Err? {
      return Err(bytes.error), after;
    }
    r := PlaceAndSettle(whole, cache, pass, coord, bytes.value, hit, given, n, ServeTo(s, pass, truth, n), truth[n]);
  }

  /** A chunk's bytes are placed, and after a miss offered to the cache. */
  method PlaceAndSettle(whole: Whole, cache: CacheInner, pass: nat, coord: Coord, bytes: seq<byte>, hit: bool,
                        ghost given: Truth, ghost n: nat, ghost s: Cache, ghost entry: (Coord, Option<seq<byte>>))
    returns (r: Result<()>)
    requires whole.Valid() && PlacedTo(whole, given, n) && n < |given| && given[n].1 == Some(bytes)
    requires cache.Valid() && pass <= cache.pass && entry.0 == coord
    requires cache.State() == Lookup(s, pass, coord).0 && (hit <==> Lookup(s, pass, coord).1.Some?)
    requires !hit ==> entry.1 == Some(bytes)
    modifies whole, whole.output, whole.coord, cache
    ensures whole.Valid() && cache.Valid() && pass <= cache.pass
    ensures r.Ok? ==> PlacedTo(whole, given, n + 1) && cache.State() == Serve(s, pass, entry).0
    ensures r.Err? ==> !ReadableTo(given, whole.index.infos, |whole.index.extent|, whole.chunkBytes, |given|)
    ensures r.Err? ==> cache.State() == old(cache.State())
  {
    r := PlaceDecoded(whole, bytes, given, n);
    if r.Ok? {
      Settle(cache, pass, coord, bytes, hit, s, entry);
    }
  }

  /** The end of a chunk's visit: after a miss the decoded chunk is offered. */
  method Settle(cache: CacheInner, pass: nat, coord: Coord, bytes: seq<byte>, hit: bool, ghost s: Cache,
                ghost entry: (Coord, Option<seq<byte>>))
    requires cache.Valid() && pass <= cache.pass && entry.0 == coord
    requires cache.State() == Lookup(s, pass, coord).0 && (hit <==> Lookup(s, pass, coord).1.Some?)
    requires !hit ==> entry.1 == Some(bytes)
    modifies cache
    ensures cache.Valid() && pass <= cache.pass && cache.State() == Serve(s, pass, entry).0
  {
    if !hit {
      StepInv(cache.State(), OfferOp(pass, coord, bytes));
      cache.PutDecompressed(pass, coord, bytes);
    }
  }

  /** Every chunk of a whole read; on an error `m` is the chunk it stopped at. */
  method VisitWholes(source: seq<byte>, pipeline: Pipeline, whole: Whole, cache: CacheInner, pass: nat,
                     spans: Option<SpanReader.Reader>, ghost s: Cache, ghost truth: Truth, ghost given: Truth)
    returns (r: Result<()>, ghost m: nat, ghost f: SpanReader.Fetches)
    requires |source| <= USIZE_MAX && |truth| == |whole.index.infos|
    requires Reading(whole, cache, pass, spans, source, s, truth, given, 0, SpanReader.Fetches(None, []))
    requires truth == ContentsOf(source, pipeline, whole.index, whole.chunkBytes) && given == Given(s, pass, truth)
    modifies whole, whole.output, whole.coord, cache, if spans.Some? then {spans.value} else {}
    ensures r.Ok? ==> Reading(whole, cache, pass, spans, source, s, truth, given, |truth|, f)
    ensures r.Err? ==> Stopped(whole, spans, source, given)
    ensures r.Err? ==> m < |truth| && cache.Valid()
                       && cache.State() == Lookup(ServeTo(s, pass, truth, m), pass, truth[m].0).0
  {
    m, f := 0, SpanReader.Fetches(None, []);
    for n := 0 to |whole.index.infos|
      invariant Reading(whole, cache, pass, spans, source, s, truth, given, n, f)
    {
      GivenAt(s, pass, truth, n, |truth|);
      r, f := VisitWhole(source, pipeline, whole, cache, pass, spans, n, s, truth, given, f);
      if r.Err? {
        m := n;
        return;
      }
    }
    r := Ok(());
  }

  /** A whole read through the cache, past the geometry checks; `given` is what it is given for each chunk. */
  method ReadGiven(source: seq<byte>, pipeline: Pipeline, index: Index, size: nat, fill: Option<seq<byte>>,
                   cache: CacheInner, access: Access, ghost truth: Truth, ghost given: Truth)
    returns (r: Result<seq<byte>>, ghost log: seq<Spans.Range>)
    requires index.Valid() && 0 < size <= USIZE_MAX && |source| <= USIZE_MAX && cache.Valid()
    requires truth == ContentsOf(source, pipeline, index, Mul(Product(index.chunk), size))
    requires given == GivenBy(cache.State(), truth)
    modifies cache
    ensures cache.Valid() && (Trusted(old(cache.State()), truth) ==> Trusted(cache.State(), truth))
    ensures CacheAfter(old(cache.State()), cache.State(), truth, r.Ok?)
    ensures r.Ok? ==> log == SourceReads(access, old(cache.State()), truth, index)
    ensures r.Ok? || access.Resident? || AllStored(source, index.infos) ==> Outcome(r, index, size, fill, given)
  {
    log := [];
    var assembly := NewWhole(index, size, fill);
    if assembly.Err? {
      return Err(assembly.error), [];
    }
    var whole := assembly.value;
    var visited;
    visited, log := PlaceTrusted(source, pipeline, whole, cache, access, truth, given);
    if visited.Err? {
      return Err(visited.error), log;
    }
    r := FinishWhole(whole, given, fill);
  }

  /** `PlaceGiven`, which leaves a trusted cache trusted. */
  method PlaceTrusted(source: seq<byte>, pipeline: Pipeline, whole: Whole, cache: CacheInner, access: Access,
                      ghost truth: Truth, ghost given: Truth)
    returns (r: Result<()>, ghost log: seq<Spans.Range>)
    requires whole.Valid() && whole.placed == [] && |source| <= USIZE_MAX && cache.Valid()
    requires truth == ContentsOf(source, pipeline, whole.index, whole.chunkBytes)
    requires given == GivenBy(cache.State(), truth)
    modifies whole, whole.output, whole.coord, cache
    ensures cache.Valid() && (Trusted(old(cache.State()), truth) ==> Trusted(cache.State(), truth))
    ensures CacheAfter(old(cache.State()), cache.State(), truth, r.Ok?)
    ensures r.Ok? ==> log == SourceReads(access, old(cache.State()), truth, whole.index)
    ensures r.Ok? ==> whole.Valid() && PlacedTo(whole, given, |given|)
    ensures r.Err? && (access.Resident? || AllStored(source, whole.index.infos)) ==>
      !ReadableTo(given, whole.index.infos, |whole.index.extent|, whole.chunkBytes, |given|)
  {
    ghost var s, m := cache.State(), 0;
    r, m, log := PlaceGiven(source, pipeline, whole, cache, access, truth, given);
    ReadLeavesTrusted(s, cache.State(), truth, m);
    LeftIsAfter(s, cache.State(), truth, m, r.Ok?);
  }

  /** A whole read that began with the cache at `s` leaves it at `t`. */
  ghost predicate LeftBy(s: Cache, t: Cache, truth: Truth, m: nat) {
    LeftAt(BeginPass(s), t, s.pass + 1, truth, m)
  }

  /**
   The cache after a whole read of `truth` that began at `s`: a success has opened a pass and visited
   every chunk, and an error has stopped at some chunk, or before the pass.
   */
  ghost predicate CacheAfter(s: Cache, t: Cache, truth: Truth, ok: bool) {
    if ok then t == ServeTo(BeginPass(s), s.pass + 1, truth, |truth|)
    else t == s || exists m :: LeftBy(s, t, truth, m)
  }

  lemma LeftIsAfter(s: Cache, t: Cache, truth: Truth, m: nat, ok: bool)
    requires LeftBy(s, t, truth, m) && (ok ==> m == |truth|)
    ensures CacheAfter(s, t, truth, ok)
  {
  }

  lemma ReadLeavesTrusted(s: Cache, t: Cache, truth: Truth, m: nat)
    requires Inv(s) && LeftBy(s, t, truth, m)
    ensures Trusted(s, truth) ==> Trusted(t, truth)
  {
    BeginTrusted(s, truth);
    LeftTrusted(BeginPass(s), t, s.pass + 1, truth, truth, m);
  }

  /** What a whole read that begins with the cache at `s`, and succeeds, reads from the source, in order. */
  function SourceReads(access: Access, s: Cache, truth: Truth, index: Index): seq<Spans.Range>
    requires |truth| == |index.infos| && HaveRank(index.infos, |index.extent|)
  {
    TraceTo(BeginPass(s), s.pass + 1, truth, index.infos, OpenedSpans(access, s, index.infos, |index.extent|), |truth|).log
  }

  /** The planning, the pass and the loop of a whole read through the cache. */
  method PlaceGiven(source: seq<byte>, pipeline: Pipeline, whole: Whole, cache: CacheInner, access: Access,
                    ghost truth: Truth, ghost given: Truth)
    returns (r: Result<()>, ghost m: nat, ghost log: seq<Spans.Range>)
    requires whole.Valid() && whole.placed == [] && |source| <= USIZE_MAX && cache.Valid()
    requires truth == ContentsOf(source, pipeline, whole.index, whole.chunkBytes)
    requires given == GivenBy(cache.State(), truth)
    modifies whole, whole.output, whole.coord, cache
    ensures cache.Valid()
    ensures LeftBy(old(cache.State()), cache.State(), truth, m) && (r.Ok? ==> m == |truth|)
    ensures r.Ok? ==> log == SourceReads(access, old(cache.State()), truth, whole.index)
    ensures r.Ok? ==> whole.Valid() && PlacedTo(whole, given, |given|)
    ensures r.Err? && (access.Resident? || AllStored(source, whole.index.infos)) ==>
      !ReadableTo(given, whole.index.infos, |whole.index.extent|, whole.chunkBytes, |given|)
  {
    ghost var start := cache.State();
    var spans := OpenSpans(source, cache, whole.index.infos, |whole.index.extent|, access);
    var pass := cache.BeginPass();
    ghost var f;
    r, m, f := VisitWholes(source, pipeline, whole, cache, pass, spans, cache.State(), truth, given);
    log := f.log;
    if r.Err? {
      assert IsLooked(BeginPass(start), cache.State(), pass, truth, m);
    } else {
      m := |truth|;
      assert IsAfter(BeginPass(start), cache.State(), pass, truth, m);
    }
  }

  /** What a read that begins with the cache at `s` is given for each chunk. */
  function GivenBy(s: Cache, truth: Truth): (g: Truth)
    ensures |g| == |truth|
  {
    Given(BeginPass(s), s.pass + 1, truth)
  }

  /**
   `read_chunked_data_cached_from_source` and its resident counterpart. Whatever the cache holds,
   a success is the dataset made of what the read is given for each chunk, and the read succeeds
   exactly when that is possible, except that a coalesced read may also fail on a chunk outside the
   source that it would not have needed.
   */
  method ReadCached(source: seq<byte>, pipeline: Pipeline, index: Index, size: nat, fill: Option<seq<byte>>,
                    cache: CacheInner, access: Access)
    returns (r: Result<seq<byte>>, ghost log: seq<Spans.Range>)
    requires index.Valid() && 0 < size <= USIZE_MAX && |source| <= USIZE_MAX && cache.Valid()
    modifies cache
    ensures cache.Valid()
    ensures if 0 in index.extent then cache.State() == old(cache.State())
            else CacheAfter(old(cache.State()), cache.State(),
                            ContentsOf(source, pipeline, index, Mul(Product(index.chunk), size)), r.Ok?)
    ensures r.Ok? ==> log == if 0 in index.extent then []
                             else SourceReads(access, old(cache.State()),
                                        ContentsOf(source, pipeline, index, Mul(Product(index.chunk), size)), index)
    ensures r.Ok? || access.Resident? || AllStored(source, index.infos) ==>
      WholeRead(r, index, size, fill,
                GivenBy(old(cache.State()), ContentsOf(source, pipeline, index, Mul(Product(index.chunk), size))))
    ensures var truth := ContentsOf(source, pipeline, index, Mul(Product(index.chunk), size));
      Trusted(old(cache.State()), truth) ==> Trusted(cache.State(), truth) && WholeRead(r, index, size, fill, truth)
  {
    ghost var truth, s := ContentsOf(source, pipeline, index, Mul(Product(index.chunk), size)), cache.State();
    ghost var given := GivenBy(s, truth);
    log := [];
    var empty := CheckGeometry(index, size);
    if empty.Err? {
      return Err(empty.error), [];
    }
    if empty.value {
      return Ok([]), [];
    }
    r, log := ReadGiven(source, pipeline, index, size, fill, cache, access, truth, given);
    TrustedOutcome(r, source, pipeline, index, size, fill, s, truth, given);
  }

  lemma TrustedGivenBy(s: Cache, truth: Truth)
    requires Inv(s)
    ensures Trusted(s, truth) ==> GivenBy(s, truth) == truth
  {
    BeginTrusted(s, truth);
    TrustedGives(BeginPass(s), s.pass + 1, truth, truth);
  }

  lemma TrustedOutcome(r: Result<seq<byte>>, source: seq<byte>, pipeline: Pipeline, index: Index, size: nat,
                       fill: Option<seq<byte>>, s: Cache, truth: Truth, given: Truth)
    requires Inv(s) && HaveRank(index.infos, |index.extent|) && size > 0
    requires truth == ContentsOf(source, pipeline, index, Mul(Product(index.chunk), size)) && given == GivenBy(s, truth)
    requires r.Ok? || AllStored(source, index.infos) ==> Outcome(r, index, size, fill, given)
    ensures Trusted(s, truth) ==> Outcome(r, index, size, fill, truth)
  {
    TrustedGivenBy(s, truth);
    if Trusted(s, truth) && Readable(index, size, fill, truth) {
      DecodeStored(source, pipeline, index, Mul(Product(index.chunk), size));
    }
  }

  /** A chunk that decodes was stored within the source. */
  lemma DecodeStored(source: seq<byte>, pipeline: Pipeline, index: Index, chunkBytes: nat)
    requires HaveRank(index.infos, |index.extent|)
    ensures var truth := ContentsOf(source, pipeline, index, chunkBytes);
      AllDecode(truth) ==> AllStored(source, index.infos)
  {
    var truth := ContentsOf(source, pipeline, index, chunkBytes);
    if AllDecode(truth) {
      forall j | 0 <= j < |index.infos| ensures index.infos[j].address + index.infos[j].stored <= |source| {
        assert truth[j].1.Some?;
      }
    }
  }
}
