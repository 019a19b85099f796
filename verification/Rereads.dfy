/** Reading a whole dataset again and again through one cache (src/chunked_read.rs, src/chunk_cache.rs). */
module Rereads {
  import opened Basics
  import opened RowMajor
  import opened DenseGrid
  import opened ParsedIndex
  import opened ChunkCache
  import opened CacheObject
  import opened SteadyState
  import opened Transparency
  import opened Reader
  import opened Agreement

  /** The chunks of an index whose every listing decodes. */
  function ChunksOf(truth: Truth): (c: Chunks)
    requires AllDecode(truth)
    ensures |c| == |truth|
  {
    seq(|truth|, n requires 0 <= n < |truth| => (truth[n].0, truth[n].1.value))
  }

  lemma {:induction false} ServeIsVisit(s: Cache, pass: nat, truth: Truth, n: nat)
    requires AllDecode(truth) && n <= |truth|
    ensures ServeTo(s, pass, truth, n) == VisitTo(s, pass, ChunksOf(truth), n)
  {
    if n > 0 {
      ServeIsVisit(s, pass, truth, n - 1);
      NextIsVisit(s, ServeTo(s, pass, truth, n - 1), pass, truth, n);
    }
  }

  lemma {:induction false} NextIsVisit(s: Cache, t: Cache, pass: nat, truth: Truth, n: nat)
    requires AllDecode(truth) && 0 < n <= |truth|
    requires t == ServeTo(s, pass, truth, n - 1) == VisitTo(s, pass, ChunksOf(truth), n - 1)
    ensures ServeTo(s, pass, truth, n) == VisitTo(s, pass, ChunksOf(truth), n)
  {
    VisitOne(t, pass, ChunksOf(truth)[n - 1]);
    assert truth[n - 1] == (truth[n - 1].0, Some(truth[n - 1].1.value));
  }

  /** A read that succeeds takes the cache through exactly one whole read. */
  lemma {:induction false} ReadIsRead(s: Cache, t: Cache, truth: Truth)
    requires AllDecode(truth) && CacheAfter(s, t, truth, true)
    ensures t == Read(s, ChunksOf(truth))
  {
    ServeIsVisit(BeginPass(s), s.pass + 1, truth, |truth|);
  }

  /** No coordinate is listed twice, and every chunk decodes. */
  ghost predicate Plain(source: seq<byte>, pipeline: Pipeline, index: Index, size: nat) {
    && HaveRank(index.infos, |index.extent|) && Distinct(Coords(index.infos, |index.extent|))
    && forall j :: 0 <= j < |index.infos| ==> Intact(source, pipeline, index.infos[j], Mul(Product(index.chunk), size))
  }

  lemma {:induction false} PlainTruth(source: seq<byte>, pipeline: Pipeline, index: Index, size: nat)
    requires Plain(source, pipeline, index, size)
    ensures var truth := ContentsOf(source, pipeline, index, Mul(Product(index.chunk), size));
      AllDecode(truth) && Consistent(truth) && Uniform(ChunksOf(truth), Mul(Product(index.chunk), size))
  {
    var truth, coords := ContentsOf(source, pipeline, index, Mul(Product(index.chunk), size)),
                         Coords(index.infos, |index.extent|);
    forall i, j | 0 <= i < j < |truth| ensures truth[i].0 != truth[j].0 {
      assert coords[i] != coords[j];
    }
  }

  /** What a plain index is read as, and what its chunks leave in a cache. */
  ghost predicate ReadsAs(source: seq<byte>, pipeline: Pipeline, index: Index, size: nat, fill: Option<seq<byte>>,
                          truth: Truth, chunks: Chunks, dataset: seq<byte>)
    requires 0 < size
  {
    && index.Valid() && size <= USIZE_MAX && |source| <= USIZE_MAX
    && RestsOnChunks(index, size, fill) && Plain(source, pipeline, index, size)
    && truth == ContentsOf(source, pipeline, index, Mul(Product(index.chunk), size)) && AllDecode(truth)
    && chunks == ChunksOf(truth) && dataset == Dataset(index, size, fill, truth)
  }

  /** One read of a plain index through a trusted cache. */
  method ReadAgain(source: seq<byte>, pipeline: Pipeline, index: Index, size: nat, fill: Option<seq<byte>>,
                   cache: CacheInner, access: Access, ghost truth: Truth, ghost chunks: Chunks, ghost dataset: seq<byte>)
    returns (r: Result<seq<byte>>)
    requires 0 < size && ReadsAs(source, pipeline, index, size, fill, truth, chunks, dataset)
    requires cache.Valid() && Trusted(cache.State(), truth)
    modifies cache
    ensures cache.Valid() && Trusted(cache.State(), truth)
    ensures r == Ok(dataset) && cache.State() == Read(old(cache.State()), chunks)
  {
    ghost var s := cache.State();
    ghost var log;
    r, log := ReadCached(source, pipeline, index, size, fill, cache, access);
    ContentsListed(source, pipeline, index, size);
    AnswerOf(index, size, fill, truth);
    ReadIsRead(s, cache.State(), truth);
  }

  /** The read after the first `i`. */
  method ReadNext(source: seq<byte>, pipeline: Pipeline, index: Index, size: nat, fill: Option<seq<byte>>,
                  cache: CacheInner, access: Access, ghost i: nat, ghost truth: Truth, ghost chunks: Chunks,
                  ghost dataset: seq<byte>, ghost s: Cache)
    returns (r: Result<seq<byte>>)
    requires 0 < size && ReadsAs(source, pipeline, index, size, fill, truth, chunks, dataset)
    requires cache.Valid() && Trusted(cache.State(), truth) && cache.State() == Reads(s, chunks, i)
    modifies cache
    ensures cache.Valid() && Trusted(cache.State(), truth)
    ensures r == Ok(dataset) && cache.State() == Reads(s, chunks, i + 1)
  {
    r := ReadAgain(source, pipeline, index, size, fill, cache, access, truth, chunks, dataset);
  }

  /** `n` reads through a cache that begins as `s`. */
  method ReadTimes(source: seq<byte>, pipeline: Pipeline, index: Index, size: nat, fill: Option<seq<byte>>,
                   cache: CacheInner, access: Access, n: nat, ghost truth: Truth, ghost chunks: Chunks,
                   ghost dataset: seq<byte>, ghost s: Cache)
    returns (results: seq<Result<seq<byte>>>)
    requires 0 < size && ReadsAs(source, pipeline, index, size, fill, truth, chunks, dataset)
    requires cache.Valid() && Trusted(cache.State(), truth) && cache.State() == Reads(s, chunks, 0)
    modifies cache
    ensures cache.Valid() && Trusted(cache.State(), truth) && cache.State() == Reads(s, chunks, n)
    ensures |results| == n && forall i :: 0 <= i < n ==> results[i] == Ok(dataset)
    decreases n
  {
    results := [];
    if n > 0 {
      results := ReadTimes(source, pipeline, index, size, fill, cache, access, n - 1, truth, chunks, dataset, s);
      var r := ReadNext(source, pipeline, index, size, fill, cache, access, n - 1, truth, chunks, dataset, s);
      results := results + [r];
    }
  }

  /**
   Reading `n` times through a new cache of any budgets: every read returns the dataset, and the chunks
   kept and the counters are those of the steady state.
   */
  method ReadTimesNew(source: seq<byte>, pipeline: Pipeline, index: Index, size: nat, fill: Option<seq<byte>>,
                      access: Access, maxBytes: nat, maxSlots: nat, n: nat, ghost truth: Truth, ghost chunks: Chunks,
                      ghost dataset: seq<byte>, ghost k: nat)
    returns (cache: CacheInner, results: seq<Result<seq<byte>>>)
    requires 0 < size && ReadsAs(source, pipeline, index, size, fill, truth, chunks, dataset) && n > 0
    requires k == Capacity(maxBytes, maxSlots, chunks, Mul(Product(index.chunk), size))
    ensures |results| == n && forall i :: 0 <= i < n ==> results[i] == Ok(dataset)
    ensures k <= |chunks| && Retains(cache.State(), chunks, k, 0, LRU)
    ensures cache.State().counters
         == Tally(|chunks|, k, n, Refusal(maxBytes, maxSlots, Mul(Product(index.chunk), size)))
  {
    PlainTruth(source, pipeline, index, size);
    cache := new CacheInner(maxBytes, maxSlots);
    results := ReadTimes(source, pipeline, index, size, fill, cache, access, n, truth, chunks, dataset, cache.State());
    RepeatedReads(maxBytes, maxSlots, chunks, Mul(Product(index.chunk), size), k, n);
  }
}
