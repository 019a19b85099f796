/** Reading a region through the chunk cache, and that it is the whole read cut to the region (src/chunked_read.rs). */
module RegionReader {
  import opened Basics
  import opened RowMajor
  import opened DenseGrid
  import opened ParsedIndex
  import opened WholeAssembly
  import opened Region
  import opened RegionAssembly
  import opened ChunkCache
  import opened CacheObject
  import opened Transparency
  import opened Reader
  import SpanReader
  import Spans

  /** What the chunks of a selection decode to. */
  function Chosen(truth: Truth, ordinals: seq<nat>): (t: Truth)
    requires forall k :: 0 <= k < |ordinals| ==> ordinals[k] < |truth|
    ensures |t| == |ordinals|
  {
    seq(|ordinals|, k requires 0 <= k < |ordinals| => truth[ordinals[k]])
  }

  /** What the chunks of `selection` decode to. */
  ghost function SelectedContents(source: seq<byte>, pipeline: Pipeline, selection: Selection, chunkBytes: nat): (t: Truth)
    requires selection.Valid()
    ensures |t| == |selection.ordinals|
  {
    OrdinalsWithin(selection);
    Chosen(ContentsOf(source, pipeline, selection.index, chunkBytes), selection.ordinals)
  }

  lemma OrdinalsWithin(selection: Selection)
    requires selection.Valid()
    ensures forall k :: 0 <= k < |selection.ordinals| ==> selection.ordinals[k] < |selection.index.infos|
  {
    forall k | 0 <= k < |selection.ordinals| ensures selection.ordinals[k] < |selection.index.infos| {
      selection.Overlapping(k);
    }
  }

  /** Each of these is given as full-size bytes. */
  predicate AllFull(given: Truth, chunkBytes: nat) {
    forall k :: 0 <= k < |given| ==> given[k].1.Some? && |given[k].1.value| == chunkBytes
  }

  /** A region read that is given `given` for the selected chunks can succeed. */
  ghost predicate RegionReadable(selection: Selection, size: nat, fill: Option<seq<byte>>, given: Truth)
    requires selection.Valid()
  {
    && BoundedChunk(selection.index.chunk, size)
    && (selection.coverage.PotentiallyUncovered? ==> fill.Some?)
    && AllFull(given, Product(selection.index.chunk) * size)
  }

  /** What it returns. */
  ghost function RegionOf(selection: Selection, size: nat, fill: Option<seq<byte>>, given: Truth): seq<byte>
    requires selection.Valid() && |given| == |selection.ordinals| && AllDecode(given) && size > 0
  {
    RegionBytes(selection.SelectedCoords(), Payloads(given), selection.index.chunk, selection.region, size, Pattern(fill))
  }

  /** The outcome of a region read that is given `given` for the selected chunks. */
  ghost predicate RegionRead(r: Result<seq<byte>>, selection: Selection, size: nat, fill: Option<seq<byte>>, given: Truth)
    requires selection.Valid() && |given| == |selection.ordinals| && size > 0
  {
    if RegionReadable(selection, size, fill, given) then r == Ok(RegionOf(selection, size, fill, given)) else r.Err?
  }

  /** The first `n` selected chunks have been placed as they were given. */
  ghost predicate AssembledTo(assembler: Assembler, given: Truth, n: nat)
    reads assembler
  {
    && |given| == |assembler.selection.ordinals| && |assembler.payloads| == n <= |given|
    && forall k :: 0 <= k < n ==> given[k].1 == Some(assembler.payloads[k])
  }

  /** The first `n` of the selected chunks have been visited, by a read that began with the cache at `s`. */
  ghost predicate ReadingRegion(assembler: Assembler, cache: CacheInner, pass: nat, spans: Option<SpanReader.Reader>,
                                source: seq<byte>, infos: seq<ChunkInfo>, s: Cache, chosen: Truth, given: Truth, n: nat,
                                f: SpanReader.Fetches)
    requires n <= |chosen| == |infos|
    reads assembler, assembler.output, cache, if spans.Some? then {spans.value} else {}
  {
    && assembler.Valid() && AssembledTo(assembler, given, n)
    && cache.Valid() && pass <= cache.pass && cache.State() == ServeTo(s, pass, chosen, n)
    && (if spans.Some? then spans.value.Valid(source) && spans.value.Fetched() == f else f.held.None?)
    && f == TraceTo(s, pass, chosen, infos, SpansOf(spans), n)
    && (spans.Some? && AllStored(source, infos) ==> EndBy(spans.value.spans, |source|))
  }

  /** `infos` are the chunks of the selection, and `chosen` what they decode to. */
  ghost predicate Describes(infos: seq<ChunkInfo>, chosen: Truth, source: seq<byte>, pipeline: Pipeline, rank: nat,
                            chunkBytes: nat)
  {
    && |infos| == |chosen| && HaveRank(infos, rank)
    && forall k :: 0 <= k < |infos| ==>
         chosen[k] == (infos[k].offsets[..rank], Decoded(source, pipeline, infos[k], chunkBytes))
  }

  /** The cache after a read of the chunks `chosen` that began at `s`: a success has visited every one of them. */
  ghost predicate RegionAfter(s: Cache, t: Cache, pass: nat, chosen: Truth, ok: bool) {
    if ok then t == ServeTo(s, pass, chosen, |chosen|) else t == s || exists m :: LeftAt(s, t, pass, chosen, m)
  }

  lemma LeftIsRegionAfter(s: Cache, t: Cache, pass: nat, chosen: Truth, m: nat, ok: bool)
    requires LeftAt(s, t, pass, chosen, m) && (ok ==> m == |chosen|)
    ensures RegionAfter(s, t, pass, chosen, ok)
  {
  }

  /** What stops a region read: a chunk it is given no usable bytes for, or a span that leaves the source. */
  ghost predicate RegionStopped(source: seq<byte>, infos: seq<ChunkInfo>, given: Truth, chunkBytes: nat) {
    !AllFull(given, chunkBytes) || !AllStored(source, infos)
  }

  /** One selected chunk of a region read. */
  method VisitRegion(source: seq<byte>, pipeline: Pipeline, assembler: Assembler, cache: CacheInner, pass: nat,
                     spans: Option<SpanReader.Reader>, infos: seq<ChunkInfo>, rank: nat, n: nat, ghost s: Cache,
                     ghost chosen: Truth, ghost given: Truth, ghost f: SpanReader.Fetches)
    returns (r: Result<()>, ghost after: SpanReader.Fetches)
    requires |source| <= USIZE_MAX && n < |chosen| == |given| == |infos|
    requires ReadingRegion(assembler, cache, pass, spans, source, infos, s, chosen, given, n, f)
    requires Describes(infos, chosen, source, pipeline, rank, assembler.chunkBytes)
    requires given[n] == (chosen[n].0, Serve(ServeTo(s, pass, chosen, n), pass, chosen[n]).1)
    modifies assembler, assembler.output, assembler.scratch, cache, if spans.Some? then {spans.value} else {}
    ensures r.Ok? ==> ReadingRegion(assembler, cache, pass, spans, source, infos, s, chosen, given, n + 1, after)
    ensures r.Err? ==> RegionStopped(source, infos, given, assembler.chunkBytes) && cache.Valid()
                       && IsLooked(s, cache.State(), pass, chosen, n)
  {
    var info, coord := infos[n], infos[n].offsets[..rank];
    var bytes, hit;
    bytes, hit, after := Obtain(source, pipeline, cache, pass, info, coord, spans, assembler.chunkBytes, f);
    if bytes.Err? {
      return Err(bytes.error), after;
    }
    r := PlaceAndKeep(assembler, cache, pass, coord, bytes.value, hit, given, n, ServeTo(s, pass, chosen, n), chosen[n]);
  }

  /** The end of a selected chunk's visit: it is placed, and after a miss offered to the cache. */
  method PlaceAndKeep(assembler: Assembler, cache: CacheInner, pass: nat, coord: Coord, bytes: seq<byte>, hit: bool,
                      ghost given: Truth, ghost n: nat, ghost s: Cache, ghost entry: (Coord, Option<seq<byte>>))
    returns (r: Result<()>)
    requires assembler.Valid() && AssembledTo(assembler, given, n) && n < |given| && given[n].1 == Some(bytes)
    requires cache.Valid() && pass <= cache.pass && entry.0 == coord
    requires cache.State() == Lookup(s, pass, coord).0 && (hit <==> Lookup(s, pass, coord).1.Some?)
    requires !hit ==> entry.1 == Some(bytes)
    modifies assembler, assembler.output, assembler.scratch, cache
    ensures assembler.Valid() && cache.Valid() && pass <= cache.pass
    ensures r.Ok? ==> AssembledTo(assembler, given, n + 1) && cache.State() == Serve(s, pass, entry).0
    ensures r.Err? ==> !AllFull(given, assembler.chunkBytes) && cache.State() == old(cache.State())
  {
    PlacedOneMore(assembler.payloads, bytes, given);
    r := assembler.Place(bytes);
    if r.Ok? {
      Settle(cache, pass, coord, bytes, hit, s, entry);
    }
  }

  /** Every selected chunk of a region read; on an error `m` is the one it stopped at. */
  method VisitRegions(source: seq<byte>, pipeline: Pipeline, assembler: Assembler, cache: CacheInner, pass: nat,
                      spans: Option<SpanReader.Reader>, infos: seq<ChunkInfo>, rank: nat, ghost s: Cache,
                      ghost chosen: Truth, ghost given: Truth)
    returns (r: Result<()>, ghost m: nat, ghost log: seq<Spans.Range>)
    requires |source| <= USIZE_MAX && |chosen| == |infos|
    requires ReadingRegion(assembler, cache, pass, spans, source, infos, s, chosen, given, 0, SpanReader.Fetches(None, []))
    requires Describes(infos, chosen, source, pipeline, rank, assembler.chunkBytes) && given == Given(s, pass, chosen)
    modifies assembler, assembler.output, assembler.scratch, cache, if spans.Some? then {spans.value} else {}
    ensures cache.Valid() && LeftAt(s, cache.State(), pass, chosen, m) && (r.Ok? ==> m == |chosen|)
    ensures r.Ok? ==> assembler.Valid() && AssembledTo(assembler, given, |given|)
    ensures r.Ok? ==> log == TraceTo(s, pass, chosen, infos, SpansOf(spans), |chosen|).log
    ensures r.Err? ==> RegionStopped(source, infos, given, assembler.chunkBytes)
  {
    m, log := 0, [];
    ghost var f := SpanReader.Fetches(None, []);
    for n := 0 to |infos|
      invariant ReadingRegion(assembler, cache, pass, spans, source, infos, s, chosen, given, n, f)
    {
      GivenAt(s, pass, chosen, n, |chosen|);
      r, f := VisitRegion(source, pipeline, assembler, cache, pass, spans, infos, rank, n, s, chosen, given, f);
      if r.Err? {
        m := n;
        return;
      }
    }
    m, log := |infos|, f.log;
    assert IsAfter(s, cache.State(), pass, chosen, m);
    r := Ok(());
  }

  /** `finish`, once every selected chunk has been placed. */
  method FinishRegion(assembler: Assembler, ghost given: Truth, ghost fill: Option<seq<byte>>)
    returns (r: Result<seq<byte>>)
    requires assembler.Valid() && AssembledTo(assembler, given, |given|) && assembler.fill == Pattern(fill)
    ensures AllFull(given, assembler.chunkBytes) && AllDecode(given)
    ensures r == Ok(RegionOf(assembler.selection, assembler.size, fill, given))
  {
    assert forall k :: 0 <= k < |given| ==> given[k].1 == Some(assembler.payloads[k]);
    assert assembler.payloads == Payloads(given);
    r := assembler.Finish();
  }

  /** The descriptors of the selected chunks. */
  method SelectedInfos(source: seq<byte>, pipeline: Pipeline, selection: Selection, ghost chunkBytes: nat)
    returns (infos: seq<ChunkInfo>)
    requires selection.Valid()
    ensures infos == InfosOf(selection)
    ensures Describes(infos, SelectedContents(source, pipeline, selection, chunkBytes), source, pipeline,
                      |selection.index.extent|, chunkBytes)
  {
    OrdinalsWithin(selection);
    infos := [];
    for k := 0 to |selection.ordinals|
      invariant |infos| == k && forall i :: 0 <= i < k ==> infos[i] == selection.index.infos[selection.ordinals[i]]
    {
      infos := infos + [selection.index.infos[selection.ordinals[k]]];
    }
  }

  ghost function InfosOf(selection: Selection): (infos: seq<ChunkInfo>)
    requires selection.Valid()
    ensures |infos| == |selection.ordinals| && HaveRank(infos, |selection.index.extent|)
  {
    OrdinalsWithin(selection);
    seq(|selection.ordinals|, k requires 0 <= k < |selection.ordinals| => selection.index.infos[selection.ordinals[k]])
  }

  /** What a region read that begins with the cache at `s`, and succeeds, reads from the source, in order. */
  ghost function RegionReads(s: Cache, pass: nat, chosen: Truth, selection: Selection): seq<Spans.Range>
    requires selection.Valid() && |chosen| == |selection.ordinals|
  {
    var infos := InfosOf(selection);
    TraceTo(s, pass, chosen, infos, OpenedSpans(Coalesced, s, infos, |selection.index.extent|), |chosen|).log
  }

  /** The planning and the loop of a region read, which leaves a trusted cache trusted. */
  method PlaceRegion(source: seq<byte>, pipeline: Pipeline, assembler: Assembler, cache: CacheInner, pass: nat,
                     ghost chosen: Truth, ghost given: Truth, ghost truth: Truth)
    returns (r: Result<()>, ghost log: seq<Spans.Range>)
    requires assembler.Valid() && assembler.payloads == [] && |source| <= USIZE_MAX && cache.Valid() && pass <= cache.pass
    requires chosen == SelectedContents(source, pipeline, assembler.selection, assembler.chunkBytes)
    requires given == Given(cache.State(), pass, chosen) && Among(chosen, truth)
    modifies assembler, assembler.output, assembler.scratch, cache
    ensures cache.Valid() && (Trusted(old(cache.State()), truth) ==> Trusted(cache.State(), truth))
    ensures RegionAfter(old(cache.State()), cache.State(), pass, chosen, r.Ok?)
    ensures r.Ok? ==> log == RegionReads(old(cache.State()), pass, chosen, assembler.selection)
    ensures r.Ok? ==> assembler.Valid() && AssembledTo(assembler, given, |given|)
    ensures r.Err? && AllStored(source, InfosOf(assembler.selection)) ==> !AllFull(given, assembler.chunkBytes)
  {
    ghost var s, m := cache.State(), 0;
    var rank := |assembler.selection.index.extent|;
    var infos := SelectedInfos(source, pipeline, assembler.selection, assembler.chunkBytes);
    var spans := OpenSpans(source, cache, infos, rank, Coalesced);
    r, m, log := VisitRegions(source, pipeline, assembler, cache, pass, spans, infos, rank, s, chosen, given);
    LeftTrusted(s, cache.State(), pass, chosen, truth, m);
    LeftIsRegionAfter(s, cache.State(), pass, chosen, m, r.Ok?);
  }

  lemma ChosenAmong(truth: Truth, ordinals: seq<nat>)
    requires forall k :: 0 <= k < |ordinals| ==> ordinals[k] < |truth|
    ensures Among(Chosen(truth, ordinals), truth)
  {
  }

  /** Selected chunks that decode were stored within the source. */
  lemma FullIsStored(source: seq<byte>, pipeline: Pipeline, selection: Selection, chunkBytes: nat)
    requires selection.Valid()
    ensures AllFull(SelectedContents(source, pipeline, selection, chunkBytes), chunkBytes) ==>
      AllStored(source, InfosOf(selection))
  {
    var infos, chosen := InfosOf(selection), SelectedContents(source, pipeline, selection, chunkBytes);
    if AllFull(chosen, chunkBytes) {
      forall k | 0 <= k < |infos| ensures infos[k].address + infos[k].stored <= |source| {
        assert chosen[k].1.Some?;
      }
    }
  }

  lemma SelectedAmong(source: seq<byte>, pipeline: Pipeline, selection: Selection, chunkBytes: nat, chosen: Truth,
                      truth: Truth)
    requires selection.Valid() && truth == ContentsOf(source, pipeline, selection.index, chunkBytes)
    requires chosen == SelectedContents(source, pipeline, selection, chunkBytes)
    ensures Among(chosen, truth)
  {
    OrdinalsWithin(selection);
    ChosenAmong(truth, selection.ordinals);
  }

  lemma TrustedRegion(r: Result<seq<byte>>, source: seq<byte>, pipeline: Pipeline, selection: Selection, size: nat,
                      fill: Option<seq<byte>>, s: Cache, pass: nat, chosen: Truth, given: Truth, truth: Truth)
    requires selection.Valid() && size > 0 && Inv(s) && pass <= s.pass && Among(chosen, truth)
    requires chosen == SelectedContents(source, pipeline, selection, Product(selection.index.chunk) * size)
    requires given == Given(s, pass, chosen)
    requires r.Ok? || AllStored(source, InfosOf(selection)) ==> RegionRead(r, selection, size, fill, given)
    ensures Trusted(s, truth) ==> RegionRead(r, selection, size, fill, chosen)
  {
    TrustedGives(s, pass, chosen, truth);
    FullIsStored(source, pipeline, selection, Product(selection.index.chunk) * size);
  }

  /** A region read past its checks; `given` is what it is given for each selected chunk. */
  method ReadGivenRegion(source: seq<byte>, pipeline: Pipeline, selection: Selection, size: nat, fill: Option<seq<byte>>,
                         length: nat, cache: CacheInner, pass: nat, ghost chosen: Truth, ghost given: Truth,
                         ghost truth: Truth)
    returns (r: Result<seq<byte>>, ghost log: seq<Spans.Range>)
    requires selection.Valid() && Positive(selection.region.count) && 0 < size <= USIZE_MAX && |source| <= USIZE_MAX
    requires length == Product(selection.region.count) * size <= USIZE_MAX
    requires cache.Valid() && pass <= cache.pass && Among(chosen, truth)
    requires chosen == SelectedContents(source, pipeline, selection, Product(selection.index.chunk) * size)
    requires given == Given(cache.State(), pass, chosen)
    modifies cache
    ensures cache.Valid() && (Trusted(old(cache.State()), truth) ==> Trusted(cache.State(), truth))
    ensures RegionAfter(old(cache.State()), cache.State(), pass, chosen, r.Ok?)
    ensures r.Ok? ==> log == RegionReads(old(cache.State()), pass, chosen, selection)
    ensures r.Ok? || AllStored(source, InfosOf(selection)) ==> RegionRead(r, selection, size, fill, given)
  {
    log := [];
    var assembly := NewAssembler(selection, size, fill, length);
    if assembly.Err? {
      return Err(assembly.error), [];
    }
    var assembler := assembly.value;
    var visited;
    visited, log := PlaceRegion(source, pipeline, assembler, cache, pass, chosen, given, truth);
    if visited.Err? {
      return Err(visited.error), log;
    }
    r := FinishRegion(assembler, given, fill);
  }

  /**
   The loop of a region read, over the chunks of one selection. Whatever the cache holds, a success
   is the region made of what the read is given, and the read succeeds exactly when that is possible,
   except that it may also fail on a selected chunk outside the source that it would not have needed.
   */
  method ReadSelection(source: seq<byte>, pipeline: Pipeline, selection: Selection, size: nat, fill: Option<seq<byte>>,
                       length: nat, cache: CacheInner, pass: nat, ghost chosen: Truth, ghost truth: Truth)
    returns (r: Result<seq<byte>>, ghost log: seq<Spans.Range>)
    requires selection.Valid() && Positive(selection.region.count) && 0 < size <= USIZE_MAX && |source| <= USIZE_MAX
    requires length == Product(selection.region.count) * size <= USIZE_MAX
    requires cache.Valid() && pass <= cache.pass
    requires truth == ContentsOf(source, pipeline, selection.index, Product(selection.index.chunk) * size)
    requires chosen == SelectedContents(source, pipeline, selection, Product(selection.index.chunk) * size)
    modifies cache
    ensures cache.Valid() && RegionAfter(old(cache.State()), cache.State(), pass, chosen, r.Ok?)
    ensures r.Ok? ==> log == RegionReads(old(cache.State()), pass, chosen, selection)
    ensures r.Ok? || AllStored(source, InfosOf(selection)) ==>
      RegionRead(r, selection, size, fill, Given(old(cache.State()), pass, chosen))
    ensures Trusted(old(cache.State()), truth) ==> Trusted(cache.State(), truth) && RegionRead(r, selection, size, fill, chosen)
  {
    ghost var s, given := cache.State(), Given(cache.State(), pass, chosen);
    SelectedAmong(source, pipeline, selection, Product(selection.index.chunk) * size, chosen, truth);
    r, log := ReadGivenRegion(source, pipeline, selection, size, fill, length, cache, pass, chosen, given, truth);
    TrustedRegion(r, source, pipeline, selection, size, fill, s, pass, chosen, given, truth);
  }

  /**
   The region reader of a window session. `selection` is what it read, if it got that far: an empty
   region is answered before the index is consulted, but after the geometry checks.
   */
  method ReadRegion(source: seq<byte>, pipeline: Pipeline, index: Index, region: Region, size: nat,
                    fill: Option<seq<byte>>, length: nat, cache: CacheInner, pass: nat)
    returns (r: Result<seq<byte>>, ghost selection: Option<Selection>, ghost log: seq<Spans.Range>)
    requires index.Valid() && region.Within(index.extent) && 0 < size <= USIZE_MAX && |source| <= USIZE_MAX
    requires length == Product(region.count) * size <= USIZE_MAX
    requires cache.Valid() && pass <= cache.pass
    modifies cache
    ensures cache.Valid()
    ensures selection.None? ==> cache.State() == old(cache.State()) && log == []
    ensures selection.None? ==>
      if |index.chunk| == |index.extent| && BoundedChunk(index.chunk, size) && !Positive(region.count) then r == Ok([])
      else r.Err?
    ensures selection.Some? <==> |index.chunk| == |index.extent| && BoundedChunk(index.chunk, size)
                                 && Positive(region.count) && Positive(index.chunk)
    ensures selection.Some? ==>
      selection.value.Valid() && selection.value.index == index && selection.value.region == region
    ensures selection.Some? ==>
      var chosen := SelectedContents(source, pipeline, selection.value, Product(index.chunk) * size);
      var truth := ContentsOf(source, pipeline, index, Product(index.chunk) * size);
      && RegionAfter(old(cache.State()), cache.State(), pass, chosen, r.Ok?)
      && (r.Ok? ==> log == RegionReads(old(cache.State()), pass, chosen, selection.value))
      && (r.Ok? || AllStored(source, InfosOf(selection.value)) ==>
            RegionRead(r, selection.value, size, fill, Given(old(cache.State()), pass, chosen)))
      && (Trusted(old(cache.State()), truth) ==>
            Trusted(cache.State(), truth) && RegionRead(r, selection.value, size, fill, chosen))
  {
    selection, log := None, [];
    var checked := CheckGeometry(index, size);
    if checked.Err? {
      return Err(checked.error), None, [];
    }
    if !Positive(region.count) {
      return Ok([]), None, [];
    }
    var selected := Select(index, region, index.extent);
    if selected.Err? {
      return Err(selected.error), None, [];
    }
    selection := Some(selected.value);
    ghost var truth := ContentsOf(source, pipeline, index, Product(index.chunk) * size);
    ghost var chosen := SelectedContents(source, pipeline, selected.value, Product(index.chunk) * size);
    r, log := ReadSelection(source, pipeline, selected.value, size, fill, length, cache, pass, chosen, truth);
  }

  /** A region read returns the corresponding bytes of the whole read, element by element. */
  lemma RegionReadIsCut(selection: Selection, size: nat, fill: Option<seq<byte>>, truth: Truth, g: seq<nat>, b: nat)
    requires selection.Valid() && size > 0 && |truth| == |selection.index.infos| && AllDecode(truth)
    requires InBox(g, selection.region.count) && b < size
    ensures forall k :: 0 <= k < |selection.ordinals| ==> selection.ordinals[k] < |truth|
    ensures var part, whole := RegionOf(selection, size, fill, Chosen(truth, selection.ordinals)),
                               Dataset(selection.index, size, fill, truth);
      var s, count, extent := Shift(g, selection.region.start), selection.region.count, selection.index.extent;
      && InBox(s, extent)
      && ByteIndex(g, count, size, b) < |part| && ByteIndex(s, extent, size, b) < |whole|
      && part[ByteIndex(g, count, size, b)] == whole[ByteIndex(s, extent, size, b)]
  {
    var index, region := selection.index, selection.region;
    var coords, payloads := Coords(index.infos, |index.extent|), Payloads(truth);
    OrdinalsWithin(selection);
    forall i | 0 <= i < |region.count| ensures region.count[i] > 0 {
      assert g[i] < region.count[i];
    }
    assert Payloads(Chosen(truth, selection.ordinals)) == Pick(payloads, selection.ordinals);
    RegionFromSelection(coords, payloads, index.chunk, index.extent, region, size, Pattern(fill));
    RegionIsCut(coords, payloads, index.chunk, index.extent, region, size, Pattern(fill), g, b);
  }
}
