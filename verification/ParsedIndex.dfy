/** The chunk list of one dataset, in address order, with its coverage proof (src/parsed_chunk_index.rs). */
module ParsedIndex {
  import opened Basics
  import opened Coverage
  import opened DenseGrid
  import opened Sorting

  function Address(info: ChunkInfo): nat { info.address }

  datatype Index = Index(infos: seq<ChunkInfo>, chunk: seq<nat>, extent: seq<nat>, coverage: Option<DenseCoverage>) {
    ghost predicate Valid() {
      && HaveRank(infos, |extent|) && Sorted(infos, Address)
      && (coverage.Some? ==> coverage.value == DenseCoverage(chunk, extent) && Tiles(Coords(infos, |extent|), chunk, extent))
    }
  }

  lemma RankOfSorted(sorted: seq<ChunkInfo>, infos: seq<ChunkInfo>, rank: nat)
    requires multiset(sorted) == multiset(infos)
    ensures HaveRank(infos, rank) <==> HaveRank(sorted, rank)
    ensures |sorted| == |infos|
  {
    SameElements(sorted, infos);
    assert forall j :: 0 <= j < |infos| ==> infos[j] in sorted;
    assert forall j :: 0 <= j < |sorted| ==> sorted[j] in infos;
  }

  /** `ParsedChunkIndex::new`. */
  method Parse(infos: seq<ChunkInfo>, chunk: seq<nat>, extent: seq<nat>) returns (r: Result<Index>)
    requires |infos| <= USIZE_MAX
    ensures r.Ok? <==> HaveRank(infos, |extent|)
    ensures r.Err? ==> r.error == Internal
    ensures r.Ok? ==>
      && r.value.Valid() && multiset(r.value.infos) == multiset(infos)
      && r.value.chunk == chunk && r.value.extent == extent
      && (r.value.coverage.Some? <==>
            |chunk| > 0 && Tiles(Coords(r.value.infos, |extent|), chunk, extent) && Fits64(chunk) && Fits64(extent))
  {
    if j :| 0 <= j < |infos| && |infos[j].offsets| < |extent| {
      return Err(Internal);
    }
    var sorted := SortBy(infos, Address);
    SortByOrders(infos, Address);
    RankOfSorted(sorted, infos, |extent|);
    var coverage := ProveCoverage(Coords(sorted, |extent|), chunk, extent);
    r := Ok(Index(sorted, chunk, extent, coverage));
  }
}
