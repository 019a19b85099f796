# The chunk engine of hdf5-pure, in Dafny

hdf5-pure reads and writes HDF5 files without the C library. A chunked dataset is stored as
equal-size chunks listed by an index. This project models the code that turns such an index into
bytes, keeps decoded chunks, numbers chunks, and appends to a dataset, and proves what that code
promises.

| files | what they model |
|---|---|
| `Basics`, `Sorting`, `RowMajor`, `Tiling` | arithmetic, sorting, row-major numbering, and the counting arguments for grids |
| `Scatter` | copying one chunk's clipped box into a row-major buffer |
| `Coverage`, `DenseGrid`, `ParsedIndex` | the proof that chunks tile a dataset, and the chunk list |
| `Assembly`, `WholeAssembly` | reading a whole dataset into initialised or uninitialised memory |
| `Region`, `RegionCoverage`, `RegionAssembly` | reading a region from the chunks that overlap it |
| `ChunkCache`, `CacheRuns`, `CacheHistory`, `SteadyState`, `CacheObject` | the cache of decoded chunks: its steps, all its runs, its code |
| `Transparency`, `Duplicates` | what a read through the cache is given for each chunk |
| `Reader`, `RegionReader` | the readers, with and without the cache |
| `Agreement` | what reads return, and exactly when the readers have the same outcome |
| `Rereads`, `ColdReads` | reading again through one cache, and what a first read reads from the source |
| `Spans`, `SpanReader` | coalesced reads of adjacent chunks |
| `ChunkGrid`, `GridCode`, `ImplicitIndex` | slot numbering under a maximum shape, and the index that is only a numbering |
| `Pages` | reading pages of an Extensible Array data block in runs |
| `AppendModel`, `AppendRuns`, `Appender` | the buffered appender: its steps, all its runs, its code |
| `AttributePolicy` | when attribute storage changes form |

Code that changes state is a class or a method, proved against functions on values; what holds of
every input, run or reachable state is proved about those functions. A buffer byte is a cell that
counts its writes, so that "initialised exactly once" is a statement about the buffer. `USIZE_MAX` is
a symbolic pointer width.

Five promises fail on some inputs. Each has such an input and the exact condition under which it
holds.

- A read through an empty cache has the outcome of one without, unless the index lists one coordinate
  more than once: a listing may then be given an earlier one's bytes, even if it does not decode
  itself (`Agreement.ReadersDiffer`, `Agreement.UndecodableServed`, `Agreement.SameOutcomeIff`).
- Spans of a plan are disjoint, unless chunks overlap across a span's budget
  (`Spans.OverlappingSpans`, `Spans.DisjointIffUnbroken`).
- A run of the appender keeps every byte once, unless a write fails after publishing something and
  leaves the length unreadable (`AppendRuns.LosingRun`, `AppendRuns.RunConserves`).
- A refused append leaves the appender as it was, unless it brings a datatype that is new to the
  buffer, which can keep what is buffered from ever being written (`AppendRuns.RefusedKindRun`,
  `AppendRuns.AppendRollsBack`).
- What `plan_dense_grid` accepts is a tiling, unless the slot count exceeds a `u64`
  (`DenseGrid.EmptyPassesForAll`, `DenseGrid.TilingIffUnwrapped`).

## Model

| member | source | states |
|---|---|---|
| `Scatter.PlaceChunk` | src/chunked_read.rs:2750-2865 | `place_chunk`, for every rank and offset: it succeeds exactly when the data hold the last element of the clipped box, and then every byte of the buffer is what the element-by-element copy of that box makes it; every other byte is untouched |
| `Scatter.CopyRun` | src/chunked_read.rs:2868-2881 | one checked run: succeeds exactly when the source range lies in the data and the target range in the output; it then changes exactly the target range, and otherwise nothing, with an overflow error exactly where an end passes `usize::MAX` |
| `Scatter.MergeAxes` | src/chunked_read.rs:2787-2799 | the trailing axes it merges are stored whole and contiguously on both sides, and the run length is their element count |
| `Scatter.CopyOneRun` | src/chunked_read.rs:2807-2815 | the contiguous branch equals the element-by-element copy |
| `Scatter.CopyRows` | src/chunked_read.rs:2541-2622 | the fixed-stride row branch equals the element-by-element copy |
| `Scatter.CopyRuns` | src/chunked_read.rs:2828-2864 | the odometer branch equals the element-by-element copy, and terminates |
| `Scatter.Advance` | src/chunked_read.rs:2852-2863 | the odometer steps to the point with the next row-major number, or says there is none |
| `Scatter.RowMajorStrides` | src/chunked_read.rs:1405-1417 | succeeds exactly when every suffix product it forms fits a `usize`, with the row-major strides |
| `Scatter.CopyScalar` | src/chunked_read.rs:2774-2776 | a dataset without dimensions is one element copied |
| `Scatter.RunAddressable` | src/chunked_read.rs:2884-2902 | the checked offset arithmetic of `place_chunk` never fails between addressable buffers |
| `Scatter.RunIsRow` | src/chunked_read.rs:2829-2851 | a run covers exactly the elements that agree with it on the outer axes, and each sits in the source and the target at the same distance from the run's start |
| `Coverage.ProveCoverage` | src/chunked_read.rs:1824-1880 | `DenseCoverage::new` accepts exactly when rank is at least 1, the products fit, and there is one aligned chunk per grid slot; its last test, covered elements against dataset elements, never rejects |
| `Coverage.CheckedProducts` | src/chunked_read.rs:1832-1842 | succeeds exactly when chunk sides are positive and both running products fit; the third product then fits too |
| `Coverage.LocateChunk` | src/chunked_read.rs:1853-1863 | an aligned chunk is given its row-major slot and its clipped element count, and no other is accepted |
| `Coverage.Mark` | src/chunked_read.rs:1864-1870 | the bitset step tests and sets exactly one slot |
| `Coverage.TilesEachOnce` | src/chunked_read.rs:1813-1822 | chunks accepted as a tiling hold every element of the dataset in exactly one chunk |
| `Coverage.EachOnceTiles` | src/chunked_read.rs:1824-1880 | conversely, aligned chunks that hold every element exactly once are accepted as a tiling |
| `Tiling.VolumeTotal` | src/chunked_read.rs:1848-1875 | the clipped volumes of all grid cells add up to the volume of the box (a sum of products is a product of sums) |
| `Tiling.SeenBound` | src/chunked_read.rs:1848-1875 | distinct cells never add up to more than the box, and add up to it exactly when no other cell has volume |
| `DenseGrid.PlanDenseGrid` | src/chunked_read.rs:1906-1959 | with the unchecked products as they wrap: accepts exactly aligned chunks that are as many as the wrapped slot count, each in a place of its own, and returns them by place; an index past the slots only occurs where the slot count exceeds a `u64` |
| `DenseGrid.SpreadIsTiling` | src/chunked_read.rs:1898-1905 | where the slot count fits a `u64`, exactly the tilings are accepted |
| `DenseGrid.TilingIffUnwrapped` | src/chunked_read.rs:1898-1959 | what is accepted is a tiling if and only if the slot count fits a `u64` |
| `DenseGrid.EmptyPassesForAll` | src/chunked_read.rs:1922-1926 | a grid of 2^64 chunks, for which the empty list is accepted |
| `ParsedIndex.Parse` | src/parsed_chunk_index.rs:51-77 | refuses a chunk with fewer offsets than the rank; otherwise the chunks come in address order, as the same multiset, with a coverage proof exactly when they tile |
| `Assembly.FilledIsWhole` | src/chunked_read.rs:2385-2463 | placing any chunk list over a fill buffer gives each element the bytes of the last chunk that holds it, or the fill pattern |
| `Assembly.TiledIsWhole` | src/chunked_read.rs:2414-2463 | placing a tiling over uninitialised memory writes every byte exactly once, with the payload element at its coordinate in its one chunk |
| `WholeAssembly.BoundedChunkLen` | src/chunked_read.rs:660-673 | succeeds exactly when the running product fits a `u64` and the chunk fits both size limits, with the byte count |
| `WholeAssembly.NewWhole` | src/chunked_read.rs:2385-2411 | succeeds exactly when the geometry is addressable and there is a coverage proof or a fill; uninitialised storage is used exactly under a coverage proof |
| `WholeAssembly.Whole.Place` | src/chunked_read.rs:2414-2437 | accepts exactly a full-size payload for the next descriptor at addressable offsets, and leaves the buffer that placing it makes |
| `WholeAssembly.Whole.Finish` | src/chunked_read.rs:2440-2463 | succeeds exactly when every descriptor was placed, and returns the dataset element by element; a dense buffer has every byte written exactly once |
| `Region.PieceCovers` | src/chunked_read.rs:1272-1312 | a chunk's clipped contribution covers exactly the region's elements that the chunk holds |
| `Region.PiecePuts` | src/chunked_read.rs:1272-1312 | it writes each of them from its coordinate within the chunk |
| `Region.RegionIsCut` | src/chunked_read.rs:949-1047 | a region's bytes are the whole dataset's bytes at the shifted coordinates |
| `Region.SelectionSuffices` | src/parsed_chunk_index.rs:90-161 | leaving out the chunks that do not overlap the region changes no byte of it |
| `Region.RegionFromSelection` | src/parsed_chunk_index.rs:90-161 | reading the region from the selected chunks gives the same bytes as reading it from all of them |
| `Region.CandidateWindow` | src/parsed_chunk_index.rs:195-212 | the window of leading offsets that is searched holds every overlapping chunk |
| `Region.FilledRegion` | src/chunked_read.rs:1076-1097 | placing any selected chunks over a fill buffer gives the region element by element |
| `Region.CoveredRegion` | src/chunked_read.rs:1162-1185 | under complete coverage every byte of the uninitialised region buffer is written exactly once, with the right value |
| `RegionCoverage.CoversSelection` | src/parsed_chunk_index.rs:214-268 | accepts exactly the distinct aligned chunks that hold every element of the region once, when the element count fits a `u64` |
| `RegionCoverage.CountedAll` | src/parsed_chunk_index.rs:214-268 | distinct aligned chunks whose clipped volumes add up to the region's hold every element of it exactly once |
| `RegionCoverage.OnceCounted` | src/parsed_chunk_index.rs:214-268 | conversely, aligned chunks that hold every element once have clipped volumes that add up |
| `RegionCoverage.DenseSelection` | src/parsed_chunk_index.rs:150-161 | for a dense dataset the chunks selected for any region hold each of its elements exactly once |
| `RegionAssembly.ClipChunk` | src/chunked_read.rs:1272-1312 | the clipped box and its start in the chunk; the checked arithmetic never overflows |
| `RegionAssembly.ScatterChunk` | src/chunked_read.rs:1272-1400 | both the band and the general branch copy exactly the contribution, and neither fails on a full-size payload |
| `RegionAssembly.CopyRowBand` | src/chunked_read.rs:1196-1223 | the row-band geometry copies exactly the same contribution, scalars included |
| `RegionAssembly.CopyBand` | src/chunked_read.rs:1317-1371 | one contiguous copy equals the element-by-element copy wherever the band condition holds |
| `RegionAssembly.Select` | src/parsed_chunk_index.rs:90-161 | refuses mismatched geometry; selects exactly the overlapping chunks in descriptor order; of a nonempty region complete coverage is claimed exactly when the dataset is dense, or the element count fits a `u64` and distinct aligned chunks hold every element once |
| `RegionAssembly.NewAssembler` | src/chunked_read.rs:1076-1117 | succeeds exactly when a chunk is within the size limit, fill is there where coverage is not proved, and the output is addressable; the row-band geometry is chosen exactly under its condition |
| `RegionAssembly.NonemptyFits` | src/chunked_read.rs:1243-1270 | a nonempty region whose bytes are addressable has addressable sides and strides |
| `RegionAssembly.Assembler.Place` | src/chunked_read.rs:1129-1155 | accepts exactly a full-size payload for the next selected chunk, and places its contribution |
| `RegionAssembly.Assembler.Finish` | src/chunked_read.rs:1162-1185 | succeeds exactly when every selected chunk was placed, and returns the region element by element; complete coverage means one write per byte |
| `CacheRuns.ReachableInv` | src/chunk_cache.rs:394-425 | in every reachable state coordinates are distinct, the byte total is the sum of held lengths and both budgets hold |
| `ChunkCache.FeasibleIsExact` | src/chunk_cache.rs:619-668 | the test before eviction is exact: when it refuses no choice of victims makes room, and when it admits the eviction loop ends with room |
| `ChunkCache.VictimExists` | src/chunk_cache.rs:643-664 | the "cannot make room" branch of the eviction loop is unreachable |
| `ChunkCache.EvictOldest` | src/chunk_cache.rs:647-668 | victims are always the least recently used reclaimable slots, and nothing that must be kept goes |
| `CacheRuns.EvictMinimal` | src/chunk_cache.rs:647-668 | no more is evicted than needed: with one victim still held there was no room |
| `CacheRuns.RefusedKeeps` | src/chunk_cache.rs:583-640 | a refused offer leaves held chunks, owners, byte total and eviction count unchanged |
| `CacheRuns.StoredOffer` | src/chunk_cache.rs:583-672 | a stored offer ends with the chunk in the last slot, owned by the pass, after the least eviction |
| `CacheRuns.LruNeverRejected` | src/chunk_cache.rs:606-640 | an insert by the LRU rule is never rejected for lack of room |
| `CacheRuns.LruHitKeepsOwners` | src/chunk_cache.rs:543-559 | a hit by the LRU rule changes no owner |
| `CacheRuns.Acquire` | src/chunk_cache.rs:531-563 | a real pass comes to own what it stores and what it is served |
| `CacheRuns.OwnershipIsHistory` | src/chunk_cache.rs:531-563 | in every run from an empty cache, a held chunk is owned by the pass that last stored it or, as a real pass, was served it |
| `CacheRuns.PassKeepsItsChunks` | src/chunk_cache.rs:361-374 | after any run, whatever passes are interleaved in it, an insert under a pass never evicts a held chunk that this pass was the last to store or be served |
| `CacheHistory.KeptIffRoom` | src/chunk_cache.rs:583-672 | an offered chunk that fits the byte budget and is not held is kept if and only if some choice of slots to evict, which leaves the pass its own, makes room; otherwise it counts as a rejection and nothing else changes |
| `CacheHistory.OtherOffers` | src/chunk_cache.rs:583-605 | a disabled cache ignores an offer, a chunk over the byte budget is only counted, and one that is held changes no contents and no counter |
| `CacheHistory.CountersAreHistory` | src/chunk_cache.rs:200-264 | in every run, hits, misses, rejections and oversize offers are counted as what was held before and after each step says, and every chunk ever stored is held, was evicted or was invalidated |
| `CacheHistory.RecencyIsHistory` | src/chunk_cache.rs:531-563 | in every run, of two held chunks the one accessed earlier is the one whose last use, by being served, stored or offered again, is earlier in the run |
| `CacheHistory.EvictsLeastRecentlyUsed` | src/chunk_cache.rs:643-668 | after any run, what an offer evicts was last used before every chunk that it leaves and might have evicted, and is not one that its pass was the last to store or be served |
| `SteadyState.RepeatedReads` | src/chunk_cache.rs:340-352 | from an empty cache of any budgets, repeated reads of N distinct equal-size chunks keep the first k, the most the budgets admit; every later read has exactly k hits and N - k misses, each of these refused as rejected, as oversize or by a disabled cache, and nothing is ever evicted; in closed form for any number of reads |
| `SteadyState.RefusedReads` | src/chunk_cache.rs:586-594 | chunks that a cache cannot keep at all, for want of a budget or of bytes, are never stored, and every read of them misses |
| `CacheObject.CacheInner.constructor` | src/chunk_cache.rs:452-466 | a new cache is empty with the given budgets |
| `CacheObject.CacheInner.BeginPass` | src/chunk_cache.rs:566-570 | hands out a number that owns no slot and is not the LRU marker |
| `CacheObject.CacheInner.WithDecompressed` | src/chunk_cache.rs:531-563 | takes exactly the lookup step, and returns what the slot held |
| `CacheObject.CacheInner.CountReclaimable` | src/chunk_cache.rs:625-631 | the fold counts exactly the slots and bytes that eviction may free |
| `CacheObject.CacheInner.FindVictim` | src/chunk_cache.rs:650-657 | finds the least recently used reclaimable slot |
| `CacheObject.CacheInner.MakeRoom` | src/chunk_cache.rs:647-668 | the eviction loop ends with room, in the state of the eviction step |
| `CacheObject.CacheInner.Reserve` | src/chunk_cache.rs:583-672 | takes exactly the reservation step, and says whether the chunk is to be stored |
| `CacheObject.CacheInner.PutDecompressed` | src/chunk_cache.rs:681-730 | takes exactly the offer step |
| `CacheObject.CacheInner.Clear` | src/chunk_cache.rs:738-748 | drops every chunk, counting each as an invalidation |
| `CacheObject.CacheInner.DecompressedCoords` | src/chunk_cache.rs:708-714 | lists exactly the coordinates held |
| `Transparency.FaithfulRun` | src/chunk_cache.rs:531-748 | over every run in which readers offer what they decoded, the cache holds only what chunks decode to |
| `Transparency.GivenIsTruth` | src/chunked_read.rs:2174-2266 | a read of some or all chunks of an index through a faithful cache, whatever its budgets, is given every chunk as decoding would give it, when no coordinate is listed with two different contents |
| `Duplicates.GivenExactly` | src/chunked_read.rs:2226-2262 | through an empty cache of any budgets, a real pass over equal-size chunks, some of which may not decode, gives each listing of a kept coordinate the bytes of the first listing there that decoded, if that came earlier, and every other listing its own bytes or none; kept are the first k coordinates that decode, where k is what the budgets admit |
| `Duplicates.GivenOwnIff` | src/chunked_read.rs:2226-2262 | so each listing is given its own bytes, or none if it does not decode, if and only if every listing of those coordinates repeats the first that decodes there |
| `Agreement.SameBytesIff` | src/chunked_read.rs:2226-2266 | of listings that all decode, the dataset through the cache is the one without it if and only if every listing of a kept coordinate agrees with the first one there in each byte it contributes |
| `Agreement.AllGivenIff` | src/chunked_read.rs:2226-2262 | a read is given bytes for every listing if and only if each listing that does not decode follows a kept one of its coordinate that does |
| `Agreement.SameOutcomeIff` | src/chunked_read.rs:2174-2266 | through an empty cache of any budgets the outcome, errors included, is that of an uncached read if and only if it does not rest on the chunks, or all listings decode and those of kept coordinates agree in what they contribute, or some listing that does not decode is not served |
| `Agreement.ReadersAgreeIff` | src/chunked_read.rs:2174-2266 | the same of any results that meet the contracts of the cached and the uncached reader |
| `Agreement.UndecodableServed` | src/chunked_read.rs:2235-2239 | one coordinate listed three times, of which the second does not decode: the cached read succeeds and the uncached one fails |
| `Agreement.AlignedShows` | src/chunked_read.rs:2226-2266 | among aligned chunks a listing contributes exactly when it is the last one of its coordinate |
| `Agreement.ReadersDiffer` | src/chunked_read.rs:2226-2266 | one coordinate listed twice: the cached read returns the first listing's byte and the uncached one the last listing's, whatever they are |
| `Agreement.DifferenceOutOfView` | src/chunked_read.rs:2226-2266 | different bytes past the edge of the dataset make no difference |
| `Transparency.ClearedIsFaithful` | src/chunk_cache.rs:738-748 | after a commit's `clear` the cache is faithful to whatever the chunks then hold |
| `Reader.Load` | src/chunked_read.rs:93-141 | a chunk loads if and only if its stored bytes lie in the source and the pipeline turns them into its full logical size, and what loads is what the pipeline made |
| `Agreement.ReadShowsChunk` | src/chunked_read.rs:690-728 | byte for byte, what a successful read returns of an element is what the pipeline made of the stored bytes of the last chunk that holds it, at the element's coordinate in that chunk |
| `Agreement.ReadShowsFill` | src/chunked_read.rs:2385-2411 | an element that no chunk holds is the fill pattern |
| `Agreement.ReadSucceedsIff` | src/chunked_read.rs:690-728 | where the geometry is sound, the extent is not empty, and fill is there unless the chunks cover it, a read succeeds if and only if every listed chunk lies in the source and the pipeline turns it into its full size |
| `Reader.ReadUncached` | src/chunked_read.rs:690-728 | refuses a rank mismatch and a chunk over the size limits, even for a dataset without elements, which is otherwise empty; then returns the dataset element by element exactly when the geometry is addressable, fill is there if needed, and every chunk decodes |
| `Reader.ReadCached` | src/chunked_read.rs:1433-1522 | the cached readers, resident and with coalesced spans, have the outcome of the uncached one over the bytes the cache gives; with a trusted cache these are the decoded ones, errors included, and the cache stays trusted; a success has taken the cache through one pass over every chunk, and has read from the source exactly what the chunks it missed request of the planned spans |
| `Rereads.ReadTimesNew` | src/chunk_cache.rs:340-352 | any number of calls through a new cache of any budgets, over distinct chunks that decode: every call returns the dataset, and the chunks kept and the counters are those of the steady state |
| `ColdReads.ColdReadsOnce` | src/chunk_span.rs:3-14 | a first read, through an empty cache, of distinct chunks that are nonempty and do not overlap reads, in address order, exactly the merged spans, each once, when coalesced, and exactly the chunks' own ranges otherwise |
| `Reader.Obtain` | src/chunked_read.rs:1495-1513 | a hit gives what the cache held, a miss what the chunk decodes to, by span or alone; a decodable chunk is never refused while the spans lie in the source |
| `Reader.PlanSpans` | src/chunked_read.rs:808-818 | plans exactly the chunks that the cache does not hold: the spans are their merged ranges if any two can share a read, and none otherwise; they lie within the source whenever the chunks do |
| `RegionReader.ReadSelection` | src/chunked_read.rs:1004-1046 | over the bytes the cache gives for the selected chunks: succeeds exactly when each is given full-size bytes and fill is there if needed, with the region element by element; with a trusted cache these are the decoded ones, and the cache stays trusted; a success has taken the cache through a visit of every selected chunk, and has read exactly what those it missed request of the planned spans |
| `RegionReader.ReadRegion` | src/chunked_read.rs:949-1046 | the region reader of a window session: a rank mismatch or a chunk over the size limit is refused, then an empty region is empty, then other bad geometry is refused, and otherwise the outcome of its selection |
| `RegionReader.RegionReadIsCut` | src/chunked_read.rs:949-1046 | what a region read returns is, byte for byte, what the whole read returns at the shifted coordinates |
| `Spans.MergePlan` | src/chunk_span.rs:58-111 | every planned chunk lies in a span; spans hold only planned bytes; each is within the budget or is one planned chunk |
| `Spans.PlanExact` | src/chunk_span.rs:58-111 | an address is in some span if and only if it is in some planned chunk |
| `Spans.SpansPartition` | src/chunk_span.rs:58-111 | for disjoint chunks every planned byte is in exactly one span |
| `Spans.DisjointIffUnbroken` | src/chunk_span.rs:42-52 | the spans are disjoint, as the field's comment says, if and only if no chunk starts inside the span being built and ends past its budget |
| `Spans.MergesSome` | src/chunk_span.rs:98-102 | there are fewer spans than chunks if and only if some chunk joins the span before it |
| `Spans.OverlappingSpans` | src/chunk_span.rs:42-52 | three overlapping chunks that the planner accepts and turns into two overlapping spans, contrary to the field's comment |
| `SpanReader.Plan` | src/chunk_span.rs:58-111 | sorts and merges the chunks' ranges; gives a reader exactly when every end fits and some chunk joins the one before it |
| `SpanReader.Reader.SpanContaining` | src/chunk_span.rs:160-176 | the binary search returns a span that contains the request, and with disjoint spans the one that does |
| `SpanReader.Reader.ChunkBytes` | src/chunk_span.rs:122-158 | in any order of requests a success returns exactly the source's bytes, out of the held span, the request's own span or a read of its own, and logs what was read; it succeeds whenever request and spans lie in the source |
| `SpanReader.FetchInOrder` | src/chunk_span.rs:122-158 | disjoint nonempty chunks requested once each in address order fetch each span once and nothing else |
| `ChunkGrid.EncodeDecode` | src/chunk_grid.rs:373-389 | mixed-radix digits of a number re-encode to it |
| `ChunkGrid.DecodeEncode` | src/chunk_grid.rs:250-268 | digits below their radix past the first are the digits of their number |
| `ChunkGrid.SlotOfCoords` | src/chunk_grid.rs:373-389 | decoding a slot and numbering its coordinates gives that slot, for every rotation |
| `ChunkGrid.CoordsOfSlot` | src/chunk_grid.rs:250-268 | coordinates within the maximum in every rotated position but the first are those at their slot |
| `ChunkGrid.NumberInjective` | src/chunk_grid.rs:250-268 | different coordinates have different slots |
| `ChunkGrid.BoundedSlots` | src/chunk_grid.rs:145-246 | a bounded grid numbers its chunks below `slots` |
| `ChunkGrid.BoundedCoords` | src/chunk_grid.rs:145-246 | every slot below `slots` is the number of one of its chunks |
| `ChunkGrid.NumberingOrder` | src/chunk_grid.rs:11-28 | slots are numbered in row-major order of the chunk coordinates, the unlimited dimension, if it is to come first, ahead of the others, which keep their order |
| `ChunkGrid.NumberingIsStable` | src/chunk_grid.rs:11-28 | grids built for one chunk shape and one maximum number every chunk alike, whatever their current extents |
| `ChunkGrid.UnlimitedIsFirst` | src/chunk_grid.rs:453-460 | the rotation brings the unlimited dimension, wherever it is, to the front |
| `GridCode.NewGrid` | src/chunk_grid.rs:145-236 | succeeds exactly on the admissible shapes, with the counts, the rotation, the multipliers and the slot count of the maximum shape |
| `GridCode.SlotOf` | src/chunk_grid.rs:250-268 | succeeds exactly when the grid numbers its chunks, ranks match and the number fits, with that number |
| `GridCode.GrowthAppends` | src/chunk_grid.rs:11-28 | for two grids built for one chunk shape and one maximum, the second grown along the unlimited dimension: every old chunk keeps its slot, and every new chunk has a later slot than every old one |
| `GridCode.OffsetsAt` | src/chunk_grid.rs:373-389 | succeeds exactly when every offset fits, with the corner of the chunk at the slot |
| `GridCode.OffsetsInExtent` | src/chunk_grid.rs:280-290 | fails exactly on a grid that cannot be numbered or offsets that do not fit; a chunk is returned exactly when the dataset reaches it, and it is the aligned chunk of that slot |
| `GridCode.SlotsOf` | src/chunk_grid.rs:304-329 | succeeds exactly when the current chunks can be counted and the last one numbered |
| `GridCode.SlotsInExtent.Next` | src/chunk_grid.rs:406-436 | call `n` returns the chunk with row-major number `n` of the current extent and its slot |
| `GridCode.VisitsOnce` | src/chunk_grid.rs:293-329 | the iteration visits each chunk of the extent exactly once, in lexicographic order |
| `ImplicitIndex.GenerateImplicit` | src/chunked_read.rs:587-614 | succeeds exactly when chunk size, numbering and every address fit, listing each chunk of the extent at its slot's address |
| `ImplicitIndex.ImplicitDisjoint` | src/chunked_read.rs:587-614 | chunks of an Implicit index whose extent is within its maximum occupy disjoint byte ranges |
| `ImplicitIndex.ImplicitPacked` | src/chunked_read.rs:594-613 | the chunk of slot 0 is at the array's address, and the chunk of each slot ends where the next one's begins |
| `ImplicitIndex.ImplicitFills` | src/chunked_read.rs:594-613 | at a bounded maximum extent the chunks are exactly the bytes of the array: one chunk size per slot from its address |
| `ImplicitIndex.ImplicitTiles` | src/chunked_read.rs:587-614 | an Implicit index lists a tiling, so its whole read needs no fill |
| `Pages.ReadDataBlock` | src/extensible_array.rs:178-213 | succeeds exactly when planning does, the prefix lies in the file and parses, and every entry is well formed, within the file and accepted; then every page was visited once, in order, with its own bytes, and the reads are maximal runs; an unpaged block is one read |
| `Pages.ExtendRun` | src/extensible_array.rs:216-232 | the run takes pages while they are adjacent and the length fits, and stops only where the next could not be taken |
| `Pages.VisitPages` | src/extensible_array.rs:244-250 | each page is visited with the bytes of its own range, out of the region that holds it |
| `Pages.ReadsExactly` | src/extensible_array.rs:173-177 | the bytes read are exactly those of the prefix and of the pages; no uninitialised page is read |
| `Pages.ReadsConserve` | src/extensible_array.rs:173-213 | as many bytes are read as the prefix and the pages have |
| `Pages.FewestReads` | src/extensible_array.rs:173-232 | no other way to read the pages in order without gaps takes fewer reads |
| `AppendRuns.RunConserves` | src/appender.rs:761-781 | over every run, published bytes followed by pending or discarded ones are the dataset's first bytes followed by every input not rolled back, if and only if no write of the run fails after publishing something and leaves the length unreadable |
| `AppendRuns.LosingRun` | src/appender.rs:761-781 | every new appender without a maximum has such a run: one chunk, of which one element lands |
| `AppendRuns.WriteConserves` | src/appender.rs:761-781 | one write keeps every byte exactly once if and only if it lands, publishes nothing, or leaves the length readable |
| `AppendRuns.AppendRollsBack` | src/appender.rs:699-724 | an append that fails before the write path restores everything but the recorded datatype, and that too if and only if the appender was unusable, or the call has no datatype, the recorded one, or one more in conflict |
| `AppendRuns.FlushRollsBack` | src/appender.rs:638-666 | so does a flush |
| `AppendRuns.AppendIff` | src/appender.rs:621-636 | an append succeeds if and only if the appender is usable, the input can be encoded, the dataset can hold it to the byte, and the write lands if there is a whole chunk to write |
| `AppendRuns.ExceedsIff` | src/appender.rs:700-717 | the test against the maximum is exact to the byte, partial elements included |
| `AppendRuns.FlushIff` | src/appender.rs:638-666 | a flush succeeds if and only if the appender is usable, the buffer is whole elements and, unless it is empty, the write lands and, under lossy filters that may not re-encode, ends on a chunk boundary; it has then published the whole buffer |
| `AppendRuns.FinishIff` | src/appender.rs:673-677 | `finish` succeeds if and only if the appender is usable, the buffer is whole elements and the write lands unless it is empty; it has then published the whole buffer, partial chunk included |
| `AppendRuns.DropPublishes` | src/appender.rs:679-686 | the drop of an active appender publishes exactly what `finish` would have |
| `AppendRuns.KindsAreHistory` | src/edit/append.rs:209-216 | over every run, the recorded datatype is that of the first typed call and there is a conflict exactly when a later one differed, appends that were refused included |
| `AppendRuns.ConflictPublishesNothing` | src/edit/append.rs:362-373 | from a conflict on, no run publishes anything |
| `AppendRuns.RefusedKindBlocks` | src/appender.rs:699-724 | a refused append of another datatype changes nothing but the conflict, and no later run publishes what was already buffered |
| `AppendRuns.RefusedKindRun` | src/appender.rs:699-724 | input past the maximum, of another datatype: it is refused, and a flush that would have published the buffer then publishes nothing |
| `AppendRuns.NoWriteAfterFailure` | src/appender.rs:673-735 | after one failed write no further write is attempted in any run, by `finish` and drop included, and the unwritten bytes stay available |
| `AppendRuns.RunInv` | src/appender.rs:595-759 | over every run that begins within a fixed maximum the dataset never exceeds it, nor does the dataset with an active buffer; under lossy filters that may not re-encode, an active appender leaves the length chunk-aligned |
| `AppendRuns.RunWithinMaximum` | src/appender.rs:699-719 | no run takes the dataset past its maximum: if it is longer, it was so to begin with and was never changed |
| `AppendRuns.AppendAligns` | src/appender.rs:747-759 | after a successful append less than a chunk is buffered, and an automatic write ended on a chunk boundary |
| `AppendRuns.WritesBeginAligned` | src/appender.rs:638-666 | such an appender begins every write, the terminal one included, on a chunk boundary, so no committed value is re-encoded |
| `AppendModel.TakeAligns` | src/appender.rs:747-759 | an automatic write takes at least one element, ends on a boundary and leaves less than a chunk |
| `Appender.BufferState.Open` | src/appender.rs:577-618 | opens exactly on readable geometry outside a SWMR session, with a nonzero chunk, a claim, and no lossy tail that may not be re-encoded, a dataset past its maximum included; the appender starts active and empty |
| `Appender.BufferState.RecordKind` | src/edit/append.rs:209-216 | records the first datatype, and a conflict when a later one differs |
| `Appender.BufferState.Append` | src/appender.rs:621-636 | takes exactly the append step, and keeps the invariant |
| `Appender.BufferState.CheckAndWrite` | src/appender.rs:699-719 | refuses exactly input past the maximum, and otherwise takes the automatic write step |
| `Appender.BufferState.WriteCompleteChunks` | src/appender.rs:747-759 | takes exactly the automatic write step |
| `Appender.BufferState.WritePrefix` | src/appender.rs:761-781 | takes exactly the write step: a conflict of datatypes fails before anything is published; a failure poisons, and what is seen to have landed is dropped |
| `Appender.BufferState.Flush` | src/appender.rs:638-666 | takes exactly the flush step |
| `Appender.BufferState.FinishAll` | src/appender.rs:673-677 | takes exactly the terminal flush, and stops |
| `Appender.BufferState.Discard` | src/appender.rs:668-671 | hands back exactly the pending bytes, and stops |
| `Appender.BufferState.Teardown` | src/appender.rs:680-686 | flushes an active nonempty buffer only, and stops |
| `AttributePolicy.FromPrefix` | src/attribute_policy.rs:26-46 | refuses exactly a minimum above the maximum, and yields the stored thresholds, or 8 and 6 where none are stored |
| `AttributePolicy.DenseIff` | src/attribute_policy.rs:54-84 | for all inputs: a set is dense if and only if it is nonempty and compact storage is infeasible or not allowed, or the count rose to the ceiling, or dense storage has not fallen to the floor |
| `AttributePolicy.ChangesAreSeparated` | src/attribute_policy.rs:54-84 | in every run the counts at two consecutive changes of form differ by at least the gap between the thresholds |
| `AttributePolicy.GapIsAttained` | src/attribute_policy.rs:54-84 | that bound is the best possible |
| `AttributePolicy.ChangesCostMovement` | src/attribute_policy.rs:54-84 | over every run each change of form after the first is paid for by that much movement of the count |
| `AttributePolicy.UnchangedCountKeepsForm` | src/attribute_policy.rs:54-84 | an unchanged nonzero count never changes the form |

## Left out

- PlanDenseGrid: wraps as a build without overflow checks does; one with them stops at the first product past a `u64`.
- ReadCached: says nothing of an error of the coalesced reader over a cache that is not trusted, when some listed chunk is stored past the end of the source: which of several overlapping spans with one start is read is up to the standard library's binary search.
- ReadRegion: the same of a selected chunk stored past the end of the source, through a cache that is not trusted. A region is a box within the dataset with an addressable byte length.
- GivenExactly: chunks of equal size, as a decoded chunk has; other sizes cannot reach the cache. A cache that already holds chunks is covered by `GivenIsTruth` only.
- RunConserves: other writers of the same dataset are left out.
- CoversSelection: finds duplicate coordinates by comparing pairs, where the original sorts and compares neighbours.
- Select: filters every chunk, where the original first narrows to a window of a list sorted by leading offset; `CandidateWindow` shows the window loses nothing. The retained sort itself is left out.
- Parse: chunks at equal addresses come in some order; the original's unstable sort may choose another.
- Mark: the bitset is an array of 64-bit rows of booleans, not of words.
- ReadDataBlock: the pages listed before and after parsing the block's prefix are taken to be the same.
- WithDecompressed: returns the bytes instead of calling back under the lock.
- Clock ticks, pass numbers and counters of the cache are unbounded; the original's 64-bit wrap-around is not modelled.
- Locking and threads: each cache method is one atomic step.
- Filter codecs: decoding is any deterministic function followed by the full-size check; the reusable filter scratch space is not modelled.
- Which filters a partial edge chunk skips is part of that function.
- Sources: an immutable byte sequence no longer than `usize::MAX`; seeking, borrowing and base addresses are left out.
- Index walkers (B-trees, Fixed and Extensible Array blocks): chunk lists and page ranges are inputs.
- The cached parsed index, and a dataset whose index is not allocated.
- The editor behind `append_prebuilt`: a write lands, or fails with some leading elements published.
- Whether the recorded datatype is the dataset's is part of the editor's outcome; whether the session claim is free is an input.
- Which error is returned: error values are modelled coarsely, and equality of errors between readers is not claimed.
- The decoded-chunk visitor and raw-storage span collection: they would add easier members of the same kind.
- Checked arithmetic that is proved unable to overflow is written as an assertion, not as a branch.
