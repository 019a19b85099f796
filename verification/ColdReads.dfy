/**
 What a first read of a dataset reads from the source (src/chunked_read.rs, src/chunk_span.rs): each
 chunk once, and with coalesced reads each span once.
 */
module ColdReads {
  import opened Basics
  import opened DenseGrid
  import opened ParsedIndex
  import opened ChunkCache
  import opened CacheRuns
  import opened Transparency
  import opened Sorting
  import opened Spans
  import opened SpanReader
  import opened Reader

  // ---- An empty cache serves nothing ----

  /** What is held after one chunk is that chunk, or was held before. */
  lemma {:induction false} ServeHolds(s: Cache, pass: nat, entry: (Coord, Option<seq<byte>>), coord: Coord)
    requires Inv(s) && pass <= s.pass && Holds(Serve(s, pass, entry).0, coord)
    ensures coord == entry.0 || Holds(s, coord)
  {
    var t := Serve(s, pass, entry).0;
    var looked, i := Lookup(s, pass, entry.0).0, Find(t.slots, coord);
    StepInv(s, LookupOp(pass, entry.0));
    if entry.1.Some? && Lookup(s, pass, entry.0).1.None? {
      StepSlot(looked, OfferOp(pass, entry.0, entry.1.value), i);
    }
    forall k | 0 <= k < |looked.slots| ensures k < |s.slots| && s.slots[k].coord == looked.slots[k].coord {}
  }

  lemma {:induction false} HeldIsListed(s: Cache, pass: nat, truth: Truth, n: nat, coord: Coord)
    requires Inv(s) && pass <= s.pass && s.slots == [] && n <= |truth| && Holds(ServeTo(s, pass, truth, n), coord)
    ensures exists j :: 0 <= j < n && truth[j].0 == coord
  {
    if n > 0 {
      HeldNext(s, ServeTo(s, pass, truth, n - 1), pass, truth, n, coord);
      if coord != truth[n - 1].0 {
        HeldIsListed(s, pass, truth, n - 1, coord);
      }
    }
  }

  lemma {:induction false} HeldNext(s: Cache, t: Cache, pass: nat, truth: Truth, n: nat, coord: Coord)
    requires Inv(s) && pass <= s.pass && 0 < n <= |truth| && t == ServeTo(s, pass, truth, n - 1)
    requires Holds(ServeTo(s, pass, truth, n), coord)
    ensures coord == truth[n - 1].0 || Holds(t, coord)
  {
    ServesInv(s, pass, truth, n - 1);
    ServeHolds(t, pass, truth[n - 1], coord);
  }

  lemma {:induction false} ServesInv(s: Cache, pass: nat, truth: Truth, n: nat)
    requires Inv(s) && pass <= s.pass && n <= |truth|
    ensures Inv(ServeTo(s, pass, truth, n)) && pass <= ServeTo(s, pass, truth, n).pass
  {
    if n > 0 {
      ServesInv(s, pass, truth, n - 1);
      ServeInv(ServeTo(s, pass, truth, n - 1), pass, truth[n - 1]);
    }
  }

  predicate DistinctCoords(truth: Truth) {
    forall i, j :: 0 <= i < j < |truth| ==> truth[i].0 != truth[j].0
  }

  lemma {:induction false} ColdMisses(s: Cache, pass: nat, truth: Truth, n: nat)
    requires Inv(s) && pass <= s.pass && s.slots == [] && n < |truth| && DistinctCoords(truth)
    ensures !Holds(ServeTo(s, pass, truth, n), truth[n].0)
  {
    if Holds(ServeTo(s, pass, truth, n), truth[n].0) {
      HeldIsListed(s, pass, truth, n, truth[n].0);
      assert false;
    }
  }

  // ---- Every chunk is requested, in index order ----

  /** What is read from the source for the first `n` requests. */
  function Requests(spans: seq<Range>, ranges: seq<Range>, n: nat): Fetches
    requires n <= |ranges|
  {
    if n == 0 then Fetches(None, []) else Request(spans, Requests(spans, ranges, n - 1), ranges[n - 1])
  }

  function RangesOfIndex(infos: seq<ChunkInfo>): (ranges: seq<Range>)
    ensures |ranges| == |infos|
  {
    seq(|infos|, j requires 0 <= j < |infos| => RangeOf(infos[j]))
  }

  lemma {:induction false} ColdTrace(s: Cache, pass: nat, truth: Truth, infos: seq<ChunkInfo>, spans: seq<Range>, n: nat)
    requires Inv(s) && pass <= s.pass && s.slots == [] && n <= |truth| == |infos| && DistinctCoords(truth)
    ensures TraceTo(s, pass, truth, infos, spans, n) == Requests(spans, RangesOfIndex(infos), n)
  {
    if n > 0 {
      ColdTrace(s, pass, truth, infos, spans, n - 1);
      ColdNext(s, pass, truth, infos, spans, n);
    }
  }

  lemma {:induction false} ColdNext(s: Cache, pass: nat, truth: Truth, infos: seq<ChunkInfo>, spans: seq<Range>, n: nat)
    requires Inv(s) && pass <= s.pass && s.slots == [] && 0 < n <= |truth| == |infos| && DistinctCoords(truth)
    requires TraceTo(s, pass, truth, infos, spans, n - 1) == Requests(spans, RangesOfIndex(infos), n - 1)
    ensures TraceTo(s, pass, truth, infos, spans, n) == Requests(spans, RangesOfIndex(infos), n)
  {
    ColdMisses(s, pass, truth, n - 1);
    MissedTrace(s, pass, truth, infos, spans, n);
  }

  lemma {:induction false} MissedTrace(s: Cache, pass: nat, truth: Truth, infos: seq<ChunkInfo>, spans: seq<Range>, n: nat)
    requires 0 < n <= |truth| == |infos| && !Holds(ServeTo(s, pass, truth, n - 1), truth[n - 1].0)
    requires TraceTo(s, pass, truth, infos, spans, n - 1) == Requests(spans, RangesOfIndex(infos), n - 1)
    ensures TraceTo(s, pass, truth, infos, spans, n) == Requests(spans, RangesOfIndex(infos), n)
  {
  }

  // ---- Requests in order fetch each span once ----

  lemma {:induction false} LocateIs(spans: seq<Range>, k: nat, required: Range)
    requires Apart(spans) && k < |spans| && spans[k].Contains(required) && required.start < required.end
    ensures Locate(spans, required) == Some(spans[k])
  {
    forall i | 0 <= i < k + 1 ensures spans[i].start <= required.start {
      assert i < k ==> Ends(spans, i, k);
    }
    forall i | k + 1 <= i < |spans| ensures spans[i].start > required.start {
      assert Ends(spans, k, i);
    }
    StartedIs(spans, required.start, k + 1);
  }

  /** The spans up to the one of the last request have been fetched, and that one is held. */
  predicate FetchedUpTo(f: Fetches, spans: seq<Range>, k: nat) {
    k < |spans| && f == Fetches(Some(spans[k]), spans[..k + 1])
  }

  lemma {:induction false} NextRequest(f: Fetches, spans: seq<Range>, k: nat, next: nat, required: Range)
    requires Apart(spans) && FetchedUpTo(f, spans, k) && k <= next <= k + 1
    requires next < |spans| && spans[next].Contains(required) && required.start < required.end
    ensures FetchedUpTo(Request(spans, f, required), spans, next)
  {
    if next == k + 1 {
      assert Ends(spans, k, next);
      LocateIs(spans, next, required);
      assert spans[..next + 1] == spans[..k + 1] + [spans[next]];
    }
  }

  lemma {:induction false} FirstRequest(spans: seq<Range>, required: Range)
    requires Apart(spans) && spans != [] && spans[0].Contains(required) && required.start < required.end
    ensures FetchedUpTo(Request(spans, Fetches(None, []), required), spans, 0)
  {
    LocateIs(spans, 0, required);
    assert spans[..1] == [spans[0]];
  }

  lemma {:induction false} RequestsInOrder(ranges: seq<Range>, spans: seq<Range>, n: nat)
    requires Apart(ranges) && Apart(spans) && spans == Merge(ranges) && 0 < n <= |ranges|
    ensures FetchedUpTo(Requests(spans, ranges, n), spans, SpanIndex(ranges, n - 1))
  {
    SpanIndexHolds(ranges, n - 1);
    SpanIndexStep(ranges, n - 1);
    if n == 1 {
      assert Requests(spans, ranges, 0) == Fetches(None, []);
      FirstRequest(spans, ranges[0]);
    } else {
      RequestsInOrder(ranges, spans, n - 1);
      RequestsNext(ranges, spans, n, SpanIndex(ranges, n - 2), SpanIndex(ranges, n - 1));
    }
  }

  lemma {:induction false} RequestsNext(ranges: seq<Range>, spans: seq<Range>, n: nat, k: nat, next: nat)
    requires Apart(ranges) && Apart(spans) && 1 < n <= |ranges|
    requires FetchedUpTo(Requests(spans, ranges, n - 1), spans, k) && k <= next <= k + 1
    requires next < |spans| && spans[next].Contains(ranges[n - 1])
    ensures FetchedUpTo(Requests(spans, ranges, n), spans, next)
  {
    NextRequest(Requests(spans, ranges, n - 1), spans, k, next, ranges[n - 1]);
  }

  /** Without spans each request is read alone. */
  lemma {:induction false} RequestsAlone(ranges: seq<Range>, n: nat)
    requires n <= |ranges|
    ensures Requests([], ranges, n) == Fetches(None, ranges[..n])
  {
    if n > 0 {
      RequestsAlone(ranges, n - 1);
      assert ranges[..n] == ranges[..n - 1] + [ranges[n - 1]];
    }
  }

  /** Whether or not there is anything to merge, what is read is the merged ranges. */
  lemma {:induction false} RequestsAreMerged(ranges: seq<Range>)
    requires Apart(ranges)
    ensures Requests(Merge(ranges), ranges, |ranges|).log == Merge(ranges)
    ensures !SomeTouch(ranges) ==> Requests([], ranges, |ranges|).log == Merge(ranges)
  {
    if ranges != [] {
      MergeApart(ranges, |ranges|);
      RequestsInOrder(ranges, Merge(ranges), |ranges|);
      assert Merge(ranges)[..|Merge(ranges)|] == Merge(ranges);
    }
    RequestsAlone(ranges, |ranges|);
    if !SomeTouch(ranges) {
      NothingMerges(ranges, |ranges|);
    }
  }

  // ---- The plan ----

  lemma {:induction false} EverythingIsUnheld(s: Cache, infos: seq<ChunkInfo>, rank: nat, n: nat)
    requires HaveRank(infos, rank) && n <= |infos| && s.slots == []
    ensures Unheld(s, infos, rank, n) == seq(n, j requires 0 <= j < n => (infos[j].address, infos[j].stored))
  {
    if n > 0 {
      EverythingIsUnheld(s, infos, rank, n - 1);
    }
  }

  lemma {:induction false} SortedStays<T>(xs: seq<T>, key: T -> nat)
    requires Sorted(xs, key)
    ensures SortBy(xs, key) == xs
  {
    if xs != [] {
      SortedFront(xs, key);
      SortedStays(xs[..|xs| - 1], key);
    }
  }

  lemma SortedFront<T>(xs: seq<T>, key: T -> nat)
    requires Sorted(xs, key) && xs != []
    ensures Sorted(xs[..|xs| - 1], key)
    ensures Insert(xs[..|xs| - 1], xs[|xs| - 1], key) == xs
  {
    var front := xs[..|xs| - 1];
    forall i, j | 0 <= i < j < |front| ensures InOrder(front, key, i, j) {
      assert InOrder(xs, key, i, j);
    }
    assert |xs| > 1 ==> InOrder(xs, key, |xs| - 2, |xs| - 1);
    assert xs == front + [xs[|xs| - 1]];
  }

  lemma {:induction false} PlanOfIndex(s: Cache, index: Index)
    requires index.Valid() && s.slots == []
    ensures PlanRanges(Unheld(s, index.infos, |index.extent|, |index.infos|)) == RangesOfIndex(index.infos)
  {
    var wanted, ranges := Unheld(s, index.infos, |index.extent|, |index.infos|), RangesOfIndex(index.infos);
    EverythingIsUnheld(s, index.infos, |index.extent|, |index.infos|);
    assert ChunkRanges(wanted) == ranges;
    forall i, j | 0 <= i < j < |ranges| ensures InOrder(ranges, Start, i, j) {
      assert InOrder(index.infos, Address, i, j);
    }
    SortedStays(ranges, Start);
  }

  /**
   A first read through an empty cache of distinct, disjoint, nonempty chunks reads, in address order,
   exactly the merged ranges when coalesced, and exactly the chunks' own ranges otherwise. By
   `SpansPartition` it so reads every stored byte once, and no other.
   */
  lemma {:induction false} ColdReadsOnce(s: Cache, index: Index, truth: Truth)
    requires index.Valid() && Inv(s) && s.slots == [] && |truth| == |index.infos| && DistinctCoords(truth)
    requires Apart(RangesOfIndex(index.infos))
    requires forall j :: 0 <= j < |index.infos| ==> index.infos[j].address + index.infos[j].stored <= U64_MAX
    ensures SourceReads(Coalesced, s, truth, index) == Merge(RangesOfIndex(index.infos))
    ensures SourceReads(Resident, s, truth, index) == RangesOfIndex(index.infos)
  {
    var ranges := RangesOfIndex(index.infos);
    ColdPlan(s, index);
    RequestsAreMerged(ranges);
    RequestsAlone(ranges, |ranges|);
    assert ranges[..|ranges|] == ranges;
    ColdSource(Coalesced, s, index, truth);
    ColdSource(Resident, s, index, truth);
  }

  lemma {:induction false} ColdPlan(s: Cache, index: Index)
    requires index.Valid() && s.slots == []
    requires forall j :: 0 <= j < |index.infos| ==> index.infos[j].address + index.infos[j].stored <= U64_MAX
    ensures var ranges := RangesOfIndex(index.infos);
      OpenedSpans(Coalesced, s, index.infos, |index.extent|) == if SomeTouch(ranges) then Merge(ranges) else []
  {
    EverythingIsUnheld(s, index.infos, |index.extent|, |index.infos|);
    PlanOfIndex(s, index);
    assert EndsFit(Unheld(s, index.infos, |index.extent|, |index.infos|));
  }

  lemma {:induction false} BegunCold(s: Cache)
    requires Inv(s) && s.slots == []
    ensures Inv(BeginPass(s)) && BeginPass(s).slots == [] && BeginPass(s).pass == s.pass + 1
  {
  }

  lemma {:induction false} ColdSource(access: Access, s: Cache, index: Index, truth: Truth)
    requires index.Valid() && Inv(s) && s.slots == [] && |truth| == |index.infos| && DistinctCoords(truth)
    ensures SourceReads(access, s, truth, index)
         == Requests(OpenedSpans(access, s, index.infos, |index.extent|), RangesOfIndex(index.infos), |index.infos|).log
  {
    BegunCold(s);
    var spans := OpenedSpans(access, s, index.infos, |index.extent|);
    ColdTrace(BeginPass(s), s.pass + 1, truth, index.infos, spans, |index.infos|);
  }
}
