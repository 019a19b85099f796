/**
 Repeated whole reads through the chunk cache: the first read keeps the chunks it reached first,
 and every later read is served exactly those (the `CachePass` notes in src/chunk_cache.rs).
 */
module SteadyState {
  import opened Basics
  import opened ChunkCache
  import opened CacheRuns

  type Chunks = seq<(Coord, seq<byte>)>

  /** One chunk of a read: a lookup, and an offer of the decoded chunk on a miss. */
  function Visit(s: Cache, pass: nat, chunk: (Coord, seq<byte>)): Cache {
    var (next, hit) := Lookup(s, pass, chunk.0);
    if hit.Some? then next else Offer(next, pass, chunk.0, chunk.1)
  }

  /** The first `n` chunks of a read. */
  function VisitTo(s: Cache, pass: nat, chunks: Chunks, n: nat): Cache
    requires n <= |chunks|
  {
    if n == 0 then s else Visit(VisitTo(s, pass, chunks, n - 1), pass, chunks[n - 1])
  }

  /** A whole read opens a pass and visits every chunk. */
  function Read(s: Cache, chunks: Chunks): Cache {
    VisitTo(BeginPass(s), s.pass + 1, chunks, |chunks|)
  }

  function Reads(s: Cache, chunks: Chunks, n: nat): Cache {
    if n == 0 then s else Read(Reads(s, chunks, n - 1), chunks)
  }

  /** Distinct chunks of `size` bytes each. */
  predicate Uniform(chunks: Chunks, size: nat) {
    && (forall i :: 0 <= i < |chunks| ==> |chunks[i].1| == size)
    && (forall i, j :: 0 <= i < j < |chunks| ==> chunks[i].0 != chunks[j].0)
  }

  /** `k` of the chunks fit both budgets, and one more would not. */
  predicate Admits(maxBytes: nat, maxSlots: nat, chunks: Chunks, size: nat, k: nat) {
    && k <= |chunks| && k <= maxSlots && Bulk(k, size) <= maxBytes
    && (k < |chunks| ==> k == maxSlots || Bulk(k, size) + size > maxBytes)
    && (0 < |chunks| && 0 < maxSlots && 0 < maxBytes && size <= maxBytes ==> k > 0)
  }

  /** How many of the chunks the budgets admit; a cache without a byte budget is disabled. */
  function Capacity(maxBytes: nat, maxSlots: nat, chunks: Chunks, size: nat): nat {
    if maxBytes == 0 then 0
    else Min(|chunks|, if size == 0 then maxSlots else Min(maxSlots, Quot(maxBytes, size)))
  }

  lemma CapacityAdmits(maxBytes: nat, maxSlots: nat, chunks: Chunks, size: nat)
    requires maxBytes > 0
    ensures Admits(maxBytes, maxSlots, chunks, size, Capacity(maxBytes, maxSlots, chunks, size))
  {
    var k := Capacity(maxBytes, maxSlots, chunks, size);
    BulkIsProduct(k, size);
    if size > 0 {
      DivBelow(maxBytes, size, k);
      DivBelow(maxBytes, size, k + 1);
      DivBelow(maxBytes, size, 1);
      MulAdd(k, 1, size);
    }
  }

  /** The slots are the first `n` chunks, in order, the first `m` of them owned by `pass`. */
  predicate Retains(s: Cache, chunks: Chunks, n: nat, m: nat, pass: nat) {
    && |s.slots| == n <= |chunks|
    && (forall i :: 0 <= i < n ==> s.slots[i].coord == chunks[i].0 && s.slots[i].data == chunks[i].1)
    && (forall i :: 0 <= i < m && i < n ==> s.slots[i].storedBy == pass)
  }

  lemma {:induction false} OwnedWeight(slots: seq<Held>, pass: nat, size: nat)
    requires forall i :: 0 <= i < |slots| ==> |slots[i].data| == size
    requires pass != LRU && forall i :: 0 <= i < |slots| ==> slots[i].storedBy == pass
    ensures Weight(slots, Some(pass), Slots) == |slots|
    ensures Weight(slots, Some(pass), Bytes) == Bulk(|slots|, size)
    ensures Weight(slots, None, Bytes) == Bulk(|slots|, size)
  {
    if slots != [] {
      OwnedWeight(slots[..|slots| - 1], pass, size);
    }
  }

  lemma FindRetained(s: Cache, chunks: Chunks, size: nat, n: nat, j: nat, m: nat, pass: nat)
    requires Uniform(chunks, size) && Retains(s, chunks, n, m, pass) && j < |chunks|
    ensures Find(s.slots, chunks[j].0) == if j < n then j else n
  {
    forall i | 0 <= i < n ensures s.slots[i].coord == chunks[j].0 <==> i == j {
      assert s.slots[i].coord == chunks[i].0;
    }
  }

  /** A chunk of `size` bytes can be kept at all. */
  predicate Enabled(s: Cache, size: nat) { s.maxSlots > 0 && s.maxBytes > 0 && size <= s.maxBytes }

  /** Visiting a chunk past the capacity, once the pass owns every slot: a miss and a rejection. */
  lemma VisitRejected(s: Cache, chunks: Chunks, size: nat, k: nat, j: nat, pass: nat, data: seq<byte>)
    requires Inv(s) && Uniform(chunks, size) && Enabled(s, size) && pass != LRU && pass <= s.pass
    requires Admits(s.maxBytes, s.maxSlots, chunks, size, k) && k <= j < |chunks|
    requires Retains(s, chunks, k, k, pass) && |data| == size
    ensures Visit(s, pass, (chunks[j].0, data))
         == s.(tick := s.tick + 2, counters := s.counters.(misses := s.counters.misses + 1,
                                                          rejections := s.counters.rejections + 1))
  {
    FindRetained(s, chunks, size, k, j, k, pass);
    OwnedWeight(s.slots, pass, size);
    var missed := Lookup(s, pass, chunks[j].0).0;
    assert Admission(missed, pass, chunks[j].0, size).Rejected?;
  }

  /** Visiting a chunk below the capacity for the first time: a miss, and the chunk is kept without eviction. */
  lemma VisitStored(s: Cache, chunks: Chunks, size: nat, k: nat, j: nat, pass: nat)
    requires Inv(s) && Uniform(chunks, size) && Enabled(s, size) && pass != LRU && pass <= s.pass
    requires Admits(s.maxBytes, s.maxSlots, chunks, size, k) && j < k
    requires Retains(s, chunks, j, j, pass)
    ensures Visit(s, pass, chunks[j])
         == s.(tick := s.tick + 2, counters := s.counters.(misses := s.counters.misses + 1), bytes := s.bytes + size,
               slots := s.slots + [Held(chunks[j].0, chunks[j].1, s.tick + 2, pass)])
  {
    FindRetained(s, chunks, size, j, j, j, pass);
    OwnedWeight(s.slots, pass, size);
    BulkMono(j + 1, k, size);
    var missed := Lookup(s, pass, chunks[j].0).0;
    assert Admission(missed, pass, chunks[j].0, size).Stored?;
    assert !Full(missed.(tick := s.tick + 2), size);
  }

  /** Visiting a held chunk: a hit, and the pass claims the slot. */
  lemma VisitServed(s: Cache, chunks: Chunks, size: nat, k: nat, j: nat, pass: nat)
    requires Uniform(chunks, size) && pass != LRU && j < k && Retains(s, chunks, k, j, pass)
    ensures var t := Visit(s, pass, chunks[j]);
      && Retains(t, chunks, k, j + 1, pass) && SameBudget(t, s)
      && t.counters == s.counters.(hits := s.counters.hits + 1)
  {
    FindRetained(s, chunks, size, k, j, j, pass);
  }

  lemma VisitInv(s: Cache, pass: nat, chunk: (Coord, seq<byte>))
    requires Inv(s) && pass <= s.pass
    ensures Inv(Visit(s, pass, chunk))
  {
    LookupInv(s, pass, chunk.0);
    OfferInv(Lookup(s, pass, chunk.0).0, pass, chunk.0, chunk.1);
  }

  /** The counters of a first read that has visited `j` chunks, `k` of which fit. */
  function FirstCounters(c: Counters, j: nat, k: nat): Counters {
    c.(misses := c.misses + j, rejections := c.rejections + (j - Min(j, k)))
  }

  /** The counters of a later read that has visited `j` chunks, the first `k` of which are held. */
  function LaterCounters(c: Counters, j: nat, k: nat): Counters {
    c.(hits := c.hits + Min(j, k), misses := c.misses + (j - Min(j, k)),
       rejections := c.rejections + (j - Min(j, k)))
  }

  /** `t` is `s` but for its slots, byte total, tick and counters. */
  predicate SameBudget(t: Cache, s: Cache) {
    t.maxBytes == s.maxBytes && t.maxSlots == s.maxSlots && t.pass == s.pass
  }

  /** A first read that started at `s` and has visited `j` chunks. */
  ghost predicate Filling(s: Cache, t: Cache, chunks: Chunks, k: nat, j: nat, pass: nat) {
    && Inv(t) && SameBudget(t, s) && Retains(t, chunks, Min(j, k), Min(j, k), pass)
    && t.counters == FirstCounters(s.counters, j, k)
  }

  /** A later read that started at `s` and has visited `j` chunks. */
  ghost predicate Serving(s: Cache, t: Cache, chunks: Chunks, k: nat, j: nat, pass: nat) {
    && Inv(t) && SameBudget(t, s) && Retains(t, chunks, k, Min(j, k), pass)
    && t.counters == LaterCounters(s.counters, j, k)
  }

  /** What a pass over equal-size chunks needs of the cache it began with, where `k` of them fit. */
  ghost predicate Setting(s: Cache, chunks: Chunks, size: nat, k: nat, pass: nat) {
    && Uniform(chunks, size) && Enabled(s, size) && Admits(s.maxBytes, s.maxSlots, chunks, size, k)
    && pass != LRU && pass <= s.pass
  }

  lemma FillingStep(s: Cache, t: Cache, next: Cache, chunks: Chunks, size: nat, k: nat, j: nat, pass: nat)
    requires Setting(s, chunks, size, k, pass) && j < |chunks| && Filling(s, t, chunks, k, j, pass)
    requires next == Visit(t, pass, chunks[j])
    ensures Filling(s, next, chunks, k, j + 1, pass)
  {
    VisitInv(t, pass, chunks[j]);
    if j < k {
      VisitStored(t, chunks, size, k, j, pass);
      FillingStored(s, t, next, chunks, k, j, pass);
    } else {
      VisitRejected(t, chunks, size, k, j, pass, chunks[j].1);
      FillingRejected(s, t, next, chunks, k, j, pass);
    }
  }

  lemma FillingStored(s: Cache, t: Cache, next: Cache, chunks: Chunks, k: nat, j: nat, pass: nat)
    requires Filling(s, t, chunks, k, j, pass) && j < k && j < |chunks| && Inv(next) && SameBudget(next, t)
    requires next.counters == t.counters.(misses := t.counters.misses + 1)
    requires next.slots == t.slots + [Held(chunks[j].0, chunks[j].1, t.tick + 2, pass)]
    ensures Filling(s, next, chunks, k, j + 1, pass)
  {
    RetainsPush(t, chunks, j, pass, t.tick + 2);
  }

  lemma FillingRejected(s: Cache, t: Cache, next: Cache, chunks: Chunks, k: nat, j: nat, pass: nat)
    requires Filling(s, t, chunks, k, j, pass) && k <= j && Inv(next) && SameBudget(next, t)
    requires next.counters == t.counters.(misses := t.counters.misses + 1, rejections := t.counters.rejections + 1)
    requires next.slots == t.slots
    ensures Filling(s, next, chunks, k, j + 1, pass)
  {
  }

  lemma RetainsPush(t: Cache, chunks: Chunks, j: nat, pass: nat, tick: nat)
    requires Retains(t, chunks, j, j, pass) && j < |chunks|
    ensures Retains(t.(slots := t.slots + [Held(chunks[j].0, chunks[j].1, tick, pass)]), chunks, j + 1, j + 1, pass)
  {
  }

  lemma ServingStep(s: Cache, t: Cache, next: Cache, chunks: Chunks, size: nat, k: nat, j: nat, pass: nat)
    requires Setting(s, chunks, size, k, pass) && j < |chunks| && Serving(s, t, chunks, k, j, pass)
    requires next == Visit(t, pass, chunks[j])
    ensures Serving(s, next, chunks, k, j + 1, pass)
  {
    VisitInv(t, pass, chunks[j]);
    if j < k {
      VisitServed(t, chunks, size, k, j, pass);
    } else {
      VisitRejected(t, chunks, size, k, j, pass, chunks[j].1);
    }
  }

  lemma FillingStart(s: Cache, chunks: Chunks, k: nat, pass: nat)
    requires Inv(s) && s.slots == []
    ensures Filling(s, s, chunks, k, 0, pass)
  {
  }

  lemma {:induction false} FirstRead(s: Cache, chunks: Chunks, size: nat, k: nat, j: nat, pass: nat)
    requires Setting(s, chunks, size, k, pass) && Filling(s, s, chunks, k, 0, pass) && j <= |chunks|
    ensures Filling(s, VisitTo(s, pass, chunks, j), chunks, k, j, pass)
  {
    if j > 0 {
      FirstRead(s, chunks, size, k, j - 1, pass);
      FillingNext(s, VisitTo(s, pass, chunks, j - 1), chunks, size, k, j, pass);
    }
  }

  lemma FillingNext(s: Cache, t: Cache, chunks: Chunks, size: nat, k: nat, j: nat, pass: nat)
    requires Setting(s, chunks, size, k, pass) && 0 < j <= |chunks| && t == VisitTo(s, pass, chunks, j - 1)
    requires Filling(s, t, chunks, k, j - 1, pass)
    ensures Filling(s, VisitTo(s, pass, chunks, j), chunks, k, j, pass)
  {
    FillingStep(s, t, Visit(t, pass, chunks[j - 1]), chunks, size, k, j - 1, pass);
  }

  lemma {:induction false} LaterRead(s: Cache, chunks: Chunks, size: nat, k: nat, j: nat, pass: nat)
    requires Setting(s, chunks, size, k, pass) && Serving(s, s, chunks, k, 0, pass) && j <= |chunks|
    ensures Serving(s, VisitTo(s, pass, chunks, j), chunks, k, j, pass)
  {
    if j > 0 {
      LaterRead(s, chunks, size, k, j - 1, pass);
      ServingNext(s, VisitTo(s, pass, chunks, j - 1), chunks, size, k, j, pass);
    }
  }

  lemma ServingNext(s: Cache, t: Cache, chunks: Chunks, size: nat, k: nat, j: nat, pass: nat)
    requires Setting(s, chunks, size, k, pass) && 0 < j <= |chunks| && t == VisitTo(s, pass, chunks, j - 1)
    requires Serving(s, t, chunks, k, j - 1, pass)
    ensures Serving(s, VisitTo(s, pass, chunks, j), chunks, k, j, pass)
  {
    ServingStep(s, t, Visit(t, pass, chunks[j - 1]), chunks, size, k, j - 1, pass);
  }

  /** The counters after `n` whole reads of `total` chunks of which `k` fit. */
  function SteadyCounters(total: nat, k: nat, n: nat): Counters
    requires k <= total
  {
    if n == 0 then ZERO
    else if n == 1 then FirstCounters(ZERO, total, k)
    else LaterCounters(SteadyCounters(total, k, n - 1), total, k)
  }

  /** What becomes of an offer that is not kept. */
  function Refusal(maxBytes: nat, maxSlots: nat, size: nat): Verdict {
    if maxBytes == 0 || maxSlots == 0 then Disabled else if size > maxBytes then Oversize else Rejected
  }

  /**
   `total` misses in the first read, and `k` hits and `total - k` misses in each later one; every chunk
   that is not kept counts once per read by the reason it is refused for, if that is counted at all.
   */
  function Tally(total: nat, k: nat, n: nat, refusal: Verdict): Counters
    requires k <= total && n > 0
  {
    Counters(Mul(n - 1, k), total + Mul(n - 1, total - k), 0,
             if refusal.Rejected? then Mul(n, total - k) else 0, if refusal.Oversize? then Mul(n, total - k) else 0, 0)
  }

  /** In closed form: every read after the first has exactly `k` hits and `total - k` rejections. */
  lemma {:induction false} SteadyTotals(total: nat, k: nat, n: nat)
    requires k <= total && n > 0
    ensures SteadyCounters(total, k, n) == Tally(total, k, n, Rejected)
  {
    if n > 1 {
      SteadyTotals(total, k, n - 1);
      MulAdd(n - 2, 1, k);
      MulAdd(n - 2, 1, total - k);
      MulAdd(n - 1, 1, total - k);
    }
  }

  /** The state after `n` whole reads from an empty cache. */
  ghost predicate Steady(s: Cache, maxBytes: nat, maxSlots: nat, chunks: Chunks, k: nat, n: nat) {
    && Inv(s) && s.maxBytes == maxBytes && s.maxSlots == maxSlots
    && Retains(s, chunks, k, 0, LRU)
    && k <= |chunks| && s.counters == SteadyCounters(|chunks|, k, n)
  }

  /** A cache that has opened its first pass, with room for a chunk. */
  ghost predicate Fresh(s: Cache, maxBytes: nat, maxSlots: nat, size: nat) {
    && Inv(s) && s.slots == [] && s.pass == 1 && s.counters == ZERO && Enabled(s, size)
    && s.maxBytes == maxBytes && s.maxSlots == maxSlots
  }

  lemma SteadyFirst(maxBytes: nat, maxSlots: nat, chunks: Chunks, size: nat, k: nat)
    requires Uniform(chunks, size) && maxSlots > 0 && 0 < maxBytes && size <= maxBytes
    requires Admits(maxBytes, maxSlots, chunks, size, k)
    ensures Steady(Read(Empty(maxBytes, maxSlots), chunks), maxBytes, maxSlots, chunks, k, 1)
  {
    var s := BeginPass(Empty(maxBytes, maxSlots));
    var t := Read(Empty(maxBytes, maxSlots), chunks);
    EmptyIsFresh(s, maxBytes, maxSlots, size);
    FreshFills(s, t, maxBytes, maxSlots, chunks, size, k, 1);
    FilledIsSteady(s, t, maxBytes, maxSlots, chunks, size, k);
  }

  lemma EmptyIsFresh(s: Cache, maxBytes: nat, maxSlots: nat, size: nat)
    requires s == BeginPass(Empty(maxBytes, maxSlots)) && maxSlots > 0 && 0 < maxBytes && size <= maxBytes
    ensures Fresh(s, maxBytes, maxSlots, size)
  {
  }

  lemma FreshFills(s: Cache, t: Cache, maxBytes: nat, maxSlots: nat, chunks: Chunks, size: nat, k: nat, pass: nat)
    requires Uniform(chunks, size) && Admits(maxBytes, maxSlots, chunks, size, k) && Fresh(s, maxBytes, maxSlots, size)
    requires pass == s.pass && t == VisitTo(s, pass, chunks, |chunks|)
    ensures Filling(s, t, chunks, k, |chunks|, pass)
  {
    FillingStart(s, chunks, k, pass);
    FirstRead(s, chunks, size, k, |chunks|, pass);
  }

  lemma FilledIsSteady(s: Cache, t: Cache, maxBytes: nat, maxSlots: nat, chunks: Chunks, size: nat, k: nat)
    requires Fresh(s, maxBytes, maxSlots, size) && k <= |chunks|
    requires Filling(s, t, chunks, k, |chunks|, 1)
    ensures Steady(t, maxBytes, maxSlots, chunks, k, 1)
  {
  }

  lemma BegunServes(s: Cache, chunks: Chunks, k: nat)
    requires Inv(s) && Retains(s, chunks, k, 0, LRU)
    ensures Serving(BeginPass(s), BeginPass(s), chunks, k, 0, s.pass + 1)
  {
  }

  lemma SteadyNext(s: Cache, maxBytes: nat, maxSlots: nat, chunks: Chunks, size: nat, k: nat, n: nat)
    requires Uniform(chunks, size) && maxSlots > 0 && 0 < maxBytes && size <= maxBytes && n > 0
    requires Admits(maxBytes, maxSlots, chunks, size, k) && Steady(s, maxBytes, maxSlots, chunks, k, n)
    ensures Steady(Read(s, chunks), maxBytes, maxSlots, chunks, k, n + 1)
  {
    var begun := BeginPass(s);
    BegunServes(s, chunks, k);
    LaterRead(begun, chunks, size, k, |chunks|, s.pass + 1);
    ServedIsSteady(s, Read(s, chunks), maxBytes, maxSlots, chunks, k, n);
  }

  lemma ServedIsSteady(s: Cache, t: Cache, maxBytes: nat, maxSlots: nat, chunks: Chunks, k: nat, n: nat)
    requires n > 0 && Steady(s, maxBytes, maxSlots, chunks, k, n)
    requires Serving(BeginPass(s), t, chunks, k, |chunks|, s.pass + 1)
    ensures Steady(t, maxBytes, maxSlots, chunks, k, n + 1)
  {
  }

  lemma {:induction false} ReadsSteady(maxBytes: nat, maxSlots: nat, chunks: Chunks, size: nat, k: nat, n: nat)
    requires Uniform(chunks, size) && maxSlots > 0 && 0 < maxBytes && size <= maxBytes && n > 0
    requires Admits(maxBytes, maxSlots, chunks, size, k)
    ensures Steady(Reads(Empty(maxBytes, maxSlots), chunks, n), maxBytes, maxSlots, chunks, k, n)
  {
    var start := Empty(maxBytes, maxSlots);
    if n == 1 {
      assert Reads(start, chunks, 1) == Read(Reads(start, chunks, 0), chunks);
      SteadyFirst(maxBytes, maxSlots, chunks, size, k);
    } else {
      ReadsSteady(maxBytes, maxSlots, chunks, size, k, n - 1);
      SteadyNext(Reads(start, chunks, n - 1), maxBytes, maxSlots, chunks, size, k, n - 1);
    }
  }

  /** One offer that a cache cannot keep: a miss, counted by its reason. */
  lemma {:induction false} RefusedReads(s: Cache, chunks: Chunks, size: nat, pass: nat, j: nat)
    requires Uniform(chunks, size) && s.slots == [] && !Enabled(s, size) && j <= |chunks|
    ensures VisitTo(s, pass, chunks, j)
         == s.(tick := s.tick + j, counters := RefusedCounters(s.counters, j, Refusal(s.maxBytes, s.maxSlots, size)))
  {
    if j > 0 {
      RefusedReads(s, chunks, size, pass, j - 1);
    }
  }

  /** The counters after `j` offers that were refused without a look at what is held. */
  function RefusedCounters(c: Counters, j: nat, refusal: Verdict): Counters {
    c.(misses := c.misses + j, oversize := c.oversize + if refusal.Oversize? then j else 0)
  }

  lemma {:induction false} ReadsRefused(maxBytes: nat, maxSlots: nat, chunks: Chunks, size: nat, n: nat)
    requires Uniform(chunks, size) && !Enabled(Empty(maxBytes, maxSlots), size) && n > 0
    ensures var t := Reads(Empty(maxBytes, maxSlots), chunks, n);
      && t.slots == [] && t.maxBytes == maxBytes && t.maxSlots == maxSlots
      && t.counters == Tally(|chunks|, 0, n, Refusal(maxBytes, maxSlots, size))
  {
    var start := Empty(maxBytes, maxSlots);
    var s := Reads(start, chunks, n - 1);
    assert Reads(start, chunks, n) == Read(s, chunks);
    if n > 1 {
      ReadsRefused(maxBytes, maxSlots, chunks, size, n - 1);
    }
    RefusedTally(s.counters, |chunks|, n, Refusal(maxBytes, maxSlots, size));
    RefusedReads(BeginPass(s), chunks, size, s.pass + 1, |chunks|);
  }

  lemma RefusedTally(c: Counters, total: nat, n: nat, refusal: Verdict)
    requires n > 0 && !refusal.Rejected? && c == if n == 1 then ZERO else Tally(total, 0, n - 1, refusal)
    ensures RefusedCounters(c, total, refusal) == Tally(total, 0, n, refusal)
  {
    MulAdd(n - 1, 1, total);
    if n > 1 {
      MulAdd(n - 2, 1, total);
    }
  }

  /**
   The steady state, for every budget. From an empty cache, any number of whole reads of the same
   equal-size chunks keep the first `k`, where `k` is the most the budgets admit; the counters are
   those of a first read and `n - 1` later ones, so nothing is ever evicted.
   */
  lemma RepeatedReads(maxBytes: nat, maxSlots: nat, chunks: Chunks, size: nat, k: nat, n: nat)
    requires Uniform(chunks, size) && n > 0 && k == Capacity(maxBytes, maxSlots, chunks, size)
    ensures k <= |chunks| && Retains(Reads(Empty(maxBytes, maxSlots), chunks, n), chunks, k, 0, LRU)
    ensures Reads(Empty(maxBytes, maxSlots), chunks, n).counters
         == Tally(|chunks|, k, n, Refusal(maxBytes, maxSlots, size))
  {
    if Enabled(Empty(maxBytes, maxSlots), size) {
      CapacityAdmits(maxBytes, maxSlots, chunks, size);
      ReadsSteady(maxBytes, maxSlots, chunks, size, k, n);
      SteadyTotals(|chunks|, k, n);
    } else {
      NoCapacity(maxBytes, maxSlots, chunks, size);
      ReadsRefused(maxBytes, maxSlots, chunks, size, n);
    }
  }

  lemma NoCapacity(maxBytes: nat, maxSlots: nat, chunks: Chunks, size: nat)
    requires !Enabled(Empty(maxBytes, maxSlots), size)
    ensures Capacity(maxBytes, maxSlots, chunks, size) == 0
  {
    if size > 0 {
      DivBelow(maxBytes, size, 1);
    }
  }
}
