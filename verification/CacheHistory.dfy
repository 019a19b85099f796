/**
 The chunk cache as a history of its uses (src/chunk_cache.rs): when an offered chunk is kept, what
 the counters count, and that "least recently used" is about the uses of the run.
 */
module CacheHistory {
  import opened Basics
  import opened ChunkCache
  import opened CacheRuns

  // ---- When an offer is kept ----

  /** `kept` is some of the slots, with every one that an insert under `pass` must leave. */
  ghost predicate Spares(s: Cache, pass: nat, kept: seq<Held>) {
    multiset(kept) <= multiset(s.slots) && forall h :: h in s.slots && !Reclaimable(h, pass) ==> h in kept
  }

  /** `need` more bytes fit beside `kept`. */
  predicate Fits(s: Cache, kept: seq<Held>, need: nat) {
    |kept| < s.maxSlots && Weight(kept, None, Bytes) + need <= s.maxBytes
  }

  /** Some choice of what to evict makes room. */
  ghost predicate CouldFit(s: Cache, pass: nat, need: nat) {
    exists kept :: Spares(s, pass, kept) && Fits(s, kept, need)
  }

  /**
   A chunk that fits the byte budget and is not held is kept if and only if some choice of what to
   evict makes room for it; otherwise it counts as a rejection, and nothing is evicted.
   */
  lemma KeptIffRoom(s: Cache, pass: nat, coord: Coord, data: seq<byte>)
    requires Inv(s) && s.maxBytes > 0 && s.maxSlots > 0 && |data| <= s.maxBytes && !Holds(s, coord)
    ensures Holds(Offer(s, pass, coord, data), coord) <==> CouldFit(s, pass, |data|)
    ensures !CouldFit(s, pass, |data|) ==>
      Offer(s, pass, coord, data)
      == s.(tick := s.tick + 1, counters := s.counters.(rejections := s.counters.rejections + 1))
  {
    if Admission(s, pass, coord, |data|).Stored? {
      StoredFits(s, pass, coord, data);
    } else {
      RejectedFits(s, pass, |data|);
    }
  }

  lemma RoomFits(s: Cache, pass: nat, coord: Coord, need: nat)
    requires Inv(s) && need <= s.maxBytes && Admission(s, pass, coord, need).Stored?
    ensures Fits(s, Kept(s, pass, need), need)
  {
    RoomMade(s, pass, coord, need);
    var room := Evict(s.(tick := s.tick + 1), pass, need);
    assert room.bytes == Weight(room.slots, None, Bytes);
  }

  lemma KeptSpares(s: Cache, pass: nat, need: nat)
    requires Inv(s)
    ensures Spares(s, pass, Kept(s, pass, need))
  {
    KeptOldest(s, pass, need);
  }

  lemma StoredFits(s: Cache, pass: nat, coord: Coord, data: seq<byte>)
    requires Inv(s) && |data| <= s.maxBytes && Admission(s, pass, coord, |data|).Stored?
    ensures Holds(Offer(s, pass, coord, data), coord) && CouldFit(s, pass, |data|)
  {
    var kept := Kept(s, pass, |data|);
    StoredSlots(s, pass, coord, data);
    assert Offer(s, pass, coord, data).slots[|kept|].coord == coord;
    RoomFits(s, pass, coord, |data|);
    KeptSpares(s, pass, |data|);
  }

  lemma RejectedFits(s: Cache, pass: nat, need: nat)
    requires Inv(s) && need <= s.maxBytes && !Feasible(s, pass, need)
    ensures !CouldFit(s, pass, need)
  {
    FeasibleIsExact(s, pass, need);
    forall kept | Spares(s, pass, kept) ensures !Fits(s, kept, need) {
      assert NoRoom(|kept|, Weight(kept, None, Bytes), need, s);
    }
  }

  /** What becomes of every other offer: a disabled cache ignores it, and one too large is only counted. */
  lemma OtherOffers(s: Cache, pass: nat, coord: Coord, data: seq<byte>)
    ensures var t := Offer(s, pass, coord, data);
      && (s.maxBytes == 0 || s.maxSlots == 0 ==> t == s)
      && (s.maxBytes > 0 && s.maxSlots > 0 && |data| > s.maxBytes ==>
            t == s.(counters := s.counters.(oversize := s.counters.oversize + 1)))
      && (s.maxBytes > 0 && s.maxSlots > 0 && |data| <= s.maxBytes && Holds(s, coord) ==>
            t.counters == s.counters && Contents(t.slots) == Contents(s.slots) && t.bytes == s.bytes)
  {
  }

  // ---- The counters ----

  /** What the steps of a run came to, by what was held before and after each. */
  datatype Uses = Uses(hits: nat, misses: nat, stores: nat, rejections: nat, oversize: nat)

  /** An offer that the cache considers: it has both budgets, and the chunk fits the byte budget. */
  predicate Considered(s: Cache, op: Op) {
    op.OfferOp? && s.maxBytes > 0 && s.maxSlots > 0 && |op.data| <= s.maxBytes
  }

  function UsesOf(s: Cache, ops: seq<Op>): Uses {
    if ops == [] then Uses(0, 0, 0, 0, 0)
    else
      var front, op := ops[..|ops| - 1], ops[|ops| - 1];
      Counted(UsesOf(s, front), Run(s, front), op, Run(s, ops))
  }

  function Counted(u: Uses, before: Cache, op: Op, after: Cache): Uses {
    match op
    case LookupOp(_, coord) => if Holds(before, coord) then u.(hits := u.hits + 1) else u.(misses := u.misses + 1)
    case OfferOp(_, coord, data) =>
      if Considered(before, op) then
        if Holds(before, coord) then u
        else if Holds(after, coord) then u.(stores := u.stores + 1)
        else u.(rejections := u.rejections + 1)
      else if before.maxBytes > 0 && before.maxSlots > 0 then u.(oversize := u.oversize + 1)
      else u
    case _ => u
  }

  /** Lookups and offers are counted as what they came to, and every chunk ever stored is held, evicted or invalidated. */
  predicate Balanced(s: Cache, u: Uses) {
    && s.counters.hits == u.hits && s.counters.misses == u.misses
    && s.counters.rejections == u.rejections && s.counters.oversize == u.oversize
    && |s.slots| + s.counters.evictions + s.counters.invalidations == u.stores
  }

  lemma OfferBalanced(s: Cache, op: Op, u: Uses)
    requires Inv(s) && op.OfferOp? && Balanced(s, u)
    ensures Balanced(Step(s, op), Counted(u, s, op, Step(s, op)))
  {
    OtherOffers(s, op.pass, op.coord, op.data);
    if Considered(s, op) && !Holds(s, op.coord) {
      KeptIffRoom(s, op.pass, op.coord, op.data);
      if Admission(s, op.pass, op.coord, |op.data|).Stored? {
        StoredFits(s, op.pass, op.coord, op.data);
        StoredSlots(s, op.pass, op.coord, op.data);
      }
    }
  }

  lemma {:induction false} CountersAreHistory(maxBytes: nat, maxSlots: nat, ops: seq<Op>)
    requires AllIssued(Empty(maxBytes, maxSlots), ops)
    ensures var s := Empty(maxBytes, maxSlots); Balanced(Run(s, ops), UsesOf(s, ops))
  {
    if ops != [] {
      var s, front, op := Empty(maxBytes, maxSlots), ops[..|ops| - 1], ops[|ops| - 1];
      CountersAreHistory(maxBytes, maxSlots, front);
      ReachableInv(maxBytes, maxSlots, front);
      if op.OfferOp? {
        OfferBalanced(Run(s, front), op, UsesOf(s, front));
      }
    }
  }

  // ---- Recency ----

  /** The step serves `coord`, stores it, or offers it again while it is held. */
  predicate UsesChunk(s: Cache, op: Op, coord: Coord) {
    match op
    case LookupOp(_, c) => c == coord && Holds(s, coord)
    case OfferOp(_, c, _) => c == coord && Considered(s, op) && Holds(Step(s, op), coord)
    case _ => false
  }

  /** The number of the last step of the run that used `coord`, from 1; 0 if none did. */
  function LastUse(s: Cache, ops: seq<Op>, coord: Coord): (n: nat)
    ensures n <= |ops|
  {
    if ops == [] then 0
    else
      var front, op := ops[..|ops| - 1], ops[|ops| - 1];
      if UsesChunk(Run(s, front), op, coord) then |ops| else LastUse(s, front, coord)
  }

  predicate SameAccess(a: Held, b: Held) {
    a.coord == b.coord && a.lastAccess == b.lastAccess
  }

  /** `g` is a slot of `s` untouched, chunk and time of access. */
  ghost predicate Untouched(s: Cache, g: Held) {
    exists k :: 0 <= k < |s.slots| && SameAccess(s.slots[k], g)
  }

  /** After any step a slot that the step used was accessed last, and any other when it was before. */
  lemma StepAccess(s: Cache, op: Op, i: nat)
    requires Inv(s) && Issued(s, op) && i < |Step(s, op).slots|
    ensures var g := Step(s, op).slots[i];
      if UsesChunk(s, op, g.coord) then g.lastAccess == s.tick + 1 else Untouched(s, g)
  {
    var g := Step(s, op).slots[i];
    match op
    case LookupOp(pass, coord) => LookupAccess(s, pass, coord, i);
    case OfferOp(pass, coord, data) => OfferAccess(s, op, i);
    case BeginOp => assert SameAccess(s.slots[i], g);
    case ClearOp =>
  }

  lemma LookupAccess(s: Cache, pass: nat, coord: Coord, i: nat)
    requires Inv(s) && i < |Lookup(s, pass, coord).0.slots|
    ensures var g := Lookup(s, pass, coord).0.slots[i];
      if g.coord == coord then Holds(s, coord) && g.lastAccess == s.tick + 1 else Untouched(s, g)
  {
    var g := Lookup(s, pass, coord).0.slots[i];
    if g.coord != coord {
      assert SameAccess(s.slots[i], g);
    }
  }

  lemma OfferAccess(s: Cache, op: Op, i: nat)
    requires Inv(s) && op.OfferOp? && i < |Step(s, op).slots|
    ensures var g := Step(s, op).slots[i];
      if UsesChunk(s, op, g.coord) then g.lastAccess == s.tick + 1 else Untouched(s, g)
  {
    var pass, coord, data := op.pass, op.coord, op.data;
    var t := Offer(s, pass, coord, data);
    var g := t.slots[i];
    if Admission(s, pass, coord, |data|).Stored? {
      StoredAccess(s, pass, coord, data, i);
    } else {
      RefusedKeeps(s, pass, coord, data);
      assert Contents(s.slots)[i] == Contents(t.slots)[i];
      assert g.coord == coord ==> Find(s.slots, coord) == i;
      if !UsesChunk(s, op, g.coord) {
        assert SameAccess(s.slots[i], g);
      }
    }
  }

  lemma StoredAccess(s: Cache, pass: nat, coord: Coord, data: seq<byte>, i: nat)
    requires Inv(s) && Admission(s, pass, coord, |data|).Stored? && i < |Offer(s, pass, coord, data).slots|
    ensures var g := Offer(s, pass, coord, data).slots[i];
      if g.coord == coord then g.lastAccess == s.tick + 1 else Untouched(s, g)
    ensures Holds(Offer(s, pass, coord, data), coord)
  {
    StoredFits(s, pass, coord, data);
    var kept := StoredOffer(s, pass, coord, data);
    if i < |kept| {
      assert kept[i] in multiset(kept) && kept[i] in multiset(s.slots);
      var k :| 0 <= k < |s.slots| && s.slots[k] == kept[i];
      assert SameAccess(s.slots[k], kept[i]) && kept[i].coord != coord;
    }
  }

  /** Of two slots the one used earlier was accessed earlier. */
  ghost predicate InOrderOfUse(start: Cache, ops: seq<Op>, a: Held, b: Held) {
    a.lastAccess < b.lastAccess <==> LastUse(start, ops, a.coord) < LastUse(start, ops, b.coord)
  }

  /** In every run, whatever passes interleave in it, held chunks were accessed in the order of their last uses. */
  lemma {:induction false} RecencyIsHistory(maxBytes: nat, maxSlots: nat, ops: seq<Op>, i: nat, j: nat)
    requires AllIssued(Empty(maxBytes, maxSlots), ops)
    requires var s := Run(Empty(maxBytes, maxSlots), ops); i < |s.slots| && j < |s.slots|
    ensures var start := Empty(maxBytes, maxSlots);
      var s := Run(start, ops);
      InOrderOfUse(start, ops, s.slots[i], s.slots[j])
  {
    var start := Empty(maxBytes, maxSlots);
    if ops != [] && i != j {
      var front, op := ops[..|ops| - 1], ops[|ops| - 1];
      var s, t := Run(start, front), Run(start, ops);
      var a, b := t.slots[i], t.slots[j];
      ReachableInv(maxBytes, maxSlots, front);
      ReachableInv(maxBytes, maxSlots, ops);
      StepAccess(s, op, i);
      StepAccess(s, op, j);
      if Untouched(s, a) && Untouched(s, b) {
        var k :| 0 <= k < |s.slots| && SameAccess(s.slots[k], a);
        var m :| 0 <= m < |s.slots| && SameAccess(s.slots[m], b);
        if !UsesChunk(s, op, a.coord) && !UsesChunk(s, op, b.coord) {
          RecencyIsHistory(maxBytes, maxSlots, front, k, m);
        }
      }
    }
  }

  lemma SlotHolds(s: Cache, h: Held)
    requires h in s.slots
    ensures Holds(s, h.coord)
  {
  }

  lemma RefusedHolds(s: Cache, pass: nat, coord: Coord, data: seq<byte>, i: nat)
    requires !Admission(s, pass, coord, |data|).Stored? && i < |s.slots|
    ensures Holds(Offer(s, pass, coord, data), s.slots[i].coord)
  {
    var t := Offer(s, pass, coord, data);
    RefusedKeeps(s, pass, coord, data);
    assert Contents(s.slots)[i] == Contents(t.slots)[i];
    SlotHolds(t, t.slots[i]);
  }

  /** A chunk that is gone once `kept` and `last` are all that is left, and one that is not. */
  lemma GoneBefore(s: Cache, t: Cache, kept: seq<Held>, last: Held, pass: nat, i: nat, j: nat)
    requires Inv(s) && i < |s.slots| && j < |s.slots| && Reclaimable(s.slots[j], pass)
    requires t.slots == kept + [last] && OldestGone(s.slots, kept, pass) && !Holds(s, last.coord)
    requires !Holds(t, s.slots[i].coord) && Holds(t, s.slots[j].coord)
    ensures s.slots[i].lastAccess < s.slots[j].lastAccess && Reclaimable(s.slots[i], pass)
  {
    var h, g, k := s.slots[i], s.slots[j], Find(t.slots, s.slots[j].coord);
    assert g.coord != last.coord;
    assert kept[k] in multiset(kept) && kept[k] in multiset(s.slots);
    assert kept[k] == g;
    if h in kept {
      SlotHolds(t, h);
      assert false;
    }
  }

  /** A chunk that an offer evicts, and one that it might have evicted and did not. */
  lemma EvictedBefore(s: Cache, pass: nat, coord: Coord, data: seq<byte>, i: nat, j: nat)
    requires Inv(s) && i < |s.slots| && j < |s.slots| && Reclaimable(s.slots[j], pass)
    requires !Holds(Offer(s, pass, coord, data), s.slots[i].coord) && Holds(Offer(s, pass, coord, data), s.slots[j].coord)
    ensures s.slots[i].lastAccess < s.slots[j].lastAccess && Reclaimable(s.slots[i], pass)
  {
    if !Admission(s, pass, coord, |data|).Stored? {
      RefusedHolds(s, pass, coord, data, i);
      assert false;
    }
    var kept := StoredOffer(s, pass, coord, data);
    GoneBefore(s, Offer(s, pass, coord, data), kept, Held(coord, data, s.tick + 1, pass), pass, i, j);
  }

  /**
   Least recently used, by the uses of the run: what an offer under `pass` evicts was last used before
   every chunk it leaves that was not the pass's own, and was not the pass's own either.
   */
  lemma EvictsLeastRecentlyUsed(maxBytes: nat, maxSlots: nat, ops: seq<Op>, pass: nat, coord: Coord, data: seq<byte>,
                                gone: Coord, stays: Coord)
    requires AllIssued(Empty(maxBytes, maxSlots), ops)
    requires var s := Run(Empty(maxBytes, maxSlots), ops);
      && pass <= s.pass && Holds(s, gone) && Holds(s, stays)
      && !Holds(Offer(s, pass, coord, data), gone) && Holds(Offer(s, pass, coord, data), stays)
    requires pass == LRU || Keeper(Empty(maxBytes, maxSlots), ops, stays) != Some(pass)
    ensures var start := Empty(maxBytes, maxSlots);
      && LastUse(start, ops, gone) < LastUse(start, ops, stays)
      && (pass == LRU || Keeper(start, ops, gone) != Some(pass))
  {
    var start := Empty(maxBytes, maxSlots);
    var s := Run(start, ops);
    var i, j := Find(s.slots, gone), Find(s.slots, stays);
    ReachableInv(maxBytes, maxSlots, ops);
    OwnershipIsHistory(maxBytes, maxSlots, ops, i);
    OwnershipIsHistory(maxBytes, maxSlots, ops, j);
    EvictedBefore(s, pass, coord, data, i, j);
    RecencyIsHistory(maxBytes, maxSlots, ops, i, j);
  }
}
