/** What holds over every run of the chunk cache: budgets, and which read owns each chunk. */
module CacheRuns {
  import opened Basics
  import opened ChunkCache

  datatype Op =
    | LookupOp(pass: nat, coord: Coord)
    | OfferOp(pass: nat, coord: Coord, data: seq<byte>)
    | BeginOp
    | ClearOp

  /** Only the LRU marker and passes that `begin_pass` has handed out are in circulation. */
  predicate Issued(s: Cache, op: Op) {
    (op.LookupOp? || op.OfferOp?) ==> op.pass <= s.pass
  }

  function Step(s: Cache, op: Op): Cache {
    match op
    case LookupOp(pass, coord) => Lookup(s, pass, coord).0
    case OfferOp(pass, coord, data) => Offer(s, pass, coord, data)
    case BeginOp => BeginPass(s)
    case ClearOp => Clear(s)
  }

  function Run(s: Cache, ops: seq<Op>): Cache {
    if ops == [] then s else Step(Run(s, ops[..|ops| - 1]), ops[|ops| - 1])
  }

  predicate AllIssued(s: Cache, ops: seq<Op>) {
    ops == [] || (AllIssued(s, ops[..|ops| - 1]) && Issued(Run(s, ops[..|ops| - 1]), ops[|ops| - 1]))
  }

  // ---- The invariant ----

  lemma {:induction false} WeightSame(a: seq<Held>, b: seq<Held>, m: Measure)
    requires |a| == |b| && forall i :: 0 <= i < |a| ==> a[i].data == b[i].data
    ensures Weight(a, None, m) == Weight(b, None, m)
  {
    if a != [] {
      WeightSame(a[..|a| - 1], b[..|b| - 1], m);
    }
  }

  /** Refreshing or claiming one slot keeps the invariant. */
  lemma TouchInv(s: Cache, i: nat, who: nat)
    requires Inv(s) && i < |s.slots| && who <= s.pass
    ensures Inv(s.(tick := s.tick + 1, slots := s.slots[i := s.slots[i].(lastAccess := s.tick + 1, storedBy := who)]))
  {
    WeightSame(s.slots, s.slots[i := s.slots[i].(lastAccess := s.tick + 1, storedBy := who)], Bytes);
  }

  lemma LookupInv(s: Cache, pass: nat, coord: Coord)
    requires Inv(s) && pass <= s.pass
    ensures Inv(Lookup(s, pass, coord).0)
  {
    var i := Find(s.slots, coord);
    if i < |s.slots| {
      var h := s.slots[i];
      TouchInv(s, i, if pass != LRU then pass else h.storedBy);
    }
  }

  /** Pushing a chunk into a cache with room for it keeps the invariant. */
  lemma PushInv(room: Cache, h: Held)
    requires Inv(room) && !Full(room, |h.data|) && |h.data| <= room.maxBytes
    requires h.storedBy <= room.pass && h.lastAccess <= room.tick
    requires forall i :: 0 <= i < |room.slots| ==>
      room.slots[i].coord != h.coord && room.slots[i].lastAccess != h.lastAccess
    ensures Inv(room.(slots := room.slots + [h], bytes := room.bytes + |h.data|))
  {
    WeightConcat(room.slots, [h], None, Bytes);
    WeightSingle(h, None, Bytes);
    if room.slots == [] {
      assert room.bytes == 0;
    }
  }

  lemma EvictedFrom(s: Cache, pass: nat, need: nat)
    requires Inv(s)
    ensures forall i :: 0 <= i < |Evict(s, pass, need).slots| ==> Evict(s, pass, need).slots[i] in s.slots
  {
    EvictOldest(s, pass, need);
    var kept := Evict(s, pass, need).slots;
    forall i | 0 <= i < |kept| ensures kept[i] in s.slots {
      assert kept[i] in multiset(kept);
      assert kept[i] in multiset(s.slots);
    }
  }

  /** What an admitted insert finds once room has been made. */
  lemma RoomMade(s: Cache, pass: nat, coord: Coord, need: nat)
    requires Inv(s) && Admission(s, pass, coord, need).Stored?
    ensures var room := Evict(s.(tick := s.tick + 1), pass, need);
      && Inv(room) && !Full(room, need) && |room.slots| <= |s.slots|
      && room.tick == s.tick + 1 && room.pass == s.pass && room.maxBytes == s.maxBytes && room.maxSlots == s.maxSlots
      && room.counters == s.counters.(evictions := s.counters.evictions + |s.slots| - |room.slots|)
      && (forall i :: 0 <= i < |room.slots| ==> room.slots[i].coord != coord && room.slots[i].lastAccess != s.tick + 1)
  {
    var ticked := s.(tick := s.tick + 1);
    EvictInv(ticked, pass, need);
    EvictedFrom(ticked, pass, need);
    var room := Evict(ticked, pass, need);
    forall i | 0 <= i < |room.slots|
      ensures room.slots[i].coord != coord && room.slots[i].lastAccess != s.tick + 1
    {
      assert room.slots[i] in s.slots;
      var k :| 0 <= k < |s.slots| && s.slots[k] == room.slots[i];
    }
  }

  lemma StoredInv(s: Cache, pass: nat, coord: Coord, data: seq<byte>)
    requires Inv(s) && pass <= s.pass && Admission(s, pass, coord, |data|).Stored?
    ensures Inv(Offer(s, pass, coord, data))
  {
    RoomMade(s, pass, coord, |data|);
    PushInv(Evict(s.(tick := s.tick + 1), pass, |data|), Held(coord, data, s.tick + 1, pass));
  }

  lemma OfferInv(s: Cache, pass: nat, coord: Coord, data: seq<byte>)
    requires Inv(s) && pass <= s.pass
    ensures Inv(Offer(s, pass, coord, data))
  {
    match Admission(s, pass, coord, |data|)
    case AlreadyHeld =>
      var i := Find(s.slots, coord);
      TouchInv(s, i, s.slots[i].storedBy);
    case Stored => StoredInv(s, pass, coord, data);
    case _ =>
  }

  /**
   In every reachable state coordinates are distinct, the byte total is the sum of the held
   lengths, and both budgets hold.
   */
  lemma {:induction false} ReachableInv(maxBytes: nat, maxSlots: nat, ops: seq<Op>)
    requires AllIssued(Empty(maxBytes, maxSlots), ops)
    ensures var s := Run(Empty(maxBytes, maxSlots), ops);
      Inv(s) && s.maxBytes == maxBytes && s.maxSlots == maxSlots
  {
    if ops != [] {
      var front, op := ops[..|ops| - 1], ops[|ops| - 1];
      ReachableInv(maxBytes, maxSlots, front);
      var s := Run(Empty(maxBytes, maxSlots), front);
      StepInv(s, op);
    }
  }

  lemma StepInv(s: Cache, op: Op)
    requires Inv(s) && Issued(s, op)
    ensures Inv(Step(s, op)) && Step(s, op).maxBytes == s.maxBytes && Step(s, op).maxSlots == s.maxSlots
    ensures Step(s, op).pass >= s.pass
  {
    match op
    case LookupOp(pass, coord) => LookupInv(s, pass, coord);
    case OfferOp(pass, coord, data) =>
      OfferInv(s, pass, coord, data);
      if Admission(s, pass, coord, |data|).Stored? {
        EvictInv(s.(tick := s.tick + 1), pass, |data|);
      }
    case BeginOp =>
    case ClearOp =>
  }

  // ---- One offer ----

  function Contents(slots: seq<Held>): (c: seq<(Coord, seq<byte>, nat)>)
    ensures |c| == |slots|
  {
    seq(|slots|, i requires 0 <= i < |slots| => (slots[i].coord, slots[i].data, slots[i].storedBy))
  }

  /** A refused offer changes no held chunk, no owner and no byte total. */
  lemma RefusedKeeps(s: Cache, pass: nat, coord: Coord, data: seq<byte>)
    requires !Admission(s, pass, coord, |data|).Stored?
    ensures Contents(Offer(s, pass, coord, data).slots) == Contents(s.slots)
    ensures Offer(s, pass, coord, data).bytes == s.bytes
    ensures Offer(s, pass, coord, data).counters.evictions == s.counters.evictions
  {
  }

  /** No more was evicted than needed: with some victim still held there was no room. */
  ghost predicate Tight(s: Cache, kept: seq<Held>, pass: nat, need: nat) {
    |kept| < |s.slots| ==>
      exists h :: h in s.slots && Reclaimable(h, pass) &&
                  NoRoom(|kept| + 1, Weight(kept, None, Bytes) + |h.data|, need, s)
  }

  /**
   A stored offer ends with the chunk in the last slot, owned by the pass. What it evicted is the
   least recently used part of what it may evict, and no more than it needed.
   */
  lemma StoredOffer(s: Cache, pass: nat, coord: Coord, data: seq<byte>) returns (kept: seq<Held>)
    requires Inv(s) && Admission(s, pass, coord, |data|).Stored?
    ensures Offer(s, pass, coord, data).slots == kept + [Held(coord, data, s.tick + 1, pass)]
    ensures OldestGone(s.slots, kept, pass) && Tight(s, kept, pass, |data|)
    ensures |kept| <= |s.slots| && Offer(s, pass, coord, data).counters
         == s.counters.(evictions := s.counters.evictions + (|s.slots| - |kept|))
  {
    kept := Kept(s, pass, |data|);
    StoredSlots(s, pass, coord, data);
    KeptOldest(s, pass, |data|);
    KeptTight(s, pass, |data|);
  }

  /** What an insert of `need` bytes under `pass` leaves of the slots. */
  function Kept(s: Cache, pass: nat, need: nat): seq<Held> {
    Evict(s.(tick := s.tick + 1), pass, need).slots
  }

  lemma StoredSlots(s: Cache, pass: nat, coord: Coord, data: seq<byte>)
    requires Inv(s) && Admission(s, pass, coord, |data|).Stored?
    ensures var kept := Kept(s, pass, |data|);
      && Offer(s, pass, coord, data).slots == kept + [Held(coord, data, s.tick + 1, pass)]
      && |kept| <= |s.slots|
      && Offer(s, pass, coord, data).counters
         == s.counters.(evictions := s.counters.evictions + (|s.slots| - |kept|))
  {
    RoomMade(s, pass, coord, |data|);
  }

  lemma KeptOldest(s: Cache, pass: nat, need: nat)
    requires Inv(s)
    ensures OldestGone(s.slots, Kept(s, pass, need), pass)
  {
    EvictOldest(s.(tick := s.tick + 1), pass, need);
  }

  lemma KeptTight(s: Cache, pass: nat, need: nat)
    requires Inv(s)
    ensures Tight(s, Kept(s, pass, need), pass, need)
  {
    EvictMinimal(s.(tick := s.tick + 1), pass, need);
    TightTick(s, Kept(s, pass, need), pass, need);
  }

  lemma TightTick(s: Cache, kept: seq<Held>, pass: nat, need: nat)
    requires Tight(s.(tick := s.tick + 1), kept, pass, need)
    ensures Tight(s, kept, pass, need)
  {
    if |kept| < |s.slots| {
      var ticked := s.(tick := s.tick + 1);
      var h :| h in ticked.slots && Reclaimable(h, pass) &&
               NoRoom(|kept| + 1, Weight(kept, None, Bytes) + |h.data|, need, ticked);
      assert h in s.slots && NoRoom(|kept| + 1, Weight(kept, None, Bytes) + |h.data|, need, s);
    }
  }

  lemma TightDrop(s: Cache, i: nat, kept: seq<Held>, pass: nat, need: nat)
    requires i < |s.slots| && |kept| < |Drop(s, i).slots| && Tight(Drop(s, i), kept, pass, need)
    ensures Tight(s, kept, pass, need)
  {
    var mid := Drop(s, i);
    var h :| h in mid.slots && Reclaimable(h, pass) &&
             NoRoom(|kept| + 1, Weight(kept, None, Bytes) + |h.data|, need, mid);
    FromSwapRemove(s.slots, i, h);
    assert NoRoom(|kept| + 1, Weight(kept, None, Bytes) + |h.data|, need, s);
  }

  lemma TightOne(s: Cache, i: nat, pass: nat, need: nat)
    requires Inv(s) && i < |s.slots| && Reclaimable(s.slots[i], pass) && Full(s, need)
    ensures Tight(s, Drop(s, i).slots, pass, need)
  {
    DropInv(s, i);
    var h := s.slots[i];
    assert h in s.slots && NoRoom(|s.slots|, s.bytes, need, s);
  }

  lemma {:induction false} EvictMinimal(s: Cache, pass: nat, need: nat)
    requires Inv(s)
    ensures Tight(s, Evict(s, pass, need).slots, pass, need)
    decreases |s.slots|
  {
    var v := Victim(s.slots, pass, |s.slots|);
    if Full(s, need) && v.Some? {
      var mid := Drop(s, v.value);
      DropInv(s, v.value);
      EvictMinimal(mid, pass, need);
      EvictInv(mid, pass, need);
      if |Evict(mid, pass, need).slots| < |mid.slots| {
        TightDrop(s, v.value, Evict(mid, pass, need).slots, pass, need);
      } else {
        EvictNone(mid, pass, need);
        TightOne(s, v.value, pass, need);
      }
    }
  }

  lemma EvictNone(s: Cache, pass: nat, need: nat)
    requires Inv(s) && |Evict(s, pass, need).slots| == |s.slots|
    ensures Evict(s, pass, need) == s
  {
    var v := Victim(s.slots, pass, |s.slots|);
    if Full(s, need) && v.Some? {
      DropInv(s, v.value);
      EvictInv(Drop(s, v.value), pass, need);
    }
  }

  /** An insert by the plain LRU rule is never rejected for lack of room. */
  lemma {:induction false} LruNeverRejected(s: Cache, coord: Coord, data: seq<byte>)
    requires Inv(s)
    ensures !Admission(s, LRU, coord, |data|).Rejected?
  {
    LruKeepsNothing(s.slots, Slots);
    LruKeepsNothing(s.slots, Bytes);
  }

  lemma {:induction false} LruKeepsNothing(slots: seq<Held>, m: Measure)
    ensures Weight(slots, Some(LRU), m) == 0
  {
    if slots != [] {
      LruKeepsNothing(slots[..|slots| - 1], m);
    }
  }

  // ---- Ownership over runs ----

  predicate Owns(s: Cache, pass: nat, coord: Coord) {
    exists h :: h in s.slots && h.coord == coord && h.storedBy == pass
  }

  /** A real pass comes to own a chunk by storing it or by being served it. */
  lemma Acquire(s: Cache, pass: nat, coord: Coord, data: seq<byte>)
    requires Inv(s) && pass != LRU
    ensures Holds(s, coord) ==> Owns(Lookup(s, pass, coord).0, pass, coord)
    ensures Admission(s, pass, coord, |data|).Stored? ==> Owns(Offer(s, pass, coord, data), pass, coord)
  {
    if Holds(s, coord) {
      var next := Lookup(s, pass, coord).0;
      assert next.slots[Find(s.slots, coord)] in next.slots;
    }
    if Admission(s, pass, coord, |data|).Stored? {
      var kept := StoredOffer(s, pass, coord, data);
      assert Held(coord, data, s.tick + 1, pass) in Offer(s, pass, coord, data).slots;
    }
  }

  /** An insert under a real pass leaves that pass every chunk it owns. */
  lemma OfferKeepsOwned(s: Cache, pass: nat, coord: Coord, other: Coord, data: seq<byte>)
    requires Inv(s) && pass <= s.pass && pass != LRU && Owns(s, pass, coord)
    ensures Owns(Offer(s, pass, other, data), pass, coord)
  {
    var h :| h in s.slots && h.coord == coord && h.storedBy == pass;
    var i :| 0 <= i < |s.slots| && s.slots[i] == h;
    var next := Offer(s, pass, other, data);
    if Admission(s, pass, other, |data|).Stored? {
      var kept := StoredOffer(s, pass, other, data);
      assert h in kept;
      assert h in next.slots;
    } else {
      RefusedKeeps(s, pass, other, data);
      assert Contents(next.slots)[i] == Contents(s.slots)[i];
      assert next.slots[i] in next.slots;
    }
  }

  // ---- Ownership is history ----

  /** The last pass in the run that stored `coord`, or as a real pass was served it. */
  function Keeper(s: Cache, ops: seq<Op>, coord: Coord): Option<nat> {
    if ops == [] then None
    else
      var front, op := ops[..|ops| - 1], ops[|ops| - 1];
      if Takes(Run(s, front), op, coord) then Some(op.pass) else Keeper(s, front, coord)
  }

  /** The step stores `coord`, or serves it to a real pass. */
  predicate Takes(s: Cache, op: Op, coord: Coord) {
    match op
    case LookupOp(pass, c) => c == coord && pass != LRU && Holds(s, c)
    case OfferOp(pass, c, data) => c == coord && Admission(s, pass, c, |data|).Stored?
    case _ => false
  }

  predicate SameOwner(a: Held, b: Held) {
    a.coord == b.coord && a.storedBy == b.storedBy
  }

  /** After any step a slot has the owner it had, unless the step took the chunk for its pass. */
  lemma StepOwner(s: Cache, op: Op, i: nat)
    requires Inv(s) && Issued(s, op) && i < |Step(s, op).slots|
    ensures var g := Step(s, op).slots[i];
      if Takes(s, op, g.coord) then g.storedBy == op.pass
      else exists k :: 0 <= k < |s.slots| && SameOwner(s.slots[k], g)
  {
    var g := Step(s, op).slots[i];
    match op
    case LookupOp(pass, coord) => LookupOwner(s, pass, coord, i);
    case OfferOp(pass, coord, data) => OfferOwner(s, pass, coord, data, i);
    case BeginOp => assert SameOwner(s.slots[i], g);
    case ClearOp =>
  }

  lemma LookupOwner(s: Cache, pass: nat, coord: Coord, i: nat)
    requires Inv(s) && i < |Lookup(s, pass, coord).0.slots|
    ensures var g := Lookup(s, pass, coord).0.slots[i];
      if g.coord == coord && pass != LRU then g.storedBy == pass && Holds(s, coord)
      else i < |s.slots| && SameOwner(s.slots[i], g)
  {
  }

  lemma OfferOwner(s: Cache, pass: nat, coord: Coord, data: seq<byte>, i: nat)
    requires Inv(s) && i < |Offer(s, pass, coord, data).slots|
    ensures var g, stored := Offer(s, pass, coord, data).slots[i], Admission(s, pass, coord, |data|).Stored?;
      if stored && g.coord == coord then g.storedBy == pass
      else exists k :: 0 <= k < |s.slots| && SameOwner(s.slots[k], g)
  {
    var g := Offer(s, pass, coord, data).slots[i];
    if Admission(s, pass, coord, |data|).Stored? {
      var kept := StoredOffer(s, pass, coord, data);
      if i < |kept| {
        assert kept[i] in multiset(kept) && kept[i] in multiset(s.slots);
        var k :| 0 <= k < |s.slots| && s.slots[k] == kept[i];
        assert SameOwner(s.slots[k], g) && g.coord != coord;
      }
    } else {
      RefusedKeeps(s, pass, coord, data);
      assert Contents(s.slots)[i] == Contents(Offer(s, pass, coord, data).slots)[i];
      assert SameOwner(s.slots[i], g);
    }
  }

  /** In every run, whatever passes interleave in it, a held chunk belongs to the last pass that stored or was served it. */
  lemma {:induction false} OwnershipIsHistory(maxBytes: nat, maxSlots: nat, ops: seq<Op>, i: nat)
    requires AllIssued(Empty(maxBytes, maxSlots), ops) && i < |Run(Empty(maxBytes, maxSlots), ops).slots|
    ensures var s := Empty(maxBytes, maxSlots);
      var h := Run(s, ops).slots[i];
      Keeper(s, ops, h.coord) == Some(h.storedBy)
  {
    var s := Empty(maxBytes, maxSlots);
    if ops != [] {
      var front, op, g := ops[..|ops| - 1], ops[|ops| - 1], Run(s, ops).slots[i];
      ReachableInv(maxBytes, maxSlots, front);
      StepOwner(Run(s, front), op, i);
      if !Takes(Run(s, front), op, g.coord) {
        var k :| 0 <= k < |Run(s, front).slots| && SameOwner(Run(s, front).slots[k], g);
        OwnershipIsHistory(maxBytes, maxSlots, front, k);
      }
    }
  }

  /**
   Pass protection: after any run, an insert under a real pass leaves every chunk that the pass was
   the last to store or be served.
   */
  lemma PassKeepsItsChunks(maxBytes: nat, maxSlots: nat, ops: seq<Op>, pass: nat, coord: Coord, other: Coord,
                           data: seq<byte>)
    requires AllIssued(Empty(maxBytes, maxSlots), ops) && pass != LRU
    requires var s := Run(Empty(maxBytes, maxSlots), ops);
      pass <= s.pass && Holds(s, coord) && Keeper(Empty(maxBytes, maxSlots), ops, coord) == Some(pass)
    ensures var s, t := Run(Empty(maxBytes, maxSlots), ops),
                        Run(Empty(maxBytes, maxSlots), ops + [OfferOp(pass, other, data)]);
      && t == Offer(s, pass, other, data) && Owns(t, pass, coord)
      && Keeper(Empty(maxBytes, maxSlots), ops + [OfferOp(pass, other, data)], coord) == Some(pass)
  {
    var s, more := Run(Empty(maxBytes, maxSlots), ops), ops + [OfferOp(pass, other, data)];
    assert more[..|more| - 1] == ops;
    ReachableInv(maxBytes, maxSlots, ops);
    var i := Find(s.slots, coord);
    OwnershipIsHistory(maxBytes, maxSlots, ops, i);
    assert s.slots[i] in s.slots;
    OfferKeepsOwned(s, pass, coord, other, data);
  }

  /** A lookup by the plain LRU rule changes no owner. */
  lemma LruHitKeepsOwners(s: Cache, coord: Coord)
    ensures Contents(Lookup(s, LRU, coord).0.slots) == Contents(s.slots)
  {
  }
}
