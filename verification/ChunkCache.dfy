/**
 The cache of decompressed chunks (src/chunk_cache.rs): least-recently-used eviction under a byte
 and a slot budget, with per-read passes that keep what they stored or were served.

 `Cache` is the state behind the lock and each function on it is one locked step. The code is in
 `CacheObject`, whose methods are proved to take these steps.
 */
module ChunkCache {
  import opened Basics

  type Coord = seq<nat>

  /** Admission by the plain LRU rule. A real pass is numbered from 1. */
  const LRU: nat := 0

  datatype Held = Held(coord: Coord, data: seq<byte>, lastAccess: nat, storedBy: nat)

  datatype Counters = Counters(hits: nat, misses: nat, evictions: nat, rejections: nat, oversize: nat,
                               invalidations: nat)

  const ZERO: Counters := Counters(0, 0, 0, 0, 0, 0)

  datatype Cache = Cache(slots: seq<Held>, bytes: nat, maxBytes: nat, maxSlots: nat, tick: nat, pass: nat,
                         counters: Counters)

  function Empty(maxBytes: nat, maxSlots: nat): Cache {
    Cache([], 0, maxBytes, maxSlots, 0, 0, ZERO)
  }

  /** Whether an insert under `pass` may evict `h`. */
  predicate Reclaimable(h: Held, pass: nat) {
    pass == LRU || h.storedBy != pass
  }

  // ---- Weights: slot counts and byte totals, of all slots or of those a pass must keep ----

  datatype Measure = Slots | Bytes

  function WeightOf(h: Held, keeper: Option<nat>, m: Measure): nat {
    if keeper.Some? && Reclaimable(h, keeper.value) then 0
    else match m case Slots => 1 case Bytes => |h.data|
  }

  function Weight(slots: seq<Held>, keeper: Option<nat>, m: Measure): nat {
    if slots == [] then 0
    else Weight(slots[..|slots| - 1], keeper, m) + WeightOf(slots[|slots| - 1], keeper, m)
  }

  lemma {:induction false} WeightConcat(a: seq<Held>, b: seq<Held>, keeper: Option<nat>, m: Measure)
    ensures Weight(a + b, keeper, m) == Weight(a, keeper, m) + Weight(b, keeper, m)
  {
    if b == [] {
      assert a + b == a;
    } else {
      WeightConcat(a, b[..|b| - 1], keeper, m);
      assert (a + b)[..|a + b| - 1] == a + b[..|b| - 1];
    }
  }

  lemma WeightSingle(h: Held, keeper: Option<nat>, m: Measure)
    ensures Weight([h], keeper, m) == WeightOf(h, keeper, m)
  {
    assert [h][..0] == [];
  }

  lemma {:induction false} WeightLength(slots: seq<Held>)
    ensures Weight(slots, None, Slots) == |slots|
  {
    if slots != [] {
      WeightLength(slots[..|slots| - 1]);
    }
  }

  lemma {:induction false} WeightKept(slots: seq<Held>, pass: nat, m: Measure)
    ensures Weight(slots, Some(pass), m) <= Weight(slots, None, m)
    ensures (forall h :: h in slots ==> !Reclaimable(h, pass)) ==>
      Weight(slots, Some(pass), m) == Weight(slots, None, m)
  {
    if slots != [] {
      WeightKept(slots[..|slots| - 1], pass, m);
    }
  }

  /** `Vec::swap_remove`: the last element takes the place of the removed one. */
  function SwapRemove(slots: seq<Held>, i: nat): (r: seq<Held>)
    requires i < |slots|
    ensures |r| == |slots| - 1
  {
    var last := |slots| - 1;
    if i == last then slots[..last] else slots[..i] + [slots[last]] + slots[i + 1..last]
  }

  lemma SwapRemoveMultiset(slots: seq<Held>, i: nat)
    requires i < |slots|
    ensures multiset(slots) == multiset(SwapRemove(slots, i)) + multiset{slots[i]}
  {
    var last := |slots| - 1;
    if i == last {
      assert slots == slots[..last] + [slots[last]];
    } else {
      var a, c := slots[..i], slots[i + 1..last];
      assert slots == a + [slots[i]] + c + [slots[last]];
      Exchange(a, slots[i], c, slots[last]);
    }
  }

  lemma Exchange(a: seq<Held>, x: Held, c: seq<Held>, y: Held)
    ensures multiset(a + [x] + c + [y]) == multiset(a + [y] + c) + multiset{x}
  {
  }

  lemma SwapRemoveWeight(slots: seq<Held>, i: nat, keeper: Option<nat>, m: Measure)
    requires i < |slots|
    ensures Weight(slots, keeper, m) == Weight(SwapRemove(slots, i), keeper, m) + WeightOf(slots[i], keeper, m)
  {
    var last := |slots| - 1;
    WeightSingle(slots[i], keeper, m);
    WeightSingle(slots[last], keeper, m);
    if i == last {
      assert slots == slots[..last] + [slots[last]];
    } else {
      var a, c := slots[..i], slots[i + 1..last];
      assert slots == a + [slots[i]] + c + [slots[last]];
      WeightConcat(a + [slots[i]] + c, [slots[last]], keeper, m);
      WeightConcat(a + [slots[i]], c, keeper, m);
      WeightConcat(a, [slots[i]], keeper, m);
      WeightConcat(a + [slots[last]], c, keeper, m);
      WeightConcat(a, [slots[last]], keeper, m);
    }
  }

  // ---- The invariant of every reachable state ----

  predicate DistinctCoords(slots: seq<Held>) {
    forall i, j :: 0 <= i < j < |slots| ==> slots[i].coord != slots[j].coord
  }

  predicate DistinctAccess(slots: seq<Held>) {
    forall i, j :: 0 <= i < j < |slots| ==> slots[i].lastAccess != slots[j].lastAccess
  }

  ghost predicate Inv(s: Cache) {
    && DistinctCoords(s.slots) && DistinctAccess(s.slots)
    && s.bytes == Weight(s.slots, None, Bytes)
    && |s.slots| <= s.maxSlots && s.bytes <= s.maxBytes
    && (forall i :: 0 <= i < |s.slots| ==> s.slots[i].lastAccess <= s.tick && s.slots[i].storedBy <= s.pass)
  }

  // ---- The steps ----

  /** The first slot that holds `coord`, or the number of slots. */
  function Find(slots: seq<Held>, coord: Coord): (i: nat)
    ensures i <= |slots|
    ensures i < |slots| ==> slots[i].coord == coord
    ensures forall j :: 0 <= j < i ==> slots[j].coord != coord
  {
    if slots == [] || slots[0].coord == coord then 0 else 1 + Find(slots[1..], coord)
  }

  predicate Holds(s: Cache, coord: Coord) {
    Find(s.slots, coord) < |s.slots|
  }

  /** `with_decompressed`: a hit refreshes the slot, and a real pass claims it. */
  function Lookup(s: Cache, pass: nat, coord: Coord): (Cache, Option<seq<byte>>) {
    var i, tick := Find(s.slots, coord), s.tick + 1;
    if i == |s.slots| then
      (s.(tick := tick, counters := s.counters.(misses := s.counters.misses + 1)), None)
    else
      var h := s.slots[i];
      var claimed := h.(lastAccess := tick, storedBy := if pass != LRU then pass else h.storedBy);
      (s.(tick := tick, slots := s.slots[i := claimed], counters := s.counters.(hits := s.counters.hits + 1)),
       Some(h.data))
  }

  /** The loop condition of the eviction: there is no room for `need` more bytes. */
  predicate NoRoom(slots: nat, bytes: nat, need: nat, s: Cache) {
    slots >= s.maxSlots || (bytes + need > s.maxBytes && slots > 0)
  }

  predicate Full(s: Cache, need: nat) {
    NoRoom(|s.slots|, s.bytes, need, s)
  }

  /** The test before any eviction: room could be made by removing every reclaimable slot. */
  predicate Feasible(s: Cache, pass: nat, need: nat) {
    !NoRoom(Weight(s.slots, Some(pass), Slots), Weight(s.slots, Some(pass), Bytes), need, s)
  }

  /** The least recently used reclaimable slot among the first `n`, if there is one. */
  function Victim(slots: seq<Held>, pass: nat, n: nat): (v: Option<nat>)
    requires n <= |slots|
    ensures v.Some? ==> v.value < n && Reclaimable(slots[v.value], pass)
    ensures v.Some? ==> forall j :: 0 <= j < n && Reclaimable(slots[j], pass) ==>
                          slots[v.value].lastAccess <= slots[j].lastAccess
    ensures v.None? ==> forall j :: 0 <= j < n ==> !Reclaimable(slots[j], pass)
  {
    if n == 0 then None
    else
      var v := Victim(slots, pass, n - 1);
      if !Reclaimable(slots[n - 1], pass) then v
      else if v.Some? && slots[v.value].lastAccess <= slots[n - 1].lastAccess then v
      else Some(n - 1)
  }

  function Drop(s: Cache, i: nat): Cache
    requires i < |s.slots|
  {
    s.(slots := SwapRemove(s.slots, i),
       bytes := if |s.slots[i].data| <= s.bytes then s.bytes - |s.slots[i].data| else 0,
       counters := s.counters.(evictions := s.counters.evictions + 1))
  }

  /** The eviction loop. */
  function Evict(s: Cache, pass: nat, need: nat): Cache
    decreases |s.slots|
  {
    var v := Victim(s.slots, pass, |s.slots|);
    if Full(s, need) && v.Some? then Evict(Drop(s, v.value), pass, need) else s
  }

  datatype Verdict = Disabled | Oversize | AlreadyHeld | Rejected | Stored

  /** What becomes of an offered chunk. */
  function Admission(s: Cache, pass: nat, coord: Coord, need: nat): Verdict {
    if s.maxBytes == 0 || s.maxSlots == 0 then Disabled
    else if need > s.maxBytes then Oversize
    else if Holds(s, coord) then AlreadyHeld
    else if !Feasible(s, pass, need) then Rejected
    else Stored
  }

  /** `put_decompressed` and `put_decompressed_slice`, with `reserve`. */
  function Offer(s: Cache, pass: nat, coord: Coord, data: seq<byte>): Cache {
    var ticked := s.(tick := s.tick + 1);
    match Admission(s, pass, coord, |data|)
    case Disabled => s
    case Oversize => s.(counters := s.counters.(oversize := s.counters.oversize + 1))
    case AlreadyHeld =>
      var i := Find(s.slots, coord);
      ticked.(slots := s.slots[i := s.slots[i].(lastAccess := s.tick + 1)])
    case Rejected => ticked.(counters := s.counters.(rejections := s.counters.rejections + 1))
    case Stored =>
      var room := Evict(ticked, pass, |data|);
      room.(slots := room.slots + [Held(coord, data, s.tick + 1, pass)], bytes := room.bytes + |data|)
  }

  /** What `reserve` leaves for a chunk to be stored: room, charged to the byte total but not yet filled. */
  function Charged(s: Cache, pass: nat, need: nat): Cache {
    var room := Evict(s.(tick := s.tick + 1), pass, need);
    room.(bytes := room.bytes + need)
  }

  function BeginPass(s: Cache): Cache { s.(pass := s.pass + 1) }

  /** `clear`, which a commit calls; the dropped chunks count as invalidations. */
  function Clear(s: Cache): Cache {
    s.(slots := [], bytes := 0, tick := 0,
       counters := s.counters.(invalidations := s.counters.invalidations + |s.slots|))
  }

  // ---- Eviction ----

  /** `kept` is `slots` without some reclaimable ones, none more recent than a reclaimable one that stays. */
  ghost predicate OldestGone(slots: seq<Held>, kept: seq<Held>, pass: nat) {
    && multiset(kept) <= multiset(slots)
    && (forall h :: h in slots && !Reclaimable(h, pass) ==> h in kept)
    && (forall h, g :: h in slots && h !in kept && g in kept && Reclaimable(g, pass) ==> h.lastAccess <= g.lastAccess)
  }

  lemma InSwapRemove(slots: seq<Held>, i: nat, h: Held)
    requires i < |slots| && h in slots && h != slots[i]
    ensures h in SwapRemove(slots, i)
  {
    SwapRemoveMultiset(slots, i);
    assert h in multiset(slots);
    assert h in multiset(SwapRemove(slots, i));
  }

  lemma FromSwapRemove(slots: seq<Held>, i: nat, h: Held)
    requires i < |slots| && h in SwapRemove(slots, i)
    ensures h in slots
  {
    SwapRemoveMultiset(slots, i);
    assert h in multiset(SwapRemove(slots, i));
    assert h in multiset(slots);
  }

  lemma SwapRemoveAt(slots: seq<Held>, i: nat, j: nat) returns (k: nat)
    requires i < |slots| && j < |slots| - 1
    ensures k < |slots| && k != i && SwapRemove(slots, i)[j] == slots[k]
    ensures k == if j == i then |slots| - 1 else j
  {
    k := if j == i then |slots| - 1 else j;
  }

  lemma SwapRemoveDistinct(slots: seq<Held>, i: nat)
    requires i < |slots|
    ensures DistinctCoords(slots) ==> DistinctCoords(SwapRemove(slots, i))
    ensures DistinctAccess(slots) ==> DistinctAccess(SwapRemove(slots, i))
  {
    var r := SwapRemove(slots, i);
    forall a, b | 0 <= a < b < |r|
      ensures DistinctCoords(slots) ==> r[a].coord != r[b].coord
      ensures DistinctAccess(slots) ==> r[a].lastAccess != r[b].lastAccess
    {
      var x := SwapRemoveAt(slots, i, a);
      var y := SwapRemoveAt(slots, i, b);
      assert x != y;
    }
  }

  lemma DropInv(s: Cache, i: nat)
    requires Inv(s) && i < |s.slots|
    ensures Inv(Drop(s, i))
    ensures Drop(s, i).bytes + |s.slots[i].data| == s.bytes
  {
    SwapRemoveWeight(s.slots, i, None, Bytes);
    SwapRemoveDistinct(s.slots, i);
    var r := SwapRemove(s.slots, i);
    forall j | 0 <= j < |r| ensures r[j].lastAccess <= s.tick && r[j].storedBy <= s.pass {
      var k := SwapRemoveAt(s.slots, i, j);
    }
  }

  /** While there is no room, a feasible insert has a victim, so the loop's failure branch is unreachable. */
  lemma VictimExists(s: Cache, pass: nat, need: nat)
    requires Inv(s) && Full(s, need) && Feasible(s, pass, need)
    ensures Victim(s.slots, pass, |s.slots|).Some?
  {
    WeightLength(s.slots);
    WeightKept(s.slots, pass, Slots);
    WeightKept(s.slots, pass, Bytes);
  }

  lemma DropFeasible(s: Cache, pass: nat, need: nat, i: nat)
    requires Inv(s) && i < |s.slots| && Reclaimable(s.slots[i], pass)
    ensures Feasible(Drop(s, i), pass, need) <==> Feasible(s, pass, need)
  {
    SwapRemoveWeight(s.slots, i, Some(pass), Slots);
    SwapRemoveWeight(s.slots, i, Some(pass), Bytes);
  }

  lemma {:induction false} EvictInv(s: Cache, pass: nat, need: nat)
    requires Inv(s)
    ensures var r := Evict(s, pass, need);
      && Inv(r) && (Feasible(s, pass, need) ==> !Full(r, need))
      && r.(slots := [], bytes := 0, counters := ZERO) == s.(slots := [], bytes := 0, counters := ZERO)
      && |r.slots| <= |s.slots|
      && r.counters == s.counters.(evictions := s.counters.evictions + |s.slots| - |r.slots|)
    decreases |s.slots|
  {
    var v := Victim(s.slots, pass, |s.slots|);
    if Full(s, need) {
      if Feasible(s, pass, need) {
        VictimExists(s, pass, need);
      }
      if v.Some? {
        DropInv(s, v.value);
        DropFeasible(s, pass, need, v.value);
        EvictInv(Drop(s, v.value), pass, need);
      }
    }
  }

  /** Victims are always the least recently used reclaimable slots. */
  lemma {:induction false} EvictOldest(s: Cache, pass: nat, need: nat)
    ensures OldestGone(s.slots, Evict(s, pass, need).slots, pass)
    decreases |s.slots|
  {
    var v := Victim(s.slots, pass, |s.slots|);
    if Full(s, need) && v.Some? {
      var i, mid, kept := v.value, Drop(s, v.value), Evict(s, pass, need).slots;
      EvictOldest(mid, pass, need);
      SwapRemoveMultiset(s.slots, i);
      forall h | h in s.slots && !Reclaimable(h, pass) ensures h in kept {
        InSwapRemove(s.slots, i, h);
      }
      forall h, g | h in s.slots && h !in kept && g in kept && Reclaimable(g, pass)
        ensures h.lastAccess <= g.lastAccess
      {
        assert g in multiset(kept) && g in multiset(mid.slots);
        FromSwapRemove(s.slots, i, g);
        if h != s.slots[i] {
          InSwapRemove(s.slots, i, h);
        }
      }
    }
  }

  // ---- The feasibility test is exact ----

  /** Slots that include every slot a pass must keep weigh at least as much as those. */
  lemma {:induction false} KeptWeight(slots: seq<Held>, kept: seq<Held>, pass: nat, m: Measure)
    requires DistinctCoords(slots)
    requires forall h :: h in slots && !Reclaimable(h, pass) ==> h in kept
    ensures Weight(slots, Some(pass), m) <= Weight(kept, None, m)
  {
    if slots != [] {
      var front, h := slots[..|slots| - 1], slots[|slots| - 1];
      if Reclaimable(h, pass) {
        KeptWeight(front, kept, pass, m);
      } else {
        var i :| 0 <= i < |kept| && kept[i] == h;
        SwapRemoveWeight(kept, i, None, m);
        forall g | g in front && !Reclaimable(g, pass) ensures g in SwapRemove(kept, i) {
          assert g in slots && g.coord != h.coord;
          InSwapRemove(kept, i, g);
        }
        KeptWeight(front, SwapRemove(kept, i), pass, m);
      }
    }
  }

  /**
   The pre-eviction test is exact. When it refuses, no choice of victims makes room; when it
   admits, the eviction loop ends with room.
   */
  lemma FeasibleIsExact(s: Cache, pass: nat, need: nat)
    requires Inv(s)
    ensures Feasible(s, pass, need) <==> !Full(Evict(s, pass, need), need)
    ensures !Feasible(s, pass, need) ==>
      forall kept: seq<Held> :: (forall h :: h in s.slots && !Reclaimable(h, pass) ==> h in kept) ==>
        NoRoom(|kept|, Weight(kept, None, Bytes), need, s)
  {
    EvictInv(s, pass, need);
    EvictOldest(s, pass, need);
    if !Feasible(s, pass, need) {
      forall kept: seq<Held> | forall h :: h in s.slots && !Reclaimable(h, pass) ==> h in kept
        ensures NoRoom(|kept|, Weight(kept, None, Bytes), need, s)
      {
        KeptWeight(s.slots, kept, pass, Slots);
        KeptWeight(s.slots, kept, pass, Bytes);
        WeightLength(kept);
      }
      assert forall h :: h in s.slots && !Reclaimable(h, pass) ==> h in Evict(s, pass, need).slots;
    }
  }
}
