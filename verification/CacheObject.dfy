/** The code of the chunk cache (`CacheInner` and its methods in src/chunk_cache.rs), proved to take the steps of `ChunkCache`. */
module CacheObject {
  import opened Basics
  import opened ChunkCache
  import opened CacheRuns

  class CacheInner {
    var slots: seq<Held>
    var currentBytes: nat
    const maxBytes: nat
    const maxSlots: nat
    var tick: nat
    var pass: nat
    var counters: Counters

    function State(): Cache
      reads this
    {
      Cache(slots, currentBytes, maxBytes, maxSlots, tick, pass, counters)
    }

    ghost predicate Valid()
      reads this
    {
      Inv(State())
    }

    constructor (maxBytes: nat, maxSlots: nat)
      ensures Valid() && State() == Empty(maxBytes, maxSlots)
    {
      this.maxBytes, this.maxSlots := maxBytes, maxSlots;
      slots, currentBytes, tick, pass, counters := [], 0, 0, 0, ZERO;
    }

    /** `begin_pass`: hands out a number that owns no slot and is not the LRU marker. */
    method BeginPass() returns (begun: nat)
      requires Valid()
      modifies this
      ensures Valid() && State() == ChunkCache.BeginPass(old(State()))
      ensures begun == pass && begun != LRU
      ensures forall i :: 0 <= i < |slots| ==> slots[i].storedBy != begun
    {
      pass := pass + 1;
      begun := pass;
    }

    method Clear()
      requires Valid()
      modifies this
      ensures Valid() && State() == ChunkCache.Clear(old(State()))
    {
      counters := counters.(invalidations := counters.invalidations + |slots|);
      slots, currentBytes, tick := [], 0, 0;
    }

    /** The scan both entry points begin with. */
    method FindSlot(coord: Coord) returns (i: nat)
      ensures i == Find(slots, coord)
    {
      i := 0;
      while i < |slots| && slots[i].coord != coord
        invariant i <= |slots|
        invariant forall j :: 0 <= j < i ==> slots[j].coord != coord
      {
        i := i + 1;
      }
    }

    /** `with_decompressed`, returning the bytes the closure would be given. */
    method WithDecompressed(owner: nat, coord: Coord) returns (bytes: Option<seq<byte>>)
      requires Valid() && owner <= pass
      modifies this
      ensures Valid() && (State(), bytes) == Lookup(old(State()), owner, coord)
    {
      LookupInv(State(), owner, coord);
      tick := tick + 1;
      var i := FindSlot(coord);
      if i == |slots| {
        counters := counters.(misses := counters.misses + 1);
        return None;
      }
      bytes := Some(slots[i].data);
      ghost var before := slots;
      slots := slots[i := slots[i].(lastAccess := tick)];
      if owner != LRU {
        slots := slots[i := slots[i].(storedBy := owner)];
      }
      assert slots == before[i := slots[i]];
      counters := counters.(hits := counters.hits + 1);
    }

    /** The fold over the reclaimable slots, before anything is removed. */
    method CountReclaimable(owner: nat) returns (freedSlots: nat, freedBytes: nat)
      ensures freedSlots + Weight(slots, Some(owner), Slots) == |slots|
      ensures freedBytes + Weight(slots, Some(owner), Bytes) == Weight(slots, None, Bytes)
    {
      freedSlots, freedBytes := 0, 0;
      for i := 0 to |slots|
        invariant freedSlots + Weight(slots[..i], Some(owner), Slots) == i
        invariant freedBytes + Weight(slots[..i], Some(owner), Bytes) == Weight(slots[..i], None, Bytes)
      {
        assert slots[..i + 1][..i] == slots[..i];
        if Reclaimable(slots[i], owner) {
          freedSlots, freedBytes := freedSlots + 1, freedBytes + |slots[i].data|;
        }
      }
      assert slots[..|slots|] == slots;
    }

    /** `min_by_key` over the reclaimable slots. */
    method FindVictim(owner: nat) returns (v: Option<nat>)
      ensures v == Victim(slots, owner, |slots|)
    {
      v := None;
      for i := 0 to |slots|
        invariant v == Victim(slots, owner, i)
      {
        if Reclaimable(slots[i], owner) && (v.None? || slots[i].lastAccess < slots[v.value].lastAccess) {
          v := Some(i);
        }
      }
    }

    /** The eviction loop. Its "cannot make room" branch is unreachable, so a victim is asserted instead. */
    method MakeRoom(owner: nat, need: nat)
      requires Valid() && Feasible(State(), owner, need)
      modifies this
      ensures Valid() && State() == Evict(old(State()), owner, need)
      ensures !Full(State(), need)
    {
      ghost var before := State();
      while |slots| >= maxSlots || (currentBytes + need > maxBytes && |slots| > 0)
        invariant Valid() && Feasible(State(), owner, need)
        invariant Evict(State(), owner, need) == Evict(before, owner, need)
        decreases |slots|
      {
        var v := FindVictim(owner);
        VictimExists(State(), owner, need);
        DropInv(State(), v.value);
        DropFeasible(State(), owner, need, v.value);
        ghost var dropped := Drop(State(), v.value);
        var removed := slots[v.value];
        slots := SwapRemove(slots, v.value);
        currentBytes := currentBytes - |removed.data|;
        counters := counters.(evictions := counters.evictions + 1);
        assert State() == dropped;
      }
    }

    /** The test that removing every reclaimable slot would make room. */
    method CanMakeRoom(owner: nat, need: nat) returns (feasible: bool)
      requires Valid()
      ensures feasible <==> Feasible(State(), owner, need)
    {
      var freedSlots, freedBytes := CountReclaimable(owner);
      var leastSlots, leastBytes := |slots| - freedSlots, currentBytes - freedBytes;
      feasible := !(leastSlots >= maxSlots || (leastBytes + need > maxBytes && leastSlots > 0));
    }

    /** Makes room for `need` bytes and charges the byte total for them. */
    method Charge(owner: nat, need: nat)
      requires Valid() && Feasible(State(), owner, need)
      modifies this
      ensures var room := Evict(old(State()), owner, need); State() == room.(bytes := room.bytes + need)
      ensures tick == old(tick)
    {
      EvictInv(State(), owner, need);
      MakeRoom(owner, need);
      currentBytes := currentBytes + need;
    }

    /**
     `reserve`: makes room for a chunk and says whether to store it. On `true` the caller must push
     the slot, for which the byte total is already charged.
     */
    method Reserve(owner: nat, coord: Coord, need: nat) returns (ok: bool)
      requires Valid()
      modifies this
      ensures ok <==> Admission(old(State()), owner, coord, need).Stored?
      ensures ok ==> State() == Charged(old(State()), owner, need) && tick == old(tick) + 1
      ensures !ok ==> State() == Offer(old(State()), owner, coord, seq(need, i => 0))
    {
      if maxBytes == 0 || maxSlots == 0 {
        return false;
      }
      if need > maxBytes {
        counters := counters.(oversize := counters.oversize + 1);
        return false;
      }
      tick := tick + 1;
      var i := FindSlot(coord);
      if i < |slots| {
        slots := slots[i := slots[i].(lastAccess := tick)];
        return false;
      }
      var feasible := CanMakeRoom(owner, need);
      if !feasible {
        counters := counters.(rejections := counters.rejections + 1);
        return false;
      }
      Charge(owner, need);
      ok := true;
    }

    /** `put_decompressed` and `put_decompressed_slice`. */
    method PutDecompressed(owner: nat, coord: Coord, data: seq<byte>)
      requires Valid() && owner <= pass
      modifies this
      ensures Valid() && State() == Offer(old(State()), owner, coord, data)
    {
      OfferInv(State(), owner, coord, data);
      ghost var zeros: seq<byte> := seq(|data|, i => 0);
      assert !Admission(State(), owner, coord, |data|).Stored? ==>
        Offer(State(), owner, coord, zeros) == Offer(State(), owner, coord, data);
      var ok := Reserve(owner, coord, |data|);
      if ok {
        slots := slots + [Held(coord, data, tick, owner)];
      }
    }

    /** `decompressed_coords`. */
    method DecompressedCoords() returns (coords: seq<Coord>)
      ensures forall c :: c in coords <==> Holds(State(), c)
    {
      var held := slots;
      coords := seq(|held|, i requires 0 <= i < |held| => held[i].coord);
      forall c ensures c in coords <==> Holds(State(), c) {
        if c in coords {
          var i :| 0 <= i < |coords| && coords[i] == c;
          assert slots[i].coord == c;
        }
        if Holds(State(), c) {
          assert coords[Find(slots, c)] == c;
        }
      }
    }
  }
}
