/**
 Reading through the cache an index that may list one coordinate more than once (src/chunked_read.rs,
 src/chunk_cache.rs): which bytes each listing is given, listings that do not decode included.
 */
module Duplicates {
  import opened Basics
  import opened ChunkCache
  import opened SteadyState
  import opened Transparency

  // ---- Leading listings ----

  predicate DecodesAt(truth: Truth, j: nat, coord: Coord)
    requires j < |truth|
  {
    truth[j].0 == coord && truth[j].1.Some?
  }

  /** The first listing before `n` that decodes at the coordinate of listing `n`, or else `n`. */
  function First(truth: Truth, n: nat): (f: nat)
    requires n < |truth|
    ensures f <= n && truth[f].0 == truth[n].0 && (f < n ==> truth[f].1.Some?)
    ensures forall j :: 0 <= j < f ==> !DecodesAt(truth, j, truth[n].0)
  {
    FirstFrom(truth, n, 0)
  }

  function FirstFrom(truth: Truth, n: nat, from: nat): (f: nat)
    requires from <= n < |truth|
    requires forall j :: 0 <= j < from ==> !DecodesAt(truth, j, truth[n].0)
    ensures f <= n && truth[f].0 == truth[n].0 && (f < n ==> truth[f].1.Some?)
    ensures forall j :: 0 <= j < f ==> !DecodesAt(truth, j, truth[n].0)
    decreases n - from
  {
    if from == n || DecodesAt(truth, from, truth[n].0) then from else FirstFrom(truth, n, from + 1)
  }

  lemma {:induction false} FirstIsFirst(truth: Truth, n: nat)
    requires n < |truth|
    ensures First(truth, First(truth, n)) == First(truth, n)
  {
    var f := First(truth, n);
    assert First(truth, f) < f ==> DecodesAt(truth, First(truth, f), truth[n].0);
  }

  /** Listing `n` decodes, and no listing before it does at its coordinate. */
  predicate Leads(truth: Truth, n: nat)
    requires n < |truth|
  {
    truth[n].1.Some? && First(truth, n) == n
  }

  /** The leading listings before `n`, in order. */
  function Leaders(truth: Truth, n: nat): (l: seq<nat>)
    requires n <= |truth|
    ensures forall r :: 0 <= r < |l| ==> l[r] < n && Leads(truth, l[r])
  {
    if n == 0 then []
    else if Leads(truth, n - 1) then Leaders(truth, n - 1) + [n - 1]
    else Leaders(truth, n - 1)
  }

  lemma {:induction false} LeadersGrow(truth: Truth, m: nat, n: nat)
    requires m <= n <= |truth|
    ensures Leaders(truth, m) <= Leaders(truth, n)
  {
    if m < n {
      LeadersGrow(truth, m, n - 1);
    }
  }

  lemma {:induction false} LeadersAscend(truth: Truth, n: nat, i: nat, j: nat)
    requires n <= |truth| && i < j < |Leaders(truth, n)|
    ensures Leaders(truth, n)[i] < Leaders(truth, n)[j]
  {
    if j < |Leaders(truth, n - 1)| {
      LeadersAscend(truth, n - 1, i, j);
    } else {
      assert Leaders(truth, n)[i] == Leaders(truth, n - 1)[i];
    }
  }

  /** How many coordinates decode before the one of listing `n` does. */
  function Rank(truth: Truth, n: nat): nat
    requires n < |truth|
  {
    |Leaders(truth, First(truth, n))|
  }

  /** One chunk per coordinate that decodes: its first listing that does. */
  function Leading(truth: Truth): (l: Chunks)
    ensures |l| == |Leaders(truth, |truth|)|
  {
    var leaders := Leaders(truth, |truth|);
    seq(|leaders|, r requires 0 <= r < |leaders| =>
      (truth[leaders[r]].0, truth[leaders[r]].1.value))
  }

  /** The leader of listing `n` has its rank among all leaders, and is among those before `n` unless it is `n`. */
  lemma {:induction false} RankAt(truth: Truth, n: nat)
    requires n < |truth| && truth[First(truth, n)].1.Some?
    ensures Rank(truth, n) < |Leading(truth)|
    ensures Leading(truth)[Rank(truth, n)] == (truth[n].0, truth[First(truth, n)].1.value)
    ensures First(truth, n) < n ==> Rank(truth, n) < |Leaders(truth, n)|
  {
    var f := First(truth, n);
    FirstIsFirst(truth, n);
    assert Leads(truth, f) && Leaders(truth, f + 1) == Leaders(truth, f) + [f];
    LeadersGrow(truth, f + 1, |truth|);
    assert Leaders(truth, |truth|)[|Leaders(truth, f)|] == f;
    if f < n {
      LeadersGrow(truth, f + 1, n);
    }
  }

  /** What decodes has one size, as a decoded chunk does. */
  predicate EqualSizes(truth: Truth, bytes: nat) {
    forall i :: 0 <= i < |truth| ==> truth[i].1.Some? ==> |truth[i].1.value| == bytes
  }

  lemma {:induction false} LeadingUniform(truth: Truth, bytes: nat)
    requires EqualSizes(truth, bytes)
    ensures Uniform(Leading(truth), bytes)
  {
    var l, leaders := Leading(truth), Leaders(truth, |truth|);
    forall i, j | 0 <= i < j < |l| ensures l[i].0 != l[j].0 {
      LeadersAscend(truth, |truth|, i, j);
      assert Leads(truth, leaders[i]) && Leads(truth, leaders[j]);
      assert !DecodesAt(truth, leaders[i], truth[leaders[j]].0);
    }
  }

  // ---- What each listing is given ----

  /** How many coordinates an empty cache keeps of a read. */
  function KeptCount(s: Cache, truth: Truth, bytes: nat): nat {
    Capacity(s.maxBytes, s.maxSlots, Leading(truth), bytes)
  }

  /** What listing `n` is given when the first `k` coordinates are kept: the first bytes there, or its own. */
  function Expected(truth: Truth, n: nat, k: nat): Option<seq<byte>>
    requires n < |truth|
  {
    if Rank(truth, n) < k then truth[First(truth, n)].1 else truth[n].1
  }

  /** After `n` listings the cache holds the leading ones of them that it has room for, all owned by the pass. */
  ghost predicate Keeping(s: Cache, t: Cache, truth: Truth, n: nat, k: nat, pass: nat)
    requires n <= |truth|
  {
    var kept := Min(|Leaders(truth, n)|, k);
    Inv(t) && SameBudget(t, s) && Retains(t, Leading(truth), kept, kept, pass)
  }

  /** A read of `truth` under a real pass, through a cache that can keep the first `k` coordinates. */
  ghost predicate Room(s: Cache, truth: Truth, k: nat, pass: nat, bytes: nat) {
    && EqualSizes(truth, bytes) && pass != LRU && pass <= s.pass
    && Enabled(s, bytes) && Admits(s.maxBytes, s.maxSlots, Leading(truth), bytes, k)
  }

  /** Listing `n` is served: a listing before it decodes at its coordinate, and is kept. */
  predicate Served(truth: Truth, n: nat, k: nat)
    requires n < |truth|
  {
    First(truth, n) < n && Rank(truth, n) < k
  }

  /** A listing whose coordinate is held: a hit on the first bytes there, whether or not it decodes itself. */
  lemma {:induction false} KeepingHit(s: Cache, t: Cache, truth: Truth, n: nat, k: nat, pass: nat, bytes: nat)
    requires n < |truth| && Room(s, truth, k, pass, bytes) && Keeping(s, t, truth, n, k, pass) && Served(truth, n, k)
    ensures Keeping(s, Serve(t, pass, truth[n]).0, truth, n + 1, k, pass)
    ensures Serve(t, pass, truth[n]).1 == truth[First(truth, n)].1
  {
    var kept := Min(|Leaders(truth, n)|, k);
    RankAt(truth, n);
    LeadingUniform(truth, bytes);
    FindRetained(t, Leading(truth), bytes, kept, Rank(truth, n), kept, pass);
    ServeInv(t, pass, truth[n]);
  }

  /** A listing that decodes past what is kept: a miss and a rejection. */
  lemma {:induction false} KeepingRejected(s: Cache, t: Cache, truth: Truth, n: nat, k: nat, pass: nat, bytes: nat)
    requires n < |truth| && Room(s, truth, k, pass, bytes) && Keeping(s, t, truth, n, k, pass)
    requires truth[n].1.Some? && Rank(truth, n) >= k
    ensures Keeping(s, Serve(t, pass, truth[n]).0, truth, n + 1, k, pass)
    ensures Serve(t, pass, truth[n]).1 == truth[n].1
  {
    var l, r, chunk := Leading(truth), Rank(truth, n), (truth[n].0, truth[n].1.value);
    RankAt(truth, n);
    LeadingUniform(truth, bytes);
    assert Min(|Leaders(truth, n)|, k) == k;
    FindRetained(t, l, bytes, k, r, k, pass);
    VisitRejected(t, l, bytes, k, r, pass, chunk.1);
    VisitOne(t, pass, chunk);
    ServeInv(t, pass, truth[n]);
    SameSlotsRetain(t, Visit(t, pass, chunk), l, k, pass);
  }

  lemma {:induction false} SameSlotsRetain(t: Cache, next: Cache, l: Chunks, k: nat, pass: nat)
    requires Retains(t, l, k, k, pass) && next.slots == t.slots
    ensures Retains(next, l, k, k, pass)
  {
  }

  /** A leading listing, while there is room: a miss, and it is kept. */
  lemma {:induction false} KeepingStored(s: Cache, t: Cache, truth: Truth, n: nat, k: nat, pass: nat, bytes: nat)
    requires n < |truth| && Room(s, truth, k, pass, bytes) && Keeping(s, t, truth, n, k, pass)
    requires Leads(truth, n) && Rank(truth, n) < k
    ensures Keeping(s, Serve(t, pass, truth[n]).0, truth, n + 1, k, pass)
    ensures Serve(t, pass, truth[n]).1 == truth[n].1
  {
    var l, r, chunk := Leading(truth), Rank(truth, n), (truth[n].0, truth[n].1.value);
    RankAt(truth, n);
    LeadingUniform(truth, bytes);
    FindRetained(t, l, bytes, r, r, r, pass);
    VisitStored(t, l, bytes, k, r, pass);
    VisitOne(t, pass, chunk);
    ServeInv(t, pass, truth[n]);
    RetainsPush(t, l, r, pass, t.tick + 2);
  }

  /** A listing that neither decodes nor is served: a miss that leaves the slots alone. */
  lemma {:induction false} KeepingMissed(s: Cache, t: Cache, truth: Truth, n: nat, k: nat, pass: nat, bytes: nat)
    requires n < |truth| && Room(s, truth, k, pass, bytes) && Keeping(s, t, truth, n, k, pass)
    requires truth[n].1.None? && !Served(truth, n, k)
    ensures Keeping(s, Serve(t, pass, truth[n]).0, truth, n + 1, k, pass)
    ensures Serve(t, pass, truth[n]).1 == None
  {
    var kept := Min(|Leaders(truth, n)|, k);
    if First(truth, n) < n {
      RankAt(truth, n);
      LeadingUniform(truth, bytes);
      FindRetained(t, Leading(truth), bytes, kept, Rank(truth, n), kept, pass);
    } else {
      NotHeld(t, truth, n, kept, pass);
    }
    ServeInv(t, pass, truth[n]);
    SameSlotsRetain(t, Serve(t, pass, truth[n]).0, Leading(truth), kept, pass);
  }

  /** A coordinate that has not decoded yet is not among the leading ones. */
  lemma {:induction false} NotHeld(t: Cache, truth: Truth, n: nat, kept: nat, pass: nat)
    requires n < |truth| && First(truth, n) == n && kept <= |Leaders(truth, n)|
    requires Retains(t, Leading(truth), kept, kept, pass)
    ensures Find(t.slots, truth[n].0) == |t.slots|
  {
    LeadersGrow(truth, n, |truth|);
    forall i | 0 <= i < kept ensures t.slots[i].coord != truth[n].0 {
      var j := Leaders(truth, n)[i];
      assert Leaders(truth, |truth|)[i] == j && Leads(truth, j) && !DecodesAt(truth, j, truth[n].0);
    }
  }

  lemma {:induction false} KeepingStep(s: Cache, t: Cache, truth: Truth, n: nat, k: nat, pass: nat, bytes: nat)
    requires n < |truth| && Room(s, truth, k, pass, bytes) && Keeping(s, t, truth, n, k, pass)
    ensures Keeping(s, Serve(t, pass, truth[n]).0, truth, n + 1, k, pass)
    ensures Serve(t, pass, truth[n]).1 == Expected(truth, n, k)
  {
    if Served(truth, n, k) {
      KeepingHit(s, t, truth, n, k, pass, bytes);
    } else if truth[n].1.None? {
      KeepingMissed(s, t, truth, n, k, pass, bytes);
    } else if Rank(truth, n) >= k {
      KeepingRejected(s, t, truth, n, k, pass, bytes);
    } else {
      KeepingStored(s, t, truth, n, k, pass, bytes);
    }
  }

  lemma {:induction false} ReadKeeps(s: Cache, truth: Truth, n: nat, k: nat, pass: nat, bytes: nat)
    requires Room(s, truth, k, pass, bytes) && Keeping(s, s, truth, 0, k, pass) && n <= |truth|
    ensures Keeping(s, ServeTo(s, pass, truth, n), truth, n, k, pass)
  {
    if n > 0 {
      ReadKeeps(s, truth, n - 1, k, pass, bytes);
      KeepingNext(s, ServeTo(s, pass, truth, n - 1), truth, n, k, pass, bytes);
    }
  }

  lemma {:induction false} KeepingNext(s: Cache, t: Cache, truth: Truth, n: nat, k: nat, pass: nat, bytes: nat)
    requires Room(s, truth, k, pass, bytes) && 0 < n <= |truth| && t == ServeTo(s, pass, truth, n - 1)
    requires Keeping(s, t, truth, n - 1, k, pass)
    ensures Keeping(s, ServeTo(s, pass, truth, n), truth, n, k, pass)
  {
    KeepingStep(s, t, truth, n - 1, k, pass, bytes);
  }

  /** A cache that can keep none of the chunks stays empty. */
  lemma {:induction false} NothingKept(s: Cache, truth: Truth, n: nat, pass: nat, bytes: nat)
    requires n <= |truth| && EqualSizes(truth, bytes) && s.slots == [] && !Enabled(s, bytes)
    ensures ServeTo(s, pass, truth, n).slots == [] && SameBudget(ServeTo(s, pass, truth, n), s)
  {
    if n > 0 {
      NothingKept(s, truth, n - 1, pass, bytes);
      NothingStored(ServeTo(s, pass, truth, n - 1), truth[n - 1], pass, bytes);
    }
  }

  lemma {:induction false} NothingStored(s: Cache, entry: (Coord, Option<seq<byte>>), pass: nat, bytes: nat)
    requires (entry.1.Some? ==> |entry.1.value| == bytes) && s.slots == [] && !Enabled(s, bytes)
    ensures var (t, given) := Serve(s, pass, entry); t.slots == [] && SameBudget(t, s) && given == entry.1
  {
    var next := Lookup(s, pass, entry.0).0;
    assert !Admission(next, pass, entry.0, bytes).Stored?;
  }

  /** What a read is given when the first `k` coordinates are kept. */
  function Kept(truth: Truth, k: nat): (g: Truth)
    ensures |g| == |truth|
  {
    seq(|truth|, n requires 0 <= n < |truth| => (truth[n].0, Expected(truth, n, k)))
  }

  /**
   Through an empty cache of any budgets, a read under a real pass is given, for each listing, the
   bytes of the first listing that decodes at its coordinate, if that listing comes before it and its
   coordinate is one of the first the cache has room for. Otherwise it is given its own bytes, or
   nothing if it does not decode.
   */
  lemma {:induction false} GivenExactly(s: Cache, pass: nat, truth: Truth, bytes: nat)
    requires Inv(s) && s.slots == [] && pass != LRU && pass <= s.pass && EqualSizes(truth, bytes)
    ensures Given(s, pass, truth) == Kept(truth, KeptCount(s, truth, bytes))
  {
    var k := KeptCount(s, truth, bytes);
    forall n | 0 <= n < |truth| ensures Given(s, pass, truth)[n] == (truth[n].0, Expected(truth, n, k)) {
      GivenAt(s, pass, truth, n, |truth|);
      GivenExpected(s, ServeTo(s, pass, truth, n), pass, truth, bytes, n);
    }
  }

  lemma {:induction false} GivenExpected(s: Cache, t: Cache, pass: nat, truth: Truth, bytes: nat, n: nat)
    requires Inv(s) && s.slots == [] && pass != LRU && pass <= s.pass && EqualSizes(truth, bytes)
    requires n < |truth| && t == ServeTo(s, pass, truth, n)
    ensures Serve(t, pass, truth[n]).1 == Expected(truth, n, KeptCount(s, truth, bytes))
  {
    var k := KeptCount(s, truth, bytes);
    if Enabled(s, bytes) {
      CapacityAdmits(s.maxBytes, s.maxSlots, Leading(truth), bytes);
      ReadKeeps(s, truth, n, k, pass, bytes);
      KeepingStep(s, t, truth, n, k, pass, bytes);
    } else {
      NoCapacity(s.maxBytes, s.maxSlots, Leading(truth), bytes);
      NothingKept(s, truth, n, pass, bytes);
      NothingStored(t, truth[n], pass, bytes);
    }
  }

  /** Listing `n` decodes as the first listing before it that decodes at its coordinate, if there is one. */
  predicate Repeats(truth: Truth, n: nat)
    requires n < |truth|
  {
    truth[n].1 == truth[First(truth, n)].1
  }

  /** Every listing is given its own bytes exactly when listings at a kept coordinate repeat the first one there. */
  lemma {:induction false} GivenOwnIff(s: Cache, pass: nat, truth: Truth, bytes: nat)
    requires Inv(s) && s.slots == [] && pass != LRU && pass <= s.pass && EqualSizes(truth, bytes)
    ensures Given(s, pass, truth) == truth <==>
      forall n :: 0 <= n < |truth| && Rank(truth, n) < KeptCount(s, truth, bytes) ==> Repeats(truth, n)
  {
    var k, given := KeptCount(s, truth, bytes), Given(s, pass, truth);
    GivenExactly(s, pass, truth, bytes);
    assert forall n :: 0 <= n < |truth| ==> (given[n] == truth[n] <==> (Rank(truth, n) < k ==> Repeats(truth, n)));
    if given == truth {
      assert forall n :: 0 <= n < |truth| ==> given[n] == truth[n];
    }
  }
}
