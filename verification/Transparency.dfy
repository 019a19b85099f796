/** The chunk cache is transparent: what a read is given through it is what decoding would give. */
module Transparency {
  import opened Basics
  import opened ChunkCache
  import opened CacheRuns
  import opened SteadyState

  /** For each chunk of an index, its coordinate and the bytes it decodes to, if it does. */
  type Truth = seq<(Coord, Option<seq<byte>>)>

  /** What `h` holds is what chunk `j` decodes to, if it is that chunk's coordinate. */
  predicate Agrees(h: Held, truth: Truth, j: nat)
    requires j < |truth|
  {
    h.coord == truth[j].0 ==> truth[j].1 == Some(h.data)
  }

  predicate Genuine(h: Held, truth: Truth) {
    forall j :: 0 <= j < |truth| ==> Agrees(h, truth, j)
  }

  predicate Faithful(s: Cache, truth: Truth) {
    forall i :: 0 <= i < |s.slots| ==> Genuine(s.slots[i], truth)
  }

  /** Entries with one coordinate decode alike. Distinct coordinates are the usual case. */
  predicate Consistent(truth: Truth) {
    forall i, j :: 0 <= i < j < |truth| ==> Alike(truth, i, j)
  }

  predicate Alike(truth: Truth, i: nat, j: nat)
    requires i < |truth| && j < |truth|
  {
    truth[i].0 == truth[j].0 ==> truth[i].1 == truth[j].1
  }

  lemma ConsistentGenuine(truth: Truth, n: nat, h: Held)
    requires Consistent(truth) && n < |truth| && truth[n].1 == Some(h.data) && h.coord == truth[n].0
    ensures Genuine(h, truth)
  {
    forall j | 0 <= j < |truth| ensures Agrees(h, truth, j) {
      assert j < n ==> Alike(truth, j, n);
      assert n < j ==> Alike(truth, n, j);
    }
  }

  /** An offer of anything but what the chunk decodes to is the one step that can spoil the cache. */
  predicate Honest(op: Op, truth: Truth) {
    op.OfferOp? ==> Genuine(Held(op.coord, op.data, 0, 0), truth)
  }

  lemma FaithfulStep(s: Cache, op: Op, truth: Truth)
    requires Inv(s) && Issued(s, op) && Faithful(s, truth) && Honest(op, truth)
    ensures Faithful(Step(s, op), truth)
  {
    var t := Step(s, op);
    forall i | 0 <= i < |t.slots| ensures Genuine(t.slots[i], truth) {
      StepSlot(s, op, i);
      if k :| 0 <= k < |s.slots| && SameChunk(s.slots[k], t.slots[i]) {
        SameGenuine(s.slots[k], t.slots[i], truth);
      } else {
        SameGenuine(Held(op.coord, op.data, 0, 0), t.slots[i], truth);
      }
    }
  }

  predicate SameChunk(a: Held, b: Held) {
    a.coord == b.coord && a.data == b.data
  }

  lemma SameGenuine(a: Held, b: Held, truth: Truth)
    requires Genuine(a, truth) && SameChunk(a, b)
    ensures Genuine(b, truth)
  {
    forall j | 0 <= j < |truth| ensures Agrees(b, truth, j) {
      assert Agrees(a, truth, j);
    }
  }

  /** After any step a slot holds what some slot held before, or what was just offered. */
  lemma StepSlot(s: Cache, op: Op, i: nat)
    requires Inv(s) && Issued(s, op) && i < |Step(s, op).slots|
    ensures var g := Step(s, op).slots[i];
      || (exists k :: 0 <= k < |s.slots| && SameChunk(s.slots[k], g))
      || (op.OfferOp? && g.coord == op.coord && g.data == op.data)
  {
    match op
    case OfferOp(pass, coord, data) => OfferSlot(s, pass, coord, data, i);
    case LookupOp(pass, coord) => assert SameChunk(s.slots[i], Lookup(s, pass, coord).0.slots[i]);
    case BeginOp => assert SameChunk(s.slots[i], s.slots[i]);
    case ClearOp =>
  }

  lemma OfferSlot(s: Cache, pass: nat, coord: Coord, data: seq<byte>, i: nat)
    requires Inv(s) && i < |Offer(s, pass, coord, data).slots|
    ensures var g := Offer(s, pass, coord, data).slots[i];
      (exists k :: 0 <= k < |s.slots| && SameChunk(s.slots[k], g)) || (g.coord == coord && g.data == data)
  {
    if Admission(s, pass, coord, |data|).Stored? {
      var kept := StoredOffer(s, pass, coord, data);
      if i < |kept| {
        assert kept[i] in multiset(kept) && kept[i] in multiset(s.slots);
        var k :| 0 <= k < |s.slots| && s.slots[k] == kept[i];
        assert SameChunk(s.slots[k], Offer(s, pass, coord, data).slots[i]);
      }
    } else {
      RefusedSlot(s, pass, coord, data, i);
    }
  }

  lemma RefusedSlot(s: Cache, pass: nat, coord: Coord, data: seq<byte>, i: nat)
    requires !Admission(s, pass, coord, |data|).Stored? && i < |Offer(s, pass, coord, data).slots|
    ensures i < |s.slots| && SameChunk(s.slots[i], Offer(s, pass, coord, data).slots[i])
  {
    RefusedKeeps(s, pass, coord, data);
    assert Contents(s.slots)[i] == Contents(Offer(s, pass, coord, data).slots)[i];
  }

  predicate AllHonest(ops: seq<Op>, truth: Truth) {
    forall i :: 0 <= i < |ops| ==> Honest(ops[i], truth)
  }

  /** Over every run in which readers offer only what they decoded, the cache holds only that. */
  lemma {:induction false} FaithfulRun(maxBytes: nat, maxSlots: nat, ops: seq<Op>, truth: Truth)
    requires AllIssued(Empty(maxBytes, maxSlots), ops) && AllHonest(ops, truth)
    ensures Faithful(Run(Empty(maxBytes, maxSlots), ops), truth)
  {
    if ops != [] {
      var front := ops[..|ops| - 1];
      FaithfulRun(maxBytes, maxSlots, front, truth);
      ReachableInv(maxBytes, maxSlots, front);
      FaithfulStep(Run(Empty(maxBytes, maxSlots), front), ops[|ops| - 1], truth);
    }
  }

  /** After a commit's `clear` the cache is faithful to whatever the chunks now hold. */
  lemma ClearedIsFaithful(s: Cache, truth: Truth)
    ensures Faithful(Clear(s), truth)
  {
  }

  // ---- A whole read through the cache ----

  /** A hit serves what the chunk decodes to. */
  lemma HitIsTruth(s: Cache, pass: nat, truth: Truth, n: nat)
    requires Faithful(s, truth) && n < |truth|
    ensures Lookup(s, pass, truth[n].0).1.Some? ==> truth[n].1 == Lookup(s, pass, truth[n].0).1
  {
    var i := Find(s.slots, truth[n].0);
    if i < |s.slots| {
      assert Genuine(s.slots[i], truth) && Agrees(s.slots[i], truth, n);
    }
  }

  /** What a read does with one chunk of the index, and the bytes it is given, if any. */
  function Serve(s: Cache, pass: nat, entry: (Coord, Option<seq<byte>>)): (Cache, Option<seq<byte>>) {
    var (next, hit) := Lookup(s, pass, entry.0);
    if hit.Some? then (next, hit)
    else if entry.1.Some? then (Offer(next, pass, entry.0, entry.1.value), entry.1)
    else (next, None)
  }

  function ServeTo(s: Cache, pass: nat, truth: Truth, n: nat): Cache
    requires n <= |truth|
  {
    if n == 0 then s else Serve(ServeTo(s, pass, truth, n - 1), pass, truth[n - 1]).0
  }

  /** The bytes a read is given for the first `n` chunks of the index. */
  function GivenTo(s: Cache, pass: nat, truth: Truth, n: nat): (g: Truth)
    requires n <= |truth|
    ensures |g| == n
  {
    if n == 0 then []
    else GivenTo(s, pass, truth, n - 1) + [(truth[n - 1].0, Serve(ServeTo(s, pass, truth, n - 1), pass, truth[n - 1]).1)]
  }

  function Given(s: Cache, pass: nat, truth: Truth): (g: Truth)
    ensures |g| == |truth|
  {
    GivenTo(s, pass, truth, |truth|)
  }

  lemma {:induction false} GivenAt(s: Cache, pass: nat, truth: Truth, n: nat, m: nat)
    requires n < m <= |truth|
    ensures GivenTo(s, pass, truth, m)[n] == (truth[n].0, Serve(ServeTo(s, pass, truth, n), pass, truth[n]).1)
  {
    if n < m - 1 {
      GivenAt(s, pass, truth, n, m - 1);
    }
  }

  lemma ServeInv(s: Cache, pass: nat, entry: (Coord, Option<seq<byte>>))
    requires Inv(s) && pass <= s.pass
    ensures Inv(Serve(s, pass, entry).0) && pass <= Serve(s, pass, entry).0.pass
  {
    var lookup := LookupOp(pass, entry.0);
    StepInv(s, lookup);
    if entry.1.Some? {
      StepInv(Step(s, lookup), OfferOp(pass, entry.0, entry.1.value));
    }
  }

  lemma ServeFaithful(s: Cache, pass: nat, truth: Truth, n: nat)
    requires Inv(s) && pass <= s.pass && Faithful(s, truth) && Consistent(truth) && n < |truth|
    ensures Faithful(Serve(s, pass, truth[n]).0, truth) && Serve(s, pass, truth[n]).1 == truth[n].1
  {
    var lookup := LookupOp(pass, truth[n].0);
    HitIsTruth(s, pass, truth, n);
    FaithfulStep(s, lookup, truth);
    StepInv(s, lookup);
    if truth[n].1.Some? {
      ConsistentGenuine(truth, n, Held(truth[n].0, truth[n].1.value, 0, 0));
      FaithfulStep(Step(s, lookup), OfferOp(pass, truth[n].0, truth[n].1.value), truth);
    }
  }

  /** The state in which a read begins, and in which it stays. */
  ghost predicate Sound(s: Cache, pass: nat, truth: Truth) {
    Inv(s) && pass <= s.pass && Faithful(s, truth) && Consistent(truth)
  }

  lemma ServeStaysSound(s: Cache, t: Cache, pass: nat, truth: Truth, n: nat)
    requires Sound(s, pass, truth) && n < |truth| && t == Serve(s, pass, truth[n]).0
    ensures Sound(t, pass, truth)
  {
    ServeInv(s, pass, truth[n]);
    ServeFaithful(s, pass, truth, n);
  }

  /** The entries a read visits are some of an index's, as a selection's are, or all of them. */
  predicate Among(entries: Truth, truth: Truth) {
    forall n :: 0 <= n < |entries| ==> entries[n] in truth
  }

  lemma {:induction false} ServesStaySound(s: Cache, pass: nat, entries: Truth, truth: Truth, n: nat)
    requires Sound(s, pass, truth) && Among(entries, truth) && n <= |entries|
    ensures Sound(ServeTo(s, pass, entries, n), pass, truth)
  {
    if n > 0 {
      ServesStaySound(s, pass, entries, truth, n - 1);
      assert entries[n - 1] in truth;
      var j :| 0 <= j < |truth| && truth[j] == entries[n - 1];
      ServeStaysSound(ServeTo(s, pass, entries, n - 1), ServeTo(s, pass, entries, n), pass, truth, j);
    }
  }

  /** A faithful cache gives a read exactly what decoding would, chunks that do not decode included. */
  lemma GivenIsTruth(s: Cache, pass: nat, entries: Truth, truth: Truth)
    requires Inv(s) && pass <= s.pass && Faithful(s, truth) && Consistent(truth) && Among(entries, truth)
    ensures Given(s, pass, entries) == entries
  {
    forall n | 0 <= n < |entries| ensures Given(s, pass, entries)[n] == entries[n] {
      GivenAt(s, pass, entries, n, |entries|);
      ServesStaySound(s, pass, entries, truth, n);
      assert entries[n] in truth;
      var j :| 0 <= j < |truth| && truth[j] == entries[n];
      ServeFaithful(ServeTo(s, pass, entries, n), pass, truth, j);
    }
  }

  /** A read that began with the cache at `s` leaves it at `t`: after `m` chunks, or after the lookup that follows them. */
  ghost predicate LeftAt(s: Cache, t: Cache, pass: nat, entries: Truth, m: nat) {
    m <= |entries| && (IsAfter(s, t, pass, entries, m) || (m < |entries| && IsLooked(s, t, pass, entries, m)))
  }

  ghost predicate IsAfter(s: Cache, t: Cache, pass: nat, entries: Truth, m: nat)
    requires m <= |entries|
  {
    t == ServeTo(s, pass, entries, m)
  }

  ghost predicate IsLooked(s: Cache, t: Cache, pass: nat, entries: Truth, m: nat)
    requires m < |entries|
  {
    t == Lookup(ServeTo(s, pass, entries, m), pass, entries[m].0).0
  }

  lemma LeftFaithful(s: Cache, t: Cache, pass: nat, entries: Truth, truth: Truth, m: nat)
    requires Inv(s) && pass <= s.pass && Faithful(s, truth) && Consistent(truth) && Among(entries, truth)
    requires LeftAt(s, t, pass, entries, m)
    ensures Faithful(t, truth)
  {
    ServesStaySound(s, pass, entries, truth, m);
    if !IsAfter(s, t, pass, entries, m) {
      FaithfulStep(ServeTo(s, pass, entries, m), LookupOp(pass, entries[m].0), truth);
    }
  }

  /** The cache holds only what the chunks decode to, and no coordinate is listed with two contents. */
  predicate Trusted(s: Cache, truth: Truth) { Faithful(s, truth) && Consistent(truth) }

  lemma LeftTrusted(s: Cache, t: Cache, pass: nat, entries: Truth, truth: Truth, m: nat)
    requires Inv(s) && pass <= s.pass && Among(entries, truth) && LeftAt(s, t, pass, entries, m)
    ensures Trusted(s, truth) ==> Trusted(t, truth)
  {
    if Trusted(s, truth) {
      LeftFaithful(s, t, pass, entries, truth, m);
    }
  }

  lemma TrustedGives(s: Cache, pass: nat, entries: Truth, truth: Truth)
    requires Inv(s) && pass <= s.pass && Among(entries, truth)
    ensures Trusted(s, truth) ==> Given(s, pass, entries) == entries
  {
    if Trusted(s, truth) {
      GivenIsTruth(s, pass, entries, truth);
    }
  }

  lemma BeginTrusted(s: Cache, truth: Truth)
    requires Inv(s)
    ensures Inv(BeginPass(s)) && (Trusted(s, truth) ==> Trusted(BeginPass(s), truth))
  {
    StepInv(s, BeginOp);
    if Trusted(s, truth) {
      FaithfulStep(s, BeginOp, truth);
    }
  }

  lemma VisitOne(s: Cache, pass: nat, chunk: (Coord, seq<byte>))
    ensures Serve(s, pass, (chunk.0, Some(chunk.1))).0 == Visit(s, pass, chunk)
  {
  }
}
