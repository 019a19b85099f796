/**
 The buffered appender (src/appender.rs) as a state machine: bytes are buffered, complete chunks
 are written automatically, and a failed write poisons the buffer.

 The editor behind `append_prebuilt`, and whether the session is usable and its geometry readable,
 come from outside: each call is given a `World` that says how they behave.
 */
module AppendModel {
  import opened Basics

  datatype Lifecycle = Active | Poisoned | Stopped

  datatype Mode = Continue | Finish

  /** What was captured at construction: chunk length and element size, filter policy, and maximum length. */
  datatype Config = Config(chunk: nat, size: nat, lossy: bool, reject: bool, maximum: Option<nat>) {
    predicate Valid() { chunk > 0 && size > 0 }
  }

  /**
   A write either lands, or fails with some leading elements published. After a failure the
   dataset's length may or may not be readable.
   */
  datatype Outcome = Landed | Failed(landed: nat, seen: bool)

  datatype World = World(usable: bool, readable: bool, outcome: Outcome)

  /** What a call appends: bytes as stored, elements of a datatype, or elements that cannot be encoded. */
  datatype Input = Raw(bytes: seq<byte>) | Typed(kind: nat, bytes: seq<byte>) | Unencodable(error: Error)

  /**
   The dataset's bytes, the buffer, and what `discard` handed back; `writes` counts the writes attempted.
   `kind` is the datatype of the first typed call, and `conflict` says that a later one differed.
   */
  datatype State = State(published: seq<byte>, pending: seq<byte>, lifecycle: Lifecycle, discarded: seq<byte>,
                         writes: nat, kind: Option<nat>, conflict: bool)

  function Dim(c: Config, s: State): nat
    requires c.Valid()
  {
    Quot(|s.published|, c.size)
  }

  function Buffered(c: Config, s: State): nat
    requires c.Valid()
  {
    Quot(|s.pending|, c.size)
  }

  /** `drop_front` and `head`, which clamp to the buffer. */
  function Front(bytes: seq<byte>, n: nat): seq<byte> { bytes[..Min(n, |bytes|)] }

  function Back(bytes: seq<byte>, n: nat): seq<byte> { bytes[Min(n, |bytes|)..] }

  /** `set_dt`: the datatype a call records. */
  function Record(s: State, input: Input): State {
    if !input.Typed? then s
    else if s.kind.None? then s.(kind := Some(input.kind))
    else if s.kind.value != input.kind then s.(conflict := true)
    else s
  }

  /** The editor refuses a buffer of mixed datatypes before it publishes anything. */
  function Fate(s: State, w: World): Outcome { if s.conflict then Failed(0, true) else w.outcome }

  function WritePrefix(c: Config, s: State, take: nat, w: World): (State, Result<()>) {
    if !w.readable then (s, Err(AppendUnsupported))
    else
      match Fate(s, w)
      case Landed =>
        var n := Mul(take, c.size);
        (s.(published := s.published + Front(s.pending, n), pending := Back(s.pending, n), writes := s.writes + 1), Ok(()))
      case Failed(landed, seen) =>
        var n := Mul(Min(landed, take), c.size);
        (s.(published := s.published + Front(s.pending, n), pending := Back(s.pending, if seen then n else 0),
            writes := s.writes + 1, lifecycle := Poisoned),
         Err(AppendUnsupported))
  }

  /** The elements of an automatic write: up to the next chunk boundary, and then whole chunks. */
  function Take(chunk: nat, dim: nat, avail: nat): nat
    requires 0 < chunk <= avail
  {
    var toBoundary := Rem(chunk - Rem(dim, chunk), chunk);
    toBoundary + Mul(Quot(avail - toBoundary, chunk), chunk)
  }

  function WriteComplete(c: Config, s: State, w: World): (State, Result<()>)
    requires c.Valid()
  {
    var avail := Buffered(c, s);
    if avail < c.chunk then (s, Ok(()))
    else if !w.readable then (s, Err(AppendUnsupported))
    else WritePrefix(c, s, Take(c.chunk, Dim(c, s), avail), w)
  }

  /** The pending bytes would take the dataset past its maximum. */
  predicate Exceeds(c: Config, s: State, maximum: nat)
    requires c.Valid()
  {
    || Dim(c, s) > maximum
    || Buffered(c, s) > maximum - Dim(c, s)
    || (Buffered(c, s) == maximum - Dim(c, s) && Rem(|s.pending|, c.size) != 0)
  }

  function Settle(c: Config, s: State, mark: nat, w: World): (State, Result<()>)
    requires c.Valid()
  {
    var (t, r) :=
      if c.maximum.Some? && (!w.readable || Exceeds(c, s, c.maximum.value)) then (s, Err(AppendUnsupported))
      else WriteComplete(c, s, w);
    if r.Err? && t.lifecycle == Active then (t.(pending := Front(t.pending, mark)), r) else (t, r)
  }

  predicate Usable(s: State, w: World) { w.usable && s.lifecycle != Poisoned }

  /** The buffer with the input of a call, before any rollback. */
  function Taken(s: State, input: Input): State
    requires !input.Unencodable?
  {
    Record(s, input).(pending := s.pending + input.bytes)
  }

  /** `append` and `append_raw`; typed input that cannot be encoded adds nothing. */
  function Append(c: Config, s: State, input: Input, w: World): (State, Result<()>)
    requires c.Valid()
  {
    if !Usable(s, w) then (s, Err(Refused))
    else if input.Unencodable? then (s, Err(input.error))
    else Settle(c, Taken(s, input), |s.pending|, w)
  }

  function Flush(c: Config, s: State, mode: Mode, w: World): (State, Result<()>)
    requires c.Valid()
  {
    var avail := Buffered(c, s);
    if !Usable(s, w) then (s, Err(Refused))
    else if Rem(|s.pending|, c.size) != 0 then (s, Err(AppendUnsupported))
    else if avail == 0 then (s, Ok(()))
    else if c.lossy && c.reject && mode == Continue
      && (!w.readable || Dim(c, s) + avail > U64_MAX || Rem(Dim(c, s) + avail, c.chunk) != 0)
    then (s, Err(AppendUnsupported))
    else WritePrefix(c, s, avail, w)
  }

  function FinishAll(c: Config, s: State, w: World): (State, Result<()>)
    requires c.Valid()
  {
    var (t, r) := Flush(c, s, Finish, w);
    (t.(lifecycle := Stopped), r)
  }

  function Discard(s: State): State {
    s.(lifecycle := Stopped, discarded := s.discarded + s.pending, pending := [], kind := None, conflict := false)
  }

  /** Dropping the appender. */
  function Teardown(c: Config, s: State, w: World): State
    requires c.Valid()
  {
    var t := if s.lifecycle == Active && s.pending != [] then Flush(c, s, Finish, w).0 else s;
    t.(lifecycle := Stopped)
  }

  // ---- Arithmetic ----

  lemma SplitWhole(n: nat, size: nat)
    requires size > 0
    ensures Mul(Quot(n, size), size) + Rem(n, size) == n && Rem(n, size) < size
  {
    QuotRem(n, size);
  }

  /** Whole elements are a whole number of chunks in elements exactly when they are in bytes. */
  lemma WholeChunks(bytes: nat, chunk: nat, size: nat)
    requires size > 0 && chunk > 0 && Rem(bytes, size) == 0
    ensures Mul(chunk, size) > 0
    ensures Rem(Quot(bytes, size), chunk) == 0 <==> Rem(bytes, Mul(chunk, size)) == 0
  {
    var n, whole := Quot(bytes, size), Mul(chunk, size);
    MulStep(1, chunk, size);
    SplitWhole(bytes, size);
    SplitWhole(n, chunk);
    var q, r := Quot(n, chunk), Rem(n, chunk);
    assert bytes == Mul(q, whole) + Mul(r, size) by {
      MulAdd(Mul(q, chunk), r, size);
      MulRegroup(q, chunk, size);
    }
    MulStep(r, chunk, size);
    DivModUnique(whole, q, Mul(r, size));
    if r > 0 {
      MulStep(1, r, size);
    }
  }

  lemma MulRegroup(a: nat, b: nat, c: nat)
    ensures Mul(Mul(a, b), c) == Mul(a, Mul(b, c))
  {
  }

  lemma AddWhole(p: nat, t: nat, size: nat)
    requires size > 0
    ensures Quot(p + Mul(t, size), size) == Quot(p, size) + t && Rem(p + Mul(t, size), size) == Rem(p, size)
  {
    QuotRem(p, size);
    MulAdd(Quot(p, size), t, size);
    DivModUnique(size, Quot(p, size) + t, Rem(p, size));
  }

  lemma DropWhole(n: nat, t: nat, size: nat)
    requires size > 0 && t <= Quot(n, size)
    ensures Mul(t, size) <= n
    ensures Quot(n - Mul(t, size), size) == Quot(n, size) - t && Rem(n - Mul(t, size), size) == Rem(n, size)
  {
    SplitWhole(n, size);
    MulStep(t, Quot(n, size), size);
    AddWhole(n - Mul(t, size), t, size);
  }

  /** An automatic write takes at least one element, ends on a boundary, and leaves less than a chunk. */
  lemma TakeAligns(chunk: nat, dim: nat, avail: nat)
    requires 0 < chunk <= avail
    ensures 1 <= Take(chunk, dim, avail) <= avail < Take(chunk, dim, avail) + chunk
    ensures Rem(dim + Take(chunk, dim, avail), chunk) == 0
  {
    var gap := Rem(chunk - Rem(dim, chunk), chunk);
    BoundaryGap(dim, chunk);
    SplitWhole(avail - gap, chunk);
    AddWhole(dim + gap, Quot(avail - gap, chunk), chunk);
    if gap == 0 {
      QuotPositive(avail, chunk);
    }
  }

  lemma QuotPositive(n: nat, d: nat)
    requires 0 < d <= n
    ensures Quot(n, d) >= 1 && Mul(Quot(n, d), d) >= d
  {
    SplitWhole(n, d);
    if Quot(n, d) > 0 {
      MulStep(1, Quot(n, d), d);
    }
  }

  lemma BoundaryGap(dim: nat, chunk: nat)
    requires chunk > 0
    ensures var gap := Rem(chunk - Rem(dim, chunk), chunk); gap < chunk && Rem(dim + gap, chunk) == 0
  {
    SplitWhole(dim, chunk);
    var left := Rem(dim, chunk);
    if left == 0 {
      DivModUnique(chunk, 1, 0);
    } else {
      DivModUnique(chunk, 0, chunk - left);
      MulAdd(Quot(dim, chunk), 1, chunk);
      DivModUnique(chunk, Quot(dim, chunk) + 1, 0);
    }
  }
}
