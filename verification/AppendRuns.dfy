/** What holds over every run of the buffered appender: conservation, rollback, poisoning and alignment. */
module AppendRuns {
  import opened Basics
  import opened AppendModel

  datatype Op =
    | AppendOp(input: Input, w: World)
    | FlushOp(w: World)
    | FinishOp(w: World)
    | DiscardOp
    | DropOp(w: World)

  /** `BufferState::new` over a dataset that holds `published`. */
  function New(c: Config, published: seq<byte>): Result<State>
    requires c.Valid()
  {
    if c.lossy && c.reject && Rem(Quot(|published|, c.size), c.chunk) != 0 then Err(AppendUnsupported)
    else Ok(State(published, [], Active, [], 0, None, false))
  }

  function Step(c: Config, s: State, op: Op): (State, Result<()>)
    requires c.Valid()
  {
    match op
    case AppendOp(input, w) => Append(c, s, input, w)
    case FlushOp(w) => Flush(c, s, Continue, w)
    case FinishOp(w) => FinishAll(c, s, w)
    case DiscardOp => (Discard(s), Ok(()))
    case DropOp(w) => (Teardown(c, s, w), Ok(()))
  }

  /** `finish` and `discard` consume the appender; only its drop follows. */
  predicate Legal(s: State, op: Op) { s.lifecycle != Stopped || op.DropOp? }

  function Run(c: Config, s: State, ops: seq<Op>): State
    requires c.Valid()
  {
    if ops == [] then s else Step(c, Run(c, s, ops[..|ops| - 1]), ops[|ops| - 1]).0
  }

  predicate AllLegal(c: Config, s: State, ops: seq<Op>)
    requires c.Valid()
  {
    ops == [] || (AllLegal(c, s, ops[..|ops| - 1]) && Legal(Run(c, s, ops[..|ops| - 1]), ops[|ops| - 1]))
  }

  // ---- Invariants ----

  /** Published bytes are whole elements. */
  predicate Whole(c: Config, s: State)
    requires c.Valid()
  {
    Rem(|s.published|, c.size) == 0 && (s.lifecycle != Stopped ==> s.discarded == [])
  }

  /** Neither the dataset nor, while the appender is active, the dataset with the buffer exceeds the maximum. */
  predicate Bounded(c: Config, s: State) {
    c.maximum.Some? ==>
      && |s.published| <= Mul(c.maximum.value, c.size)
      && (s.lifecycle == Active ==> |s.published| + |s.pending| <= Mul(c.maximum.value, c.size))
  }

  /** Under a lossy pipeline that may not re-encode, the dataset's length is a whole number of chunks. */
  predicate Aligned(c: Config, s: State)
    requires c.Valid()
  {
    c.lossy && c.reject && s.lifecycle == Active ==> Rem(Dim(c, s), c.chunk) == 0
  }

  predicate Inv(c: Config, s: State) {
    c.Valid() && Whole(c, s) && Bounded(c, s) && Aligned(c, s)
  }

  /** The dataset was longer than its maximum when the appender was opened over it, and nothing is buffered. */
  predicate Overlong(c: Config, s: State) {
    && c.Valid() && Whole(c, s) && Aligned(c, s)
    && c.maximum.Some? && |s.published| > Mul(c.maximum.value, c.size) && s.pending == [] && s.discarded == []
  }

  /** What every reachable state satisfies. */
  predicate Sound(c: Config, s: State) { Inv(c, s) || Overlong(c, s) }

  lemma NewSound(c: Config, published: seq<byte>)
    requires c.Valid() && Rem(|published|, c.size) == 0
    ensures New(c, published).Ok? ==> Sound(c, New(c, published).value)
  {
  }

  /** The pending bytes fit a write of `take` elements. */
  predicate Fits(c: Config, s: State, take: nat) {
    Mul(take, c.size) <= |s.pending|
  }

  /** How many bytes of the buffer a write publishes, and how many leave the buffer. */
  function Gone(c: Config, take: nat, fate: Outcome): (nat, nat) {
    match fate
    case Landed => (Mul(take, c.size), Mul(take, c.size))
    case Failed(landed, seen) =>
      var n := Mul(Min(landed, take), c.size);
      (n, if seen then n else 0)
  }

  lemma GoneWithin(c: Config, s: State, take: nat, fate: Outcome)
    requires Fits(c, s, take)
    ensures Gone(c, take, fate).0 <= |s.pending| && Gone(c, take, fate).1 <= Gone(c, take, fate).0
  {
    if fate.Failed? {
      MulStep(Min(fate.landed, take), take, c.size);
    }
  }

  /**
   A write keeps every byte exactly once between the dataset and the buffer if and only if it lands,
   publishes nothing, or leaves the length readable; otherwise bytes that landed stay buffered too.
   */
  lemma WriteConserves(c: Config, s: State, take: nat, w: World)
    requires c.Valid() && Fits(c, s, take)
    ensures var t := WritePrefix(c, s, take, w).0;
      t.published + t.pending == s.published + s.pending <==>
        var fate := Fate(s, w);
        !w.readable || fate.Landed? || fate.seen || Min(fate.landed, take) == 0
  {
    if w.readable {
      var fate := Fate(s, w);
      GoneWithin(c, s, take, fate);
      var (n, m) := Gone(c, take, fate);
      var t := WritePrefix(c, s, take, w).0;
      assert t.published == s.published + s.pending[..n] && t.pending == s.pending[m..];
      if n == m {
        assert s.pending[..n] + s.pending[n..] == s.pending;
        assert t.published + t.pending == s.published + (s.pending[..n] + s.pending[n..]);
      } else {
        assert |t.published + t.pending| == |s.published + s.pending| + n;
      }
      if fate.Failed? {
        ScaledZero(Min(fate.landed, take), c.size);
      }
    }
  }

  lemma ScaledZero(n: nat, size: nat)
    requires size > 0
    ensures Mul(n, size) == 0 <==> n == 0
  {
    if n > 0 {
      MulStep(1, n, size);
    }
  }

  /** What a write does to the lengths. */
  lemma WriteLengths(c: Config, s: State, take: nat, w: World)
    requires c.Valid() && Whole(c, s) && Fits(c, s, take) && take <= Buffered(c, s) && w.readable
    ensures var t := WritePrefix(c, s, take, w).0;
      && Rem(|t.published|, c.size) == 0
      && |s.published| <= |t.published| <= |s.published| + |s.pending|
      && (t.lifecycle == Active ==> |t.published| + |t.pending| == |s.published| + |s.pending|)
      && (Fate(s, w).Landed? ==>
            Dim(c, t) == Dim(c, s) + take && Buffered(c, t) == Buffered(c, s) - take
            && Rem(|t.pending|, c.size) == Rem(|s.pending|, c.size))
  {
    var fate := Fate(s, w);
    GoneWithin(c, s, take, fate);
    var n := if fate.Landed? then take else Min(fate.landed, take);
    AddWhole(|s.published|, n, c.size);
    DropWhole(|s.pending|, take, c.size);
  }

  /** Every write the appender makes is of whole elements from the front of the buffer. */
  lemma TakeFits(c: Config, s: State, take: nat)
    requires c.Valid() && take <= Buffered(c, s)
    ensures Fits(c, s, take)
  {
    DropWhole(|s.pending|, take, c.size);
  }

  lemma WriteInv(c: Config, s: State, take: nat, w: World)
    requires Inv(c, s) && s.lifecycle == Active && take <= Buffered(c, s)
    requires c.lossy && c.reject ==> Rem(Dim(c, s) + take, c.chunk) == 0
    ensures Inv(c, WritePrefix(c, s, take, w).0)
  {
    if w.readable {
      TakeFits(c, s, take);
      WriteLengths(c, s, take, w);
    }
  }

  /** A write that may leave the length unaligned, of an appender that is being consumed. */
  lemma TerminalWriteInv(c: Config, s: State, take: nat, w: World)
    requires Inv(c, s) && s.lifecycle == Active && take <= Buffered(c, s)
    ensures Inv(c, WritePrefix(c, s, take, w).0.(lifecycle := Stopped))
  {
    if w.readable {
      TakeFits(c, s, take);
      WriteLengths(c, s, take, w);
    }
  }

  // ---- Appending ----

  /** The test against the maximum is exact to the byte, partial elements included. */
  lemma ExceedsIff(c: Config, s: State, maximum: nat)
    requires c.Valid() && Whole(c, s)
    ensures Exceeds(c, s, maximum) <==> |s.published| + |s.pending| > Mul(maximum, c.size)
  {
    var dim, buffered, rest := Dim(c, s), Buffered(c, s), Rem(|s.pending|, c.size);
    SplitWhole(|s.published|, c.size);
    SplitWhole(|s.pending|, c.size);
    assert Mul(dim, c.size) + Mul(buffered, c.size) == Mul(dim + buffered, c.size) by {
      MulAdd(dim, buffered, c.size);
    }
    ElementsIff(dim + buffered, rest, maximum, c.size);
  }

  /** So many whole elements and `rest` bytes of one more exceed `maximum` elements. */
  lemma ElementsIff(elements: nat, rest: nat, maximum: nat, size: nat)
    requires size > 0 && rest < size
    ensures Mul(elements, size) + rest > Mul(maximum, size) <==> elements > maximum || (elements == maximum && rest != 0)
  {
    if elements > maximum {
      MulStep(maximum, elements, size);
    } else if elements < maximum {
      MulStep(elements, maximum, size);
      MulStep(elements + 1, maximum, size);
      MulAdd(elements, 1, size);
    }
  }

  predicate Overfull(c: Config, s: State, w: World)
    requires c.Valid()
  {
    c.maximum.Some? && (!w.readable || Exceeds(c, s, c.maximum.value))
  }

  /** The call records no datatype that is new to the buffer. */
  predicate Familiar(s: State, input: Input) {
    input.Typed? ==> s.kind == Some(input.kind) || (s.kind.Some? && s.conflict)
  }

  /**
   A call that fails before the write path restores everything but the recorded datatype, and that
   too if and only if it was refused as such, or its datatype is none, the recorded one, or one more
   in conflict.
   */
  lemma AppendRollsBack(c: Config, s: State, input: Input, w: World)
    requires c.Valid() && s.lifecycle != Stopped
    ensures var (t, r) := Append(c, s, input, w);
      r.Err? && (t.lifecycle != Poisoned || t.writes == s.writes) ==>
        && t == s.(kind := t.kind, conflict := t.conflict)
        && (t == s <==> !Usable(s, w) || Familiar(s, input))
        && t == if Usable(s, w) then Record(s, input) else s
  {
    if Usable(s, w) && !input.Unencodable? {
      var grown := Taken(s, input);
      assert Front(grown.pending, |s.pending|) == s.pending;
    }
  }

  lemma FlushRollsBack(c: Config, s: State, mode: Mode, w: World)
    requires c.Valid() && s.lifecycle != Stopped
    ensures var (t, r) := Flush(c, s, mode, w);
      (r.Err? && t.lifecycle != Poisoned ==> t == s) && (t.writes == s.writes ==> t == s)
  {
  }

  lemma TakenInv(c: Config, s: State, input: Input, w: World)
    requires Inv(c, s) && s.lifecycle == Active && !input.Unencodable? && !Overfull(c, Taken(s, input), w)
    ensures Inv(c, Taken(s, input))
  {
    if c.maximum.Some? {
      ExceedsIff(c, Taken(s, input), c.maximum.value);
    }
  }

  lemma AppendInv(c: Config, s: State, input: Input, w: World)
    requires Inv(c, s) && s.lifecycle != Stopped
    ensures Inv(c, Append(c, s, input, w).0)
  {
    AppendRollsBack(c, s, input, w);
    if Usable(s, w) && !input.Unencodable? && !Overfull(c, Taken(s, input), w) {
      var grown := Taken(s, input);
      TakenInv(c, s, input, w);
      var avail := Buffered(c, grown);
      if c.chunk <= avail && w.readable {
        TakeAligns(c.chunk, Dim(c, grown), avail);
        WriteInv(c, grown, Take(c.chunk, Dim(c, grown), avail), w);
      }
    }
  }

  lemma FlushInv(c: Config, s: State, w: World)
    requires Inv(c, s) && s.lifecycle != Stopped
    ensures Inv(c, Flush(c, s, Continue, w).0)
  {
    if Flush(c, s, Continue, w).0 != s {
      WriteInv(c, s, Buffered(c, s), w);
    }
  }

  lemma TerminalInv(c: Config, s: State, w: World)
    requires Inv(c, s) && s.lifecycle != Stopped
    ensures Inv(c, Flush(c, s, Finish, w).0.(lifecycle := Stopped))
  {
    if Flush(c, s, Finish, w).0 != s {
      TerminalWriteInv(c, s, Buffered(c, s), w);
    }
  }

  lemma StepInv(c: Config, s: State, op: Op)
    requires Inv(c, s) && Legal(s, op)
    ensures Inv(c, Step(c, s, op).0)
  {
    match op
    case AppendOp(input, w) => AppendInv(c, s, input, w);
    case FlushOp(w) => FlushInv(c, s, w);
    case FinishOp(w) => TerminalInv(c, s, w);
    case DiscardOp =>
    case DropOp(w) =>
      if s.lifecycle == Active {
        TerminalInv(c, s, w);
      }
  }

  /**
   In every run the dataset never exceeds its maximum, nor does the dataset with an active buffer;
   and under a lossy pipeline that may not re-encode, an active appender leaves it chunk-aligned.
   */
  lemma {:induction false} RunInv(c: Config, s: State, ops: seq<Op>)
    requires Inv(c, s) && AllLegal(c, s, ops)
    ensures Inv(c, Run(c, s, ops))
  {
    if ops != [] {
      RunInv(c, s, ops[..|ops| - 1]);
      StepInv(c, Run(c, s, ops[..|ops| - 1]), ops[|ops| - 1]);
    }
  }

  // ---- A dataset past its maximum ----

  lemma OverlongExceeds(c: Config, s: State, input: Input)
    requires Overlong(c, s) && !input.Unencodable?
    ensures Exceeds(c, Taken(s, input), c.maximum.value)
  {
    ExceedsIff(c, Taken(s, input), c.maximum.value);
  }

  /** No step changes it, and every append is refused. */
  lemma OverlongStep(c: Config, s: State, op: Op)
    requires Overlong(c, s) && Legal(s, op)
    ensures var (t, r) := Step(c, s, op);
      && Overlong(c, t) && t.published == s.published && t.writes == s.writes && (op.AppendOp? ==> r.Err?)
  {
    if op.AppendOp? {
      AppendRollsBack(c, s, op.input, op.w);
      if !op.input.Unencodable? {
        OverlongExceeds(c, s, op.input);
      }
    }
  }

  lemma {:induction false} OverlongRun(c: Config, s: State, ops: seq<Op>)
    requires Overlong(c, s) && AllLegal(c, s, ops)
    ensures Overlong(c, Run(c, s, ops)) && Run(c, s, ops).published == s.published
    ensures KeptInRun(c, s, ops) == [] && !LosesInRun(c, s, ops)
  {
    if ops != [] {
      var front := ops[..|ops| - 1];
      OverlongRun(c, s, front);
      OverlongStep(c, Run(c, s, front), ops[|ops| - 1]);
    }
  }

  lemma StepSound(c: Config, s: State, op: Op)
    requires Sound(c, s) && Legal(s, op)
    ensures Sound(c, Step(c, s, op).0)
  {
    if Inv(c, s) {
      StepInv(c, s, op);
    } else {
      OverlongStep(c, s, op);
    }
  }

  lemma {:induction false} RunSound(c: Config, s: State, ops: seq<Op>)
    requires Sound(c, s) && AllLegal(c, s, ops)
    ensures Sound(c, Run(c, s, ops))
  {
    if Inv(c, s) {
      RunInv(c, s, ops);
    } else {
      OverlongRun(c, s, ops);
    }
  }

  /** No run takes the dataset past its maximum: one that is longer was never changed. */
  lemma RunWithinMaximum(c: Config, s: State, ops: seq<Op>)
    requires Sound(c, s) && AllLegal(c, s, ops) && c.maximum.Some?
    ensures |Run(c, s, ops).published| <= Mul(c.maximum.value, c.size) || Run(c, s, ops).published == s.published
  {
    if Inv(c, s) {
      RunInv(c, s, ops);
    } else {
      OverlongRun(c, s, ops);
    }
  }

  // ---- Alignment ----

  /** After a successful append less than a chunk is buffered, and a write ended on a chunk boundary. */
  lemma AppendAligns(c: Config, s: State, input: Input, w: World)
    requires Inv(c, s) && s.lifecycle == Active && Append(c, s, input, w).1.Ok?
    ensures var t := Append(c, s, input, w).0;
      && t.lifecycle == Active && Buffered(c, t) < c.chunk
      && (t.writes == s.writes ==> t.published == s.published)
      && (t.writes != s.writes ==> t.writes == s.writes + 1 && Rem(Dim(c, t), c.chunk) == 0 && Dim(c, t) > Dim(c, s))
  {
    var grown := Taken(s, input);
    TakenInv(c, s, input, w);
    var avail := Buffered(c, grown);
    if c.chunk <= avail {
      var take := Take(c.chunk, Dim(c, grown), avail);
      TakeAligns(c.chunk, Dim(c, grown), avail);
      TakeFits(c, grown, take);
      WriteLengths(c, grown, take, w);
    }
  }

  /** No committed value is re-encoded: such an appender begins every write on a chunk boundary. */
  lemma WritesBeginAligned(c: Config, s: State, op: Op)
    requires Sound(c, s) && Legal(s, op) && c.lossy && c.reject
    ensures Step(c, s, op).0.writes != s.writes ==> s.lifecycle == Active && Rem(Dim(c, s), c.chunk) == 0
  {
    if Overlong(c, s) {
      OverlongStep(c, s, op);
    } else if s.lifecycle != Active {
      Frozen(c, s, op);
    }
  }

  // ---- When a call succeeds ----

  /** A write that is attempted in this world lands. */
  predicate Lands(s: State, w: World) { w.readable && Fate(s, w).Landed? }

  /** A write of the whole buffer publishes it, and there is nothing left. */
  predicate Published(s: State, t: State) {
    t.published == s.published + s.pending && t.pending == []
  }

  lemma WriteAll(c: Config, s: State, w: World)
    requires c.Valid() && Rem(|s.pending|, c.size) == 0
    ensures var (t, r) := WritePrefix(c, s, Buffered(c, s), w);
      (r.Ok? <==> Lands(s, w)) && (r.Ok? ==> Published(s, t) && t.lifecycle == s.lifecycle)
  {
    SplitWhole(|s.pending|, c.size);
    assert s.pending[..|s.pending|] == s.pending && s.pending[|s.pending|..] == [];
  }

  /** A flush in the middle of the appender's life may end here: no committed value will have to be re-encoded. */
  predicate MayEnd(c: Config, s: State, w: World)
    requires c.Valid()
  {
    c.lossy && c.reject ==>
      w.readable && Dim(c, s) + Buffered(c, s) <= U64_MAX && Rem(Dim(c, s) + Buffered(c, s), c.chunk) == 0
  }

  /**
   A flush succeeds exactly when the appender is usable, the buffer is whole elements, and, unless it
   is empty, the write lands and may end where it does; a terminal flush may always. It has then
   published the whole buffer.
   */
  lemma FlushIff(c: Config, s: State, mode: Mode, w: World)
    requires c.Valid()
    ensures var (t, r) := Flush(c, s, mode, w);
      && (r.Ok? <==> && Usable(s, w) && Rem(|s.pending|, c.size) == 0
                     && (s.pending == [] || (Lands(s, w) && (mode == Finish || MayEnd(c, s, w)))))
      && (r.Ok? ==> Published(s, t) && t.lifecycle == s.lifecycle)
  {
    SplitWhole(|s.pending|, c.size);
    ScaledZero(Buffered(c, s), c.size);
    if Rem(|s.pending|, c.size) == 0 {
      WriteAll(c, s, w);
    }
  }

  /**
   `finish` succeeds exactly when the appender is usable, the buffer is whole elements, and a write of
   it, partial chunk included, lands; it has then published the whole buffer. It always stops.
   */
  lemma FinishIff(c: Config, s: State, w: World)
    requires c.Valid()
    ensures var (t, r) := FinishAll(c, s, w);
      && (r.Ok? <==> Usable(s, w) && Rem(|s.pending|, c.size) == 0 && (s.pending == [] || Lands(s, w)))
      && (r.Ok? ==> Published(s, t)) && t.lifecycle == Stopped
  {
    FlushIff(c, s, Finish, w);
  }

  /** The drop of an active appender publishes exactly what `finish` would have. */
  lemma DropPublishes(c: Config, s: State, w: World)
    requires c.Valid() && s.lifecycle == Active
    ensures var t := Teardown(c, s, w);
      && t.lifecycle == Stopped && (FinishAll(c, s, w).1.Ok? ==> Published(s, t))
      && t.published == FinishAll(c, s, w).0.published && t.pending == FinishAll(c, s, w).0.pending
  {
    FinishIff(c, s, w);
    assert s.pending == [] ==> Buffered(c, s) == 0 by {
      SplitWhole(0, c.size);
      ScaledZero(Quot(0, c.size), c.size);
    }
  }

  /**
   An append succeeds exactly when the appender is usable, the input can be encoded, the dataset can
   hold it, and the write lands if there is a whole chunk to write.
   */
  lemma AppendIff(c: Config, s: State, input: Input, w: World)
    requires Sound(c, s)
    ensures Append(c, s, input, w).1.Ok? <==>
      && Usable(s, w) && !input.Unencodable?
      && (c.maximum.Some? ==>
            w.readable && |s.published| + |s.pending| + |input.bytes| <= Mul(c.maximum.value, c.size))
      && (|s.pending| + |input.bytes| < Mul(c.chunk, c.size) || Lands(Record(s, input), w))
  {
    if Usable(s, w) && !input.Unencodable? {
      var grown := Taken(s, input);
      if c.maximum.Some? {
        ExceedsIff(c, grown, c.maximum.value);
      }
      ChunkIff(|grown.pending|, c.chunk, c.size);
    }
  }

  lemma ChunkIff(bytes: nat, chunk: nat, size: nat)
    requires size > 0
    ensures Quot(bytes, size) < chunk <==> bytes < Mul(chunk, size)
  {
    DivBelow(bytes, size, chunk);
  }

  // ---- Poisoning ----

  /** Once a write has failed, or the appender has been consumed, no step writes. */
  lemma Frozen(c: Config, s: State, op: Op)
    requires c.Valid() && Legal(s, op) && s.lifecycle != Active
    ensures var (t, r) := Step(c, s, op);
      && t.lifecycle != Active && t.published == s.published && t.writes == s.writes
      && t.discarded + t.pending == s.discarded + s.pending
      && (op.AppendOp? || op.FlushOp? || op.FinishOp? ==> r.Err?)
  {
  }

  /** After one failed write no further write is attempted in any run, by `finish` and drop included. */
  lemma {:induction false} NoWriteAfterFailure(c: Config, s: State, ops: seq<Op>)
    requires c.Valid() && s.lifecycle != Active && AllLegal(c, s, ops)
    ensures var t := Run(c, s, ops);
      && t.lifecycle != Active && t.published == s.published && t.writes == s.writes
      && t.discarded + t.pending == s.discarded + s.pending
  {
    if ops != [] {
      var front := ops[..|ops| - 1];
      NoWriteAfterFailure(c, s, front);
      Frozen(c, Run(c, s, front), ops[|ops| - 1]);
    }
  }

  // ---- Conservation ----

  /** Everything the appender has been given and not refused. */
  function All(s: State): seq<byte> { s.published + s.pending + s.discarded }

  /** The bytes a step takes in: an append's input, unless the append failed before the write path. */
  function Kept(c: Config, s: State, op: Op): seq<byte>
    requires c.Valid()
  {
    if op.AppendOp? && !op.input.Unencodable? && Usable(s, op.w)
       && (Step(c, s, op).1.Ok? || Step(c, s, op).0.lifecycle == Poisoned)
    then op.input.bytes else []
  }

  function KeptInRun(c: Config, s: State, ops: seq<Op>): seq<byte>
    requires c.Valid()
  {
    if ops == [] then []
    else KeptInRun(c, s, ops[..|ops| - 1]) + Kept(c, Run(c, s, ops[..|ops| - 1]), ops[|ops| - 1])
  }

  /** The state a step writes from. */
  function Recorded(s: State, op: Op): State { if op.AppendOp? then Record(s, op.input) else s }

  /** The step attempts a write that fails, publishes something, and leaves the dataset's length unreadable. */
  predicate Loses(c: Config, s: State, op: Op)
    requires c.Valid()
  {
    !op.DiscardOp? && Step(c, s, op).0.writes != s.writes && Duplicates(Recorded(s, op), op.w)
  }

  /** The same of one write: bytes that landed stay in the buffer. */
  predicate Duplicates(s: State, w: World) {
    w.readable && Fate(s, w).Failed? && !Fate(s, w).seen && Fate(s, w).landed > 0
  }

  lemma WriteKeepsAll(c: Config, s: State, take: nat, w: World)
    requires c.Valid() && 0 < take <= Buffered(c, s) && s.discarded == []
    ensures !Duplicates(s, w) ==> All(WritePrefix(c, s, take, w).0) == All(s)
    ensures Duplicates(s, w) ==>
      |All(WritePrefix(c, s, take, w).0)| > |All(s)| && WritePrefix(c, s, take, w).0.lifecycle == Poisoned
  {
    TakeFits(c, s, take);
    WriteConserves(c, s, take, w);
    if Duplicates(s, w) {
      GoneWithin(c, s, take, Fate(s, w));
      ScaledZero(Min(Fate(s, w).landed, take), c.size);
    }
  }

  /** A step takes in exactly what it keeps, or, if it loses count, ends with more and writes no more. */
  ghost predicate Accounted(c: Config, s: State, op: Op)
    requires c.Valid()
  {
    var t := Step(c, s, op).0;
    && (!Loses(c, s, op) ==> All(t) == All(s) + Kept(c, s, op))
    && (Loses(c, s, op) ==> t.lifecycle != Active && |All(t)| > |All(s)| + |Kept(c, s, op)|)
  }

  /** An append that attempts no write keeps its input exactly when it succeeds. */
  lemma AppendQuiet(c: Config, s: State, input: Input, w: World)
    requires Inv(c, s) && s.lifecycle != Stopped && Append(c, s, input, w).0.writes == s.writes
    ensures var (t, r) := Append(c, s, input, w);
      && (r.Ok? ==> Usable(s, w) && !input.Unencodable? && t == Taken(s, input))
      && (r.Err? ==> t == s.(kind := t.kind, conflict := t.conflict))
  {
    AppendRollsBack(c, s, input, w);
  }

  /** One that does writes from the buffer with its input. */
  lemma AppendWrites(c: Config, s: State, input: Input, w: World) returns (take: nat)
    requires Inv(c, s) && s.lifecycle != Stopped && Append(c, s, input, w).0.writes != s.writes
    ensures Usable(s, w) && !input.Unencodable? && 0 < take <= Buffered(c, Taken(s, input))
    ensures Append(c, s, input, w) == WritePrefix(c, Taken(s, input), take, w)
    ensures Append(c, s, input, w).1.Ok? || Append(c, s, input, w).0.lifecycle == Poisoned
  {
    var grown := Taken(s, input);
    var avail := Buffered(c, grown);
    TakeAligns(c.chunk, Dim(c, grown), avail);
    take := Take(c.chunk, Dim(c, grown), avail);
  }

  lemma AllTaken(s: State, input: Input)
    requires s.discarded == [] && !input.Unencodable?
    ensures All(Taken(s, input)) == All(s) + input.bytes
  {
  }

  lemma QuietAccounted(c: Config, s: State, op: Op)
    requires Inv(c, s) && s.lifecycle != Stopped && op.AppendOp? && Step(c, s, op).0.writes == s.writes
    ensures Accounted(c, s, op)
  {
    AppendQuiet(c, s, op.input, op.w);
    if Step(c, s, op).1.Ok? {
      AllTaken(s, op.input);
    }
  }

  lemma WritingAccounted(c: Config, s: State, op: Op)
    requires Inv(c, s) && s.lifecycle != Stopped && op.AppendOp? && Step(c, s, op).0.writes != s.writes
    ensures Accounted(c, s, op)
  {
    var take := AppendWrites(c, s, op.input, op.w);
    AllTaken(s, op.input);
    WriteKeepsAll(c, Taken(s, op.input), take, op.w);
    SameFate(s, op.input, op.w);
  }

  lemma SameFate(s: State, input: Input, w: World)
    requires !input.Unencodable?
    ensures Duplicates(Taken(s, input), w) <==> Duplicates(Record(s, input), w)
  {
  }

  lemma AppendAccounted(c: Config, s: State, op: Op)
    requires Inv(c, s) && s.lifecycle != Stopped && op.AppendOp?
    ensures Accounted(c, s, op)
  {
    if Step(c, s, op).0.writes == s.writes {
      QuietAccounted(c, s, op);
    } else {
      WritingAccounted(c, s, op);
    }
  }

  lemma FlushAccounted(c: Config, s: State, mode: Mode, w: World)
    requires Inv(c, s) && s.lifecycle != Stopped
    ensures var t := Flush(c, s, mode, w).0;
      && (t.writes == s.writes ==> t == s)
      && (t.writes == s.writes || !Duplicates(s, w) ==> All(t) == All(s))
      && (t.writes != s.writes ==> w.readable && (Duplicates(s, w) ==> |All(t)| > |All(s)| && t.lifecycle == Poisoned))
  {
    if Flush(c, s, mode, w).0 != s {
      WriteKeepsAll(c, s, Buffered(c, s), w);
    }
  }

  lemma StepAccounted(c: Config, s: State, op: Op)
    requires Inv(c, s) && Legal(s, op)
    ensures Accounted(c, s, op)
  {
    match op
    case AppendOp(input, w) => AppendAccounted(c, s, op);
    case FlushOp(w) => FlushAccounted(c, s, Continue, w);
    case FinishOp(w) => FlushAccounted(c, s, Finish, w);
    case DiscardOp => assert All(Discard(s)) == All(s);
    case DropOp(w) =>
      if s.lifecycle == Active {
        FlushAccounted(c, s, Finish, w);
      }
  }

  /** Some step of the run loses count. */
  predicate LosesInRun(c: Config, s: State, ops: seq<Op>)
    requires c.Valid()
  {
    ops != [] && (LosesInRun(c, s, ops[..|ops| - 1]) || Loses(c, Run(c, s, ops[..|ops| - 1]), ops[|ops| - 1]))
  }

  /** Once the appender no longer writes, nothing is taken in. */
  lemma FrozenTakesNothing(c: Config, s: State, op: Op)
    requires c.Valid() && Legal(s, op) && s.lifecycle != Active
    ensures Kept(c, s, op) == [] && |All(Step(c, s, op).0)| == |All(s)| && Step(c, s, op).0.lifecycle != Active
  {
    Frozen(c, s, op);
    assert |Step(c, s, op).0.discarded + Step(c, s, op).0.pending| == |s.discarded + s.pending|;
  }

  lemma {:induction false} RunLoses(c: Config, s: State, ops: seq<Op>)
    requires Inv(c, s) && AllLegal(c, s, ops) && LosesInRun(c, s, ops)
    ensures Run(c, s, ops).lifecycle != Active && |All(Run(c, s, ops))| > |All(s)| + |KeptInRun(c, s, ops)|
  {
    var front, op := ops[..|ops| - 1], ops[|ops| - 1];
    RunInv(c, s, front);
    if LosesInRun(c, s, front) {
      RunLoses(c, s, front);
      FrozenTakesNothing(c, Run(c, s, front), op);
    } else {
      RunKeeps(c, s, front);
      StepAccounted(c, Run(c, s, front), op);
    }
  }

  lemma {:induction false} RunKeeps(c: Config, s: State, ops: seq<Op>)
    requires Inv(c, s) && AllLegal(c, s, ops) && !LosesInRun(c, s, ops)
    ensures All(Run(c, s, ops)) == All(s) + KeptInRun(c, s, ops)
  {
    if ops != [] {
      var front := ops[..|ops| - 1];
      RunKeeps(c, s, front);
      RunInv(c, s, front);
      KeepsNext(c, All(s), Run(c, s, front), KeptInRun(c, s, front), ops[|ops| - 1]);
    }
  }

  lemma KeepsNext(c: Config, start: seq<byte>, s: State, kept: seq<byte>, op: Op)
    requires Inv(c, s) && Legal(s, op) && !Loses(c, s, op) && All(s) == start + kept
    ensures All(Step(c, s, op).0) == start + (kept + Kept(c, s, op))
  {
    StepAccounted(c, s, op);
    assert start + (kept + Kept(c, s, op)) == start + kept + Kept(c, s, op);
  }

  /**
   The published bytes followed by the pending or discarded ones are the dataset's first bytes
   followed by every input kept, if and only if no step of the run attempts a write that fails,
   publishes something, and leaves the length unreadable.
   */
  lemma RunConserves(c: Config, s: State, ops: seq<Op>)
    requires Sound(c, s) && AllLegal(c, s, ops)
    ensures All(Run(c, s, ops)) == All(s) + KeptInRun(c, s, ops) <==> !LosesInRun(c, s, ops)
  {
    if Overlong(c, s) {
      OverlongRun(c, s, ops);
    } else if LosesInRun(c, s, ops) {
      RunLoses(c, s, ops);
    } else {
      RunKeeps(c, s, ops);
    }
  }

  /**
   Every new appender has such a run: its first full chunk is written, one element lands, and the
   length cannot be read. What landed is then also still pending.
   */
  lemma LosingRun(c: Config, bytes: seq<byte>)
    requires c.Valid() && c.maximum.None? && |bytes| == Mul(c.chunk, c.size) && New(c, []).Ok?
    ensures var s, ops := New(c, []).value, [AppendOp(Raw(bytes), World(true, true, Failed(1, false)))];
      && Inv(c, s) && AllLegal(c, s, ops) && LosesInRun(c, s, ops)
      && All(Run(c, s, ops)) != All(s) + KeptInRun(c, s, ops)
  {
    var s, op := New(c, []).value, AppendOp(Raw(bytes), World(true, true, Failed(1, false)));
    AddWhole(0, c.chunk, c.size);
    NewSound(c, []);
    OneStep(c, s, op);
    FirstChunkWrites(c, s, bytes, op.w);
    RunConserves(c, s, [op]);
  }

  /** A full chunk in an empty buffer is written. */
  lemma FirstChunkWrites(c: Config, s: State, bytes: seq<byte>, w: World)
    requires c.Valid() && c.maximum.None? && s.lifecycle == Active && s.pending == [] && w.usable && w.readable
    requires |bytes| == Mul(c.chunk, c.size)
    ensures Append(c, s, Raw(bytes), w).0.writes == s.writes + 1
  {
    AddWhole(0, c.chunk, c.size);
    assert Taken(s, Raw(bytes)).pending == bytes;
  }

  lemma OneStep(c: Config, s: State, op: Op)
    requires c.Valid() && Legal(s, op)
    ensures AllLegal(c, s, [op]) && Run(c, s, [op]) == Step(c, s, op).0
    ensures LosesInRun(c, s, [op]) <==> Loses(c, s, op)
  {
    assert [op][..0] == [];
    assert Run(c, s, []) == s && AllLegal(c, s, []) && !LosesInRun(c, s, []);
  }

  // ---- Datatypes ----

  /** The datatypes that the run's typed calls recorded, in order, those of refused appends included. */
  function Kinds(c: Config, s: State, ops: seq<Op>): seq<nat>
    requires c.Valid()
  {
    if ops == [] then []
    else
      var front, op := ops[..|ops| - 1], ops[|ops| - 1];
      Kinds(c, s, front)
      + if op.AppendOp? && op.input.Typed? && Usable(Run(c, s, front), op.w) then [op.input.kind] else []
  }

  predicate Mixed(kinds: seq<nat>) {
    exists i :: 0 <= i < |kinds| && kinds[i] != kinds[0]
  }

  /** The recorded datatype is that of the first typed call, and there is a conflict if a later one differed. */
  predicate Remembers(s: State, kinds: seq<nat>) {
    && s.kind == (if kinds == [] then None else Some(kinds[0]))
    && (s.conflict <==> Mixed(kinds))
  }

  lemma RecordRemembers(s: State, t: State, kinds: seq<nat>, input: Input)
    requires Remembers(s, kinds) && input.Typed? && t == Record(s, input)
    ensures Remembers(t, kinds + [input.kind])
  {
    var more := kinds + [input.kind];
    assert more[|kinds|] == input.kind;
    assert forall i :: 0 <= i < |kinds| ==> more[i] == kinds[i];
  }

  lemma StepKinds(c: Config, s: State, op: Op)
    requires c.Valid() && Legal(s, op) && !op.DiscardOp?
    ensures var t, u := Step(c, s, op).0,
                        if op.AppendOp? && Usable(s, op.w) then Record(s, op.input) else s;
      t.kind == u.kind && t.conflict == u.conflict
  {
  }

  /**
   Until the bytes are handed back, what a buffer knows of datatypes is the history of its typed
   calls: a call that was refused counts like one that was not.
   */
  lemma {:induction false} KindsAreHistory(c: Config, s: State, ops: seq<Op>)
    requires c.Valid() && AllLegal(c, s, ops) && s.kind == None && !s.conflict
    requires forall i :: 0 <= i < |ops| ==> !ops[i].DiscardOp?
    ensures Remembers(Run(c, s, ops), Kinds(c, s, ops))
  {
    if ops != [] {
      var front, op := ops[..|ops| - 1], ops[|ops| - 1];
      var before := Run(c, s, front);
      KindsAreHistory(c, s, front);
      StepKinds(c, before, op);
      if op.AppendOp? && op.input.Typed? && Usable(before, op.w) {
        RecordRemembers(before, Record(before, op.input), Kinds(c, s, front), op.input);
      } else {
        assert Kinds(c, s, ops) == Kinds(c, s, front);
      }
    }
  }

  /** `t` has published nothing that `s` had not, and a write that was attempted failed. */
  predicate Blocked(s: State, t: State, r: Result<()>) {
    t.published == s.published && (t.writes != s.writes ==> t.lifecycle == Poisoned && r.Err?)
  }

  lemma ConflictWrite(c: Config, s: State, take: nat, w: World)
    requires s.conflict
    ensures Blocked(s, WritePrefix(c, s, take, w).0, WritePrefix(c, s, take, w).1)
    ensures WritePrefix(c, s, take, w).0.conflict
  {
    assert Min(0, take) == 0 && Mul(0, c.size) == 0;
    assert s.published + Front(s.pending, 0) == s.published;
  }

  lemma ConflictAppend(c: Config, s: State, input: Input, w: World)
    requires Inv(c, s) && s.lifecycle != Stopped && s.conflict
    ensures var (t, r) := Append(c, s, input, w); Blocked(s, t, r) && t.conflict
  {
    if Append(c, s, input, w).0.writes == s.writes {
      AppendQuiet(c, s, input, w);
      AppendRollsBack(c, s, input, w);
    } else {
      var take := AppendWrites(c, s, input, w);
      ConflictWrite(c, Taken(s, input), take, w);
    }
  }

  lemma ConflictFlush(c: Config, s: State, mode: Mode, w: World)
    requires c.Valid() && s.conflict
    ensures var (t, r) := Flush(c, s, mode, w); Blocked(s, t, r) && t.conflict
  {
    ConflictWrite(c, s, Buffered(c, s), w);
  }

  /** With datatypes in conflict no write publishes anything, and one that is attempted ends the writing. */
  lemma ConflictStep(c: Config, s: State, op: Op)
    requires Sound(c, s) && Legal(s, op) && (s.conflict || s.lifecycle == Stopped)
    ensures var t := Step(c, s, op).0;
      && t.published == s.published && (t.conflict || t.lifecycle == Stopped)
      && (t.writes != s.writes ==> t.lifecycle != Active)
  {
    if s.lifecycle != Active {
      Frozen(c, s, op);
    } else if Overlong(c, s) {
      OverlongStep(c, s, op);
      ConflictStays(c, s, op);
    } else {
      match op
      case AppendOp(input, w) => ConflictAppend(c, s, input, w);
      case FlushOp(w) => ConflictFlush(c, s, Continue, w);
      case FinishOp(w) => ConflictFlush(c, s, Finish, w);
      case DiscardOp =>
      case DropOp(w) => ConflictFlush(c, s, Finish, w);
    }
  }

  lemma ConflictStays(c: Config, s: State, op: Op)
    requires c.Valid() && Legal(s, op) && s.conflict
    ensures Step(c, s, op).0.conflict || Step(c, s, op).0.lifecycle == Stopped
  {
    if !op.DiscardOp? {
      StepKinds(c, s, op);
    }
  }

  /** So from a conflict on nothing is published, in any run, whatever the editor would have done. */
  lemma {:induction false} ConflictPublishesNothing(c: Config, s: State, ops: seq<Op>)
    requires Sound(c, s) && AllLegal(c, s, ops) && s.conflict
    ensures var t := Run(c, s, ops); t.published == s.published && (t.conflict || t.lifecycle == Stopped)
  {
    if ops != [] {
      var front := ops[..|ops| - 1];
      ConflictPublishesNothing(c, s, front);
      RunSound(c, s, front);
      ConflictStep(c, Run(c, s, front), ops[|ops| - 1]);
    }
  }

  /**
   A refused append of another datatype: the bytes are rolled back, but the conflict stays, and no
   later run publishes what was already buffered.
   */
  lemma RefusedKindBlocks(c: Config, s: State, input: Input, w: World, ops: seq<Op>)
    requires Sound(c, s) && s.lifecycle == Active && w.usable
    requires input.Typed? && s.kind.Some? && s.kind.value != input.kind
    requires Append(c, s, input, w).1.Err? && Append(c, s, input, w).0.lifecycle == Active
    requires AllLegal(c, Append(c, s, input, w).0, ops)
    ensures var t := Append(c, s, input, w).0;
      && t == s.(conflict := true)
      && Run(c, t, ops).published == s.published
  {
    AppendRollsBack(c, s, input, w);
    ConflictPublishesNothing(c, Append(c, s, input, w).0, ops);
  }

  /** Input longer than the whole dataset may become is refused before any write. */
  lemma TooLongIsRefused(c: Config, s: State, input: Input, w: World)
    requires Inv(c, s) && s.lifecycle == Active && w.usable && !input.Unencodable?
    requires c.maximum.Some? && |input.bytes| > Mul(c.maximum.value, c.size)
    ensures Append(c, s, input, w).1.Err? && Append(c, s, input, w).0.lifecycle == Active
  {
    ExceedsIff(c, Taken(s, input), c.maximum.value);
  }

  /** Such input of another datatype keeps a flush from publishing what it otherwise would. */
  lemma RefusedKindRun(c: Config, s: State, input: Input, w: World)
    requires Inv(c, s) && s.lifecycle == Active && w.usable && !c.lossy
    requires s.pending != [] && Rem(|s.pending|, c.size) == 0
    requires s.kind.Some? && !s.conflict && input.Typed? && input.kind != s.kind.value
    requires c.maximum.Some? && |input.bytes| > Mul(c.maximum.value, c.size)
    ensures var flush := World(true, true, Landed);
      && Flush(c, s, Continue, flush).0.published == s.published + s.pending
      && Flush(c, Append(c, s, input, w).0, Continue, flush).0.published == s.published
  {
    var flush, t := World(true, true, Landed), Append(c, s, input, w).0;
    TooLongIsRefused(c, s, input, w);
    RefusedKindBlocks(c, s, input, w, []);
    SplitWhole(|s.pending|, c.size);
    assert Mul(0, c.size) == 0;
    assert Front(s.pending, |s.pending|) == s.pending;
    ConflictFlush(c, t, Continue, flush);
  }
}
