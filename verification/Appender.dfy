/** The code of the buffered appender (`BufferState` in src/appender.rs), proved to take the steps of `AppendModel`. */
module Appender {
  import opened Basics
  import opened AppendModel
  import opened AppendRuns

  /** The dataset as its editing session shows it. */
  class Dataset {
    var published: seq<byte>
    ghost var writes: nat

    constructor (published: seq<byte>)
      ensures this.published == published && writes == 0
    {
      this.published, writes := published, 0;
    }

    /** `append_geometry().current_dim`. */
    method CurrentDim(size: nat, readable: bool) returns (r: Result<nat>)
      requires size > 0
      ensures r == if readable then Ok(Quot(|published|, size)) else Err(AppendUnsupported)
    {
      r := if readable then Ok(Quot(|published|, size)) else Err(AppendUnsupported);
    }

    /**
     `append_prebuilt`: the editor refuses mixed datatypes, and otherwise publishes all of `head`, or
     fails after some of its elements.
     */
    method AppendPrebuilt(head: seq<byte>, size: nat, conflict: bool, outcome: Outcome) returns (r: Result<()>)
      modifies this
      ensures writes == old(writes) + 1
      ensures r == if outcome.Landed? && !conflict then Ok(()) else Err(AppendUnsupported)
      ensures published == old(published) + if conflict then []
                                            else if outcome.Landed? then head
                                            else Front(head, Mul(outcome.landed, size))
    {
      writes := writes + 1;
      if conflict {
        assert published == old(published) + [];
        return Err(AppendUnsupported);
      }
      match outcome
      case Landed =>
        published := published + head;
        r := Ok(());
      case Failed(landed, seen) =>
        published := published + Front(head, Mul(landed, size));
        r := Err(AppendUnsupported);
    }
  }

  class BufferState {
    const config: Config
    const dataset: Dataset
    var pending: seq<byte>
    var lifecycle: Lifecycle
    var kind: Option<nat>
    var conflict: bool
    ghost var discarded: seq<byte>

    ghost function State(): AppendModel.State
      reads this, dataset
    {
      AppendModel.State(dataset.published, pending, lifecycle, discarded, dataset.writes, kind, conflict)
    }

    ghost predicate Valid()
      reads this, dataset
    {
      Sound(config, State())
    }

    constructor (config: Config, dataset: Dataset)
      requires config.Valid() && New(config, dataset.published).Ok? && Rem(|dataset.published|, config.size) == 0
      requires dataset.writes == 0
      ensures Valid() && this.config == config && this.dataset == dataset
      ensures Ok(State()) == New(config, dataset.published)
    {
      NewSound(config, dataset.published);
      this.config, this.dataset, pending, lifecycle, discarded := config, dataset, [], Active, [];
      kind, conflict := None, false;
    }

    /**
     `BufferState::new`. The geometry, whether the session is a SWMR (single writer, multiple
     readers) one, and whether its appender claim is free come from outside. The dataset holds whole
     elements.
     */
    static method Open(geometry: Result<Config>, dataset: Dataset, swmr: bool, claim: Result<()>)
      returns (r: Result<BufferState>)
      requires geometry.Ok? ==> geometry.value.size > 0 && Rem(|dataset.published|, geometry.value.size) == 0
      requires dataset.writes == 0
      ensures r.Ok? <==> && geometry.Ok? && !swmr && geometry.value.chunk > 0 && claim.Ok?
                         && (geometry.value.lossy && geometry.value.reject ==>
                               Rem(|dataset.published|, Mul(geometry.value.chunk, geometry.value.size)) == 0)
      ensures r.Ok? ==> var b := r.value;
        && fresh(b) && b.Valid() && b.config == geometry.value && b.dataset == dataset
        && Ok(b.State()) == New(b.config, dataset.published)
    {
      var config :- geometry;
      if swmr {
        return Err(AppendUnsupported);
      }
      if config.chunk == 0 {
        return Err(InvalidGeometry);
      }
      WholeChunks(|dataset.published|, config.chunk, config.size);
      if config.lossy && config.reject && Rem(Quot(|dataset.published|, config.size), config.chunk) != 0 {
        return Err(AppendUnsupported);
      }
      var _ :- claim;
      var b := new BufferState(config, dataset);
      r := Ok(b);
    }

    method BufferedElements() returns (n: nat)
      requires config.Valid()
      ensures n == Buffered(config, State())
    {
      n := Quot(|pending|, config.size);
    }

    /** `write_prefix`. */
    method WritePrefix(take: nat, w: World) returns (r: Result<()>)
      requires config.Valid() && take <= Buffered(config, State()) && Rem(|dataset.published|, config.size) == 0
      requires |pending| <= USIZE_MAX
      modifies this, dataset
      ensures (State(), r) == AppendModel.WritePrefix(config, old(State()), take, w)
    {
      var before := dataset.CurrentDim(config.size, w.readable);
      if before.Err? {
        return Err(before.error);
      }
      TakeFits(config, State(), take);
      ghost var fate := Fate(State(), w);
      GoneWithin(config, State(), take, fate);
      var bytes := Mul(take, config.size);
      assert bytes <= USIZE_MAX;
      var head := Front(pending, bytes);
      r := dataset.AppendPrebuilt(head, config.size, conflict, w.outcome);
      var landed := take;
      if r.Err? {
        lifecycle := Poisoned;
        var now := dataset.CurrentDim(config.size, w.outcome.Landed? || w.outcome.seen);
        HeadLanded(pending, fate.landed, take, config.size);
        AddWhole(|old(dataset.published)|, Min(fate.landed, take), config.size);
        landed := if now.Err? then 0 else Min(now.value - before.value, take);
      }
      pending := Back(pending, Mul(landed, config.size));
    }

    method WriteCompleteChunks(w: World) returns (r: Result<()>)
      requires config.Valid() && Rem(|dataset.published|, config.size) == 0 && |pending| <= USIZE_MAX
      modifies this, dataset
      ensures (State(), r) == WriteComplete(config, old(State()), w)
    {
      var avail := BufferedElements();
      if avail < config.chunk {
        return Ok(());
      }
      var dim := dataset.CurrentDim(config.size, w.readable);
      if dim.Err? {
        return Err(dim.error);
      }
      TakeAligns(config.chunk, dim.value, avail);
      var partial := Rem(dim.value, config.chunk);
      var toBoundary := Rem(config.chunk - partial, config.chunk);
      assert toBoundary < config.chunk && toBoundary <= avail;
      var take := toBoundary + Mul(Quot(avail - toBoundary, config.chunk), config.chunk);
      assert 1 <= take <= avail;
      r := WritePrefix(take, w);
    }

    /** The closure of `settle`: the check against the maximum, then the automatic write. */
    method CheckAndWrite(w: World) returns (r: Result<()>)
      requires config.Valid() && Rem(|dataset.published|, config.size) == 0 && |pending| <= USIZE_MAX
      modifies this, dataset
      ensures (State(), r) == if Overfull(config, old(State()), w) then (old(State()), Err(AppendUnsupported))
                              else WriteComplete(config, old(State()), w)
    {
      if config.maximum.Some? {
        var dim := dataset.CurrentDim(config.size, w.readable);
        if dim.Err? {
          return Err(dim.error);
        }
        if dim.value > config.maximum.value {
          return Err(AppendUnsupported);
        }
        var remaining := config.maximum.value - dim.value;
        var available := BufferedElements();
        if available > remaining || (available == remaining && Rem(|pending|, config.size) != 0) {
          return Err(AppendUnsupported);
        }
      }
      r := WriteCompleteChunks(w);
    }

    /** `set_dt`, for typed input. */
    method RecordKind(input: Input)
      modifies this
      ensures State() == Record(old(State()), input)
    {
      if input.Typed? {
        match kind
        case None => kind := Some(input.kind);
        case Some(previous) =>
          if previous != input.kind {
            conflict := true;
          }
      }
    }

    /** `append` and `append_raw`, with `settle`. */
    method Append(input: Input, w: World) returns (r: Result<()>)
      requires Valid() && lifecycle != Stopped
      requires !input.Unencodable? ==> |pending| + |input.bytes| <= USIZE_MAX
      modifies this, dataset
      ensures Valid() && (State(), r) == AppendModel.Append(config, old(State()), input, w)
    {
      StepSound(config, State(), AppendOp(input, w));
      if !w.usable || lifecycle == Poisoned {
        return Err(Refused);
      }
      if input.Unencodable? {
        return Err(input.error);
      }
      var mark := |pending|;
      RecordKind(input);
      pending := pending + input.bytes;
      r := CheckAndWrite(w);
      if r.Err? && lifecycle == Active {
        pending := Front(pending, mark);
      }
    }

    method Flush(mode: Mode, w: World) returns (r: Result<()>)
      requires Valid() && lifecycle != Stopped && |pending| <= USIZE_MAX
      modifies this, dataset
      ensures (State(), r) == AppendModel.Flush(config, old(State()), mode, w)
      ensures mode == Continue ==> Valid()
    {
      if mode == Continue {
        StepSound(config, State(), FlushOp(w));
      }
      if !w.usable || lifecycle == Poisoned {
        return Err(Refused);
      }
      if Rem(|pending|, config.size) != 0 {
        return Err(AppendUnsupported);
      }
      var avail := BufferedElements();
      if avail == 0 {
        return Ok(());
      }
      if config.lossy && config.reject && mode == Continue {
        var dim := dataset.CurrentDim(config.size, w.readable);
        if dim.Err? {
          return Err(dim.error);
        }
        if dim.value + avail > U64_MAX || Rem(dim.value + avail, config.chunk) != 0 {
          return Err(AppendUnsupported);
        }
      }
      r := WritePrefix(avail, w);
    }

    /** `finish`: the terminal flush, after which the drop does nothing. */
    method FinishAll(w: World) returns (r: Result<()>)
      requires Valid() && lifecycle != Stopped && |pending| <= USIZE_MAX
      modifies this, dataset
      ensures Valid() && (State(), r) == AppendModel.FinishAll(config, old(State()), w)
    {
      StepSound(config, State(), FinishOp(w));
      r := Flush(Finish, w);
      lifecycle := Stopped;
    }

    method Discard() returns (bytes: seq<byte>)
      requires Valid() && lifecycle != Stopped
      modifies this
      ensures Valid() && State() == AppendModel.Discard(old(State())) && bytes == old(pending)
    {
      lifecycle := Stopped;
      discarded := discarded + pending;
      bytes, pending := pending, [];
      kind, conflict := None, false;
    }

    /** `teardown`, the drop of the appender. */
    method Teardown(w: World)
      requires Valid() && |pending| <= USIZE_MAX
      modifies this, dataset
      ensures Valid() && State() == AppendModel.Teardown(config, old(State()), w)
    {
      StepSound(config, State(), DropOp(w));
      if lifecycle == Active && pending != [] {
        var ignored := Flush(Finish, w);
      }
      lifecycle := Stopped;
    }
  }

  /** The part of a write's bytes that its first elements are. */
  lemma HeadLanded(pending: seq<byte>, landed: nat, take: nat, size: nat)
    requires Mul(take, size) <= |pending|
    ensures Front(Front(pending, Mul(take, size)), Mul(landed, size)) == Front(pending, Mul(Min(landed, take), size))
    ensures |Front(pending, Mul(Min(landed, take), size))| == Mul(Min(landed, take), size)
  {
    MulStep(landed, take, size);
    MulStep(take, landed, size);
  }
}
