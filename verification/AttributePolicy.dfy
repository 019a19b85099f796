/** The choice between compact and dense attribute storage, and its hysteresis (src/attribute_policy.rs). */
module AttributePolicy {
  import opened Basics

  datatype Storage = Compact | Dense

  const U16_MAX: nat := 0xFFFF

  /** A positive maximum of compact attributes, and the count below which dense storage reverts. */
  datatype Thresholds = Thresholds(maximum: nat, reversion: Option<nat>)

  /** Without thresholds, every nonempty set is dense. */
  datatype Policy = Policy(thresholds: Option<Thresholds>) {
    predicate Valid() {
      thresholds.Some? ==>
        && 0 < thresholds.value.maximum <= U16_MAX
        && (thresholds.value.reversion.Some? ==> 0 < thresholds.value.reversion.value <= thresholds.value.maximum)
    }
  }

  const DEFAULT: Policy := Policy(Some(Thresholds(8, Some(6))))

  datatype PhaseChange = PhaseChange(maxCompact: nat, minDense: nat)

  /** `from_prefix`. */
  function FromPrefix(value: Option<PhaseChange>): (r: Result<Policy>)
    requires value.Some? ==> value.value.maxCompact <= U16_MAX && value.value.minDense <= U16_MAX
    ensures r.Ok? <==> value.None? || value.value.minDense <= value.value.maxCompact
    ensures r.Ok? ==> r.value.Valid()
    ensures r.Ok? && value.Some? ==> (r.value.thresholds.None? <==> value.value.maxCompact == 0)
    ensures r.Ok? && value.Some? && value.value.maxCompact > 0 ==>
      && Ceiling(r.value) == value.value.maxCompact + 1
      && Floor(r.value) == if value.value.minDense == 0 then 0 else value.value.minDense - 1
    ensures value.None? ==> r.value.thresholds.Some? && Ceiling(r.value) == 9 && Floor(r.value) == 5
  {
    match value
    case None => Ok(DEFAULT)
    case Some(PhaseChange(maxCompact, minDense)) =>
      if minDense > maxCompact then Err(Refused)
      else if maxCompact == 0 then Ok(Policy(None))
      else Ok(Policy(Some(Thresholds(maxCompact, if minDense == 0 then None else Some(minDense)))))
  }

  /** `select`. */
  function Select(p: Policy, current: Storage, previous: nat, count: nat, feasible: bool): Storage {
    if count == 0 then Compact
    else if !feasible then Dense
    else if p.thresholds.None? then Dense
    else
      var Thresholds(maximum, reversion) := p.thresholds.value;
      match current
      case Compact => if count > previous && count > maximum then Dense else Compact
      case Dense =>
        if count >= previous || reversion.None? || count >= reversion.value then Dense else Compact
  }

  // ---- Hysteresis ----

  /** The least count at which compact storage becomes dense. */
  function Ceiling(p: Policy): nat
    requires p.thresholds.Some?
  {
    p.thresholds.value.maximum + 1
  }

  /** The greatest count at which dense storage becomes compact; an empty set always does. */
  function Floor(p: Policy): nat
    requires p.Valid() && p.thresholds.Some?
  {
    var reversion := p.thresholds.value.reversion;
    if reversion.None? then 0 else reversion.value - 1
  }

  /** The distance in count between a change of form and the next. */
  function Gap(p: Policy): nat
    requires p.Valid() && p.thresholds.Some?
  {
    Ceiling(p) - Floor(p)
  }

  /** The form after `n` changes of the count, with compact encoding always feasible. */
  function Form(p: Policy, first: Storage, counts: seq<nat>, n: nat): Storage
    requires n < |counts|
  {
    if n == 0 then first else Select(p, Form(p, first, counts, n - 1), counts[n - 1], counts[n], true)
  }

  predicate Changes(p: Policy, first: Storage, counts: seq<nat>, n: nat)
    requires 0 < n < |counts|
  {
    Form(p, first, counts, n) != Form(p, first, counts, n - 1)
  }

  /** A change to dense is an increase to the ceiling or above; one to compact a decrease to the floor or below. */
  lemma ChangeCrosses(p: Policy, current: Storage, previous: nat, count: nat)
    requires p.Valid() && p.thresholds.Some? && Select(p, current, previous, count, true) != current
    ensures current == Compact ==> count >= Ceiling(p) && count > previous
    ensures current == Dense ==> count <= Floor(p) && (count < previous || count == 0)
  {
  }

  /**
   A set is dense exactly when it is nonempty and compact storage is infeasible, or no set may be
   compact, or the count rose to the ceiling, or dense storage has not fallen to the floor.
   */
  lemma DenseIff(p: Policy, current: Storage, previous: nat, count: nat, feasible: bool)
    requires p.Valid()
    ensures Select(p, current, previous, count, feasible) == Dense <==>
      && count > 0
      && (|| !feasible || p.thresholds.None?
          || (current == Compact && previous < count && Ceiling(p) <= count)
          || (current == Dense && (previous <= count || Floor(p) < count)))
  {
  }

  /** An unchanged nonzero count never changes the form. */
  lemma UnchangedCountKeepsForm(p: Policy, current: Storage, count: nat)
    requires p.Valid() && p.thresholds.Some? && count > 0
    ensures Select(p, current, count, count, true) == current
  {
  }

  function Distance(a: nat, b: nat): nat { if a <= b then b - a else a - b }

  lemma {:induction false} SameForm(p: Policy, first: Storage, counts: seq<nat>, i: nat, j: nat)
    requires i <= j < |counts| && forall k :: i < k <= j ==> !Changes(p, first, counts, k)
    ensures Form(p, first, counts, j) == Form(p, first, counts, i)
  {
    if i < j {
      SameForm(p, first, counts, i, j - 1);
      assert !Changes(p, first, counts, j);
    }
  }

  /** In every run, the counts at two consecutive changes of form differ by at least the gap. */
  lemma ChangesAreSeparated(p: Policy, first: Storage, counts: seq<nat>, i: nat, j: nat)
    requires p.Valid() && p.thresholds.Some? && 0 < i < j < |counts|
    requires Changes(p, first, counts, i) && Changes(p, first, counts, j)
    requires forall k :: i < k < j ==> !Changes(p, first, counts, k)
    ensures Distance(counts[i], counts[j]) >= Gap(p) >= 2
  {
    SameForm(p, first, counts, i, j - 1);
    ChangeCrosses(p, Form(p, first, counts, i - 1), counts[i - 1], counts[i]);
    ChangeCrosses(p, Form(p, first, counts, j - 1), counts[j - 1], counts[j]);
  }

  /** The bound is the best possible: a run attains it. */
  lemma GapIsAttained(p: Policy)
    requires p.Valid() && p.thresholds.Some?
    ensures var counts := [Floor(p), Ceiling(p), Floor(p)];
      && Changes(p, Compact, counts, 1) && Changes(p, Compact, counts, 2)
      && Distance(counts[1], counts[2]) == Gap(p)
  {
    var counts := [Floor(p), Ceiling(p), Floor(p)];
    assert Form(p, Compact, counts, 1) == Dense;
    assert Form(p, Compact, counts, 2) == Compact;
  }

  function CountChanges(p: Policy, first: Storage, counts: seq<nat>, n: nat): nat
    requires n < |counts|
  {
    if n == 0 then 0
    else CountChanges(p, first, counts, n - 1) + if Changes(p, first, counts, n) then 1 else 0
  }

  /** How far the count has moved in all. */
  function Variation(counts: seq<nat>, n: nat): nat
    requires n < |counts|
  {
    if n == 0 then 0 else Variation(counts, n - 1) + Distance(counts[n - 1], counts[n])
  }

  /** How far the count has moved from the last change toward the next. */
  function Progress(p: Policy, form: Storage, count: nat): nat
    requires p.Valid() && p.thresholds.Some?
  {
    match form
    case Dense => if count < Ceiling(p) then Ceiling(p) - count else 0
    case Compact => if count > Floor(p) then count - Floor(p) else 0
  }

  lemma ProgressStep(p: Policy, form: Storage, previous: nat, count: nat)
    requires p.Valid() && p.thresholds.Some?
    ensures var next, paid := Select(p, form, previous, count, true), Progress(p, form, previous) + Distance(previous, count);
      Progress(p, next, count) + (if next != form then Gap(p) else 0) <= paid
    ensures Select(p, form, previous, count, true) != form ==>
      Progress(p, Select(p, form, previous, count, true), count) <= Distance(previous, count)
  {
    if Select(p, form, previous, count, true) != form {
      ChangeCrosses(p, form, previous, count);
    }
  }

  /**
   Rewrites are paid for by movement of the count: over every run, each change of form after the
   first costs at least the gap.
   */
  lemma {:induction false} ChangesCostMovement(p: Policy, first: Storage, counts: seq<nat>, n: nat)
    requires p.Valid() && p.thresholds.Some? && n < |counts|
    ensures var changes := CountChanges(p, first, counts, n);
      changes > 0 ==>
        Bulk(changes - 1, Gap(p)) + Progress(p, Form(p, first, counts, n), counts[n]) <= Variation(counts, n)
  {
    if n > 0 {
      ChangesCostMovement(p, first, counts, n - 1);
      ProgressStep(p, Form(p, first, counts, n - 1), counts[n - 1], counts[n]);
    }
  }
}
