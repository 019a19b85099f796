/**
 Reading the pages of an Extensible Array data block in runs (`read_data_block` and `extend_run` in
 src/extensible_array.rs): adjacent pages share one read, and no other byte is read.
 */
module Pages {
  import opened Basics
  import opened Spans

  // ---- Runs of adjacent ranges ----

  predicate Adjacent(all: seq<Range>, k: nat)
    requires 0 < k < |all|
  {
    all[k - 1].end == all[k].start
  }

  predicate Chained(all: seq<Range>, lo: nat, hi: nat)
    requires hi <= |all|
  {
    forall k :: lo < k < hi ==> Adjacent(all, k)
  }

  /** The one range that holds the items from `lo` to `hi`. */
  function Joint(all: seq<Range>, lo: nat, hi: nat): Range
    requires lo < hi <= |all|
  {
    Range(all[lo].start, all[hi - 1].end)
  }

  /** The items from `lo` to `hi` can be read at once: they are adjacent and their length fits a `usize`. */
  predicate Run(all: seq<Range>, lo: nat, hi: nat) {
    lo < hi <= |all| && Chained(all, lo, hi) && (hi == lo + 1 || all[hi - 1].end <= all[lo].start + USIZE_MAX)
  }

  /** A way to read the items before the last cut: read `i` holds the items from `cuts[i]` to `cuts[i + 1]`. */
  ghost predicate Cuts(all: seq<Range>, cuts: seq<nat>) {
    && |cuts| > 0 && cuts[0] == 0
    && forall i :: 0 < i < |cuts| ==> IsRun(all, cuts, i)
  }

  ghost predicate IsRun(all: seq<Range>, cuts: seq<nat>, i: nat)
    requires 0 < i < |cuts|
  {
    Run(all, cuts[i - 1], cuts[i])
  }

  /** No read could have taken the item after it. */
  ghost predicate Maximal(all: seq<Range>, cuts: seq<nat>) {
    forall i :: 0 < i < |cuts| ==> Stuck(all, cuts, i)
  }

  ghost predicate Stuck(all: seq<Range>, cuts: seq<nat>, i: nat)
    requires 0 < i < |cuts|
  {
    !Run(all, cuts[i - 1], cuts[i] + 1)
  }

  lemma {:induction false} ChainStarts(all: seq<Range>, lo: nat, mid: nat, hi: nat)
    requires Ordered(all) && lo <= mid < hi <= |all| && Chained(all, lo, hi)
    ensures all[lo].start <= all[mid].start
    decreases mid
  {
    if lo < mid {
      ChainStarts(all, lo, mid - 1, hi);
      assert Adjacent(all, mid) && all[mid - 1].Ordered();
    }
  }

  /** Dropping items from the front of a run leaves a run. */
  lemma RunTail(all: seq<Range>, lo: nat, mid: nat, hi: nat)
    requires Ordered(all) && Run(all, lo, hi) && lo <= mid < hi
    ensures Run(all, mid, hi)
  {
    ChainStarts(all, lo, mid, hi);
  }

  /** So does dropping items from its end. */
  lemma RunFront(all: seq<Range>, lo: nat, mid: nat, hi: nat)
    requires Ordered(all) && Run(all, lo, hi) && lo < mid <= hi
    ensures Run(all, lo, mid)
  {
    if mid < hi {
      ChainStarts(all, mid, hi - 1, hi);
      assert Adjacent(all, mid) && all[hi - 1].Ordered();
    }
  }

  /** After as many reads, maximal runs have got at least as far as any other choice of runs. */
  lemma {:induction false} StaysAhead(all: seq<Range>, cuts: seq<nat>, other: seq<nat>, i: nat)
    requires Ordered(all) && Cuts(all, cuts) && Maximal(all, cuts) && Cuts(all, other)
    requires i < |cuts| && i < |other|
    ensures other[i] <= cuts[i]
  {
    if i > 0 {
      StaysAhead(all, cuts, other, i - 1);
      assert IsRun(all, other, i) && IsRun(all, cuts, i) && Stuck(all, cuts, i);
      if other[i] > cuts[i] {
        RunFront(all, other[i - 1], cuts[i] + 1, other[i]);
        RunTail(all, other[i - 1], cuts[i - 1], cuts[i] + 1);
      }
    }
  }

  /** Reading maximal runs takes the fewest reads of any way to read the items in order without gaps. */
  lemma FewestReads(all: seq<Range>, cuts: seq<nat>, other: seq<nat>)
    requires Ordered(all) && Cuts(all, cuts) && Maximal(all, cuts) && Cuts(all, other)
    requires other[|other| - 1] == |all| && (|cuts| > 1 ==> cuts[|cuts| - 2] < |all|)
    ensures |cuts| <= |other|
  {
    if |cuts| > |other| {
      var i := |other| - 1;
      StaysAhead(all, cuts, other, i);
      CutsIncrease(all, cuts, i, |cuts| - 2);
    }
  }

  lemma {:induction false} CutsIncrease(all: seq<Range>, cuts: seq<nat>, i: nat, j: nat)
    requires Cuts(all, cuts) && i <= j < |cuts|
    ensures cuts[i] <= cuts[j]
    decreases j
  {
    if i < j {
      CutsIncrease(all, cuts, i, j - 1);
      assert IsRun(all, cuts, j);
    }
  }

  /** A run's bytes are exactly the bytes of its items. */
  lemma {:induction false} RunExact(all: seq<Range>, lo: nat, hi: nat, address: nat)
    requires Ordered(all) && lo < hi <= |all| && Chained(all, lo, hi)
    ensures Joint(all, lo, hi).Ordered()
    ensures Joint(all, lo, hi).Has(address) <==> exists k :: lo <= k < hi && all[k].Has(address)
    decreases hi
  {
    assert all[hi - 1].Ordered();
    if hi == lo + 1 {
      assert Joint(all, lo, hi) == all[lo];
    } else {
      RunExact(all, lo, hi - 1, address);
      assert Adjacent(all, hi - 1);
    }
  }

  /** The item lies within the run that holds it. */
  lemma RunHolds(all: seq<Range>, lo: nat, k: nat, hi: nat)
    requires Ordered(all) && lo <= k < hi <= |all| && Chained(all, lo, hi)
    ensures Joint(all, lo, hi).Contains(all[k])
  {
    ChainStarts(all, lo, k, hi);
    if k < hi - 1 {
      ChainStarts(all, k + 1, hi - 1, hi);
      assert Adjacent(all, k + 1) && all[hi - 1].Ordered();
    }
  }

  // ---- The code ----

  /** What the iterator over a block's pages yields: a page's range, or the error of a malformed entry. */
  type Items = seq<Result<Range>>

  /** `all` is the block's prefix and the pages before the first malformed entry. */
  ghost predicate Lists(all: seq<Range>, prefix: Range, items: Items) {
    && Ordered(all) && |all| > 0 && all[0] == prefix && |all| <= |items| + 1
    && (forall k :: 0 < k < |all| ==> items[k - 1] == Ok(all[k]))
    && (|all| <= |items| ==> items[|all| - 1].Err?)
  }

  /** `joined`. */
  function Joined(run: Range, page: Range): Option<Range> {
    if page.start != run.end || page.end > run.start + USIZE_MAX then None else Some(Range(run.start, page.end))
  }

  /** `extend_run`: takes pages while they continue the run. */
  method ExtendRun(run: Range, items: Items, from: nat, ghost all: seq<Range>, ghost prefix: Range, ghost lo: nat)
    returns (extended: Range, next: nat)
    requires Lists(all, prefix, items) && lo <= from < |all| && Run(all, lo, from + 1) && run == Joint(all, lo, from + 1)
    ensures from <= next < |all| && Run(all, lo, next + 1) && extended == Joint(all, lo, next + 1)
    ensures !Run(all, lo, next + 2)
  {
    extended, next := run, from;
    while next < |items| && items[next].Ok? && Joined(extended, items[next].value).Some?
      invariant from <= next < |all| && Run(all, lo, next + 1) && extended == Joint(all, lo, next + 1)
      decreases |items| - next
    {
      assert items[next] == Ok(all[next + 1]);
      assert Adjacent(all, next + 1);
      extended := Joined(extended, items[next].value).value;
      next := next + 1;
    }
    if Run(all, lo, next + 2) {
      assert Adjacent(all, next + 1) && items[next] == Ok(all[next + 1]);
    }
  }

  function Slice(file: seq<byte>, range: Range): seq<byte>
    requires range.start <= range.end <= |file|
  {
    file[range.start..range.end]
  }

  /** The pages visited are the first ones, in order, each with its own bytes of the file. */
  ghost predicate Visited(file: seq<byte>, visits: seq<(Range, seq<byte>)>, all: seq<Range>) {
    |visits| < |all| && forall k :: 0 <= k < |visits| ==> VisitedAt(file, visits, all, k)
  }

  ghost predicate VisitedAt(file: seq<byte>, visits: seq<(Range, seq<byte>)>, all: seq<Range>, k: nat)
    requires k < |visits| && k + 1 < |all|
  {
    && visits[k].0 == all[k + 1] && all[k + 1].start <= all[k + 1].end <= |file|
    && visits[k].1 == Slice(file, all[k + 1])
  }

  type Visitor = (Range, seq<byte>) -> Result<()>

  /** Parsing the block's own bytes: its signature and checksum. */
  type Parser = seq<byte> -> Result<()>

  ghost predicate Accepted(visits: seq<(Range, seq<byte>)>, visit: Visitor) {
    forall k :: 0 <= k < |visits| ==> visit(visits[k].0, visits[k].1).Ok?
  }

  /** `visit_pages`: the pages after `from` up to `to`, out of the region that holds their run. */
  method VisitPages(file: seq<byte>, region: Range, items: Items, from: nat, to: nat, visit: Visitor,
                    before: seq<(Range, seq<byte>)>, ghost all: seq<Range>, ghost prefix: Range, ghost lo: nat)
    returns (r: Result<()>, visits: seq<(Range, seq<byte>)>)
    requires Lists(all, prefix, items) && lo <= from + 1 && from <= to < |all| && Run(all, lo, to + 1)
    requires region == Joint(all, lo, to + 1) && region.end <= |file|
    requires |before| == from && Visited(file, before, all) && Accepted(before, visit)
    ensures Visited(file, visits, all)
    ensures r.Ok? ==> |visits| == to && Accepted(visits, visit)
    ensures r.Err? ==> !Accepted(visits, visit)
  {
    RunExact(all, lo, to + 1, 0);
    var bytes := Slice(file, region);
    visits := before;
    for k := from to to
      invariant |visits| == k && Visited(file, visits, all) && Accepted(visits, visit)
    {
      assert items[k] == Ok(all[k + 1]) && all[k + 1].Ordered();
      var page := items[k].value;
      RunHolds(all, lo, k + 1, to + 1);
      SliceOfSlice(file, region.start, region.end, page.start - region.start, page.end - region.start);
      var content := bytes[page.start - region.start..page.end - region.start];
      ghost var earlier := visits;
      visits := visits + [(page, content)];
      assert forall i :: 0 <= i < k ==> VisitedAt(file, earlier, all, i) && visits[i] == earlier[i];
      assert VisitedAt(file, visits, all, k);
      r := visit(page, content);
      if r.Err? {
        assert visits[k] == (page, content);
        return;
      }
    }
    r := Ok(());
  }

  /** The prefix parses, and every entry is well formed, lies within the file, and is accepted by the visitor. */
  ghost predicate Sound(file: seq<byte>, items: Items, parse: Parser, visit: Visitor, all: seq<Range>) {
    && |all| == |items| + 1
    && (forall k :: 0 <= k < |all| ==> all[k].start <= all[k].end <= |file|)
    && parse(Slice(file, all[0])).Ok?
    && (forall k :: 0 < k < |all| ==> visit(all[k], Slice(file, all[k])).Ok?)
  }

  predicate EndBy(all: seq<Range>, n: nat, limit: nat)
    requires n <= |all|
  {
    forall k :: 0 <= k < n ==> all[k].end <= limit
  }

  /** The items of a run that ends within the file do too. */
  lemma RunEnds(all: seq<Range>, lo: nat, hi: nat, limit: nat)
    requires Ordered(all) && lo < hi <= |all| && Chained(all, lo, hi) && all[hi - 1].end <= limit
    requires EndBy(all, lo, limit)
    ensures EndBy(all, hi, limit)
  {
    forall k | lo <= k < hi ensures all[k].end <= limit {
      RunHolds(all, lo, k, hi);
    }
  }

  lemma VisitsSound(file: seq<byte>, items: Items, parse: Parser, visit: Visitor, all: seq<Range>,
                    visits: seq<(Range, seq<byte>)>)
    requires Ordered(all) && |all| == |items| + 1 && |visits| == |items| && EndBy(all, |all|, |file|)
    requires Visited(file, visits, all) && Accepted(visits, visit)
    requires all[0].start <= all[0].end <= |file| && parse(Slice(file, all[0])).Ok?
    ensures Sound(file, items, parse, visit, all)
  {
    forall k | 0 < k < |all| ensures visit(all[k], Slice(file, all[k])).Ok? {
      assert VisitedAt(file, visits, all, k - 1);
    }
  }

  /** What has been fetched is one range per run so far. */
  ghost predicate Fetched(fetched: seq<Range>, all: seq<Range>, cuts: seq<nat>) {
    && Cuts(all, cuts) && Maximal(all, cuts) && |fetched| == |cuts| - 1
    && forall i :: 0 < i < |cuts| ==> IsRun(all, cuts, i) && fetched[i - 1] == Joint(all, cuts[i - 1], cuts[i])
  }

  /** Everything has been fetched, in maximal runs. */
  ghost predicate FetchedAll(fetched: seq<Range>, all: seq<Range>) {
    exists cuts: seq<nat> :: Fetched(fetched, all, cuts) && cuts[|cuts| - 1] == |all|
  }

  lemma FetchedMore(fetched: seq<Range>, all: seq<Range>, cuts: seq<nat>, hi: nat)
    requires Fetched(fetched, all, cuts) && Run(all, cuts[|cuts| - 1], hi) && !Run(all, cuts[|cuts| - 1], hi + 1)
    ensures Fetched(fetched + [Joint(all, cuts[|cuts| - 1], hi)], all, cuts + [hi])
  {
    var more, next := fetched + [Joint(all, cuts[|cuts| - 1], hi)], cuts + [hi];
    forall i | 0 < i < |next|
      ensures IsRun(all, next, i) && Stuck(all, next, i) && more[i - 1] == Joint(all, next[i - 1], next[i])
    {
      assert i < |cuts| ==> IsRun(all, cuts, i) && Stuck(all, cuts, i);
    }
  }

  /** The items before `n` have been fetched, in maximal runs that end within the file. */
  ghost predicate ReadTo(fetched: seq<Range>, all: seq<Range>, cuts: seq<nat>, n: nat, limit: nat) {
    Fetched(fetched, all, cuts) && cuts[|cuts| - 1] == n <= |all| && EndBy(all, n, limit)
  }

  lemma ReadMore(fetched: seq<Range>, all: seq<Range>, cuts: seq<nat>, lo: nat, hi: nat, limit: nat)
    requires Ordered(all) && ReadTo(fetched, all, cuts, lo, limit) && Run(all, lo, hi) && !Run(all, lo, hi + 1)
    requires all[hi - 1].end <= limit
    ensures ReadTo(fetched + [Joint(all, lo, hi)], all, cuts + [hi], hi, limit)
  {
    FetchedMore(fetched, all, cuts, hi);
    RunEnds(all, lo, hi, limit);
  }

  function OkCount(items: Items): (n: nat)
    ensures n <= |items| && (forall k :: 0 <= k < n ==> items[k].Ok?) && (n < |items| ==> items[n].Err?)
  {
    if items == [] || items[0].Err? then 0 else 1 + OkCount(items[1..])
  }

  /** The prefix, and the pages before the first malformed entry. */
  ghost function AllOf(prefix: Range, items: Items): (all: seq<Range>)
    requires prefix.Ordered() && forall k :: 0 <= k < |items| && items[k].Ok? ==> items[k].value.Ordered()
    ensures Lists(all, prefix, items)
  {
    [prefix] + seq(OkCount(items), k requires 0 <= k < OkCount(items) => items[k].value)
  }

  /** One read, and the visits it serves: the run that starts at item `lo`, whose first page is `from`. */
  method ReadRun(file: seq<byte>, range: Range, items: Items, from: nat, to: nat, ghost parse: Parser, visit: Visitor,
                 before: seq<(Range, seq<byte>)>, ghost all: seq<Range>, ghost prefix: Range, ghost lo: nat)
    returns (r: Result<()>, visits: seq<(Range, seq<byte>)>)
    requires Lists(all, prefix, items) && lo <= from + 1 && from <= to < |all| && Run(all, lo, to + 1)
    requires range == Joint(all, lo, to + 1)
    requires |before| == from && Visited(file, before, all) && Accepted(before, visit)
    ensures Visited(file, visits, all)
    ensures r.Ok? ==> |visits| == to && Accepted(visits, visit) && range.end <= |file|
    ensures r.Err? ==> !Sound(file, items, parse, visit, all)
  {
    if range.end > |file| {
      return Err(SourceEnd), before;
    }
    r, visits := VisitPages(file, range, items, from, to, visit, before, all, prefix, lo);
    if r.Err? {
      ghost var k :| 0 <= k < |visits| && visit(visits[k].0, visits[k].1).Err?;
      assert VisitedAt(file, visits, all, k);
    }
  }

  /** The pages before `next` have been read and visited. */
  ghost predicate Done(file: seq<byte>, visit: Visitor, all: seq<Range>, cuts: seq<nat>, fetched: seq<Range>,
                       visits: seq<(Range, seq<byte>)>, next: nat)
  {
    && |visits| == next && Visited(file, visits, all) && Accepted(visits, visit)
    && ReadTo(fetched, all, cuts, next + 1, |file|)
  }

  /** The first run: the prefix and the pages that directly follow it. */
  method ReadFirst(file: seq<byte>, prefix: Range, items: Items, parse: Parser, visit: Visitor, ghost all: seq<Range>)
    returns (r: Result<()>, visits: seq<(Range, seq<byte>)>, fetched: seq<Range>, next: nat, ghost cuts: seq<nat>)
    requires Lists(all, prefix, items)
    ensures Visited(file, visits, all)
    ensures r.Ok? ==> Done(file, visit, all, cuts, fetched, visits, next) && parse(Slice(file, prefix)).Ok?
    ensures r.Err? ==> !Sound(file, items, parse, visit, all)
  {
    visits, fetched, cuts := [], [], [0];
    var range;
    range, next := ExtendRun(prefix, items, 0, all, prefix, 0);
    if range.end > |file| {
      return Err(SourceEnd), [], [], 0, [0];
    }
    RunHolds(all, 0, 0, next + 1);
    r := parse(Slice(file, prefix));
    if r.Err? {
      return;
    }
    r, visits := ReadRun(file, range, items, 0, next, parse, visit, [], all, prefix, 0);
    if r.Ok? {
      ReadMore(fetched, all, cuts, 0, next + 1, |file|);
      fetched := fetched + [range];
      cuts := cuts + [next + 1];
    }
  }

  /** A well-formed entry is the next page listed, and a malformed one ends the list. */
  lemma PageListed(all: seq<Range>, prefix: Range, items: Items, from: nat)
    requires Lists(all, prefix, items) && from < |items| && from < |all|
    ensures if items[from].Ok? then from + 1 < |all| && items[from] == Ok(all[from + 1]) else |all| == from + 1
  {
    assert from + 1 < |all| ==> items[from + 1 - 1] == Ok(all[from + 1]);
  }

  /** One turn of the loop: the run that starts at page `from`. */
  method ReadNext(file: seq<byte>, items: Items, from: nat, parse: Parser, visit: Visitor,
                  visited: seq<(Range, seq<byte>)>, read: seq<Range>, ghost all: seq<Range>, ghost prefix: Range,
                  ghost before: seq<nat>)
    returns (r: Result<()>, visits: seq<(Range, seq<byte>)>, fetched: seq<Range>, next: nat, ghost cuts: seq<nat>)
    requires Lists(all, prefix, items) && from < |items| && Done(file, visit, all, before, read, visited, from)
    ensures Visited(file, visits, all)
    ensures r.Ok? ==> from < next && Done(file, visit, all, cuts, fetched, visits, next)
    ensures r.Err? ==> !Sound(file, items, parse, visit, all)
  {
    visits, fetched, cuts, next := visited, read, before, from;
    PageListed(all, prefix, items, from);
    if items[from].Err? {
      return Err(items[from].error), visits, fetched, next, cuts;
    }
    assert items[from] == Ok(all[from + 1]);
    var range;
    range, next := ExtendRun(items[from].value, items, from + 1, all, prefix, from + 1);
    r, visits := ReadRun(file, range, items, from, next, parse, visit, visited, all, prefix, from + 1);
    if r.Ok? {
      ReadMore(fetched, all, cuts, from + 1, next + 1, |file|);
      fetched := fetched + [range];
      cuts := cuts + [next + 1];
    }
  }

  /**
   `read_data_block` for a paged block. It succeeds exactly when the prefix parses and every entry is
   sound, and then has visited every page once, in order, with its own bytes. What it read is the
   prefix and the pages, in maximal runs.
   */
  method ReadPaged(file: seq<byte>, prefix: Range, items: Items, parse: Parser, visit: Visitor)
    returns (r: Result<()>, visits: seq<(Range, seq<byte>)>, fetched: seq<Range>)
    requires prefix.Ordered() && forall k :: 0 <= k < |items| && items[k].Ok? ==> items[k].value.Ordered()
    ensures Visited(file, visits, AllOf(prefix, items))
    ensures r.Ok? <==> Sound(file, items, parse, visit, AllOf(prefix, items))
    ensures r.Ok? ==> |visits| == |items| && FetchedAll(fetched, AllOf(prefix, items))
  {
    ghost var all := AllOf(prefix, items);
    ghost var cuts;
    var next;
    r, visits, fetched, next, cuts := ReadFirst(file, prefix, items, parse, visit, all);
    if r.Err? {
      return;
    }
    while next < |items|
      invariant Done(file, visit, all, cuts, fetched, visits, next)
      decreases |items| - next
    {
      r, visits, fetched, next, cuts := ReadNext(file, items, next, parse, visit, visits, fetched, all, prefix, cuts);
      if r.Err? {
        return;
      }
    }
    VisitsSound(file, items, parse, visit, all, visits);
    r := Ok(());
  }

  /** What `read_data_block` is to read: the elements in the block itself, or its pages. */
  datatype Layout = Unpaged | Paged(items: Items)

  /** The block can be read, and everything in it is accepted. */
  ghost predicate BlockSound(file: seq<byte>, prefix: Range, layout: Layout, parse: Parser, visit: Visitor)
    requires WellFormed(prefix, layout)
  {
    match layout
    case Unpaged =>
      prefix.end <= |file| && parse(Slice(file, prefix)).Ok? && visit(prefix, Slice(file, prefix)).Ok?
    case Paged(items) => Sound(file, items, parse, visit, AllOf(prefix, items))
  }

  predicate WellFormed(prefix: Range, layout: Layout) {
    && prefix.Ordered()
    && (layout.Paged? ==>
          forall k :: 0 <= k < |layout.items| && layout.items[k].Ok? ==> layout.items[k].value.Ordered())
  }

  /** `read_data_block`. */
  method ReadDataBlock(file: seq<byte>, prefix: Range, planned: Result<Layout>, parse: Parser, visit: Visitor)
    returns (r: Result<()>, visits: seq<(Range, seq<byte>)>, fetched: seq<Range>)
    requires planned.Ok? ==> WellFormed(prefix, planned.value)
    ensures r.Ok? <==> planned.Ok? && BlockSound(file, prefix, planned.value, parse, visit)
    ensures r.Ok? && planned.value.Unpaged? ==> visits == [(prefix, Slice(file, prefix))] && fetched == [prefix]
    ensures planned.Ok? && planned.value.Paged? ==> Visited(file, visits, AllOf(prefix, planned.value.items))
    ensures r.Ok? && planned.value.Paged? ==>
      |visits| == |planned.value.items| && FetchedAll(fetched, AllOf(prefix, planned.value.items))
  {
    visits, fetched := [], [];
    if planned.Err? {
      return Err(planned.error), [], [];
    }
    match planned.value
    case Paged(items) =>
      r, visits, fetched := ReadPaged(file, prefix, items, parse, visit);
    case Unpaged =>
      if prefix.end > |file| {
        return Err(SourceEnd), [], [];
      }
      var bytes := Slice(file, prefix);
      fetched := [prefix];
      r := parse(bytes);
      if r.Ok? {
        visits := [(prefix, bytes)];
        r := visit(prefix, bytes);
      }
  }

  // ---- What was read ----

  /** The read that holds item `k`. */
  lemma {:induction false} RunOfItem(all: seq<Range>, cuts: seq<nat>, n: nat, k: nat) returns (i: nat)
    requires Cuts(all, cuts) && n < |cuts| && k < cuts[n]
    ensures 0 < i <= n && cuts[i - 1] <= k < cuts[i]
  {
    if k >= cuts[n - 1] {
      i := n;
    } else {
      i := RunOfItem(all, cuts, n - 1, k);
    }
  }

  /** The bytes read are exactly the bytes of the prefix and of the pages: no uninitialised page is read. */
  lemma ReadsExactly(fetched: seq<Range>, all: seq<Range>, cuts: seq<nat>, address: nat)
    requires Ordered(all) && Fetched(fetched, all, cuts) && cuts[|cuts| - 1] == |all|
    ensures Planned(address, fetched) <==> Planned(address, all)
  {
    if i :| 0 <= i < |fetched| && fetched[i].Has(address) {
      assert IsRun(all, cuts, i + 1);
      RunExact(all, cuts[i], cuts[i + 1], address);
    }
    if k :| 0 <= k < |all| && all[k].Has(address) {
      var i := RunOfItem(all, cuts, |cuts| - 1, k);
      assert IsRun(all, cuts, i);
      RunExact(all, cuts[i - 1], cuts[i], address);
      assert fetched[i - 1].Has(address);
    }
  }

  function Bytes(ranges: seq<Range>, n: nat): nat
    requires Ordered(ranges) && n <= |ranges|
  {
    if n == 0 then 0 else Bytes(ranges, n - 1) + ranges[n - 1].Length()
  }

  lemma {:induction false} RunBytes(all: seq<Range>, lo: nat, hi: nat)
    requires Ordered(all) && lo < hi <= |all| && Chained(all, lo, hi)
    ensures Joint(all, lo, hi).Ordered()
    ensures Bytes(all, hi) == Bytes(all, lo) + Joint(all, lo, hi).Length()
    decreases hi
  {
    ChainStarts(all, lo, hi - 1, hi);
    assert all[hi - 1].Ordered();
    if lo + 1 < hi {
      RunBytes(all, lo, hi - 1);
      assert Adjacent(all, hi - 1);
    }
  }

  lemma {:induction false} FetchedOrdered(fetched: seq<Range>, all: seq<Range>, cuts: seq<nat>)
    requires Ordered(all) && Fetched(fetched, all, cuts)
    ensures Ordered(fetched)
  {
    forall i | 0 <= i < |fetched| ensures fetched[i].Ordered() {
      assert IsRun(all, cuts, i + 1);
      RunBytes(all, cuts[i], cuts[i + 1]);
    }
  }

  /** As many bytes are read as the prefix and the pages have. */
  lemma {:induction false} ReadsConserve(fetched: seq<Range>, all: seq<Range>, cuts: seq<nat>, i: nat)
    requires Ordered(all) && Fetched(fetched, all, cuts) && i < |cuts|
    ensures Ordered(fetched) && cuts[i] <= |all| && Bytes(fetched, i) == Bytes(all, cuts[i])
  {
    FetchedOrdered(fetched, all, cuts);
    if i > 0 {
      ReadsConserve(fetched, all, cuts, i - 1);
      assert IsRun(all, cuts, i);
      RunBytes(all, cuts[i - 1], cuts[i]);
    }
  }
}
