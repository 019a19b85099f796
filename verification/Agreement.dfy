/**
 What whole reads return through an empty cache, and exactly when that is what a read without a cache
 returns (src/chunked_read.rs).
 */
module Agreement {
  import opened Basics
  import opened RowMajor
  import opened Coverage
  import opened DenseGrid
  import opened ParsedIndex
  import opened Assembly
  import opened WholeAssembly
  import opened ChunkCache
  import opened Transparency
  import opened Duplicates
  import opened Reader
  import Region

  // ---- What a read is made of ----

  /** Listing `j` is the last to hold element `g`. */
  ghost predicate Shows(coords: seq<seq<nat>>, chunk: seq<nat>, g: seq<nat>, j: nat) {
    && j < |coords| && Contains(coords[j], chunk, g)
    && forall i :: j < i < |coords| ==> !Contains(coords[i], chunk, g)
  }

  lemma ShowsIsHolder(coords: seq<seq<nat>>, chunk: seq<nat>, g: seq<nat>, j: nat)
    ensures Shows(coords, chunk, g, j) <==> Holder(coords, chunk, g) == Some(j)
  {
  }

  /** An element of the dataset, by the read's own definition. */
  lemma AnswerElement(index: Index, size: nat, fill: Option<seq<byte>>, truth: Truth, g: seq<nat>, b: nat)
    requires |truth| == |index.infos| && HaveRank(index.infos, |index.extent|) && size > 0
    requires Answer(index, size, fill, truth).Some? && InBox(g, index.extent) && b < size
    ensures Readable(index, size, fill, truth) && AllDecode(truth)
    ensures var bytes, at := Answer(index, size, fill, truth).value, Region.ByteIndex(g, index.extent, size, b);
      at < |bytes| && bytes[at] == ElementByte(Coords(index.infos, |index.extent|), Payloads(truth), index.chunk, size,
                                               Pattern(fill), g, b)
  {
    assert 0 !in index.extent by {
      forall i | 0 <= i < |index.extent| ensures index.extent[i] != 0 {
        assert g[i] < index.extent[i];
      }
    }
    Region.ByteOfElement(g, index.extent, size, b);
  }

  /**
   What a whole read returns is made of what the filter pipeline makes of the stored bytes: byte `b`
   of element `g` is that byte of the element at its coordinate in the last chunk that holds it.
   */
  lemma ReadShowsChunk(r: Result<seq<byte>>, source: seq<byte>, pipeline: Pipeline, index: Index, size: nat,
                       fill: Option<seq<byte>>, j: nat, g: seq<nat>, b: nat)
    requires HaveRank(index.infos, |index.extent|) && size > 0 && r.Ok?
    requires WholeRead(r, index, size, fill, ContentsOf(source, pipeline, index, Mul(Product(index.chunk), size)))
    requires InBox(g, index.extent) && b < size && Shows(Coords(index.infos, |index.extent|), index.chunk, g, j)
    ensures index.infos[j].address + index.infos[j].stored <= |source|
    ensures var info, coord := index.infos[j], index.infos[j].offsets[..|index.extent|];
      var decoded := pipeline(info, source[info.address..info.address + info.stored]);
      var at, from := Region.ByteIndex(g, index.extent, size, b),
                      Region.ByteIndex(Within(coord, index.chunk, g), index.chunk, size, b);
      && decoded.Ok? && from < |decoded.value| == Product(index.chunk) * size
      && at < |r.value| && r.value[at] == decoded.value[from]
  {
    var truth := ContentsOf(source, pipeline, index, Mul(Product(index.chunk), size));
    var coords := Coords(index.infos, |index.extent|);
    AnswerElement(index, size, fill, truth, g, b);
    ShowsIsHolder(coords, index.chunk, g, j);
    assert truth[j].1.Some?;
    Region.ByteOfElement(Within(coords[j], index.chunk, g), index.chunk, size, b);
  }

  /** An element that no chunk holds is the fill pattern. */
  lemma ReadShowsFill(r: Result<seq<byte>>, source: seq<byte>, pipeline: Pipeline, index: Index, size: nat,
                      fill: Option<seq<byte>>, g: seq<nat>, b: nat)
    requires HaveRank(index.infos, |index.extent|) && size > 0 && r.Ok? && fill.Some? && b < |fill.value|
    requires WholeRead(r, index, size, fill, ContentsOf(source, pipeline, index, Mul(Product(index.chunk), size)))
    requires InBox(g, index.extent) && b < size
    requires forall j :: 0 <= j < |index.infos| ==> !Contains(index.infos[j].offsets[..|index.extent|], index.chunk, g)
    ensures var at := Region.ByteIndex(g, index.extent, size, b); at < |r.value| && r.value[at] == fill.value[b]
  {
    var coords := Coords(index.infos, |index.extent|);
    AnswerElement(index, size, fill, ContentsOf(source, pipeline, index, Mul(Product(index.chunk), size)), g, b);
    assert forall j :: 0 <= j < |coords| ==> !Contains(coords[j], index.chunk, g);
  }

  // ---- What the listings contribute ----

  function CoordsOf(truth: Truth): (c: seq<seq<nat>>)
    ensures |c| == |truth|
  {
    seq(|truth|, n requires 0 <= n < |truth| => truth[n].0)
  }

  /** Byte `x` of element `g` in a chunk's payload. */
  function Stored(payload: seq<byte>, coord: seq<nat>, chunk: seq<nat>, size: nat, g: seq<nat>, x: nat): byte
    requires Contains(coord, chunk, g)
  {
    At(payload, Flat(Within(coord, chunk, g), chunk) * size + x)
  }

  /** Where listing `j` is the last to hold an element of the dataset, it has the bytes of the first listing there. */
  ghost predicate AgreesInView(truth: Truth, j: nat, chunk: seq<nat>, extent: seq<nat>, size: nat)
    requires AllDecode(truth) && j < |truth|
  {
    forall g, x: nat :: InBox(g, extent) && x < size && Shows(CoordsOf(truth), chunk, g, j) ==>
      Stored(truth[j].1.value, truth[j].0, chunk, size, g, x)
      == Stored(truth[First(truth, j)].1.value, truth[j].0, chunk, size, g, x)
  }

  /** Every listing at one of the first `k` coordinates agrees in view with the first listing there. */
  ghost predicate AllAgree(truth: Truth, k: nat, chunk: seq<nat>, extent: seq<nat>, size: nat)
    requires AllDecode(truth)
  {
    forall j :: 0 <= j < |truth| && Rank(truth, j) < k ==> AgreesInView(truth, j, chunk, extent, size)
  }

  /** On an aligned grid a listing is in view exactly where it lies in the dataset and none repeats it later. */
  lemma AlignedShows(coords: seq<seq<nat>>, j: nat, chunk: seq<nat>, extent: seq<nat>, g: seq<nat>)
    requires |chunk| == |extent| && Positive(chunk) && j < |coords|
    requires forall i :: 0 <= i < |coords| ==> Aligned(coords[i], chunk, extent)
    ensures Shows(coords, chunk, g, j) <==>
      Contains(coords[j], chunk, g) && forall i :: j < i < |coords| ==> coords[i] != coords[j]
  {
    if Contains(coords[j], chunk, g) {
      forall i | 0 <= i < |coords| ensures Contains(coords[i], chunk, g) <==> coords[i] == coords[j] {
        AlignedContains(coords[i], chunk, extent, g);
        AlignedContains(coords[j], chunk, extent, g);
        AlignedCorner(coords[i], chunk, extent);
        AlignedCorner(coords[j], chunk, extent);
      }
    }
  }

  lemma {:induction false} KeptDecodes(truth: Truth, k: nat)
    requires AllDecode(truth)
    ensures AllDecode(Kept(truth, k)) && CoordsOf(Kept(truth, k)) == CoordsOf(truth)
  {
  }

  lemma {:induction false} ElementAlike(truth: Truth, k: nat, chunk: seq<nat>, size: nat, fill: seq<byte>, g: seq<nat>,
                                        x: nat)
    requires AllDecode(truth) && AllDecode(Kept(truth, k))
    ensures var coords := CoordsOf(truth);
      var h := Holder(coords, chunk, g);
      (ElementByte(coords, Payloads(Kept(truth, k)), chunk, size, fill, g, x)
       == ElementByte(coords, Payloads(truth), chunk, size, fill, g, x))
      <==> (h.Some? && Rank(truth, h.value) < k ==>
              Stored(truth[h.value].1.value, truth[h.value].0, chunk, size, g, x)
              == Stored(truth[First(truth, h.value)].1.value, truth[h.value].0, chunk, size, g, x))
  {
  }

  /** Where every listing decodes, keeping the first `k` coordinates leaves the dataset as it is exactly when they agree. */
  lemma {:induction false} SameBytesIff(truth: Truth, k: nat, chunk: seq<nat>, extent: seq<nat>, size: nat, fill: seq<byte>)
    requires size > 0 && AllDecode(truth) && AllDecode(Kept(truth, k))
    ensures (WholeBytes(CoordsOf(truth), Payloads(Kept(truth, k)), chunk, extent, size, fill)
             == WholeBytes(CoordsOf(truth), Payloads(truth), chunk, extent, size, fill))
       <==> AllAgree(truth, k, chunk, extent, size)
  {
    var coords := CoordsOf(truth);
    var cached := WholeBytes(coords, Payloads(Kept(truth, k)), chunk, extent, size, fill);
    var direct := WholeBytes(coords, Payloads(truth), chunk, extent, size, fill);
    if AllAgree(truth, k, chunk, extent, size) {
      forall i | 0 <= i < |direct| ensures cached[i] == direct[i] {
        DivBelow(i, size, Product(extent));
        FlatUnflat(Quot(i, size), extent);
        AgreesAt(truth, k, chunk, extent, size, fill, Unflat(Quot(i, size), extent), Rem(i, size));
      }
      assert cached == direct;
    }
    if cached == direct {
      forall j | 0 <= j < |truth| && Rank(truth, j) < k ensures AgreesInView(truth, j, chunk, extent, size) {
        forall g, x: nat | InBox(g, extent) && x < size && Shows(coords, chunk, g, j)
          ensures Stored(truth[j].1.value, truth[j].0, chunk, size, g, x)
               == Stored(truth[First(truth, j)].1.value, truth[j].0, chunk, size, g, x)
        {
          ShowsIsHolder(coords, chunk, g, j);
          Region.ByteOfElement(g, extent, size, x);
          var i := Region.ByteIndex(g, extent, size, x);
          assert cached[i] == direct[i];
          ElementAlike(truth, k, chunk, size, fill, g, x);
        }
      }
    }
  }

  lemma {:induction false} AgreesAt(truth: Truth, k: nat, chunk: seq<nat>, extent: seq<nat>, size: nat, fill: seq<byte>,
                                    g: seq<nat>, x: nat)
    requires InBox(g, extent) && x < size && AllDecode(truth) && AllDecode(Kept(truth, k))
    requires AllAgree(truth, k, chunk, extent, size)
    ensures ElementByte(CoordsOf(truth), Payloads(Kept(truth, k)), chunk, size, fill, g, x)
         == ElementByte(CoordsOf(truth), Payloads(truth), chunk, size, fill, g, x)
  {
    var coords := CoordsOf(truth);
    var h := Holder(coords, chunk, g);
    ElementAlike(truth, k, chunk, size, fill, g, x);
    if h.Some? && Rank(truth, h.value) < k {
      ShowsIsHolder(coords, chunk, g, h.value);
      assert AgreesInView(truth, h.value, chunk, extent, size);
    }
  }

  // ---- What the readers return ----

  /** Every listing that does not decode is served what an earlier one left in the cache. */
  predicate AllServed(truth: Truth, k: nat) {
    forall n :: 0 <= n < |truth| && truth[n].1.None? ==> Served(truth, n, k)
  }

  /** A read is given bytes for every listing exactly when those that do not decode are all served. */
  lemma {:induction false} AllGivenIff(truth: Truth, k: nat)
    ensures AllDecode(Kept(truth, k)) <==> AllServed(truth, k)
  {
    var kept := Kept(truth, k);
    assert forall n :: 0 <= n < |truth| ==> kept[n].1 == Expected(truth, n, k);
    if AllDecode(kept) {
      forall n | 0 <= n < |truth| && truth[n].1.None? ensures Served(truth, n, k) {
        assert kept[n].1.Some?;
      }
    }
  }

  /** `truth` says what each chunk that `index` lists decodes to. */
  ghost predicate Lists(index: Index, size: nat, truth: Truth) {
    && |truth| == |index.infos| && HaveRank(index.infos, |index.extent|)
    && CoordsOf(truth) == Coords(index.infos, |index.extent|)
    && EqualSizes(truth, Mul(Product(index.chunk), size))
  }

  lemma {:induction false} ContentsListed(source: seq<byte>, pipeline: Pipeline, index: Index, size: nat)
    requires HaveRank(index.infos, |index.extent|)
    ensures Lists(index, size, ContentsOf(source, pipeline, index, Mul(Product(index.chunk), size)))
  {
    var truth := ContentsOf(source, pipeline, index, Mul(Product(index.chunk), size));
    assert CoordsOf(truth) == Coords(index.infos, |index.extent|);
  }

  /** The outcome rests on the chunks: the geometry is sound, there is something to read, and fill if that is needed. */
  ghost predicate RestsOnChunks(index: Index, size: nat, fill: Option<seq<byte>>)
    requires HaveRank(index.infos, |index.extent|)
  {
    && Addressable(index.chunk, index.extent, size) && 0 !in index.extent && (index.coverage.Some? || fill.Some?)
    && forall j, i :: 0 <= j < |index.infos| && 0 <= i < |index.extent| ==> index.infos[j].offsets[i] <= USIZE_MAX
  }

  /** Where the outcome rests on the chunks, a read succeeds exactly when every chunk is stored and decodes to full size. */
  lemma {:induction false} ReadSucceedsIff(r: Result<seq<byte>>, source: seq<byte>, pipeline: Pipeline, index: Index,
                                           size: nat, fill: Option<seq<byte>>)
    requires HaveRank(index.infos, |index.extent|) && size > 0 && RestsOnChunks(index, size, fill)
    requires WholeRead(r, index, size, fill, ContentsOf(source, pipeline, index, Mul(Product(index.chunk), size)))
    ensures r.Ok? <==> forall j :: 0 <= j < |index.infos| ==>
      Intact(source, pipeline, index.infos[j], Product(index.chunk) * size)
  {
    var truth := ContentsOf(source, pipeline, index, Mul(Product(index.chunk), size));
    ContentsListed(source, pipeline, index, size);
    AnswerOf(index, size, fill, truth);
    assert forall j :: 0 <= j < |truth| ==>
      (truth[j].1.Some? <==> Intact(source, pipeline, index.infos[j], Product(index.chunk) * size));
  }

  lemma {:induction false} AnswerOf(index: Index, size: nat, fill: Option<seq<byte>>, truth: Truth)
    requires Lists(index, size, truth) && size > 0
    ensures RestsOnChunks(index, size, fill) ==>
      Answer(index, size, fill, truth)
      == if AllDecode(truth) then Some(Dataset(index, size, fill, truth)) else None
  {
  }

  /** Without it the outcome is the same whatever is given. */
  lemma {:induction false} AnswerElsewhere(index: Index, size: nat, fill: Option<seq<byte>>, a: Truth, b: Truth)
    requires Lists(index, size, a) && Lists(index, size, b) && size > 0 && !RestsOnChunks(index, size, fill)
    ensures Answer(index, size, fill, a) == Answer(index, size, fill, b)
  {
  }

  lemma {:induction false} KeptLists(index: Index, size: nat, truth: Truth, k: nat)
    requires Lists(index, size, truth)
    ensures Lists(index, size, Kept(truth, k))
  {
    var kept := Kept(truth, k);
    assert CoordsOf(kept) == CoordsOf(truth);
    forall n | 0 <= n < |kept| && kept[n].1.Some? ensures |kept[n].1.value| == Mul(Product(index.chunk), size) {
      assert kept[n].1 == truth[n].1 || kept[n].1 == truth[First(truth, n)].1;
    }
  }

  /** The two readers have the same outcome, where a cache keeps the first `k` coordinates. */
  ghost predicate OutcomesAlike(index: Index, size: nat, fill: Option<seq<byte>>, truth: Truth, k: nat)
    requires Lists(index, size, truth)
  {
    || !RestsOnChunks(index, size, fill)
    || (if AllDecode(truth) then AllAgree(truth, k, index.chunk, index.extent, size) else !AllServed(truth, k))
  }

  /**
   A read through an empty cache of any budgets has the outcome of a read without a cache if and
   only if the outcome does not rest on the chunks, or every listing decodes and those of kept
   coordinates agree in view, or some listing that does not decode is not served.
   */
  lemma {:induction false} SameOutcomeIff(index: Index, size: nat, fill: Option<seq<byte>>, s: Cache, truth: Truth)
    requires Lists(index, size, truth) && size > 0 && Inv(s) && s.slots == []
    ensures Answer(index, size, fill, GivenBy(s, truth)) == Answer(index, size, fill, truth) <==>
      OutcomesAlike(index, size, fill, truth, KeptCount(s, truth, Mul(Product(index.chunk), size)))
  {
    var bytes := Mul(Product(index.chunk), size);
    var k := KeptCount(s, truth, bytes);
    GivenExactly(BeginPass(s), s.pass + 1, truth, bytes);
    KeptLists(index, size, truth, k);
    AllGivenIff(truth, k);
    if RestsOnChunks(index, size, fill) {
      AnswerOf(index, size, fill, truth);
      AnswerOf(index, size, fill, Kept(truth, k));
      if AllDecode(truth) {
        KeptDecodes(truth, k);
        SameBytesIff(truth, k, index.chunk, index.extent, size, Pattern(fill));
      }
    } else {
      AnswerElsewhere(index, size, fill, truth, Kept(truth, k));
    }
  }

  /** The same outcome: the same bytes, or an error each. */
  predicate Same(a: Result<seq<byte>>, b: Result<seq<byte>>) {
    if a.Ok? then b == a else b.Err?
  }

  /** So of what the two readers return, by the contracts of `ReadCached` and `ReadUncached`. */
  lemma {:induction false} ReadersAgreeIff(cached: Result<seq<byte>>, direct: Result<seq<byte>>, source: seq<byte>,
                                           pipeline: Pipeline, index: Index, size: nat, fill: Option<seq<byte>>, s: Cache)
    requires HaveRank(index.infos, |index.extent|) && size > 0 && Inv(s) && s.slots == []
    requires var truth := ContentsOf(source, pipeline, index, Mul(Product(index.chunk), size));
      WholeRead(cached, index, size, fill, GivenBy(s, truth)) && WholeRead(direct, index, size, fill, truth)
    ensures var truth := ContentsOf(source, pipeline, index, Mul(Product(index.chunk), size));
      && Lists(index, size, truth)
      && (Same(cached, direct) <==> OutcomesAlike(index, size, fill, truth, KeptCount(s, truth, Mul(Product(index.chunk), size))))
  {
    ContentsListed(source, pipeline, index, size);
    SameOutcomeIff(index, size, fill, s, ContentsOf(source, pipeline, index, Mul(Product(index.chunk), size)));
  }

  // ---- Inputs on which the readers differ ----

  /** A dataset of one element of one byte, whose one chunk is listed `n` times. */
  function OneByte(n: nat): Index { Index(seq(n, i requires 0 <= i => ChunkInfo(i, 1, 0, [0])), [1], [1], None) }

  predicate OneByteEach(truth: Truth) {
    forall j :: 0 <= j < |truth| ==> truth[j].0 == [0] && (truth[j].1.Some? ==> |truth[j].1.value| == 1)
  }

  lemma {:induction false} OneByteLists(truth: Truth)
    requires OneByteEach(truth)
    ensures Lists(OneByte(|truth|), 1, truth) && RestsOnChunks(OneByte(|truth|), 1, Some([]))
    ensures Mul(Product([1]), 1) == 1
  {
    assert Product([1]) == 1 * Product([]) by { assert [1][1..] == []; }
    var coords := Coords(OneByte(|truth|).infos, 1);
    forall j | 0 <= j < |truth| ensures CoordsOf(truth)[j] == coords[j] {
      assert coords[j] == [0][..1] == [0];
    }
    OneByteAddressable();
  }

  lemma OneByteAddressable()
    ensures Addressable([1], [1], 1)
  {
    assert [1][1..] == [] && [1][..0] == [] && [1][..1] == [1];
    assert Product([1]) == 1 * Product([]);
  }

  /** Such a dataset is the byte of the last listing. */
  lemma {:induction false} OneByteAnswer(truth: Truth)
    requires OneByteEach(truth) && truth != [] && AllDecode(truth)
    ensures Lists(OneByte(|truth|), 1, truth)
    ensures Answer(OneByte(|truth|), 1, Some([]), truth) == truth[|truth| - 1].1
  {
    var index, last := OneByte(|truth|), |truth| - 1;
    OneByteLists(truth);
    AnswerOf(index, 1, Some([]), truth);
    var coords := Coords(index.infos, 1);
    var bytes := WholeBytes(coords, Payloads(truth), [1], [1], 1, []);
    assert |bytes| == 1;
    DivModUnique(1, 0, 0);
    FlatUnflat(0, [1]);
    var g := Unflat(0, [1]);
    assert g == [0] && Quot(0, 1) == 0 && Rem(0, 1) == 0;
    assert Shows(coords, [1], g, last);
    ShowsIsHolder(coords, [1], g, last);
    assert Within([0], [1], g) == [0] && Flat([0], [1]) == 0;
    assert bytes == truth[last].1.value;
  }

  /** One coordinate, and room for it: everything after the first listing, which decodes, is served its byte. */
  lemma {:induction false} OneByteGiven(s: Cache, truth: Truth)
    requires OneByteEach(truth) && truth != [] && truth[0].1.Some?
    requires Inv(s) && s.slots == [] && s.maxSlots > 0 && s.maxBytes > 0
    ensures GivenBy(s, truth) == seq(|truth|, _ => truth[0])
  {
    OneByteLists(truth);
    GivenExactly(BeginPass(s), s.pass + 1, truth, 1);
    var k := KeptCount(s, truth, 1);
    assert First(truth, 0) == 0 && Leads(truth, 0);
    LeadersGrow(truth, 1, |truth|);
    assert Leaders(truth, 1) == Leaders(truth, 0) + [0];
    DivModUnique(1, s.maxBytes, 0);
    assert k > 0;
    forall n | 0 <= n < |truth| ensures Kept(truth, k)[n] == truth[0] {
      assert DecodesAt(truth, 0, truth[n].0);
      assert First(truth, n) == 0;
    }
  }

  /** Listed twice with different bytes, the chunk reads as the first through the cache, and as the last without. */
  lemma {:induction false} ReadersDiffer(s: Cache, a: byte, b: byte)
    requires Inv(s) && s.slots == [] && s.maxSlots > 0 && s.maxBytes > 0
    ensures var truth: Truth := [([0], Some([a])), ([0], Some([b]))];
      && Lists(OneByte(2), 1, truth)
      && Answer(OneByte(2), 1, Some([]), GivenBy(s, truth)) == Some([a])
      && Answer(OneByte(2), 1, Some([]), truth) == Some([b])
  {
    var truth: Truth := [([0], Some([a])), ([0], Some([b]))];
    OneByteGiven(s, truth);
    OneByteAnswer(truth);
    OneByteAnswer(GivenBy(s, truth));
  }

  /** With a listing in between that does not decode, the read succeeds through the cache, and fails without. */
  lemma {:induction false} UndecodableServed(s: Cache, a: byte)
    requires Inv(s) && s.slots == [] && s.maxSlots > 0 && s.maxBytes > 0
    ensures var truth: Truth := [([0], Some([a])), ([0], None), ([0], Some([a]))];
      && Lists(OneByte(3), 1, truth)
      && Answer(OneByte(3), 1, Some([]), GivenBy(s, truth)) == Some([a])
      && Answer(OneByte(3), 1, Some([]), truth) == None
  {
    var truth: Truth := [([0], Some([a])), ([0], None), ([0], Some([a]))];
    OneByteGiven(s, truth);
    OneByteLists(truth);
    AnswerOf(OneByte(3), 1, Some([]), truth);
    assert truth[1].1.None?;
    OneByteAnswer(GivenBy(s, truth));
  }

  /** Listings that differ only outside the dataset agree in view, however many coordinates are kept. */
  lemma {:induction false} DifferenceOutOfView(k: nat)
    ensures var truth: Truth := [([0], Some([1, 9])), ([0], Some([1, 8]))];
      AllDecode(truth) && !Repeats(truth, 1) && AllAgree(truth, k, [2], [1], 1)
  {
    var truth: Truth := [([0], Some([1, 9])), ([0], Some([1, 8]))];
    assert DecodesAt(truth, 0, [0]);
    forall j | 0 <= j < 2 ensures AgreesInView(truth, j, [2], [1], 1) {
      forall g, x: nat | InBox(g, [1]) && x < 1 && Shows(CoordsOf(truth), [2], g, j)
        ensures Stored(truth[j].1.value, truth[j].0, [2], 1, g, x)
             == Stored(truth[First(truth, j)].1.value, truth[j].0, [2], 1, g, x)
      {
        assert g == [0] && Within([0], [2], g) == [0] && Flat([0], [2]) == 0;
      }
    }
  }
}
