/** create_memory_regions of kernel/mem/phys.c: from the boot loader's memory map to regions full of free blocks. */
module BuddyBoot {
  import opened Layout
  import opened BuddyModel
  import opened BuddyRegion
  import opened BuddyPhys

  // ---- the memory map ----

  datatype Kind = Usable | BootloaderReclaimable | ExecutableAndModules | AcpiReclaimable | Other

  datatype MapEntry = MapEntry(base: nat, length: nat, kind: Kind)

  function EndOf(e: MapEntry): nat { e.base + e.length }

  /** The entries that get metadata. */
  predicate Tracked(e: MapEntry) { !e.kind.Other? }

  function Pages(e: MapEntry): nat { e.length / PAGE_SIZE }

  /** The domain of the model: tracked entries are whole pages, in ascending order, without overlap. */
  ghost predicate WellFormed(es: seq<MapEntry>) {
    var wellFormed :=
      && (forall i :: 0 <= i < |es| && Tracked(es[i]) ==> es[i].base % PAGE_SIZE == 0 && es[i].length % PAGE_SIZE == 0)
      && (forall i, j :: 0 <= i < j < |es| && Tracked(es[i]) && Tracked(es[j]) ==> EndOf(es[i]) <= es[j].base);
    wellFormed
  }

  // ---- regions as spans of pages ----

  datatype Span = Span(base: nat, pages: nat)

  function SpanEnd(s: Span): nat { s.base + PAGE_SIZE * s.pages }

  /** Where a chain of adjacent entries has come to; -1 when it is broken. */
  function ChainEnd(es: seq<MapEntry>): int {
    if es == [] || !Tracked(es[|es| - 1]) then -1 else EndOf(es[|es| - 1])
  }

  /** The end of the last tracked entry. */
  function LastEnd(es: seq<MapEntry>): nat {
    if es == [] then 0 else if Tracked(es[|es| - 1]) then EndOf(es[|es| - 1]) else LastEnd(es[..|es| - 1])
  }

  /** One more entry: adjacent tracked entries share a span. */
  function Grow(spans: seq<Span>, chain: int, e: MapEntry): seq<Span> {
    if !Tracked(e) then spans
    else if chain == e.base && spans != [] then
      AddPages(spans, Pages(e))
    else spans + [Span(e.base, Pages(e))]
  }

  function Spans(es: seq<MapEntry>): seq<Span> {
    if es == [] then [] else Grow(Spans(es[..|es| - 1]), ChainEnd(es[..|es| - 1]), es[|es| - 1])
  }

  function TotalPages(es: seq<MapEntry>): nat {
    if es == [] then 0
    else TotalPages(es[..|es| - 1]) + if Tracked(es[|es| - 1]) then Pages(es[|es| - 1]) else 0
  }

  /** Spans are in ascending order without overlap, in whole pages, and end where the last tracked entry does. */
  ghost predicate Ascending(spans: seq<Span>) {
    && (forall i :: 0 <= i < |spans| ==> spans[i].base % PAGE_SIZE == 0)
    && (forall i, j :: 0 <= i < j < |spans| ==> SpanEnd(spans[i]) <= spans[j].base)
  }

  /** An entry lies in the k-th span. */
  predicate InSpan(e: MapEntry, spans: seq<Span>, k: int) {
    0 <= k < |spans| && spans[k].base <= e.base && EndOf(e) <= SpanEnd(spans[k])
  }

  ghost predicate Housed(e: MapEntry, spans: seq<Span>) { exists k :: InSpan(e, spans, k) }

  ghost predicate AllHoused(es: seq<MapEntry>, spans: seq<Span>) {
    var housed := forall i :: 0 <= i < |es| && Tracked(es[i]) ==> Housed(es[i], spans);
    housed
  }

  /** The last span ends with the last tracked entry. */
  ghost predicate EndsRight(es: seq<MapEntry>, spans: seq<Span>) {
    && (spans != [] ==> SpanEnd(spans[|spans| - 1]) == LastEnd(es))
    && (ChainEnd(es) >= 0 ==> spans != [] && ChainEnd(es) == LastEnd(es))
  }

  lemma {:induction false} SpansHold(es: seq<MapEntry>)
    requires WellFormed(es)
    ensures Ascending(Spans(es)) && AllHoused(es, Spans(es)) && EndsRight(es, Spans(es))
  {
    if es != [] {
      var init, e := es[..|es| - 1], es[|es| - 1];
      SpansHold(init);
      if Tracked(e) {
        LastEndBelow(es, init, e);
      }
      GrowAscending(Spans(init), ChainEnd(init), e, LastEnd(init));
      GrowHoused(es, init, e, Spans(init), ChainEnd(init));
    }
  }

  lemma {:induction false} LastEndBelow(es: seq<MapEntry>, init: seq<MapEntry>, e: MapEntry)
    requires WellFormed(es) && |init| < |es| && init == es[..|init|] && e in es[|init|..] && Tracked(e)
    ensures LastEnd(init) <= e.base && e.base % PAGE_SIZE == 0 && e.length == PAGE_SIZE * Pages(e)
    decreases |init|
  {
    var j :| |init| <= j < |es| && es[j] == e;
    if init != [] {
      var n := |init| - 1;
      assert init[n] == es[n];
      if !Tracked(init[n]) {
        assert e in es[n..] by { assert es[n..][j - n] == e; }
        LastEndBelow(es, init[..n], e);
      }
    }
  }

  lemma GrowAscending(spans: seq<Span>, chain: int, e: MapEntry, end: nat)
    requires Ascending(spans) && (spans != [] ==> SpanEnd(spans[|spans| - 1]) == end) && (chain >= 0 ==> chain == end)
    requires Tracked(e) ==> end <= e.base && e.base % PAGE_SIZE == 0 && e.length == PAGE_SIZE * Pages(e)
    ensures Ascending(Grow(spans, chain, e))
    ensures Tracked(e) ==> var after := Grow(spans, chain, e);
                           InSpan(e, after, |after| - 1) && SpanEnd(after[|after| - 1]) == EndOf(e)
  {
  }

  lemma GrowHoused(es: seq<MapEntry>, init: seq<MapEntry>, e: MapEntry, spans: seq<Span>, chain: int)
    requires es == init + [e] && AllHoused(init, spans)
    requires Tracked(e) ==> Housed(e, Grow(spans, chain, e))
    ensures AllHoused(es, Grow(spans, chain, e))
  {
    forall i | 0 <= i < |es| && Tracked(es[i]) ensures Housed(es[i], Grow(spans, chain, e)) {
      if i < |init| {
        assert es[i] == init[i];
        HousedStill(init[i], spans, chain, e);
      }
    }
  }

  lemma HousedStill(housed: MapEntry, spans: seq<Span>, chain: int, e: MapEntry)
    requires Housed(housed, spans)
    ensures Housed(housed, Grow(spans, chain, e))
  {
    var k :| InSpan(housed, spans, k);
    assert InSpan(housed, Grow(spans, chain, e), k);
  }

  // ---- which memory the regions cover ----

  /** The kinds of memory that get metadata. */
  predicate FourKinds(kind: Kind) {
    kind == Usable || kind == BootloaderReclaimable || kind == ExecutableAndModules || kind == AcpiReclaimable
  }

  ghost predicate InSpans(spans: seq<Span>, x: int) {
    exists k :: 0 <= k < |spans| && spans[k].base <= x < SpanEnd(spans[k])
  }

  ghost predicate InKinds(es: seq<MapEntry>, x: int) {
    exists i :: 0 <= i < |es| && FourKinds(es[i].kind) && es[i].base <= x < EndOf(es[i])
  }

  /** Every entry of the four kinds lies inside one region. */
  lemma {:induction false} KindsHoused(es: seq<MapEntry>, i: nat) returns (k: nat)
    requires WellFormed(es) && i < |es| && FourKinds(es[i].kind)
    ensures k < |Spans(es)| && Spans(es)[k].base <= es[i].base && EndOf(es[i]) <= SpanEnd(Spans(es)[k])
  {
    SpansHold(es);
    assert Housed(es[i], Spans(es));
    k :| InSpan(es[i], Spans(es), k);
  }

  /** And the regions cover nothing else. */
  lemma {:induction false} SpansExactly(es: seq<MapEntry>, x: int)
    requires WellFormed(es)
    ensures InSpans(Spans(es), x) <==> InKinds(es, x)
  {
    if es != [] {
      var init, e := es[..|es| - 1], es[|es| - 1];
      assert WellFormed(init);
      SpansHold(init);
      SpansExactly(init, x);
      if Tracked(e) {
        LastEndBelow(es, init, e);
      }
      GrowCovers(Spans(init), ChainEnd(init), e, x);
      KindsMore(es, x);
    }
  }

  lemma KindsMore(es: seq<MapEntry>, x: int)
    requires es != []
    ensures var init, e := es[..|es| - 1], es[|es| - 1];
            InKinds(es, x) <==> InKinds(init, x) || (FourKinds(e.kind) && e.base <= x < EndOf(e))
  {
    var init, e := es[..|es| - 1], es[|es| - 1];
    if InKinds(es, x) {
      var i :| 0 <= i < |es| && FourKinds(es[i].kind) && es[i].base <= x < EndOf(es[i]);
      assert i < |init| ==> init[i] == es[i];
    }
    if InKinds(init, x) {
      var i :| 0 <= i < |init| && FourKinds(init[i].kind) && init[i].base <= x < EndOf(init[i]);
      assert es[i] == init[i];
    }
  }

  lemma GrowCovers(spans: seq<Span>, chain: int, e: MapEntry, x: int)
    requires chain >= 0 ==> spans != [] && SpanEnd(spans[|spans| - 1]) == chain
    requires Tracked(e) ==> e.length == PAGE_SIZE * Pages(e)
    ensures InSpans(Grow(spans, chain, e), x) <==> InSpans(spans, x) || (Tracked(e) && e.base <= x < EndOf(e))
  {
    var after := Grow(spans, chain, e);
    if InSpans(after, x) {
      var k :| 0 <= k < |after| && after[k].base <= x < SpanEnd(after[k]);
      assert k < |spans| - 1 ==> spans[k] == after[k];
      assert k < |spans| ==> spans[k].base == after[k].base;
    }
    if InSpans(spans, x) {
      var k :| 0 <= k < |spans| && spans[k].base <= x < SpanEnd(spans[k]);
      assert after[k].base == spans[k].base && SpanEnd(spans[k]) <= SpanEnd(after[k]);
    }
    if Tracked(e) && e.base <= x < EndOf(e) {
      var last := after[|after| - 1];
      assert last.base <= x < SpanEnd(last);
    }
  }

  // ---- the two passes over the map ----

  /** The first of the longest usable entries. */
  ghost predicate Largest(es: seq<MapEntry>, largest: int) {
    -1 <= largest < |es| &&
    var right := if largest == -1 then forall i :: 0 <= i < |es| ==> !es[i].kind.Usable?
                 else es[largest].kind.Usable?
                      && forall i :: 0 <= i < |es| && es[i].kind.Usable? ==> es[i].length <= es[largest].length;
    right
  }

  lemma LargestStep(es: seq<MapEntry>, i: nat, largest: int)
    requires i < |es| && Largest(es[..i], largest)
    ensures var longer := es[i].kind.Usable? && (largest == -1 || es[i].length > es[largest].length);
            Largest(es[..i + 1], if longer then i else largest)
  {
    assert forall j :: 0 <= j < i ==> es[..i + 1][j] == es[..i][j];
  }

  lemma SpansSoFar(es: seq<MapEntry>, i: nat)
    requires WellFormed(es) && i < |es|
    ensures Spans(es[..i + 1]) == Grow(Spans(es[..i]), ChainEnd(es[..i]), es[i])
    ensures TotalPages(es[..i + 1]) == TotalPages(es[..i]) + if Tracked(es[i]) then Pages(es[i]) else 0
    ensures ChainEnd(es[..i + 1]) == if Tracked(es[i]) then EndOf(es[i]) else -1
    ensures ChainEnd(es[..i]) >= 0 ==> Spans(es[..i]) != []
  {
    assert es[..i + 1][..i] == es[..i];
    assert WellFormed(es[..i]);
    SpansHold(es[..i]);
  }

  /** The first pass: how many regions and metadata bytes are needed, and the largest usable entry. */
  method CountRegions(es: seq<MapEntry>) returns (count: nat, total: nat, largest: int)
    requires WellFormed(es)
    ensures count == |Spans(es)| && total == TotalPages(es) && Largest(es, largest)
  {
    var end;
    count, total, largest, end := 0, 0, -1, -1;
    for i := 0 to |es|
      invariant count == |Spans(es[..i])| && total == TotalPages(es[..i]) && end == ChainEnd(es[..i])
      invariant Largest(es[..i], largest)
    {
      var e := es[i];
      SpansSoFar(es, i);
      LargestStep(es, i, largest);
      if e.kind.Usable? && (largest == -1 || e.length > es[largest].length) {
        largest := i;
      }
      if Tracked(e) {
        total := total + e.length / PAGE_SIZE;
        if end != e.base {
          count := count + 1;
        }
        end := e.base + e.length;
      } else {
        end := -1;
      }
    }
    assert es[..|es|] == es;
  }

  /** The second pass: the spans of the regions; the checks on the room for regions and metadata hold. */
  method FillRegions(es: seq<MapEntry>, count: nat, total: nat) returns (spans: seq<Span>)
    requires WellFormed(es) && count == |Spans(es)| && total == TotalPages(es)
    ensures spans == Spans(es)
  {
    var left, end := total, -1;
    spans := [];
    for i := 0 to |es|
      invariant spans == Spans(es[..i]) && end == ChainEnd(es[..i]) && left == total - TotalPages(es[..i])
    {
      var e := es[i];
      SpansSoFar(es, i);
      RoomLeft(es, i + 1);
      if Tracked(e) {
        var pages := e.length / PAGE_SIZE;
        assert left >= pages;
        left := left - pages;
        FillIsGrow(spans, end, e);
        if end != e.base {
          spans := spans + [Span(e.base, 0)];
          assert |spans| <= count;
        }
        spans := AddPages(spans, pages);
        end := e.base + e.length;
      } else {
        end := -1;
      }
    }
    assert es[..|es|] == es;
  }

  /** The page count of the region that is being filled goes up. */
  function AddPages(spans: seq<Span>, pages: nat): seq<Span>
    requires spans != []
  {
    spans[|spans| - 1 := spans[|spans| - 1].(pages := spans[|spans| - 1].pages + pages)]
  }

  lemma FillIsGrow(spans: seq<Span>, end: int, e: MapEntry)
    requires Tracked(e) && (end >= 0 ==> spans != [])
    ensures var longer := if end != e.base then spans + [Span(e.base, 0)] else spans;
            longer != [] && AddPages(longer, Pages(e)) == Grow(spans, end, e) && |longer| == |Grow(spans, end, e)|
  {
  }

  /** A prefix of the map needs no more room than the whole. */
  lemma {:induction false} RoomLeft(es: seq<MapEntry>, i: nat)
    requires i <= |es|
    ensures TotalPages(es[..i]) <= TotalPages(es) && |Spans(es[..i])| <= |Spans(es)|
    decreases |es|
  {
    if i == |es| {
      assert es[..i] == es;
    } else {
      var n := |es| - 1;
      assert es[..n][..i] == es[..i];
      RoomLeft(es[..n], i);
    }
  }

  // ---- filling the regions ----

  function Direct(phys: nat): nat { phys + DIRECT_MAP }

  ghost predicate Matches(regions: seq<Region>, spans: seq<Span>) {
    var matches := && |regions| == |spans|
                   && forall k :: 0 <= k < |spans| ==>
                                    regions[k].base == Direct(spans[k].base) && regions[k].pageCount == spans[k].pages;
    matches
  }

  method MakeRegions(spans: seq<Span>) returns (regions: seq<Region>)
    requires Ascending(spans)
    ensures Matches(regions, spans) && Sound(regions) && fresh(regions) && fresh(Bytes(regions))
    ensures forall k :: 0 <= k < |regions| ==> regions[k].heads == map[]
  {
    regions := [];
    for i := 0 to |spans|
      invariant Matches(regions, spans[..i]) && Sound(regions) && fresh(regions) && fresh(Bytes(regions))
      invariant forall k :: 0 <= k < |regions| ==> regions[k].heads == map[]
    {
      DirectPage(spans[i].base);
      var r := new Region(Direct(spans[i].base), spans[i].pages);
      OneMoreRegion(regions, r, spans, i);
      regions := regions + [r];
    }
    assert spans[..|spans|] == spans;
  }

  lemma OneMoreRegion(regions: seq<Region>, r: Region, spans: seq<Span>, i: nat)
    requires Ascending(spans) && i < |spans| && Matches(regions, spans[..i]) && Sound(regions)
    requires r.Valid() && r.base == Direct(spans[i].base) && r.pageCount == spans[i].pages
    requires r !in regions && r.metadata !in Bytes(regions)
    ensures Matches(regions + [r], spans[..i + 1]) && Sound(regions + [r])
    ensures Bytes(regions + [r]) == Bytes(regions) + {r.metadata}
  {
    SeparateMore(regions, r, spans, i);
    var more := regions + [r];
    forall j | 0 <= j < |more| ensures more[j].Valid() {
      assert j < |regions| ==> regions[j].Valid();
    }
    assert Bytes(more) == Bytes(regions) + {r.metadata} by { BytesMore(regions, r); }
  }

  lemma BytesMore(regions: seq<Region>, r: Region)
    ensures Bytes(regions + [r]) == Bytes(regions) + {r.metadata}
  {
  }

  lemma SeparateMore(regions: seq<Region>, r: Region, spans: seq<Span>, i: nat)
    requires Ascending(spans) && i < |spans| && Matches(regions, spans[..i]) && Separate(regions)
    requires r.base == Direct(spans[i].base) && r !in regions && r.metadata !in Bytes(regions)
    ensures Separate(regions + [r])
  {
    forall j | 0 <= j < |regions|
      ensures End(regions[j]) <= r.base && regions[j] != r && regions[j].metadata != r.metadata
    {
      assert SpanEnd(spans[..i][j]) <= spans[i].base && regions[j] in regions;
    }
  }

  /** An address is part of some block. */
  ghost predicate OwnedBy(hs: seq<Heads>, x: int) { exists k :: 0 <= k < |hs| && Owned(hs[k], x) }

  /** No block is allocated. */
  ghost predicate NoneUsed(hs: seq<Heads>) {
    var none := forall k :: 0 <= k < |hs| ==> Used(hs[k]) == map[];
    none
  }

  /** The pages of the i-th entry that are handed to the allocator: the largest one gives up its tail. */
  function Given(es: seq<MapEntry>, i: nat, largest: int, overhead: nat): nat
    requires i < |es|
  {
    if i == largest && overhead <= es[i].length then (es[i].length - overhead) / PAGE_SIZE else Pages(es[i])
  }

  /** An address lies in the given part of one of the first n usable entries. */
  ghost predicate InUsable(es: seq<MapEntry>, n: nat, largest: int, overhead: nat, x: int)
    requires n <= |es|
  {
    exists i :: 0 <= i < n && InEntry(es, i, largest, overhead, x)
  }

  ghost predicate InEntry(es: seq<MapEntry>, i: nat, largest: int, overhead: nat, x: int)
    requires i < |es|
  {
    es[i].kind.Usable? && Direct(es[i].base) <= x < Direct(es[i].base) + PAGE_SIZE * Given(es, i, largest, overhead)
  }

  /** add_memory_to_region in the region at index i. */
  method AddIn(regions: seq<Region>, i: nat, addr: nat, count: nat)
    requires Sound(regions) && i < |regions| && Aligned(addr, PAGE_LEVEL)
    requires regions[i].Inside(addr, addr + PAGE_SIZE * count)
    requires Unowned(regions[i].heads, addr, addr + PAGE_SIZE * count)
    modifies regions[i], regions[i].metadata
    ensures Sound(regions) && OnlyAt(regions, i)
    ensures Grown(old(regions[i].heads), regions[i].heads, addr, addr + PAGE_SIZE * count)
  {
    regions[i].AddMemory(addr, count);
  }

  /** A usable entry that no region contains. */
  ghost predicate Stray(e: MapEntry, spans: seq<Span>) {
    var stray := e.kind.Usable? && forall k :: 0 <= k < |spans| ==> !(spans[k].base <= e.base < SpanEnd(spans[k]));
    stray
  }

  ghost predicate NoneStray(es: seq<MapEntry>, n: int, spans: seq<Span>) {
    var none := n <= |es| && forall i :: 0 <= i < n ==> !Stray(es[i], spans);
    none
  }

  /** Only an entry without pages can be one. */
  lemma StrayEmpty(es: seq<MapEntry>, i: nat)
    requires WellFormed(es) && i < |es| && Stray(es[i], Spans(es))
    ensures es[i].length == 0
  {
    var _ := SpanOf(es, i);
  }

  lemma StrayLookup(e: MapEntry, regions: seq<Region>, spans: seq<Span>, k: int)
    requires e.kind.Usable? && Matches(regions, spans) && -1 <= k < |regions|
    requires if k >= 0 then regions[k].base <= Direct(e.base) < End(regions[k])
             else forall j :: 0 <= j < |regions| ==> !(regions[j].base <= Direct(e.base) < End(regions[j]))
    ensures Stray(e, spans) <==> k == -1
  {
  }

  /** The blocks cover exactly the given parts of the first n usable entries. */
  ghost predicate OwnsFirst(hs: seq<Heads>, es: seq<MapEntry>, n: int, largest: int, overhead: nat) {
    var owns := 0 <= n <= |es| && NoneUsed(hs) && forall x :: OwnedBy(hs, x) <==> InUsable(es, n, largest, overhead, x);
    owns
  }

  /** The first n entries have been dealt with. */
  ghost predicate Stocked(regions: seq<Region>, es: seq<MapEntry>, n: int, largest: int, overhead: nat, spans: seq<Span>)
    reads regions, Bytes(regions)
  {
    var stocked := Sound(regions) && OwnsFirst(Layouts(regions), es, n, largest, overhead) && NoneStray(es, n, spans);
    stocked
  }

  /** add_memory: hands out the pages of the usable entries. A usable entry without a region is an error. */
  method AddMemory(es: seq<MapEntry>, regions: seq<Region>, largest: int, overhead: nat, ghost spans: seq<Span>)
    returns (ok: bool, ghost done: int)
    requires WellFormed(es) && AllHoused(es, spans) && Matches(regions, spans)
    requires Stocked(regions, es, 0, largest, overhead, spans)
    modifies regions, Bytes(regions)
    ensures Stocked(regions, es, done, largest, overhead, spans)
    ensures if ok then done == |es| else 0 <= done < |es| && Stray(es[done], spans)
  {
    for i := 0 to |es|
      invariant Stocked(regions, es, i, largest, overhead, spans)
    {
      var found := AddEntry(es, i, regions, largest, overhead, spans);
      if !found {
        return false, i;
      }
    }
    return true, |es|;
  }

  /** A round of add_memory. */
  method AddEntry(es: seq<MapEntry>, i: nat, regions: seq<Region>, largest: int, overhead: nat, ghost spans: seq<Span>)
    returns (found: bool)
    requires WellFormed(es) && AllHoused(es, spans) && Matches(regions, spans)
    requires i < |es| && Stocked(regions, es, i, largest, overhead, spans)
    modifies regions, Bytes(regions)
    ensures found <==> !Stray(es[i], spans)
    ensures Stocked(regions, es, if found then i + 1 else i, largest, overhead, spans)
  {
    if !es[i].kind.Usable? {
      SkippedEntry(Layouts(regions), es, i, largest, overhead);
      return true;
    }
    var addr, count := Direct(es[i].base), Given(es, i, largest, overhead);
    var k := FindRegion(regions, addr);
    StrayLookup(es[i], regions, spans, k);
    if k == -1 {
      return false;
    }
    EntryFits(es, i, largest, overhead, regions, spans, k);
    ghost var hs := Layouts(regions);
    NotYetOwned(es, i, largest, overhead, hs, k);
    AddIn(regions, k, addr, count);
    OwnedMore(es, i, largest, overhead, hs, Layouts(regions), k);
    return true;
  }

  /** A usable entry lies in the region that find_region finds. */
  lemma {:induction false} EntryFits(es: seq<MapEntry>, i: nat, largest: int, overhead: nat, regions: seq<Region>,
                                     spans: seq<Span>, k: nat)
    requires WellFormed(es) && i < |es| && es[i].kind.Usable? && AllHoused(es, spans) && Matches(regions, spans)
    requires Separate(regions) && k < |regions| && regions[k].base <= Direct(es[i].base) < End(regions[k])
    ensures Aligned(Direct(es[i].base), PAGE_LEVEL)
    ensures var addr := Direct(es[i].base);
            regions[k].Inside(addr, addr + PAGE_SIZE * Given(es, i, largest, overhead))
  {
    EntryAligned(es, i);
    assert Housed(es[i], spans);
    var j: nat :| InSpan(es[i], spans, j);
    GivenFits(es, i, largest, overhead);
    RegionFits(es[i], Given(es, i, largest, overhead), regions, spans, j, k);
  }

  lemma EntryAligned(es: seq<MapEntry>, i: nat)
    requires WellFormed(es) && i < |es| && Tracked(es[i])
    ensures Aligned(Direct(es[i].base), PAGE_LEVEL)
  {
    DirectPage(es[i].base);
  }

  lemma DirectPage(phys: nat)
    requires phys % PAGE_SIZE == 0
    ensures Aligned(Direct(phys), PAGE_LEVEL)
  {
    WholeDirect(phys);
    PageAligned(Direct(phys));
  }

  lemma WholeDirect(phys: nat)
    requires phys % PAGE_SIZE == 0
    ensures Direct(phys) % PAGE_SIZE == 0
  {
  }

  lemma RegionFits(e: MapEntry, pages: nat, regions: seq<Region>, spans: seq<Span>, j: nat, k: nat)
    requires Matches(regions, spans) && Separate(regions) && InSpan(e, spans, j) && PAGE_SIZE * pages <= e.length
    requires k < |regions| && regions[k].base <= Direct(e.base) < End(regions[k])
    ensures regions[k].Inside(Direct(e.base), Direct(e.base) + PAGE_SIZE * pages)
  {
    assert regions[j].base == Direct(spans[j].base) && End(regions[j]) == Direct(SpanEnd(spans[j]));
    if pages > 0 {
      OneRegion(regions, j, k, Direct(e.base));
    }
  }

  lemma {:induction false} SpanOf(es: seq<MapEntry>, i: nat) returns (j: nat)
    requires WellFormed(es) && i < |es| && Tracked(es[i])
    ensures InSpan(es[i], Spans(es), j)
  {
    SpansHold(es);
    assert Housed(es[i], Spans(es));
    j :| InSpan(es[i], Spans(es), j);
  }

  lemma OneRegion(regions: seq<Region>, j: nat, k: nat, addr: nat)
    requires Separate(regions) && j < |regions| && k < |regions|
    requires regions[j].base <= addr < End(regions[j]) && regions[k].base <= addr < End(regions[k])
    ensures j == k
  {
  }

  lemma GivenFits(es: seq<MapEntry>, i: nat, largest: int, overhead: nat)
    requires i < |es|
    ensures PAGE_SIZE * Given(es, i, largest, overhead) <= es[i].length
  {
  }

  /** Entries do not overlap, so nothing of the next one is owned yet. */
  lemma NotYetOwned(es: seq<MapEntry>, i: nat, largest: int, overhead: nat, hs: seq<Heads>, k: nat)
    requires WellFormed(es) && i < |es| && es[i].kind.Usable? && k < |hs|
    requires OwnsFirst(hs, es, i, largest, overhead)
    ensures Unowned(hs[k], Direct(es[i].base), Direct(es[i].base) + PAGE_SIZE * Given(es, i, largest, overhead))
  {
    forall x | Owned(hs[k], x) ensures x < Direct(es[i].base) {
      assert OwnedBy(hs, x);
      var j :| 0 <= j < i && InEntry(es, j, largest, overhead, x);
      GivenFits(es, j, largest, overhead);
    }
  }

  lemma OwnedMore(es: seq<MapEntry>, i: nat, largest: int, overhead: nat, hs: seq<Heads>, hs': seq<Heads>, k: nat)
    requires i < |es| && es[i].kind.Usable? && k < |hs| == |hs'|
    requires OwnsFirst(hs, es, i, largest, overhead)
    requires Grown(hs[k], hs'[k], Direct(es[i].base), Direct(es[i].base) + PAGE_SIZE * Given(es, i, largest, overhead))
    requires forall j :: 0 <= j < |hs| && j != k ==> hs'[j] == hs[j]
    ensures OwnsFirst(hs', es, i + 1, largest, overhead)
  {
    forall x ensures OwnedBy(hs', x) <==> InUsable(es, i + 1, largest, overhead, x) {
      OneMore(es, i, largest, overhead, x);
      if OwnedBy(hs', x) {
        var j :| 0 <= j < |hs'| && Owned(hs'[j], x);
        assert Owned(hs[j], x) || InEntry(es, i, largest, overhead, x);
      }
      if OwnedBy(hs, x) {
        var j :| 0 <= j < |hs| && Owned(hs[j], x);
        assert Owned(hs'[j], x);
      }
      if InEntry(es, i, largest, overhead, x) {
        assert Owned(hs'[k], x);
      }
    }
  }

  lemma OneMore(es: seq<MapEntry>, i: nat, largest: int, overhead: nat, x: int)
    requires i < |es|
    ensures InUsable(es, i + 1, largest, overhead, x) <==>
            InUsable(es, i, largest, overhead, x) || InEntry(es, i, largest, overhead, x)
  {
    if InUsable(es, i + 1, largest, overhead, x) {
      var j :| 0 <= j < i + 1 && InEntry(es, j, largest, overhead, x);
    }
  }

  lemma SkippedEntry(hs: seq<Heads>, es: seq<MapEntry>, i: nat, largest: int, overhead: nat)
    requires i < |es| && !es[i].kind.Usable? && OwnsFirst(hs, es, i, largest, overhead)
    ensures OwnsFirst(hs, es, i + 1, largest, overhead)
  {
    forall x ensures InUsable(es, i + 1, largest, overhead, x) <==> InUsable(es, i, largest, overhead, x) {
      OneMore(es, i, largest, overhead, x);
    }
  }

  // ---- all together ----

  const REGION_SIZE: nat := 408  // sizeof(memory_region_t)

  function AlignUp(n: nat): nat { (n + PAGE_SIZE - 1) / PAGE_SIZE * PAGE_SIZE }

  /** What the regions array and one metadata byte per page take, in whole pages. */
  function Overhead(count: nat, total: nat): nat { AlignUp(count * REGION_SIZE + total) }

  datatype Outcome = NoRegions | OutOfMemory | NoRegionFor | Created(regions: seq<Region>, tables: nat, tablesEnd: nat)

  /** create_memory_regions: afterwards the allocator owns exactly the usable entries without the tail of the largest
      one, which holds its own tables; the tables have room for every region and metadata byte. A map with tracked
      entries of which none is usable makes the source follow a null pointer. */
  method CreateMemoryRegions(es: seq<MapEntry>) returns (r: Outcome)
    requires WellFormed(es) && (HasUsable(es) || forall i :: 0 <= i < |es| ==> !Tracked(es[i]))
    ensures r.NoRegions? <==> forall i :: 0 <= i < |es| ==> !Tracked(es[i])
    ensures r.OutOfMemory? <==> HasUsable(es) && AllUsableWithin(es, Overhead(|Spans(es)|, TotalPages(es)))
    ensures r.NoRegionFor? ==> exists i :: 0 <= i < |es| && Stray(es[i], Spans(es)) && es[i].length == 0
    ensures r.Created? ==> NoneStray(es, |es|, Spans(es))
    ensures r.Created? ==> Sound(r.regions) && Matches(r.regions, Spans(es)) && Filled(es, r.regions, r.tables, r.tablesEnd)
    ensures r.Created? ==> 0 <= r.tablesEnd - r.tables - (408 * |r.regions| + TotalPages(es)) < 4096
  {
    var count, total, largest := CountRegions(es);
    HasRegion(es);
    if count == 0 {
      return NoRegions;
    }
    var overhead := Overhead(count, total);
    if !(es[largest].length > overhead) {
      return OutOfMemory;
    }
    r := SetUp(es, count, total, largest, overhead);
  }

  method SetUp(es: seq<MapEntry>, count: nat, total: nat, largest: nat, overhead: nat) returns (r: Outcome)
    requires WellFormed(es) && count == |Spans(es)| && total == TotalPages(es)
    requires largest < |es| && es[largest].kind.Usable? && es[largest].length > overhead && overhead % PAGE_SIZE == 0
    ensures r.NoRegionFor? || r.Created?
    ensures r.NoRegionFor? ==> exists i :: 0 <= i < |es| && Stray(es[i], Spans(es)) && es[i].length == 0
    ensures r.Created? ==> NoneStray(es, |es|, Spans(es))
    ensures r.Created? ==> Sound(r.regions) && Matches(r.regions, Spans(es)) && Filled(es, r.regions, r.tables, r.tablesEnd)
    ensures r.Created? ==> r.tablesEnd - r.tables == overhead
  {
    var spans := FillRegions(es, count, total);
    SpansHold(es);
    var regions := MakeRegions(spans);
    NothingOwned(Layouts(regions), es, largest, overhead);
    var ok;
    ghost var done;
    ok, done := AddMemory(es, regions, largest, overhead, spans);
    if !ok {
      StrayEmpty(es, done);
      return NoRegionFor;
    }
    var tables, end := Direct(EndOf(es[largest]) - overhead), Direct(EndOf(es[largest]));
    TailKept(es, largest, overhead, tables, end);
    return Created(regions, tables, end);
  }

  /** No usable entry is longer than that. */
  ghost predicate AllUsableWithin(es: seq<MapEntry>, limit: nat) {
    forall i :: 0 <= i < |es| && es[i].kind.Usable? ==> es[i].length <= limit
  }

  ghost predicate HasUsable(es: seq<MapEntry>) { exists i :: 0 <= i < |es| && es[i].kind.Usable? }

  /** The blocks of the regions are all free, and cover exactly the usable entries outside the tables. */
  ghost predicate Filled(es: seq<MapEntry>, regions: seq<Region>, tables: nat, end: nat)
    reads regions
  {
    NoneUsed(Layouts(regions)) && forall x :: OwnedBy(Layouts(regions), x) <==> InMap(es, x) && !(tables <= x < end)
  }

  /** An address lies in a usable entry. */
  ghost predicate InMap(es: seq<MapEntry>, x: int) {
    exists i :: 0 <= i < |es| && InWhole(es, i, x)
  }

  ghost predicate InWhole(es: seq<MapEntry>, i: nat, x: int)
    requires i < |es|
  {
    es[i].kind.Usable? && es[i].base <= x - 0xFFFF_8000_0000_0000 < EndOf(es[i])
  }

  lemma {:induction false} HasRegion(es: seq<MapEntry>)
    requires WellFormed(es)
    ensures Spans(es) != [] <==> exists i :: 0 <= i < |es| && Tracked(es[i])
  {
    if i :| 0 <= i < |es| && Tracked(es[i]) {
      var _ := SpanOf(es, i);
    } else {
      NoSpans(es);
    }
  }

  lemma {:induction false} NoSpans(es: seq<MapEntry>)
    requires forall i :: 0 <= i < |es| ==> !Tracked(es[i])
    ensures Spans(es) == []
  {
    if es != [] {
      NoSpans(es[..|es| - 1]);
    }
  }

  lemma NothingOwned(hs: seq<Heads>, es: seq<MapEntry>, largest: int, overhead: nat)
    requires forall k :: 0 <= k < |hs| ==> hs[k] == map[]
    ensures OwnsFirst(hs, es, 0, largest, overhead)
  {
  }

  /** What the largest entry gives up is its tail, and no other entry reaches into it. */
  lemma TailKept(es: seq<MapEntry>, largest: nat, overhead: nat, tables: nat, end: nat)
    requires WellFormed(es) && largest < |es| && es[largest].kind.Usable?
    requires es[largest].length > overhead && overhead % PAGE_SIZE == 0
    requires end == Direct(EndOf(es[largest])) && tables == end - overhead
    ensures forall x :: InUsable(es, |es|, largest, overhead, x) <==> InMap(es, x) && !(tables <= x < end)
  {
    forall x ensures InUsable(es, |es|, largest, overhead, x) <==> InMap(es, x) && !(tables <= x < end) {
      if InUsable(es, |es|, largest, overhead, x) {
        var i :| 0 <= i < |es| && InEntry(es, i, largest, overhead, x);
        GivenExact(es, i, largest, overhead);
        assert InWhole(es, i, x);
      }
      if InMap(es, x) && !(tables <= x < end) {
        var i :| 0 <= i < |es| && InWhole(es, i, x);
        GivenExact(es, i, largest, overhead);
        assert InEntry(es, i, largest, overhead, x);
      }
    }
  }

  lemma GivenExact(es: seq<MapEntry>, i: nat, largest: nat, overhead: nat)
    requires WellFormed(es) && largest < |es| && es[largest].length > overhead && overhead % PAGE_SIZE == 0
    requires i < |es| && es[i].kind.Usable?
    ensures PAGE_SIZE * Given(es, i, largest, overhead) == es[i].length - if i == largest then overhead else 0
  {
    if i == largest {
      assert (es[i].length - overhead) % PAGE_SIZE == 0;
    }
  }
}
