/** The physical allocator of kernel/mem/phys.c: size classes, runs of one region, and all regions together. */
module BuddyPhys {
  import opened Arithmetic
  import opened BuddyModel
  import opened BuddyLaws
  import opened BuddyRegion

  // ---- size classes ----

  lemma {:induction false} SizeShl(level: nat)
    ensures Size(level) == Shl(level + 4)
  {
    if level > 0 {
      SizeShl(level - 1);
    } else {
      assert Shl(1) == 2 && Shl(2) == 4 && Shl(3) == 8;
    }
  }

  /** get_level_by_size: the smallest level whose blocks hold size bytes, or -1. */
  function GetLevelBySize(size: nat): (level: int)
    ensures level == -1 <==> size > Size(TOP_LEVEL)
    ensures level != -1 ==> 0 <= level <= TOP_LEVEL && size <= Size(level) && (level > 0 ==> Size(level - 1) < size)
  {
    if size > Size(TOP_LEVEL) then -1
    else
      var size' := if size < 16 then 16 else size;
      LevelFacts(size');
      BitLength(Shl(BitLength(size' - 1))) - 1 - 4
  }

  lemma LevelFacts(size: nat)
    requires 16 <= size <= Size(TOP_LEVEL)
    ensures var level := BitLength(Shl(BitLength(size - 1))) - 1 - 4;
            0 <= level <= TOP_LEVEL && size <= Size(level) && (level > 0 ==> Size(level - 1) < size)
  {
    var n := BitLength(size - 1);
    RoundUp(size);
    LengthRange(size);
    SizeShl(n - 4);
    if n > 4 {
      SizeShl(n - 5);
    }
  }

  lemma LengthRange(size: nat)
    requires 16 <= size <= Size(TOP_LEVEL)
    ensures 4 <= BitLength(size - 1) <= TOP_LEVEL + 4
  {
    var n := BitLength(size - 1);
    RoundUp(size);
    SizeShl(TOP_LEVEL);
    assert Shl(1) == 2 && Shl(2) == 4 && Shl(3) == 8;
    if n > TOP_LEVEL + 4 {
      ShlBelow(TOP_LEVEL + 4, n - 1);
    }
    if n < 4 {
      ShlBelow(n, 3);
    }
  }

  // ---- runs of one region ----

  datatype Op = Alloc(block: nat, level: nat) | Dealloc(block: nat)

  /** What one call does to the layout; which free block an allocation takes is left open. */
  ghost predicate Step(h: Heads, op: Op, h': Heads) {
    match op
    case Alloc(block, level) =>
      && block in h && h[block].free && PAGE_LEVEL <= level <= h[block].level
      && h' == Carve(Take(h, block), block, level)
    case Dealloc(block) =>
      block in h && !h[block].free && h' == Coalesce(h, block)
  }

  ghost predicate SameMemory(h: Heads, h': Heads) { forall x :: Owned(h, x) <==> Owned(h', x) }

  /** A call keeps the layout good and the memory owned, and allocates or frees exactly one block. */
  lemma StepEffect(h: Heads, op: Op, h': Heads, lo: nat, hi: nat)
    requires Good(h, lo, hi) && Step(h, op, h')
    ensures Good(h', lo, hi) && SameMemory(h, h')
    ensures op.Alloc? ==> op.block !in Used(h) && Used(h') == Used(h)[op.block := op.level]
    ensures op.Alloc? ==> Aligned(op.block, op.level) && AllFree(h, op.block, op.level)
    ensures op.Alloc? ==> forall x :: Free(h', x) <==> Free(h, x) && !Within(op.block, op.level, x)
    ensures op.Dealloc? ==> op.block in Used(h) && Used(h') == Used(h) - {op.block}
    ensures op.Dealloc? ==> forall x :: Free(h', x) <==> Free(h, x) || Within(op.block, h[op.block].level, x)
  {
    match op
    case Alloc(a, level) => AllocEffect(h, a, level, lo, hi);
    case Dealloc(a) =>
      CoalesceGood(h, a, lo, hi);
      forall x ensures (Owned(h', x) <==> Owned(h, x)) && (Free(h', x) <==> Free(h, x) || Within(a, h[a].level, x)) {
        CoalesceAt(h, a, x, lo, hi);
      }
  }

  lemma AllocEffect(h: Heads, a: nat, level: nat, lo: nat, hi: nat)
    requires Good(h, lo, hi) && a in h && h[a].free && PAGE_LEVEL <= level <= h[a].level
    ensures var h' := Carve(Take(h, a), a, level);
            && Good(h', lo, hi) && SameMemory(h, h') && Used(h') == Used(h)[a := level]
            && Aligned(a, level) && AllFree(h, a, level)
            && forall x :: Free(h', x) <==> Free(h, x) && !Within(a, level, x)
  {
    var h1 := Take(h, a);
    var h' := Carve(h1, a, level);
    TakeGood(h, a, lo, hi);
    CarveGood(h1, a, level, lo, hi);
    Twice(Used(h), a, h[a].level, level);
    assert Fits(a, h[a].level, lo, hi);
    AlignedBelow(a, level, h[a].level);
    SizeBelow(level, h[a].level);
    BlockFree(h, a);
    forall x ensures (Owned(h', x) <==> Owned(h, x)) && (Free(h', x) <==> Free(h, x) && !Within(a, level, x)) {
      TakeAt(h, a, x);
      CarveAt(h1, a, level, x);
    }
  }

  ghost predicate Run(hs: seq<Heads>, ops: seq<Op>) {
    && |hs| == |ops| + 1
    && forall i :: 0 <= i < |ops| ==> Step(hs[i], ops[i], hs[i + 1])
  }

  /** Over every run the layout stays good and owns the same memory. */
  lemma {:induction false} RunGood(hs: seq<Heads>, ops: seq<Op>, k: nat, lo: nat, hi: nat)
    requires Run(hs, ops) && Good(hs[0], lo, hi) && k < |hs|
    ensures Good(hs[k], lo, hi) && SameMemory(hs[0], hs[k])
  {
    if k > 0 {
      RunGood(hs, ops, k - 1, lo, hi);
      StepEffect(hs[k - 1], ops[k - 1], hs[k], lo, hi);
    }
  }

  /** Whenever a run comes back to the same allocated blocks, in particular to none, it is back at the very same
      layout, level by level: the order of the releases leaves no trace. */
  lemma RunRestores(hs: seq<Heads>, ops: seq<Op>, j: nat, k: nat, lo: nat, hi: nat)
    requires Run(hs, ops) && Good(hs[0], lo, hi) && j < |hs| && k < |hs| && Used(hs[j]) == Used(hs[k])
    ensures hs[j] == hs[k]
  {
    RunGood(hs, ops, j, lo, hi);
    RunGood(hs, ops, k, lo, hi);
    Historyless(hs[j], hs[k], lo, hi);
  }

  // ---- when an allocation fails ----

  /** Somewhere an aligned block of the level is free as a whole. */
  ghost predicate HasRun(h: Heads, level: nat) {
    exists a: nat :: Aligned(a, level) && AllFree(h, a, level)
  }

  /** A list from the level up is occupied exactly when such a run exists. */
  lemma FoundIffRun(h: Heads, level: nat, lo: nat, hi: nat)
    requires Good(h, lo, hi) && PAGE_LEVEL <= level <= TOP_LEVEL
    ensures HasRun(h, level) <==> exists a: nat, k: nat :: level <= k && IsFree(h, a, k)
  {
    if HasRun(h, level) {
      var a: nat :| Aligned(a, level) && AllFree(h, a, level);
      var c := FreeRun(h, a, level, lo, hi);
      assert IsFree(h, c, h[c].level);
    }
    if a: nat, k: nat :| level <= k && IsFree(h, a, k) {
      assert Fits(a, k, lo, hi);
      AllocEffect(h, a, level, lo, hi);
    }
  }

  // ---- all regions ----

  ghost function Bytes(regions: seq<Region>): set<array<Head>> { set r | r in regions :: r.metadata }

  /** Regions are separate objects over separate memory. */
  ghost predicate Separate(regions: seq<Region>) {
    var separate := forall i, j :: 0 <= i < j < |regions| ==>
                                     && regions[i] != regions[j] && regions[i].metadata != regions[j].metadata
                                     && (End(regions[i]) <= regions[j].base || End(regions[j]) <= regions[i].base);
    separate
  }

  function End(r: Region): nat { r.base + PAGE_SIZE * r.pageCount }

  ghost predicate Sound(regions: seq<Region>)
    reads regions, Bytes(regions)
  {
    var sound := Separate(regions) && forall i :: 0 <= i < |regions| ==> regions[i].Valid();
    sound
  }

  /** No region but the one at index `at` has changed its layout. */
  twostate predicate OnlyAt(regions: seq<Region>, at: int)
    reads regions
  {
    forall j :: 0 <= j < |regions| && j != at ==> regions[j].heads == old(regions[j].heads)
  }

  /** internal_phys_alloc: fails exactly when no region has an aligned run of free pages of the size. */
  method InternalPhysAlloc(regions: seq<Region>, level: nat) returns (ptr: nat, ghost at: int)
    requires Sound(regions) && PAGE_LEVEL <= level <= TOP_LEVEL
    modifies regions, Bytes(regions)
    ensures Sound(regions) && OnlyAt(regions, at)
    ensures ptr == 0 <==> forall j :: 0 <= j < |regions| ==> !HasRun(old(regions[j].heads), level)
    ensures ptr == 0 ==> at == -1
    ensures ptr != 0 ==> 0 <= at < |regions| && Step(old(regions[at].heads), Alloc(ptr, level), regions[at].heads)
  {
    ptr, at := 0, -1;
    var i := 0;
    while i < |regions|
      invariant 0 <= i <= |regions| && Sound(regions) && ptr == 0 && OnlyAt(regions, -1)
      invariant forall j :: 0 <= j < i ==> !HasRun(old(regions[j].heads), level)
    {
      ptr := AllocateIn(regions, i, level);
      if ptr != 0 {
        at := i;
        return;
      }
      i := i + 1;
    }
  }

  method AllocateIn(regions: seq<Region>, i: nat, level: nat) returns (ptr: nat)
    requires Sound(regions) && i < |regions| && PAGE_LEVEL <= level <= TOP_LEVEL
    modifies regions[i], regions[i].metadata
    ensures Sound(regions) && OnlyAt(regions, i)
    ensures ptr == 0 <==> !HasRun(old(regions[i].heads), level)
    ensures ptr == 0 ==> regions[i].heads == old(regions[i].heads)
    ensures ptr != 0 ==> Step(old(regions[i].heads), Alloc(ptr, level), regions[i].heads)
  {
    SoundGood(regions);
    FoundIffRun(regions[i].heads, level, regions[i].base, End(regions[i]));
    ptr := TryRegion(regions[i], level);
  }

  method TryRegion(r: Region, level: nat) returns (ptr: nat)
    requires r.Valid() && PAGE_LEVEL <= level <= TOP_LEVEL
    modifies r, r.metadata
    ensures r.Valid()
    ensures ptr == 0 <==> forall a: nat, k: nat :: level <= k ==> !IsFree(old(r.heads), a, k)
    ensures ptr == 0 ==> r.heads == old(r.heads)
    ensures ptr != 0 ==> Step(old(r.heads), Alloc(ptr, level), r.heads)
  {
    ghost var h := r.heads;
    ptr := r.AllocateFromLevel(level);
    assert ptr != 0 ==> IsFree(h, ptr, h[ptr].level);
  }

  /** find_region. */
  method FindRegion(regions: seq<Region>, ptr: nat) returns (i: int)
    ensures -1 <= i < |regions|
    ensures i >= 0 ==> regions[i].base <= ptr < End(regions[i])
    ensures i == -1 ==> forall j :: 0 <= j < |regions| ==> !(regions[j].base <= ptr < End(regions[j]))
  {
    for k := 0 to |regions|
      invariant forall j :: 0 <= j < k ==> !(regions[j].base <= ptr < End(regions[j]))
    {
      if regions[k].base <= ptr < End(regions[k]) {
        return k;
      }
    }
    return -1;
  }

  /** phys_free of a block that is allocated in region `at`. */
  method PhysFree(regions: seq<Region>, ptr: nat, ghost at: nat)
    requires Sound(regions) && (ptr != 0 ==> at < |regions| && ptr in Used(regions[at].heads))
    modifies regions, Bytes(regions)
    ensures Sound(regions)
    ensures ptr == 0 ==> OnlyAt(regions, -1)
    ensures ptr != 0 ==> OnlyAt(regions, at) && Step(old(regions[at].heads), Dealloc(ptr), regions[at].heads)
  {
    if ptr == 0 {
      return;
    }
    var i := FindRegion(regions, ptr);
    InOneRegion(regions, at, ptr, i);
    FreeIn(regions, i, ptr);
  }

  method FreeIn(regions: seq<Region>, i: nat, ptr: nat)
    requires Sound(regions) && i < |regions| && ptr in Used(regions[i].heads)
    modifies regions[i], regions[i].metadata
    ensures Sound(regions) && OnlyAt(regions, i)
    ensures Step(old(regions[i].heads), Dealloc(ptr), regions[i].heads)
  {
    regions[i].Free(ptr);
  }

  /** A block lies in one region only, so find_region finds its own. */
  lemma InOneRegion(regions: seq<Region>, at: nat, ptr: nat, i: int)
    requires Sound(regions) && at < |regions| && ptr in regions[at].heads
    ensures regions[at].base <= ptr < End(regions[at])
    ensures 0 <= i < |regions| && regions[i].base <= ptr < End(regions[i]) ==> i == at
  {
    var r := regions[at];
    RepLevel(r.freeList, r.metadata[..], r.base, r.heads, -1, ptr);
  }

  // ---- the reserved pages ----

  /** The layouts of all regions. */
  ghost function Layouts(regions: seq<Region>): (hs: seq<Heads>)
    reads regions
    ensures |hs| == |regions| && forall i :: 0 <= i < |hs| ==> hs[i] == regions[i].heads
  {
    seq(|regions|, i requires 0 <= i < |regions| reads regions => regions[i].heads)
  }

  /** The same memory, all blocks that were allocated still are, and only the given blocks have joined them. */
  ghost predicate Gained(hs: seq<Heads>, hs': seq<Heads>, gain: set<nat>) {
    var gained := |hs| == |hs'| && forall i :: 0 <= i < |hs| ==> GainedOne(hs[i], hs'[i], gain);
    gained
  }

  ghost predicate GainedOne(h: Heads, h': Heads, gain: set<nat>) {
    && SameMemory(h, h') && Used(h').Keys <= Used(h).Keys + gain
    && forall a :: a in Used(h) ==> a in Used(h') && Used(h')[a] == Used(h)[a]
  }

  lemma GainedTwice(hs: seq<Heads>, hs1: seq<Heads>, hs2: seq<Heads>, p: set<nat>, q: set<nat>)
    requires Gained(hs, hs1, p) && Gained(hs1, hs2, q)
    ensures Gained(hs, hs2, p + q)
  {
    forall i | 0 <= i < |hs| ensures GainedOne(hs[i], hs2[i], p + q) {
      assert GainedOne(hs[i], hs1[i], p) && GainedOne(hs1[i], hs2[i], q);
    }
  }

  lemma GainedBoth(hs: seq<Heads>, hs1: seq<Heads>, hs2: seq<Heads>, p: nat, q: nat)
    requires Gained(hs, hs1, {p}) && Gained(hs1, hs2, {q})
    ensures Gained(hs, hs2, {p, q})
  {
    GainedTwice(hs, hs1, hs2, {p}, {q});
    assert {p} + {q} == {p, q};
  }

  lemma StepGains(h: Heads, ptr: nat, level: nat, h': Heads, lo: nat, hi: nat)
    requires Good(h, lo, hi) && Step(h, Alloc(ptr, level), h')
    ensures GainedOne(h, h', {ptr}) && ptr !in Used(h) && ptr in Used(h') && Used(h')[ptr] == level
  {
    StepEffect(h, Alloc(ptr, level), h', lo, hi);
  }

  /** p is an allocated block of the level in some region. */
  ghost predicate Allocated(hs: seq<Heads>, p: nat, level: nat) {
    exists i :: 0 <= i < |hs| && p in Used(hs[i]) && Used(hs[i])[p] == level
  }

  /** p is no allocated block. */
  ghost predicate Unused(hs: seq<Heads>, p: nat) {
    var unused := forall level :: !Allocated(hs, p, level);
    unused
  }

  /** The caller's view of internal_phys_alloc. */
  method AllocBlock(regions: seq<Region>, level: nat) returns (ptr: nat)
    requires Sound(regions) && PAGE_LEVEL <= level <= TOP_LEVEL
    modifies regions, Bytes(regions)
    ensures Sound(regions)
    ensures ptr == 0 <==> forall j :: 0 <= j < |regions| ==> !HasRun(old(regions[j].heads), level)
    ensures ptr == 0 ==> Layouts(regions) == old(Layouts(regions))
    ensures ptr != 0 ==> Gained(old(Layouts(regions)), Layouts(regions), {ptr}) && Allocated(Layouts(regions), ptr, level)
    ensures ptr != 0 ==> Unused(old(Layouts(regions)), ptr)
  {
    ghost var hs := Layouts(regions);
    SoundGood(regions);
    ghost var at;
    ptr, at := InternalPhysAlloc(regions, level);
    if ptr != 0 {
      AllocGains(regions, hs, at, ptr, level);
    }
  }

  ghost predicate AllGood(regions: seq<Region>, hs: seq<Heads>) {
    |hs| == |regions| && forall i :: 0 <= i < |hs| ==> Good(hs[i], regions[i].base, End(regions[i]))
  }

  lemma SoundGood(regions: seq<Region>)
    requires Sound(regions)
    ensures AllGood(regions, Layouts(regions))
  {
    forall i | 0 <= i < |regions| ensures Good(regions[i].heads, regions[i].base, End(regions[i])) {
      assert regions[i].Valid();
    }
  }

  lemma AllocGains(regions: seq<Region>, hs: seq<Heads>, at: nat, ptr: nat, level: nat)
    requires Sound(regions) && AllGood(regions, hs) && at < |regions|
    requires Step(hs[at], Alloc(ptr, level), regions[at].heads)
    requires forall j :: 0 <= j < |regions| && j != at ==> regions[j].heads == hs[j]
    ensures Gained(hs, Layouts(regions), {ptr}) && Allocated(Layouts(regions), ptr, level)
    ensures Unused(hs, ptr)
  {
    StepGains(hs[at], ptr, level, regions[at].heads, regions[at].base, End(regions[at]));
    forall j | 0 <= j < |regions| && ptr in Used(hs[j]) ensures j == at {
      if j != at {
        InOneRegion(regions, j, ptr, at);
        InOneRegion(regions, at, ptr, j);
      }
    }
    forall j | 0 <= j < |hs| ensures GainedOne(hs[j], regions[j].heads, {ptr}) {}
  }

  /** Each reserved page is an allocated page of its own. */
  ghost predicate Kept(reserved: seq<nat>, hs: seq<Heads>) {
    var kept := (forall c :: 0 <= c < |reserved| && reserved[c] != 0 ==> Allocated(hs, reserved[c], PAGE_LEVEL))
                && (forall c, d :: 0 <= c < d < |reserved| && reserved[c] != 0 ==> reserved[c] != reserved[d]);
    kept
  }

  /** A core without a reserved page may have been given one that was not allocated. */
  ghost predicate Refilled(reserved: seq<nat>, reserved': seq<nat>, cpu: nat, hs: seq<Heads>) {
    var refilled := && cpu < |reserved| && |reserved'| == |reserved| && reserved' == reserved[cpu := reserved'[cpu]]
                    && (reserved[cpu] != 0 ==> reserved' == reserved)
                    && (reserved[cpu] == 0 && reserved'[cpu] != 0 ==> Unused(hs, reserved'[cpu]));
    refilled
  }

  lemma KeptGain(reserved: seq<nat>, hs: seq<Heads>, hs': seq<Heads>, gain: set<nat>)
    requires Kept(reserved, hs) && Gained(hs, hs', gain)
    ensures Kept(reserved, hs')
  {
    forall c | 0 <= c < |reserved| && reserved[c] != 0 ensures Allocated(hs', reserved[c], PAGE_LEVEL) {
      StaysAllocated(hs, hs', gain, reserved[c], PAGE_LEVEL);
    }
  }

  lemma GainedNothing(hs: seq<Heads>, gain: set<nat>)
    ensures Gained(hs, hs, gain)
  {
  }

  class Phys {
    const regions: seq<Region>
    var lockCpu: int        // m_lock_cpu
    var reserved: seq<nat>  // m_reserved_page of each core, 0 when there is none

    ghost predicate Valid()
      reads this, regions, Bytes(regions)
    {
      Sound(regions) && Kept(reserved, Layouts(regions))
    }

    /** irq_alloc: inside the locked section a core gets its reserved page. */
    method IrqAlloc(cpu: nat, size: nat) returns (ptr: nat)
      requires Valid() && cpu < |reserved| && (lockCpu == cpu && size == PAGE_SIZE ==> reserved[cpu] != 0)
      modifies this`reserved
      ensures Valid() && |reserved| == |old(reserved)|
      ensures if lockCpu == cpu && size == PAGE_SIZE
              then ptr == old(reserved[cpu]) && reserved == old(reserved)[cpu := 0] && ptr !in reserved
              else ptr == 0 && reserved == old(reserved)
    {
      if lockCpu == cpu && size == PAGE_SIZE {
        ptr := reserved[cpu];
        reserved := reserved[cpu := 0];
        return;
      }
      return 0;
    }

    method Reserve(cpu: nat, page: nat)
      requires Sound(regions) && cpu < |reserved| && Kept(reserved[cpu := page], Layouts(regions))
      modifies this`reserved
      ensures Valid() && reserved == old(reserved)[cpu := page] && Layouts(regions) == old(Layouts(regions))
    {
      reserved := reserved[cpu := page];
    }

    /** fill_irq_alloc: a core without a reserved page gets one, if there is a free page at all. */
    method FillIrqAlloc(cpu: nat)
      requires Valid() && cpu < |reserved|
      modifies this`reserved, regions, Bytes(regions)
      ensures Valid() && |reserved| == |old(reserved)| && Refilled(old(reserved), reserved, cpu, old(Layouts(regions)))
      ensures Gained(old(Layouts(regions)), Layouts(regions), {reserved[cpu]})
      ensures old(reserved[cpu]) != 0 ==> Layouts(regions) == old(Layouts(regions))
      ensures old(reserved[cpu]) == 0 ==>
                (reserved[cpu] == 0 <==> forall j :: 0 <= j < |regions| ==> !HasRun(old(regions[j].heads), PAGE_LEVEL))
    {
      ghost var hs := Layouts(regions);
      if reserved[cpu] == 0 {
        var page := AllocBlock(regions, PAGE_LEVEL);
        if page == 0 {
          GainedNothing(hs, {0});
          return;
        }
        KeptFresh(reserved, cpu, page, hs, Layouts(regions));
        Reserve(cpu, page);
      } else {
        GainedNothing(hs, {reserved[cpu]});
      }
    }

    /** phys_alloc, for page-or-larger requests; the size parameter of get_level_by_size keeps only 32 bits. Inside the
        locked section of the same core it hands out the reserved page. Otherwise it fails exactly when the request
        is too big or no region has an aligned run of free pages for it. */
    method PhysAlloc(cpu: nat, size: nat) returns (ptr: nat)
      requires Valid() && cpu < |reserved| && size % 0x1_0000_0000 > 2048
      requires lockCpu == -1 || (lockCpu == cpu && size == PAGE_SIZE && reserved[cpu] != 0)
      modifies this, regions, Bytes(regions)
      ensures Valid() && lockCpu == old(lockCpu) && |reserved| == |old(reserved)|
      ensures ptr != 0 ==> ptr !in reserved
      ensures Gained(old(Layouts(regions)), Layouts(regions), {ptr, reserved[cpu]})
      ensures old(lockCpu) != -1 ==> ptr == old(reserved[cpu])
      ensures old(lockCpu) == -1 ==>
                var level := GetLevelBySize(size % 0x1_0000_0000);
                && (ptr == 0 <==> level == -1 || forall j :: 0 <= j < |regions| ==> !HasRun(old(regions[j].heads), level))
                && (ptr != 0 ==> level >= PAGE_LEVEL && Allocated(Layouts(regions), ptr, level)
                                 && Unused(old(Layouts(regions)), ptr))
    {
      ghost var hs := Layouts(regions);
      ptr := IrqAlloc(cpu, size);
      if ptr != 0 {
        GainedNothing(hs, {ptr, reserved[cpu]});
        return;
      }
      var level := GetLevelBySize(size % 0x1_0000_0000);
      if level == -1 {
        GainedNothing(hs, {ptr, reserved[cpu]});
        return;
      }
      LargeLevel(size % 0x1_0000_0000, level);
      SetLock(cpu);
      ptr := AllocLocked(cpu, level);
      SetLock(-1);
    }

    /** phys_free: the caller gives back a block that it was handed, so none that is held in reserve. */
    method Free(ptr: nat, ghost at: nat)
      requires Valid() && (ptr != 0 ==> ptr !in reserved && at < |regions| && ptr in Used(regions[at].heads))
      modifies regions, Bytes(regions)
      ensures Valid()
      ensures ptr == 0 ==> OnlyAt(regions, -1)
      ensures ptr != 0 ==> OnlyAt(regions, at) && Step(old(regions[at].heads), Dealloc(ptr), regions[at].heads)
    {
      ghost var hs := Layouts(regions);
      SoundGood(regions);
      PhysFree(regions, ptr, at);
      if ptr != 0 {
        KeptLoss(reserved, hs, Layouts(regions), at, ptr, regions[at].base, End(regions[at]));
      } else {
        assert Layouts(regions) == hs;
      }
    }

    method SetLock(cpu: int)
      requires Valid()
      modifies this`lockCpu
      ensures Valid() && lockCpu == cpu && Layouts(regions) == old(Layouts(regions))
    {
      lockCpu := cpu;
    }

    /** The locked section of phys_alloc. */
    method AllocLocked(cpu: nat, level: nat) returns (ptr: nat)
      requires Valid() && cpu < |reserved| && PAGE_LEVEL <= level <= TOP_LEVEL
      modifies this`reserved, regions, Bytes(regions)
      ensures Valid() && |reserved| == |old(reserved)|
      ensures ptr != 0 ==> ptr !in reserved && Allocated(Layouts(regions), ptr, level)
      ensures ptr != 0 ==> Unused(old(Layouts(regions)), ptr)
      ensures Gained(old(Layouts(regions)), Layouts(regions), {ptr, reserved[cpu]})
      ensures ptr == 0 <==> forall j :: 0 <= j < |regions| ==> !HasRun(old(regions[j].heads), level)
    {
      ghost var hs, reserved0 := Layouts(regions), reserved;
      ptr := AllocKept(level);
      ghost var hs1 := Layouts(regions);
      FillIrqAlloc(cpu);
      GainedBoth(hs, hs1, Layouts(regions), ptr, reserved[cpu]);
      NotReserved(reserved0, reserved, cpu, ptr, level, hs, hs1, Layouts(regions));
    }

    /** An allocation takes nothing from the reserved pages. */
    method AllocKept(level: nat) returns (ptr: nat)
      requires Valid() && PAGE_LEVEL <= level <= TOP_LEVEL
      modifies regions, Bytes(regions)
      ensures Valid() && Gained(old(Layouts(regions)), Layouts(regions), {ptr})
      ensures ptr != 0 ==> Allocated(Layouts(regions), ptr, level) && Unused(old(Layouts(regions)), ptr)
      ensures ptr == 0 <==> forall j :: 0 <= j < |regions| ==> !HasRun(old(regions[j].heads), level)
    {
      ghost var hs := Layouts(regions);
      ptr := AllocBlock(regions, level);
      GainedNothing(hs, {ptr});
      KeptGain(reserved, hs, Layouts(regions), {ptr});
    }
  }

  /** Releasing a block leaves the others allocated. */
  lemma KeptLoss(reserved: seq<nat>, hs: seq<Heads>, hs': seq<Heads>, at: nat, ptr: nat, lo: nat, hi: nat)
    requires Kept(reserved, hs) && ptr !in reserved && |hs'| == |hs| && at < |hs|
    requires Good(hs[at], lo, hi) && Step(hs[at], Dealloc(ptr), hs'[at])
    requires forall j :: 0 <= j < |hs| && j != at ==> hs'[j] == hs[j]
    ensures Kept(reserved, hs')
  {
    StepEffect(hs[at], Dealloc(ptr), hs'[at], lo, hi);
    forall c | 0 <= c < |reserved| && reserved[c] != 0 ensures Allocated(hs', reserved[c], PAGE_LEVEL) {
      assert Allocated(hs, reserved[c], PAGE_LEVEL);
      var i :| 0 <= i < |hs| && reserved[c] in Used(hs[i]) && Used(hs[i])[reserved[c]] == PAGE_LEVEL;
      assert reserved[c] in Used(hs'[i]) && Used(hs'[i])[reserved[c]] == PAGE_LEVEL;
    }
  }

  lemma KeptFresh(reserved: seq<nat>, cpu: nat, page: nat, hs: seq<Heads>, hs': seq<Heads>)
    requires Kept(reserved, hs) && Gained(hs, hs', {page}) && cpu < |reserved|
    requires Allocated(hs', page, PAGE_LEVEL) && Unused(hs, page)
    ensures Kept(reserved[cpu := page], hs')
  {
    KeptGain(reserved, hs, hs', {page});
  }

  /** The new block is none of the reserved pages, old or new. */
  lemma NotReserved(reserved: seq<nat>, reserved': seq<nat>, cpu: nat, ptr: nat, level: nat, hs: seq<Heads>,
                    hs1: seq<Heads>, hs2: seq<Heads>)
    requires Kept(reserved, hs) && Refilled(reserved, reserved', cpu, hs1) && Gained(hs1, hs2, {reserved'[cpu]})
    requires ptr != 0 ==> Allocated(hs1, ptr, level) && Unused(hs, ptr)
    ensures ptr != 0 ==> ptr !in reserved' && Allocated(hs2, ptr, level)
  {
    if ptr != 0 {
      forall c | 0 <= c < |reserved| && reserved[c] != 0 ensures reserved[c] != ptr {
        assert Allocated(hs, reserved[c], PAGE_LEVEL);
      }
      StaysAllocated(hs1, hs2, {reserved'[cpu]}, ptr, level);
    }
  }

  lemma StaysAllocated(hs: seq<Heads>, hs': seq<Heads>, gain: set<nat>, p: nat, level: nat)
    requires Gained(hs, hs', gain) && Allocated(hs, p, level)
    ensures Allocated(hs', p, level)
  {
    var i :| 0 <= i < |hs| && p in Used(hs[i]) && Used(hs[i])[p] == level;
    assert GainedOne(hs[i], hs'[i], gain);
  }

  lemma LargeLevel(size: nat, level: int)
    requires level == GetLevelBySize(size) && level != -1 && size > 2048
    ensures level >= PAGE_LEVEL
  {
    if level < PAGE_LEVEL {
      SizeOfPage();
      SizeBelow(level, 7);
    }
  }

  // ---- where the code departs ----

  /** get_level_by_size keeps 32 bits of the size, so the block of the level it gives holds the request exactly when
      the request is below 4GB. */
  lemma HoldsIff32(size: nat, level: int)
    requires level == GetLevelBySize(size % 0x1_0000_0000) && level != -1
    ensures size <= Size(level) <==> size < 0x1_0000_0000
  {
    SizeOfPage();
    SizeBelow(level, TOP_LEVEL);
  }

  /** Marking a block allocated makes the merge test for its buddy fail when the blocks are smaller than a page, because
      both have the same byte; for page-or-larger blocks the test is untouched. */
  lemma SharedByte(meta: seq<Head>, base: nat, a: nat, level: nat)
    requires Aligned(base, PAGE_LEVEL) && Aligned(a, level) && base <= a && level < TOP_LEVEL
    requires PageMetadata(base, |meta|, a) >= 0
    ensures var marked := meta[PageMetadata(base, |meta|, a) := Head(level, false)];
            MergeTest(marked, base, Buddy(a, level), level) <==>
            level >= PAGE_LEVEL && MergeTest(meta, base, Buddy(a, level), level)
  {
    BuddyGrid(a, level);
    if level < PAGE_LEVEL {
      SamePage(base, a, level);
    } else {
      AlignedBelow(a, PAGE_LEVEL, level);
      AlignedBelow(Buddy(a, level), PAGE_LEVEL, level);
      PageByte(base, |meta|, a);
      PageByte(base, |meta|, Buddy(a, level));
    }
  }

  /** Marking a block free makes the merge test for its buddy succeed, allocated or not, when the blocks are smaller
      than a page; the test then succeeds for every address of the page. For page-or-larger blocks the test is
      untouched. */
  lemma SharedRelease(meta: seq<Head>, base: nat, a: nat, level: nat)
    requires Aligned(base, PAGE_LEVEL) && Aligned(a, level) && base <= a && level < TOP_LEVEL
    requires PageMetadata(base, |meta|, a) >= 0
    ensures var freed := meta[PageMetadata(base, |meta|, a) := Head(level, true)];
            && (MergeTest(freed, base, Buddy(a, level), level) <==>
                level < PAGE_LEVEL || MergeTest(meta, base, Buddy(a, level), level))
            && forall x :: base <= x && (x - base) / PAGE_SIZE == (a - base) / PAGE_SIZE ==> MergeTest(freed, base, x, level)
  {
    BuddyGrid(a, level);
    if level < PAGE_LEVEL {
      SamePage(base, a, level);
    } else {
      AlignedBelow(a, PAGE_LEVEL, level);
      AlignedBelow(Buddy(a, level), PAGE_LEVEL, level);
      PageByte(base, |meta|, a);
      PageByte(base, |meta|, Buddy(a, level));
    }
  }

  lemma SamePage(base: nat, a: nat, level: nat)
    requires Aligned(base, PAGE_LEVEL) && Aligned(a, level) && base <= a && level < PAGE_LEVEL
    ensures base <= Buddy(a, level) && (Buddy(a, level) - base) / PAGE_SIZE == (a - base) / PAGE_SIZE
  {
    var p: nat := a - a % PAGE_SIZE;
    FloorPage(a, p);
    BuddyGrid(a, level);
    SizeOfPage();
    Nested(Lower(a, level), level + 1, p, PAGE_LEVEL);
    PageAligned(base);
    SameQuotient(base, p, a, Buddy(a, level));
  }

  lemma FloorPage(a: nat, p: int)
    requires p == a - a % PAGE_SIZE
    ensures Aligned(p, PAGE_LEVEL) && p % PAGE_SIZE == 0 && 0 <= p <= a < p + PAGE_SIZE
  {
    PageAligned(p);
  }

  lemma SameQuotient(base: nat, p: nat, x: nat, y: nat)
    requires base % PAGE_SIZE == 0 && p % PAGE_SIZE == 0 && base <= x
    requires p <= x < p + PAGE_SIZE && p <= y < p + PAGE_SIZE
    ensures base <= y && (y - base) / PAGE_SIZE == (x - base) / PAGE_SIZE
  {
    var k := (p - base) / PAGE_SIZE;
    assert p == base + PAGE_SIZE * k;
  }
}
