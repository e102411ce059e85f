/** The page-table operations of kernel/mem/virt.c, refining a flat map of last-level entries. */
module VirtTables {
  import opened Layout
  import opened Sequences
  import opened VirtModel
  import opened VirtShadow
  import opened VirtZones

  /** m' has more tables than m at most; no address has changed. */
  ghost predicate Extends(m: Mem, m': Mem) {
    var grown := KeepsUpper(m, m') && forall va :: Good(va) ==> Leaf(m', va) == Leaf(m, va);
    grown
  }

  /** Exactly one address and its shadow twin have the given entry now. */
  ghost predicate Wrote(m: Mem, m': Mem, va: Va, entry: Entry, n: nat) {
    var wrote := forall vb :: Good(vb) ==> Leaf(m', vb) == if Same(va, vb, n) then entry else Leaf(m, vb);
    wrote
  }

  /** A page has been mapped, or no address has changed. */
  ghost predicate Tried(m: Mem, m': Mem, va: Va, entry: Entry, n: nat, ok: bool) {
    var tried := if ok then Wrote(m, m', va, entry, n) else Extends(m, m');
    tried
  }

  lemma ExtendsWrote(m: Mem, m1: Mem, m2: Mem, va: Va, entry: Entry, n: nat)
    requires Extends(m, m1) && Wrote(m1, m2, va, entry, n)
    ensures Wrote(m, m2, va, entry, n)
  {
  }

  lemma ExtendsTwice(m: Mem, m1: Mem, m2: Mem)
    requires Extends(m, m1) && Extends(m1, m2)
    ensures Extends(m, m2)
  {
  }

  /** The entry virt_map_page writes; the frame field has forty bits. */
  function PageEntry(phys: nat, flags: nat): Entry {
    Entry(true, flags % 2 == 1, flags / 2 % 2 == 0, phys / 0x1000 % 0x100_0000_0000)
  }

  /** The rights that map flags ask for: bit 0 to write, bit 1 to execute. */
  predicate Allows(e: Entry, flags: nat) {
    && e.present && (e.writeable <==> flags % 4 == 1 || flags % 4 == 3)
    && (e.noExecute <==> flags % 4 == 0 || flags % 4 == 1)
  }

  /** The entry leads to the page of a physical address below 2^52. */
  predicate LeadsTo(e: Entry, phys: nat) { e.frame * 0x1000 <= phys < (e.frame + 1) * 0x1000 }

  /** The entry maps the physical address with the rights asked for. */
  predicate MapsTo(e: Entry, phys: nat, flags: nat) {
    var maps := Allows(e, flags) && (phys < 0x10_0000_0000_0000 ==> LeadsTo(e, phys));
    maps
  }

  lemma PageEntryMeans(phys: nat, flags: nat)
    ensures MapsTo(PageEntry(phys, flags), phys, flags)
  {
  }

  /** No frame of the pool is in use as a table, and none is listed twice. */
  ghost predicate Spare(pool: seq<nat>, m: Mem) {
    var spare := NoDup(pool) && forall f :: f in pool ==> f !in m.tables && f !in m.level;
    spare
  }

  class PageTables {
    var tables: map<nat, seq<Entry>>
    const cr3: nat
    var pool: seq<nat>  // the frames phys_alloc has left to give
    ghost var level: map<nat, nat>

    ghost function M(): Mem
      reads this
    {
      Mem(tables, level, cr3)
    }

    /** Sound tables with n top-level slots shadowed; the allocator gives no frame that is in use as a table. */
    ghost predicate Valid(n: nat)
      reads this
    {
      Inv(M(), n) && Spare(pool, M())
    }

    /** A zeroed top-level table. */
    constructor (cr3: nat, pool: seq<nat>)
      requires NoDup(pool) && cr3 !in pool
      ensures Valid(0) && NoShadowFrom(M(), 0) && this.pool == pool
      ensures forall va :: Good(va) ==> Leaf(M(), va) == ZERO
    {
      this.cr3, this.pool := cr3, pool;
      tables, level := map[cr3 := Empty()], map[cr3 := 4];
      new;
      forall t: nat, i: nat ensures At(M(), t, i) == ZERO {}
    }

    /** get_next_level on entry i of table t. */
    method GetNextLevel(t: nat, i: nat, ghost n: nat) returns (next: Link)
      requires Valid(n) && Upper(M(), t, i)
      modifies this`tables, this`level, this`pool
      ensures Valid(n) && Extends(old(M()), M()) && Upper(M(), t, i)
      ensures next == Child(M(), To(t), i)
      ensures next == Missing ==> old(pool) == pool == [] && M() == old(M())
      ensures old(At(M(), t, i)).present ==> M() == old(M()) && pool == old(pool)
      ensures !old(At(M(), t, i)).present && next != Missing ==>
                old(pool) != [] && At(M(), t, i) == Entry(true, true, false, old(pool)[0]) && pool == old(pool)[1..]
      ensures |pool| + 1 >= |old(pool)| && forall f :: f in pool ==> f in old(pool)
    {
      var entry := tables[t][i];
      if !entry.present {
        if pool == [] {
          return Missing;
        }
        entry := BuildTable(t, i, Entry(true, true, entry.noExecute, pool[0]), n);
      }
      return To(entry.frame);
    }

    /** The first frame of the pool becomes a zeroed table. */
    method BuildTable(t: nat, i: nat, entry: Entry, ghost n: nat) returns (built: Entry)
      requires Valid(n) && pool != [] && Buildable(M(), t, i, pool[0], entry)
      modifies this`tables, this`level, this`pool
      ensures Valid(n) && Extends(old(M()), M()) && Upper(M(), t, i) && At(M(), t, i) == built == entry
      ensures pool == old(pool)[1..] && M() == Build(old(M()), t, i, old(pool)[0], entry)
    {
      var phys := pool[0];
      ghost var m' := Build(M(), t, i, phys, entry);
      BuildExtends(M(), t, i, phys, entry, n);
      SpareAfter(pool, M(), t, i, entry);
      pool := pool[1..];
      tables := tables[phys := Empty()][t := tables[t][i := entry]];
      level := level[phys := level[t] - 1];
      assert M() == m';
      return entry;
    }

    /** The three steps from the top to the last table. */
    method Reach(va: Va, ghost n: nat) returns (pml1: Link)
      requires Valid(n) && Good(va)
      modifies this`tables, this`level, this`pool
      ensures Valid(n) && Extends(old(M()), M())
      ensures pml1 == Pml1(M(), va)
      ensures (pml1 == Missing ==> |old(pool)| < 3 && pool == []) && |pool| + 3 >= |old(pool)|
      ensures forall f :: f in pool ==> f in old(pool)
    {
      ghost var m0 := M();
      var pml3 := GetNextLevel(cr3, va.i4, n);
      ghost var m1 := M();
      if pml3 == Missing {
        return Missing;
      }
      WalkShape(m1, va, n);
      var pml2 := GetNextLevel(pml3.frame, va.i3, n);
      ghost var m2 := M();
      ExtendsTwice(m0, m1, m2);
      assert At(m2, cr3, va.i4) == At(m1, cr3, va.i4);
      if pml2 == Missing {
        return Missing;
      }
      WalkShape(m2, va, n);
      pml1 := GetNextLevel(pml2.frame, va.i2, n);
      ExtendsTwice(m0, m2, M());
      assert At(M(), cr3, va.i4) == At(m2, cr3, va.i4) && At(M(), pml3.frame, va.i3) == At(m2, pml3.frame, va.i3);
    }

    /** The write of a last-level entry. */
    method Write(va: Va, pml1: nat, entry: Entry, ghost n: nat)
      requires Valid(n) && Good(va) && Pml1(M(), va) == To(pml1) && (entry.present || entry == ZERO)
      modifies this`tables
      ensures Valid(n) && KeepsUpper(old(M()), M())
      ensures Wrote(old(M()), M(), va, entry, n)
    {
      ghost var m := M();
      WalkShape(m, va, n);
      PokeInv(m, pml1, va.i1, entry, n);
      forall vb | Good(vb)
        ensures Leaf(Poke(m, pml1, va.i1, entry), vb) == if Same(va, vb, n) then entry else Leaf(m, vb)
      {
        PokeLeaf(m, va, entry, n, vb);
      }
      PokeKeeps(m, pml1, va.i1, entry);
      tables := tables[pml1 := tables[pml1][va.i1 := entry]];
    }

    /** virt_map_page: on success exactly the page and its shadow twin have the new entry, which leads where the caller
        asked for; on failure nothing changed. */
    method MapPage(phys: nat, virt: nat, flags: nat, ghost n: nat) returns (ok: bool)
      requires Valid(n)
      modifies this`tables, this`level, this`pool
      ensures Valid(n) && KeepsUpper(old(M()), M()) && |pool| + 3 >= |old(pool)|
      ensures Tried(old(M()), M(), Split(virt), PageEntry(phys, flags), n, ok) && (!ok ==> |old(pool)| < 3)
      ensures ok ==> MapsTo(Leaf(M(), Split(virt)), phys, flags)
    {
      ok := Map(phys, virt, flags, n);
      PageEntryMeans(phys, flags);
    }

    /** The statements of virt_map_page. */
    method Map(phys: nat, virt: nat, flags: nat, ghost n: nat) returns (ok: bool)
      requires Valid(n)
      modifies this`tables, this`level, this`pool
      ensures Valid(n) && KeepsUpper(old(M()), M()) && |pool| + 3 >= |old(pool)|
      ensures Tried(old(M()), M(), Split(virt), PageEntry(phys, flags), n, ok) && (!ok ==> |old(pool)| < 3)
    {
      var va := Split(virt);
      var pml1 := Reach(va, n);
      if pml1 == Missing {
        return false;
      }
      ghost var m1 := M();
      Write(va, pml1.frame, PageEntry(phys, flags), n);
      ExtendsWrote(old(M()), m1, M(), va, PageEntry(phys, flags), n);
      KeepsTwice(old(M()), m1, M());
      return true;
    }

    /** virt_is_mapped changes no address, and answers exactly, even when tables cannot be built. */
    method IsMapped(virt: nat, ghost n: nat) returns (mapped: bool)
      requires Valid(n)
      modifies this`tables, this`level, this`pool
      ensures Valid(n) && Extends(old(M()), M())
      ensures mapped <==> Leaf(old(M()), Split(virt)).present
    {
      var pml1 := Reach(Split(virt), n);
      if pml1 == Missing {
        return false;
      }
      WalkShape(M(), Split(virt), n);
      return tables[pml1.frame][Split(virt).i1].present;
    }

    /** virt_map_range: page by page, up to the first page whose tables cannot be built. */
    method MapRange(phys: nat, virt: nat, count: nat, flags: nat, ghost n: nat) returns (ok: bool, ghost done: nat)
      requires Valid(n)
      modifies this`tables, this`level, this`pool
      ensures Valid(n) && KeepsUpper(old(M()), M())
      ensures done <= count && (ok <==> done == count) && (|old(pool)| >= 3 * count ==> ok)
      ensures RangeMapped(old(M()), M(), phys, virt, done, flags, n)
    {
      ghost var m := M();
      done := 0;
      for i := 0 to count
        invariant done == i && Valid(n) && KeepsUpper(m, M()) && |pool| + 3 * i >= |old(pool)|
        invariant RangeMapped(m, M(), phys, virt, i, flags, n)
      {
        ghost var m1 := M();
        var mapped := Map(phys + i * 0x1000, virt + i * 0x1000, flags, n);
        KeepsTwice(m, m1, M());
        RangeStep(m, m1, M(), phys, virt, i, flags, n, mapped);
        if !mapped {
          return false, i;
        }
        done := i + 1;
      }
      return true, count;
    }

    /** virt_alloc_range: every page of the range gets a frame of its own. A page that is mapped already and memory that
        runs out are errors; what then becomes of the pages before is the business of Undo. */
    method AllocRange(virt: nat, count: nat, ghost n: nat)
      returns (r: AllocResult, frames: seq<nat>, freed: seq<nat>, ghost mid: Mem)
      requires Valid(n)
      modifies this`tables, this`level, this`pool
      ensures Valid(n) && Allotted(old(M()), mid, virt, frames, n)
      ensures NoDup(frames) && forall f :: f in frames ==> f in old(pool)
      ensures if r == Allocated then |frames| == count && M() == mid
              else |frames| < count && Undone(mid, M(), virt, |frames|, r, freed, n)
      ensures r != Allocated ==> |old(pool)| < 4 * count || Occupied(old(M()), virt, |frames|, n)
    {
      var ok;
      ok, frames := AllocPages(virt, count, n);
      mid := M();
      if ok {
        return Allocated, frames, [], mid;
      }
      r, freed := Undo(virt, |frames|, n);
    }

    /** The loop of virt_alloc_range. */
    method AllocPages(virt: nat, count: nat, ghost n: nat) returns (ok: bool, frames: seq<nat>)
      requires Valid(n)
      modifies this`tables, this`level, this`pool
      ensures Valid(n) && Allotted(old(M()), M(), virt, frames, n) && Drawn(old(pool), pool, frames)
      ensures if ok then |frames| == count
              else |frames| < count && (|old(pool)| < 4 * count || Occupied(old(M()), virt, |frames|, n))
    {
      frames := [];
      ghost var m, pool0 := M(), pool;
      AllottedNone(m, virt, n);
      for i := 0 to count
        invariant |frames| == i && Valid(n) && Begun(m, M(), pool0, pool, virt, frames, n)
      {
        ghost var m1, pool1 := M(), pool;
        var f := AllocPage(Nth(virt, |frames|), n);
        BegunStep(m, m1, M(), pool0, pool1, pool, virt, frames, f, n);
        if f == Missing {
          return false, frames;
        }
        frames := frames + [f.frame];
      }
      return true, frames;
    }

    /** A round of virt_alloc_range. */
    method AllocPage(va: Va, ghost n: nat) returns (f: Link)
      requires Valid(n) && Good(va)
      modifies this`tables, this`level, this`pool
      ensures Valid(n) && AllottedBy(old(M()), M(), va, f, n) && DrawnBy(old(pool), pool, f)
      ensures f == Missing && |old(pool)| >= 4 ==> Leaf(old(M()), va).present
    {
      if pool == [] {
        return Missing;
      }
      var phys := pool[0];
      ghost var m := M();
      TakeFrame(n);
      var pml1 := Reach(va, n);
      if pml1 == Missing {
        return Missing;
      }
      WalkShape(M(), va, n);
      if tables[pml1.frame][va.i1].present {
        return Missing;
      }
      ghost var m1 := M();
      Write(va, pml1.frame, Fresh(phys), n);
      ExtendsWrote(m, m1, M(), va, Fresh(phys), n);
      return To(phys);
    }

    /** phys_alloc of one page. */
    method TakeFrame(ghost n: nat)
      requires Valid(n) && pool != []
      modifies this`pool
      ensures Valid(n) && pool == old(pool)[1..]
    {
      assert forall f :: f in pool[1..] ==> f in pool;
      pool := pool[1..];
    }

    /** The error path of virt_alloc_range. The loop means to take the pages before the i-th back, but every round
        looks at the i-th: it hangs if the tables for that page cannot be had, trips over the assertion if the page is
        not mapped, and otherwise unmaps and frees a page that was not its own. */
    method Undo(virt: nat, i: nat, ghost n: nat) returns (r: AllocResult, freed: seq<nat>)
      requires Valid(n)
      modifies this`tables, this`level, this`pool
      ensures Valid(n) && Undone(old(M()), M(), virt, i, r, freed, n)
    {
      freed := [];
      ghost var m := M();
      var va := Split(virt + i * 0x1000);
      for j := 0 to i
        invariant Valid(n) && j <= 1 && |freed| == j && UndoneBy(m, M(), va, freed, n)
      {
        ghost var m1 := M();
        var taken := TakeBack(va, n);
        UndoneStep(m, m1, M(), va, freed, taken, n);
        match taken {
          case NoTables => return Hangs, freed;
          case NotMapped => return AssertFails, freed;
          case Took(frame) => freed := freed + [frame];
        }
      }
      return Failed, freed;
    }

    /** A round of the error path. */
    method TakeBack(va: Va, ghost n: nat) returns (taken: Taken)
      requires Valid(n) && Good(va)
      modifies this`tables, this`level, this`pool
      ensures Valid(n) && TakenBack(old(M()), M(), va, taken, n)
    {
      var pml1 := Reach(va, n);
      if pml1 == Missing {
        return NoTables;
      }
      WalkShape(M(), va, n);
      var entry := tables[pml1.frame][va.i1];
      if !entry.present {
        return NotMapped;
      }
      ghost var m1 := M();
      Write(va, pml1.frame, ZERO, n);
      ExtendsWrote(old(M()), m1, M(), va, ZERO, n);
      return Took(entry.frame);
    }

    /** virt_remap_range: sets the permissions of pages that are mapped, up to the first that is not (or cannot be
        reached); frames stay. */
    method RemapRange(virt: nat, count: nat, flags: nat, ghost n: nat) returns (ok: bool, ghost done: nat)
      requires Valid(n)
      modifies this`tables, this`level, this`pool
      ensures Valid(n) && KeepsUpper(old(M()), M())
      ensures done <= count && (ok <==> done == count)
      ensures AllPresent(old(M()), virt, done)
      ensures done < count && |old(pool)| >= 3 * count ==> !Leaf(old(M()), Nth(virt, done)).present
      ensures Remapped(old(M()), M(), virt, done, flags, n)
      ensures forall i :: 0 <= i < done ==> Reallowed(old(M()), M(), Nth(virt, i), flags)
    {
      ghost var m := M();
      done := 0;
      for i := 0 to count
        invariant done == i && Valid(n) && KeepsUpper(m, M())
        invariant |pool| + 3 * i >= |old(pool)|
        invariant AllPresent(m, virt, i)
        invariant Remapped(m, M(), virt, i, flags, n)
      {
        ghost var m1 := M();
        var fits := Remap(virt + i * 0x1000, flags, n);
        KeepsTwice(m, m1, M());
        RemapStep(m, m1, M(), virt, i, flags, n, fits);
        if !fits {
          AllReallowed(m, M(), virt, i, flags, n);
          return false, i;
        }
        done := i + 1;
      }
      AllReallowed(m, M(), virt, count, flags, n);
      return true, count;
    }

    /** A round of virt_remap_range. */
    method Remap(virt: nat, flags: nat, ghost n: nat) returns (ok: bool)
      requires Valid(n)
      modifies this`tables, this`level, this`pool
      ensures Valid(n) && KeepsUpper(old(M()), M()) && |pool| + 3 >= |old(pool)|
      ensures !ok ==> Extends(old(M()), M()) && (|old(pool)| >= 3 ==> !Leaf(old(M()), Split(virt)).present)
      ensures ok ==> Leaf(old(M()), Split(virt)).present
      ensures ok ==> Remapped1(old(M()), M(), Split(virt), flags, n)
    {
      var va := Split(virt);
      var pml1 := Reach(va, n);
      if pml1 == Missing {
        return false;
      }
      ghost var m1 := M();
      WalkShape(m1, va, n);
      var entry := tables[pml1.frame][va.i1];
      if !entry.present {
        return false;
      }
      Write(va, pml1.frame, entry.(writeable := flags % 2 == 1, noExecute := flags / 2 % 2 == 0), n);
      KeepsTwice(old(M()), m1, M());
      forall vb | Good(vb) && Same(va, vb, n) ensures Leaf(m1, vb) == entry { PairPath(m1, va, vb, n); }
      return true;
    }

    /** A round of the shadow set-up in init_virt, for the i-th top-level slot. */
    method ShadowSlot(i: nat) returns (ok: bool)
      requires Valid(i) && i < SHADOW_COUNT && Shadowed(M(), i) && NoShadowFrom(M(), i)
      modifies this`tables, this`level, this`pool
      ensures !ok ==> Valid(i) && old(pool) == pool == [] && M() == old(M())
      ensures |pool| + 1 >= |old(pool)|
      ensures ok ==> Valid(i + 1) && Shadowed(M(), i + 1) && NoShadowFrom(M(), i + 1)
      ensures ok ==> forall va :: Good(va) ==> Leaf(M(), va) == ShadowLeaf(old(M()), i, va)
    {
      var virt := DIRECT_MAP + i * SLOT;
      SlotIndex(i);
      var at, shadow := Split(virt).i4, Split(virt + SHADOW_COUNT * SLOT).i4;
      ok := TopEntry(at, i);
      if !ok {
        return;
      }
      ghost var m := M();
      var top := tables[cr3][at];
      if GC_HEAP <= virt < GC_HEAP_END {
        top := top.(writeable := false);
      }
      AliasStep(m, i);
      tables := tables[cr3 := tables[cr3][shadow := top]];
      assert M() == Alias(m, at);
    }

    /** The top-level entry is built, not executable, if it is missing. */
    method TopEntry(at: nat, ghost i: nat) returns (ok: bool)
      requires Valid(i) && i < SHADOW_COUNT && Shadowed(M(), i) && NoShadowFrom(M(), i) && at == SHADOW_FROM + i
      modifies this`tables, this`level, this`pool
      ensures Valid(i) && Shadowed(M(), i) && NoShadowFrom(M(), i)
      ensures (!ok ==> old(pool) == pool == [] && M() == old(M())) && |pool| + 1 >= |old(pool)|
      ensures ok ==> Extends(old(M()), M()) && At(M(), cr3, at).present
      ensures ok && !old(At(M(), cr3, at)).present ==>
                old(pool) != [] && At(M(), cr3, at) == Entry(true, true, true, old(pool)[0])
    {
      if !tables[cr3][at].present {
        if pool == [] {
          return false;
        }
        ghost var m := M();
        var built := BuildTable(cr3, at, Entry(true, true, true, pool[0]), i);
        BuildTop(m, at, built.frame, built, i);
      }
      return true;
    }

    /** The shadow set-up of init_virt: afterwards the first 16TB have their shadow. */
    method InitShadow() returns (ok: bool)
      requires Valid(0) && NoShadowFrom(M(), 0)
      modifies this`tables, this`level, this`pool
      ensures ok ==> Valid(SHADOW_COUNT) && Shadowed(M(), SHADOW_COUNT)
      ensures |old(pool)| >= SHADOW_COUNT ==> ok
    {
      for i := 0 to SHADOW_COUNT
        invariant |pool| + i >= |old(pool)|
        invariant Valid(i) && Shadowed(M(), i) && NoShadowFrom(M(), i)
      {
        ok := ShadowSlot(i);
        if !ok {
          return;
        }
      }
      return true;
    }

    /** virt_handle_page_fault: serves exactly the areas meant for it, given memory for a page and three tables. */
    method HandlePageFault(addr: nat, ghost n: nat) returns (ok: bool)
      requires Valid(n)
      modifies this`tables, this`level, this`pool
      ensures Valid(n) && KeepsUpper(old(M()), M())
      ensures !ok ==> Extends(old(M()), M())
      ensures ok ==> Served(addr) && FaultMapped(old(M()), M(), addr, if old(pool) == [] then 0 else old(pool)[0], n)
      ensures ok ==> Allows(Leaf(M(), Split(addr)), 1) && LeadsTo(Leaf(M(), Split(addr)), FaultPhys(addr, old(pool)))
      ensures Served(addr) && |old(pool)| >= 4 ==> ok
      ensures GuardsClear(old(M())) ==> GuardsClear(M())
    {
      PageBase(addr);
      if Lazy(addr) {
      } else if InStacks(addr) {
        if !(addr - addr % STACK_SIZE + STACK_GUARD <= addr) {
          return false;
        }
      } else if InSmallStacks(addr) {
        if !(addr - addr % SMALL_SIZE + SMALL_GUARD <= addr) {
          return false;
        }
      } else if InDirectMap(addr) {
        ok := Map(addr - DIRECT_MAP, addr - addr % 0x1000, 1, n);
        FaultGuards(old(M()), M(), addr, addr - addr % 0x1000, addr - DIRECT_MAP, n, ok);
        if ok {
          FaultMeans(old(M()), M(), addr, old(pool), n);
        }
        return;
      } else {
        return false;
      }
      ok := ServeFault(addr, n);
      if ok {
        FaultMeans(old(M()), M(), addr, old(pool), n);
      }
    }

    /** A fresh page for the fault. */
    method ServeFault(addr: nat, ghost n: nat) returns (ok: bool)
      requires Valid(n) && Served(addr) && !InDirectMap(addr) && Split(addr - addr % 0x1000) == Split(addr)
      modifies this`tables, this`level, this`pool
      ensures Valid(n) && KeepsUpper(old(M()), M())
      ensures !ok ==> Extends(old(M()), M()) && |old(pool)| < 4
      ensures ok ==> FaultMapped(old(M()), M(), addr, if old(pool) == [] then 0 else old(pool)[0], n)
      ensures GuardsClear(old(M())) ==> GuardsClear(M())
    {
      if pool == [] {
        return false;
      }
      var page := pool[0];
      ghost var m := M();
      TakeFrame(n);
      ok := Map(page * 0x1000, addr - addr % 0x1000, 1, n);
      FaultGuards(m, M(), addr, addr - addr % 0x1000, page * 0x1000, n, ok);
    }
  }

  lemma SpareAfter(pool: seq<nat>, m: Mem, t: nat, i: nat, entry: Entry)
    requires Spare(pool, m) && pool != [] && Upper(m, t, i)
    ensures Spare(pool[1..], Build(m, t, i, pool[0], entry))
  {
    assert forall f :: f in pool[1..] ==> f in pool && f != pool[0];
  }

  lemma BuildKeeps(m: Mem, t: nat, i: nat, f: nat, entry: Entry)
    requires Buildable(m, t, i, f, entry)
    ensures KeepsUpper(m, Build(m, t, i, f, entry))
  {
    forall u: nat, j: nat ensures At(Build(m, t, i, f, entry), u, j) == if u == t && j == i then entry else At(m, u, j) {
      BuildAt(m, t, i, f, entry, u, j);
    }
  }

  lemma BuildExtends(m: Mem, t: nat, i: nat, f: nat, entry: Entry, n: nat)
    requires Inv(m, n) && Buildable(m, t, i, f, entry)
    ensures var m' := Build(m, t, i, f, entry);
            Inv(m', n) && Extends(m, m') && Upper(m', t, i) && At(m', t, i) == entry
  {
    BuildInv(m, t, i, f, entry, n);
    forall va | Good(va) ensures Leaf(Build(m, t, i, f, entry), va) == Leaf(m, va) {
      BuildLeaf(m, t, i, f, entry, n, va);
    }
    BuildKeeps(m, t, i, f, entry);
    BuildAt(m, t, i, f, entry, t, i);
  }

  lemma PokeKeeps(m: Mem, t: nat, i: nat, entry: Entry)
    requires IsTable(m, t) && i < 512 && m.level[t] == 1
    ensures KeepsUpper(m, Poke(m, t, i, entry))
  {
  }

  lemma KeepsTwice(m: Mem, m1: Mem, m2: Mem)
    requires KeepsUpper(m, m1) && KeepsUpper(m1, m2)
    ensures KeepsUpper(m, m2)
  {
  }

  /** The i-th page of a range. */
  function Nth(virt: nat, i: nat): Va { Split(virt + i * 0x1000) }

  /** The flat map after k pages of a range have been mapped. */
  ghost function RangeLeaf(m: Mem, phys: nat, virt: nat, k: nat, flags: nat, n: nat, vb: Va): Entry {
    if k == 0 then Leaf(m, vb)
    else if Same(Nth(virt, k - 1), vb, n) then PageEntry(phys + (k - 1) * 0x1000, flags)
    else RangeLeaf(m, phys, virt, k - 1, flags, n, vb)
  }

  /** The first k pages of a range have been mapped. */
  ghost predicate RangeMapped(m: Mem, m': Mem, phys: nat, virt: nat, k: nat, flags: nat, n: nat) {
    var mapped := forall vb :: Good(vb) ==> Leaf(m', vb) == RangeLeaf(m, phys, virt, k, flags, n, vb);
    mapped
  }

  lemma RangeStep(m: Mem, m1: Mem, m2: Mem, phys: nat, virt: nat, i: nat, flags: nat, n: nat, ok: bool)
    requires RangeMapped(m, m1, phys, virt, i, flags, n)
    requires Tried(m1, m2, Split(virt + i * 0x1000), PageEntry(phys + i * 0x1000, flags), n, ok)
    ensures RangeMapped(m, m2, phys, virt, if ok then i + 1 else i, flags, n)
  {
  }

  /** Outside the range nothing changes. */
  lemma {:induction false} RangeMiss(m: Mem, phys: nat, virt: nat, k: nat, flags: nat, n: nat, vb: Va)
    requires !Hit(virt, k, n, vb)
    ensures RangeLeaf(m, phys, virt, k, flags, n, vb) == Leaf(m, vb)
    decreases k
  {
    if k > 0 {
      assert !Same(Nth(virt, k - 1), vb, n);
      RangeMiss(m, phys, virt, k - 1, flags, n, vb);
    }
  }

  /** The last page of the range that an address belongs to decides. */
  lemma {:induction false} RangeLast(m: Mem, phys: nat, virt: nat, k: nat, flags: nat, n: nat, vb: Va, i: nat)
    requires i < k && Same(Nth(virt, i), vb, n) && forall j :: i < j < k ==> !Same(Nth(virt, j), vb, n)
    ensures RangeLeaf(m, phys, virt, k, flags, n, vb) == PageEntry(phys + i * 0x1000, flags)
    ensures MapsTo(RangeLeaf(m, phys, virt, k, flags, n, vb), phys + i * 0x1000, flags)
    decreases k
  {
    PageEntryMeans(phys + i * 0x1000, flags);
    if i < k - 1 {
      RangeLast(m, phys, virt, k - 1, flags, n, vb, i);
    }
  }

  /** An address is one of the first k pages of a range, or a shadow twin of one. */
  ghost predicate Hit(virt: nat, k: nat, n: nat, vb: Va) {
    exists i :: 0 <= i < k && Same(Nth(virt, i), vb, n)
  }

  function Permit(e: Entry, flags: nat): Entry {
    e.(writeable := flags % 2 == 1, noExecute := flags / 2 % 2 == 0)
  }

  /** Exactly the first k pages of the range, and their twins, have the given permissions now. */
  ghost predicate Remapped(m: Mem, m': Mem, virt: nat, k: nat, flags: nat, n: nat) {
    var remapped := forall vb :: Good(vb) ==>
                                   Leaf(m', vb) == if Hit(virt, k, n, vb) then Permit(Leaf(m, vb), flags) else Leaf(m, vb);
    remapped
  }

  /** Exactly one page and its twin have the given permissions now. */
  ghost predicate Remapped1(m: Mem, m': Mem, va: Va, flags: nat, n: nat) {
    var remapped := forall vb :: Good(vb) ==>
                                   Leaf(m', vb) == if Same(va, vb, n) then Permit(Leaf(m, vb), flags) else Leaf(m, vb);
    remapped
  }

  /** The page has the rights asked for and the frame it had. */
  predicate Reallowed(m: Mem, m': Mem, va: Va, flags: nat) {
    && (Leaf(m, va).present ==> Allows(Leaf(m', va), flags)) && Leaf(m', va).frame == Leaf(m, va).frame
  }

  lemma AllReallowed(m: Mem, m': Mem, virt: nat, k: nat, flags: nat, n: nat)
    requires Remapped(m, m', virt, k, flags, n)
    ensures forall i :: 0 <= i < k ==> Reallowed(m, m', Nth(virt, i), flags)
  {
    forall i | 0 <= i < k ensures Reallowed(m, m', Nth(virt, i), flags) {
      HitItself(virt, k, n, i);
      PermitMeans(Leaf(m, Nth(virt, i)), flags);
    }
  }

  lemma HitItself(virt: nat, k: nat, n: nat, i: nat)
    requires i < k
    ensures Good(Nth(virt, i)) && Hit(virt, k, n, Nth(virt, i))
  {
    assert Same(Nth(virt, i), Nth(virt, i), n);
  }

  lemma PermitMeans(e: Entry, flags: nat)
    ensures (e.present ==> Allows(Permit(e, flags), flags)) && Permit(e, flags).frame == e.frame
  {
  }

  ghost predicate AllPresent(m: Mem, virt: nat, k: nat) {
    var present := forall i :: 0 <= i < k ==> Leaf(m, Nth(virt, i)).present;
    present
  }

  // ---- ranges with frames of their own ----

  datatype AllocResult = Allocated | Failed | AssertFails | Hangs

  /** What a page with the frame looks like: writeable, not executable. */
  function Fresh(f: nat): Entry { Entry(true, true, true, f) }

  /** The pages of the range, which were not mapped, have the given frames, writeable and not executable; nothing else
      has changed. */
  ghost predicate Allotted(m: Mem, m': Mem, virt: nat, frames: seq<nat>, n: nat) {
    var allotted :=
      && (forall i :: 0 <= i < |frames| ==> OwnFrame(m, m', Nth(virt, i), frames[i]))
      && (forall vb :: Good(vb) && !Hit(virt, |frames|, n, vb) ==> Leaf(m', vb) == Leaf(m, vb));
    allotted
  }

  predicate OwnFrame(m: Mem, m': Mem, va: Va, f: nat) {
    var e := Leaf(m', va);
    !Leaf(m, va).present && e.present && e.writeable && e.noExecute && e.frame == f
  }

  lemma AllottedNone(m: Mem, virt: nat, n: nat)
    ensures Allotted(m, m, virt, [], n)
  {
  }

  /** A round has given the page a frame, or has changed no address. */
  ghost predicate AllottedBy(m: Mem, m': Mem, va: Va, f: Link, n: nat) {
    var given := if f.To? then Inv(m, n) && !Leaf(m, va).present && Wrote(m, m', va, Fresh(f.frame), n) else Extends(m, m');
    given
  }

  /** The i-th page was mapped already, or is one of the pages before over again. */
  ghost predicate Occupied(m: Mem, virt: nat, i: nat, n: nat) {
    Leaf(m, Nth(virt, i)).present || Hit(virt, i, n, Nth(virt, i))
  }

  lemma AllottedStep(m: Mem, m1: Mem, m2: Mem, virt: nat, frames: seq<nat>, f: Link, n: nat)
    requires Allotted(m, m1, virt, frames, n) && AllottedBy(m1, m2, Nth(virt, |frames|), f, n)
    ensures Allotted(m, m2, virt, if f.To? then frames + [f.frame] else frames, n)
    ensures Leaf(m1, Nth(virt, |frames|)).present ==> Occupied(m, virt, |frames|, n)
  {
    assert Good(Nth(virt, |frames|));
    if f.To? {
      AllottedMore(m, m1, m2, virt, frames, f.frame, n);
    } else {
      forall i | 0 <= i < |frames| ensures OwnFrame(m, m2, Nth(virt, i), frames[i]) {
        assert OwnFrame(m, m1, Nth(virt, i), frames[i]) && Good(Nth(virt, i));
      }
    }
  }

  /** The next page was unmapped, so it is no other page of the range, and was unmapped from the start. */
  lemma AllottedMore(m: Mem, m1: Mem, m2: Mem, virt: nat, frames: seq<nat>, f: nat, n: nat)
    requires Inv(m1, n) && Allotted(m, m1, virt, frames, n) && Wrote(m1, m2, Nth(virt, |frames|), Fresh(f), n)
    requires !Leaf(m1, Nth(virt, |frames|)).present
    ensures Allotted(m, m2, virt, frames + [f], n)
  {
    var k := |frames|;
    forall i | 0 <= i < k ensures !Same(Nth(virt, k), Nth(virt, i), n) {
      assert OwnFrame(m, m1, Nth(virt, i), frames[i]);
      if Same(Nth(virt, k), Nth(virt, i), n) {
        PairPath(m1, Nth(virt, k), Nth(virt, i), n);
      }
    }
    forall i | 0 <= i < k + 1 ensures OwnFrame(m, m2, Nth(virt, i), (frames + [f])[i]) {
      assert Good(Nth(virt, i));
      assert i < k ==> OwnFrame(m, m1, Nth(virt, i), frames[i]);
    }
    forall vb | Good(vb) && !Hit(virt, k + 1, n, vb) ensures Leaf(m2, vb) == Leaf(m, vb) {
      assert !Same(Nth(virt, k), vb, n);
      assert !Hit(virt, k, n, vb);
    }
  }

  /** The frames taken so far are different ones of the old pool, and gone from it. */
  ghost predicate Drawn(pool: seq<nat>, pool': seq<nat>, frames: seq<nat>) {
    var drawn := && NoDup(frames) && (forall f :: f in frames ==> f in pool && f !in pool')
                 && (forall f :: f in pool' ==> f in pool);
    drawn
  }

  /** A round has taken the first frame of the pool, and perhaps others. */
  ghost predicate DrawnBy(pool: seq<nat>, pool': seq<nat>, f: Link) {
    var given := && NoDup(pool) && |pool'| + 4 >= |pool| && (pool == [] ==> f == Missing)
              && (forall g :: g in pool' ==> g in pool)
              && (f.To? ==> f.frame == pool[0] && forall g :: g in pool' ==> g in pool[1..]);
    given
  }

  lemma DrawnStep(pool: seq<nat>, pool1: seq<nat>, pool2: seq<nat>, frames: seq<nat>, f: Link)
    requires Drawn(pool, pool1, frames) && DrawnBy(pool1, pool2, f)
    ensures Drawn(pool, pool2, if f.To? then frames + [f.frame] else frames)
  {
    if f.To? {
      assert f.frame in pool1 && forall g :: g in pool1[1..] ==> g in pool1 && g != f.frame;
    }
  }

  /** Some pages have their frames, each of which has cost three tables at most. */
  ghost predicate Begun(m: Mem, m': Mem, pool: seq<nat>, pool': seq<nat>, virt: nat, frames: seq<nat>, n: nat) {
    var begun := Allotted(m, m', virt, frames, n) && Drawn(pool, pool', frames) && |pool'| + 4 * |frames| >= |pool|;
    begun
  }

  lemma BegunStep(m: Mem, m1: Mem, m2: Mem, pool: seq<nat>, pool1: seq<nat>, pool2: seq<nat>, virt: nat,
                  frames: seq<nat>, f: Link, n: nat)
    requires Begun(m, m1, pool, pool1, virt, frames, n)
    requires AllottedBy(m1, m2, Nth(virt, |frames|), f, n) && DrawnBy(pool1, pool2, f)
    requires f == Missing && |pool1| >= 4 ==> Leaf(m1, Nth(virt, |frames|)).present
    ensures f.To? ==> Begun(m, m2, pool, pool2, virt, frames + [f.frame], n)
    ensures f == Missing ==> Allotted(m, m2, virt, frames, n) && Drawn(pool, pool2, frames)
    ensures f == Missing ==> |pool| < 4 * (|frames| + 1) || Occupied(m, virt, |frames|, n)
  {
    AllottedStep(m, m1, m2, virt, frames, f, n);
    DrawnStep(pool, pool1, pool2, frames, f);
  }

  /** At most the address and its twin have been unmapped. */
  ghost predicate UndoneBy(m: Mem, m': Mem, va: Va, freed: seq<nat>, n: nat) {
    var undone := if freed == [] then forall vb :: Good(vb) ==> Leaf(m', vb) == Leaf(m, vb)
                  else && |freed| == 1 && Leaf(m, va).present && freed[0] == Leaf(m, va).frame
                       && Wrote(m, m', va, ZERO, n);
    undone
  }

  datatype Taken = NoTables | NotMapped | Took(frame: nat)

  /** A round of the error path has unmapped a page, or has changed no address because it was not mapped. */
  ghost predicate TakenBack(m: Mem, m': Mem, va: Va, taken: Taken, n: nat) {
    if taken.Took?
    then Leaf(m, va).present && taken.frame == Leaf(m, va).frame && Wrote(m, m', va, ZERO, n)
    else !Leaf(m, va).present && Extends(m, m')
  }

  lemma UndoneStep(m: Mem, m1: Mem, m2: Mem, va: Va, freed: seq<nat>, taken: Taken, n: nat)
    requires Good(va) && UndoneBy(m, m1, va, freed, n) && TakenBack(m1, m2, va, taken, n)
    ensures UndoneBy(m, m2, va, if taken.Took? then freed + [taken.frame] else freed, n)
    ensures freed == [] ==> (taken.Took? <==> Leaf(m, va).present)
    ensures freed != [] ==> !taken.Took?
  {
  }

  /** What the error path has done when it gave up at the i-th page: it comes to an end only if that page is the
      first, or the second and mapped by someone else, who then loses it. */
  ghost predicate Undone(m: Mem, m': Mem, virt: nat, i: nat, r: AllocResult, freed: seq<nat>, n: nat) {
    && r != Allocated && UndoneBy(m, m', Nth(virt, i), freed, n)
    && (i == 0 ==> r == Failed && freed == [])
    && (r == Failed <==> i == 0 || (i == 1 && Leaf(m, Nth(virt, i)).present))
  }

  lemma RemapStep(m: Mem, m1: Mem, m2: Mem, virt: nat, i: nat, flags: nat, n: nat, fits: bool)
    requires Remapped(m, m1, virt, i, flags, n)
    requires if fits then Remapped1(m1, m2, Nth(virt, i), flags, n) else Extends(m1, m2)
    ensures Remapped(m, m2, virt, if fits then i + 1 else i, flags, n)
    ensures Leaf(m1, Nth(virt, i)).present == Leaf(m, Nth(virt, i)).present
    ensures AllPresent(m, virt, i) && Leaf(m1, Nth(virt, i)).present ==> AllPresent(m, virt, i + 1)
  {
    if fits {
      forall vb ensures Hit(virt, i + 1, n, vb) <==> Hit(virt, i, n, vb) || Same(Nth(virt, i), vb, n) {
        if Hit(virt, i + 1, n, vb) {
          var j :| 0 <= j < i + 1 && Same(Nth(virt, j), vb, n);
        }
      }
    }
  }

  // ---- the shadow set-up ----

  /** The shadow slots from the i-th on are still empty. */
  ghost predicate NoShadowFrom(m: Mem, i: nat) {
    forall s: nat :: SHADOW_FROM + SHADOW_COUNT + i <= s < SHADOW_FROM + 2 * SHADOW_COUNT ==> !At(m, m.cr3, s).present
  }

  ghost function ShadowLeaf(m: Mem, i: nat, va: Va): Entry {
    if va.i4 == SHADOW_FROM + i + SHADOW_COUNT then Leaf(m, va.(i4 := SHADOW_FROM + i)) else Leaf(m, va)
  }

  lemma SlotIndex(i: nat)
    requires i < SHADOW_COUNT
    ensures var virt := DIRECT_MAP + i * SLOT;
            && Split(virt).i4 == SHADOW_FROM + i && Split(virt + SHADOW_COUNT * SLOT).i4 == SHADOW_FROM + i + SHADOW_COUNT
            && (GC_HEAP <= virt < GC_HEAP_END <==> GC_FROM <= SHADOW_FROM + i < GC_TO)
  {
    SlotRange(DIRECT_MAP + i * SLOT, 0x1FF_FF00 + i, 0x1FF_FF00 + i + 1);
    SlotRange(DIRECT_MAP + i * SLOT + SHADOW_COUNT * SLOT, 0x1FF_FF20 + i, 0x1FF_FF20 + i + 1);
  }

  lemma AliasStep(m: Mem, i: nat)
    requires Inv(m, i) && i < SHADOW_COUNT && Shadowed(m, i) && NoShadowFrom(m, i)
    requires At(m, m.cr3, SHADOW_FROM + i).present
    ensures var m' := Alias(m, SHADOW_FROM + i);
            && Inv(m', i + 1) && Shadowed(m', i + 1) && NoShadowFrom(m', i + 1)
            && forall va :: Good(va) ==> Leaf(m', va) == ShadowLeaf(m, i, va)
  {
    AliasInv(m, i);
    forall va | Good(va) ensures Leaf(Alias(m, SHADOW_FROM + i), va) == ShadowLeaf(m, i, va) { AliasLeaf(m, i, va); }
    var m' := Alias(m, SHADOW_FROM + i);
    forall s: nat | SHADOW_FROM + SHADOW_COUNT + i < s < SHADOW_FROM + 2 * SHADOW_COUNT ensures !At(m', m'.cr3, s).present {
      AliasAt(m, SHADOW_FROM + i, m.cr3, s);
    }
  }

  lemma BuildTop(m: Mem, at: nat, page: nat, built: Entry, i: nat)
    requires Inv(m, i) && i < SHADOW_COUNT && Shadowed(m, i) && NoShadowFrom(m, i) && at == SHADOW_FROM + i
    requires Buildable(m, m.cr3, at, page, built)
    ensures var m' := Build(m, m.cr3, at, page, built);
            Shadowed(m', i) && NoShadowFrom(m', i)
  {
    BuildKeeps(m, m.cr3, at, page, built);
    ShadowKept(m, Build(m, m.cr3, at, page, built), i);
    forall s: nat ensures At(Build(m, m.cr3, at, page, built), m.cr3, s) == if s == at then built else At(m, m.cr3, s) {
      BuildAt(m, m.cr3, at, page, built, m.cr3, s);
    }
  }

  // ---- page faults ----

  /** The fault's page, and its twin, are mapped writeable and not executable; nothing else has changed. */
  ghost predicate FaultMapped(m: Mem, m': Mem, addr: nat, page: nat, n: nat) {
    Wrote(m, m', Split(addr), PageEntry(if InDirectMap(addr) then addr - DIRECT_MAP else page * 0x1000, 1), n)
  }

  /** The physical address behind a fault: the direct map's own, or the first page of the pool. */
  function FaultPhys(addr: nat, pool: seq<nat>): nat {
    if 0xFFFF_8000_0000_0000 <= addr < 0xFFFF_8080_0000_0000 then addr - 0xFFFF_8000_0000_0000
    else if pool == [] then 0 else pool[0] % 0x100_0000_0000 * 0x1000
  }

  lemma FaultMeans(m: Mem, m': Mem, addr: nat, pool: seq<nat>, n: nat)
    requires FaultMapped(m, m', addr, if pool == [] then 0 else pool[0], n)
    ensures Allows(Leaf(m', Split(addr)), 1) && LeadsTo(Leaf(m', Split(addr)), FaultPhys(addr, pool))
  {
    var page := if pool == [] then 0 else pool[0];
    assert Good(Split(addr)) && Same(Split(addr), Split(addr), n);
    FrameOf(page);
    if InDirectMap(addr) {
      PageEntryMeans(addr - DIRECT_MAP, 1);
    } else {
      PageEntryMeans(page * 0x1000, 1);
    }
  }

  lemma FrameOf(page: nat)
    ensures PageEntry(page * 0x1000, 1).frame == page % 0x100_0000_0000
  {
    assert page * 0x1000 / 0x1000 == page;
  }

  /** No page of a guard zone is mapped. */
  ghost predicate GuardsClear(m: Mem) {
    var clear := forall g: nat :: InGuard(g) ==> !Leaf(m, Split(g)).present;
    clear
  }

  lemma FaultGuards(m: Mem, m': Mem, addr: nat, base: nat, phys: nat, n: nat, ok: bool)
    requires Served(addr) && n <= SHADOW_COUNT && Split(base) == Split(addr)
    requires Tried(m, m', Split(base), PageEntry(phys, 1), n, ok)
    ensures GuardsClear(m) ==> GuardsClear(m')
  {
    if GuardsClear(m) {
      forall g: nat | InGuard(g) ensures !Leaf(m', Split(g)).present {
        GuardsApart(addr, g, n);
        assert Good(Split(g));
      }
    }
  }

  lemma FaultStep(m: Mem, m': Mem, addr: nat, page: nat, n: nat, ok: bool)
    requires Served(addr) && n <= SHADOW_COUNT && (if ok then FaultMapped(m, m', addr, page, n) else Extends(m, m'))
    ensures GuardsClear(m) ==> GuardsClear(m')
  {
    FaultGuards(m, m', addr, addr, if InDirectMap(addr) then addr - DIRECT_MAP else page * 0x1000, n, ok);
  }

  /** Over every run of faults, whatever the addresses and whether or not memory is left, no guard page gets mapped. */
  lemma {:induction false} FaultRun(ms: seq<Mem>, addrs: seq<nat>, pages: seq<nat>, oks: seq<bool>, n: nat, k: nat)
    requires |ms| == |addrs| + 1 == |pages| + 1 == |oks| + 1 && n <= SHADOW_COUNT && k < |ms| && GuardsClear(ms[0])
    requires forall i :: 0 <= i < |addrs| ==>
               if oks[i] then Served(addrs[i]) && FaultMapped(ms[i], ms[i + 1], addrs[i], pages[i], n)
               else Extends(ms[i], ms[i + 1])
    ensures GuardsClear(ms[k])
  {
    if k > 0 {
      FaultRun(ms, addrs, pages, oks, n, k - 1);
      if oks[k - 1] {
        FaultStep(ms[k - 1], ms[k], addrs[k - 1], pages[k - 1], n, true);
      } else {
        forall g: nat | InGuard(g) ensures !Leaf(ms[k], Split(g)).present { assert Good(Split(g)); }
      }
    }
  }

  lemma PageBase(addr: nat)
    ensures Split(addr - addr % 0x1000) == Split(addr)
  {
    PageNumber(addr);
    PageNumber(addr - addr % 0x1000);
    assert (addr - addr % 0x1000) / 0x1000 == addr / 0x1000;
  }
}
