/** The areas of the kernel's memory map that kernel/mem/virt.c serves on demand, and the guard zones in them. */
module VirtZones {
  import opened Layout
  import opened VirtModel

  predicate InStacks(addr: nat) { STACKS <= addr < STACKS_END }
  predicate InSmallStacks(addr: nat) { SMALL_STACKS <= addr < SMALL_STACKS_END }
  predicate InDirectMap(addr: nat) { DIRECT_MAP <= addr < DIRECT_MAP + SLOT }

  predicate Lazy(addr: nat) {
    (THREADS <= addr < THREADS_END) || (GC_HEAP <= addr < GC_HEAP_END) || (HEAP <= addr < HEAP_END)
  }

  /** In the guard zone of a stack. */
  predicate InGuard(addr: nat) {
    (InStacks(addr) && addr % STACK_SIZE < STACK_GUARD) || (InSmallStacks(addr) && addr % SMALL_SIZE < SMALL_GUARD)
  }

  /** A fault here is answered with memory. */
  predicate Served(addr: nat) {
    Lazy(addr) || ((InStacks(addr) || InSmallStacks(addr)) && !InGuard(addr)) || InDirectMap(addr)
  }

  // ---- addresses as page numbers ----

  /** Page number and offset; the higher indices are digits of the page number. */
  lemma PageNumber(a: nat)
    ensures var p := a / 0x1000;
            Split(a) == Va(p / 0x800_0000 % 512, p / 0x4_0000 % 512, p / 0x200 % 512, p % 512)
  {
    var p, o := a / 0x1000, a % 0x1000;
    Shift(p, o, 0x200);
    Shift(p, o, 0x4_0000);
    Shift(p, o, 0x800_0000);
  }

  lemma Shift(p: nat, o: nat, k: nat)
    requires o < 0x1000 && (k == 8 || k == 0x200 || k == 0x800 || k == 0x4_0000 || k == 0x800_0000)
    ensures (0x1000 * p + o) / (0x1000 * k) == p / k
    ensures (0x1000 * p + o) % (0x1000 * k) == 0x1000 * (p % k) + o
  {
    var h, l := p / k, p % k;
    assert p == k * h + l;
    assert 0x1000 * p + o == (0x1000 * k) * h + (0x1000 * l + o);
  }

  lemma Digits(p: nat)
    ensures p % 0x800_0000 == p / 0x4_0000 % 512 * 0x4_0000 + p / 0x200 % 512 * 0x200 + p % 512
  {
    var p1 := p / 512;
    var p2 := p1 / 512;
    TwoDigits(p);
    var rest := p2 % 512 * 0x4_0000 + p1 % 512 * 0x200 + p % 512;
    assert p == 0x800_0000 * (p2 / 512) + rest;
    Remainder(p, p2 / 512, rest);
  }

  lemma TwoDigits(p: nat)
    ensures p / 0x4_0000 == p / 512 / 512
  {
  }

  lemma Remainder(p: nat, q: nat, r: nat)
    requires p == 0x800_0000 * q + r && r < 0x800_0000
    ensures p % 0x800_0000 == r
  {
  }

  /** Addresses with the same lower indices have page numbers that agree below the top-level slot. */
  lemma SameRest(a: nat, b: nat)
    requires Split(a).i3 == Split(b).i3 && Split(a).i2 == Split(b).i2 && Split(a).i1 == Split(b).i1
    ensures a / 0x1000 % 0x800_0000 == b / 0x1000 % 0x800_0000
  {
    PageNumber(a);
    PageNumber(b);
    Digits(a / 0x1000);
    Digits(b / 0x1000);
  }

  lemma SlotRange(addr: nat, lo: nat, hi: nat)
    requires SLOT * lo <= addr < SLOT * hi
    ensures lo <= addr / SLOT < hi
  {
  }

  /** An address of the kernel's half. */
  predicate High(addr: nat) { 0xFFFF_8000_0000_0000 <= addr < 0x1_0000_0000_0000_0000 }

  /** Which top-level slots the areas take up; none lies outside the kernel's half. */
  lemma ZoneSlots(addr: nat)
    ensures InStacks(addr) <==> High(addr) && Split(addr).i4 == 286
    ensures InSmallStacks(addr) <==> High(addr) && Split(addr).i4 == 287
    ensures InDirectMap(addr) <==> High(addr) && Split(addr).i4 == 256
    ensures Lazy(addr) <==>
            High(addr) && (258 <= Split(addr).i4 < 285 || Split(addr).i4 == 352 || 384 <= Split(addr).i4 < 416)
  {
    if High(addr) {
      HighSlot(addr);
    }
  }

  /** In the kernel's half the slot is the address above its start. */
  lemma HighSlot(addr: nat)
    requires High(addr)
    ensures var i4 := Split(addr).i4;
            256 <= i4 && 0xFFFF_8000_0000_0000 + SLOT * (i4 - 256) <= addr < 0xFFFF_8000_0000_0000 + SLOT * (i4 - 255)
  {
    var q := addr / 0x80_0000_0000;
    assert 0x1FF_FF00 <= q < 0x200_0000;
    assert q % 512 == q - 0x1FF_FE00;
  }

  /** What is served, by top-level slot and place in the stack. */
  lemma ServedExactly(addr: nat)
    ensures Served(addr) <==>
            && High(addr)
            && var i4 := Split(addr).i4;
               || i4 == 256 || 258 <= i4 < 285 || i4 == 352 || 384 <= i4 < 416
               || (i4 == 286 && addr % 0x80_0000 >= 0x20_0000) || (i4 == 287 && addr % 0x8000 >= 0x1000)
  {
    ZoneSlots(addr);
  }

  /** No page that is served shares its last-level entry with a page of a guard zone. */
  lemma GuardsApart(addr: nat, guard: nat, n: nat)
    requires Served(addr) && InGuard(guard) && n <= SHADOW_COUNT
    ensures !Same(Split(addr), Split(guard), n)
  {
    ZoneSlots(addr);
    ZoneSlots(guard);
    if Same(Split(addr), Split(guard), n) {
      SameRest(addr, guard);
      assert InStacks(guard) ==> InStacks(addr);
      assert InSmallStacks(guard) ==> InSmallStacks(addr);
      GuardByPage(addr, guard);
    }
  }

  /** Guard zones consist of whole pages. */
  lemma GuardByPage(a: nat, b: nat)
    requires a / 0x1000 % 0x800_0000 == b / 0x1000 % 0x800_0000
    ensures a % STACK_SIZE < STACK_GUARD <==> b % STACK_SIZE < STACK_GUARD
    ensures a % SMALL_SIZE < SMALL_GUARD <==> b % SMALL_SIZE < SMALL_GUARD
  {
    GuardPage(a);
    GuardPage(b);
  }

  lemma GuardPage(a: nat)
    ensures a % STACK_SIZE < STACK_GUARD <==> a / 0x1000 % 0x800_0000 % 0x800 < 0x200
    ensures a % SMALL_SIZE < SMALL_GUARD <==> a / 0x1000 % 0x800_0000 % 8 < 1
  {
    var p := a / 0x1000;
    Shift(p, a % 0x1000, 0x800);
    Shift(p, a % 0x1000, 8);
    LowBits(p);
  }

  lemma LowBits(p: nat)
    ensures p % 0x800_0000 % 0x800 == p % 0x800 && p % 0x800_0000 % 8 == p % 8
  {
    var q, r := p / 0x800_0000, p % 0x800_0000;
    Plus800(0x1_0000 * q, r);
    Plus8(0x100_0000 * q, r);
  }

  lemma Plus800(k: nat, r: nat)
    ensures (0x800 * k + r) % 0x800 == r % 0x800
  {
    var h := r / 0x800;
    assert 0x800 * k + r == 0x800 * (k + h) + r % 0x800;
  }

  lemma Plus8(k: nat, r: nat)
    ensures (8 * k + r) % 8 == r % 8
  {
  }

  // ---- thread stacks ----

  /** stack_start and stack_end of the thread with the given id. */
  function StackStart(id: nat): nat { STACKS + STACK_SIZE * id + STACK_GUARD }
  function StackEnd(id: nat): nat { STACKS + STACK_SIZE * id + STACK_SIZE }

  /** The stack of every thread id lies in the stack area; a fault anywhere in it is served, and none in the guard zone
      below it. */
  lemma StackServed(id: nat, addr: nat)
    requires id < 65535
    ensures STACKS < StackStart(id) < StackEnd(id) <= STACKS_END
    ensures StackStart(id) <= addr < StackEnd(id) ==> Served(addr)
    ensures StackStart(id) - STACK_GUARD <= addr < StackStart(id) ==> InGuard(addr) && !Served(addr)
  {
    if StackStart(id) - STACK_GUARD <= addr < StackEnd(id) {
      InSlot(id, addr);
    }
  }

  /** No two ids share an address, guard zones included. */
  lemma StacksApart(id: nat, other: nat, addr: nat)
    requires StackStart(id) - STACK_GUARD <= addr < StackEnd(id)
    requires StackStart(other) - STACK_GUARD <= addr < StackEnd(other)
    ensures id == other
  {
    InSlot(id, addr);
    InSlot(other, addr);
  }

  lemma InSlot(id: nat, addr: nat)
    requires StackStart(id) - STACK_GUARD <= addr < StackEnd(id)
    ensures addr % STACK_SIZE == addr - STACKS - STACK_SIZE * id
  {
    var r := addr - STACKS - STACK_SIZE * id;
    assert STACKS % STACK_SIZE == 0;
    assert addr == r + STACK_SIZE * (STACKS / STACK_SIZE + id);
  }

  /** Likewise for the small stacks, of which the lowest page is the guard. */
  lemma SmallStackServed(id: nat, addr: nat)
    requires id < 0x100_0000 && SMALL_STACKS + 0x8000 * id <= addr < SMALL_STACKS + 0x8000 * (id + 1)
    ensures Served(addr) <==> addr >= SMALL_STACKS + 0x8000 * id + 0x1000
    ensures !Served(addr) ==> InGuard(addr)
  {
    var r := addr - SMALL_STACKS - 0x8000 * id;
    assert SMALL_STACKS % 0x8000 == 0;
    assert addr == r + 0x8000 * (SMALL_STACKS / 0x8000 + id);
  }

  /** The structs of all thread ids lie in their area, for any size of them up to 8MB, and are served. */
  lemma ThreadServed(id: nat, size: nat, offset: nat)
    requires id < 65535 && offset < size <= 0x80_0000
    ensures Served(THREADS + size * id + offset)
  {
    Grows(size, 0x80_0000, id);
    InThreads(size * id, id, offset);
  }

  lemma Grows(x: nat, y: nat, k: nat)
    requires x <= y
    ensures x * k <= y * k
  {
  }

  lemma InThreads(start: nat, id: nat, offset: nat)
    requires id < 65535 && start <= 0x80_0000 * id && offset < 0x80_0000
    ensures Served(THREADS + start + offset)
  {
  }
}
