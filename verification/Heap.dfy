/** The size-class heap of kernel/mem/alloc.c. Memory is read and written in words of eight bytes. */
module Heap {
  import opened Arithmetic
  import opened Layout
  import opened Sequences

  const ORDERS: nat := 24

  /** The block size of an order: 8 bytes to 64MB. */
  function BlockSize(order: nat): nat { Shl(order + 3) }

  function Bottom(order: nat): nat { order * SLOT + HEAP }
  function Top(order: nat): nat { (order + 1) * SLOT + HEAP }

  // ---- size classes ----

  /** The order mem_alloc computes; a shift of 1 by up to 30 stays an int. */
  function OrderOf(size: nat): (order: nat)
    requires size <= 0x4000_0000
    ensures size <= BlockSize(order) && (order > 0 ==> BlockSize(order - 1) < size)
  {
    var size' := if size < 8 then 8 else size;
    RoundUp(size');
    AtLeastThree(size');
    BitLength(Shl(BitLength(size' - 1))) - 1 - 3
  }

  lemma AtLeastThree(size: nat)
    requires size >= 8
    ensures BitLength(size - 1) >= 3
  {
    var n := BitLength(size - 1);
    RoundUp(size);
    assert Shl(1) == 2 && Shl(2) == 4;
    if n < 3 {
      ShlBelow(n, 2);
    }
  }

  /** Block sizes divide the span of a region. */
  lemma {:induction false} SpanMultiple(order: nat)
    requires order < ORDERS
    ensures SLOT % BlockSize(order) == 0 && BlockSize(order) >= 8 && BlockSize(order) % 8 == 0
  {
    ShlSplit(order + 3, 39);
    ShlSplit(3, order + 3);
    SpanShl();
    ShlBelow(3, order + 3);
  }

  lemma SpanShl()
    ensures Shl(39) == SLOT && Shl(3) == 8
  {
    assert Shl(3) == 8;
    assert Shl(7) == 128;
    assert Shl(11) == 2048;
    assert Shl(15) == 0x8000;
    assert Shl(19) == 0x8_0000;
    assert Shl(23) == 0x80_0000;
    assert Shl(27) == 0x800_0000;
    assert Shl(31) == 0x8000_0000;
    assert Shl(35) == 0x8_0000_0000;
    assert Shl(39) == 0x80_0000_0000;
  }

  lemma {:induction false} ShlSplit(i: nat, j: nat)
    requires i <= j
    ensures Shl(j) % Shl(i) == 0
    decreases j
  {
    if i == j {
      Residue(Shl(i), 1, 0);
    } else {
      ShlSplit(i, j - 1);
      var k := Shl(j - 1) / Shl(i);
      assert Shl(j - 1) == Shl(i) * k;
      assert Shl(j) == Shl(i) * (2 * k);
      Residue(Shl(i), 2 * k, 0);
    }
  }

  // ---- blocks ----

  /** a is a block that has been carved from the region of the order, up to the watermark. */
  predicate IsBlock(a: nat, order: nat, watermark: nat) {
    Bottom(order) <= a < watermark && (a - Bottom(order)) % BlockSize(order) == 0
  }

  /** The order recovered from an address in a region. */
  function OrderAt(ptr: nat): nat
    requires ptr >= HEAP
  {
    (ptr - HEAP) / SLOT
  }

  lemma OrderBack(a: nat, order: nat, watermark: nat)
    requires IsBlock(a, order, watermark) && watermark <= Top(order)
    ensures a >= HEAP && OrderAt(a) == order
  {
    Residue(SLOT, order, a - Bottom(order));
    assert a - HEAP == SLOT * order + (a - Bottom(order));
  }

  /** Different blocks do not overlap. */
  lemma BlocksApart(a: nat, o: nat, b: nat, p: nat, w: nat, v: nat)
    requires o < ORDERS && p < ORDERS && a != b
    requires IsBlock(a, o, w) && w <= Top(o) && (w - Bottom(o)) % BlockSize(o) == 0
    requires IsBlock(b, p, v) && v <= Top(p) && (v - Bottom(p)) % BlockSize(p) == 0
    ensures a + BlockSize(o) <= b || b + BlockSize(p) <= a
  {
    Multiples(a - Bottom(o), w - Bottom(o), BlockSize(o));
    Multiples(b - Bottom(p), v - Bottom(p), BlockSize(p));
    if o == p {
      Multiples(a - Bottom(o), b - Bottom(o), BlockSize(o));
      Multiples(b - Bottom(o), a - Bottom(o), BlockSize(o));
    }
  }

  // ---- one order ----

  function Read(mem: map<nat, nat>, a: nat): nat { if a in mem then mem[a] else 0 }

  /** The free blocks of q are linked through their first words, from head to the null pointer. */
  ghost predicate Chain(mem: map<nat, nat>, head: nat, q: seq<nat>)
    decreases |q|
  {
    if q == [] then head == 0 else head == q[0] && head != 0 && Chain(mem, Read(mem, head), q[1..])
  }

  lemma {:induction false} ChainKept(mem: map<nat, nat>, mem': map<nat, nat>, head: nat, q: seq<nat>)
    requires Chain(mem, head, q) && forall a :: a in q ==> Read(mem', a) == Read(mem, a)
    ensures Chain(mem', head, q)
    decreases |q|
  {
    if q != [] {
      ChainKept(mem, mem', Read(mem, head), q[1..]);
    }
  }

  ghost predicate Region(order: nat, watermark: nat) {
    Bottom(order) <= watermark <= Top(order) && (watermark - Bottom(order)) % BlockSize(order) == 0
  }

  /** The blocks carved from the region are exactly the free ones and the live ones of the order. */
  ghost predicate Partition(order: nat, watermark: nat, q: seq<nat>, live: map<nat, nat>) {
    && (forall a :: IsBlock(a, order, watermark) <==> a in q || (a in live && live[a] == order))
    && (forall a :: a in q ==> a !in live)
  }

  ghost predicate OrderOk(order: nat, head: nat, watermark: nat, mem: map<nat, nat>, q: seq<nat>, live: map<nat, nat>) {
    var ok := Region(order, watermark) && Chain(mem, head, q) && NoDup(q) && Partition(order, watermark, q, live);
    ok
  }

  /** The order of every live block can be read off its address. */
  ghost predicate LiveOrders(live: map<nat, nat>) {
    forall a :: a in live ==> live[a] < ORDERS && a >= HEAP && OrderAt(a) == live[a]
  }

  lemma PopOk(o: nat, head: nat, w: nat, mem: map<nat, nat>, q: seq<nat>, live: map<nat, nat>)
    requires OrderOk(o, head, w, mem, q, live) && head != 0
    ensures q != [] && q[0] == head && IsBlock(head, o, w) && head !in live
    ensures OrderOk(o, Read(mem, head), w, mem, q[1..], live[head := o])
  {
    assert head in q && head !in q[1..];
    assert forall a :: a in q <==> a == head || a in q[1..];
  }

  lemma CarveOk(o: nat, head: nat, w: nat, mem: map<nat, nat>, q: seq<nat>, live: map<nat, nat>)
    requires OrderOk(o, head, w, mem, q, live) && w < Top(o) && o < ORDERS && LiveOrders(live)
    ensures w !in live && w != 0 && IsBlock(w, o, w + BlockSize(o))
    ensures OrderOk(o, head, w + BlockSize(o), mem, q, live[w := o])
  {
    Residue(SLOT, o, w - Bottom(o));
    assert w - HEAP == SLOT * o + (w - Bottom(o));
    assert !IsBlock(w, o, w) && w >= HEAP && OrderAt(w) == o;
    assert w !in live;
    CarveRegion(o, w);
    forall a: nat ensures IsBlock(a, o, w + BlockSize(o)) <==> IsBlock(a, o, w) || a == w {
      CarveBlock(a, o, w);
    }
  }

  lemma CarveRegion(o: nat, w: nat)
    requires Region(o, w) && w < Top(o) && o < ORDERS
    ensures Region(o, w + BlockSize(o))
  {
    SpanMultiple(o);
    Multiples(w - Bottom(o), SLOT, BlockSize(o));
  }

  lemma CarveBlock(a: nat, o: nat, w: nat)
    requires Region(o, w)
    ensures IsBlock(a, o, w + BlockSize(o)) <==> IsBlock(a, o, w) || a == w
  {
    if Bottom(o) <= a && (a - Bottom(o)) % BlockSize(o) == 0 && a > w {
      Multiples(w - Bottom(o), a - Bottom(o), BlockSize(o));
    }
  }

  /** An order whose blocks a step does not concern. */
  lemma OtherOk(p: nat, head: nat, w: nat, mem: map<nat, nat>, q: seq<nat>, live: map<nat, nat>, live': map<nat, nat>, x: nat)
    requires OrderOk(p, head, w, mem, q, live) && x >= HEAP && OrderAt(x) != p
    requires forall a :: a != x ==> (a in live <==> a in live') && (a in live ==> live[a] == live'[a])
    requires (x in live ==> live[x] != p) && (x in live' ==> live'[x] != p)
    ensures OrderOk(p, head, w, mem, q, live')
  {
    forall a | a in q ensures a !in live' {
      OrderBack(a, p, w);
    }
  }

  lemma PushOk(o: nat, head: nat, w: nat, mem: map<nat, nat>, q: seq<nat>, live: map<nat, nat>, x: nat)
    requires OrderOk(o, head, w, mem, q, live) && x in live && live[x] == o && x != 0
    ensures OrderOk(o, x, w, mem[x := head], [x] + q, live - {x})
  {
    var mem' := mem[x := head];
    assert x !in q;
    ChainKept(mem, mem', head, q);
    assert ([x] + q)[1..] == q;
  }

  /** Storing to a word outside all free blocks of an order. */
  lemma StoreOk(p: nat, head: nat, w: nat, mem: map<nat, nat>, mem': map<nat, nat>, q: seq<nat>, live: map<nat, nat>)
    requires OrderOk(p, head, w, mem, q, live) && forall a :: a in q ==> Read(mem', a) == Read(mem, a)
    ensures OrderOk(p, head, w, mem', q, live)
  {
    ChainKept(mem, mem', head, q);
  }

  // ---- the heap ----

  /** The word at offset i of the block at a. */
  function Word(mem: map<nat, nat>, a: nat, i: nat): nat { Read(mem, a + 8 * i) }

  /** The words of every live block are as before. */
  ghost predicate Untouched(mem: map<nat, nat>, mem': map<nat, nat>, live: map<nat, nat>) {
    forall a, i: nat :: a in live && 8 * i < BlockSize(live[a]) ==> Word(mem', a, i) == Word(mem, a, i)
  }

  ghost predicate OnlyIn(mem: map<nat, nat>, mem': map<nat, nat>, lo: nat, hi: nat) {
    forall x: nat :: x < lo || hi <= x ==> Read(mem', x) == Read(mem, x)
  }

  /** The first bytes of the one block have gone to the other. */
  ghost predicate Copied(mem: map<nat, nat>, src: nat, mem': map<nat, nat>, dest: nat, bytes: nat) {
    var copied := forall i: nat :: 8 * i < bytes ==> Word(mem', dest, i) == Word(mem, src, i);
    copied
  }

  lemma Moved(live: map<nat, nat>, ptr: nat, r: nat, o: nat, mem: map<nat, nat>, mem': map<nat, nat>)
    requires r !in live && r != ptr && 0 !in live
    ensures live[r := o] - {ptr} == (live - {ptr})[r := o]
    ensures ptr == 0 ==> live - {ptr} == live
    ensures Untouched(mem, mem', live[r := o] - {ptr, r}) ==> Untouched(mem, mem', live - {ptr})
  {
  }

  lemma UntouchedTwice(mem: map<nat, nat>, mem1: map<nat, nat>, mem2: map<nat, nat>, live: map<nat, nat>)
    requires Untouched(mem, mem1, live) && Untouched(mem1, mem2, live)
    ensures Untouched(mem, mem2, live)
  {
  }

  class KernelHeap {
    var freelist: seq<nat>
    var watermark: seq<nat>
    var mem: map<nat, nat>
    ghost var free: seq<seq<nat>>
    ghost var live: map<nat, nat>  // the blocks handed out, with their orders

    ghost predicate Valid()
      reads this
    {
      && |freelist| == |watermark| == |free| == ORDERS
      && LiveOrders(live)
      && forall o :: 0 <= o < ORDERS ==> OrderOk(o, freelist[o], watermark[o], mem, free[o], live)
    }

    /** init_alloc. */
    constructor ()
      ensures Valid() && live == map[]
      ensures forall size: nat :: size <= 0x4000_0000 ==> (Exhausted(size, free, watermark) <==> size > 0x400_0000)
    {
      freelist := seq(ORDERS, _ => 0);
      watermark := seq(ORDERS, o requires 0 <= o < ORDERS => Bottom(o));
      mem := map[];
      free := seq(ORDERS, _ => []);
      live := map[];
      new;
      forall o | 0 <= o < ORDERS ensures OrderOk(o, freelist[o], watermark[o], mem, free[o], live) {
        StartOk(o);
      }
      forall size: nat | size <= 0x4000_0000 ensures Exhausted(size, free, watermark) <==> size > 0x400_0000 {
        LargestSize(size);
      }
    }

    /** There is no order for the size, or its order has no free block and no room for another. */
    ghost predicate Exhausted(size: nat, q: seq<seq<nat>>, w: seq<nat>)
      requires size <= 0x4000_0000 && |q| == |w| == ORDERS
    {
      var o := OrderOf(size);
      o >= ORDERS || (q[o] == [] && w[o] == Top(o))
    }

    /** The first free block is taken, or if there is none the block at the watermark. */
    ghost predicate Popped(o: nat, ptr: nat, q: seq<seq<nat>>, q': seq<seq<nat>>, w: seq<nat>, w': seq<nat>) {
      o < |q| && o < |w| &&
      if q[o] != [] then ptr == q[o][0] && q' == q[o := q[o][1..]] && w' == w
      else ptr == w[o] && q' == q && w' == w[o := ptr + BlockSize(o)]
    }

    /** mem_alloc, for sizes up to 1GB; 0 is the null pointer. */
    method Alloc(size: nat) returns (ptr: nat)
      requires Valid() && size <= 0x4000_0000
      modifies this`freelist, this`watermark, this`free, this`live
      ensures Valid()
      ensures ptr == 0 ==> live == old(live) && free == old(free) && watermark == old(watermark)
      ensures ptr == 0 <==> Exhausted(size, old(free), old(watermark))
      ensures ptr != 0 ==> ptr !in old(live) && live == old(live)[ptr := OrderOf(size)]
      ensures ptr != 0 ==> Popped(OrderOf(size), ptr, old(free), free, old(watermark), watermark)
    {
      var order := OrderOf(size);
      if order >= ORDERS {
        return 0;
      }
      assert OrderOk(order, freelist[order], watermark[order], mem, free[order], live);
      ptr := freelist[order];
      if ptr != 0 {
        PopOk(order, ptr, watermark[order], mem, free[order], live);
        OrderBack(ptr, order, watermark[order]);
        Others(order, ptr, live[ptr := order]);
        freelist := freelist[order := Read(mem, ptr)];
        free := free[order := free[order][1..]];
        live := live[ptr := order];
      } else if watermark[order] < Top(order) {
        ptr := watermark[order];
        CarveOk(order, freelist[order], ptr, mem, free[order], live);
        OrderBack(ptr, order, ptr + BlockSize(order));
        Others(order, ptr, live[ptr := order]);
        watermark := watermark[order := ptr + BlockSize(order)];
        live := live[ptr := order];
      }
    }

    /** The other orders do not notice that block x of this order changes hands. */
    lemma Others(order: nat, x: nat, live': map<nat, nat>)
      requires Valid() && order < ORDERS && x >= HEAP && OrderAt(x) == order
      requires forall a :: a != x ==> (a in live <==> a in live') && (a in live ==> live[a] == live'[a])
      requires x in live' ==> live'[x] == order
      ensures forall p :: 0 <= p < ORDERS && p != order ==> OrderOk(p, freelist[p], watermark[p], mem, free[p], live')
    {
      forall p | 0 <= p < ORDERS && p != order ensures OrderOk(p, freelist[p], watermark[p], mem, free[p], live') {
        OtherOk(p, freelist[p], watermark[p], mem, free[p], live, live', x);
      }
    }

    /** Every live block is a carved block of its order. */
    lemma LiveBlock(a: nat)
      requires Valid() && a in live
      ensures live[a] < ORDERS && IsBlock(a, live[a], watermark[live[a]]) && Region(live[a], watermark[live[a]])
      ensures a != 0 && OrderAt(a) == live[a]
    {
      assert OrderOk(live[a], freelist[live[a]], watermark[live[a]], mem, free[live[a]], live);
    }

    /** Two live blocks, or a live and a free one, do not overlap. */
    lemma Disjoint(a: nat, b: nat, p: nat)
      requires Valid() && b in live && a != b && p < ORDERS && (a in free[p] || (a in live && live[a] == p))
      ensures a + BlockSize(p) <= b || b + BlockSize(live[b]) <= a
    {
      LiveBlock(b);
      assert OrderOk(p, freelist[p], watermark[p], mem, free[p], live);
      BlocksApart(a, p, b, live[b], watermark[p], watermark[live[b]]);
    }

    /** Stores inside a live block disturb neither the free lists nor other live blocks. */
    lemma StoresInside(b: nat, mem': map<nat, nat>)
      requires Valid() && b in live && OnlyIn(mem, mem', b, b + BlockSize(live[b]))
      ensures forall p :: 0 <= p < ORDERS ==> OrderOk(p, freelist[p], watermark[p], mem', free[p], live)
      ensures Untouched(mem, mem', live - {b})
    {
      forall p | 0 <= p < ORDERS ensures OrderOk(p, freelist[p], watermark[p], mem', free[p], live) {
        assert OrderOk(p, freelist[p], watermark[p], mem, free[p], live);
        forall a | a in free[p] ensures Read(mem', a) == Read(mem, a) {
          SpanMultiple(p);
          Disjoint(a, b, p);
        }
        StoreOk(p, freelist[p], watermark[p], mem, mem', free[p], live);
      }
      forall a, i: nat | a in live - {b} && 8 * i < BlockSize(live[a]) ensures Word(mem', a, i) == Word(mem, a, i) {
        Disjoint(a, b, live[a]);
        SpanMultiple(live[a]);
      }
    }

    /** The owner of a block writes to it. */
    method Write(ptr: nat, i: nat, value: nat)
      requires Valid() && ptr in live && 8 * i < BlockSize(live[ptr])
      modifies this`mem
      ensures Valid() && mem == old(mem)[ptr + 8 * i := value] && Untouched(old(mem), mem, live - {ptr})
    {
      StoresInside(ptr, mem[ptr + 8 * i := value]);
      mem := mem[ptr + 8 * i := value];
    }

    /** mem_free. */
    method Free(ptr: nat)
      requires Valid() && (ptr != 0 ==> ptr in live)
      modifies this`freelist, this`mem, this`free, this`live
      ensures Valid() && live == old(live) - {ptr} && Untouched(old(mem), mem, live)
      ensures watermark == old(watermark)
      ensures ptr == 0 ==> free == old(free) && mem == old(mem)
      ensures ptr != 0 ==> OrderAt(ptr) < ORDERS && free == old(free)[OrderAt(ptr) := [ptr] + old(free)[OrderAt(ptr)]]
    {
      if ptr == 0 {
        assert 0 !in live;
        assert live == live - {ptr};
        return;
      }
      LiveBlock(ptr);
      var order := OrderAt(ptr);
      ghost var mem' := mem[ptr := freelist[order]];
      assert OrderOk(order, freelist[order], watermark[order], mem, free[order], live);
      PushOk(order, freelist[order], watermark[order], mem, free[order], live, ptr);
      SpanMultiple(order);
      StoresInside(ptr, mem');
      mem := mem[ptr := freelist[order]];
      FreeOthers(order, ptr);
      freelist := freelist[order := ptr];
      free := free[order := [ptr] + free[order]];
      live := live - {ptr};
    }

    lemma FreeOthers(order: nat, x: nat)
      requires |freelist| == |watermark| == |free| == ORDERS && order < ORDERS && x >= HEAP && OrderAt(x) == order
      requires x in live && live[x] == order
      requires forall p :: 0 <= p < ORDERS ==> OrderOk(p, freelist[p], watermark[p], mem, free[p], live)
      ensures forall p :: 0 <= p < ORDERS && p != order ==> OrderOk(p, freelist[p], watermark[p], mem, free[p], live - {x})
    {
      forall p | 0 <= p < ORDERS && p != order ensures OrderOk(p, freelist[p], watermark[p], mem, free[p], live - {x}) {
        OtherOk(p, freelist[p], watermark[p], mem, free[p], live, live - {x}, x);
      }
    }

    /** memcpy of whole words from one live block to another. */
    method CopyWords(dest: nat, src: nat, words: nat)
      requires Valid() && dest in live && src in live && dest != src
      requires 8 * words <= BlockSize(live[dest]) && 8 * words <= BlockSize(live[src])
      modifies this`mem
      ensures Valid() && Untouched(old(mem), mem, live - {dest})
      ensures forall i: nat :: i < words ==> Word(mem, dest, i) == Word(old(mem), src, i)
    {
      var k := 0;
      while k < words
        invariant 0 <= k <= words && Valid() && Untouched(old(mem), mem, live - {dest})
        invariant forall i: nat :: i < k ==> Word(mem, dest, i) == Word(old(mem), src, i)
      {
        assert Word(mem, src, k) == Word(old(mem), src, k);
        ghost var before := mem;
        Write(dest, k, Read(mem, src + 8 * k));
        UntouchedTwice(old(mem), before, mem, live - {dest});
        k := k + 1;
      }
    }

    /** mem_realloc. A block that is big enough stays; otherwise the new block starts with all the words of the old one,
        which is freed; if there is no new block, the old one stays. */
    method Realloc(ptr: nat, size: nat) returns (r: nat)
      requires Valid() && size <= 0x4000_0000 && (ptr != 0 ==> ptr in live)
      modifies this
      ensures Valid()
      ensures r == 0 <==> || size == 0
                          || ((ptr == 0 || size > BlockSize(old(live)[ptr])) && Exhausted(size, old(free), old(watermark)))
      ensures size == 0 ==> live == old(live) - {ptr}
      ensures size != 0 && ptr != 0 && size <= BlockSize(old(live)[ptr]) ==> r == ptr && live == old(live) && mem == old(mem)
      ensures size != 0 && r == 0 ==> live == old(live) && mem == old(mem)
      ensures r != 0 && r != ptr ==> r !in old(live) && live == (old(live) - {ptr})[r := OrderOf(size)]
      ensures r != 0 && ptr != 0 ==> Copied(old(mem), ptr, mem, r, BlockSize(old(live)[ptr]))
      ensures Untouched(old(mem), mem, old(live) - {ptr})
    {
      if size == 0 {
        Free(ptr);
        return 0;
      }
      var oldSize := 0;
      if ptr != 0 {
        LiveBlock(ptr);
        var order := OrderAt(ptr);
        oldSize := Shl(order + 3);
        if size <= oldSize {
          return ptr;
        }
      }
      r := Replace(ptr, size, oldSize);
    }

    /** The second half of mem_realloc: a new block, and the contents of the old one in it. */
    method Replace(ptr: nat, size: nat, oldSize: nat) returns (r: nat)
      requires Valid() && size <= 0x4000_0000
      requires ptr != 0 ==> ptr in live && oldSize == BlockSize(live[ptr]) && oldSize < size
      modifies this
      ensures Valid() && (r == 0 <==> Exhausted(size, old(free), old(watermark)))
      ensures r == 0 ==> live == old(live) && mem == old(mem)
      ensures r != 0 ==> r != ptr && r !in old(live) && live == (old(live) - {ptr})[r := OrderOf(size)]
      ensures r != 0 && ptr != 0 ==> Copied(old(mem), ptr, mem, r, oldSize)
      ensures Untouched(old(mem), mem, old(live) - {ptr})
    {
      ghost var live0, mem0 := live, mem;
      r := Alloc(size);
      if r == 0 {
        return;
      }
      if ptr != 0 {
        Move(r, ptr, oldSize);
      }
      Moved(live0, ptr, r, OrderOf(size), mem0, mem);
    }

    /** The copy and the release in mem_realloc. */
    method Move(dest: nat, ptr: nat, oldSize: nat)
      requires Valid() && dest in live && ptr in live && dest != ptr
      requires oldSize == BlockSize(live[ptr]) && oldSize <= BlockSize(live[dest])
      modifies this`freelist, this`mem, this`free, this`live
      ensures Valid() && live == old(live) - {ptr} && Untouched(old(mem), mem, old(live) - {ptr, dest})
      ensures Copied(old(mem), ptr, mem, dest, oldSize)
    {
      LiveBlock(ptr);
      SpanMultiple(live[ptr]);
      CopyWords(dest, ptr, oldSize / 8);
      Free(ptr);
    }
  }

  lemma StartOk(o: nat)
    ensures OrderOk(o, 0, Bottom(o), map[], [], map[])
  {
    Residue(BlockSize(o), 0, 0);
  }

  /** There is an order for every size up to 64MB, and none above. */
  lemma LargestSize(size: nat)
    requires size <= 0x4000_0000
    ensures OrderOf(size) >= 24 <==> size > 0x400_0000
    ensures OrderOf(size) < ORDERS ==> Bottom(OrderOf(size)) < Top(OrderOf(size))
  {
    var o := OrderOf(size);
    SpanShl();
    assert Shl(26) == 0x400_0000 by { LargestShl(); }
    if o >= 24 {
      ShlBelow(26, o + 2);
    } else {
      ShlBelow(o + 3, 26);
    }
  }

  lemma LargestShl()
    ensures Shl(26) == 0x400_0000
  {
    assert Shl(3) == 8;
    assert Shl(7) == 128;
    assert Shl(11) == 2048;
    assert Shl(15) == 0x8000;
    assert Shl(19) == 0x8_0000;
    assert Shl(23) == 0x80_0000;
  }
}
