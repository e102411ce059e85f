/** Buddy blocks, and the layouts that kernel/mem/phys.c moves between. */
module BuddyModel {
  import opened Arithmetic

  const PAGE_SIZE: nat := 4096
  const PAGE_LEVEL: nat := 8
  const TOP_LEVEL: nat := 23  // BUDDY_LEVEL_COUNT - 1

  function Size(level: nat): (size: nat)
    ensures size >= 16
  {
    if level == 0 then 16 else 2 * Size(level - 1)
  }

  /** The low level + 4 bits of an address are zero. */
  predicate OnGrid(a: int, level: nat)
    decreases level
  {
    if level == 0 then a % 16 == 0 else a % 2 == 0 && OnGrid(a / 2, level - 1)
  }

  /** An address at which a block of the level, or of a smaller one, may start. */
  ghost predicate Aligned(a: int, level: nat) {
    var aligned := forall n: nat :: n <= level ==> OnGrid(a, n);
    aligned
  }

  /** The other half of the block of twice the size; negative only off the grid. */
  ghost function Buddy(a: nat, level: nat): int {
    if Aligned(a, level + 1) then a + Size(level) else a - Size(level)
  }

  // ---- the grid ----

  lemma {:induction false} GridBelow(a: int, i: nat, j: nat)
    requires i <= j && OnGrid(a, j)
    ensures OnGrid(a, i)
    decreases i, j
  {
    if i < j {
      if i > 0 {
        GridBelow(a / 2, i - 1, j - 1);
      } else if j > 1 {
        GridBelow(a / 2, 0, j - 1);
      }
    }
  }

  lemma AlignedIsOnGrid(a: int, level: nat)
    ensures Aligned(a, level) <==> OnGrid(a, level)
  {
    if OnGrid(a, level) {
      forall n: nat | n <= level ensures OnGrid(a, n) { GridBelow(a, n, level); }
    }
  }

  /** The mask test of the source: (a & (Size(level) - 1)) == 0. */
  lemma AlignedMod(a: int, level: nat)
    ensures Aligned(a, level) <==> a % Size(level) == 0
  {
    AlignedIsOnGrid(a, level);
    GridMod(a, level);
  }

  lemma {:induction false} GridMod(a: int, level: nat)
    ensures OnGrid(a, level) <==> a % Size(level) == 0
    decreases level
  {
    if level > 0 {
      GridMod(a / 2, level - 1);
      DoubleMod(a, Size(level - 1));
    }
  }

  lemma DoubleMod(a: int, m: nat)
    requires m > 0
    ensures a % (2 * m) == 0 <==> a % 2 == 0 && (a / 2) % m == 0
  {
    var q, r := a / (2 * m), a % (2 * m);
    assert a == 2 * (m * q) + r;
    assert a / 2 == m * q + r / 2 && a % 2 == r % 2;
    Residue(m, q, r / 2);
  }

  /** Neighbouring places on the grid of a level are its block size apart. */
  lemma {:induction false} GridGap(a: int, b: int, level: nat)
    requires OnGrid(a, level) && OnGrid(b, level) && a < b
    ensures a + Size(level) <= b
    decreases level
  {
    if level > 0 {
      GridGap(a / 2, b / 2, level - 1);
    }
  }

  lemma {:induction false} GridSum(a: int, b: int, level: nat)
    requires OnGrid(a, level) && OnGrid(b, level)
    ensures OnGrid(a + b, level)
    decreases level
  {
    if level > 0 {
      GridSum(a / 2, b / 2, level - 1);
      assert (a + b) / 2 == a / 2 + b / 2;
    }
  }

  lemma {:induction false} GridDifference(a: int, b: int, level: nat)
    requires OnGrid(a, level) && OnGrid(b, level)
    ensures OnGrid(a - b, level)
    decreases level
  {
    if level > 0 {
      GridDifference(a / 2, b / 2, level - 1);
      assert (a - b) / 2 == a / 2 - b / 2;
    }
  }

  lemma {:induction false} GridSize(level: nat)
    ensures OnGrid(Size(level), level) && OnGrid(0, level)
  {
    if level > 0 {
      GridSize(level - 1);
    }
  }

  /** Every other place on the grid of a level is on that of the next. */
  lemma {:induction false} EveryOther(a: int, level: nat)
    ensures OnGrid(a, level) ==> (OnGrid(a, level + 1) <==> !OnGrid(a + Size(level), level + 1))
    decreases level
  {
    if level == 0 {
      Sixteens(a);
      Sixteens(a + 16);
      SixteenOther(a);
    } else {
      EveryOther(a / 2, level - 1);
      if OnGrid(a, level) {
        OtherHalf(a, level);
        OtherDoubled(a / 2, Size(level - 1), level);
      }
    }
  }

  lemma SixteenOther(a: int)
    ensures a % 16 == 0 ==> (a % 32 == 0 <==> (a + 16) % 32 != 0)
  {
  }

  lemma OtherHalf(a: int, level: nat)
    requires level > 0 && OnGrid(a, level)
    ensures a == 2 * (a / 2) && a + Size(level) == 2 * (a / 2 + Size(level - 1)) && OnGrid(a / 2, level - 1)
  {
  }

  lemma OtherDoubled(b: int, s: nat, level: nat)
    requires OnGrid(b, level) <==> !OnGrid(b + s, level)
    ensures OnGrid(2 * b, level + 1) <==> !OnGrid(2 * (b + s), level + 1)
  {
    Doubled(b, level);
    Doubled(b + s, level);
  }

  lemma Sixteens(a: int)
    ensures OnGrid(a, 1) <==> a % 32 == 0
  {
    assert OnGrid(a / 2, 0) <==> (a / 2) % 16 == 0;
  }

  lemma Doubled(b: int, level: nat)
    ensures OnGrid(2 * b, level + 1) <==> OnGrid(b, level)
  {
  }

  // ---- alignment ----

  lemma AlignedBelow(a: int, i: nat, j: nat)
    requires i <= j && Aligned(a, j)
    ensures Aligned(a, i)
  {
  }

  lemma Gap(a: int, b: int, level: nat)
    requires Aligned(a, level) && Aligned(b, level) && a < b
    ensures a + Size(level) <= b
  {
    AlignedIsOnGrid(a, level);
    AlignedIsOnGrid(b, level);
    GridGap(a, b, level);
  }

  lemma NextAligned(a: int, level: nat)
    requires Aligned(a, level)
    ensures Aligned(a + Size(level), level)
  {
    AlignedIsOnGrid(a, level);
    GridSize(level);
    GridSum(a, Size(level), level);
    AlignedIsOnGrid(a + Size(level), level);
  }

  /** Aligned blocks that meet are nested. */
  lemma Nested(a: nat, i: nat, b: nat, j: nat)
    requires i <= j && Aligned(a, i) && Aligned(b, j)
    requires a < b + Size(j) && b < a + Size(i)
    ensures b <= a && a + Size(i) <= b + Size(j)
  {
    NextAligned(b, j);
    AlignedBelow(b, i, j);
    AlignedBelow(b + Size(j), i, j);
    Gap(a, b + Size(j), i);
    if a < b {
      Gap(a, b, i);
    }
  }

  /** The two halves of a block. */
  lemma BuddyGrid(a: nat, level: nat)
    requires Aligned(a, level)
    ensures var b := Buddy(a, level);
            && 0 <= b && Aligned(b, level)
            && (a < b ==> Aligned(a, level + 1) && b == a + Size(level))
            && (b < a ==> Aligned(b, level + 1) && a == b + Size(level))
            && a != b && Buddy(b, level) == a
  {
    var b := Buddy(a, level);
    AlignedIsOnGrid(a, level);
    AlignedIsOnGrid(a, level + 1);
    if OnGrid(a, level + 1) {
      LowerHalf(a, level);
    } else {
      UpperHalf(a, level);
    }
    AlignedIsOnGrid(b, level);
    AlignedIsOnGrid(b, level + 1);
  }

  lemma LowerHalf(a: nat, level: nat)
    requires OnGrid(a, level) && OnGrid(a, level + 1)
    ensures OnGrid(a + Size(level), level) && !OnGrid(a + Size(level), level + 1)
  {
    GridSize(level);
    GridSum(a, Size(level), level);
    EveryOther(a, level);
  }

  lemma UpperHalf(a: nat, level: nat)
    requires OnGrid(a, level) && !OnGrid(a, level + 1)
    ensures a >= Size(level) && OnGrid(a - Size(level), level) && OnGrid(a - Size(level), level + 1)
  {
    GridSize(level);
    GridSize(level + 1);
    GridDifference(a, Size(level), level);
    EveryOther(a - Size(level), level);
    if a > 0 {
      GridGap(0, a, level);
    }
  }

  // ---- layouts ----

  /** What the metadata byte of a block's first page says. */
  datatype Head = Head(level: nat, free: bool)

  /** The current blocks, by the address they start at. */
  type Heads = map<nat, Head>

  ghost predicate Within(a: nat, level: nat, x: int) { a <= x < a + Size(level) }

  ghost predicate Covers(h: Heads, a: nat, x: int) { a in h && Within(a, h[a].level, x) }

  /** x lies in some block. */
  ghost predicate Owned(h: Heads, x: int) { exists a :: Covers(h, a, x) }

  /** x lies in a free block. */
  ghost predicate Free(h: Heads, x: int) { exists a :: Covers(h, a, x) && h[a].free }

  /** The allocated blocks and their levels. */
  ghost function Used(h: Heads): map<nat, nat> { map a | a in h && !h[a].free :: h[a].level }

  /** A page-or-larger block inside [lo, hi), aligned to its size. */
  ghost predicate Fits(a: nat, level: nat, lo: nat, hi: nat) {
    var fits := PAGE_LEVEL <= level <= TOP_LEVEL && Aligned(a, level) && lo <= a && a + Size(level) <= hi;
    fits
  }

  /** Blocks are pairwise disjoint. */
  ghost predicate Apart(h: Heads) {
    var apart := forall a, b :: a in h && b in h && a < b ==> a + Size(h[a].level) <= b;
    apart
  }

  /** Every block fits, and blocks are pairwise disjoint. */
  ghost predicate Laid(h: Heads, lo: nat, hi: nat) {
    var laid := (forall a {:trigger Fits(a, h[a].level, lo, hi)} :: a in h ==> Fits(a, h[a].level, lo, hi)) && Apart(h);
    laid
  }

  /** A free block of the given level starts at a. */
  predicate IsFree(h: Heads, a: int, level: nat) { a >= 0 && a in h && h[a] == Head(level, true) }

  /** No two free buddies stand side by side. */
  ghost predicate Coalesced(h: Heads) {
    var coalesced := forall a :: a in h && h[a].free && h[a].level < TOP_LEVEL ==>
                                   !IsFree(h, Buddy(a, h[a].level), h[a].level);
    coalesced
  }

  ghost predicate Good(h: Heads, lo: nat, hi: nat) {
    var good := Laid(h, lo, hi) && Coalesced(h);
    good
  }

  /** Blocks that share an address are the same. */
  lemma OneBlock(h: Heads, c: nat, d: nat, x: int)
    requires Apart(h)
    ensures Covers(h, c, x) && Covers(h, d, x) ==> c == d
  {
  }

  // ---- the steps of the allocator ----

  /** A block is marked allocated. */
  function Take(h: Heads, a: nat): Heads
    requires a in h
  {
    h[a := Head(h[a].level, false)]
  }

  /** A block gives its upper half back as a free block. */
  function Halve(h: Heads, a: nat): Heads
    requires a in h && h[a].level > 0
  {
    h[a := Head(h[a].level - 1, false)][a + Size(h[a].level - 1) := Head(h[a].level - 1, true)]
  }

  /** A block absorbs its buddy. */
  ghost function Merge(h: Heads, a: nat): Heads
    requires a in h && Buddy(a, h[a].level) >= 0
  {
    (h - {a, Buddy(a, h[a].level)})[Lower(a, h[a].level) := Head(h[a].level + 1, false)]
  }

  /** Where the block of twice the size starts. */
  ghost function Lower(a: nat, level: nat): nat
    requires Buddy(a, level) >= 0
  {
    if a < Buddy(a, level) then a else Buddy(a, level)
  }

  /** A block is marked free. */
  function Release(h: Heads, a: nat): Heads
    requires a in h
  {
    h[a := Head(h[a].level, true)]
  }

  // ---- every step keeps the layout good ----

  /** No block of h other than that at a reaches into the block (a, level). */
  ghost predicate Clear(h: Heads, a: nat, level: nat) {
    var clear := forall c :: c in h && c != a ==> c + Size(h[c].level) <= a || a + Size(level) <= c;
    clear
  }

  lemma LaidPut(h: Heads, a: nat, head: Head, lo: nat, hi: nat)
    requires Laid(h, lo, hi) && Fits(a, head.level, lo, hi) && Clear(h, a, head.level)
    ensures Laid(h[a := head], lo, hi)
  {
    ApartPut(h, a, head);
  }

  lemma ApartPut(h: Heads, a: nat, head: Head)
    requires Apart(h) && Clear(h, a, head.level)
    ensures Apart(h[a := head])
  {
    var h' := h[a := head];
    forall c, d | c in h' && d in h' && c < d ensures c + Size(h'[c].level) <= d {
      assert c != a ==> h'[c] == h[c];
    }
  }

  lemma LaidRemove(h: Heads, gone: set<nat>, lo: nat, hi: nat)
    requires Laid(h, lo, hi)
    ensures Laid(h - gone, lo, hi)
  {
  }

  lemma LaidRelabel(h: Heads, h': Heads, lo: nat, hi: nat)
    requires Laid(h, lo, hi) && h'.Keys == h.Keys && forall c :: c in h ==> h'[c].level == h[c].level
    ensures Laid(h', lo, hi)
  {
  }

  lemma TakeGood(h: Heads, a: nat, lo: nat, hi: nat)
    requires Good(h, lo, hi) && a in h
    ensures Good(Take(h, a), lo, hi) && Used(Take(h, a)) == Used(h)[a := h[a].level]
  {
    LaidRelabel(h, Take(h, a), lo, hi);
    UsedTake(h, a);
  }

  lemma UsedTake(h: Heads, a: nat)
    requires a in h
    ensures Used(Take(h, a)) == Used(h)[a := h[a].level]
  {
  }

  lemma HalveGood(h: Heads, a: nat, lo: nat, hi: nat)
    requires Good(h, lo, hi) && a in h && !h[a].free && h[a].level > PAGE_LEVEL
    ensures Good(Halve(h, a), lo, hi) && Used(Halve(h, a)) == Used(h)[a := h[a].level - 1]
    ensures a + Size(h[a].level - 1) !in h
  {
    HalveLaid(h, a, lo, hi);
    HalveCoalesced(h, a, h[a].level - 1, a + Size(h[a].level - 1), lo, hi);
    UsedHalve(h, a);
  }

  lemma HalveLaid(h: Heads, a: nat, lo: nat, hi: nat)
    requires Laid(h, lo, hi) && a in h && h[a].level > PAGE_LEVEL
    ensures Laid(Halve(h, a), lo, hi) && a + Size(h[a].level - 1) !in h
  {
    assert Fits(a, h[a].level, lo, hi);
    HalfFits(a, h[a].level - 1, lo, hi);
    HalfClear(h, a);
    var l := h[a].level - 1;
    TwoPut(h, a, a + Size(l), l, Halve(h, a), lo, hi);
  }

  lemma TwoPut(h: Heads, a: nat, u: nat, l: nat, h': Heads, lo: nat, hi: nat)
    requires Laid(h, lo, hi) && Fits(a, l, lo, hi) && Clear(h, a, l)
    requires Fits(u, l, lo, hi) && Clear(h[a := Head(l, false)], u, l)
    requires h' == h[a := Head(l, false)][u := Head(l, true)]
    ensures Laid(h', lo, hi)
  {
    LaidPut(h, a, Head(l, false), lo, hi);
    LaidPut(h[a := Head(l, false)], u, Head(l, true), lo, hi);
  }

  lemma HalveApart(h: Heads, a: nat, l: nat)
    requires Apart(h) && a in h && h[a].level == l + 1
    ensures Apart(Halve(h, a)) && a + Size(l) !in h
  {
    HalfClear(h, a);
    ApartPut(h, a, Head(l, false));
    ApartPut(h[a := Head(l, false)], a + Size(l), Head(l, true));
  }

  lemma HalfClear(h: Heads, a: nat)
    requires Apart(h) && a in h && h[a].level > 0
    ensures var l := h[a].level - 1;
            && a + Size(l) !in h && Clear(h, a, l) && Clear(h[a := Head(l, false)], a + Size(l), l)
  {
  }

  lemma HalfFits(a: nat, level: nat, lo: nat, hi: nat)
    requires Fits(a, level + 1, lo, hi) && level >= PAGE_LEVEL
    ensures Fits(a, level, lo, hi) && Fits(a + Size(level), level, lo, hi)
  {
    AlignedBelow(a, level, level + 1);
    NextAligned(a, level);
  }

  lemma HalveCoalesced(h: Heads, a: nat, l: nat, u: nat, lo: nat, hi: nat)
    requires Good(h, lo, hi) && a in h && h[a] == Head(l + 1, false) && u == a + Size(l) && u !in h
    ensures Coalesced(Halve(h, a))
  {
    var h' := Halve(h, a);
    assert Fits(a, l + 1, lo, hi);
    UpperBuddy(a, l);
    forall c | c in h' && h'[c].free && h'[c].level < TOP_LEVEL ensures !IsFree(h', Buddy(c, h'[c].level), h'[c].level) {
      if c != u {
        HalveOther(h, a, l, u, c, lo, hi);
      }
    }
  }

  /** A free block elsewhere is not the buddy of the new upper half. */
  lemma HalveOther(h: Heads, a: nat, l: nat, u: nat, c: nat, lo: nat, hi: nat)
    requires Good(h, lo, hi) && a in h && h[a] == Head(l + 1, false) && u == a + Size(l) && Buddy(u, l) == a
    requires c in h && c != a && h[c].free && h[c].level < TOP_LEVEL
    ensures !IsFree(Halve(h, a), Buddy(c, h[c].level), h[c].level)
  {
    assert Fits(c, h[c].level, lo, hi);
    BuddyBack(c, h[c].level, u);
    assert !IsFree(h, Buddy(c, h[c].level), h[c].level);
  }

  lemma BuddyBack(c: nat, level: nat, u: nat)
    requires Aligned(c, level)
    ensures Buddy(c, level) == u ==> Buddy(u, level) == c
  {
    BuddyGrid(c, level);
  }

  lemma UpperBuddy(a: nat, level: nat)
    requires Aligned(a, level + 1)
    ensures Buddy(a + Size(level), level) == a
  {
    AlignedBelow(a, level, level + 1);
    BuddyGrid(a, level);
  }

  lemma UsedHalve(h: Heads, a: nat)
    requires a in h && h[a].level > 0 && a + Size(h[a].level - 1) !in h
    ensures Used(Halve(h, a)) == Used(h)[a := h[a].level - 1]
  {
  }

  lemma MergeGood(h: Heads, a: nat, lo: nat, hi: nat)
    requires Good(h, lo, hi) && a in h && h[a].level < TOP_LEVEL && IsFree(h, Buddy(a, h[a].level), h[a].level)
    ensures Good(Merge(h, a), lo, hi)
    ensures Used(Merge(h, a)) == (Used(h) - {a})[Lower(a, h[a].level) := h[a].level + 1]
  {
    MergeLaid(h, a, lo, hi);
    UsedMerge(h, a);
  }

  lemma MergeLaid(h: Heads, a: nat, lo: nat, hi: nat)
    requires Laid(h, lo, hi) && a in h && h[a].level < TOP_LEVEL && IsFree(h, Buddy(a, h[a].level), h[a].level)
    ensures Laid(Merge(h, a), lo, hi)
  {
    var l := h[a].level;
    var b, m := Buddy(a, l), Lower(a, l);
    PairFits(a, l, lo, hi);
    PairClear(h, a);
    LaidRemove(h, {a, b}, lo, hi);
    LaidPut(h - {a, b}, m, Head(l + 1, false), lo, hi);
  }

  lemma PairFits(a: nat, level: nat, lo: nat, hi: nat)
    requires Fits(a, level, lo, hi) && level < TOP_LEVEL && Buddy(a, level) >= 0 && Fits(Buddy(a, level), level, lo, hi)
    ensures Fits(Lower(a, level), level + 1, lo, hi)
  {
    BuddyGrid(a, level);
  }

  lemma PairClear(h: Heads, a: nat)
    requires Apart(h) && a in h && IsFree(h, Buddy(a, h[a].level), h[a].level)
    ensures Clear(h - {a, Buddy(a, h[a].level)}, Lower(a, h[a].level), h[a].level + 1)
  {
  }

  lemma UsedMerge(h: Heads, a: nat)
    requires a in h && IsFree(h, Buddy(a, h[a].level), h[a].level)
    ensures Used(Merge(h, a)) == (Used(h) - {a})[Lower(a, h[a].level) := h[a].level + 1]
  {
  }

  lemma ReleaseGood(h: Heads, a: nat, lo: nat, hi: nat)
    requires Good(h, lo, hi) && a in h && !h[a].free
    requires h[a].level == TOP_LEVEL || !IsFree(h, Buddy(a, h[a].level), h[a].level)
    ensures Good(Release(h, a), lo, hi) && Used(Release(h, a)) == Used(h) - {a}
  {
    LaidRelabel(h, Release(h, a), lo, hi);
    UsedRelease(h, a);
    ReleaseCoalesced(h, a, lo, hi);
  }

  lemma ReleaseCoalesced(h: Heads, a: nat, lo: nat, hi: nat)
    requires Good(h, lo, hi) && a in h && !h[a].free
    requires h[a].level == TOP_LEVEL || !IsFree(h, Buddy(a, h[a].level), h[a].level)
    ensures Coalesced(Release(h, a))
  {
    var h' := Release(h, a);
    forall c | c in h' && h'[c].free && h'[c].level < TOP_LEVEL ensures !IsFree(h', Buddy(c, h'[c].level), h'[c].level) {
      if c != a {
        ReleaseOther(h, a, c, lo, hi);
      } else {
        assert Fits(a, h[a].level, lo, hi);
        BuddyGrid(a, h[a].level);
      }
    }
  }

  lemma ReleaseOther(h: Heads, a: nat, c: nat, lo: nat, hi: nat)
    requires Good(h, lo, hi) && a in h && !h[a].free
    requires h[a].level == TOP_LEVEL || !IsFree(h, Buddy(a, h[a].level), h[a].level)
    requires c in h && c != a && h[c].free && h[c].level < TOP_LEVEL
    ensures !IsFree(Release(h, a), Buddy(c, h[c].level), h[c].level)
  {
    assert Fits(c, h[c].level, lo, hi);
    BuddyBack(c, h[c].level, a);
    assert !IsFree(h, Buddy(c, h[c].level), h[c].level);
  }

  lemma UsedRelease(h: Heads, a: nat)
    requires a in h
    ensures Used(Release(h, a)) == Used(h) - {a}
  {
  }

  // ---- every step moves exactly the addresses it should ----

  lemma TakeAt(h: Heads, a: nat, x: int)
    requires Apart(h) && a in h
    ensures Owned(Take(h, a), x) <==> Owned(h, x)
    ensures Free(Take(h, a), x) <==> Free(h, x) && !Within(a, h[a].level, x)
  {
    RelabelAt(h, Take(h, a), a, x);
  }

  lemma ReleaseAt(h: Heads, a: nat, x: int)
    requires Apart(h) && a in h
    ensures Owned(Release(h, a), x) <==> Owned(h, x)
    ensures Free(Release(h, a), x) <==> Free(h, x) || Within(a, h[a].level, x)
  {
    RelabelAt(h, Release(h, a), a, x);
  }

  lemma RelabelAt(h: Heads, h': Heads, a: nat, x: int)
    requires Apart(h) && a in h && h'.Keys == h.Keys && h'[a].level == h[a].level
    requires forall c :: c in h && c != a ==> h'[c] == h[c]
    ensures Owned(h', x) <==> Owned(h, x)
    ensures Free(h', x) <==> if Within(a, h[a].level, x) then h'[a].free else Free(h, x)
  {
    forall c: nat ensures Covers(h', c, x) <==> Covers(h, c, x) {}
    if Within(a, h[a].level, x) {
      assert Covers(h', a, x);
    }
  }

  lemma HalveAt(h: Heads, a: nat, x: int)
    requires a in h && !h[a].free && h[a].level > 0 && a + Size(h[a].level - 1) !in h
    ensures Owned(Halve(h, a), x) <==> Owned(h, x)
    ensures Free(Halve(h, a), x) <==> Free(h, x) || Within(a + Size(h[a].level - 1), h[a].level - 1, x)
  {
    var h', l := Halve(h, a), h[a].level - 1;
    var u := a + Size(l);
    assert h'[u] == Head(l, true) && h'[a] == Head(l, false);
    forall c: nat | c != a && c != u ensures Covers(h', c, x) <==> Covers(h, c, x) {}
    assert Covers(h, a, x) <==> Covers(h', a, x) || Covers(h', u, x);
  }

  lemma MergeAt(h: Heads, a: nat, x: int)
    requires Apart(h) && a in h && !h[a].free && IsFree(h, Buddy(a, h[a].level), h[a].level)
    ensures Owned(Merge(h, a), x) <==> Owned(h, x)
    ensures Free(Merge(h, a), x) <==> Free(h, x) && !Within(Buddy(a, h[a].level), h[a].level, x)
  {
    PairCovers(h, a, x);
    forall c: nat | c != a && c != Buddy(a, h[a].level) ensures Covers(Merge(h, a), c, x) <==> Covers(h, c, x) {}
    MergeFreeAt(h, a, x);
  }

  /** The merged block covers what the two did. */
  lemma PairCovers(h: Heads, a: nat, x: int)
    requires a in h && IsFree(h, Buddy(a, h[a].level), h[a].level)
    ensures var b, m := Buddy(a, h[a].level), Lower(a, h[a].level);
            && Merge(h, a)[m] == Head(h[a].level + 1, false) && Merge(h, a).Keys == h.Keys - {a, b} + {m}
            && (Covers(Merge(h, a), m, x) <==> Covers(h, a, x) || Covers(h, b, x))
  {
  }

  lemma MergeFreeAt(h: Heads, a: nat, x: int)
    requires Apart(h) && a in h && !h[a].free && IsFree(h, Buddy(a, h[a].level), h[a].level)
    ensures Free(Merge(h, a), x) <==> Free(h, x) && !Within(Buddy(a, h[a].level), h[a].level, x)
  {
    var h', b := Merge(h, a), Buddy(a, h[a].level);
    PairCovers(h, a, x);
    if Free(h', x) {
      var c: nat :| Covers(h', c, x) && h'[c].free;
      assert c != b && c in h && h[c] == h'[c] && Covers(h, c, x);
      OneBlock(h, b, c, x);
    }
    if Free(h, x) && !Within(b, h[a].level, x) {
      var c: nat :| Covers(h, c, x) && h[c].free;
      assert c != a && c != b && Covers(h', c, x);
    }
  }

  // ---- every step touches only the blocks it should ----

  lemma HalveHeads(h: Heads, a: nat)
    requires a in h && !h[a].free && h[a].level > 0 && a + Size(h[a].level - 1) !in h
    ensures var l := h[a].level - 1; var u := a + Size(l);
            && (forall c :: c in Halve(h, a) && c != a && c != u ==> c in h && Halve(h, a)[c] == h[c])
            && (forall c: nat, k: nat :: IsFree(Halve(h, a), c, k) <==> IsFree(h, c, k) || (c == u && k == l))
            && Halve(h, a)[a] == Head(l, false) && Halve(h, a)[u] == Head(l, true)
  {
  }

  lemma MergeHeads(h: Heads, a: nat)
    requires a in h && !h[a].free && IsFree(h, Buddy(a, h[a].level), h[a].level)
    ensures var l := h[a].level; var b, m := Buddy(a, l), Lower(a, l);
            && (forall c :: c in Merge(h, a) && c != m ==> c in h && c != a && Merge(h, a)[c] == h[c])
            && (forall c: nat, k: nat :: IsFree(Merge(h, a), c, k) <==> IsFree(h, c, k) && c != b)
            && Merge(h, a)[m] == Head(l + 1, false)
  {
  }

  lemma ReleaseHeads(h: Heads, a: nat)
    requires a in h && !h[a].free
    ensures forall c :: c in Release(h, a) && c != a ==> c in h && Release(h, a)[c] == h[c]
    ensures forall c: nat, k: nat :: IsFree(Release(h, a), c, k) <==> IsFree(h, c, k) || (c == a && k == h[a].level)
  {
  }
}
