/** One memory region of kernel/mem/phys.c: free lists, a metadata byte per page, and the layout they stand for. */
module BuddyRegion {
  import opened Sequences
  import opened BuddyModel
  import opened BuddyLaws

  const LEVEL_COUNT: nat := 24

  // ---- the metadata bytes ----

  /** page_metadata: the index of an address's byte, or -1 for the null pointer. */
  function PageMetadata(base: nat, pageCount: nat, addr: int): (index: int)
    ensures -1 <= index < pageCount
  {
    if addr < base then -1
    else if (addr - base) / PAGE_SIZE >= pageCount then -1
    else (addr - base) / PAGE_SIZE
  }

  /** The bytes after that of an address has been written. */
  function Stored(meta: seq<Head>, base: nat, addr: int, head: Head): (r: seq<Head>)
    ensures |r| == |meta|
  {
    var i := PageMetadata(base, |meta|, addr);
    if i >= 0 then meta[i := head] else meta
  }

  ghost predicate ByteAt(meta: seq<Head>, base: nat, a: int, head: Head) {
    var i := PageMetadata(base, |meta|, a);
    i >= 0 && meta[i] == head
  }

  /** The byte of every block's first page is exact, except at the hole; whatever else the bytes say, none calls a page
      free that is not part of any block. */
  ghost predicate MetaOk(meta: seq<Head>, base: nat, h: Heads, hole: int) {
    var ok := (forall a {:trigger ByteAt(meta, base, a, h[a])} :: a in h && a != hole ==> ByteAt(meta, base, a, h[a]))
              && (forall i :: 0 <= i < |meta| && meta[i].free ==> Owned(h, base + PAGE_SIZE * i));
    ok
  }

  lemma PageAligned(a: int)
    ensures Aligned(a, PAGE_LEVEL) <==> a % PAGE_SIZE == 0
  {
    assert Size(PAGE_LEVEL) == PAGE_SIZE by {
      assert Size(4) == 256;
      assert Size(8) == 4096;
    }
    AlignedMod(a, PAGE_LEVEL);
  }

  /** Page addresses and their bytes correspond one to one. */
  lemma PageByte(base: nat, pageCount: nat, a: int)
    requires Aligned(base, PAGE_LEVEL) && Aligned(a, PAGE_LEVEL)
    ensures var i := PageMetadata(base, pageCount, a);
            && (base <= a < base + PAGE_SIZE * pageCount ==> i >= 0)
            && (i >= 0 ==> base <= a && base + PAGE_SIZE * i == a)
  {
    PageAligned(base);
    PageAligned(a);
    WholePages(base, a);
  }

  lemma WholePages(base: nat, a: int)
    requires base % PAGE_SIZE == 0 && a % PAGE_SIZE == 0
    ensures base + PAGE_SIZE * ((a - base) / PAGE_SIZE) == a
  {
  }

  lemma HeadByte(h: Heads, a: nat, base: nat, pageCount: nat)
    requires Laid(h, base, base + PAGE_SIZE * pageCount) && Aligned(base, PAGE_LEVEL) && a in h
    ensures var i := PageMetadata(base, pageCount, a);
            i >= 0 && base + PAGE_SIZE * i == a
  {
    assert Fits(a, h[a].level, base, base + PAGE_SIZE * pageCount);
    AlignedBelow(a, PAGE_LEVEL, h[a].level);
    PageByte(base, pageCount, a);
  }

  /** A step of the layout that stores no byte. */
  lemma MetaKeep(meta: seq<Head>, base: nat, h: Heads, h': Heads, hole: int, hole': int)
    requires MetaOk(meta, base, h, hole)
    requires forall c :: c in h' && c != hole' ==> c in h && c != hole && h'[c] == h[c]
    requires forall x :: Owned(h, x) ==> Owned(h', x)
    ensures MetaOk(meta, base, h', hole')
  {
    forall a | a in h' && a != hole' ensures ByteAt(meta, base, a, h'[a]) {
      assert ByteAt(meta, base, a, h[a]);
    }
  }

  /** A step of the layout that stores the byte of the block at a. */
  lemma MetaStore(meta: seq<Head>, base: nat, h: Heads, h': Heads, hole: int, hole': int, a: nat)
    requires MetaOk(meta, base, h, hole) && Aligned(base, PAGE_LEVEL) && Laid(h', base, base + PAGE_SIZE * |meta|)
    requires a in h' && forall c :: c in h' && c != hole' && c != a ==> c in h && c != hole && h'[c] == h[c]
    requires forall x :: Owned(h, x) ==> Owned(h', x)
    ensures PageMetadata(base, |meta|, a) >= 0
    ensures MetaOk(Stored(meta, base, a, h'[a]), base, h', hole')
  {
    HeadByte(h', a, base, |meta|);
    assert Covers(h', a, a);
    var meta' := Stored(meta, base, a, h'[a]);
    forall c | c in h' && c != hole' ensures ByteAt(meta', base, c, h'[c]) {
      HeadByte(h', c, base, |meta|);
      assert c != a ==> ByteAt(meta, base, c, h[c]);
    }
  }

  /** The test by which free_at_level decides to merge. */
  predicate MergeTest(meta: seq<Head>, base: nat, buddy: int, level: nat) {
    var i := PageMetadata(base, |meta|, buddy);
    i >= 0 && meta[i].free && meta[i].level == level
  }

  /** The merge test reads a current byte: it succeeds exactly when the buddy is a free block of the same level,
      although the bytes inside blocks are stale. */
  lemma BuddyLookup(meta: seq<Head>, base: nat, h: Heads, a: nat)
    requires Good(h, base, base + PAGE_SIZE * |meta|) && Aligned(base, PAGE_LEVEL) && MetaOk(meta, base, h, a)
    requires a in h && !h[a].free && h[a].level < TOP_LEVEL
    ensures MergeTest(meta, base, Buddy(a, h[a].level), h[a].level) <==> IsFree(h, Buddy(a, h[a].level), h[a].level)
  {
    var l := h[a].level;
    var b := Buddy(a, l);
    BuddyByte(h, a, base, |meta|);
    if IsFree(h, b, l) {
      HeadByte(h, b, base, |meta|);
      assert ByteAt(meta, base, b, h[b]);
    }
    if MergeTest(meta, base, b, l) {
      assert Owned(h, b);
      var c: nat :| Covers(h, c, b);
      BuddyIsHead(h, a, c, base, base + PAGE_SIZE * |meta|);
      assert ByteAt(meta, base, b, h[b]);
    }
  }

  lemma BuddyByte(h: Heads, a: nat, base: nat, pageCount: nat)
    requires Laid(h, base, base + PAGE_SIZE * pageCount) && Aligned(base, PAGE_LEVEL) && a in h
    ensures var b := Buddy(a, h[a].level);
            b != a && (PageMetadata(base, pageCount, b) >= 0 ==> base + PAGE_SIZE * PageMetadata(base, pageCount, b) == b)
  {
    assert Fits(a, h[a].level, base, base + PAGE_SIZE * pageCount);
    BuddyGrid(a, h[a].level);
    AlignedBelow(Buddy(a, h[a].level), PAGE_LEVEL, h[a].level);
    PageByte(base, pageCount, Buddy(a, h[a].level));
  }

  /** A block that reaches over the buddy's address starts there: it cannot contain the buddy without containing a. */
  lemma BuddyIsHead(h: Heads, a: nat, c: nat, lo: nat, hi: nat)
    requires Laid(h, lo, hi) && a in h && h[a].level < TOP_LEVEL && Covers(h, c, Buddy(a, h[a].level))
    ensures c == Buddy(a, h[a].level) && c != a
  {
    var l := h[a].level;
    assert Fits(a, l, lo, hi) && Fits(c, h[c].level, lo, hi);
    BuddyGrid(a, l);
    if h[c].level <= l {
      StartsThere(Buddy(a, l), l, c, h[c].level);
    } else {
      ReachesBoth(a, l, c, h[c].level);
      OneBlock(h, a, c, a);
    }
  }

  /** A block that is not larger cannot begin before an address aligned for the larger size and reach over it. */
  lemma StartsThere(b: nat, l: nat, c: nat, k: nat)
    requires k <= l && Aligned(b, l) && Aligned(c, k) && Within(c, k, b)
    ensures c == b
  {
    AlignedBelow(b, k, l);
    if c < b {
      Gap(c, b, k);
    }
  }

  /** A larger block that reaches over one half reaches over both. */
  lemma ReachesBoth(a: nat, l: nat, c: nat, k: nat)
    requires l < k && Aligned(a, l) && Aligned(c, k) && Within(c, k, Buddy(a, l))
    ensures Within(c, k, a)
  {
    BuddyGrid(a, l);
    Nested(Lower(a, l), l + 1, c, k);
  }

  // ---- the free lists ----

  /** Each list holds exactly the free blocks of its level, once. */
  ghost predicate ListsOk(lists: seq<seq<nat>>, h: Heads) {
    var ok := |lists| == LEVEL_COUNT
              && (forall l: nat :: l < LEVEL_COUNT ==> NoDup(lists[l]))
              && (forall l: nat, a: nat :: l < LEVEL_COUNT ==> (a in lists[l] <==> IsFree(h, a, l)));
    ok
  }

  /** list_del: the entry leaves whichever list it is on. */
  function Unlink(lists: seq<seq<nat>>, x: nat): (r: seq<seq<nat>>)
    ensures |r| == |lists|
  {
    seq(|lists|, i requires 0 <= i < |lists| => Without(lists[i], x))
  }

  /** list_add: the entry becomes the first of the level's list. */
  function PushFront(lists: seq<seq<nat>>, level: nat, a: nat): seq<seq<nat>> {
    if level < |lists| then lists[level := [a] + lists[level]] else lists
  }

  lemma ListsUnlink(lists: seq<seq<nat>>, h: Heads, h': Heads, b: nat)
    requires ListsOk(lists, h)
    requires forall a: nat, l: nat :: IsFree(h', a, l) <==> IsFree(h, a, l) && a != b
    ensures ListsOk(Unlink(lists, b), h')
  {
    forall l: nat | l < LEVEL_COUNT
      ensures NoDup(Unlink(lists, b)[l]) && forall a: nat :: a in Unlink(lists, b)[l] <==> IsFree(h', a, l)
    {
      WithoutElems(lists[l], b);
    }
  }

  lemma ListsPush(lists: seq<seq<nat>>, h: Heads, h': Heads, level: nat, u: nat)
    requires ListsOk(lists, h) && level < LEVEL_COUNT && !IsFree(h, u, level)
    requires forall a: nat, l: nat :: IsFree(h', a, l) <==> IsFree(h, a, l) || (a == u && l == level)
    ensures ListsOk(PushFront(lists, level, u), h')
  {
    assert u !in lists[level];
  }

  // ---- lists, bytes and layout together ----

  /** The lists and bytes of a region stand for the layout h; the byte of the block at the hole may be out of date. */
  ghost predicate Rep(lists: seq<seq<nat>>, meta: seq<Head>, base: nat, h: Heads, hole: int) {
    var rep := Aligned(base, PAGE_LEVEL) && Good(h, base, base + PAGE_SIZE * |meta|) && ListsOk(lists, h)
               && MetaOk(meta, base, h, hole);
    rep
  }

  lemma RepTake(lists: seq<seq<nat>>, meta: seq<Head>, base: nat, h: Heads, a: nat)
    requires Rep(lists, meta, base, h, -1) && a in h
    ensures Rep(Unlink(lists, a), meta, base, Take(h, a), a)
  {
    var h' := Take(h, a);
    TakeGood(h, a, base, base + PAGE_SIZE * |meta|);
    forall x ensures Owned(h, x) <==> Owned(h', x) { TakeAt(h, a, x); }
    MetaKeep(meta, base, h, h', -1, a);
    ListsUnlink(lists, h, h', a);
  }

  lemma RepHalve(lists: seq<seq<nat>>, meta: seq<Head>, base: nat, h: Heads, a: nat, l: nat, u: nat)
    requires Rep(lists, meta, base, h, a) && a in h && h[a] == Head(l + 1, false) && PAGE_LEVEL <= l < LEVEL_COUNT - 1
    requires u == a + Size(l)
    ensures PageMetadata(base, |meta|, u) >= 0
    ensures Rep(PushFront(lists, l, u), Stored(meta, base, u, Head(l, true)), base, Halve(h, a), a)
    ensures Halve(h, a)[a] == Head(l, false)
  {
    HalveGoodMeta(meta, base, h, a, l, u);
    HalveLists(lists, h, a, l, u);
    RepIntro(PushFront(lists, l, u), Stored(meta, base, u, Head(l, true)), base, Halve(h, a), a, |meta|);
  }

  lemma RepIntro(lists: seq<seq<nat>>, meta: seq<Head>, base: nat, h: Heads, hole: int, n: nat)
    requires |meta| == n && Aligned(base, PAGE_LEVEL) && Good(h, base, base + PAGE_SIZE * n)
    requires ListsOk(lists, h) && MetaOk(meta, base, h, hole)
    ensures Rep(lists, meta, base, h, hole)
  {
  }

  lemma HalveLists(lists: seq<seq<nat>>, h: Heads, a: nat, l: nat, u: nat)
    requires ListsOk(lists, h) && a in h && h[a] == Head(l + 1, false) && l < LEVEL_COUNT
    requires u == a + Size(l) && u !in h
    ensures ListsOk(PushFront(lists, l, u), Halve(h, a)) && Halve(h, a)[a] == Head(l, false)
  {
    HalveHeads(h, a);
    ListsPush(lists, h, Halve(h, a), l, u);
  }

  lemma HalveGoodMeta(meta: seq<Head>, base: nat, h: Heads, a: nat, l: nat, u: nat)
    requires MetaOk(meta, base, h, a) && Aligned(base, PAGE_LEVEL) && Good(h, base, base + PAGE_SIZE * |meta|)
    requires a in h && h[a] == Head(l + 1, false) && PAGE_LEVEL <= l && u == a + Size(l)
    ensures u !in h && Good(Halve(h, a), base, base + PAGE_SIZE * |meta|)
    ensures PageMetadata(base, |meta|, u) >= 0
    ensures MetaOk(Stored(meta, base, u, Head(l, true)), base, Halve(h, a), a)
  {
    HalveGoodAt(h, a, l, u, base, base + PAGE_SIZE * |meta|);
    HalveMeta(meta, base, h, a, l, u);
  }

  lemma HalveGoodAt(h: Heads, a: nat, l: nat, u: nat, lo: nat, hi: nat)
    requires Good(h, lo, hi) && a in h && h[a] == Head(l + 1, false) && PAGE_LEVEL <= l && u == a + Size(l)
    ensures u !in h && Good(Halve(h, a), lo, hi)
  {
    HalveGood(h, a, lo, hi);
  }

  lemma HalveMeta(meta: seq<Head>, base: nat, h: Heads, a: nat, l: nat, u: nat)
    requires MetaOk(meta, base, h, a) && Aligned(base, PAGE_LEVEL) && a in h && h[a] == Head(l + 1, false)
    requires Good(Halve(h, a), base, base + PAGE_SIZE * |meta|) && u == a + Size(l) && u !in h
    ensures PageMetadata(base, |meta|, u) >= 0
    ensures MetaOk(Stored(meta, base, u, Head(l, true)), base, Halve(h, a), a)
  {
    HalveHeads(h, a);
    forall x ensures Owned(h, x) <==> Owned(Halve(h, a), x) { HalveAt(h, a, x); }
    MetaStore(meta, base, h, Halve(h, a), a, a, u);
  }

  lemma RepMark(lists: seq<seq<nat>>, meta: seq<Head>, base: nat, h: Heads, a: nat)
    requires Rep(lists, meta, base, h, a) && a in h
    ensures PageMetadata(base, |meta|, a) >= 0 && Rep(lists, Stored(meta, base, a, h[a]), base, h, -1)
  {
    MetaStore(meta, base, h, h, a, -1, a);
  }

  lemma RepMerge(lists: seq<seq<nat>>, meta: seq<Head>, base: nat, h: Heads, a: nat)
    requires Rep(lists, meta, base, h, a) && a in h && !h[a].free && h[a].level < TOP_LEVEL
    requires IsFree(h, Buddy(a, h[a].level), h[a].level)
    ensures var l := h[a].level; var m := Lower(a, l);
            && m in Merge(h, a) && Merge(h, a)[m] == Head(l + 1, false)
            && Rep(Unlink(lists, Buddy(a, l)), meta, base, Merge(h, a), m)
  {
    var h', l := Merge(h, a), h[a].level;
    MergeGood(h, a, base, base + PAGE_SIZE * |meta|);
    forall x ensures Owned(h, x) <==> Owned(h', x) { MergeAt(h, a, x); }
    MergeHeads(h, a);
    MetaKeep(meta, base, h, h', a, Lower(a, l));
    ListsUnlink(lists, h, h', Buddy(a, l));
  }

  lemma RepRelease(lists: seq<seq<nat>>, meta: seq<Head>, base: nat, h: Heads, a: nat)
    requires Rep(lists, meta, base, h, a) && a in h && !h[a].free && h[a].level <= TOP_LEVEL
    requires h[a].level == TOP_LEVEL || !IsFree(h, Buddy(a, h[a].level), h[a].level)
    ensures PageMetadata(base, |meta|, a) >= 0
    ensures Rep(PushFront(lists, h[a].level, a), Stored(meta, base, a, Head(h[a].level, true)), base, Release(h, a), -1)
  {
    var l := h[a].level;
    ReleaseMeta(meta, base, h, a);
    ReleaseLists(lists, h, a);
    RepIntro(PushFront(lists, l, a), Stored(meta, base, a, Head(l, true)), base, Release(h, a), -1, |meta|);
  }

  lemma ReleaseLists(lists: seq<seq<nat>>, h: Heads, a: nat)
    requires ListsOk(lists, h) && a in h && !h[a].free && h[a].level <= TOP_LEVEL
    ensures ListsOk(PushFront(lists, h[a].level, a), Release(h, a))
  {
    ReleaseHeads(h, a);
    ListsPush(lists, h, Release(h, a), h[a].level, a);
  }

  lemma ReleaseMeta(meta: seq<Head>, base: nat, h: Heads, a: nat)
    requires MetaOk(meta, base, h, a) && Aligned(base, PAGE_LEVEL) && Good(h, base, base + PAGE_SIZE * |meta|)
    requires a in h && !h[a].free && (h[a].level == TOP_LEVEL || !IsFree(h, Buddy(a, h[a].level), h[a].level))
    ensures Good(Release(h, a), base, base + PAGE_SIZE * |meta|)
    ensures PageMetadata(base, |meta|, a) >= 0
    ensures MetaOk(Stored(meta, base, a, Head(h[a].level, true)), base, Release(h, a), -1)
  {
    ReleaseGood(h, a, base, base + PAGE_SIZE * |meta|);
    ReleaseHeads(h, a);
    forall x ensures Owned(h, x) <==> Owned(Release(h, a), x) { ReleaseAt(h, a, x); }
    MetaStore(meta, base, h, Release(h, a), a, -1, a);
  }

  /** The free lists after a block has been merged and listed first. */
  ghost function CoalesceLists(lists: seq<seq<nat>>, h: Heads, a: nat): seq<seq<nat>>
    requires a in h
    decreases TOP_LEVEL - h[a].level
  {
    if h[a].level < TOP_LEVEL && IsFree(h, Buddy(a, h[a].level), h[a].level)
    then CoalesceLists(Unlink(lists, Buddy(a, h[a].level)), Merge(h, a), Lower(a, h[a].level))
    else PushFront(lists, h[a].level, a)
  }

  /** The block that a release ends in is the first of its list, so it is the first that an allocation of its level
      takes. */
  lemma {:induction false} ReleasedFirst(lists: seq<seq<nat>>, h: Heads, a: nat) returns (m: nat, level: nat)
    requires a in h && h[a].level <= TOP_LEVEL && |lists| == LEVEL_COUNT
    ensures level < LEVEL_COUNT && |CoalesceLists(lists, h, a)| == LEVEL_COUNT
    ensures CoalesceLists(lists, h, a)[level] != [] && CoalesceLists(lists, h, a)[level][0] == m
    ensures IsFree(Coalesce(h, a), m, level)
    ensures h[a].level == TOP_LEVEL || !IsFree(h, Buddy(a, h[a].level), h[a].level) ==>
              m == a && level == h[a].level && CoalesceLists(lists, h, a) == lists[level := [a] + lists[level]]
    decreases TOP_LEVEL - h[a].level
  {
    if h[a].level < TOP_LEVEL && IsFree(h, Buddy(a, h[a].level), h[a].level) {
      m, level := ReleasedFirst(Unlink(lists, Buddy(a, h[a].level)), Merge(h, a), Lower(a, h[a].level));
    } else {
      m, level := a, h[a].level;
    }
  }

  /** After a block has been split, its sister is the first of the list of its level, and the next that is taken. */
  lemma {:induction false} SisterFirst(lists: seq<seq<nat>>, h: Heads, a: nat, level: nat)
    requires a in h && level < h[a].level <= TOP_LEVEL && |lists| == LEVEL_COUNT
    ensures |CarveLists(lists, h, a, level)| == LEVEL_COUNT
    ensures CarveLists(lists, h, a, level)[level] == [a + Size(level)] + lists[level]
    ensures forall k :: 0 <= k < level ==> CarveLists(lists, h, a, level)[k] == lists[k]
    decreases h[a].level
  {
    var l := h[a].level - 1;
    var lists1 := PushFront(lists, l, a + Size(l));
    if l > level {
      SisterFirst(lists1, Halve(h, a), a, level);
    }
  }

  /** The free lists after a block has been split down, each upper half listed first. */
  function CarveLists(lists: seq<seq<nat>>, h: Heads, a: nat, level: nat): seq<seq<nat>>
    requires a in h && level <= h[a].level
    decreases h[a].level
  {
    if h[a].level == level then lists
    else CarveLists(PushFront(lists, h[a].level - 1, a + Size(h[a].level - 1)), Halve(h, a), a, level)
  }

  lemma CarveListsStep(lists: seq<seq<nat>>, h: Heads, a: nat, level: nat, at: nat)
    requires a in h && level < at && h[a].level == at
    ensures Halve(h, a)[a].level == at - 1 && Carve(h, a, level) == Carve(Halve(h, a), a, level)
    ensures CarveLists(lists, h, a, level) == CarveLists(PushFront(lists, at - 1, a + Size(at - 1)), Halve(h, a), a, level)
  {
  }

  // ---- the region itself ----

  class Region {
    const base: nat
    const pageCount: nat
    const metadata: array<Head>
    var freeList: seq<seq<nat>>
    ghost var heads: Heads

    /** The region stands for heads, but for the byte of the block at the hole. */
    ghost predicate Holds(hole: int)
      reads this, metadata
    {
      && metadata.Length == pageCount && base > 0
      && Rep(freeList, metadata[..], base, heads, hole)
    }

    ghost predicate Valid()
      reads this, metadata
    {
      Holds(-1)
    }

    /** A region of a zeroed metadata array, before any memory is added. */
    constructor (base: nat, pageCount: nat)
      requires base > 0 && Aligned(base, PAGE_LEVEL)
      ensures Valid() && heads == map[] && this.base == base && this.pageCount == pageCount && fresh(metadata)
    {
      this.base, this.pageCount := base, pageCount;
      metadata := new Head[pageCount](_ => Head(0, false));
      freeList := seq(LEVEL_COUNT, _ => []);
      heads := map[];
    }

    method SetByte(addr: nat, head: Head)
      requires metadata.Length == pageCount && PageMetadata(base, pageCount, addr) >= 0
      modifies metadata
      ensures metadata[..] == Stored(old(metadata[..]), base, addr, head)
    {
      metadata[PageMetadata(base, pageCount, addr)] := head;
    }

    /** A round of free_at_level: the block at ptr absorbs its buddy if that is free as a whole. */
    method MergeRound(ptr: nat, level: nat) returns (merged: bool, lower: nat)
      requires Holds(ptr) && ptr in heads && heads[ptr] == Head(level, false) && level < TOP_LEVEL
      modifies this`freeList, this`heads
      ensures merged <==> IsFree(old(heads), Buddy(ptr, level), level)
      ensures !merged ==> heads == old(heads) && freeList == old(freeList) && lower == ptr
      ensures merged ==> heads == Merge(old(heads), ptr) && lower == Lower(ptr, level)
                         && freeList == Unlink(old(freeList), Buddy(ptr, level))
      ensures Holds(lower) && lower in heads && heads[lower] == Head(if merged then level + 1 else level, false)
    {
      var blockSize := Size(level);
      var neighbor: int := if ptr % (blockSize * 2) == 0 then 1 else -1;
      var entry := ptr + neighbor * blockSize;
      NeighborIsBuddy(ptr, level, neighbor, entry);
      BuddyLookup(metadata[..], base, heads, ptr);
      var byte := PageMetadata(base, pageCount, entry);
      if byte == -1 || !metadata[byte].free || metadata[byte].level != level {
        return false, ptr;
      }
      RepMerge(freeList, metadata[..], base, heads, ptr);
      freeList := Unlink(freeList, entry);
      heads := Merge(heads, ptr);
      return true, if neighbor == -1 then ptr - blockSize else ptr;
    }

    /** free_at_level, on an allocated block whose byte may be out of date. */
    method FreeAtLevel(addr: nat, at: nat)
      requires Holds(addr) && addr in heads && heads[addr] == Head(at, false)
      modifies this`freeList, this`heads, metadata
      ensures Valid() && heads == Coalesce(old(heads), addr)
      ensures freeList == CoalesceLists(old(freeList), old(heads), addr)
    {
      var ptr, level := addr, at;
      ghost var target, lists := Coalesce(heads, addr), CoalesceLists(freeList, heads, addr);
      RepLevel(freeList, metadata[..], base, heads, ptr, ptr);
      while level < LEVEL_COUNT - 1
        invariant Holds(ptr) && ptr in heads && heads[ptr] == Head(level, false) && Coalesce(heads, ptr) == target
        invariant level <= TOP_LEVEL && CoalesceLists(freeList, heads, ptr) == lists
      {
        var merged;
        merged, ptr := MergeRound(ptr, level);
        if !merged {
          break;
        }
        level := level + 1;
      }
      RepRelease(freeList, metadata[..], base, heads, ptr);
      SetByte(ptr, Head(level, true));
      freeList := PushFront(freeList, level, ptr);
      heads := Release(heads, ptr);
    }

    /** The search of allocate_from_level: the first list from the given level up that is not empty. */
    method FindLevel(level: nat) returns (at: nat)
      requires Valid() && level < LEVEL_COUNT
      ensures level <= at <= LEVEL_COUNT == |freeList| && (at < LEVEL_COUNT ==> freeList[at] != [])
      ensures forall k :: level <= k < at ==> freeList[k] == []
      ensures at == LEVEL_COUNT ==> forall a: nat, k: nat :: IsFree(heads, a, k) ==> k < level
      ensures forall a: nat, k: nat :: level <= k < at ==> !IsFree(heads, a, k)
    {
      at := level;
      assert |freeList| == LEVEL_COUNT;
      while at < LEVEL_COUNT && freeList[at] == []
        invariant level <= at <= LEVEL_COUNT
        invariant forall k :: level <= k < at ==> freeList[k] == []
      {
        at := at + 1;
      }
      forall a: nat, k: nat | level <= k && IsFree(heads, a, k) ensures at <= k < LEVEL_COUNT {
        RepLevel(freeList, metadata[..], base, heads, -1, a);
        assert a in freeList[k];
      }
    }

    /** The block is the first of the first list from the level up that is not empty. */
    ghost predicate FirstFit(lists: seq<seq<nat>>, level: nat, block: nat, at: nat) {
      && at < |lists| && lists[at] != [] && lists[at][0] == block
      && forall k :: level <= k < at ==> lists[k] == []
    }

    /** allocate_from_level; 0 stands for the null pointer. */
    method AllocateFromLevel(level: int) returns (block: nat)
      requires Valid() && (level == -1 || PAGE_LEVEL <= level < LEVEL_COUNT)
      modifies this`freeList, this`heads, metadata
      ensures Valid()
      ensures block == 0 ==> heads == old(heads) && forall a: nat, k: nat :: IsFree(heads, a, k) ==> level == -1 || k < level
      ensures block != 0 ==> level >= 0 && block in old(heads) && old(heads)[block].free && level <= old(heads)[block].level
                             && heads == Carve(Take(old(heads), block), block, level)
                             && freeList == CarveLists(Unlink(old(freeList), block), Take(old(heads), block), block, level)
      ensures block != 0 ==> FirstFit(old(freeList), level, block, old(heads)[block].level)
    {
      if level == -1 {
        return 0;
      }
      var at := FindLevel(level);
      if at == LEVEL_COUNT {
        return 0;
      }
      block := freeList[at][0];
      assert IsFree(heads, block, at);
      RepLevel(freeList, metadata[..], base, heads, -1, block);
      RepTake(freeList, metadata[..], base, heads, block);
      freeList := Unlink(freeList, block);
      heads := Take(heads, block);
      Split(block, at, level);
    }

    /** A round of the splitting loop: the upper half goes to the front of the list below. */
    method SplitRound(block: nat, level: nat)
      requires Holds(block) && block in heads && heads[block] == Head(level, false) && PAGE_LEVEL < level < LEVEL_COUNT
      modifies this`freeList, this`heads, metadata
      ensures Holds(block) && heads == Halve(old(heads), block) && heads[block] == Head(level - 1, false)
      ensures freeList == PushFront(old(freeList), level - 1, block + Size(level - 1))
    {
      var blockSize := Size(level);
      var upper: nat := block + blockSize / 2;
      assert upper == block + Size(level - 1);
      RepHalve(freeList, metadata[..], base, heads, block, level - 1, upper);
      freeList := PushFront(freeList, level - 1, upper);
      SetByte(upper, Head(level - 1, true));
      heads := Halve(heads, block);
    }

    /** The splitting loop of allocate_from_level, and the mark on what is left. */
    method Split(block: nat, from: nat, level: nat)
      requires Holds(block) && block in heads && heads[block] == Head(from, false)
      requires PAGE_LEVEL <= level <= from < LEVEL_COUNT
      modifies this`freeList, this`heads, metadata
      ensures Valid() && heads == Carve(old(heads), block, level)
      ensures freeList == CarveLists(old(freeList), old(heads), block, level)
    {
      var at := from;
      ghost var target, lists := Carve(heads, block, level), CarveLists(freeList, heads, block, level);
      while at > level
        invariant level <= at < LEVEL_COUNT && Holds(block) && block in heads && heads[block] == Head(at, false)
        invariant Carve(heads, block, level) == target && CarveLists(freeList, heads, block, level) == lists
      {
        CarveListsStep(freeList, heads, block, level, at);
        SplitRound(block, at);
        at := at - 1;
      }
      RepMark(freeList, metadata[..], base, heads, block);
      SetByte(block, Head(level, false));
    }

    /** The level that phys_free reads from the byte of an allocated block. */
    method LevelOf(ptr: nat) returns (level: nat)
      requires Valid() && ptr in heads
      ensures level == heads[ptr].level && Aligned(ptr, level) && Holds(ptr)
    {
      ByteOfHead(freeList, metadata[..], base, heads, ptr);
      level := metadata[PageMetadata(base, pageCount, ptr)].level;
    }

    /** What phys_free does in the region it has found: the alignment assertion holds. */
    method Free(ptr: nat)
      requires Valid() && ptr in heads && !heads[ptr].free
      modifies this`freeList, this`heads, metadata
      ensures Valid() && heads == Coalesce(old(heads), ptr)
      ensures freeList == CoalesceLists(old(freeList), old(heads), ptr)
    {
      var level := LevelOf(ptr);
      assert ptr % Size(level) == 0 by { AlignedMod(ptr, level); }
      FreeAtLevel(ptr, level);
    }

    /** The range lies inside the region. */
    ghost predicate Inside(from: nat, to: nat) { base <= from && to <= base + PAGE_SIZE * pageCount }

    /** Memory that was in no block becomes one free block, and merges with what is around it. */
    method AddBlock(addr: nat, level: nat)
      requires Valid() && PAGE_LEVEL <= level < LEVEL_COUNT && Aligned(addr, level)
      requires Inside(addr, addr + Size(level)) && Unowned(heads, addr, addr + Size(level))
      modifies this`freeList, this`heads, metadata
      ensures Valid() && Grown(old(heads), heads, addr, addr + Size(level))
    {
      ghost var h := heads;
      RepGrow(freeList, metadata[..], base, h, addr, level);
      CoalesceGrown(h, addr, level, base, base + PAGE_SIZE * pageCount);
      heads := h[addr := Head(level, false)];
      FreeAtLevel(addr, level);
    }

    /** The next block of the range joins the free memory. */
    method AddNext(ghost h: Heads, ghost from: nat, at: nat, level: nat, ghost end: nat)
      requires Valid() && Added(h, heads, from, at, end) && Inside(from, end)
      requires PAGE_LEVEL <= level < LEVEL_COUNT && Aligned(at, level) && at + Size(level) <= end
      modifies this`freeList, this`heads, metadata
      ensures Valid() && Added(h, heads, from, at + Size(level), end)
    {
      ghost var h1 := heads;
      UnownedPart(heads, at, at + Size(level), end);
      AddBlock(at, level);
      AddedMore(h, h1, heads, from, at, at + Size(level), end);
    }

    /** The loops of add_memory_to_region that add single pages: up to a boundary of the top level, or to the end. */
    method AddPages(addr: nat, count: nat, toBoundary: bool) returns (at: nat, left: nat)
      requires Valid() && Aligned(addr, PAGE_LEVEL)
      requires Inside(addr, addr + PAGE_SIZE * count) && Unowned(heads, addr, addr + PAGE_SIZE * count)
      modifies this`freeList, this`heads, metadata
      ensures Valid() && at + PAGE_SIZE * left == addr + PAGE_SIZE * count && Aligned(at, PAGE_LEVEL)
      ensures Added(old(heads), heads, addr, at, addr + PAGE_SIZE * count)
      ensures left == 0 || (toBoundary && Aligned(at, TOP_LEVEL))
    {
      at, left := addr, count;
      AddedNone(heads, addr, addr + PAGE_SIZE * count);
      while (!toBoundary || at % Size(TOP_LEVEL) != 0) && left != 0
        invariant Valid() && Added(old(heads), heads, addr, at, addr + PAGE_SIZE * count)
        invariant at + PAGE_SIZE * left == addr + PAGE_SIZE * count && Aligned(at, PAGE_LEVEL)
        decreases left
      {
        NextPage(at);
        AddNext(old(heads), addr, at, PAGE_LEVEL, addr + PAGE_SIZE * count);
        at, left := at + PAGE_SIZE, left - 1;
      }
      AlignedMod(at, TOP_LEVEL);
    }

    /** The loop of add_memory_to_region that adds blocks of the top level. */
    method AddTops(addr: nat, count: nat) returns (at: nat, left: nat)
      requires Valid() && (count == 0 || Aligned(addr, TOP_LEVEL)) && Aligned(addr, PAGE_LEVEL)
      requires Inside(addr, addr + PAGE_SIZE * count) && Unowned(heads, addr, addr + PAGE_SIZE * count)
      modifies this`freeList, this`heads, metadata
      ensures Valid() && at + PAGE_SIZE * left == addr + PAGE_SIZE * count && Aligned(at, PAGE_LEVEL)
      ensures Added(old(heads), heads, addr, at, addr + PAGE_SIZE * count)
    {
      at, left := addr, count;
      AddedNone(heads, addr, addr + PAGE_SIZE * count);
      while left >= TOP_PAGES
        invariant Valid() && Added(old(heads), heads, addr, at, addr + PAGE_SIZE * count)
        invariant at + PAGE_SIZE * left == addr + PAGE_SIZE * count
        invariant Aligned(at, PAGE_LEVEL) && (left == 0 || Aligned(at, TOP_LEVEL))
        decreases left
      {
        NextTop(at);
        AddNext(old(heads), addr, at, TOP_LEVEL, addr + PAGE_SIZE * count);
        at, left := at + PAGE_SIZE * TOP_PAGES, left - TOP_PAGES;
      }
    }

    /** add_memory_to_region: the pages from addr on join the region's free memory. */
    method AddMemory(addr: nat, count: nat)
      requires Valid() && Aligned(addr, PAGE_LEVEL)
      requires Inside(addr, addr + PAGE_SIZE * count) && Unowned(heads, addr, addr + PAGE_SIZE * count)
      modifies this`freeList, this`heads, metadata
      ensures Valid() && Grown(old(heads), heads, addr, addr + PAGE_SIZE * count)
    {
      ghost var end := addr + PAGE_SIZE * count;
      var at, left := AddPages(addr, count, true);
      ghost var h1, a1 := heads, at;
      at, left := AddTops(at, left);
      ghost var h2, a2 := heads, at;
      AddedMore(old(heads), h1, h2, addr, a1, a2, end);
      at, left := AddPages(at, left, false);
      AddedMore(old(heads), h2, heads, addr, a2, at, end);
    }
  }

  const TOP_PAGES: nat := 32768  // BUDDY_TOP_LEVEL_SIZE / SIZE_4KB

  /** h' owns what h owns and the range, and has the same allocated blocks. */
  ghost predicate Grown(h: Heads, h': Heads, from: nat, to: nat) {
    var grown := Used(h') == Used(h) && forall x :: Owned(h', x) <==> Owned(h, x) || from <= x < to;
    grown
  }

  ghost predicate Unowned(h: Heads, from: nat, to: nat) {
    var unowned := forall x :: Owned(h, x) ==> !(from <= x < to);
    unowned
  }

  /** Of a range, the part up to `at` has been added. */
  ghost predicate Added(h: Heads, h': Heads, from: nat, at: nat, end: nat) {
    var added := from <= at <= end && Grown(h, h', from, at) && Unowned(h', at, end);
    added
  }

  lemma AddedNone(h: Heads, from: nat, end: nat)
    requires from <= end && Unowned(h, from, end)
    ensures Added(h, h, from, from, end)
  {
  }

  lemma UnownedPart(h: Heads, from: nat, mid: nat, to: nat)
    requires Unowned(h, from, to) && mid <= to
    ensures Unowned(h, from, mid)
  {
  }

  lemma AddedMore(h: Heads, h1: Heads, h2: Heads, from: nat, mid: nat, to: nat, end: nat)
    requires Added(h, h1, from, mid, end) && Grown(h1, h2, mid, to) && mid <= to <= end
    ensures Added(h, h2, from, to, end)
  {
  }

  lemma NextPage(a: nat)
    requires Aligned(a, PAGE_LEVEL)
    ensures Size(PAGE_LEVEL) == PAGE_SIZE && Aligned(a + PAGE_SIZE, PAGE_LEVEL)
  {
    SizeOfPage();
    NextAligned(a, PAGE_LEVEL);
  }

  lemma NextTop(a: nat)
    requires Aligned(a, TOP_LEVEL)
    ensures Size(TOP_LEVEL) == PAGE_SIZE * TOP_PAGES
    ensures Aligned(a + PAGE_SIZE * TOP_PAGES, TOP_LEVEL) && Aligned(a + PAGE_SIZE * TOP_PAGES, PAGE_LEVEL)
  {
    SizeOfPage();
    NextAligned(a, TOP_LEVEL);
    AlignedBelow(a + Size(TOP_LEVEL), PAGE_LEVEL, TOP_LEVEL);
  }

  lemma CoalesceGrown(h: Heads, a: nat, level: nat, lo: nat, hi: nat)
    requires a !in h && Good(h[a := Head(level, false)], lo, hi)
    ensures Grown(h, Coalesce(h[a := Head(level, false)], a), a, a + Size(level))
  {
    var h1 := h[a := Head(level, false)];
    CoalesceGood(h1, a, lo, hi);
    GrowUsed(h, a, level);
    forall x ensures Owned(Coalesce(h1, a), x) <==> Owned(h, x) || a <= x < a + Size(level) {
      CoalesceAt(h1, a, x, lo, hi);
      GrowAt(h, a, level, x);
    }
  }

  lemma ByteOfHead(lists: seq<seq<nat>>, meta: seq<Head>, base: nat, h: Heads, a: nat)
    requires Rep(lists, meta, base, h, -1) && a in h
    ensures PageMetadata(base, |meta|, a) >= 0 && meta[PageMetadata(base, |meta|, a)] == h[a]
    ensures Aligned(a, h[a].level) && Rep(lists, meta, base, h, a)
  {
    RepLevel(lists, meta, base, h, -1, a);
    assert ByteAt(meta, base, a, h[a]);
    MetaKeepHole(meta, base, h, a);
  }

  lemma MetaKeepHole(meta: seq<Head>, base: nat, h: Heads, a: nat)
    requires MetaOk(meta, base, h, -1)
    ensures MetaOk(meta, base, h, a)
  {
  }

  lemma RepLevel(lists: seq<seq<nat>>, meta: seq<Head>, base: nat, h: Heads, hole: int, a: nat)
    requires Rep(lists, meta, base, h, hole) && a in h
    ensures PAGE_LEVEL <= h[a].level <= TOP_LEVEL && Aligned(a, h[a].level)
    ensures base <= a && a + Size(h[a].level) <= base + PAGE_SIZE * |meta|
  {
    assert Fits(a, h[a].level, base, base + PAGE_SIZE * |meta|);
  }

  lemma NeighborIsBuddy(ptr: nat, level: nat, neighbor: int, entry: int)
    requires neighbor == (if ptr % (Size(level) * 2) == 0 then 1 else -1) && entry == ptr + neighbor * Size(level)
    ensures entry == Buddy(ptr, level)
  {
    AlignedMod(ptr, level + 1);
  }

  lemma SizeOfPage()
    ensures Size(PAGE_LEVEL) == PAGE_SIZE && Size(TOP_LEVEL) == 32768 * PAGE_SIZE
  {
    assert Size(4) == 256;
    assert Size(8) == 4096;
    assert Size(12) == 65536;
    assert Size(16) == 1048576;
    assert Size(20) == 16777216;
  }

  lemma GrowUsed(h: Heads, a: nat, level: nat)
    requires a !in h
    ensures Used(h[a := Head(level, false)]) - {a} == Used(h)
  {
  }

  lemma GrowAt(h: Heads, a: nat, level: nat, x: int)
    requires a !in h
    ensures Owned(h[a := Head(level, false)], x) <==> Owned(h, x) || Within(a, level, x)
  {
    var h' := h[a := Head(level, false)];
    forall c: nat | c != a ensures Covers(h', c, x) <==> Covers(h, c, x) {}
    assert Covers(h', a, x) <==> Within(a, level, x);
  }

  lemma RepGrow(lists: seq<seq<nat>>, meta: seq<Head>, base: nat, h: Heads, a: nat, level: nat)
    requires Rep(lists, meta, base, h, -1) && Fits(a, level, base, base + PAGE_SIZE * |meta|)
    requires Unowned(h, a, a + Size(level))
    ensures Rep(lists, meta, base, h[a := Head(level, false)], a) && a !in h
    ensures Good(h[a := Head(level, false)], base, base + PAGE_SIZE * |meta|)
  {
    var h' := h[a := Head(level, false)];
    GrowGood(h, a, level, base, base + PAGE_SIZE * |meta|);
    GrowLists(lists, h, a, level);
    forall x ensures Owned(h, x) ==> Owned(h', x) { GrowAt(h, a, level, x); }
    MetaKeep(meta, base, h, h', -1, a);
    RepIntro(lists, meta, base, h', a, |meta|);
  }

  lemma GrowGood(h: Heads, a: nat, level: nat, lo: nat, hi: nat)
    requires Good(h, lo, hi) && Fits(a, level, lo, hi) && Unowned(h, a, a + Size(level))
    ensures a !in h && Good(h[a := Head(level, false)], lo, hi)
  {
    GrowClear(h, a, level);
    LaidPut(h, a, Head(level, false), lo, hi);
    GrowCoalesced(h, a, level);
  }

  lemma GrowCoalesced(h: Heads, a: nat, level: nat)
    requires Coalesced(h) && a !in h
    ensures Coalesced(h[a := Head(level, false)])
  {
  }

  lemma GrowLists(lists: seq<seq<nat>>, h: Heads, a: nat, level: nat)
    requires ListsOk(lists, h) && a !in h
    ensures ListsOk(lists, h[a := Head(level, false)])
  {
  }

  lemma GrowClear(h: Heads, a: nat, level: nat)
    requires Unowned(h, a, a + Size(level))
    ensures a !in h && Clear(h, a, level)
  {
    if a in h {
      assert Covers(h, a, a);
      assert Owned(h, a);
    }
    forall c | c in h && c != a ensures c + Size(h[c].level) <= a || a + Size(level) <= c {
      var x := if c < a then a else c;
      assert Covers(h, c, x) ==> Owned(h, x);
    }
  }
}
