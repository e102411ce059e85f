/** What allocation and release do to a layout, and why the free blocks depend on the free addresses alone. */
module BuddyLaws {
  import opened BuddyModel

  // ---- the two operations ----

  /** Halves the allocated block at a down to the given level. */
  function Carve(h: Heads, a: nat, level: nat): Heads
    requires a in h && level <= h[a].level
    decreases h[a].level
  {
    if h[a].level == level then h else Carve(Halve(h, a), a, level)
  }

  /** Lets the allocated block at a absorb free buddies, and marks the result free. */
  ghost function Coalesce(h: Heads, a: nat): Heads
    requires a in h
    decreases TOP_LEVEL - h[a].level
  {
    if h[a].level < TOP_LEVEL && IsFree(h, Buddy(a, h[a].level), h[a].level)
    then Coalesce(Merge(h, a), Lower(a, h[a].level))
    else Release(h, a)
  }

  /** Allocation keeps the layout good and adds exactly one allocated block. */
  lemma CarveGood(h: Heads, a: nat, level: nat, lo: nat, hi: nat)
    requires Good(h, lo, hi) && a in h && !h[a].free && PAGE_LEVEL <= level <= h[a].level
    ensures var h' := Carve(h, a, level);
            Good(h', lo, hi) && a in h' && h'[a] == Head(level, false) && Used(h') == Used(h)[a := level]
  {
    CarveLaid(h, a, level, lo, hi);
    CarveUsed(h, a, level, lo, hi);
  }

  lemma {:induction false} CarveLaid(h: Heads, a: nat, level: nat, lo: nat, hi: nat)
    requires Good(h, lo, hi) && a in h && !h[a].free && PAGE_LEVEL <= level <= h[a].level
    ensures var h' := Carve(h, a, level);
            Good(h', lo, hi) && a in h' && h'[a] == Head(level, false)
    decreases h[a].level
  {
    if level < h[a].level {
      HalveGood(h, a, lo, hi);
      CarveLaid(Halve(h, a), a, level, lo, hi);
    }
  }

  lemma {:induction false} CarveUsed(h: Heads, a: nat, level: nat, lo: nat, hi: nat)
    requires Good(h, lo, hi) && a in h && !h[a].free && PAGE_LEVEL <= level <= h[a].level
    ensures Used(Carve(h, a, level)) == Used(h)[a := level]
    decreases h[a].level
  {
    if level < h[a].level {
      HalveGood(h, a, lo, hi);
      CarveUsed(Halve(h, a), a, level, lo, hi);
      Twice(Used(h), a, h[a].level - 1, level);
    } else {
      assert Used(h) == Used(h)[a := level];
    }
  }

  lemma Twice(m: map<nat, nat>, a: nat, x: nat, y: nat)
    ensures m[a := x][a := y] == m[a := y]
  {
  }

  /** Of the block that is carved, exactly the addresses outside (a, level) become free. */
  lemma CarveAt(h: Heads, a: nat, level: nat, x: int)
    requires Apart(h) && a in h && !h[a].free && level <= h[a].level
    ensures Owned(Carve(h, a, level), x) <==> Owned(h, x)
    ensures Free(Carve(h, a, level), x) <==> Free(h, x) || (Within(a, h[a].level, x) && !Within(a, level, x))
  {
    CarveOwned(h, a, level, x);
    CarveFree(h, a, level, h[a].level, x);
  }

  lemma {:induction false} CarveOwned(h: Heads, a: nat, level: nat, x: int)
    requires Apart(h) && a in h && !h[a].free && level <= h[a].level
    ensures Owned(Carve(h, a, level), x) <==> Owned(h, x)
    decreases h[a].level
  {
    if level < h[a].level {
      HalveApart(h, a, h[a].level - 1);
      HalveAt(h, a, x);
      CarveOwned(Halve(h, a), a, level, x);
    }
  }

  lemma {:induction false} CarveFree(h: Heads, a: nat, level: nat, l: nat, x: int)
    requires Apart(h) && a in h && h[a] == Head(l, false) && level <= l
    ensures Free(Carve(h, a, level), x) <==> Free(h, x) || (Within(a, l, x) && !Within(a, level, x))
    decreases l
  {
    if level < l {
      HalvedFree(h, a, l - 1, level, x);
      CarveFree(Halve(h, a), a, level, l - 1, x);
    }
  }

  lemma HalvedFree(h: Heads, a: nat, l: nat, level: nat, x: int)
    requires Apart(h) && a in h && h[a] == Head(l + 1, false) && level <= l
    ensures Apart(Halve(h, a))
    ensures Free(Halve(h, a), x) || (Within(a, l, x) && !Within(a, level, x)) <==>
            Free(h, x) || (Within(a, l + 1, x) && !Within(a, level, x))
  {
    HalveApart(h, a, l);
    HalveAt(h, a, x);
    HalvesAt(a, l, level, x);
  }

  lemma HalvesAt(a: nat, l: nat, level: nat, x: int)
    requires level <= l
    ensures Within(a, l + 1, x) && !Within(a, level, x) <==>
            Within(a + Size(l), l, x) || (Within(a, l, x) && !Within(a, level, x))
  {
    SizeBelow(level, l);
  }

  lemma {:induction false} SizeBelow(i: nat, j: nat)
    requires i <= j
    ensures Size(i) <= Size(j)
  {
    if i < j {
      SizeBelow(i, j - 1);
    }
  }

  /** Release keeps the layout good and removes exactly one allocated block. */
  lemma {:induction false} CoalesceGood(h: Heads, a: nat, lo: nat, hi: nat)
    requires Good(h, lo, hi) && a in h && !h[a].free
    ensures Good(Coalesce(h, a), lo, hi) && Used(Coalesce(h, a)) == Used(h) - {a}
    decreases TOP_LEVEL - h[a].level
  {
    var l := h[a].level;
    assert Fits(a, l, lo, hi);
    if l < TOP_LEVEL && IsFree(h, Buddy(a, l), l) {
      var h', m := Merge(h, a), Lower(a, l);
      MergeGood(h, a, lo, hi);
      CoalesceGood(h', m, lo, hi);
      MergedUsed(h, a);
    } else {
      ReleaseGood(h, a, lo, hi);
    }
  }

  lemma MergedUsed(h: Heads, a: nat)
    requires a in h && IsFree(h, Buddy(a, h[a].level), h[a].level)
    ensures var m := Lower(a, h[a].level);
            (Used(h) - {a})[m := h[a].level + 1] - {m} == Used(h) - {a}
  {
    assert Buddy(a, h[a].level) !in Used(h);
    Swap(Used(h), a, Lower(a, h[a].level), h[a].level + 1);
  }

  lemma Swap(m: map<nat, nat>, a: nat, b: nat, x: nat)
    requires b == a || b !in m
    ensures (m - {a})[b := x] - {b} == m - {a}
  {
  }

  /** Exactly the addresses of the released block become free. */
  lemma {:induction false} CoalesceAt(h: Heads, a: nat, x: int, lo: nat, hi: nat)
    requires Good(h, lo, hi) && a in h && !h[a].free
    ensures Owned(Coalesce(h, a), x) <==> Owned(h, x)
    ensures Free(Coalesce(h, a), x) <==> Free(h, x) || Within(a, h[a].level, x)
    decreases TOP_LEVEL - h[a].level
  {
    var l := h[a].level;
    assert Fits(a, l, lo, hi);
    if l < TOP_LEVEL && IsFree(h, Buddy(a, l), l) {
      MergeGood(h, a, lo, hi);
      MergeAt(h, a, x);
      CoalesceAt(Merge(h, a), Lower(a, l), x, lo, hi);
      PairAt(h, a, x);
    } else {
      ReleaseAt(h, a, x);
    }
  }

  lemma PairAt(h: Heads, a: nat, x: int)
    requires a in h && IsFree(h, Buddy(a, h[a].level), h[a].level)
    ensures var l := h[a].level;
            && (Within(Lower(a, l), l + 1, x) <==> Within(a, l, x) || Within(Buddy(a, l), l, x))
            && (Within(Buddy(a, l), l, x) ==> Free(h, x))
  {
    assert Within(Buddy(a, h[a].level), h[a].level, x) ==> Covers(h, Buddy(a, h[a].level), x);
  }

  // ---- the free blocks are the maximal ones ----

  /** Every address of the block (a, level) is free. */
  ghost predicate AllFree(h: Heads, a: nat, level: nat) {
    var free := forall x :: Within(a, level, x) ==> Free(h, x);
    free
  }

  /** A run of free addresses that forms an aligned block lies inside one free block. */
  lemma {:induction false} FreeRun(h: Heads, a: nat, level: nat, lo: nat, hi: nat) returns (c: nat)
    requires Good(h, lo, hi) && PAGE_LEVEL <= level <= TOP_LEVEL && Aligned(a, level) && AllFree(h, a, level)
    ensures c in h && h[c].free && h[c].level >= level && c <= a && a + Size(level) <= c + Size(h[c].level)
    decreases level
  {
    if level == PAGE_LEVEL {
      assert Within(a, level, a);
      c :| Covers(h, c, a) && h[c].free;
      assert Fits(c, h[c].level, lo, hi);
      Nested(a, level, c, h[c].level);
    } else {
      var k := level - 1;
      AlignedBelow(a, k, level);
      BuddyGrid(a, k);
      HalvesFree(h, a, k);
      c := FreeRun(h, a, k, lo, hi);
      var d := FreeRun(h, a + Size(k), k, lo, hi);
      Joined(h, a, k, c, d, lo, hi);
    }
  }

  lemma HalvesFree(h: Heads, a: nat, k: nat)
    requires AllFree(h, a, k + 1)
    ensures AllFree(h, a, k) && AllFree(h, a + Size(k), k)
  {
    forall x ensures Within(a, k + 1, x) <==> Within(a, k, x) || Within(a + Size(k), k, x) {}
  }

  lemma BothFree(h: Heads, a: nat, k: nat)
    requires Coalesced(h) && Aligned(a, k + 1) && k < TOP_LEVEL
    ensures !(IsFree(h, a, k) && IsFree(h, a + Size(k), k))
  {
    assert Buddy(a, k) == a + Size(k);
  }

  /** Free blocks around both halves of a block are one and the same, or the halves would have been merged. */
  lemma Joined(h: Heads, a: nat, k: nat, c: nat, d: nat, lo: nat, hi: nat)
    requires Good(h, lo, hi) && k < TOP_LEVEL && Aligned(a, k + 1)
    requires c in h && h[c].free && h[c].level >= k && c <= a && a + Size(k) <= c + Size(h[c].level)
    requires d in h && h[d].free && h[d].level >= k && d <= a + Size(k) && a + Size(k + 1) <= d + Size(h[d].level)
    ensures h[c].level >= k + 1 && a + Size(k + 1) <= c + Size(h[c].level)
  {
    assert Fits(c, h[c].level, lo, hi) && Fits(d, h[d].level, lo, hi);
    Around(a, k, c, h[c].level);
    Around(a, k, d, h[d].level);
    OneBlock(h, c, d, a);
    BothFree(h, a, k);
  }

  /** A block around one half of (a, k + 1) is that half or lies around all of it. */
  lemma Around(a: nat, k: nat, c: nat, level: nat)
    requires Aligned(a, k + 1) && Aligned(c, level) && level >= k
    ensures c <= a && a + Size(k) <= c + Size(level) ==>
              (level == k && c == a) || (level > k && a + Size(k + 1) <= c + Size(level))
    ensures c <= a + Size(k) && a + Size(k + 1) <= c + Size(level) ==>
              (level == k && c == a + Size(k)) || (level > k && c <= a)
  {
    if level > k && c < a + Size(k + 1) && a < c + Size(level) {
      Nested(a, k + 1, c, level);
    }
  }

  /** (a, level) is an aligned free run inside no larger one. */
  ghost predicate Maximal(h: Heads, a: nat, level: nat) {
    && PAGE_LEVEL <= level <= TOP_LEVEL && Aligned(a, level) && AllFree(h, a, level)
    && forall b: nat, k: nat :: Larger(a, level, b, k) ==> !AllFree(h, b, k)
  }

  ghost predicate Larger(a: nat, level: nat, b: nat, k: nat) {
    level < k <= TOP_LEVEL && Aligned(b, k) && b <= a && a + Size(level) <= b + Size(k)
  }

  /** The free blocks are exactly the maximal aligned free runs, whatever history led to the layout. */
  lemma FreeIsMaximal(h: Heads, a: nat, level: nat, lo: nat, hi: nat)
    requires Good(h, lo, hi)
    ensures IsFree(h, a, level) <==> Maximal(h, a, level)
  {
    if IsFree(h, a, level) {
      FreeBlockMaximal(h, a, level, lo, hi);
    }
    if Maximal(h, a, level) {
      MaximalIsBlock(h, a, level, lo, hi);
    }
  }

  lemma BlockFree(h: Heads, a: nat)
    requires a in h && h[a].free
    ensures AllFree(h, a, h[a].level)
  {
    forall x | Within(a, h[a].level, x) ensures Free(h, x) { assert Covers(h, a, x); }
  }

  lemma FreeBlockMaximal(h: Heads, a: nat, level: nat, lo: nat, hi: nat)
    requires Good(h, lo, hi) && IsFree(h, a, level)
    ensures Maximal(h, a, level)
  {
    assert Fits(a, level, lo, hi);
    BlockFree(h, a);
    forall b: nat, k: nat | Larger(a, level, b, k) ensures !AllFree(h, b, k) {
      if AllFree(h, b, k) {
        var c := FreeRun(h, b, k, lo, hi);
        OneBlock(h, a, c, a);
      }
    }
  }

  lemma MaximalIsBlock(h: Heads, a: nat, level: nat, lo: nat, hi: nat)
    requires Good(h, lo, hi) && Maximal(h, a, level)
    ensures IsFree(h, a, level)
  {
    var c := FreeRun(h, a, level, lo, hi);
    assert Fits(c, h[c].level, lo, hi);
    BlockFree(h, c);
    NotLarger(h, a, level, c, h[c].level);
  }

  lemma NotLarger(h: Heads, a: nat, level: nat, c: nat, k: nat)
    requires Maximal(h, a, level) && level <= k <= TOP_LEVEL && Aligned(c, k) && AllFree(h, c, k)
    requires c <= a && a + Size(level) <= c + Size(k)
    ensures k == level && c == a
  {
    assert k > level ==> Larger(a, level, c, k);
  }

  /** Layouts with the same free addresses have the same free blocks. */
  lemma Canonical(h: Heads, h': Heads, lo: nat, hi: nat)
    requires Good(h, lo, hi) && Good(h', lo, hi) && forall x :: Free(h, x) <==> Free(h', x)
    ensures forall a: nat, level: nat :: IsFree(h, a, level) <==> IsFree(h', a, level)
  {
    forall a: nat, level: nat ensures IsFree(h, a, level) <==> IsFree(h', a, level) {
      FreeIsMaximal(h, a, level, lo, hi);
      FreeIsMaximal(h', a, level, lo, hi);
      forall b: nat, k: nat ensures AllFree(h, b, k) <==> AllFree(h', b, k) {}
    }
  }

  // ---- history does not matter ----

  /** x lies in an allocated block. */
  ghost predicate Taken(used: map<nat, nat>, x: int) { exists a :: a in used && Within(a, used[a], x) }

  lemma FreeOrTaken(h: Heads, x: int)
    requires Apart(h)
    ensures Free(h, x) <==> Owned(h, x) && !Taken(Used(h), x)
  {
    if Free(h, x) {
      var a: nat :| Covers(h, a, x) && h[a].free;
      if Taken(Used(h), x) {
        var b: nat :| b in Used(h) && Within(b, Used(h)[b], x);
        OneBlock(h, a, b, x);
      }
    }
    if Owned(h, x) && !Taken(Used(h), x) {
      var a: nat :| Covers(h, a, x);
      assert a in Used(h) ==> Within(a, Used(h)[a], x);
    }
  }

  /** The layout is a function of the memory owned and the blocks allocated: two histories that own the same memory
      and end with the same blocks allocated end in the same layout. */
  lemma Historyless(h: Heads, h': Heads, lo: nat, hi: nat)
    requires Good(h, lo, hi) && Good(h', lo, hi)
    requires Used(h) == Used(h') && forall x :: Owned(h, x) <==> Owned(h', x)
    ensures h == h'
  {
    forall x ensures Free(h, x) <==> Free(h', x) {
      FreeOrTaken(h, x);
      FreeOrTaken(h', x);
    }
    Canonical(h, h', lo, hi);
    SameBlocks(h, h');
  }

  lemma SameBlocks(h: Heads, h': Heads)
    requires Used(h) == Used(h') && forall a: nat, level: nat :: IsFree(h, a, level) <==> IsFree(h', a, level)
    ensures h == h'
  {
    forall a: nat ensures (a in h <==> a in h') && (a in h ==> h[a] == h'[a]) {
      assert a in h && h[a].free ==> IsFree(h, a, h[a].level);
      assert a in h' && h'[a].free ==> IsFree(h', a, h'[a].level);
      assert a in h && !h[a].free ==> a in Used(h);
      assert a in h' && !h'[a].free ==> a in Used(h');
    }
  }
}
