/** The shadow of the first 16TB of the kernel half, and access rights as the processor combines them. */
module VirtShadow {
  import opened VirtModel

  // ---- access rights ----

  datatype Page = Unmapped | Mapped(frame: nat, writeable: bool, executable: bool)

  /** What a page walk yields: writeable if every entry on the way is, executable if none forbids it. */
  function Translate(m: Mem, va: Va): Page {
    var e := Leaf(m, va);
    if !e.present then Unmapped
    else
      var e4 := At(m, m.cr3, va.i4);
      var e3 := At(m, Pml3(m, va).frame, va.i3);
      var e2 := At(m, Pml2(m, va).frame, va.i2);
      Mapped(e.frame, e4.writeable && e3.writeable && e2.writeable && e.writeable,
             !(e4.noExecute || e3.noExecute || e2.noExecute || e.noExecute))
  }

  /** Only the top-level and the last-level entry restrict. */
  lemma TranslateIs(m: Mem, va: Va, n: nat)
    requires Inv(m, n) && Good(va)
    ensures var e, top := Leaf(m, va), At(m, m.cr3, va.i4);
            Translate(m, va) ==
            if e.present then Mapped(e.frame, top.writeable && e.writeable, !top.noExecute && !e.noExecute)
            else Unmapped
    ensures Leaf(m, va).present ==> At(m, m.cr3, va.i4).present
  {
    WalkShape(m, va, n);
    if Leaf(m, va).present {
      assert Leads(m, Pml3(m, va).frame, va.i3);
      assert Leads(m, Pml2(m, va).frame, va.i2);
    }
  }

  /** Building tables changes no translation. */
  lemma TranslateKept(m: Mem, m': Mem, va: Va, n: nat)
    requires Inv(m, n) && Inv(m', n) && Good(va) && KeepsUpper(m, m') && Leaf(m', va) == Leaf(m, va)
    ensures Translate(m', va) == Translate(m, va)
  {
    TranslateIs(m, va, n);
    TranslateIs(m', va, n);
  }

  /** After virt_map_page exactly the page and its twin translate differently: to the new frame, with the requested
      rights as far as their top-level entries allow. */
  lemma MapTranslates(m: Mem, m': Mem, va: Va, e: Entry, n: nat, vb: Va)
    requires Inv(m, n) && Inv(m', n) && Good(va) && Good(vb) && KeepsUpper(m, m') && e.present
    requires Leaf(m', vb) == if Same(va, vb, n) then e else Leaf(m, vb)
    ensures var top := At(m', m'.cr3, vb.i4);
            Translate(m', vb) ==
            if Same(va, vb, n) then Mapped(e.frame, top.writeable && e.writeable, !top.noExecute && !e.noExecute)
            else Translate(m, vb)
  {
    TranslateIs(m', vb, n);
    if !Same(va, vb, n) {
      TranslateKept(m, m', vb, n);
    }
  }

  // ---- the shadow ----

  const GC_FROM: nat := 258  // PML4_INDEX of 0xFFFF810000000000
  const GC_TO: nat := 285    // PML4_INDEX of 0xFFFF8E8000000000

  /** What the shadow slot of top-level slot i must hold. */
  function ShadowEntry(top: Entry, i: nat): Entry {
    if GC_FROM <= i < GC_TO then top.(writeable := false) else top
  }

  /** The first n slots have their shadows. */
  ghost predicate Shadowed(m: Mem, n: nat) {
    forall i: nat :: SHADOW_FROM <= i < SHADOW_FROM + n ==> HasShadow(m, i)
  }

  predicate HasShadow(m: Mem, i: nat) {
    At(m, m.cr3, i).present && At(m, m.cr3, i + SHADOW_COUNT) == ShadowEntry(At(m, m.cr3, i), i)
  }

  /** Slot i + 32 becomes the shadow of slot i. */
  function Alias(m: Mem, i: nat): Mem
    requires IsTable(m, m.cr3) && i + SHADOW_COUNT < 512
  {
    Poke(m, m.cr3, i + SHADOW_COUNT, ShadowEntry(At(m, m.cr3, i), i))
  }

  lemma AliasAt(m: Mem, i: nat, u: nat, j: nat)
    requires IsTable(m, m.cr3) && i + SHADOW_COUNT < 512
    ensures At(Alias(m, i), u, j) ==
            if u == m.cr3 && j == i + SHADOW_COUNT then ShadowEntry(At(m, m.cr3, i), i) else At(m, u, j)
  {
  }

  lemma AliasInv(m: Mem, n: nat)
    requires Inv(m, n) && n < SHADOW_COUNT && Shadowed(m, n)
    requires At(m, m.cr3, SHADOW_FROM + n).present && !At(m, m.cr3, SHADOW_FROM + n + SHADOW_COUNT).present
    ensures Inv(Alias(m, SHADOW_FROM + n), n + 1) && Shadowed(Alias(m, SHADOW_FROM + n), n + 1)
  {
    var i, m' := SHADOW_FROM + n, Alias(m, SHADOW_FROM + n);
    forall u: nat, j: nat ensures Leads(m', u, j) {
      AliasAt(m, i, u, j);
      assert Leads(m, u, j) && Leads(m, m.cr3, i);
    }
    AliasApart(m, m', n, n + 1);
    forall u: nat, j: nat ensures At(m', u, j).present || At(m', u, j) == ZERO { AliasAt(m, i, u, j); }
    AliasPairs(m, m', n, n + 1);
  }

  lemma AliasApart(m: Mem, m': Mem, n: nat, n': nat)
    requires Inv(m, n) && n < SHADOW_COUNT && n' == n + 1 && m' == Alias(m, SHADOW_FROM + n)
    requires At(m, m.cr3, SHADOW_FROM + n).present
    requires !At(m, m.cr3, SHADOW_FROM + n + SHADOW_COUNT).present
    ensures forall u: nat, j: nat, v: nat, k: nat :: Apart(m', u, j, v, k, n')
  {
    var i := SHADOW_FROM + n;
    forall u: nat, j: nat, v: nat, k: nat ensures Apart(m', u, j, v, k, n') {
      AliasAt(m, i, u, j);
      AliasAt(m, i, v, k);
      assert Apart(m, u, j, v, k, n) && Apart(m, m.cr3, i, u, j, n) && Apart(m, m.cr3, i, v, k, n);
    }
  }

  lemma AliasPairs(m: Mem, m': Mem, n: nat, n': nat)
    requires Inv(m, n) && n < SHADOW_COUNT && n' == n + 1 && m' == Alias(m, SHADOW_FROM + n)
    requires Shadowed(m, n) && At(m, m.cr3, SHADOW_FROM + n).present
    ensures forall j: nat, k: nat :: Pair(j, k, n') ==> Twins(m', j, k)
    ensures Shadowed(m', n')
  {
    var i := SHADOW_FROM + n;
    forall j: nat, k: nat | Pair(j, k, n') ensures Twins(m', j, k) {
      AliasAt(m, i, m.cr3, j);
      AliasAt(m, i, m.cr3, k);
      assert Pair(j, k, n) ==> Twins(m, j, k);
    }
    forall j: nat | SHADOW_FROM <= j < SHADOW_FROM + n' ensures HasShadow(m', j) {
      AliasAt(m, i, m.cr3, j);
      AliasAt(m, i, m.cr3, j + SHADOW_COUNT);
      assert j < i ==> HasShadow(m, j);
    }
  }

  /** The new shadow shows what its original shows; no other address changes. */
  lemma AliasLeaf(m: Mem, n: nat, va: Va)
    requires Inv(m, n) && n < SHADOW_COUNT && Good(va)
    requires At(m, m.cr3, SHADOW_FROM + n).present
    ensures Leaf(Alias(m, SHADOW_FROM + n), va) ==
            if va.i4 == SHADOW_FROM + n + SHADOW_COUNT then Leaf(m, va.(i4 := SHADOW_FROM + n)) else Leaf(m, va)
  {
    var i, m' := SHADOW_FROM + n, Alias(m, SHADOW_FROM + n);
    var vo := va.(i4 := i);
    WalkShape(m, va, n);
    WalkShape(m, vo, n);
    forall u: nat, j: nat
      ensures At(m', u, j) == if u == m.cr3 && j == i + SHADOW_COUNT then ShadowEntry(At(m, m.cr3, i), i) else At(m, u, j)
    {
      AliasAt(m, i, u, j);
    }
  }

  lemma ShadowKept(m: Mem, m': Mem, n: nat)
    requires Shadowed(m, n) && n <= SHADOW_COUNT && KeepsUpper(m, m') && IsTable(m, m.cr3) && m.level[m.cr3] == 4
    ensures Shadowed(m', n)
  {
    forall i: nat | SHADOW_FROM <= i < SHADOW_FROM + n ensures HasShadow(m', i) {
      assert HasShadow(m, i) && Upper(m, m.cr3, i) && Upper(m, m.cr3, i + SHADOW_COUNT);
    }
  }

  /** Through every later sequence of operations, an address of the first 16TB and its shadow have the same presence and
      frame, and the shadow of the GC heap is not writeable. */
  lemma {:induction false} ShadowRun(ms: seq<Mem>, k: nat, va: Va)
    requires |ms| > 0 && k < |ms| && Shadowed(ms[0], SHADOW_COUNT)
    requires (forall i :: 0 <= i < |ms| ==> Inv(ms[i], SHADOW_COUNT))
    requires forall i :: 0 <= i < |ms| - 1 ==> KeepsUpper(ms[i], ms[i + 1])
    requires Good(va) && SHADOW_FROM <= va.i4 < SHADOW_FROM + SHADOW_COUNT
    ensures Shadowed(ms[k], SHADOW_COUNT)
    ensures var page, shadow := Translate(ms[k], va), Translate(ms[k], va.(i4 := va.i4 + SHADOW_COUNT));
            && page.Mapped? == shadow.Mapped?
            && (page.Mapped? ==> page.frame == shadow.frame && page.executable == shadow.executable)
            && (page.Mapped? ==> shadow.writeable == (page.writeable && !(GC_FROM <= va.i4 < GC_TO)))
  {
    if k > 0 {
      ShadowRun(ms, k - 1, va);
      ShadowKept(ms[k - 1], ms[k], SHADOW_COUNT);
    }
    ShadowAgrees(ms[k], va);
  }

  lemma ShadowAgrees(m: Mem, va: Va)
    requires Inv(m, SHADOW_COUNT) && Shadowed(m, SHADOW_COUNT) && Good(va)
    requires SHADOW_FROM <= va.i4 < SHADOW_FROM + SHADOW_COUNT
    ensures var page, shadow := Translate(m, va), Translate(m, va.(i4 := va.i4 + SHADOW_COUNT));
            && page.Mapped? == shadow.Mapped?
            && (page.Mapped? ==> page.frame == shadow.frame && page.executable == shadow.executable)
            && (page.Mapped? ==> shadow.writeable == (page.writeable && !(GC_FROM <= va.i4 < GC_TO)))
  {
    var vs := va.(i4 := va.i4 + SHADOW_COUNT);
    TranslateIs(m, va, SHADOW_COUNT);
    TranslateIs(m, vs, SHADOW_COUNT);
    PairPath(m, va, vs, SHADOW_COUNT);
    assert HasShadow(m, va.i4);
  }
}
