/** Four-level page tables as frames of entries, and the flat map they stand for. */
module VirtModel {
  /** A table or page entry; the bits kernel/mem/virt.c never sets are left out. */
  datatype Entry = Entry(present: bool, writeable: bool, noExecute: bool, frame: nat)

  const ZERO: Entry := Entry(false, false, false, 0)

  /** The table indices of a virtual address: bits 39, 30, 21 and 12 up, nine each. */
  datatype Va = Va(i4: nat, i3: nat, i2: nat, i1: nat)

  function Index(virt: nat, shift: nat): (i: nat)
    requires shift > 0
    ensures i < 512
  {
    virt / shift % 512
  }

  function Split(virt: nat): Va {
    Va(Index(virt, 0x80_0000_0000), Index(virt, 0x4000_0000), Index(virt, 0x20_0000), Index(virt, 0x1000))
  }

  predicate Good(va: Va) { va.i4 < 512 && va.i3 < 512 && va.i2 < 512 && va.i1 < 512 }

  /** The frames that hold tables, with the level each one serves at. */
  datatype Mem = Mem(tables: map<nat, seq<Entry>>, level: map<nat, nat>, cr3: nat)

  function At(m: Mem, t: nat, i: nat): Entry {
    if t in m.tables && i < |m.tables[t]| then m.tables[t][i] else ZERO
  }

  // ---- walking ----

  /** The frame a present entry leads to. */
  datatype Link = Missing | To(frame: nat)

  function Child(m: Mem, t: Link, i: nat): Link {
    if t.To? && At(m, t.frame, i).present then To(At(m, t.frame, i).frame) else Missing
  }

  function Pml3(m: Mem, va: Va): Link { Child(m, To(m.cr3), va.i4) }
  function Pml2(m: Mem, va: Va): Link { Child(m, Pml3(m, va), va.i3) }
  function Pml1(m: Mem, va: Va): Link { Child(m, Pml2(m, va), va.i2) }

  /** The last-level entry of an address; all zero when a table on the way is missing. */
  function Leaf(m: Mem, va: Va): Entry {
    if Pml1(m, va).To? then At(m, Pml1(m, va).frame, va.i1) else ZERO
  }

  // ---- shape ----

  const SHADOW_FROM: nat := 256  // PML4_INDEX(DIRECT_MAP_OFFSET)
  const SHADOW_COUNT: nat := 32  // SIZE_16TB / SIZE_512GB

  /** Two top-level slots that the first n steps of the shadow set-up made alias each other. */
  predicate Pair(i: nat, j: nat, n: nat) {
    || (SHADOW_FROM <= i < SHADOW_FROM + n && j == i + SHADOW_COUNT)
    || (SHADOW_FROM <= j < SHADOW_FROM + n && i == j + SHADOW_COUNT)
  }

  predicate IsTable(m: Mem, t: nat) { t in m.level && t in m.tables && |m.tables[t]| == 512 }

  /** An entry of a table above the last level. */
  predicate Upper(m: Mem, t: nat, i: nat) { IsTable(m, t) && m.level[t] >= 2 && i < 512 }

  /** A present upper entry leads to a table of the next level; below the top it restricts nothing. */
  predicate Leads(m: Mem, t: nat, i: nat) {
    Upper(m, t, i) && At(m, t, i).present ==>
      && IsTable(m, At(m, t, i).frame) && m.level[At(m, t, i).frame] == m.level[t] - 1
      && (m.level[t] < 4 ==> At(m, t, i).writeable && !At(m, t, i).noExecute)
  }

  /** Upper entries that lead to the same table are the same entry, or a shadow pair. */
  predicate Apart(m: Mem, t: nat, i: nat, u: nat, j: nat, n: nat) {
    Upper(m, t, i) && Upper(m, u, j) && At(m, t, i).present && At(m, u, j).present && At(m, t, i).frame == At(m, u, j).frame
    ==> t == u && (i == j || (t == m.cr3 && Pair(i, j, n)))
  }

  ghost predicate Inv(m: Mem, n: nat) {
    var inv :=
      && n <= SHADOW_COUNT
      && IsTable(m, m.cr3) && m.level[m.cr3] == 4
      && (forall t :: t in m.tables || t in m.level ==>
            IsTable(m, t) && 1 <= m.level[t] <= 4 && (m.level[t] == 4 ==> t == m.cr3))
      && (forall t: nat, i: nat :: Leads(m, t, i))
      && (forall t: nat, i: nat, u: nat, j: nat :: Apart(m, t, i, u, j, n))
      && (forall t: nat, i: nat :: At(m, t, i).present || At(m, t, i) == ZERO)
      && (forall i: nat, j: nat :: Pair(i, j, n) ==> Twins(m, i, j));
    inv
  }

  predicate Twins(m: Mem, i: nat, j: nat) {
    At(m, m.cr3, i).present && At(m, m.cr3, j).present && At(m, m.cr3, i).frame == At(m, m.cr3, j).frame
  }

  /** Addresses that share their last-level entry. */
  predicate Same(va: Va, vb: Va, n: nat) {
    va.i3 == vb.i3 && va.i2 == vb.i2 && va.i1 == vb.i1 && (va.i4 == vb.i4 || Pair(va.i4, vb.i4, n))
  }

  lemma WalkShape(m: Mem, va: Va, n: nat)
    requires Inv(m, n) && Good(va)
    ensures Pml3(m, va).To? ==> IsTable(m, Pml3(m, va).frame) && m.level[Pml3(m, va).frame] == 3
    ensures Pml2(m, va).To? ==> Pml3(m, va).To? && IsTable(m, Pml2(m, va).frame) && m.level[Pml2(m, va).frame] == 2
    ensures Pml1(m, va).To? ==> Pml2(m, va).To? && IsTable(m, Pml1(m, va).frame) && m.level[Pml1(m, va).frame] == 1
  {
    assert Leads(m, m.cr3, va.i4);
    if Pml3(m, va).To? {
      assert Leads(m, Pml3(m, va).frame, va.i3);
      if Pml2(m, va).To? {
        assert Leads(m, Pml2(m, va).frame, va.i2);
      }
    }
  }

  /** Walks that end in the same table came the same way. */
  lemma SamePath(m: Mem, va: Va, vb: Va, n: nat)
    requires Inv(m, n) && Good(va) && Good(vb) && Pml1(m, va).To? && Pml1(m, va) == Pml1(m, vb)
    ensures va.i3 == vb.i3 && va.i2 == vb.i2 && (va.i4 == vb.i4 || Pair(va.i4, vb.i4, n))
  {
    WalkShape(m, va, n);
    WalkShape(m, vb, n);
    assert Apart(m, Pml2(m, va).frame, va.i2, Pml2(m, vb).frame, vb.i2, n);
    assert Apart(m, Pml3(m, va).frame, va.i3, Pml3(m, vb).frame, vb.i3, n);
    assert Apart(m, m.cr3, va.i4, m.cr3, vb.i4, n);
  }

  /** Shadow pairs walk to the same tables. */
  lemma PairPath(m: Mem, va: Va, vb: Va, n: nat)
    requires Inv(m, n) && Same(va, vb, n)
    ensures Pml1(m, va) == Pml1(m, vb) && Leaf(m, va) == Leaf(m, vb)
  {
  }

  // ---- building a table ----

  function Empty(): seq<Entry> { seq(512, _ => ZERO) }

  /** Frame f becomes a zeroed table that entry i of table t leads to. */
  function Build(m: Mem, t: nat, i: nat, f: nat, entry: Entry): Mem
    requires Upper(m, t, i)
  {
    Mem(m.tables[f := Empty()][t := m.tables[t][i := entry]], m.level[f := m.level[t] - 1], m.cr3)
  }

  lemma BuildAt(m: Mem, t: nat, i: nat, f: nat, entry: Entry, u: nat, j: nat)
    requires Upper(m, t, i) && f !in m.tables
    ensures At(Build(m, t, i, f, entry), u, j) == if u == t && j == i then entry else At(m, u, j)
  {
  }

  /** The entry is absent so far, and the new one may stand there. */
  ghost predicate Buildable(m: Mem, t: nat, i: nat, f: nat, entry: Entry) {
    && Upper(m, t, i) && !At(m, t, i).present && f !in m.tables && f !in m.level
    && entry.present && entry.frame == f && (m.level[t] < 4 ==> entry.writeable && !entry.noExecute)
  }

  lemma BuildInv(m: Mem, t: nat, i: nat, f: nat, entry: Entry, n: nat)
    requires Inv(m, n) && Buildable(m, t, i, f, entry)
    ensures Inv(Build(m, t, i, f, entry), n)
  {
    var m' := Build(m, t, i, f, entry);
    forall u: nat, j: nat ensures Leads(m', u, j) {
      BuildAt(m, t, i, f, entry, u, j);
      assert Leads(m, u, j);
    }
    forall u: nat, j: nat, v: nat, k: nat ensures Apart(m', u, j, v, k, n) {
      BuildAt(m, t, i, f, entry, u, j);
      BuildAt(m, t, i, f, entry, v, k);
      assert Apart(m, u, j, v, k, n) && Leads(m, u, j) && Leads(m, v, k);
    }
    forall u: nat, j: nat ensures At(m', u, j).present || At(m', u, j) == ZERO {
      BuildAt(m, t, i, f, entry, u, j);
    }
    forall j: nat, k: nat | Pair(j, k, n) ensures Twins(m', j, k) {
      BuildAt(m, t, i, f, entry, m.cr3, j);
      BuildAt(m, t, i, f, entry, m.cr3, k);
      assert Twins(m, j, k);
    }
  }

  /** Building a table changes no address: whatever led nowhere leads to zeros. */
  lemma BuildLeaf(m: Mem, t: nat, i: nat, f: nat, entry: Entry, n: nat, va: Va)
    requires Inv(m, n) && Buildable(m, t, i, f, entry) && Good(va)
    ensures Leaf(Build(m, t, i, f, entry), va) == Leaf(m, va)
  {
    var m' := Build(m, t, i, f, entry);
    WalkShape(m, va, n);
    forall u: nat, j: nat ensures At(m', u, j) == if u == t && j == i then entry else At(m, u, j) {
      BuildAt(m, t, i, f, entry, u, j);
    }
    forall j: nat ensures At(m', f, j) == ZERO {}
  }

  // ---- writing an entry of the last level ----

  function Poke(m: Mem, t: nat, i: nat, entry: Entry): Mem
    requires IsTable(m, t) && i < 512
  {
    m.(tables := m.tables[t := m.tables[t][i := entry]])
  }

  lemma PokeInv(m: Mem, t: nat, i: nat, entry: Entry, n: nat)
    requires Inv(m, n) && IsTable(m, t) && m.level[t] == 1 && i < 512 && (entry.present || entry == ZERO)
    ensures Inv(Poke(m, t, i, entry), n)
  {
    var m' := Poke(m, t, i, entry);
    forall u: nat, j: nat ensures Upper(m', u, j) <==> Upper(m, u, j) {}
    forall u: nat, j: nat ensures At(m', u, j) == if u == t && j == i then entry else At(m, u, j) {}
    forall u: nat, j: nat ensures Leads(m', u, j) { assert Leads(m, u, j); }
    forall u: nat, j: nat, v: nat, k: nat ensures Apart(m', u, j, v, k, n) { assert Apart(m, u, j, v, k, n); }
    forall j: nat, k: nat | Pair(j, k, n) ensures Twins(m', j, k) { assert Twins(m, j, k); }
  }

  /** A write to the last-level entry of an address changes exactly that address and its shadow twin. */
  lemma PokeLeaf(m: Mem, va: Va, entry: Entry, n: nat, vb: Va)
    requires Inv(m, n) && Good(va) && Good(vb) && Pml1(m, va).To?
    ensures IsTable(m, Pml1(m, va).frame) && m.level[Pml1(m, va).frame] == 1
    ensures Leaf(Poke(m, Pml1(m, va).frame, va.i1, entry), vb) == if Same(va, vb, n) then entry else Leaf(m, vb)
  {
    var t := Pml1(m, va).frame;
    WalkShape(m, va, n);
    WalkShape(m, vb, n);
    var m' := Poke(m, t, va.i1, entry);
    forall u: nat, j: nat ensures At(m', u, j) == if u == t && j == va.i1 then entry else At(m, u, j) {}
    assert Pml1(m', vb) == Pml1(m, vb);
    if Same(va, vb, n) {
      PairPath(m, va, vb, n);
    } else if Pml1(m, vb) == To(t) {
      SamePath(m, va, vb, n);
    }
  }

  // ---- growth ----

  /** m' has every present upper entry of m, unchanged. */
  ghost predicate KeepsUpper(m: Mem, m': Mem) {
    var keeps := m'.cr3 == m.cr3 && forall t: nat, i: nat :: Upper(m, t, i) && At(m, t, i).present ==>
                                                              Upper(m', t, i) && At(m', t, i) == At(m, t, i);
    keeps
  }
}
