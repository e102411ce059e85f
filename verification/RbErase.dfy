/** Taking a node out, and one iteration of the erasure fix-up, on paths and trees. */
module RbErase {
  import opened RbModel
  import opened RbState

  // ---- the fix-up ----

  /** The loop invariant of the fix-up: t is one black node short of what its path expects. */
  ghost predicate Short(c: Path, t: Tree, h: nat) {
    IsBlack(t) && RedBlack(t, h) && PathRedBlack(c, h + 1)
  }

  lemma ShortSibling(c: Path, t: Tree, h: nat)
    requires Short(c, t, h) && c.In?
    ensures RedBlack(c.other, h + 1) && c.other.Node?
    ensures PathRedBlack(c.up, if c.black then h + 2 else h + 1)
    ensures !c.black ==> c.other.black && c.up.In? && c.up.black
    ensures !c.other.black ==> c.black && Branch(c.other, c.d).Node? && Branch(c.other, c.d).black
  {
    assert !c.other.black ==> RedBlack(Branch(c.other, c.d), h + 1);
  }

  /** Case 1: a red sibling is rotated up, so that the new sibling is black. */
  ghost function RedSiblingPath(c: Path): Path
    requires c.In? && c.other.Node?
  {
    In(In(c.up, c.d, c.other.at, true, Branch(c.other, Opp(c.d))), c.d, c.at, false, Branch(c.other, c.d))
  }

  /** The pieces around the parent and the sibling of a hole. */
  ghost function Around(c: Path, t: Tree): View
    requires c.In? && c.other.Node?
  {
    var o := c.other;
    View(c.up, c.at, Piece(Branch(o, Opp(c.d)), o.at), Piece(Branch(o, c.d), o.at), Piece(t, c.at), NONE)
  }

  lemma SplitAround(s: State, c: Path, t: Tree)
    requires c.In? && c.other.Node? && Split(s, c, t)
    ensures var o, v := c.other, Around(c, t);
            && Holds(s, v) && Disjoint(v) && Outside(c.at, v) && Outside(o.at, v) && c.at != o.at
            && Kid(Get(s, c.at), c.d) == RootOf(t) && Kid(Get(s, c.at), Opp(c.d)) == o.at
            && Get(s, c.at).parent == ParentOf(c.up) && Get(s, c.at).black == c.black
            && Kid(Get(s, o.at), c.d) == RootOf(Branch(o, c.d))
            && Kid(Get(s, o.at), Opp(c.d)) == RootOf(Branch(o, Opp(c.d)))
            && Get(s, o.at).parent == c.at && Get(s, o.at).black == o.black
  {
    assert Sub(s, c.other);
  }

  lemma RedSiblingStep(s: State, c: Path, t: Tree, h: nat)
    requires Short(c, t, h) && c.In? && !IsBlack(c.other)
    ensures Split(s, c, t) ==> Split(RotateUp(s, Opp(c.d), c.other.at, c.at), RedSiblingPath(c), t)
    ensures Short(RedSiblingPath(c), t, h)
  {
    ShortSibling(c, t, h);
    if Split(s, c, t) {
      SplitAround(s, c, t);
      var s' := RotateUp(s, Opp(c.d), c.other.at, c.at);
      RotateUpShape(s, Opp(c.d), Around(c, t), c.other.at, c.at);
      SplitStep(s', RedSiblingPath(c), t);
      SplitStep(s', RedSiblingPath(c).up, Mk(c.d, t, c.at, false, Branch(c.other, c.d)));
    }
  }

  lemma RedSiblingOrder(c: Path, t: Tree)
    requires c.In? && c.other.Node?
    ensures InOrder(Zip(c, t)) == InOrder(Zip(RedSiblingPath(c), t))
  {
    var d, o := c.d, c.other;
    RotateInOrder(Opp(d), Branch(o, Opp(d)), o.at, Branch(o, d), c.at, t, o.black, c.black, true, false);
    ZipSameOrder(c.up, Mk(d, t, c.at, c.black, o),
                 Mk(d, Mk(d, t, c.at, false, Branch(o, d)), o.at, true, Branch(o, Opp(d))));
  }

  /** Case 2: the sibling turns red. */
  lemma RepaintSiblingShape(s: State, c: Path, t: Tree)
    requires c.In? && c.other.Node?
    ensures Split(s, c, t) ==>
              Split(SetParentColor(s, c.other.at, c.at, false), c.(other := Paint(c.other, false)), t)
  {
    var v := View(c.up, c.at, Piece(t, c.at), Piece(c.other, c.at), NONE, NONE);
    HoldsRepaint(s, v, c.at, false);
    var x := Paint(c.other, false);
    assert Nodes(x) == Nodes(c.other);
    assert Split(s, c, t) ==> Holds(s, v) && Disjoint(v);
  }

  lemma RepaintSiblingHeights(c: Path, t: Tree, h: nat)
    requires Short(c, t, h) && c.In? && IsBlack(c.other)
    requires IsBlack(Branch(c.other, L)) && IsBlack(Branch(c.other, R))
    ensures RedBlack(Mk(c.d, t, c.at, true, Paint(c.other, false)), h + 1)
    ensures InOrder(Zip(c, t)) == InOrder(Zip(c.up, Mk(c.d, t, c.at, true, Paint(c.other, false))))
  {
    ShortSibling(c, t, h);
    ZipSameOrder(c.up, Mk(c.d, t, c.at, c.black, c.other), Mk(c.d, t, c.at, true, Paint(c.other, false)));
  }

  /** rb_set_black on the parent of the hole. */
  lemma BlackenParent(s: State, c: Path, t: Tree)
    requires c.In?
    ensures Split(s, c, t) ==> Split(SetParentColor(s, c.at, Get(s, c.at).parent, true), c.(black := true), t)
  {
    var v := View(c.up, c.at, Piece(t, c.at), Piece(c.other, c.at), NONE, NONE);
    HoldsPut(s, c.at, Get(s, c.at).(black := true), v);
  }

  /** Case 4: rotate the parent away from its sibling child sib, whose far child far turns black. */
  ghost function EraseCase4(s: State, d: Dir, p: RbNode, sib: RbNode, far: RbNode): State {
    RotateSetParents(EraseCase4Stores(s, d, p, sib, far), p, sib, true)
  }

  ghost function EraseCase4Stores(s: State, d: Dir, p: RbNode, sib: RbNode, far: RbNode): State {
    var tmp2 := Kid(Get(s, sib), d);
    var s1 := SetParentColor(SetKid(SetKid(s, p, Opp(d), tmp2), sib, d, p), far, sib, true);
    if tmp2 == null then s1 else SetParent(s1, tmp2, p)
  }

  /** v holds the far child x0, the near child x1 and the hole's tree x2. */
  ghost predicate Case4View(s: State, d: Dir, v: View, p: RbNode, sib: RbNode) {
    && v.hole == p && v.x0.t.Node? && v.x2.p == p && v.x3 == NONE
    && p != sib && Outside(p, v) && Outside(sib, v) && Disjoint(v)
    && Kid(Get(s, p), d) == RootOf(v.x2.t) && Get(s, p).parent == ParentOf(v.c)
    && Kid(Get(s, sib), d) == RootOf(v.x1.t) && Kid(Get(s, sib), Opp(d)) == v.x0.t.at
  }

  ghost function Case4After(v: View, p: RbNode, sib: RbNode): View {
    v.(x0 := Piece(Paint(v.x0.t, true), sib), x1 := Piece(v.x1.t, p))
  }

  lemma EraseCase4Holds(s: State, d: Dir, v: View, p: RbNode, sib: RbNode)
    requires Case4View(s, d, v, p, sib)
    ensures var s' := EraseCase4Stores(s, d, p, sib, v.x0.t.at);
            && (Holds(s, v) ==> Holds(s', Case4After(v, p, sib)))
            && Get(s', p) == WithKid(Get(s, p), Opp(d), RootOf(v.x1.t))
            && Get(s', sib) == WithKid(Get(s, sib), d, p)
    ensures Nodes(Paint(v.x0.t, true)) == Nodes(v.x0.t)
  {
    var tmp2, far := Kid(Get(s, sib), d), v.x0.t.at;
    var s1 := SetKid(s, p, Opp(d), tmp2);
    var s2 := SetKid(s1, sib, d, p);
    var s3 := SetParentColor(s2, far, sib, true);
    HoldsPut(s, p, WithKid(Get(s, p), Opp(d), tmp2), v);
    HoldsPut(s1, sib, WithKid(Get(s1, sib), d, p), v);
    HoldsRepaint(s2, v.(x0 := v.x1, x1 := v.x0), sib, true);
    HoldsReparent(s3, v.(x0 := Piece(Paint(v.x0.t, true), sib)), p);
  }

  lemma EraseCase4Shape(s: State, d: Dir, v: View, p: RbNode, sib: RbNode)
    requires Case4View(s, d, v, p, sib)
    ensures Holds(s, v) ==> Split(EraseCase4(s, d, p, sib, v.x0.t.at), v.c,
                                  Mk(d, Mk(d, v.x2.t, p, true, v.x1.t), sib, Get(s, p).black, Paint(v.x0.t, true)))
  {
    var s4, w := EraseCase4Stores(s, d, p, sib, v.x0.t.at), Case4After(v, p, sib);
    EraseCase4Holds(s, d, v, p, sib);
    HoldsRotate(s4, w, p, sib, true);
    SplitRotated(RotateSetParents(s4, p, sib, true), Opp(d), w.(hole := sib), sib, p, Get(s, p).black, true);
  }

  /** The result of Case 4. */
  ghost function FarTree(c: Path, t: Tree): Tree
    requires c.In? && c.other.Node?
  {
    var d, o := c.d, c.other;
    Mk(d, Mk(d, t, c.at, true, Branch(o, d)), o.at, c.black, Paint(Branch(o, Opp(d)), true))
  }

  lemma FarStep(s: State, c: Path, t: Tree)
    requires c.In? && c.other.Node? && Branch(c.other, Opp(c.d)).Node?
    ensures Split(s, c, t) ==>
              Split(EraseCase4(s, c.d, c.at, c.other.at, Branch(c.other, Opp(c.d)).at), c.up, FarTree(c, t))
  {
    if Split(s, c, t) {
      SplitAround(s, c, t);
      EraseCase4Shape(s, c.d, Around(c, t), c.at, c.other.at);
    }
  }

  lemma FarHeights(c: Path, t: Tree, h: nat)
    requires Short(c, t, h) && c.In? && IsBlack(c.other) && !IsBlack(Branch(c.other, Opp(c.d)))
    ensures var h' := if c.black then h + 2 else h + 1;
            RedBlack(FarTree(c, t), h') && PathRedBlack(c.up, h') && Plugs(c.up, FarTree(c, t))
    ensures InOrder(Zip(c, t)) == InOrder(Zip(c.up, FarTree(c, t)))
  {
    ShortSibling(c, t, h);
    var d, o := c.d, c.other;
    assert RedBlack(Mk(d, t, c.at, true, Branch(o, d)), h + 1);
    assert RedBlack(Paint(Branch(o, Opp(d)), true), h + 1);
    FarOrder(c, t);
  }

  lemma FarOrder(c: Path, t: Tree)
    requires c.In? && c.other.Node?
    ensures InOrder(Zip(c, t)) == InOrder(Zip(c.up, FarTree(c, t)))
  {
    var d, o := c.d, c.other;
    var far := Paint(Branch(o, Opp(d)), true);
    var painted := Mk(d, Branch(o, d), o.at, o.black, far);
    ZipSameOrder(In(c.up, Opp(d), c.at, c.black, t), o, painted);
    RotateInOrder(d, t, c.at, Branch(o, d), o.at, far, true, c.black, c.black, o.black);
    ZipSameOrder(c.up, Mk(d, t, c.at, c.black, painted), FarTree(c, t));
  }

  /** Case 3: rotate the sibling sib away from its near child sl, without fixing their parents yet. */
  ghost function EraseCase3(s: State, d: Dir, p: RbNode, sib: RbNode, sl: RbNode): State {
    var tmp1 := Kid(Get(s, sl), Opp(d));
    AdoptBlack(SetKid(SetKid(SetKid(s, sib, d, tmp1), sl, Opp(d), sib), p, Opp(d), sl), tmp1, sib)
  }

  /** v holds the far child x0, sl's children x1 and x2, and the hole's tree x3. */
  lemma EraseCase3Holds(s: State, d: Dir, v: View, p: RbNode, sib: RbNode, sl: RbNode)
    requires v.x0.p == sib && v.x1.p == sl && v.x2.p == sl && v.x3.p == p && IsBlack(v.x1.t) && Disjoint(v)
    requires p != sib && p != sl && sib != sl && Outside(p, v) && Outside(sib, v) && Outside(sl, v)
    requires Kid(Get(s, sl), Opp(d)) == RootOf(v.x1.t)
    ensures var s' := EraseCase3(s, d, p, sib, sl);
            && (Holds(s, v) ==> Holds(s', v.(x1 := Piece(v.x1.t, sib))))
            && Get(s', sib) == WithKid(Get(s, sib), d, RootOf(v.x1.t))
            && Get(s', sl) == WithKid(Get(s, sl), Opp(d), sib)
            && Get(s', p) == WithKid(Get(s, p), Opp(d), sl)
  {
    var tmp1 := Kid(Get(s, sl), Opp(d));
    var s1 := SetKid(s, sib, d, tmp1);
    var s2 := SetKid(s1, sl, Opp(d), sib);
    var s3 := SetKid(s2, p, Opp(d), sl);
    HoldsPut(s, sib, WithKid(Get(s, sib), d, tmp1), v);
    HoldsPut(s1, sl, WithKid(Get(s1, sl), Opp(d), sib), v);
    HoldsPut(s2, p, WithKid(Get(s2, p), Opp(d), sl), v);
    HoldsAdopt(s3, v, sib);
  }

  /** The result of Cases 3 and 4. */
  ghost function NearTree(c: Path, t: Tree): Tree
    requires c.In? && c.other.Node? && Branch(c.other, c.d).Node?
  {
    var d, o := c.d, c.other;
    var sl := Branch(o, d);
    Mk(d, Mk(d, t, c.at, true, Branch(sl, d)), sl.at, c.black,
       Mk(d, Branch(sl, Opp(d)), o.at, true, Branch(o, Opp(d))))
  }

  ghost predicate Case3View(s: State, d: Dir, v: View, p: RbNode, sib: RbNode, sl: RbNode) {
    && v.hole == p && v.x0.p == sib && v.x1.p == sl && v.x2.p == sl && v.x3.p == p && IsBlack(v.x1.t)
    && p != sib && p != sl && sib != sl && Outside(p, v) && Outside(sib, v) && Outside(sl, v) && Disjoint(v)
    && Kid(Get(s, sl), Opp(d)) == RootOf(v.x1.t) && Kid(Get(s, sl), d) == RootOf(v.x2.t)
    && Kid(Get(s, sib), Opp(d)) == RootOf(v.x0.t) && Get(s, sib).parent == p && Get(s, sib).black
    && Kid(Get(s, p), d) == RootOf(v.x3.t) && Get(s, p).parent == ParentOf(v.c)
  }

  /** What Case 4 sees after Case 3. */
  ghost function Case3After(d: Dir, v: View, p: RbNode, sib: RbNode): View {
    View(v.c, p, Piece(Mk(d, v.x1.t, sib, true, v.x0.t), p), v.x2, v.x3, NONE)
  }

  lemma Case3ToCase4(s: State, d: Dir, v: View, p: RbNode, sib: RbNode, sl: RbNode)
    requires Case3View(s, d, v, p, sib, sl)
    ensures var s1, w := EraseCase3(s, d, p, sib, sl), Case3After(d, v, p, sib);
            && (Holds(s, v) ==> Holds(s1, w))
            && Case4View(s1, d, w, p, sl) && Get(s1, p).black == Get(s, p).black
  {
    EraseCase3Holds(s, d, v, p, sib, sl);
    SubMk(EraseCase3(s, d, p, sib, sl), d, v.x1.t, sib, true, v.x0.t);
  }

  lemma NearShape(s: State, d: Dir, v: View, p: RbNode, sib: RbNode, sl: RbNode)
    requires Case3View(s, d, v, p, sib, sl)
    ensures Holds(s, v) ==>
              Split(EraseCase4(EraseCase3(s, d, p, sib, sl), d, p, sl, sib), v.c,
                    Mk(d, Mk(d, v.x3.t, p, true, v.x2.t), sl, Get(s, p).black, Mk(d, v.x1.t, sib, true, v.x0.t)))
  {
    Case3ToCase4(s, d, v, p, sib, sl);
    var w := Case3After(d, v, p, sib);
    assert Paint(w.x0.t, true) == w.x0.t && w.x0.t.at == sib;
    EraseCase4Shape(EraseCase3(s, d, p, sib, sl), d, w, p, sl);
  }

  lemma NearStep(s: State, c: Path, t: Tree)
    requires c.In? && !(c.other.Leaf?) && c.other.black && !IsBlack(Branch(c.other, c.d))
    requires IsBlack(Branch(Branch(c.other, c.d), Opp(c.d)))
    ensures Split(s, c, t) ==>
              Split(EraseCase4(EraseCase3(s, c.d, c.at, c.other.at, Branch(c.other, c.d).at), c.d, c.at,
                               Branch(c.other, c.d).at, c.other.at), c.up, NearTree(c, t))
  {
    if Split(s, c, t) {
      var a := Around(c, t);
      var v := View(a.c, a.hole, a.x1, a.x0, a.x2, NONE);
      SplitAround(s, c, t);
      HoldsOpened(s, v, Opp(c.d));
      NearShape(s, c.d, Opened(v, Opp(c.d)), c.at, c.other.at, Branch(c.other, c.d).at);
    }
  }

  lemma NearHeights(c: Path, t: Tree, h: nat)
    requires Short(c, t, h) && c.In? && IsBlack(c.other) && !IsBlack(Branch(c.other, c.d))
    requires IsBlack(Branch(c.other, Opp(c.d)))
    ensures IsBlack(Branch(Branch(c.other, c.d), Opp(c.d)))
    ensures var h' := if c.black then h + 2 else h + 1;
            RedBlack(NearTree(c, t), h') && PathRedBlack(c.up, h') && Plugs(c.up, NearTree(c, t))
  {
    ShortSibling(c, t, h);
    var d, o := c.d, c.other;
    var sl := Branch(o, d);
    assert RedBlack(sl, h);
    assert RedBlack(Mk(d, t, c.at, true, Branch(sl, d)), h + 1);
    assert RedBlack(Mk(d, Branch(sl, Opp(d)), o.at, true, Branch(o, Opp(d))), h + 1);
  }

  lemma NearOrder(c: Path, t: Tree)
    requires c.In? && c.other.Node? && Branch(c.other, c.d).Node?
    ensures InOrder(Zip(c, t)) == InOrder(Zip(c.up, NearTree(c, t)))
  {
    var d, o, p := c.d, c.other, c.at;
    var sl, far := Branch(o, d), Branch(o, Opp(d));
    var turned := Mk(d, Branch(sl, d), sl.at, false, Mk(d, Branch(sl, Opp(d)), o.at, true, far));
    RotateInOrder(d, Branch(sl, d), sl.at, Branch(sl, Opp(d)), o.at, far, sl.black, o.black, false, true);
    ZipSameOrder(In(Top, Opp(d), p, c.black, t), o, turned);
    ZipSameOrder(c.up, Mk(d, t, p, c.black, o), Mk(d, t, p, c.black, turned));
    RotateInOrder(d, t, p, Branch(sl, d), sl.at, Mk(d, Branch(sl, Opp(d)), o.at, true, far),
                  true, c.black, c.black, false);
    ZipSameOrder(c.up, Mk(d, t, p, c.black, turned), NearTree(c, t));
  }
}
