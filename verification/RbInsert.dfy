/** One iteration of the insertion fix-up, on paths and trees. */
module RbInsert {
  import opened RbModel
  import opened RbState

  /** The loop invariant of the fix-up: t is red-black, its root red, and only the edge above it may be wrong. */
  ghost predicate Pending(c: Path, t: Tree, h: nat) {
    t.Node? && !t.black && RedBlack(t, h) && PathRedBlack(c, h)
  }

  /** The node above the hole is red, so it has a black parent. */
  ghost predicate RedParent(c: Path) { c.In? && !c.black && c.up.In? && c.up.black }

  lemma RedParentHeights(c: Path, h: nat)
    requires PathRedBlack(c, h) && c.In? && !c.black
    ensures RedParent(c) && IsBlack(c.other)
    ensures RedBlack(c.other, h) && RedBlack(c.up.other, h) && PathRedBlack(c.up.up, h + 1)
  {
    assert PathRedBlack(c.up, h);
  }

  ghost function FlipTree(c: Path, t: Tree): Tree
    requires RedParent(c)
  {
    Mk(c.up.d, Mk(c.d, t, c.at, true, c.other), c.up.at, false, Paint(c.up.other, true))
  }

  lemma FlipStep(s: State, c: Path, t: Tree, h: nat)
    requires RedParent(c) && Pending(c, t, h) && !IsBlack(c.up.other)
    ensures Split(s, c, t) ==> Split(FlipColors(s, c.up.other.at, c.at, c.up.at), c.up.up, FlipTree(c, t))
    ensures Pending(c.up.up, FlipTree(c, t), h + 1)
    ensures InOrder(Zip(c, t)) == InOrder(Zip(c.up.up, FlipTree(c, t)))
  {
    RedParentHeights(c, h);
    var x := Mk(c.d, t, c.at, false, c.other);
    assert RedBlack(Mk(c.d, t, c.at, true, c.other), h + 1) && RedBlack(Paint(c.up.other, true), h + 1);
    SplitStep(s, c, t);
    SplitStep(s, c.up, x);
    FlipColorsShape(s, c.up.d, c.up.up, x, c.up.at, c.up.other);
    ZipSameOrder(c.up.up, Mk(c.up.d, x, c.up.at, true, c.up.other), FlipTree(c, t));
  }

  /** The result of Case 3, the hole being the outer grandchild. */
  ghost function OuterTree(c: Path, t: Tree): Tree
    requires RedParent(c)
  {
    Mk(c.d, t, c.at, true, Mk(c.d, c.other, c.up.at, false, c.up.other))
  }

  lemma OuterStep(s: State, c: Path, t: Tree, h: nat)
    requires RedParent(c) && Pending(c, t, h) && IsBlack(c.up.other) && c.d == c.up.d
    ensures Split(s, c, t) ==> Split(RotateUp(s, c.d, c.at, c.up.at), c.up.up, OuterTree(c, t))
    ensures RedBlack(OuterTree(c, t), h + 1) && PathRedBlack(c.up.up, h + 1)
    ensures InOrder(Zip(c, t)) == InOrder(Zip(c.up.up, OuterTree(c, t)))
  {
    RedParentHeights(c, h);
    assert RedBlack(Mk(c.d, c.other, c.up.at, false, c.up.other), h);
    if Split(s, c, t) {
      SplitTwoUp(s, c, t);
      RotateUpShape(s, c.d, TwoUp(c, t), c.at, c.up.at);
    }
    RotateInOrder(c.d, t, c.at, c.other, c.up.at, c.up.other, false, true, true, false);
    ZipSameOrder(c.up.up, Mk(c.d, Mk(c.d, t, c.at, false, c.other), c.up.at, true, c.up.other), OuterTree(c, t));
  }

  /** The result of Cases 2 and 3, the hole being the inner grandchild. */
  ghost function InnerTree(c: Path, t: Tree): Tree
    requires RedParent(c) && t.Node?
  {
    var d := c.up.d;
    Mk(d, Mk(d, c.other, c.at, false, Branch(t, d)), t.at, true, Mk(d, Branch(t, Opp(d)), c.up.at, false, c.up.other))
  }

  lemma InnerStep(s: State, c: Path, t: Tree, h: nat)
    requires RedParent(c) && Pending(c, t, h) && IsBlack(c.up.other) && c.d == Opp(c.up.d)
    ensures Split(s, c, t) ==>
              Split(RotateUp(InsertCase2(s, c.up.d, t.at, c.at), c.up.d, t.at, c.up.at), c.up.up, InnerTree(c, t))
  {
    if Split(s, c, t) {
      SplitTwoUp(s, c, t);
      HoldsOpened(s, TwoUp(c, t), c.up.d);
      InsertCase23Shape(s, c.up.d, Opened(TwoUp(c, t), c.up.d), t.at, c.at, c.up.at);
    }
  }

  lemma InnerHeights(c: Path, t: Tree, h: nat)
    requires RedParent(c) && Pending(c, t, h) && IsBlack(c.up.other)
    ensures RedBlack(InnerTree(c, t), h + 1) && PathRedBlack(c.up.up, h + 1)
  {
    RedParentHeights(c, h);
    var d := c.up.d;
    assert RedBlack(Mk(d, c.other, c.at, false, Branch(t, d)), h);
    assert RedBlack(Mk(d, Branch(t, Opp(d)), c.up.at, false, c.up.other), h);
  }

  lemma InnerOrder(c: Path, t: Tree)
    requires RedParent(c) && t.Node? && c.d == Opp(c.up.d)
    ensures InOrder(Zip(c, t)) == InOrder(Zip(c.up.up, InnerTree(c, t)))
  {
    var d, p, n, g, u := c.up.d, c.at, t.at, c.up.at, c.up.other;
    var a, b, e := c.other, Branch(t, d), Branch(t, Opp(d));
    var inner := Mk(d, a, p, false, Mk(d, b, n, t.black, e));
    var turned := Mk(d, Mk(d, a, p, false, b), n, false, e);
    RotateInOrder(d, a, p, b, n, e, false, false, false, t.black);
    ZipSameOrder(In(c.up.up, d, g, true, u), inner, turned);
    RotateInOrder(d, Mk(d, a, p, false, b), n, e, g, u, false, true, true, false);
    ZipSameOrder(c.up.up, Mk(d, turned, g, true, u), InnerTree(c, t));
  }
}
