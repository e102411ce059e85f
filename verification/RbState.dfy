/** The tree heap as a value: what each store of the C code does to it, and which layouts it keeps. */
module RbState {
  import opened RbModel

  /** The fields of one node that the tree code reads and writes. */
  datatype Cell = Cell(left: RbNode?, right: RbNode?, parent: RbNode?, black: bool)

  /** The cells of a set of nodes, and the root pointer. */
  datatype State = State(m: map<RbNode, Cell>, rt: RbNode?)

  ghost function Get(s: State, n: RbNode): Cell {
    if n in s.m then s.m[n] else Cell(null, null, null, false)
  }

  ghost function Put(s: State, n: RbNode, c: Cell): State { State(s.m[n := c], s.rt) }

  ghost function Kid(c: Cell, d: Dir): RbNode? { if d == L then c.left else c.right }

  ghost function WithKid(c: Cell, d: Dir, x: RbNode?): Cell {
    if d == L then c.(left := x) else c.(right := x)
  }

  // ---- the stores ----

  ghost function SetKid(s: State, n: RbNode, d: Dir, x: RbNode?): State { Put(s, n, WithKid(Get(s, n), d, x)) }

  ghost function SetParent(s: State, n: RbNode, x: RbNode?): State { Put(s, n, Get(s, n).(parent := x)) }

  ghost function SetParentColor(s: State, n: RbNode, x: RbNode?, b: bool): State {
    Put(s, n, Get(s, n).(parent := x, black := b))
  }

  ghost function AdoptBlack(s: State, n: RbNode?, x: RbNode): State {
    if n == null then s else SetParentColor(s, n, x, true)
  }

  ghost function ChangeChild(s: State, old_: RbNode, new_: RbNode?, parent: RbNode?): State {
    if parent == null then s.(rt := new_)
    else if Get(s, parent).left == old_ then SetKid(s, parent, L, new_)
    else SetKid(s, parent, R, new_)
  }

  ghost function RotateSetParents(s: State, old_: RbNode, new_: RbNode, black: bool): State {
    var o := Get(s, old_);
    ChangeChild(SetParentColor(SetParentColor(s, new_, o.parent, o.black), old_, new_, black),
                old_, new_, o.parent)
  }

  // ---- layouts ----

  ghost predicate Up(s: State, t: Tree, p: RbNode?) { t.Node? ==> Get(s, t.at).parent == p }

  /** Below RootOf(t) the heap is laid out as t, every child pointing back at its parent. */
  ghost predicate Sub(s: State, t: Tree) {
    match t
    case Leaf => true
    case Node(l, n, b, r) =>
      && n !in Nodes(l) && n !in Nodes(r) && Nodes(l) !! Nodes(r)
      && Get(s, n).left == RootOf(l) && Get(s, n).right == RootOf(r) && Get(s, n).black == b
      && Up(s, l, n) && Up(s, r, n)
      && Sub(s, l) && Sub(s, r)
  }

  /** Around a hole the heap is laid out as c, and hole is what the hole's parent points at. */
  ghost predicate Ctx(s: State, c: Path, hole: RbNode?) {
    match c
    case Top => s.rt == hole
    case In(up, d, n, b, o) =>
      && n !in Nodes(o) && n !in PathNodes(up) && Nodes(o) !! PathNodes(up)
      && Kid(Get(s, n), d) == hole && Kid(Get(s, n), Opp(d)) == RootOf(o)
      && Get(s, n).parent == ParentOf(up) && Get(s, n).black == b
      && Up(s, o, n) && Sub(s, o) && Ctx(s, up, n)
  }

  /** The whole heap is the path c with t in its hole. (A let, so that callers prove it as one fact.) */
  ghost predicate Split(s: State, c: Path, t: Tree) {
    var laidOut := PathNodes(c) !! Nodes(t) && Ctx(s, c, RootOf(t)) && Sub(s, t) && Up(s, t, ParentOf(c));
    laidOut
  }

  /** Moving the focus up by one frame, or back down, changes nothing. */
  lemma SplitStep(s: State, c: Path, t: Tree)
    requires c.In?
    ensures Split(s, c, t) <==> Split(s, c.up, Mk(c.d, t, c.at, c.black, c.other))
  {
  }

  lemma {:induction false} SplitExtend(s: State, lower: Path, base: Path, t: Tree)
    ensures Split(s, Extend(lower, base), t) <==> Split(s, base, Zip(lower, t))
    decreases lower
  {
    if lower.In? {
      SplitStep(s, Extend(lower, base), t);
      SplitExtend(s, lower.up, base, Mk(lower.d, t, lower.at, lower.black, lower.other));
    }
  }

  lemma {:induction false} SplitClose(s: State, c: Path, t: Tree)
    ensures Split(s, c, t) <==> Split(s, Top, Zip(c, t))
    decreases c
  {
    if c.In? {
      SplitStep(s, c, t);
      SplitClose(s, c.up, Mk(c.d, t, c.at, c.black, c.other));
    }
  }

  // ---- pieces that a rebalancing step moves about whole ----

  /** A subtree and the node its root points back at. */
  datatype Piece = Piece(t: Tree, p: RbNode?)

  ghost const NONE: Piece := Piece(Leaf, null)

  ghost predicate At(s: State, x: Piece) { Sub(s, x.t) && Up(s, x.t, x.p) }

  datatype View = View(c: Path, hole: RbNode?, x0: Piece, x1: Piece, x2: Piece, x3: Piece)

  ghost predicate Holds(s: State, v: View) {
    var held := Ctx(s, v.c, v.hole) && At(s, v.x0) && At(s, v.x1) && At(s, v.x2) && At(s, v.x3);
    held
  }

  ghost predicate Outside(n: RbNode, v: View) {
    && n !in PathNodes(v.c)
    && n !in Nodes(v.x0.t) && n !in Nodes(v.x1.t) && n !in Nodes(v.x2.t) && n !in Nodes(v.x3.t)
  }

  ghost predicate Disjoint(v: View) {
    && PathNodes(v.c) !! Nodes(v.x0.t) && PathNodes(v.c) !! Nodes(v.x1.t)
    && PathNodes(v.c) !! Nodes(v.x2.t) && PathNodes(v.c) !! Nodes(v.x3.t)
    && Nodes(v.x0.t) !! Nodes(v.x1.t) && Nodes(v.x0.t) !! Nodes(v.x2.t) && Nodes(v.x0.t) !! Nodes(v.x3.t)
    && Nodes(v.x1.t) !! Nodes(v.x2.t) && Nodes(v.x1.t) !! Nodes(v.x3.t) && Nodes(v.x2.t) !! Nodes(v.x3.t)
  }

  lemma {:induction false} SubPut(s: State, n: RbNode, cell: Cell, t: Tree)
    ensures Sub(s, t) && n !in Nodes(t) ==> Sub(Put(s, n, cell), t)
  {
    if t.Node? {
      SubPut(s, n, cell, t.left);
      SubPut(s, n, cell, t.right);
    }
  }

  lemma {:induction false} CtxPut(s: State, n: RbNode, cell: Cell, c: Path, hole: RbNode?)
    ensures Ctx(s, c, hole) && n !in PathNodes(c) ==> Ctx(Put(s, n, cell), c, hole)
  {
    if c.In? {
      SubPut(s, n, cell, c.other);
      CtxPut(s, n, cell, c.up, c.at);
    }
  }

  /** A store outside a view keeps the view. */
  lemma HoldsPut(s: State, n: RbNode, cell: Cell, v: View)
    ensures Holds(s, v) && Outside(n, v) ==> Holds(Put(s, n, cell), v)
  {
    CtxPut(s, n, cell, v.c, v.hole);
    SubPut(s, n, cell, v.x0.t);
    SubPut(s, n, cell, v.x1.t);
    SubPut(s, n, cell, v.x2.t);
    SubPut(s, n, cell, v.x3.t);
  }

  lemma {:induction false} SubRoot(s: State, x: RbNode?, t: Tree)
    ensures Sub(s, t) ==> Sub(s.(rt := x), t)
  {
    if t.Node? {
      SubRoot(s, x, t.left);
      SubRoot(s, x, t.right);
    }
  }

  lemma CtxChangeChild(s: State, c: Path, old_: RbNode, new_: RbNode?)
    ensures Ctx(s, c, old_) && old_ !in PathNodes(c) ==> Ctx(ChangeChild(s, old_, new_, ParentOf(c)), c, new_)
  {
    if c.In? {
      var cell := WithKid(Get(s, c.at), c.d, new_);
      SubPut(s, c.at, cell, c.other);
      CtxPut(s, c.at, cell, c.up, c.at);
    }
  }

  lemma HoldsChangeChild(s: State, v: View, old_: RbNode, new_: RbNode?)
    requires v.hole == old_ && old_ !in PathNodes(v.c)
    ensures Holds(s, v) && Disjoint(v) ==>
              Holds(ChangeChild(s, old_, new_, ParentOf(v.c)), v.(hole := new_))
  {
    CtxChangeChild(s, v.c, old_, new_);
    if v.c.In? {
      var w := v.(c := Top, hole := s.rt);
      HoldsPut(s, v.c.at, Get(s, v.c.at).(left := new_), w);
      HoldsPut(s, v.c.at, Get(s, v.c.at).(right := new_), w);
    } else {
      SubRoot(s, new_, v.x0.t);
      SubRoot(s, new_, v.x1.t);
      SubRoot(s, new_, v.x2.t);
      SubRoot(s, new_, v.x3.t);
    }
  }

  lemma HoldsRotate(s: State, v: View, old_: RbNode, new_: RbNode, black: bool)
    requires v.hole == old_ && old_ != new_ && Get(s, old_).parent == ParentOf(v.c)
    requires Outside(old_, v) && Outside(new_, v)
    ensures var s' := RotateSetParents(s, old_, new_, black);
            && (Holds(s, v) && Disjoint(v) ==> Holds(s', v.(hole := new_)))
            && Get(s', new_) == Get(s, new_).(parent := ParentOf(v.c), black := Get(s, old_).black)
            && Get(s', old_) == Get(s, old_).(parent := new_, black := black)
  {
    var o := Get(s, old_);
    var s1 := SetParentColor(s, new_, o.parent, o.black);
    var s2 := SetParentColor(s1, old_, new_, black);
    HoldsPut(s, new_, Get(s, new_).(parent := o.parent, black := o.black), v);
    HoldsPut(s1, old_, Get(s1, old_).(parent := new_, black := black), v);
    HoldsChangeChild(s2, v, old_, new_);
  }

  lemma AtRepaint(s: State, t: Tree, q: RbNode?, b: bool)
    requires t.Node?
    ensures Sub(s, t) ==> At(SetParentColor(s, t.at, q, b), Piece(Paint(t, b), q))
    ensures Nodes(Paint(t, b)) == Nodes(t)
  {
    var cell := Get(s, t.at).(parent := q, black := b);
    SubPut(s, t.at, cell, t.left);
    SubPut(s, t.at, cell, t.right);
  }

  /** rb_set_parent_color on the root of x1. */
  lemma HoldsRepaint(s: State, v: View, q: RbNode?, b: bool)
    requires v.x1.t.Node?
    ensures Holds(s, v) && Disjoint(v) ==>
              Holds(SetParentColor(s, v.x1.t.at, q, b), v.(x1 := Piece(Paint(v.x1.t, b), q)))
  {
    var w := v.(x1 := NONE);
    HoldsPut(s, v.x1.t.at, Get(s, v.x1.t.at).(parent := q, black := b), w);
    AtRepaint(s, v.x1.t, q, b);
  }

  /** `if (tmp) rb_set_parent_color(tmp, q, RB_BLACK)` on the root of x1. */
  lemma HoldsAdopt(s: State, v: View, q: RbNode)
    ensures Holds(s, v) && Disjoint(v) ==>
              Holds(AdoptBlack(s, RootOf(v.x1.t), q), v.(x1 := Piece(Paint(v.x1.t, true), q)))
  {
    if v.x1.t.Node? {
      HoldsRepaint(s, v, q, true);
    }
  }

  /** rb_set_parent on the root of x1. */
  lemma HoldsReparent(s: State, v: View, q: RbNode)
    ensures Holds(s, v) && Disjoint(v) && v.x1.t.Node? ==>
              Holds(SetParent(s, v.x1.t.at, q), v.(x1 := Piece(v.x1.t, q)))
  {
    if v.x1.t.Node? && Holds(s, v) && Disjoint(v) {
      HoldsRepaint(s, v, q, v.x1.t.black);
      assert Get(s, v.x1.t.at).black == v.x1.t.black;
    }
  }

  lemma SubMk(s: State, d: Dir, x: Tree, n: RbNode, b: bool, y: Tree)
    requires n !in Nodes(x) && n !in Nodes(y) && Nodes(x) !! Nodes(y)
    requires Kid(Get(s, n), d) == RootOf(x) && Kid(Get(s, n), Opp(d)) == RootOf(y) && Get(s, n).black == b
    ensures At(s, Piece(x, n)) && At(s, Piece(y, n)) ==> Sub(s, Mk(d, x, n, b, y))
    ensures Nodes(Mk(d, x, n, b, y)) == Nodes(x) + {n} + Nodes(y) && RootOf(Mk(d, x, n, b, y)) == n
  {
  }

  /** p in the hole, with g below it on the side away from d. */
  lemma SplitRotated(s: State, d: Dir, v: View, p: RbNode, g: RbNode, pb: bool, gb: bool)
    requires v.hole == p && v.x0.p == p && v.x1.p == g && v.x2.p == g
    requires p != g && Outside(p, v) && Outside(g, v) && Disjoint(v)
    requires Kid(Get(s, p), d) == RootOf(v.x0.t) && Kid(Get(s, p), Opp(d)) == g
    requires Get(s, p).parent == ParentOf(v.c) && Get(s, p).black == pb
    requires Kid(Get(s, g), d) == RootOf(v.x1.t) && Kid(Get(s, g), Opp(d)) == RootOf(v.x2.t)
    requires Get(s, g).parent == p && Get(s, g).black == gb
    ensures Holds(s, v) ==> Split(s, v.c, Mk(d, v.x0.t, p, pb, Mk(d, v.x1.t, g, gb, v.x2.t)))
  {
    SubMk(s, d, v.x1.t, g, gb, v.x2.t);
    SubMk(s, d, v.x0.t, p, pb, Mk(d, v.x1.t, g, gb, v.x2.t));
  }

  /** The pieces around the two nodes above a hole. */
  ghost function TwoUp(c: Path, t: Tree): View
    requires c.In? && c.up.In?
  {
    View(c.up.up, c.up.at, Piece(t, c.at), Piece(c.other, c.at), Piece(c.up.other, c.up.at), NONE)
  }

  lemma SplitTwoUp(s: State, c: Path, t: Tree)
    requires c.In? && c.up.In? && Split(s, c, t)
    ensures Holds(s, TwoUp(c, t)) && Disjoint(TwoUp(c, t))
    ensures c.at != c.up.at && Outside(c.at, TwoUp(c, t)) && Outside(c.up.at, TwoUp(c, t))
    ensures Kid(Get(s, c.at), c.d) == RootOf(t) && Kid(Get(s, c.at), Opp(c.d)) == RootOf(c.other)
    ensures Kid(Get(s, c.up.at), c.up.d) == c.at && Kid(Get(s, c.up.at), Opp(c.up.d)) == RootOf(c.up.other)
    ensures Get(s, c.at).parent == c.up.at && Get(s, c.at).black == c.black
    ensures Get(s, c.up.at).parent == ParentOf(c.up.up) && Get(s, c.up.at).black == c.up.black
  {
    assert Ctx(s, c.up, c.at);
  }

  /** Takes the root of x0 off: x0's branches become pieces of their own. */
  ghost function Opened(v: View, d: Dir): View
    requires v.x0.t.Node?
  {
    var t := v.x0.t;
    View(v.c, v.hole, v.x1, Piece(Branch(t, d), t.at), Piece(Branch(t, Opp(d)), t.at), v.x2)
  }

  lemma HoldsOpened(s: State, v: View, d: Dir)
    requires v.x0.t.Node? && v.x3 == NONE && Holds(s, v) && Disjoint(v)
    ensures var t, w := v.x0.t, Opened(v, d);
            && Holds(s, w) && Disjoint(w) && Outside(t.at, w)
            && Kid(Get(s, t.at), d) == RootOf(Branch(t, d)) && Kid(Get(s, t.at), Opp(d)) == RootOf(Branch(t, Opp(d)))
            && Get(s, t.at).parent == v.x0.p && Get(s, t.at).black == t.black
    ensures forall n :: Outside(n, v) ==> n != v.x0.t.at && Outside(n, Opened(v, d))
  {
  }

  // ---- the rebalancing steps ----

  /** Rotates g away from its d-child p, which takes g's place and colour; g turns red.
      This is Case 3 of insertion and Case 1 of erasure. */
  ghost function RotateUp(s: State, d: Dir, p: RbNode, g: RbNode): State {
    var tmp := Kid(Get(s, p), Opp(d));
    RotateSetParents(AdoptBlack(SetKid(SetKid(s, g, d, tmp), p, Opp(d), g), tmp, g), g, p, false)
  }

  /** v holds the pieces under p (x0, x1) and g's other child x2. */
  lemma RotateUpShape(s: State, d: Dir, v: View, p: RbNode, g: RbNode)
    requires v.x0.p == p && v.x2.p == g && v.hole == g && IsBlack(v.x1.t) && v.x3 == NONE
    requires p != g && Outside(p, v) && Outside(g, v) && Disjoint(v)
    requires Kid(Get(s, p), d) == RootOf(v.x0.t) && Kid(Get(s, p), Opp(d)) == RootOf(v.x1.t)
    requires Kid(Get(s, g), Opp(d)) == RootOf(v.x2.t) && Get(s, g).parent == ParentOf(v.c) && Get(s, g).black
    ensures Holds(s, v) ==>
              Split(RotateUp(s, d, p, g), v.c, Mk(d, v.x0.t, p, true, Mk(d, v.x1.t, g, false, v.x2.t)))
  {
    var tmp := Kid(Get(s, p), Opp(d));
    var s1 := SetKid(s, g, d, tmp);
    var s2 := SetKid(s1, p, Opp(d), g);
    var s3 := AdoptBlack(s2, tmp, g);
    HoldsPut(s, g, WithKid(Get(s, g), d, tmp), v);
    HoldsPut(s1, p, WithKid(Get(s1, p), Opp(d), g), v);
    HoldsAdopt(s2, v, g);
    var w := v.(x1 := Piece(v.x1.t, g));
    HoldsRotate(s3, w, g, p, false);
    SplitRotated(RotateUp(s, d, p, g), d, w.(hole := p), p, g, true, false);
  }

  /** Case 2: rotate p away from its other child n, without telling g yet. */
  ghost function InsertCase2(s: State, d: Dir, n: RbNode, p: RbNode): State {
    var tmp := Kid(Get(s, n), d);
    SetParentColor(AdoptBlack(SetKid(SetKid(s, p, Opp(d), tmp), n, d, p), tmp, p), p, n, false)
  }

  /** v holds p's d-child x0, n's children x1 and x2, and the uncle x3. */
  lemma InsertCase2Holds(s: State, d: Dir, v: View, n: RbNode, p: RbNode)
    requires v.x0.p == p && v.x1.p == n && v.x2.p == n && IsBlack(v.x1.t)
    requires n != p && Outside(n, v) && Outside(p, v) && Disjoint(v)
    requires Kid(Get(s, n), d) == RootOf(v.x1.t) && Kid(Get(s, n), Opp(d)) == RootOf(v.x2.t)
    requires Kid(Get(s, p), d) == RootOf(v.x0.t)
    ensures var s' := InsertCase2(s, d, n, p);
            && (Holds(s, v) ==> Holds(s', v.(x1 := Piece(v.x1.t, p))))
            && Kid(Get(s', n), d) == p && Kid(Get(s', n), Opp(d)) == RootOf(v.x2.t)
            && Kid(Get(s', p), d) == RootOf(v.x0.t) && Kid(Get(s', p), Opp(d)) == RootOf(v.x1.t)
            && Get(s', p).parent == n && !Get(s', p).black
            && forall m :: m != n && Outside(m, v) && m != p ==> Get(s', m) == Get(s, m)
  {
    var tmp := Kid(Get(s, n), d);
    var s1 := SetKid(s, p, Opp(d), tmp);
    var s2 := SetKid(s1, n, d, p);
    var s3 := AdoptBlack(s2, tmp, p);
    HoldsPut(s, p, WithKid(Get(s, p), Opp(d), tmp), v);
    HoldsPut(s1, n, WithKid(Get(s1, n), d, p), v);
    HoldsAdopt(s2, v, p);
    HoldsPut(s3, p, Get(s3, p).(parent := n, black := false), v.(x1 := Piece(v.x1.t, p)));
  }

  /** Cases 2 and 3 together. */
  lemma InsertCase23Shape(s: State, d: Dir, v: View, n: RbNode, p: RbNode, g: RbNode)
    requires v.x0.p == p && v.x1.p == n && v.x2.p == n && v.x3.p == g && v.hole == g
    requires IsBlack(v.x1.t) && IsBlack(v.x2.t) && Disjoint(v)
    requires n != p && n != g && p != g && Outside(n, v) && Outside(p, v) && Outside(g, v)
    requires Kid(Get(s, n), d) == RootOf(v.x1.t) && Kid(Get(s, n), Opp(d)) == RootOf(v.x2.t)
    requires Kid(Get(s, p), d) == RootOf(v.x0.t)
    requires Kid(Get(s, g), Opp(d)) == RootOf(v.x3.t) && Get(s, g).parent == ParentOf(v.c) && Get(s, g).black
    ensures Holds(s, v) ==>
              Split(RotateUp(InsertCase2(s, d, n, p), d, n, g), v.c,
                    Mk(d, Mk(d, v.x0.t, p, false, v.x1.t), n, true, Mk(d, v.x2.t, g, false, v.x3.t)))
  {
    var s1 := InsertCase2(s, d, n, p);
    InsertCase2Holds(s, d, v, n, p);
    SubMk(s1, d, v.x0.t, p, false, v.x1.t);
    var w := View(v.c, g, Piece(Mk(d, v.x0.t, p, false, v.x1.t), n), v.x2, v.x3, NONE);
    RotateUpShape(s1, d, w, n, g);
  }

  ghost function FlipColors(s: State, u: RbNode, p: RbNode, g: RbNode): State {
    var s2 := SetParentColor(SetParentColor(s, u, g, true), p, g, true);
    SetParentColor(s2, g, Get(s2, g).parent, false)
  }

  /** Case 1: the pieces are the subtrees of g; both of its children turn black and g turns red. */
  lemma RepaintBoth(s: State, v: View, g: RbNode)
    requires v.x0.t.Node? && v.x1.t.Node? && v.x2 == NONE && v.x3 == NONE && Disjoint(v)
    ensures Holds(s, v) ==>
              Holds(SetParentColor(SetParentColor(s, v.x1.t.at, g, true), v.x0.t.at, g, true),
                    View(v.c, v.hole, Piece(Paint(v.x1.t, true), g), Piece(Paint(v.x0.t, true), g), NONE, NONE))
  {
    HoldsRepaint(s, v, g, true);
    var v1 := View(v.c, v.hole, Piece(Paint(v.x1.t, true), g), v.x0, NONE, NONE);
    HoldsRepaint(SetParentColor(s, v.x1.t.at, g, true), v1, g, true);
  }

  lemma FlipColorsShape(s: State, d: Dir, up: Path, x: Tree, g: RbNode, u: Tree)
    requires x.Node? && u.Node?
    ensures Split(s, up, Mk(d, x, g, true, u)) ==>
              Split(FlipColors(s, u.at, x.at, g), up, Mk(d, Paint(x, true), g, false, Paint(u, true)))
  {
    if Split(s, up, Mk(d, x, g, true, u)) {
      var v := View(up, g, Piece(x, g), Piece(u, g), NONE, NONE);
      RepaintBoth(s, v, g);
      var s2 := SetParentColor(SetParentColor(s, u.at, g, true), x.at, g, true);
      var v2 := View(up, g, Piece(Paint(u, true), g), Piece(Paint(x, true), g), NONE, NONE);
      HoldsPut(s2, g, Get(s2, g).(black := false), v2);
      SubMk(FlipColors(s, u.at, x.at, g), d, Paint(x, true), g, false, Paint(u, true));
    }
  }
}
