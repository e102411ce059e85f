/** Taking a node out of the tree, before any rebalancing. */
module RbUnlink {
  import opened RbModel
  import opened RbState

  // ---- at most one child ----

  ghost function EraseNoLeft(s: State, n: RbNode): State {
    var pc, child := Get(s, n), Get(s, n).right;
    var s1 := ChangeChild(s, n, child, pc.parent);
    if child == null then s1 else SetParentColor(s1, child, pc.parent, pc.black)
  }

  ghost function EraseNoRight(s: State, n: RbNode, child: RbNode): State {
    var pc := Get(s, n);
    ChangeChild(SetParentColor(s, child, pc.parent, pc.black), n, child, pc.parent)
  }

  lemma NoLeftShape(s: State, c: Path, n: RbNode, b: bool, r: Tree)
    ensures Split(s, c, Node(Leaf, n, b, r)) ==> Split(EraseNoLeft(s, n), c, Paint(r, b))
  {
    if Split(s, c, Node(Leaf, n, b, r)) {
      var v := View(c, n, NONE, Piece(r, n), NONE, NONE);
      var s1 := ChangeChild(s, n, RootOf(r), ParentOf(c));
      HoldsChangeChild(s, v, n, RootOf(r));
      if r.Node? {
        HoldsRepaint(s1, v.(hole := RootOf(r)), ParentOf(c), b);
        AtRepaint(s1, r, ParentOf(c), b);
      }
    }
  }

  lemma NoRightShape(s: State, c: Path, l: Tree, n: RbNode, b: bool)
    requires l.Node?
    ensures Split(s, c, Node(l, n, b, Leaf)) ==> Split(EraseNoRight(s, n, l.at), c, Paint(l, b))
  {
    if Split(s, c, Node(l, n, b, Leaf)) {
      var v := View(c, n, NONE, Piece(l, n), NONE, NONE);
      HoldsRepaint(s, v, ParentOf(c), b);
      AtRepaint(s, l, ParentOf(c), b);
      HoldsChangeChild(SetParentColor(s, l.at, ParentOf(c), b), v.(x1 := Piece(Paint(l, b), ParentOf(c))), n, l.at);
    }
  }

  /** An only child is red and its parent black; painting it black loses no height. */
  lemma OnlyChild(d: Dir, n: RbNode, b: bool, x: Tree, h: nat)
    requires RedBlack(Mk(d, Leaf, n, b, x), h)
    ensures h == if b then 1 else 0
    ensures x.Node? ==> b && !x.black && RedBlack(Paint(x, true), 1)
  {
  }

  // ---- two children: the in-order successor takes the node's place ----

  /** The successor is the right child itself. */
  ghost function EraseAdjacent(s: State, n: RbNode, succ: RbNode, l: RbNode): State {
    var pc, child2 := Get(s, n), Get(s, succ).right;
    var s2 := SetParent(SetKid(s, succ, L, l), l, succ);
    SetParentColor(AdoptBlack(ChangeChild(s2, n, succ, pc.parent), child2, succ), succ, pc.parent, pc.black)
  }

  lemma EraseAdjacentShape(s: State, c: Path, l: Tree, n: RbNode, b: bool, succ: RbNode, sb: bool, x: Tree)
    requires l.Node?
    ensures Split(s, c, Node(l, n, b, Node(Leaf, succ, sb, x))) ==>
              Split(EraseAdjacent(s, n, succ, l.at), c, Node(l, succ, b, Paint(x, true)))
  {
    if Split(s, c, Node(l, n, b, Node(Leaf, succ, sb, x))) {
      assert Sub(s, Node(Leaf, succ, sb, x));
      var v := View(c, n, Piece(x, succ), Piece(l, n), NONE, NONE);
      ReplaceShape(s, v, n, succ, l.at);
      AdoptInPlace(Replace(s, n, succ, l.at), View(c, succ, Piece(l, succ), Piece(x, succ), NONE, NONE), b);
    }
  }

  /** The node in the hole has its two pieces; the right one turns black, and the node gets the colour b. */
  lemma AdoptInPlace(s: State, w: View, b: bool)
    requires w.x2 == NONE && w.x3 == NONE && w.hole != null && w.x0.p == w.hole && w.x1.p == w.hole
    requires Outside(w.hole, w) && Disjoint(w)
    requires Get(s, w.hole).left == RootOf(w.x0.t) && Get(s, w.hole).right == RootOf(w.x1.t)
    ensures Holds(s, w) ==>
              Split(SetParentColor(AdoptBlack(s, RootOf(w.x1.t), w.hole), w.hole, ParentOf(w.c), b), w.c,
                    Node(w.x0.t, w.hole, b, Paint(w.x1.t, true)))
  {
    var succ := w.hole;
    var s4 := AdoptBlack(s, RootOf(w.x1.t), succ);
    HoldsAdopt(s, w, succ);
    HoldsPut(s4, succ, Get(s4, succ).(parent := ParentOf(w.c), black := b), w.(x1 := Piece(Paint(w.x1.t, true), succ)));
    SubMk(SetParentColor(s4, succ, ParentOf(w.c), b), L, w.x0.t, succ, b, Paint(w.x1.t, true));
  }

  /** succ adopts n's left child l and is put where n was. */
  ghost function Replace(s: State, n: RbNode, succ: RbNode, l: RbNode): State {
    ChangeChild(SetParent(SetKid(s, succ, L, l), l, succ), n, succ, Get(s, n).parent)
  }

  lemma ReplaceShape(s: State, v: View, n: RbNode, succ: RbNode, l: RbNode)
    requires v.hole == n && v.x1.t.Node? && v.x1.t.at == l && Get(s, n).parent == ParentOf(v.c)
    requires n != succ && Outside(n, v) && Outside(succ, v) && Disjoint(v)
    ensures var s' := Replace(s, n, succ, l);
            && (Holds(s, v) ==> Holds(s', v.(hole := succ, x1 := Piece(v.x1.t, succ))))
            && Get(s', succ) == Get(s, succ).(left := l)
  {
    var s1 := SetKid(s, succ, L, l);
    HoldsPut(s, succ, WithKid(Get(s, succ), L, l), v);
    HoldsReparent(s1, v, succ);
    HoldsChangeChild(SetParent(s1, l, succ), v.(x1 := Piece(v.x1.t, succ)), n, succ);
  }

  /** The successor is further down, at the left end below the right child. */
  ghost function EraseDeep(s: State, n: RbNode, child: RbNode, par: RbNode, succ: RbNode, l: RbNode): State {
    var pc, child2 := Get(s, n), Get(s, succ).right;
    var s1 := SetParent(SetKid(SetKid(s, par, L, child2), succ, R, child), child, succ);
    var s2 := SetParent(SetKid(s1, succ, L, l), l, succ);
    SetParentColor(AdoptBlack(ChangeChild(s2, n, succ, pc.parent), child2, par), succ, pc.parent, pc.black)
  }

  /** The same stores with child2 adopted at once. */
  ghost function EraseDeep'(s: State, n: RbNode, child: RbNode, par: RbNode, succ: RbNode, l: RbNode): State {
    var pc, child2 := Get(s, n), Get(s, succ).right;
    var s1 := SetParent(SetKid(AdoptBlack(SetKid(s, par, L, child2), child2, par), succ, R, child), child, succ);
    var s2 := SetParent(SetKid(s1, succ, L, l), l, succ);
    SetParentColor(ChangeChild(s2, n, succ, pc.parent), succ, pc.parent, pc.black)
  }

  lemma AdoptCommutes(s: State, x: RbNode?, q: RbNode, n: RbNode, cell: Cell)
    requires x != n
    ensures AdoptBlack(Put(s, n, cell), x, q) == Put(AdoptBlack(s, x, q), n, cell)
    ensures Get(AdoptBlack(s, x, q), n) == Get(s, n)
  {
    if x != null {
      assert AdoptBlack(Put(s, n, cell), x, q).m == Put(AdoptBlack(s, x, q), n, cell).m;
    }
  }

  lemma EraseDeepOrder(s: State, n: RbNode, child: RbNode, par: RbNode, succ: RbNode, l: RbNode)
    requires var x := Get(s, succ).right;
             x != null ==> x != succ && x != child && x != l && x != n && x != Get(s, n).parent
    requires succ != child && n != succ && n != child && n != l && n != par
    ensures EraseDeep(s, n, child, par, succ, l) == EraseDeep'(s, n, child, par, succ, l)
  {
    var pc, x := Get(s, n), Get(s, succ).right;
    var a0 := SetKid(s, par, L, x);
    var a1 := SetKid(a0, succ, R, child);
    var a2 := SetParent(a1, child, succ);
    var a3 := SetKid(a2, succ, L, l);
    var a4 := SetParent(a3, l, succ);
    AdoptCommutes(a0, x, par, succ, WithKid(Get(a0, succ), R, child));
    AdoptCommutes(a1, x, par, child, Get(a1, child).(parent := succ));
    AdoptCommutes(a2, x, par, succ, WithKid(Get(a2, succ), L, l));
    AdoptCommutes(a3, x, par, l, Get(a3, l).(parent := succ));
    if pc.parent != null {
      AdoptCommutes(a4, x, par, pc.parent, WithKid(Get(a4, pc.parent), L, succ));
      AdoptCommutes(a4, x, par, pc.parent, WithKid(Get(a4, pc.parent), R, succ));
    }
  }

  /** Splicing the successor out of its place. */
  lemma SpliceShape(s: State, p: Path, succ: RbNode, sb: bool, x: Tree)
    requires p.In? && p.d == L
    ensures Split(s, p, Node(Leaf, succ, sb, x)) ==>
              var s' := AdoptBlack(SetKid(s, p.at, L, RootOf(x)), RootOf(x), p.at);
              Split(s', p, Paint(x, true)) && Get(s', succ) == Get(s, succ)
  {
    if Split(s, p, Node(Leaf, succ, sb, x)) {
      var v := View(p, succ, NONE, Piece(x, succ), NONE, NONE);
      assert Kid(Get(s, p.at), L) == succ;
      HoldsChangeChild(s, v, succ, RootOf(x));
      HoldsAdopt(SetKid(s, p.at, L, RootOf(x)), v.(hole := RootOf(x)), p.at);
    }
  }

  lemma {:induction false} RootZip(lower: Path, x: Tree, y: Tree)
    requires lower.In?
    ensures RootOf(Zip(lower, x)) == RootOf(Zip(lower, y))
    decreases lower
  {
    if lower.up.In? {
      RootZip(lower.up, Mk(lower.d, x, lower.at, lower.black, lower.other),
              Mk(lower.d, y, lower.at, lower.black, lower.other));
    }
  }

  lemma {:induction false} RootZipOnPath(lower: Path, x: Tree)
    requires lower.In?
    ensures RootOf(Zip(lower, x)) != null && RootOf(Zip(lower, x)) in PathNodes(lower)
    decreases lower
  {
    if lower.up.In? {
      RootZipOnPath(lower.up, Mk(lower.d, x, lower.at, lower.black, lower.other));
    }
  }

  /** The tree with the successor spliced out hangs below n, and the successor stands apart from it. */
  lemma SplicedBelow(s: State, c: Path, l: Tree, n: RbNode, b: bool, lower: Path, succ: RbNode, sb: bool, x: Tree)
    requires lower.In? && lower.d == L
    ensures Split(s, c, Node(l, n, b, Zip(lower, Node(Leaf, succ, sb, x)))) ==>
              var s' := AdoptBlack(SetKid(s, lower.at, L, RootOf(x)), RootOf(x), lower.at);
              && Split(s', c, Node(l, n, b, Zip(lower, Paint(x, true))))
              && Get(s', succ) == Get(s, succ)
              && Get(s, succ).right == RootOf(x)
              && succ !in PathNodes(c) && succ !in Nodes(l) && succ != n && succ !in Nodes(Zip(lower, Paint(x, true)))
  {
    var t0, t1 := Node(Leaf, succ, sb, x), Paint(x, true);
    var base := In(c, R, n, b, l);
    var p := Extend(lower, base);
    var s' := AdoptBlack(SetKid(s, lower.at, L, RootOf(x)), RootOf(x), lower.at);
    SplitStep(s, base, Zip(lower, t0));
    SplitExtend(s, lower, base, t0);
    SpliceShape(s, p, succ, sb, x);
    SplitExtend(s', lower, base, t1);
    SplitStep(s', base, Zip(lower, t1));
    ZipNodes(lower, t0);
    ZipNodes(lower, t1);
    ExtendNodes(lower, base);
  }

  lemma {:induction false} ExtendNodes(lower: Path, base: Path)
    ensures PathNodes(Extend(lower, base)) == PathNodes(lower) + PathNodes(base)
    decreases lower
  {
    if lower.In? {
      ExtendNodes(lower.up, base);
    }
  }

  /** The pieces around one node. */
  lemma NodeView(s: State, c: Path, l: Tree, n: RbNode, b: bool, r: Tree)
    requires Split(s, c, Node(l, n, b, r))
    ensures var v := View(c, n, Piece(l, n), Piece(r, n), NONE, NONE);
            Holds(s, v) && Disjoint(v) && Outside(n, v)
    ensures Get(s, n) == Cell(RootOf(l), RootOf(r), ParentOf(c), b)
  {
  }

  /** succ takes over r, the spliced right subtree of n. */
  lemma TakeOver(s: State, v: View, n: RbNode, succ: RbNode, child: RbNode)
    requires v.x1.t.Node? && v.x1.t.at == child && n != succ && Outside(n, v) && Outside(succ, v) && Disjoint(v)
    ensures var s' := SetParent(SetKid(s, succ, R, child), child, succ);
            && (Holds(s, v) ==> Holds(s', v.(x1 := Piece(v.x1.t, succ))))
            && Get(s', succ) == Get(s, succ).(right := child) && Get(s', n) == Get(s, n)
  {
    HoldsPut(s, succ, WithKid(Get(s, succ), R, child), v);
    HoldsReparent(SetKid(s, succ, R, child), v, succ);
  }

  lemma EraseDeepShape'(s: State, c: Path, l: Tree, n: RbNode, b: bool, lower: Path, succ: RbNode, sb: bool, x: Tree)
    requires l.Node? && lower.In? && lower.d == L
    requires Split(s, c, Node(l, n, b, Zip(lower, Node(Leaf, succ, sb, x))))
    ensures var child := RootOf(Zip(lower, x));
            child != null && Split(EraseDeep'(s, n, child, lower.at, succ, l.at), c,
                                   Node(l, succ, b, Zip(lower, Paint(x, true))))
  {
    RootZipOnPath(lower, x);
    RootZip(lower, x, Paint(x, true));
    var child, r := RootOf(Zip(lower, x)), Zip(lower, Paint(x, true));
    SplicedBelow(s, c, l, n, b, lower, succ, sb, x);
    NodeView(s, c, l, n, b, Zip(lower, Node(Leaf, succ, sb, x)));
    var s0 := AdoptBlack(SetKid(s, lower.at, L, RootOf(x)), RootOf(x), lower.at);
    NodeView(s0, c, l, n, b, r);
    TakeOver(s0, View(c, n, Piece(l, n), Piece(r, n), NONE, NONE), n, succ, child);
    var s2 := SetParent(SetKid(s0, succ, R, child), child, succ);
    MoveUp(s2, View(c, n, Piece(r, succ), Piece(l, n), NONE, NONE), n, succ, b);
  }

  /** The stores in the order of the source leave succ in the place of n. */
  lemma EraseDeepShape(s: State, c: Path, l: Tree, n: RbNode, b: bool, lower: Path, succ: RbNode, sb: bool, x: Tree)
    requires l.Node? && lower.In? && lower.d == L
    requires Split(s, c, Node(l, n, b, Zip(lower, Node(Leaf, succ, sb, x))))
    ensures var child := RootOf(Zip(lower, x));
            child != null && Split(EraseDeep(s, n, child, lower.at, succ, l.at), c,
                                   Node(l, succ, b, Zip(lower, Paint(x, true))))
  {
    EraseDeepShape'(s, c, l, n, b, lower, succ, sb, x);
    EraseDeepApart(s, c, l, n, b, lower, succ, sb, x);
    EraseDeepOrder(s, n, RootOf(Zip(lower, x)), lower.at, succ, l.at);
  }

  lemma EraseDeepApart(s: State, c: Path, l: Tree, n: RbNode, b: bool, lower: Path, succ: RbNode, sb: bool, x: Tree)
    requires l.Node? && lower.In? && Split(s, c, Node(l, n, b, Zip(lower, Node(Leaf, succ, sb, x))))
    ensures Get(s, succ).right == RootOf(x) && Get(s, n).parent == ParentOf(c)
    ensures var y, child := RootOf(x), RootOf(Zip(lower, x));
            && (y != null ==> y != succ && y != child && y != l.at && y != n && y != ParentOf(c))
            && succ != child && n != succ && n != child && n != l.at && n != lower.at
  {
    var t0, base := Node(Leaf, succ, sb, x), In(c, R, n, b, l);
    SplitStep(s, base, Zip(lower, t0));
    SplitExtend(s, lower, base, t0);
    ExtendNodes(lower, base);
    RootZipOnPath(lower, x);
    ZipNodes(lower, t0);
  }

  // ---- heights and order ----

  lemma StepDown(c: Path, t: Tree, h: nat, d: Dir) returns (c': Path, h': nat)
    requires t.Node? && RedBlack(t, h) && PathRedBlack(c, h) && Plugs(c, t)
    ensures c' == In(c, d, t.at, t.black, Branch(t, Opp(d))) && h' == if t.black then h - 1 else h
    ensures RedBlack(Branch(t, d), h') && PathRedBlack(c', h') && Plugs(c', Branch(t, d))
    ensures Zip(c', Branch(t, d)) == Zip(c, t)
  {
    c', h' := In(c, d, t.at, t.black, Branch(t, Opp(d))), if t.black then h - 1 else h;
  }

  /** Finds the way to a node. */
  lemma {:induction false} Locate(c: Path, t: Tree, h: nat, n: RbNode) returns (c': Path, t': Tree, h': nat)
    requires n in Nodes(t) && RedBlack(t, h) && PathRedBlack(c, h) && Plugs(c, t)
    ensures t'.Node? && t'.at == n && Zip(c', t') == Zip(c, t)
    ensures RedBlack(t', h') && PathRedBlack(c', h') && Plugs(c', t')
    decreases t
  {
    if t.at == n {
      return c, t, h;
    }
    var d := if n in Nodes(t.left) then L else R;
    var c1, h1 := StepDown(c, t, h, d);
    c', t', h' := Locate(c1, Branch(t, d), h1, n);
  }

  /** Which node a frame holds does not matter to the heights. */
  lemma {:induction false} RenameHeights(lower: Path, c: Path, l: Tree, n: RbNode, n': RbNode, b: bool, h: nat)
    requires PathRedBlack(Extend(lower, In(c, R, n, b, l)), h)
    ensures PathRedBlack(Extend(lower, In(c, R, n', b, l)), h)
    decreases lower
  {
    if lower.In? {
      RenameHeights(lower.up, c, l, n, n', b, if lower.black then h + 1 else h);
    }
  }

  /** lower follows left links only. */
  ghost predicate Leftward(lower: Path) { lower.In? ==> lower.d == L && Leftward(lower.up) }

  lemma {:induction false} LeftwardBefore(lower: Path)
    requires Leftward(lower)
    ensures Before(lower) == []
  {
    if lower.In? {
      LeftwardBefore(lower.up);
    }
  }

  lemma RootInOrder(c: Path, l: Tree, n: RbNode, b: bool, r: Tree)
    ensures InOrder(Zip(c, Node(l, n, b, r))) == (Before(c) + InOrder(l)) + [n] + (InOrder(r) + After(c))
  {
    ZipInOrder(c, Node(l, n, b, r));
    Regroup(Before(c), InOrder(l), [n], InOrder(r), After(c));
  }

  /** Moving the successor up and splicing it out removes exactly n from the order. */
  lemma SuccessorOrder(c: Path, l: Tree, b: bool, lower: Path, succ: RbNode, sb: bool, x: Tree)
    requires Leftward(lower)
    ensures InOrder(Zip(c, Node(l, succ, b, Zip(lower, Paint(x, true))))) ==
            (Before(c) + InOrder(l)) + (InOrder(Zip(lower, Node(Leaf, succ, sb, x))) + After(c))
  {
    SplicedInOrder(lower, succ, sb, x);
    RootInOrder(c, l, succ, b, Zip(lower, Paint(x, true)));
    Reassociate(Before(c) + InOrder(l), succ, InOrder(Zip(lower, Paint(x, true))), After(c));
  }

  lemma Reassociate(a: seq<RbNode>, m: RbNode, r: seq<RbNode>, z: seq<RbNode>)
    ensures a + [m] + (r + z) == a + (([] + [m] + r) + z)
  {
  }

  lemma SplicedInOrder(lower: Path, succ: RbNode, sb: bool, x: Tree)
    requires Leftward(lower)
    ensures InOrder(Zip(lower, Node(Leaf, succ, sb, x))) == [] + [succ] + InOrder(Zip(lower, Paint(x, true)))
  {
    LeftwardBefore(lower);
    ZipInOrder(lower, Node(Leaf, succ, sb, x));
    ZipInOrder(lower, Paint(x, true));
    Regroup([], [], [succ], InOrder(x), After(lower));
    assert [] + InOrder(x) + After(lower) == InOrder(x) + After(lower);
  }

  /** succ, already above r, takes the place of n above l. */
  lemma MoveUp(s: State, v: View, n: RbNode, succ: RbNode, b: bool)
    requires v.hole == n && v.x1.t.Node? && Get(s, n).parent == ParentOf(v.c) && v.x0.p == succ
    requires v.x2 == NONE && v.x3 == NONE
    requires n != succ && Outside(n, v) && Outside(succ, v) && Disjoint(v) && Get(s, succ).right == RootOf(v.x0.t)
    ensures Holds(s, v) ==>
              Split(SetParentColor(Replace(s, n, succ, v.x1.t.at), succ, ParentOf(v.c), b), v.c,
                    Node(v.x1.t, succ, b, v.x0.t))
  {
    ReplaceShape(s, v, n, succ, v.x1.t.at);
    var s1 := Replace(s, n, succ, v.x1.t.at);
    var w := v.(hole := succ, x1 := Piece(v.x1.t, succ));
    HoldsPut(s1, succ, Get(s1, succ).(parent := ParentOf(v.c), black := b), w);
    SubMk(SetParentColor(s1, succ, ParentOf(v.c), b), L, v.x1.t, succ, b, v.x0.t);
  }
}
