/** The red-black tree code of kernel/lib/rbtree, on the heap. */
module RbTree {
  import opened RbModel
  import opened RbState
  import I = RbInsert
  import E = RbErase
  import U = RbUnlink

  /** What the heap holds in the nodes of S and in the root. */
  ghost function St(S: set<RbNode>, root: RbRoot): State
    reads S, root
  {
    State(map n | n in S :: Cell(n.left, n.right, n.parent, n.black), root.node)
  }

  ghost predicate InS(x: RbNode?, S: set<RbNode>) { x == null || x in S }

  // ---- stores ----

  method SetLeft(n: RbNode, x: RbNode?, ghost S: set<RbNode>, ghost root: RbRoot)
    requires n in S
    modifies n`left
    ensures St(S, root) == SetKid(old(St(S, root)), n, L, x)
  {
    n.left := x;
  }

  method SetRight(n: RbNode, x: RbNode?, ghost S: set<RbNode>, ghost root: RbRoot)
    requires n in S
    modifies n`right
    ensures St(S, root) == SetKid(old(St(S, root)), n, R, x)
  {
    n.right := x;
  }

  method SetParentPointer(n: RbNode, x: RbNode?, ghost S: set<RbNode>, ghost root: RbRoot)
    requires n in S
    modifies n`parent
    ensures St(S, root) == SetParent(old(St(S, root)), n, x)
  {
    n.parent := x;
  }

  method SetParentAndColor(n: RbNode, x: RbNode?, black: bool, ghost S: set<RbNode>, ghost root: RbRoot)
    requires n in S
    modifies n`parent, n`black
    ensures St(S, root) == SetParentColor(old(St(S, root)), n, x, black)
  {
    n.parent, n.black := x, black;
  }

  method ReplaceChild(old_: RbNode, new_: RbNode?, parent: RbNode?, root: RbRoot, ghost S: set<RbNode>)
    requires InS(parent, S)
    modifies root`node, S`left, S`right
    ensures St(S, root) == ChangeChild(old(St(S, root)), old_, new_, parent)
  {
    if parent != null {
      if parent.left == old_ {
        SetLeft(parent, new_, S, root);
      } else {
        SetRight(parent, new_, S, root);
      }
    } else {
      root.node := new_;
    }
  }

  method RotateParents(old_: RbNode, new_: RbNode, root: RbRoot, black: bool, ghost S: set<RbNode>)
    requires old_ in S && new_ in S && InS(old_.parent, S)
    modifies root`node, S`left, S`right, S`parent, S`black
    ensures St(S, root) == RotateSetParents(old(St(S, root)), old_, new_, black)
  {
    var parent := old_.parent;
    SetParentAndColor(new_, old_.parent, old_.black, S, root);
    SetParentAndColor(old_, new_, black, S, root);
    ReplaceChild(old_, new_, parent, root, S);
  }

  // ---- insertion ----

  /** Case 2 when parent is gparent's left child: left rotate at parent. */
  method InsertCase2Left(node: RbNode, parent: RbNode, ghost root: RbRoot, ghost S: set<RbNode>)
    requires node in S && parent in S && InS(node.left, S) && node != parent && node.left != node
    modifies S`left, S`right, S`parent, S`black
    ensures St(S, root) == InsertCase2(old(St(S, root)), L, node, parent)
    ensures node.right == old(node.right)
    ensures forall n :: n in S && n != parent && n != old(node.left) ==> n.parent == old(n.parent)
  {
    var tmp := node.left;
    SetRight(parent, tmp, S, root);
    SetLeft(node, parent, S, root);
    if tmp != null {
      SetParentAndColor(tmp, parent, true, S, root);
    }
    SetParentAndColor(parent, node, false, S, root);
  }

  /** Case 3 when parent is gparent's left child: right rotate at gparent. */
  method InsertCase3Left(tmp: RbNode?, parent: RbNode, gparent: RbNode, root: RbRoot, ghost S: set<RbNode>)
    requires parent in S && gparent in S && parent != gparent && tmp == parent.right && tmp != gparent
    requires InS(tmp, S) && InS(gparent.parent, S)
    modifies root`node, S`left, S`right, S`parent, S`black
    ensures St(S, root) == RotateUp(old(St(S, root)), L, parent, gparent)
  {
    SetLeft(gparent, tmp, S, root);
    SetRight(parent, gparent, S, root);
    if tmp != null {
      SetParentAndColor(tmp, gparent, true, S, root);
    }
    RotateParents(gparent, parent, root, false, S);
  }

  /** Case 2 when parent is gparent's right child: right rotate at parent. */
  method InsertCase2Right(node: RbNode, parent: RbNode, ghost root: RbRoot, ghost S: set<RbNode>)
    requires node in S && parent in S && InS(node.right, S) && node != parent && node.right != node
    modifies S`left, S`right, S`parent, S`black
    ensures St(S, root) == InsertCase2(old(St(S, root)), R, node, parent)
    ensures node.left == old(node.left)
    ensures forall n :: n in S && n != parent && n != old(node.right) ==> n.parent == old(n.parent)
  {
    var tmp := node.right;
    SetLeft(parent, tmp, S, root);
    SetRight(node, parent, S, root);
    if tmp != null {
      SetParentAndColor(tmp, parent, true, S, root);
    }
    SetParentAndColor(parent, node, false, S, root);
  }

  /** Case 3 when parent is gparent's right child: left rotate at gparent. */
  method InsertCase3Right(tmp: RbNode?, parent: RbNode, gparent: RbNode, root: RbRoot, ghost S: set<RbNode>)
    requires parent in S && gparent in S && parent != gparent && tmp == parent.left && tmp != gparent
    requires InS(tmp, S) && InS(gparent.parent, S)
    modifies root`node, S`left, S`right, S`parent, S`black
    ensures St(S, root) == RotateUp(old(St(S, root)), R, parent, gparent)
  {
    SetRight(gparent, tmp, S, root);
    SetLeft(parent, gparent, S, root);
    if tmp != null {
      SetParentAndColor(tmp, gparent, true, S, root);
    }
    RotateParents(gparent, parent, root, false, S);
  }

  /** Everything reachable through the path and the tree lies in S. */
  ghost predicate Within(c: Path, t: Tree, S: set<RbNode>) {
    var within := PathNodes(c) <= S && Nodes(t) <= S;
    within
  }

  /** The fix-up's result, once the path has been closed. */
  ghost predicate Fixed(s: State, t: Tree, order: seq<RbNode>) {
    Split(s, Top, t) && ValidTree(t) && InOrder(t) == order
  }

  lemma Finish(s: State, c: Path, t: Tree, h: nat)
    requires Split(s, c, t) && RedBlack(t, h) && PathRedBlack(c, h) && Plugs(c, t)
    ensures Fixed(s, Zip(c, t), InOrder(Zip(c, t)))
  {
    SplitClose(s, c, t);
    ZipRedBlack(c, t, h);
  }

  /** Painting the root black, when the red node has reached it. */
  method InsertRoot(node: RbNode, root: RbRoot, ghost S: set<RbNode>, ghost t: Tree, ghost h: nat)
    requires Split(St(S, root), Top, t) && I.Pending(Top, t, h) && t.at == node && Nodes(t) <= S
    modifies S`parent, S`black
    ensures Fixed(St(S, root), Paint(t, true), InOrder(t))
  {
    AtRepaint(St(S, root), t, null, true);
    SetParentAndColor(node, null, true, S, root);
    assert RedBlack(Paint(t, true), h + 1);
  }

  /** What the rotations rely on: the pointers they follow are nodes of S and do not loop. */
  ghost predicate Ready(s: State, node: RbNode, parent: RbNode, gparent: RbNode, S: set<RbNode>) {
    && node in S && parent in S && gparent in S
    && node != parent && node != gparent && parent != gparent
    && InS(Get(s, gparent).parent, S)
    && InS(Get(s, node).left, S) && InS(Get(s, node).right, S)
    && InS(Get(s, parent).left, S) && InS(Get(s, parent).right, S)
    && Get(s, node).left !in {node, parent, gparent} && Get(s, node).right !in {node, parent, gparent}
    && Get(s, parent).left != gparent && Get(s, parent).right != gparent
  }

  lemma SplitReady(s: State, c: Path, t: Tree, S: set<RbNode>)
    requires c.In? && c.up.In? && t.Node? && Split(s, c, t) && Within(c, t, S)
    ensures Ready(s, t.at, c.at, c.up.at, S)
  {
    SplitTwoUp(s, c, t);
    HoldsOpened(s, TwoUp(c, t), L);
  }

  /** Cases 2 and 3 when parent is gparent's left child. */
  method InsertLeft(node: RbNode, parent: RbNode, gparent: RbNode, root: RbRoot, ghost S: set<RbNode>)
    requires Ready(St(S, root), node, parent, gparent, S)
    modifies root`node, S`left, S`right, S`parent, S`black
    ensures var s := old(St(S, root));
            St(S, root) == if node == Get(s, parent).right
                           then RotateUp(InsertCase2(s, L, node, parent), L, node, gparent)
                           else RotateUp(s, L, parent, gparent)
  {
    var parent, tmp := parent, parent.right;
    if node == tmp {
      InsertCase2Left(node, parent, root, S);
      parent := node;
      tmp := node.right;
    }
    InsertCase3Left(tmp, parent, gparent, root, S);
  }

  /** Cases 2 and 3 when parent is gparent's right child. */
  method InsertRight(node: RbNode, parent: RbNode, gparent: RbNode, root: RbRoot, ghost S: set<RbNode>)
    requires Ready(St(S, root), node, parent, gparent, S)
    modifies root`node, S`left, S`right, S`parent, S`black
    ensures var s := old(St(S, root));
            St(S, root) == if node == Get(s, parent).left
                           then RotateUp(InsertCase2(s, R, node, parent), R, node, gparent)
                           else RotateUp(s, R, parent, gparent)
  {
    var parent, tmp := parent, parent.left;
    if node == tmp {
      InsertCase2Right(node, parent, root, S);
      parent := node;
      tmp := node.left;
    }
    InsertCase3Right(tmp, parent, gparent, root, S);
  }

  /** What the rotations make of a pending node with a black uncle. */
  lemma InsertRotated(s: State, s': State, c: Path, t: Tree, h: nat) returns (t': Tree)
    requires Split(s, c, t) && I.Pending(c, t, h) && I.RedParent(c) && IsBlack(c.up.other)
    requires var d := c.up.d;
             s' == if c.d != d then RotateUp(InsertCase2(s, d, t.at, c.at), d, t.at, c.up.at)
                   else RotateUp(s, d, c.at, c.up.at)
    ensures Fixed(s', t', InOrder(Zip(c, t)))
  {
    if c.d == c.up.d {
      I.OuterStep(s, c, t, h);
      t' := Zip(c.up.up, I.OuterTree(c, t));
      Finish(s', c.up.up, I.OuterTree(c, t), h + 1);
    } else {
      I.InnerStep(s, c, t, h);
      I.InnerHeights(c, t, h);
      I.InnerOrder(c, t);
      t' := Zip(c.up.up, I.InnerTree(c, t));
      Finish(s', c.up.up, I.InnerTree(c, t), h + 1);
    }
  }

  lemma FlipWithin(c: Path, t: Tree, S: set<RbNode>)
    requires I.RedParent(c) && Within(c, t, S)
    ensures Within(c.up.up, I.FlipTree(c, t), S) && I.FlipTree(c, t).Node? && I.FlipTree(c, t).at == c.up.at
  {
    assert PathNodes(c.up) <= PathNodes(c);
    assert Nodes(Mk(c.d, t, c.at, true, c.other)) <= S;
    assert Nodes(Paint(c.up.other, true)) == Nodes(c.up.other);
  }

  /** Case 1 of either side. */
  method Flip(uncle: RbNode, parent: RbNode, gparent: RbNode, ghost root: RbRoot, ghost S: set<RbNode>,
              ghost c: Path, ghost t: Tree, ghost h: nat)
    requires Split(St(S, root), c, t) && Within(c, t, S) && I.Pending(c, t, h) && I.RedParent(c)
    requires uncle in S && uncle == RootOf(c.up.other) && !c.up.other.black && parent == c.at && gparent == c.up.at
    modifies S`parent, S`black
    ensures var t' := I.FlipTree(c, t);
            && Split(St(S, root), c.up.up, t') && Within(c.up.up, t', S) && I.Pending(c.up.up, t', h + 1)
            && t'.at == gparent && gparent.parent == ParentOf(c.up.up)
            && InOrder(Zip(c.up.up, t')) == InOrder(Zip(c, t))
  {
    I.FlipStep(St(S, root), c, t, h);
    FlipWithin(c, t, S);
    SetParentAndColor(uncle, gparent, true, S, root);
    SetParentAndColor(parent, gparent, true, S, root);
    var above := gparent.parent;
    SetParentAndColor(gparent, above, false, S, root);
  }

  /** The facts the fix-up reads off the heap around a pending node with a red parent. */
  lemma RedParentFacts(S: set<RbNode>, root: RbRoot, c: Path, t: Tree, h: nat)
    requires Split(St(S, root), c, t) && Within(c, t, S) && I.Pending(c, t, h) && c.In? && !c.black
    ensures I.RedParent(c) && c.at in S && c.up.at in S && InS(RootOf(c.up.other), S)
    ensures Ready(St(S, root), t.at, c.at, c.up.at, S)
    ensures c.at.parent == c.up.at
    ensures c.at == c.up.at.right <==> c.up.d == R
    ensures RootOf(c.up.other) == if c.up.d == R then c.up.at.left else c.up.at.right
    ensures c.up.other.Node? ==> c.up.other.at.black == c.up.other.black
    ensures t.at == Get(St(S, root), c.at).right <==> c.d == R
    ensures t.at == Get(St(S, root), c.at).left <==> c.d == L
  {
    I.RedParentHeights(c, h);
    SplitTwoUp(St(S, root), c, t);
    SplitReady(St(S, root), c, t, S);
    assert c.up.at in S && c.at in S;
  }

  /** One iteration of the fix-up below a red parent. */
  method InsertStep(node: RbNode, parent: RbNode, root: RbRoot, ghost S: set<RbNode>,
                    ghost c: Path, ghost t: Tree, ghost h: nat)
    returns (done: bool, gparent: RbNode, ghost t': Tree)
    requires Split(St(S, root), c, t) && Within(c, t, S) && I.Pending(c, t, h)
    requires t.at == node && c.In? && c.at == parent && !c.black
    modifies root`node, S`left, S`right, S`parent, S`black
    ensures done ==> Fixed(St(S, root), t', InOrder(Zip(c, t)))
    ensures I.RedParent(c)
    ensures !done ==>
              && t' == I.FlipTree(c, t)
              && Split(St(S, root), c.up.up, t') && Within(c.up.up, t', S) && I.Pending(c.up.up, t', h + 1)
              && gparent == t'.at && gparent.parent == ParentOf(c.up.up)
              && InOrder(Zip(c.up.up, t')) == InOrder(Zip(c, t))
  {
    RedParentFacts(S, root, c, t, h);
    ghost var s := St(S, root);
    gparent := parent.parent;
    var tmp := gparent.right;
    if parent != tmp {
      tmp := gparent.right;
      if tmp != null && !tmp.black {
        Flip(tmp, parent, gparent, root, S, c, t, h);
        return false, gparent, I.FlipTree(c, t);
      }
      InsertLeft(node, parent, gparent, root, S);
    } else {
      tmp := gparent.left;
      if tmp != null && !tmp.black {
        Flip(tmp, parent, gparent, root, S, c, t, h);
        return false, gparent, I.FlipTree(c, t);
      }
      InsertRight(node, parent, gparent, root, S);
    }
    t' := InsertRotated(s, St(S, root), c, t, h);
    done := true;
  }

  /** rb_insert_color: the pending red node is worked upwards until the tree is valid again. */
  method InsertColor(node0: RbNode, root: RbRoot, ghost S: set<RbNode>, ghost c0: Path, ghost t0: Tree, ghost h0: nat)
    returns (ghost t': Tree)
    requires Split(St(S, root), c0, t0) && Within(c0, t0, S) && I.Pending(c0, t0, h0) && t0.at == node0
    modifies root`node, S`left, S`right, S`parent, S`black
    ensures Fixed(St(S, root), t', InOrder(Zip(c0, t0)))
  {
    ghost var c, t, h := c0, t0, h0;
    var node := node0;
    var parent := node.parent;
    while true
      invariant Split(St(S, root), c, t) && Within(c, t, S) && I.Pending(c, t, h)
      invariant t.at == node && parent == ParentOf(c) && InOrder(Zip(c, t)) == InOrder(Zip(c0, t0))
      decreases c
    {
      if parent == null {
        InsertRoot(node, root, S, t, h);
        t' := Paint(t, true);
        return;
      }
      ParentFacts(S, root, c, t);
      if parent.black {
        t' := Zip(c, t);
        Finish(St(S, root), c, t, h);
        return;
      }
      var done, gparent;
      ghost var next;
      done, gparent, next := InsertStep(node, parent, root, S, c, t, h);
      if done {
        t' := next;
        return;
      }
      c, t, h := c.up.up, next, h + 1;
      node := gparent;
      parent := node.parent;
    }
  }

  lemma ParentFacts(S: set<RbNode>, root: RbRoot, c: Path, t: Tree)
    requires Split(St(S, root), c, t) && Within(c, t, S) && c.In?
    ensures c.at in S && c.at.black == c.black && c.at.parent == ParentOf(c.up)
    ensures c.at.left == if c.d == L then RootOf(t) else RootOf(c.other)
    ensures c.at.right == if c.d == L then RootOf(c.other) else RootOf(t)
  {
    assert c.at in S;
  }

  // ---- erasure ----

  /** What Cases 3 and 4 do, on the side d of the short tree. */
  ghost function EraseRotated(s: State, d: Dir, p: RbNode, sib: RbNode): State
  {
    var near, far := Kid(Get(s, sib), d), Kid(Get(s, sib), Opp(d));
    if far != null && !Get(s, far).black then E.EraseCase4(s, d, p, sib, far)
    else if near != null then E.EraseCase4(E.EraseCase3(s, d, p, sib, near), d, p, near, sib)
    else s
  }

  /** What Cases 3 and 4 rely on: the pointers they follow are nodes of S and do not loop. */
  ghost predicate SiblingReady(s: State, d: Dir, p: RbNode, sib: RbNode, S: set<RbNode>) {
    var near, far := Kid(Get(s, sib), d), Kid(Get(s, sib), Opp(d));
    && p in S && sib in S && p != sib && InS(near, S) && InS(far, S) && InS(Get(s, p).parent, S)
    && near != p && near != sib && far != p && far != sib && (near != null ==> near != far)
    && ((far == null || Get(s, far).black) ==> near != null)
    && (near != null ==>
          && InS(Get(s, near).left, S) && InS(Get(s, near).right, S)
          && Get(s, near).left !in {p, sib, near} && Get(s, near).right !in {p, sib, near}
          && (Get(s, near).left != null ==> Get(s, near).left != Get(s, near).right))
  }

  /** Case 1 when the short tree is parent's left child: left rotate at parent. */
  method EraseCase1Left(parent: RbNode, sibling: RbNode, tmp1: RbNode, root: RbRoot, ghost S: set<RbNode>)
    requires parent in S && sibling in S && tmp1 in S && parent != sibling && tmp1 == sibling.left && tmp1 != parent
    requires InS(parent.parent, S)
    modifies root`node, S`left, S`right, S`parent, S`black
    ensures St(S, root) == RotateUp(old(St(S, root)), R, sibling, parent)
  {
    SetRight(parent, tmp1, S, root);
    SetLeft(sibling, parent, S, root);
    SetParentAndColor(tmp1, parent, true, S, root);
    RotateParents(parent, sibling, root, false, S);
  }

  /** Case 3 when the short tree is parent's left child: right rotate at sibling. */
  method EraseCase3Left(parent: RbNode, sibling: RbNode, tmp2: RbNode, ghost root: RbRoot, ghost S: set<RbNode>)
    requires parent in S && sibling in S && tmp2 in S && InS(tmp2.right, S)
    requires sibling != tmp2 && parent != sibling && parent != tmp2 && tmp2.right !in {parent, sibling, tmp2}
    modifies S`left, S`right, S`parent, S`black
    ensures St(S, root) == E.EraseCase3(old(St(S, root)), L, parent, sibling, tmp2)
    ensures parent.parent == old(parent.parent)
  {
    var tmp1 := tmp2.right;
    SetLeft(sibling, tmp1, S, root);
    SetRight(tmp2, sibling, S, root);
    SetRight(parent, tmp2, S, root);
    if tmp1 != null {
      SetParentAndColor(tmp1, sibling, true, S, root);
    }
  }

  /** Case 4 when the short tree is parent's left child: left rotate at parent and colour flips. */
  method EraseCase4Left(parent: RbNode, sibling: RbNode, tmp1: RbNode, root: RbRoot, ghost S: set<RbNode>)
    requires parent in S && sibling in S && tmp1 in S && InS(sibling.left, S) && InS(parent.parent, S)
    requires sibling != parent && tmp1 != parent && tmp1 != sibling && sibling.left != sibling
    requires sibling.left != parent && sibling.left != tmp1
    modifies root`node, S`left, S`right, S`parent, S`black
    ensures St(S, root) == E.EraseCase4(old(St(S, root)), L, parent, sibling, tmp1)
  {
    var tmp2 := sibling.left;
    SetRight(parent, tmp2, S, root);
    SetLeft(sibling, parent, S, root);
    SetParentAndColor(tmp1, sibling, true, S, root);
    if tmp2 != null {
      SetParentPointer(tmp2, parent, S, root);
    }
    RotateParents(parent, sibling, root, true, S);
  }

  /** Cases 3 and 4 when the short tree is parent's left child and the sibling is black. */
  method EraseRotateLeft(parent: RbNode, sibling0: RbNode, root: RbRoot, ghost S: set<RbNode>)
    requires SiblingReady(St(S, root), L, parent, sibling0, S)
    modifies root`node, S`left, S`right, S`parent, S`black
    ensures St(S, root) == EraseRotated(old(St(S, root)), L, parent, sibling0)
  {
    var sibling, tmp1 := sibling0, sibling0.right;
    if tmp1 == null || tmp1.black {
      var tmp2 := sibling.left;
      EraseCase3Left(parent, sibling, tmp2, root, S);
      tmp1 := sibling;
      sibling := tmp2;
    }
    EraseCase4Left(parent, sibling, tmp1, root, S);
  }

  /** Case 1 when the short tree is parent's right child: right rotate at parent. */
  method EraseCase1Right(parent: RbNode, sibling: RbNode, tmp1: RbNode, root: RbRoot, ghost S: set<RbNode>)
    requires parent in S && sibling in S && tmp1 in S && parent != sibling && tmp1 == sibling.right && tmp1 != parent
    requires InS(parent.parent, S)
    modifies root`node, S`left, S`right, S`parent, S`black
    ensures St(S, root) == RotateUp(old(St(S, root)), L, sibling, parent)
  {
    SetLeft(parent, tmp1, S, root);
    SetRight(sibling, parent, S, root);
    SetParentAndColor(tmp1, parent, true, S, root);
    RotateParents(parent, sibling, root, false, S);
  }

  /** Case 3 when the short tree is parent's right child: left rotate at sibling. */
  method EraseCase3Right(parent: RbNode, sibling: RbNode, tmp2: RbNode, ghost root: RbRoot, ghost S: set<RbNode>)
    requires parent in S && sibling in S && tmp2 in S && InS(tmp2.left, S)
    requires sibling != tmp2 && parent != sibling && parent != tmp2 && tmp2.left !in {parent, sibling, tmp2}
    modifies S`left, S`right, S`parent, S`black
    ensures St(S, root) == E.EraseCase3(old(St(S, root)), R, parent, sibling, tmp2)
    ensures parent.parent == old(parent.parent)
  {
    var tmp1 := tmp2.left;
    SetRight(sibling, tmp1, S, root);
    SetLeft(tmp2, sibling, S, root);
    SetLeft(parent, tmp2, S, root);
    if tmp1 != null {
      SetParentAndColor(tmp1, sibling, true, S, root);
    }
  }

  /** Case 4 when the short tree is parent's right child: right rotate at parent and colour flips. */
  method EraseCase4Right(parent: RbNode, sibling: RbNode, tmp1: RbNode, root: RbRoot, ghost S: set<RbNode>)
    requires parent in S && sibling in S && tmp1 in S && InS(sibling.right, S) && InS(parent.parent, S)
    requires sibling != parent && tmp1 != parent && tmp1 != sibling && sibling.right != sibling
    requires sibling.right != parent && sibling.right != tmp1
    modifies root`node, S`left, S`right, S`parent, S`black
    ensures St(S, root) == E.EraseCase4(old(St(S, root)), R, parent, sibling, tmp1)
  {
    var tmp2 := sibling.right;
    SetLeft(parent, tmp2, S, root);
    SetRight(sibling, parent, S, root);
    SetParentAndColor(tmp1, sibling, true, S, root);
    if tmp2 != null {
      SetParentPointer(tmp2, parent, S, root);
    }
    RotateParents(parent, sibling, root, true, S);
  }

  /** Cases 3 and 4 when the short tree is parent's right child and the sibling is black. */
  method EraseRotateRight(parent: RbNode, sibling0: RbNode, root: RbRoot, ghost S: set<RbNode>)
    requires SiblingReady(St(S, root), R, parent, sibling0, S)
    modifies root`node, S`left, S`right, S`parent, S`black
    ensures St(S, root) == EraseRotated(old(St(S, root)), R, parent, sibling0)
  {
    var sibling, tmp1 := sibling0, sibling0.left;
    if tmp1 == null || tmp1.black {
      var tmp2 := sibling.right;
      EraseCase3Right(parent, sibling, tmp2, root, S);
      tmp1 := sibling;
      sibling := tmp2;
    }
    EraseCase4Right(parent, sibling, tmp1, root, S);
  }

  /** The facts the fix-up reads off the heap around a short tree. */
  lemma SiblingFacts(S: set<RbNode>, root: RbRoot, c: Path, t: Tree)
    requires Split(St(S, root), c, t) && Within(c, t, S) && c.In? && c.other.Node?
    ensures var o, d := c.other, c.d;
            && c.at in S && o.at in S && c.at != o.at && InS(c.at.parent, S)
            && c.at.parent == ParentOf(c.up) && c.at.black == c.black
            && RootOf(t) == (if d == L then c.at.left else c.at.right)
            && o.at == (if d == L then c.at.right else c.at.left) && RootOf(t) != o.at
            && o.at.black == o.black
            && o.at.left == RootOf(o.left) && o.at.right == RootOf(o.right)
            && InS(o.at.left, S) && InS(o.at.right, S)
            && o.at.left != c.at && o.at.right != c.at
            && (o.left.Node? ==> o.left.at.black == o.left.black)
            && (o.right.Node? ==> o.right.at.black == o.right.black)
  {
    var s := St(S, root);
    E.SplitAround(s, c, t);
    ParentFacts(S, root, c, t);
    assert Nodes(c.other) <= S;
    assert Sub(s, c.other) && Sub(s, c.other.left) && Sub(s, c.other.right);
    assert PathNodes(c.up) <= S;
  }

  lemma SiblingIsReady(s: State, c: Path, t: Tree, S: set<RbNode>)
    requires Split(s, c, t) && Within(c, t, S) && c.In? && c.other.Node?
    requires !IsBlack(c.other.left) || !IsBlack(c.other.right)
    ensures SiblingReady(s, c.d, c.at, c.other.at, S)
  {
    E.SplitAround(s, c, t);
    var o := c.other;
    assert Nodes(o) <= S && PathNodes(c.up) <= S;
    assert Sub(s, o) && Sub(s, o.left) && Sub(s, o.right);
    var near := Branch(o, c.d);
    if near.Node? {
      assert Sub(s, near.left) && Sub(s, near.right);
      assert c.at !in Nodes(near) && o.at !in Nodes(near);
      assert RootOf(near.left) == null || RootOf(near.left) in Nodes(near);
      assert RootOf(near.right) == null || RootOf(near.right) in Nodes(near);
    }
  }

  lemma EraseRotatedFixed(s: State, c: Path, t: Tree, h: nat) returns (t': Tree)
    requires Split(s, c, t) && E.Short(c, t, h) && c.In? && IsBlack(c.other) && c.other.Node?
    requires !IsBlack(c.other.left) || !IsBlack(c.other.right)
    ensures Fixed(EraseRotated(s, c.d, c.at, c.other.at), t', InOrder(Zip(c, t)))
  {
    E.SplitAround(s, c, t);
    assert Sub(s, c.other) && Sub(s, c.other.left) && Sub(s, c.other.right);
    var h' := if c.black then h + 2 else h + 1;
    if !IsBlack(Branch(c.other, Opp(c.d))) {
      t' := Zip(c.up, E.FarTree(c, t));
      E.FarStep(s, c, t);
      E.FarHeights(c, t, h);
      Finish(EraseRotated(s, c.d, c.at, c.other.at), c.up, E.FarTree(c, t), h');
    } else {
      t' := Zip(c.up, E.NearTree(c, t));
      E.NearHeights(c, t, h);
      E.NearStep(s, c, t);
      E.NearOrder(c, t);
      Finish(EraseRotated(s, c.d, c.at, c.other.at), c.up, E.NearTree(c, t), h');
    }
  }

  /** Case 2 of either side. */
  method EraseCase2(parent: RbNode, sibling: RbNode, root: RbRoot, ghost S: set<RbNode>,
                    ghost c: Path, ghost t: Tree, ghost h: nat)
    returns (more: bool, ghost t': Tree)
    requires Split(St(S, root), c, t) && Within(c, t, S) && E.Short(c, t, h) && c.In? && c.other.Node?
    requires c.at == parent && c.other.at == sibling && c.other.black
    requires IsBlack(c.other.left) && IsBlack(c.other.right)
    modifies S`parent, S`black
    ensures !more ==> Fixed(St(S, root), t', InOrder(Zip(c, t)))
    ensures more ==>
              && c.black && c.up.In? && t'.Node? && t'.at == parent && parent.parent == c.up.at
              && Split(St(S, root), c.up, t') && Within(c.up, t', S) && E.Short(c.up, t', h + 1)
              && InOrder(Zip(c.up, t')) == InOrder(Zip(c, t))
  {
    ghost var s := St(S, root);
    ghost var c1 := c.(other := Paint(c.other, false));
    t' := Mk(c.d, t, c.at, true, c1.other);
    E.ShortSibling(c, t, h);
    E.RepaintSiblingShape(s, c, t);
    E.RepaintSiblingHeights(c, t, h);
    assert Within(c.up, t', S) by { assert Nodes(c1.other) == Nodes(c.other); }
    SiblingFacts(S, root, c, t);
    SetParentAndColor(sibling, parent, false, S, root);
    ParentFactsAfter(S, root, c1, t);
    if !parent.black {
      ghost var s1 := St(S, root);
      E.BlackenParent(s1, c1, t);
      var above := parent.parent;
      SetParentAndColor(parent, above, true, S, root);
      SplitStep(St(S, root), c1.(black := true), t);
      Finish(St(S, root), c.up, t', h + 1);
      t' := Zip(c.up, t');
      more := false;
    } else {
      SplitStep(St(S, root), c1, t);
      more := parent.parent != null;
      if !more {
        Finish(St(S, root), c.up, t', h + 1);
      }
    }
  }

  lemma ParentFactsAfter(S: set<RbNode>, root: RbRoot, c: Path, t: Tree)
    requires Split(St(S, root), c, t) && c.In? && c.at in S
    ensures c.at.black == c.black && c.at.parent == ParentOf(c.up)
  {
    assert Get(St(S, root), c.at) == Cell(c.at.left, c.at.right, c.at.parent, c.at.black);
  }

  /** Case 1 of either side, followed through the sibling's new place. */
  method EraseCase1(parent: RbNode, sibling: RbNode, root: RbRoot, ghost S: set<RbNode>,
                    ghost c: Path, ghost t: Tree, ghost h: nat)
    returns (sibling': RbNode, ghost c': Path)
    requires Split(St(S, root), c, t) && Within(c, t, S) && E.Short(c, t, h) && c.In? && c.other.Node?
    requires c.at == parent && c.other.at == sibling && !c.other.black
    modifies root`node, S`left, S`right, S`parent, S`black
    ensures c' == E.RedSiblingPath(c) && c'.other.Node? && c'.other.black && c'.other.at == sibling'
    ensures Split(St(S, root), c', t) && Within(c', t, S) && E.Short(c', t, h)
    ensures InOrder(Zip(c', t)) == InOrder(Zip(c, t))
  {
    ghost var s := St(S, root);
    c' := E.RedSiblingPath(c);
    E.ShortSibling(c, t, h);
    SiblingFacts(S, root, c, t);
    E.RedSiblingStep(s, c, t, h);
    E.RedSiblingOrder(c, t);
    RedSiblingWithin(c, t, S);
    if parent.right == sibling {
      sibling' := sibling.left;
      EraseCase1Left(parent, sibling, sibling', root, S);
    } else {
      sibling' := sibling.right;
      EraseCase1Right(parent, sibling, sibling', root, S);
    }
  }

  lemma RedSiblingWithin(c: Path, t: Tree, S: set<RbNode>)
    requires c.In? && c.other.Node? && Within(c, t, S)
    ensures Within(E.RedSiblingPath(c), t, S)
  {
    var p := E.RedSiblingPath(c);
    assert PathNodes(p.up) <= S;
  }

  /** One iteration of the fix-up below a short tree. */
  method EraseStep(node: RbNode?, parent: RbNode, root: RbRoot, ghost S: set<RbNode>,
                   ghost c0: Path, ghost t: Tree, ghost h: nat)
    returns (more: bool, ghost c: Path, ghost t': Tree)
    requires Split(St(S, root), c0, t) && Within(c0, t, S) && E.Short(c0, t, h)
    requires c0.In? && c0.at == parent && RootOf(t) == node
    modifies root`node, S`left, S`right, S`parent, S`black
    ensures !more ==> Fixed(St(S, root), t', InOrder(Zip(c0, t)))
    ensures more ==>
              && c == c0.up && c.In? && t'.Node? && t'.at == parent && parent.parent == c.at
              && Split(St(S, root), c, t') && Within(c, t', S) && E.Short(c, t', h + 1)
              && InOrder(Zip(c, t')) == InOrder(Zip(c0, t))
  {
    c := c0;
    E.ShortSibling(c, t, h);
    SiblingFacts(S, root, c, t);
    var sibling := parent.right;
    if node != sibling {
      if !sibling.black {
        sibling, c := EraseCase1(parent, sibling, root, S, c, t, h);
        SiblingFacts(S, root, c, t);
      }
      var tmp1 := sibling.right;
      if tmp1 == null || tmp1.black {
        var tmp2 := sibling.left;
        if tmp2 == null || tmp2.black {
          more, t' := EraseCase2(parent, sibling, root, S, c, t, h);
          c := c0.up;
          return;
        }
      }
      t' := EraseRotatedFixed(St(S, root), c, t, h);
      SiblingIsReady(St(S, root), c, t, S);
      EraseRotateLeft(parent, sibling, root, S);
    } else {
      sibling := parent.left;
      if !sibling.black {
        sibling, c := EraseCase1(parent, sibling, root, S, c, t, h);
        SiblingFacts(S, root, c, t);
      }
      var tmp1 := sibling.left;
      if tmp1 == null || tmp1.black {
        var tmp2 := sibling.right;
        if tmp2 == null || tmp2.black {
          more, t' := EraseCase2(parent, sibling, root, S, c, t, h);
          c := c0.up;
          return;
        }
      }
      t' := EraseRotatedFixed(St(S, root), c, t, h);
      SiblingIsReady(St(S, root), c, t, S);
      EraseRotateRight(parent, sibling, root, S);
    }
    more := false;
  }

  /** rb_erase_color: the missing black node is worked upwards until the tree is valid again. */
  method EraseColor(parent0: RbNode, root: RbRoot, ghost S: set<RbNode>, ghost c0: Path)
    returns (ghost t': Tree)
    requires Split(St(S, root), c0, Leaf) && Within(c0, Leaf, S) && E.Short(c0, Leaf, 0)
    requires c0.In? && c0.at == parent0
    modifies root`node, S`left, S`right, S`parent, S`black
    ensures Fixed(St(S, root), t', InOrder(Zip(c0, Leaf)))
  {
    ghost var c, t, h := c0, Leaf, 0;
    var node: RbNode? := null;
    var parent := parent0;
    while true
      invariant Split(St(S, root), c, t) && Within(c, t, S) && E.Short(c, t, h)
      invariant c.In? && c.at == parent && RootOf(t) == node && InOrder(Zip(c, t)) == InOrder(Zip(c0, Leaf))
      decreases c
    {
      var more;
      ghost var up, next;
      more, up, next := EraseStep(node, parent, root, S, c, t, h);
      if !more {
        t' := next;
        return;
      }
      node := parent;
      parent := node.parent;
      c, t, h := up, next, h + 1;
    }
  }

  /** A tree in its context, every height as it should be. */
  ghost predicate Balanced(c: Path, t: Tree, h: nat) {
    var balanced := RedBlack(t, h) && PathRedBlack(c, h) && Plugs(c, t);
    balanced
  }

  /** The facts read off the heap at the root of t. */
  lemma NodeFacts(S: set<RbNode>, root: RbRoot, c: Path, t: Tree)
    requires Split(St(S, root), c, t) && Within(c, t, S) && t.Node?
    ensures t.at in S && t.at.left == RootOf(t.left) && t.at.right == RootOf(t.right)
    ensures t.at.black == t.black && t.at.parent == ParentOf(c)
    ensures InS(t.at.left, S) && InS(t.at.right, S) && InS(t.at.parent, S)
    ensures t.at.left != t.at && t.at.right != t.at
    ensures t.at.left != null ==> t.at.left != t.at.right
  {
    assert t.at in S;
    assert Nodes(t.left) <= Nodes(t) && Nodes(t.right) <= Nodes(t);
  }

  /** What is left once the node has been taken out: either balanced, or one black node short at rebalance. */
  ghost predicate Unlinked(s: State, c: Path, t: Tree, rebalance: RbNode?, S: set<RbNode>, order: seq<RbNode>) {
    var unlinked :=
      && Split(s, c, t) && Within(c, t, S) && InOrder(Zip(c, t)) == order
      && (rebalance == null ==> exists h: nat :: Balanced(c, t, h))
      && (rebalance != null ==> t == Leaf && E.Short(c, Leaf, 0) && c.In? && c.at == rebalance);
    unlinked
  }

  /** The order with the root of t removed. */
  ghost function Removed(c: Path, t: Tree): seq<RbNode>
    requires t.Node?
  {
    (Before(c) + InOrder(t.left)) + (InOrder(t.right) + After(c))
  }

  lemma OneChildOrder(c: Path, t: Tree, x: Tree, b: bool)
    requires t.Node? && ((t.left == Leaf && x == t.right) || (t.right == Leaf && x == t.left))
    ensures InOrder(Zip(c, Paint(x, b))) == Removed(c, t)
  {
    ZipInOrder(c, Paint(x, b));
    Regroup(Before(c), [], [], InOrder(x), After(c));
    assert Before(c) + [] + [] == Before(c) && [] + After(c) == After(c) && Before(c) + [] == Before(c);
  }

  /** The node has no left child. */
  method UnlinkNoLeft(node: RbNode, root: RbRoot, ghost S: set<RbNode>, ghost c: Path, ghost t: Tree, ghost h: nat)
    returns (rebalance: RbNode?, ghost t': Tree)
    requires Split(St(S, root), c, t) && Within(c, t, S) && Balanced(c, t, h)
    requires t.Node? && t.at == node && t.left == Leaf
    modifies root`node, S`left, S`right, S`parent, S`black
    ensures Unlinked(St(S, root), c, t', rebalance, S, Removed(c, t))
  {
    NodeFacts(S, root, c, t);
    U.OnlyChild(L, node, t.black, t.right, h);
    U.NoLeftShape(St(S, root), c, node, t.black, t.right);
    OneChildOrder(c, t, t.right, t.black);
    t' := Paint(t.right, t.black);
    var child, parent, black := node.right, node.parent, node.black;
    ReplaceChild(node, child, parent, root, S);
    if child != null {
      SetParentAndColor(child, parent, black, S, root);
      rebalance := null;
      assert Balanced(c, t', 1);
    } else {
      rebalance := if black then parent else null;
      assert !black ==> Balanced(c, t', 0);
      assert black && parent == null ==> Balanced(c, t', 0);
    }
  }

  /** The node has a left child only. */
  method UnlinkNoRight(node: RbNode, root: RbRoot, ghost S: set<RbNode>, ghost c: Path, ghost t: Tree, ghost h: nat)
    returns (ghost t': Tree)
    requires Split(St(S, root), c, t) && Within(c, t, S) && Balanced(c, t, h)
    requires t.Node? && t.at == node && t.left.Node? && t.right == Leaf
    modifies root`node, S`left, S`right, S`parent, S`black
    ensures Unlinked(St(S, root), c, t', null, S, Removed(c, t))
  {
    NodeFacts(S, root, c, t);
    U.OnlyChild(R, node, t.black, t.left, h);
    U.NoRightShape(St(S, root), c, t.left, node, t.black);
    OneChildOrder(c, t, t.left, t.black);
    t' := Paint(t.left, t.black);
    var tmp, parent := node.left, node.parent;
    SetParentAndColor(tmp, node.parent, node.black, S, root);
    ReplaceChild(node, tmp, parent, root, S);
    assert Balanced(c, t', 1);
  }

  /** One step down to the left. */
  lemma StepLeft(S: set<RbNode>, root: RbRoot, p: Path, t: Tree, h: nat) returns (p': Path, h': nat)
    requires Split(St(S, root), p, t) && Within(p, t, S) && Balanced(p, t, h) && t.Node? && t.left.Node?
    ensures p' == In(p, L, t.at, t.black, t.right)
    ensures Split(St(S, root), p', t.left) && Within(p', t.left, S) && Balanced(p', t.left, h')
    ensures t.left.at in S && t.left.at.left == RootOf(t.left.left)
  {
    p', h' := U.StepDown(p, t, h, L);
    SplitStep(St(S, root), p', t.left);
    assert Within(p', t.left, S);
    NodeFacts(S, root, p', t.left);
  }

  /** The in-order successor of a node with a left child below its right child. */
  method FindSuccessor(child: RbNode, root: RbRoot, ghost S: set<RbNode>, ghost base: Path, ghost r: Tree, ghost h: nat)
    returns (parent: RbNode, successor: RbNode, ghost lower: Path, ghost t: Tree, ghost h': nat)
    requires Split(St(S, root), base, r) && Within(base, r, S) && Balanced(base, r, h)
    requires r.Node? && r.at == child && r.left.Node?
    ensures lower.In? && lower.at == parent && U.Leftward(lower) && Zip(lower, t) == r
    ensures t.Node? && t.at == successor && t.left == Leaf
    ensures Split(St(S, root), Extend(lower, base), t) && Within(Extend(lower, base), t, S)
    ensures Balanced(Extend(lower, base), t, h')
  {
    lower, t, h' := Top, r, h;
    successor := child;
    NodeFacts(S, root, base, r);
    var tmp := child.left;
    parent := child;
    while tmp != null
      invariant U.Leftward(lower) && Zip(lower, t) == r && t.Node? && t.at == successor && RootOf(t.left) == tmp
      invariant tmp == null ==> lower.In? && lower.at == parent
      invariant Split(St(S, root), Extend(lower, base), t) && Within(Extend(lower, base), t, S)
      invariant Balanced(Extend(lower, base), t, h')
      decreases t
    {
      ghost var p, h'' := StepLeft(S, root, Extend(lower, base), t, h');
      lower := In(lower, L, t.at, t.black, t.right);
      h', t := h'', t.left;
      parent := successor;
      successor := tmp;
      tmp := successor.left;
    }
  }

  /** The heights around the gap that the successor leaves. */
  lemma GapHeights(c: Path, l: Tree, n: RbNode, b: bool, lower: Path, succ: RbNode, sb: bool, x: Tree, h: nat)
    requires Balanced(Extend(lower, In(c, R, n, b, l)), Node(Leaf, succ, sb, x), h)
    ensures var c' := Extend(lower, In(c, R, succ, b, l));
            && (x.Node? || !sb ==> Balanced(c', Paint(x, true), if x.Node? then 1 else 0))
            && (x.Leaf? && sb ==> E.Short(c', Leaf, 0))
  {
    var c' := Extend(lower, In(c, R, succ, b, l));
    U.OnlyChild(L, succ, sb, x, h);
    U.RenameHeights(lower, c, l, n, succ, b, h);
  }

  /** The successor in the place of n, seen from the gap it left. */
  lemma GapShape(s: State, c: Path, l: Tree, b: bool, lower: Path, succ: RbNode, sb: bool, x: Tree, S: set<RbNode>)
    requires Split(s, c, Node(l, succ, b, Zip(lower, Paint(x, true)))) && U.Leftward(lower)
    requires PathNodes(c) <= S && Nodes(l) <= S && Nodes(Zip(lower, Node(Leaf, succ, sb, x))) <= S
    ensures var c' := Extend(lower, In(c, R, succ, b, l));
            && Split(s, c', Paint(x, true)) && Within(c', Paint(x, true), S)
            && InOrder(Zip(c', Paint(x, true))) ==
               (Before(c) + InOrder(l)) + (InOrder(Zip(lower, Node(Leaf, succ, sb, x))) + After(c))
  {
    var base := In(c, R, succ, b, l);
    SplitStep(s, base, Zip(lower, Paint(x, true)));
    SplitExtend(s, lower, base, Paint(x, true));
    U.SuccessorOrder(c, l, b, lower, succ, sb, x);
    ZipExtend(lower, base, Paint(x, true));
    U.ExtendNodes(lower, base);
    ZipNodes(lower, Node(Leaf, succ, sb, x));
    assert Nodes(Paint(x, true)) == Nodes(x);
  }

  /** What moving a successor up relies on. */
  ghost predicate MoveReady(s: State, node: RbNode, par: RbNode, succ: RbNode, child2: RbNode?, S: set<RbNode>) {
    var n := Get(s, node);
    && node in S && succ in S && par in S && node != succ && InS(child2, S) && InS(n.parent, S)
    && n.left != null && n.left in S && n.left != succ && n.left != node
    && child2 != node && child2 != succ && n.parent != succ
  }

  /** The end of the move, common to both cases: adopt the left subtree, take the place, close the gap. */
  method TakePlace(node: RbNode, parent: RbNode, successor: RbNode, child2: RbNode?, root: RbRoot, ghost S: set<RbNode>)
    returns (rebalance: RbNode?)
    requires MoveReady(St(S, root), node, parent, successor, child2, S)
    modifies root`node, S`left, S`right, S`parent, S`black
    ensures var s := old(St(S, root));
            var pc := Get(s, node);
            && St(S, root) == SetParentColor(AdoptBlack(U.Replace(s, node, successor, pc.left), child2, parent),
                                             successor, pc.parent, pc.black)
            && rebalance == if child2 == null && Get(s, successor).black then parent else null
  {
    var tmp := node.left;
    SetLeft(successor, tmp, S, root);
    SetParentPointer(tmp, successor, S, root);
    var above, black := node.parent, node.black;
    ReplaceChild(node, successor, above, root, S);
    if child2 != null {
      SetParentAndColor(child2, parent, true, S, root);
      rebalance := null;
    } else {
      rebalance := if successor.black then parent else null;
    }
    SetParentAndColor(successor, above, black, S, root);
  }

  /** The successor is the node's right child. */
  method UnlinkAdjacent(node: RbNode, root: RbRoot, ghost S: set<RbNode>, ghost c: Path, ghost t: Tree, ghost h: nat)
    returns (rebalance: RbNode?, ghost c': Path, ghost t': Tree)
    requires Split(St(S, root), c, t) && Within(c, t, S) && Balanced(c, t, h)
    requires t.Node? && t.at == node && t.left.Node? && t.right.Node? && t.right.left == Leaf
    modifies root`node, S`left, S`right, S`parent, S`black
    ensures Unlinked(St(S, root), c', t', rebalance, S, Removed(c, t))
  {
    ghost var l, b, r := t.left, t.black, t.right;
    ghost var s := St(S, root);
    ghost var base, hr := U.StepDown(c, t, h, R);
    SplitStep(s, base, r);
    NodeFacts(S, root, c, t);
    assert Within(base, r, S);
    NodeFacts(S, root, base, r);
    U.EraseAdjacentShape(s, c, l, node, b, r.at, r.black, r.right);
    GapHeights(c, l, node, b, Top, r.at, r.black, r.right, hr);
    c', t' := In(c, R, r.at, b, l), Paint(r.right, true);

    var successor := node.right;
    var child2 := successor.right;
    rebalance := TakePlace(node, successor, successor, child2, root, S);
    GapShape(St(S, root), c, l, b, Top, r.at, r.black, r.right, S);
  }

  /** What the stores rely on, below a node with two children. */
  lemma DeepReady(s: State, c: Path, l: Tree, n: RbNode, b: bool, lower: Path, succ: RbNode, sb: bool, x: Tree,
                  S: set<RbNode>)
    requires l.Node? && lower.In?
    requires Split(s, c, Node(l, n, b, Zip(lower, Node(Leaf, succ, sb, x))))
    requires PathNodes(c) <= S && Nodes(Node(l, n, b, Zip(lower, Node(Leaf, succ, sb, x)))) <= S
    ensures MoveReady(s, n, lower.at, succ, Get(s, succ).right, S) && Get(s, n).left == l.at
    ensures Get(s, succ) == Cell(null, RootOf(x), lower.at, sb)
    ensures RootOf(Zip(lower, x)) != null && Get(s, n).right == RootOf(Zip(lower, x))
    ensures var child := RootOf(Zip(lower, x));
            child in S && child != n && child != succ && lower.at != n && lower.at != succ
  {
    var t0, base := Node(Leaf, succ, sb, x), In(c, R, n, b, l);
    U.NodeView(s, c, l, n, b, Zip(lower, t0));
    SplitStep(s, base, Zip(lower, t0));
    SplitExtend(s, lower, base, t0);
    U.NodeView(s, Extend(lower, base), Leaf, succ, sb, x);
    U.ExtendNodes(lower, base);
    U.RootZip(lower, x, t0);
    U.RootZipOnPath(lower, x);
    ZipNodes(lower, t0);
  }

  /** The state after the stores, judged as a whole. */
  lemma DeepOutcome(s: State, c: Path, t: Tree, lower: Path, q: Tree, h: nat, child: RbNode, rebalance: RbNode?,
                    S: set<RbNode>)
    requires t.Node? && t.left.Node? && lower.In? && U.Leftward(lower) && q.Node? && q.left == Leaf
    requires t.right == Zip(lower, q) && Split(s, c, t) && Within(c, t, S)
    requires Balanced(Extend(lower, In(c, R, t.at, t.black, t.left)), q, h)
    requires child == RootOf(Zip(lower, q.right))
    requires rebalance == if q.right == Leaf && q.black then lower.at else null
    ensures Unlinked(U.EraseDeep(s, t.at, child, lower.at, q.at, t.left.at),
                     Extend(lower, In(c, R, q.at, t.black, t.left)), Paint(q.right, true), rebalance, S, Removed(c, t))
  {
    var l, b, x := t.left, t.black, q.right;
    assert q == Node(Leaf, q.at, q.black, x) && t == Node(l, t.at, b, Zip(lower, q));
    U.EraseDeepShape(s, c, l, t.at, b, lower, q.at, q.black, x);
    GapHeights(c, l, t.at, b, lower, q.at, q.black, x, h);
    GapShape(U.EraseDeep(s, t.at, child, lower.at, q.at, l.at), c, l, b, lower, q.at, q.black, x, S);
  }

  /** The stores that splice the successor out, hang the right subtree below it and put it in place. */
  method UnlinkDeepStores(node: RbNode, child: RbNode, parent: RbNode, successor: RbNode, root: RbRoot,
                          ghost S: set<RbNode>, ghost c: Path, ghost t: Tree, ghost lower: Path, ghost q: Tree)
    returns (rebalance: RbNode?)
    requires t.Node? && t.left.Node? && t.at == node && lower.In? && lower.at == parent
    requires q.Node? && q.at == successor && q.left == Leaf && t.right == Zip(lower, q)
    requires Split(St(S, root), c, t) && Within(c, t, S) && child == RootOf(Zip(lower, q.right))
    modifies root`node, S`left, S`right, S`parent, S`black
    ensures St(S, root) == U.EraseDeep(old(St(S, root)), node, child, parent, successor, t.left.at)
    ensures rebalance == if q.right == Leaf && q.black then parent else null
  {
    assert q == Node(Leaf, q.at, q.black, q.right) && t == Node(t.left, node, t.black, Zip(lower, q));
    DeepReady(St(S, root), c, t.left, node, t.black, lower, q.at, q.black, q.right, S);
    var child2 := successor.right;
    SetLeft(parent, child2, S, root);
    SetRight(successor, child, S, root);
    SetParentPointer(child, successor, S, root);
    rebalance := TakePlace(node, parent, successor, child2, root, S);
  }

  /** The successor is further down. */
  method UnlinkDeep(node: RbNode, root: RbRoot, ghost S: set<RbNode>, ghost c: Path, ghost t: Tree, ghost h: nat)
    returns (rebalance: RbNode?, ghost c': Path, ghost t': Tree)
    requires Split(St(S, root), c, t) && Within(c, t, S) && Balanced(c, t, h)
    requires t.Node? && t.at == node && t.left.Node? && t.right.Node? && t.right.left.Node?
    modifies root`node, S`left, S`right, S`parent, S`black
    ensures Unlinked(St(S, root), c', t', rebalance, S, Removed(c, t))
  {
    ghost var s := St(S, root);
    ghost var base, hr := StepRight(S, root, c, t, h);
    var child := node.right;
    var parent, successor;
    ghost var lower, q, hq;
    parent, successor, lower, q, hq := FindSuccessor(child, root, S, base, t.right, hr);
    U.RootZip(lower, q, q.right);
    c', t' := Extend(lower, In(c, R, q.at, t.black, t.left)), Paint(q.right, true);
    rebalance := UnlinkDeepStores(node, child, parent, successor, root, S, c, t, lower, q);
    DeepOutcome(s, c, t, lower, q, hq, child, rebalance, S);
  }

  /** One step down to the right. */
  lemma StepRight(S: set<RbNode>, root: RbRoot, p: Path, t: Tree, h: nat) returns (p': Path, h': nat)
    requires Split(St(S, root), p, t) && Within(p, t, S) && Balanced(p, t, h) && t.Node? && t.right.Node?
    ensures p' == In(p, R, t.at, t.black, t.left)
    ensures Split(St(S, root), p', t.right) && Within(p', t.right, S) && Balanced(p', t.right, h')
    ensures t.at in S && t.at.right == t.right.at
  {
    p', h' := U.StepDown(p, t, h, R);
    SplitStep(St(S, root), p', t.right);
    assert Within(p', t.right, S);
    NodeFacts(S, root, p, t);
  }

  /** rb_erase on the tree t in the context c: takes the root of t out and rebalances. */
  method Erase(node: RbNode, root: RbRoot, ghost S: set<RbNode>, ghost c: Path, ghost t: Tree, ghost h: nat)
    returns (ghost shape: Tree)
    requires Split(St(S, root), c, t) && Within(c, t, S) && Balanced(c, t, h) && t.Node? && t.at == node
    modifies root`node, S`left, S`right, S`parent, S`black
    ensures Fixed(St(S, root), shape, Removed(c, t))
  {
    NodeFacts(S, root, c, t);
    var rebalance: RbNode?;
    ghost var c', t' := c, t;
    if node.left == null {
      rebalance, t' := UnlinkNoLeft(node, root, S, c, t, h);
    } else if node.right == null {
      t' := UnlinkNoRight(node, root, S, c, t, h);
      rebalance := null;
    } else {
      RightChildFacts(S, root, c, t);
      if node.right.left == null {
        rebalance, c', t' := UnlinkAdjacent(node, root, S, c, t, h);
      } else {
        rebalance, c', t' := UnlinkDeep(node, root, S, c, t, h);
      }
    }
    if rebalance != null {
      shape := EraseColor(rebalance, root, S, c');
    } else {
      ghost var k: nat :| Balanced(c', t', k);
      shape := Zip(c', t');
      Finish(St(S, root), c', t', k);
    }
  }

  lemma RightChildFacts(S: set<RbNode>, root: RbRoot, c: Path, t: Tree)
    requires Split(St(S, root), c, t) && Within(c, t, S) && t.Node? && t.right.Node?
    ensures t.right.at in S && t.right.at.left == RootOf(t.right.left)
  {
    var p := In(c, R, t.at, t.black, t.left);
    SplitStep(St(S, root), p, t.right);
    assert Within(p, t.right, S);
    NodeFacts(S, root, p, t.right);
  }
}
