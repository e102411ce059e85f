/** The leftmost-cached tree as its users see it: a sequence of nodes. */
module RbCached {
  import opened Sequences
  import opened RbModel
  import opened RbState
  import opened RbTree
  import I = RbInsert
  import U = RbUnlink

  // ---- the sequence of a laid-out tree ----

  lemma NoDupAround(l: seq<RbNode>, n: RbNode, r: seq<RbNode>)
    requires NoDup(l) && NoDup(r) && n !in l && n !in r && forall x :: x in l ==> x !in r
    ensures NoDup(l + [n] + r)
  {
    var q := l + [n] + r;
    forall i, j | 0 <= i < j < |q| ensures q[i] != q[j] {
      if i < |l| {
        assert q[i] == l[i] && l[i] in l;
        assert j > |l| ==> q[j] == r[j - |l| - 1];
      } else {
        assert q[j] == r[j - |l| - 1] && r[j - |l| - 1] in r;
      }
    }
  }

  lemma {:induction false} SubNoDup(s: State, t: Tree)
    requires Sub(s, t)
    ensures NoDup(InOrder(t))
  {
    if t.Node? {
      SubNoDup(s, t.left);
      SubNoDup(s, t.right);
      InOrderNodes(t.left);
      InOrderNodes(t.right);
      forall x | x in InOrder(t.left) ensures x !in InOrder(t.right) {
        assert x in Elems(InOrder(t.left));
        assert x !in Elems(InOrder(t.right));
      }
      NoDupAround(InOrder(t.left), t.at, InOrder(t.right));
    }
  }

  /** The layout of a tree depends on its own nodes only. */
  lemma {:induction false} SubAgree(s: State, s': State, t: Tree)
    requires Sub(s, t) && forall n :: n in Nodes(t) ==> Get(s', n) == Get(s, n)
    ensures Sub(s', t)
  {
    if t.Node? {
      SubAgree(s, s', t.left);
      SubAgree(s, s', t.right);
    }
  }

  lemma SplitAgree(s: State, s': State, t: Tree)
    requires Split(s, Top, t) && s'.rt == s.rt && forall n :: n in Nodes(t) ==> Get(s', n) == Get(s, n)
    ensures Split(s', Top, t)
  {
    SubAgree(s, s', t);
  }

  // ---- the cached root ----

  ghost function Order(root: RbRoot): seq<RbNode>
    reads root
  {
    InOrder(root.shape)
  }

  ghost function First(q: seq<RbNode>): RbNode? { if q == [] then null else q[0] }

  ghost predicate Valid(root: RbRoot)
    reads root, Nodes(root.shape)
  {
    && Split(St(Nodes(root.shape), root), Top, root.shape)
    && ValidTree(root.shape)
    && root.leftmost == First(Order(root))
  }

  ghost predicate Sorted(q: seq<RbNode>)
    reads q
  {
    var sorted := forall i, j :: 0 <= i < j < |q| ==> q[i].deadline <= q[j].deadline;
    sorted
  }

  ghost predicate NotLater(q: seq<RbNode>, d: nat)
    reads q`deadline
  {
    forall n :: n in q ==> n.deadline <= d
  }

  ghost predicate Later(q: seq<RbNode>, d: nat)
    reads q`deadline
  {
    forall n :: n in q ==> d < n.deadline
  }

  lemma ValidNoDup(root: RbRoot)
    requires Valid(root)
    ensures NoDup(Order(root)) && Elems(Order(root)) == Nodes(root.shape)
  {
    SubNoDup(St(Nodes(root.shape), root), root.shape);
    InOrderNodes(root.shape);
  }

  // ---- walking ----

  /** rb_first: the walk down the left spine ends at the cached node. */
  method RbFirst(root: RbRoot) returns (n: RbNode?)
    requires Valid(root)
    ensures n == First(Order(root)) == root.leftmost
  {
    n := root.node;
    if n == null {
      return;
    }
    ghost var S := Nodes(root.shape);
    ghost var c, t := Top, root.shape;
    NodeFacts(S, root, c, t);
    while n.left != null
      invariant Split(St(S, root), c, t) && Within(c, t, S) && t.Node? && t.at == n && n in S
      invariant n.left == RootOf(t.left)
      invariant Before(c) == [] && InOrder(Zip(c, t)) == Order(root)
      decreases t
    {
      c, t := DownLeft(S, root, c, t);
      n := n.left;
    }
    ZipInOrder(c, t);
    assert ([] + ([] + [n] + InOrder(t.right)) + After(c))[0] == n;
  }

  lemma DownLeft(S: set<RbNode>, root: RbRoot, c: Path, t: Tree) returns (c': Path, t': Tree)
    requires Split(St(S, root), c, t) && Within(c, t, S) && t.Node? && t.left.Node?
    ensures t' == t.left && c' == In(c, L, t.at, t.black, t.right) && Zip(c', t') == Zip(c, t)
    ensures Split(St(S, root), c', t') && Within(c', t', S) && t'.at in S && t'.at.left == RootOf(t'.left)
    ensures Before(c') == Before(c)
  {
    c', t' := In(c, L, t.at, t.black, t.right), t.left;
    SplitStep(St(S, root), c', t');
    assert Within(c', t', S);
    NodeFacts(S, root, c', t');
  }

  /** The walk of rb_next from a linked node, for which RB_EMPTY_NODE is false. */
  method NextFrom(node: RbNode, ghost root: RbRoot, ghost S: set<RbNode>, ghost c0: Path, ghost t0: Tree)
    returns (r: RbNode?)
    requires Split(St(S, root), c0, t0) && Within(c0, t0, S) && t0.Node? && t0.at == node
    ensures r == First(InOrder(t0.right) + After(c0))
  {
    NodeFacts(S, root, c0, t0);
    if node.right != null {
      var n := node.right;
      ghost var c, t := In(c0, R, t0.at, t0.black, t0.left), t0.right;
      SplitStep(St(S, root), c, t);
      assert Within(c, t, S);
      NodeFacts(S, root, c, t);
      ghost var lower := Top;
      while n.left != null
        invariant Split(St(S, root), c, t) && Within(c, t, S) && t.Node? && t.at == n && n in S
        invariant n.left == RootOf(t.left)
        invariant Before(lower) == [] && Zip(lower, t) == t0.right
        decreases t
      {
        lower := In(lower, L, t.at, t.black, t.right);
        c, t := DownLeft(S, root, c, t);
        n := n.left;
      }
      ZipInOrder(lower, t);
      assert ([] + ([] + [n] + InOrder(t.right)) + After(lower))[0] == n;
      return n;
    }
    var n, parent := node, node.parent;
    ghost var c, t := c0, t0;
    while parent != null && n == parent.right
      invariant Split(St(S, root), c, t) && Within(c, t, S) && t.Node? && t.at == n && parent == ParentOf(c)
      invariant InS(parent, S) && After(c) == After(c0)
      decreases c
    {
      ParentFacts(S, root, c, t);
      ParentIsRight(S, root, c, t);
      SplitStep(St(S, root), c, t);
      ghost var t' := Mk(c.d, t, c.at, c.black, c.other);
      assert Within(c.up, t', S);
      c, t := c.up, t';
      NodeFacts(S, root, c, t);
      n := parent;
      parent := n.parent;
    }
    if parent != null {
      ParentFacts(S, root, c, t);
      assert c.d == L;
    }
    return parent;
  }

  lemma ParentIsRight(S: set<RbNode>, root: RbRoot, c: Path, t: Tree)
    requires Split(St(S, root), c, t) && Within(c, t, S) && t.Node? && c.In? && c.at.right == t.at
    ensures c.d == R
  {
    ParentFacts(S, root, c, t);
    assert c.other.Node? ==> c.other.at in PathNodes(c);
  }

  ghost function Last(q: seq<RbNode>): RbNode? { if q == [] then null else q[|q| - 1] }

  /** The walk of rb_prev from a linked node. */
  method PrevFrom(node: RbNode, ghost root: RbRoot, ghost S: set<RbNode>, ghost c0: Path, ghost t0: Tree)
    returns (r: RbNode?)
    requires Split(St(S, root), c0, t0) && Within(c0, t0, S) && t0.Node? && t0.at == node
    ensures r == Last(Before(c0) + InOrder(t0.left))
  {
    NodeFacts(S, root, c0, t0);
    if node.left != null {
      ghost var c := In(c0, L, t0.at, t0.black, t0.right);
      SplitStep(St(S, root), c, t0.left);
      r := LastBelow(node.left, root, S, c, t0.left);
    } else {
      r := ClimbLeft(node, root, S, c0, t0);
    }
  }

  /** The walk down the right links. */
  method LastBelow(start: RbNode, ghost root: RbRoot, ghost S: set<RbNode>, ghost c0: Path, ghost t0: Tree)
    returns (n: RbNode)
    requires Split(St(S, root), c0, t0) && Within(c0, t0, S) && t0.Node? && t0.at == start
    ensures InOrder(t0) != [] && n == InOrder(t0)[|InOrder(t0)| - 1]
  {
    n := start;
    ghost var c, t, lower := c0, t0, Top;
    NodeFacts(S, root, c, t);
    while n.right != null
      invariant Split(St(S, root), c, t) && Within(c, t, S) && t.Node? && t.at == n && n in S
      invariant n.right == RootOf(t.right)
      invariant After(lower) == [] && Zip(lower, t) == t0
      decreases t
    {
      lower := In(lower, R, t.at, t.black, t.left);
      c, t := DownRight(S, root, c, t);
      n := n.right;
    }
    ZipInOrder(lower, t);
    EndsWith(Before(lower), InOrder(t.left), n);
  }

  lemma EndsWith(a: seq<RbNode>, b: seq<RbNode>, n: RbNode)
    ensures var q := a + (b + [n] + []) + []; q[|q| - 1] == n
  {
  }

  /** The walk up as long as it comes from the left. */
  method ClimbLeft(node: RbNode, ghost root: RbRoot, ghost S: set<RbNode>, ghost c0: Path, ghost t0: Tree)
    returns (r: RbNode?)
    requires Split(St(S, root), c0, t0) && Within(c0, t0, S) && t0.Node? && t0.at == node && node in S
    ensures r == Last(Before(c0))
  {
    NodeFacts(S, root, c0, t0);
    var n, parent := node, node.parent;
    ghost var c, t := c0, t0;
    while parent != null && n == parent.left
      invariant Split(St(S, root), c, t) && Within(c, t, S) && t.Node? && t.at == n && parent == ParentOf(c)
      invariant InS(parent, S) && Before(c) == Before(c0)
      decreases c
    {
      ParentFacts(S, root, c, t);
      ParentIsLeft(S, root, c, t);
      SplitStep(St(S, root), c, t);
      ghost var t' := Mk(c.d, t, c.at, c.black, c.other);
      assert Within(c.up, t', S);
      c, t := c.up, t';
      NodeFacts(S, root, c, t);
      n := parent;
      parent := n.parent;
    }
    if parent != null {
      ParentFacts(S, root, c, t);
      assert c.d == R;
    }
    return parent;
  }

  lemma DownRight(S: set<RbNode>, root: RbRoot, c: Path, t: Tree) returns (c': Path, t': Tree)
    requires Split(St(S, root), c, t) && Within(c, t, S) && t.Node? && t.right.Node?
    ensures t' == t.right && c' == In(c, R, t.at, t.black, t.left) && Zip(c', t') == Zip(c, t)
    ensures Split(St(S, root), c', t') && Within(c', t', S) && t'.at in S && t'.at.right == RootOf(t'.right)
  {
    c', t' := In(c, R, t.at, t.black, t.left), t.right;
    SplitStep(St(S, root), c', t');
    assert Within(c', t', S);
    NodeFacts(S, root, c', t');
  }

  lemma ParentIsLeft(S: set<RbNode>, root: RbRoot, c: Path, t: Tree)
    requires Split(St(S, root), c, t) && Within(c, t, S) && t.Node? && c.In? && c.at.left == t.at
    ensures c.d == L
  {
    ParentFacts(S, root, c, t);
    assert c.other.Node? ==> c.other.at in PathNodes(c);
  }

  // ---- insertion ----

  /** `*rb_link = node` in the hole of c. */
  ghost function Link(s: State, c: Path, x: RbNode): State {
    if c.Top? then s.(rt := x) else SetKid(s, c.at, c.d, x)
  }

  lemma LinkShape(s: State, c: Path, x: RbNode)
    requires x !in PathNodes(c)
    ensures Split(s, c, Leaf) ==>
              Split(Link(Put(s, x, Cell(null, null, ParentOf(c), false)), c, x), c, Node(Leaf, x, false, Leaf))
  {
    var cell := Cell(null, null, ParentOf(c), false);
    var s1 := Put(s, x, cell);
    CtxPut(s, x, cell, c, null);
    if c.In? {
      var kid := WithKid(Get(s1, c.at), c.d, x);
      SubPut(s1, c.at, kid, c.other);
      CtxPut(s1, c.at, kid, c.up, c.at);
    }
  }

  method InitNode(node: RbNode, parent: RbNode?, ghost root: RbRoot, ghost S: set<RbNode>)
    requires node in S
    modifies node`left, node`right, node`parent, node`black
    ensures St(S, root) == Put(old(St(S, root)), node, Cell(null, null, parent, false))
  {
    node.parent, node.black := parent, false;
    node.left, node.right := null, null;
  }

  /** rb_link_node: node becomes a red leaf in the hole of c, on the side the search left off. */
  method LinkNode(node: RbNode, parent: RbNode?, left: bool, root: RbRoot, ghost S: set<RbNode>, ghost c: Path)
    requires node in S && InS(parent, S) && parent == ParentOf(c) && (c.In? ==> (left <==> c.d == L))
    requires node !in PathNodes(c) && Split(St(S, root), c, Leaf)
    modifies root`node, S`left, S`right, S`parent, S`black
    ensures Split(St(S, root), c, Node(Leaf, node, false, Leaf))
  {
    ghost var s := St(S, root);
    LinkShape(s, c, node);
    InitNode(node, parent, root, S);
    ghost var s1 := St(S, root);
    if parent == null {
      root.node := node;
      assert St(S, root) == s1.(rt := node);
    } else if left {
      SetLeft(parent, node, S, root);
    } else {
      SetRight(parent, node, S, root);
    }
  }

  lemma SortedAround(a: seq<RbNode>, m: RbNode, b: seq<RbNode>)
    requires Sorted(a + [m] + b)
    ensures forall n :: n in a ==> n.deadline <= m.deadline
    ensures forall n :: n in b ==> m.deadline <= n.deadline
  {
    var q := a + [m] + b;
    forall n | n in a ensures n.deadline <= m.deadline {
      var i :| 0 <= i < |a| && a[i] == n;
      assert q[i] == n && q[|a|] == m;
    }
    forall n | n in b ensures m.deadline <= n.deadline {
      var i :| 0 <= i < |b| && b[i] == n;
      assert q[|a| + 1 + i] == n && q[|a|] == m;
    }
  }

  /** Where the search has come to: everything it passed on the left is not later than node, on the right later. */
  ghost predicate Passed(c: Path, node: RbNode)
    reads node, Before(c), After(c)
  {
    NotLater(Before(c), node.deadline) && Later(After(c), node.deadline)
  }

  /** One step of the search. */
  lemma SearchStep(S: set<RbNode>, root: RbRoot, c: Path, t: Tree, h: nat, node: RbNode) returns (c': Path, h': nat)
    requires Split(St(S, root), c, t) && Within(c, t, S) && Balanced(c, t, h) && t.Node?
    requires node !in PathNodes(c) && node !in Nodes(t)
    requires Sorted(InOrder(Zip(c, t))) && Passed(c, node)
    ensures var d := if node.deadline < t.at.deadline then L else R;
            && c' == In(c, d, t.at, t.black, Branch(t, Opp(d))) && Zip(c', Branch(t, d)) == Zip(c, t)
            && Split(St(S, root), c', Branch(t, d)) && Within(c', Branch(t, d), S) && Balanced(c', Branch(t, d), h')
            && node !in PathNodes(c') && node !in Nodes(Branch(t, d))
            && (d == R ==> Before(c') != []) && (d == L ==> Before(c') == Before(c))
            && Passed(c', node)
  {
    var d := if node.deadline < t.at.deadline then L else R;
    c', h' := U.StepDown(c, t, h, d);
    SplitStep(St(S, root), c', Branch(t, d));
    assert Within(c', Branch(t, d), S);
    U.RootInOrder(c, t.left, t.at, t.black, t.right);
    SortedAround(Before(c) + InOrder(t.left), t.at, InOrder(t.right) + After(c));
    forall n | n in Before(c') ensures n.deadline <= node.deadline {
      assert d == R ==> n == t.at || n in Before(c) + InOrder(t.left);
    }
    forall n | n in After(c') ensures node.deadline < n.deadline {
      assert d == L ==> n == t.at || n in InOrder(t.right) + After(c);
    }
  }

  /** The search loop of rb_add_cached. */
  method FindPlace(node: RbNode, root: RbRoot, ghost S: set<RbNode>)
    returns (parent: RbNode?, left: bool, leftmost: bool, ghost c: Path, ghost h: nat)
    requires Split(St(S, root), Top, root.shape) && Within(Top, root.shape, S) && ValidTree(root.shape)
    requires node !in Nodes(root.shape) && Sorted(Order(root))
    ensures Split(St(S, root), c, Leaf) && Within(c, Leaf, S) && Balanced(c, Leaf, h) && node !in PathNodes(c)
    ensures parent == ParentOf(c) && (c.In? ==> (left <==> c.d == L)) && (leftmost <==> Before(c) == [])
    ensures Zip(c, Leaf) == root.shape && Passed(c, node)
  {
    var link;
    parent, link, left, leftmost := null, root.node, true, true;
    ghost var t := root.shape;
    c, h := Top, 0;
    h :| RedBlack(root.shape, h);
    assert Balanced(c, t, h);
    while link != null
      invariant Split(St(S, root), c, t) && Within(c, t, S) && Balanced(c, t, h)
      invariant node !in PathNodes(c) && node !in Nodes(t) && Passed(c, node) && Zip(c, t) == root.shape
      invariant link == RootOf(t) && parent == ParentOf(c) && (c.In? ==> (left <==> c.d == L))
      invariant (leftmost <==> Before(c) == []) && Sorted(Order(root))
      decreases t
    {
      NodeFacts(S, root, c, t);
      assert InOrder(Zip(c, t)) == Order(root);
      ghost var c', h' := SearchStep(S, root, c, t, h, node);
      parent := link;
      left := node.deadline < parent.deadline;
      if left {
        link := parent.left;
        t := t.left;
      } else {
        link := parent.right;
        leftmost := false;
        t := t.right;
      }
      c, h := c', h';
    }
  }

  /** rb_insert_color_cached on a freshly linked node. */
  method InsertColorCached(node: RbNode, root: RbRoot, leftmost: bool, ghost S: set<RbNode>, ghost c: Path, ghost h: nat)
    requires Split(St(S, root), c, Node(Leaf, node, false, Leaf)) && Within(c, Leaf, S) && node in S
    requires Balanced(c, Leaf, h) && (leftmost <==> Before(c) == [])
    requires root.leftmost == First(Before(c) + After(c))
    modifies root, S`left, S`right, S`parent, S`black
    ensures Valid(root) && Order(root) == Before(c) + [node] + After(c)
  {
    ghost var t := Node(Leaf, node, false, Leaf);
    LeafPending(c, node, h, S);
    if leftmost {
      SetLeftmost(root, node, S);
    }
    ghost var shape := InsertColor(node, root, S, c, t, h);
    OrderWithin(shape, c, t, S);
    SetShape(root, shape, S, Before(c) + [node] + After(c));
  }

  lemma LeafPending(c: Path, node: RbNode, h: nat, S: set<RbNode>)
    requires Balanced(c, Leaf, h) && Within(c, Leaf, S) && node in S
    ensures var t := Node(Leaf, node, false, Leaf);
            I.Pending(c, t, h) && Within(c, t, S) && InOrder(Zip(c, t)) == Before(c) + [node] + After(c)
  {
    var t := Node(Leaf, node, false, Leaf);
    ZipInOrder(c, t);
    assert InOrder(t) == [node];
  }

  method SetLeftmost(root: RbRoot, x: RbNode?, ghost S: set<RbNode>)
    modifies root`leftmost
    ensures root.leftmost == x && St(S, root) == old(St(S, root))
  {
    root.leftmost := x;
  }

  /** Records the shape the fix-up arrived at. */
  ghost method SetShape(root: RbRoot, shape: Tree, S: set<RbNode>, q: seq<RbNode>)
    requires Fixed(St(S, root), shape, q) && Nodes(shape) <= S && root.leftmost == First(q)
    modifies root`shape
    ensures root.shape == shape && Valid(root) && Order(root) == q
  {
    SplitAgree(St(S, root), St(Nodes(shape), root), shape);
    var s := St(Nodes(shape), root);
    root.shape := shape;
    assert St(Nodes(shape), root) == s;
  }

  lemma OrderWithin(shape: Tree, c: Path, t: Tree, S: set<RbNode>)
    requires Within(c, t, S) && InOrder(shape) == InOrder(Zip(c, t))
    ensures Nodes(shape) <= S
  {
    InOrderNodes(shape);
    InOrderNodes(Zip(c, t));
    ZipNodes(c, t);
  }

  /** The stores of rb_add_cached, once the place has been found. */
  method LinkAndColor(node: RbNode, parent: RbNode?, left: bool, leftmost: bool, root: RbRoot, ghost S: set<RbNode>,
                      ghost c: Path, ghost h: nat, ghost before: seq<RbNode>, ghost after: seq<RbNode>)
    requires node in S && InS(parent, S) && parent == ParentOf(c) && (c.In? ==> (left <==> c.d == L))
    requires node !in PathNodes(c) && Split(St(S, root), c, Leaf) && Within(c, Leaf, S)
    requires Balanced(c, Leaf, h) && (leftmost <==> Before(c) == [])
    requires before == Before(c) && after == After(c) && root.leftmost == First(before + after)
    requires NotLater(before, node.deadline) && Later(after, node.deadline)
    modifies root, S`left, S`right, S`parent, S`black
    ensures Valid(root) && Order(root) == before + [node] + after
    ensures NotLater(before, node.deadline) && Later(after, node.deadline)
  {
    LinkNode(node, parent, left, root, S, c);
    InsertColorCached(node, root, leftmost, S, c, h);
  }

  lemma AddedElems(before: seq<RbNode>, node: RbNode, after: seq<RbNode>, shape: Tree, shape': Tree)
    requires InOrder(shape) == before + after && InOrder(shape') == before + [node] + after
    ensures Nodes(shape') == Nodes(shape) + {node}
  {
    InOrderNodes(shape);
    InOrderNodes(shape');
    assert Elems(before + [node] + after) == Elems(before + after) + {node};
  }

  /** rb_add_cached: node goes behind every node that is not later, and in front of every later one. */
  method AddCached(node: RbNode, root: RbRoot) returns (r: RbNode?, ghost before: seq<RbNode>, ghost after: seq<RbNode>)
    requires Valid(root) && Sorted(Order(root)) && node !in Nodes(root.shape)
    modifies root, Nodes(root.shape)`left, Nodes(root.shape)`right, Nodes(root.shape)`parent, Nodes(root.shape)`black
    modifies node`left, node`right, node`parent, node`black
    ensures Valid(root) && old(Order(root)) == before + after && Order(root) == before + [node] + after
    ensures Nodes(root.shape) == old(Nodes(root.shape)) + {node}
    ensures NotLater(before, node.deadline) && Later(after, node.deadline)
    ensures r == (if before == [] then node else null)
  {
    ghost var S, shape := Nodes(root.shape) + {node}, root.shape;
    SplitAgree(St(Nodes(root.shape), root), St(S, root), root.shape);
    var parent, left, leftmost;
    ghost var c, h;
    parent, left, leftmost, c, h := FindPlace(node, root, S);
    ZipInOrder(c, Leaf);
    before, after := Before(c), After(c);
    assert Before(c) + InOrder(Leaf) + After(c) == before + after;
    LinkAndColor(node, parent, left, leftmost, root, S, c, h, before, after);
    AddedElems(before, node, after, shape, root.shape);
    r := if leftmost then node else null;
  }

  // ---- erasure ----

  /** Where a node of a valid tree stands. */
  lemma LocateIn(root: RbRoot, node: RbNode) returns (c: Path, t: Tree, h: nat)
    requires Valid(root) && node in Nodes(root.shape)
    ensures t.Node? && t.at == node && Zip(c, t) == root.shape
    ensures var S := Nodes(root.shape);
            Split(St(S, root), c, t) && Within(c, t, S) && Balanced(c, t, h)
    ensures Order(root) == (Before(c) + InOrder(t.left)) + [node] + (InOrder(t.right) + After(c))
  {
    var h0: nat :| RedBlack(root.shape, h0);
    c, t, h := U.Locate(Top, root.shape, h0, node);
    SplitClose(St(Nodes(root.shape), root), c, t);
    ZipNodes(c, t);
    U.RootInOrder(c, t.left, node, t.black, t.right);
  }

  /** rb_next on the i-th node of the order: the node that follows, or null at the end. */
  method RbNext(node: RbNode, root: RbRoot, ghost i: nat) returns (r: RbNode?)
    requires Valid(root) && i < |Order(root)| && Order(root)[i] == node
    ensures r == if i + 1 < |Order(root)| then Order(root)[i + 1] else null
  {
    ghost var c, t := LocateAt(root, node, i);
    r := NextFrom(node, root, Nodes(root.shape), c, t);
  }

  /** rb_prev on the i-th node of the order: the node that comes before, or null at the start. */
  method RbPrev(node: RbNode, root: RbRoot, ghost i: nat) returns (r: RbNode?)
    requires Valid(root) && i < |Order(root)| && Order(root)[i] == node
    ensures r == if i > 0 then Order(root)[i - 1] else null
  {
    ghost var c, t := LocateAt(root, node, i);
    r := PrevFrom(node, root, Nodes(root.shape), c, t);
  }

  lemma LocateAt(root: RbRoot, node: RbNode, i: nat) returns (c: Path, t: Tree)
    requires Valid(root) && i < |Order(root)| && Order(root)[i] == node
    ensures t.Node? && t.at == node && Split(St(Nodes(root.shape), root), c, t) && Within(c, t, Nodes(root.shape))
    ensures Before(c) + InOrder(t.left) == Order(root)[..i] && InOrder(t.right) + After(c) == Order(root)[i + 1..]
  {
    ValidNoDup(root);
    assert node in Elems(Order(root));
    var h;
    c, t, h := LocateIn(root, node);
    var q, k := Order(root), |Before(c) + InOrder(t.left)|;
    assert q[k] == node;
    assert k == i;
  }

  lemma RemovedElems(before: seq<RbNode>, node: RbNode, after: seq<RbNode>, shape: Tree, shape': Tree)
    requires InOrder(shape) == before + [node] + after && NoDup(InOrder(shape)) && InOrder(shape') == before + after
    ensures Nodes(shape') == Nodes(shape) - {node}
    ensures InOrder(shape)[0] == node <==> before == []
    ensures First(before + after) == if before == [] then First(after) else InOrder(shape)[0]
  {
    var q := InOrder(shape);
    InOrderNodes(shape);
    InOrderNodes(shape');
    assert q[|before|] == node;
    forall x | x in before + after ensures x != node && x in q {
      var i :| 0 <= i < |before + after| && (before + after)[i] == x;
      assert x == if i < |before| then q[i] else q[i + 1];
    }
    assert Elems(q) == Elems(before + after) + {node};
    assert node !in Elems(before + after);
  }

  /** rb_erase_cached: exactly node leaves the order; the result is the new first node if node was first, else null. */
  method EraseCached(node: RbNode, root: RbRoot)
    returns (leftmost: RbNode?, ghost before: seq<RbNode>, ghost after: seq<RbNode>)
    requires Valid(root) && node in Nodes(root.shape)
    modifies root, Nodes(root.shape)`left, Nodes(root.shape)`right, Nodes(root.shape)`parent, Nodes(root.shape)`black
    ensures Valid(root) && Nodes(root.shape) == old(Nodes(root.shape)) - {node}
    ensures old(Order(root)) == before + [node] + after && Order(root) == before + after
    ensures leftmost == if before == [] then First(after) else null
  {
    ghost var S, shape := Nodes(root.shape), root.shape;
    ValidNoDup(root);
    ghost var c, t, h := LocateIn(root, node);
    before, after := Before(c) + InOrder(t.left), InOrder(t.right) + After(c);
    leftmost := null;
    ghost var s := St(S, root);
    if root.leftmost == node {
      leftmost := NextFrom(node, root, S, c, t);
      SetLeftmost(root, leftmost, S);
    }
    assert St(S, root) == s;
    ghost var shape' := Erase(node, root, S, c, t, h);
    RemovedElems(before, node, after, shape, shape');
    SetShape(root, shape', S, before + after);
  }
}
