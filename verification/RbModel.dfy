/** Red-black trees as values: shapes, paths to a hole, and the laws the rebalancing relies on. */
module RbModel {
  import opened Arithmetic

  /** An rb_node together with the timer_t that embeds it. The packed parent-and-colour word is two fields. */
  class RbNode {
    var left: RbNode?
    var right: RbNode?
    var parent: RbNode?
    var black: bool
    var deadline: nat
    var timers: RbRoot?
    ghost var stamp: nat  // when the timer was last armed

    constructor ()
      ensures timers == null
    {
      left, right, parent, black, deadline, timers := null, null, null, false, 0, null;
    }
  }

  /** An rb_root_cached; the shape is what the proofs know about the nodes below it. */
  class RbRoot {
    var node: RbNode?
    var leftmost: RbNode?
    ghost var shape: Tree

    constructor ()
      ensures node == null && leftmost == null && shape == Leaf
    {
      node, leftmost, shape := null, null, Leaf;
    }
  }

  datatype Dir = L | R

  function Opp(d: Dir): Dir { if d == L then R else L }

  datatype Tree = Leaf | Node(left: Tree, at: RbNode, black: bool, right: Tree)

  /** The way from a hole up to the root: the hole is the d-child of at, whose other child is other. */
  datatype Path = Top | In(up: Path, d: Dir, at: RbNode, black: bool, other: Tree)

  /** The node whose d-child is x and whose other child is y. */
  ghost function Mk(d: Dir, x: Tree, n: RbNode, b: bool, y: Tree): Tree {
    if d == L then Node(x, n, b, y) else Node(y, n, b, x)
  }

  ghost function Branch(t: Tree, d: Dir): Tree
    requires t.Node?
  {
    if d == L then t.left else t.right
  }

  ghost function Nodes(t: Tree): set<RbNode> {
    match t
    case Leaf => {}
    case Node(l, n, _, r) => Nodes(l) + {n} + Nodes(r)
  }

  ghost function PathNodes(c: Path): set<RbNode> {
    match c
    case Top => {}
    case In(up, _, n, _, o) => PathNodes(up) + {n} + Nodes(o)
  }

  ghost function InOrder(t: Tree): seq<RbNode> {
    match t
    case Leaf => []
    case Node(l, n, _, r) => InOrder(l) + [n] + InOrder(r)
  }

  ghost function Before(c: Path): seq<RbNode> {
    match c
    case Top => []
    case In(up, d, n, _, o) => if d == L then Before(up) else Before(up) + InOrder(o) + [n]
  }

  ghost function After(c: Path): seq<RbNode> {
    match c
    case Top => []
    case In(up, d, n, _, o) => if d == L then [n] + InOrder(o) + After(up) else After(up)
  }

  /** Plugs a tree into the hole of a path. */
  ghost function Zip(c: Path, t: Tree): Tree {
    match c
    case Top => t
    case In(up, d, n, b, o) => Zip(up, Mk(d, t, n, b, o))
  }

  /** The path that first follows lower and then base. */
  ghost function Extend(lower: Path, base: Path): Path {
    match lower
    case Top => base
    case In(up, d, n, b, o) => In(Extend(up, base), d, n, b, o)
  }

  ghost function RootOf(t: Tree): RbNode? { if t.Leaf? then null else t.at }

  ghost function ParentOf(c: Path): RbNode? { if c.Top? then null else c.at }

  ghost predicate IsBlack(t: Tree) { t.Leaf? || t.black }

  ghost function Paint(t: Tree, b: bool): Tree { if t.Leaf? then t else t.(black := b) }

  /** No red node has a red child, and every way down to a leaf meets h black nodes. */
  ghost predicate RedBlack(t: Tree, h: nat) {
    match t
    case Leaf => h == 0
    case Node(l, _, b, r) =>
      if b then h > 0 && RedBlack(l, h - 1) && RedBlack(r, h - 1)
      else IsBlack(l) && IsBlack(r) && RedBlack(l, h) && RedBlack(r, h)
  }

  /** The path completes a red-black tree around a hole of black height h; the one edge left
      unconstrained is the edge from the innermost frame to the hole. */
  ghost predicate PathRedBlack(c: Path, h: nat) {
    match c
    case Top => true
    case In(up, _, _, b, o) =>
      && RedBlack(o, h)
      && PathRedBlack(up, if b then h + 1 else h)
      && (!b ==> IsBlack(o) && !up.Top? && up.black)
  }

  ghost predicate Plugs(c: Path, t: Tree) { IsBlack(t) || (!c.Top? && c.black) }

  /** The five red-black properties: colours are booleans, leaves count as black, the rest is stated. */
  ghost predicate ValidTree(t: Tree) { IsBlack(t) && exists h: nat :: RedBlack(t, h) }

  lemma {:induction false} ZipRedBlack(c: Path, t: Tree, h: nat)
    requires RedBlack(t, h) && PathRedBlack(c, h) && Plugs(c, t)
    ensures ValidTree(Zip(c, t))
    decreases c
  {
    if c.In? {
      ZipRedBlack(c.up, Mk(c.d, t, c.at, c.black, c.other), if c.black then h + 1 else h);
    }
  }

  lemma MkInOrder(d: Dir, x: Tree, n: RbNode, b: bool, y: Tree)
    ensures InOrder(Mk(d, x, n, b, y)) ==
            if d == L then InOrder(x) + [n] + InOrder(y) else InOrder(y) + [n] + InOrder(x)
  {
  }

  lemma {:induction false} ZipInOrder(c: Path, t: Tree)
    ensures InOrder(Zip(c, t)) == Before(c) + InOrder(t) + After(c)
    decreases c
  {
    if c.In? {
      var n, o := c.at, InOrder(c.other);
      ZipInOrder(c.up, Mk(c.d, t, n, c.black, c.other));
      MkInOrder(c.d, t, n, c.black, c.other);
      Regroup(Before(c.up), InOrder(t), [n], o, After(c.up));
      Regroup(Before(c.up), o, [n], InOrder(t), After(c.up));
    }
  }

  lemma Regroup<T>(a: seq<T>, b: seq<T>, c: seq<T>, d: seq<T>, e: seq<T>)
    ensures a + (b + c + d) + e == a + b + (c + d + e)
    ensures a + (b + c + d) + e == (a + b + c) + d + e
    ensures a + (b + c + d) + e == (a + b) + c + (d + e)
  {
  }

  lemma ZipSameOrder(c: Path, t: Tree, t': Tree)
    requires InOrder(t) == InOrder(t')
    ensures InOrder(Zip(c, t)) == InOrder(Zip(c, t'))
  {
    ZipInOrder(c, t);
    ZipInOrder(c, t');
  }

  /** A rotation keeps the order. */
  lemma RotateInOrder(d: Dir, a: Tree, p: RbNode, b: Tree, g: RbNode, u: Tree,
                      c0: bool, c1: bool, c2: bool, c3: bool)
    ensures InOrder(Mk(d, Mk(d, a, p, c0, b), g, c1, u)) == InOrder(Mk(d, a, p, c2, Mk(d, b, g, c3, u)))
  {
    if d == L {
      assert (InOrder(a) + [p] + InOrder(b)) + [g] + InOrder(u) == InOrder(a) + [p] + (InOrder(b) + [g] + InOrder(u));
    } else {
      assert InOrder(u) + [g] + (InOrder(b) + [p] + InOrder(a)) == (InOrder(u) + [g] + InOrder(b)) + [p] + InOrder(a);
    }
  }

  ghost function Elems(q: seq<RbNode>): set<RbNode> { set n | n in q }

  lemma {:induction false} InOrderNodes(t: Tree)
    ensures Elems(InOrder(t)) == Nodes(t)
  {
    if t.Node? {
      InOrderNodes(t.left);
      InOrderNodes(t.right);
    }
  }

  lemma {:induction false} ZipNodes(c: Path, t: Tree)
    ensures Nodes(Zip(c, t)) == PathNodes(c) + Nodes(t)
    decreases c
  {
    if c.In? {
      ZipNodes(c.up, Mk(c.d, t, c.at, c.black, c.other));
    }
  }

  lemma {:induction false} ZipExtend(lower: Path, base: Path, t: Tree)
    ensures Zip(Extend(lower, base), t) == Zip(base, Zip(lower, t))
    decreases lower
  {
    if lower.In? {
      ZipExtend(lower.up, base, Mk(lower.d, t, lower.at, lower.black, lower.other));
    }
  }

  // ---- height ----

  ghost function Size(t: Tree): nat { if t.Leaf? then 0 else Size(t.left) + 1 + Size(t.right) }

  ghost function Height(t: Tree): nat {
    if t.Leaf? then 0 else 1 + if Height(t.left) > Height(t.right) then Height(t.left) else Height(t.right)
  }

  lemma {:induction false} SizeIsLength(t: Tree)
    ensures Size(t) == |InOrder(t)|
  {
    if t.Node? {
      SizeIsLength(t.left);
      SizeIsLength(t.right);
    }
  }

  lemma {:induction false} BlackHeightBounds(t: Tree, h: nat)
    requires RedBlack(t, h)
    ensures Shl(h) <= Size(t) + 1
    ensures Height(t) <= if IsBlack(t) then 2 * h else 2 * h + 1
  {
    if t.Node? {
      var k := if t.black then h - 1 else h;
      BlackHeightBounds(t.left, k);
      BlackHeightBounds(t.right, k);
    }
  }

  lemma MulMonotone(x: nat, y: nat)
    requires x <= y
    ensures x * x <= y * y
  {
    calc {
      x * x;
    <= x * y;
    <= y * y;
    }
  }

  /** The height is at most twice the logarithm of the number of nodes plus one. */
  lemma HeightBound(t: Tree)
    requires ValidTree(t)
    ensures Shl(Height(t)) <= (|InOrder(t)| + 1) * (|InOrder(t)| + 1)
  {
    var h: nat :| RedBlack(t, h);
    BlackHeightBounds(t, h);
    SizeIsLength(t);
    ShlBelow(Height(t), h + h);
    ShlAdd(h, h);
    MulMonotone(Shl(h), Size(t) + 1);
  }
}
