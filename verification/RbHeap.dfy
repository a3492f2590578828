/**
 The nodes of a red-black tree as objects in memory, and the elementary writes
 to them: recolouring and the two rotations.

 `Represents(m, t, parent)` ties a snapshot `m` of the node fields to a tree `t`.
 It is recursive over the tree and pure, so that framing is a matter of map values.
 */
module RbHeap {
  import opened RbShape
  import opened RbOrder

  /** The contents of the link fields of one node. */
  datatype Cell = Cell(left: Node?, right: Node?, parent: Node?, color: Color)

  type Memory = map<Node, Cell>

  ghost function RootOf(t: Tree): Node? {
    if t.Leaf? then null else t.node
  }

  /** What the parent pointer of the node at the focus has to be. */
  ghost function ParentOf(p: Path): Node? {
    if p.Top? then null else p.node
  }

  ghost predicate Represents(m: Memory, t: Tree, parent: Node?) {
    match t
    case Leaf => true
    case Nd(l, n, c, r) =>
      && n in m && m[n] == Cell(RootOf(l), RootOf(r), parent, c)
      && Represents(m, l, n) && Represents(m, r, n)
  }

  /** The frames of `p` are in memory, with `hole` as the child towards the focus. */
  ghost predicate RepresentsPath(m: Memory, p: Path, hole: Node?) {
    match p
    case Top => true
    case InLeft(up, n, c, r) =>
      && n in m && m[n] == Cell(hole, RootOf(r), ParentOf(up), c)
      && Represents(m, r, n) && RepresentsPath(m, up, n)
    case InRight(up, l, n, c) =>
      && n in m && m[n] == Cell(RootOf(l), hole, ParentOf(up), c)
      && Represents(m, l, n) && RepresentsPath(m, up, n)
  }

  /** Memory `m` holds the tree that has `t` at the focus of `p`, and nothing else. */
  ghost predicate Zipper(m: Memory, p: Path, t: Tree) {
    && PathDistinct(p) && Distinct(t) && PathNodes(p) !! Nodes(t) && m.Keys == PathNodes(p) + Nodes(t)
    && RepresentsPath(m, p, RootOf(t)) && Represents(m, t, ParentOf(p))
  }

  /** Where the head points, when the focus is at `hole`. */
  ghost function RootVia(p: Path, hole: Node?): Node? {
    if p.Top? then hole else RootVia(p.up, p.node)
  }

  lemma {:induction false} ZipperRaise(m: Memory, p: Path, t: Tree)
    requires !p.Top?
    ensures Zipper(m, p, t) <==> Zipper(m, p.up, Raise(p, t))
  {}

  /** The tree as a whole, or as seen from any focus, is the same in memory. */
  lemma {:induction false} ZipperPlug(m: Memory, p: Path, t: Tree)
    ensures Zipper(m, p, t) <==> Zipper(m, Top, Plug(p, t))
    ensures RootVia(p, RootOf(t)) == RootOf(Plug(p, t))
    decreases p
  {
    match p
    case Top =>
    case InLeft(up, n, c, r) => ZipperRaise(m, p, t); ZipperPlug(m, up, Nd(t, n, c, r));
    case InRight(up, l, n, c) => ZipperRaise(m, p, t); ZipperPlug(m, up, Nd(l, n, c, t));
  }

  /** The two memories differ at most in the cells of `changed`. */
  ghost predicate SameExcept(m: Memory, m': Memory, changed: set<Node?>) {
    forall n :: n in m && n !in changed ==> n in m' && m'[n] == m[n]
  }

  lemma {:induction false} Frame(m: Memory, m': Memory, changed: set<Node?>, t: Tree, parent: Node?)
    requires Represents(m, t, parent) && SameExcept(m, m', changed) && changed !! Nodes(t)
    ensures Represents(m', t, parent)
  {
    if t.Nd? {
      Frame(m, m', changed, t.left, t.node);
      Frame(m, m', changed, t.right, t.node);
    }
  }

  lemma {:induction false} FramePath(m: Memory, m': Memory, changed: set<Node?>, p: Path, hole: Node?)
    requires RepresentsPath(m, p, hole) && SameExcept(m, m', changed) && changed !! PathNodes(p)
    ensures RepresentsPath(m', p, hole)
  {
    match p
    case Top =>
    case InLeft(up, n, c, r) => Frame(m, m', changed, r, n); FramePath(m, m', changed, up, n);
    case InRight(up, l, n, c) => Frame(m, m', changed, l, n); FramePath(m, m', changed, up, n);
  }

  /** The subtree is unchanged except that its root has a new parent. */
  lemma {:induction false} FrameBelow(m: Memory, m': Memory, changed: set<Node?>, t: Tree, parent: Node?,
                                      parent': Node?)
    requires Represents(m, t, parent) && SameExcept(m, m', changed)
    requires t.Nd? ==> t.node in m' && m'[t.node] == m[t.node].(parent := parent')
    requires t.Nd? ==> changed !! Nodes(t.left) && changed !! Nodes(t.right)
    ensures Represents(m', t, parent')
  {
    if t.Nd? {
      Frame(m, m', changed, t.left, t.node);
      Frame(m, m', changed, t.right, t.node);
    }
  }

  /** `cell`, the innermost frame of `p`, once the focus has become `hole`. */
  ghost function Towards(p: Path, cell: Cell, hole: Node?): Cell {
    match p
    case Top => cell
    case InLeft(_, _, _, _) => cell.(left := hole)
    case InRight(_, _, _, _) => cell.(right := hole)
  }

  ghost function Redirected(m: Memory, p: Path, hole: Node?): Memory
    requires !p.Top? ==> p.node in m
  {
    if p.Top? then m else m[p.node := Towards(p, m[p.node], hole)]
  }

  /** The path is unchanged except that its innermost frame leads elsewhere. */
  lemma {:induction false} FrameAbove(m: Memory, m': Memory, changed: set<Node?>, p: Path, hole: Node?, hole': Node?)
    requires RepresentsPath(m, p, hole) && PathDistinct(p) && SameExcept(m, m', changed)
    requires !p.Top? ==> p.node in m' && m'[p.node] == Towards(p, m[p.node], hole')
    requires (changed - {ParentOf(p)}) !! PathNodes(p)
    ensures RepresentsPath(m', p, hole')
  {
    match p
    case Top =>
    case InLeft(up, n, c, r) => Frame(m, m', changed, r, n); FramePath(m, m', changed, up, n);
    case InRight(up, l, n, c) => Frame(m, m', changed, l, n); FramePath(m, m', changed, up, n);
  }

  lemma {:induction false} RootViaSame(p: Path, hole: Node?, hole': Node?)
    requires !p.Top?
    ensures RootVia(p, hole) == RootVia(p, hole')
  {}

  lemma {:induction false} RootViaOutside(p: Path, hole: Node?)
    requires !p.Top?
    ensures RootVia(p, hole) in PathNodes(p)
  {
    if !p.up.Top? {
      RootViaOutside(p.up, p.node);
    }
  }

  // ----------------------------------------------------------------- rotations

  /** Two nodes `lo` and `hi` around the subtrees `a`, `b`, `d`, with no node twice. */
  ghost predicate Apart(p: Path, a: Tree, lo: Node, b: Tree, hi: Node, d: Tree) {
    && Distinct(a) && Distinct(b) && Distinct(d) && PathDistinct(p) && lo != hi
    && {lo, hi} !! Nodes(a) && {lo, hi} !! Nodes(b) && {lo, hi} !! Nodes(d) && {lo, hi} !! PathNodes(p)
    && Nodes(a) !! Nodes(b) && Nodes(a) !! Nodes(d) && Nodes(b) !! Nodes(d)
    && PathNodes(p) !! Nodes(a) && PathNodes(p) !! Nodes(b) && PathNodes(p) !! Nodes(d)
  }

  ghost function AllNodes(p: Path, a: Tree, lo: Node, b: Tree, hi: Node, d: Tree): set<Node> {
    Nodes(a) + Nodes(b) + Nodes(d) + PathNodes(p) + {lo, hi}
  }

  /** `hi` is the right child of `lo`. */
  ghost predicate LowAbove(m: Memory, p: Path, a: Tree, lo: Node, cl: Color, b: Tree, hi: Node, ch: Color, d: Tree) {
    && m.Keys == AllNodes(p, a, lo, b, hi, d)
    && m[lo] == Cell(RootOf(a), hi, ParentOf(p), cl) && m[hi] == Cell(RootOf(b), RootOf(d), lo, ch)
    && Represents(m, a, lo) && Represents(m, b, hi) && Represents(m, d, hi) && RepresentsPath(m, p, lo)
  }

  /** `lo` is the left child of `hi`. */
  ghost predicate HighAbove(m: Memory, p: Path, a: Tree, lo: Node, cl: Color, b: Tree, hi: Node, ch: Color, d: Tree) {
    && m.Keys == AllNodes(p, a, lo, b, hi, d)
    && m[hi] == Cell(lo, RootOf(d), ParentOf(p), ch) && m[lo] == Cell(RootOf(a), RootOf(b), hi, cl)
    && Represents(m, a, lo) && Represents(m, b, lo) && Represents(m, d, hi) && RepresentsPath(m, p, hi)
  }

  lemma DisjointUnion(s: set<Node>, a: set<Node>, n: Node, b: set<Node>)
    ensures s !! a + {n} + b <==> s !! a && n !in s && s !! b
  {
    assert a <= a + {n} + b && b <= a + {n} + b && n in a + {n} + b;
  }

  lemma DisjointPair(lo: Node, hi: Node, s: set<Node>)
    ensures {lo, hi} !! s <==> lo !in s && hi !in s
  {}

  lemma {:induction false} ApartLow(p: Path, a: Tree, lo: Node, cl: Color, b: Tree, hi: Node, ch: Color, d: Tree)
    ensures var t := Nd(a, lo, cl, Nd(b, hi, ch, d));
            PathDistinct(p) && Distinct(t) && PathNodes(p) !! Nodes(t) <==> Apart(p, a, lo, b, hi, d)
  {
    var x := Nd(b, hi, ch, d);
    DisjointUnion(PathNodes(p), Nodes(a), lo, Nodes(x));
    DisjointUnion(PathNodes(p), Nodes(b), hi, Nodes(d));
    DisjointUnion(Nodes(a), Nodes(b), hi, Nodes(d));
    PairsApart(p, a, lo, b, hi, d);
    assert lo in Nodes(x) <==> lo in Nodes(b) || lo == hi || lo in Nodes(d);
    assert Distinct(x) <==> Distinct(b) && Distinct(d) && hi !in Nodes(b) && hi !in Nodes(d) && Nodes(b) !! Nodes(d);
  }

  lemma {:induction false} ApartHigh(p: Path, a: Tree, lo: Node, cl: Color, b: Tree, hi: Node, ch: Color, d: Tree)
    ensures var t := Nd(Nd(a, lo, cl, b), hi, ch, d);
            PathDistinct(p) && Distinct(t) && PathNodes(p) !! Nodes(t) <==> Apart(p, a, lo, b, hi, d)
  {
    var x := Nd(a, lo, cl, b);
    DisjointUnion(PathNodes(p), Nodes(x), hi, Nodes(d));
    DisjointUnion(PathNodes(p), Nodes(a), lo, Nodes(b));
    DisjointUnion(Nodes(d), Nodes(a), lo, Nodes(b));
    PairsApart(p, a, lo, b, hi, d);
    assert hi in Nodes(x) <==> hi in Nodes(a) || hi == lo || hi in Nodes(b);
    assert Distinct(x) <==> Distinct(a) && Distinct(b) && lo !in Nodes(a) && lo !in Nodes(b) && Nodes(a) !! Nodes(b);
  }

  lemma PairsApart(p: Path, a: Tree, lo: Node, b: Tree, hi: Node, d: Tree)
    ensures {lo, hi} !! Nodes(a) && {lo, hi} !! Nodes(b) && {lo, hi} !! Nodes(d) && {lo, hi} !! PathNodes(p) <==>
            && lo !in Nodes(a) && lo !in Nodes(b) && lo !in Nodes(d) && lo !in PathNodes(p)
            && hi !in Nodes(a) && hi !in Nodes(b) && hi !in Nodes(d) && hi !in PathNodes(p)
  {
    DisjointPair(lo, hi, Nodes(a));
    DisjointPair(lo, hi, Nodes(b));
    DisjointPair(lo, hi, Nodes(d));
    DisjointPair(lo, hi, PathNodes(p));
  }

  lemma {:induction false} SameNodes(p: Path, a: Tree, lo: Node, cl: Color, b: Tree, hi: Node, ch: Color, d: Tree)
    ensures PathNodes(p) + Nodes(Nd(a, lo, cl, Nd(b, hi, ch, d))) == AllNodes(p, a, lo, b, hi, d)
    ensures PathNodes(p) + Nodes(Nd(Nd(a, lo, cl, b), hi, ch, d)) == AllNodes(p, a, lo, b, hi, d)
  {
  }

  lemma {:induction false} LowAboveZipper(m: Memory, p: Path, a: Tree, lo: Node, cl: Color, b: Tree, hi: Node,
                                          ch: Color, d: Tree)
    ensures Zipper(m, p, Nd(a, lo, cl, Nd(b, hi, ch, d))) <==>
            Apart(p, a, lo, b, hi, d) && LowAbove(m, p, a, lo, cl, b, hi, ch, d)
  {
    ApartLow(p, a, lo, cl, b, hi, ch, d);
    SameNodes(p, a, lo, cl, b, hi, ch, d);
    assert Represents(m, Nd(b, hi, ch, d), lo) <==>
           hi in m && m[hi] == Cell(RootOf(b), RootOf(d), lo, ch) && Represents(m, b, hi) && Represents(m, d, hi);
  }

  lemma {:induction false} HighAboveZipper(m: Memory, p: Path, a: Tree, lo: Node, cl: Color, b: Tree, hi: Node,
                                           ch: Color, d: Tree)
    ensures Zipper(m, p, Nd(Nd(a, lo, cl, b), hi, ch, d)) <==>
            Apart(p, a, lo, b, hi, d) && HighAbove(m, p, a, lo, cl, b, hi, ch, d)
  {
    ApartHigh(p, a, lo, cl, b, hi, ch, d);
    SameNodes(p, a, lo, cl, b, hi, ch, d);
    assert Represents(m, Nd(a, lo, cl, b), hi) <==>
           lo in m && m[lo] == Cell(RootOf(a), RootOf(b), hi, cl) && Represents(m, a, lo) && Represents(m, b, lo);
  }

  /** What hangs around `lo` and `hi` when `bottom` and `top` change places. */
  lemma {:induction false} FrameAround(m: Memory, m': Memory, p: Path, a: Tree, lo: Node, b: Tree, hi: Node, d: Tree,
                                       top: Node, bottom: Node)
    requires Apart(p, a, lo, b, hi, d) && SameExcept(m, m', {lo, hi, RootOf(b), ParentOf(p)})
    requires Represents(m, a, lo) && Represents(m, b, bottom) && Represents(m, d, hi) && RepresentsPath(m, p, top)
    requires !p.Top? ==> p.node in m' && m'[p.node] == Towards(p, m[p.node], bottom)
    requires b.Nd? ==> b.node in m' && m'[b.node] == m[b.node].(parent := top)
    ensures Represents(m', a, lo) && Represents(m', b, top) && Represents(m', d, hi) && RepresentsPath(m', p, bottom)
  {
    var changed := {lo, hi, RootOf(b), ParentOf(p)};
    FrameAbove(m, m', changed, p, top, bottom);
    Frame(m, m', changed, a, lo);
    FrameBelow(m, m', changed, b, bottom, top);
    Frame(m, m', changed, d, hi);
  }

  /** Memory after the writes of a left rotation at the focus, in their order. */
  ghost function LeftRotation(m: Memory, p: Path, elm: Node, tmp: Node, mid: Node?): Memory
    requires elm in m && tmp in m && (mid != null ==> mid in m) && (!p.Top? ==> p.node in m)
  {
    var m1 := m[elm := m[elm].(right := mid)];
    var m2 := if mid == null then m1 else m1[mid := m1[mid].(parent := elm)];
    var m3 := Redirected(m2[tmp := m2[tmp].(parent := m2[elm].parent)], p, tmp);
    var m4 := m3[tmp := m3[tmp].(left := elm)];
    m4[elm := m4[elm].(parent := tmp)]
  }

  lemma {:induction false} LeftRotationHolds(m: Memory, p: Path, a: Tree, lo: Node, cl: Color, b: Tree, hi: Node,
                                             ch: Color, d: Tree)
    requires Apart(p, a, lo, b, hi, d) && LowAbove(m, p, a, lo, cl, b, hi, ch, d)
    ensures (b.Nd? ==> b.node in m && b.node !in PathNodes(p)) && (!p.Top? ==> p.node in m)
    ensures HighAbove(LeftRotation(m, p, lo, hi, RootOf(b)), p, a, lo, cl, b, hi, ch, d)
  {
    assert b.Nd? ==> b.node in Nodes(b);
    assert !p.Top? ==> p.node in PathNodes(p);
    FrameAround(m, LeftRotation(m, p, lo, hi, RootOf(b)), p, a, lo, b, hi, d, lo, hi);
  }

  /** Memory after the writes of a right rotation at the focus, in their order. */
  ghost function RightRotation(m: Memory, p: Path, elm: Node, tmp: Node, mid: Node?): Memory
    requires elm in m && tmp in m && (mid != null ==> mid in m) && (!p.Top? ==> p.node in m)
  {
    var m1 := m[elm := m[elm].(left := mid)];
    var m2 := if mid == null then m1 else m1[mid := m1[mid].(parent := elm)];
    var m3 := Redirected(m2[tmp := m2[tmp].(parent := m2[elm].parent)], p, tmp);
    var m4 := m3[tmp := m3[tmp].(right := elm)];
    m4[elm := m4[elm].(parent := tmp)]
  }

  lemma {:induction false} RightRotationHolds(m: Memory, p: Path, a: Tree, lo: Node, cl: Color, b: Tree, hi: Node,
                                              ch: Color, d: Tree)
    requires Apart(p, a, lo, b, hi, d) && HighAbove(m, p, a, lo, cl, b, hi, ch, d)
    ensures (b.Nd? ==> b.node in m && b.node !in PathNodes(p)) && (!p.Top? ==> p.node in m)
    ensures LowAbove(RightRotation(m, p, hi, lo, RootOf(b)), p, a, lo, cl, b, hi, ch, d)
  {
    assert b.Nd? ==> b.node in Nodes(b);
    assert !p.Top? ==> p.node in PathNodes(p);
    FrameAround(m, RightRotation(m, p, hi, lo, RootOf(b)), p, a, lo, b, hi, d, hi, lo);
  }

  ghost function ChildRecolored(t: Tree, n: Node, c: Color): Tree
    requires t.Nd? && (RootOf(t.left) == n || RootOf(t.right) == n)
  {
    if RootOf(t.left) == n then t.(left := t.left.(color := c)) else t.(right := t.right.(color := c))
  }

  ghost function OnlyChild(t: Tree): Tree
    requires t.Nd?
  {
    if t.left.Leaf? then t.right else t.left
  }

  /** Memory after the writes that splice out `elm`. */
  ghost function Unlinked(m: Memory, p: Path, elm: Node, child: Node?): Memory
    requires (child != null ==> child in m) && (!p.Top? ==> p.node in m)
  {
    var m1 := if child == null then m else m[child := m[child].(parent := ParentOf(p))];
    Redirected(m1, p, child) - {elm}
  }

  lemma {:induction false} UnlinkedHolds(m: Memory, p: Path, t: Tree)
    requires Zipper(m, p, t) && t.Nd? && (t.left.Leaf? || t.right.Leaf?)
    ensures (OnlyChild(t).Nd? ==> OnlyChild(t).node in m && OnlyChild(t).node !in PathNodes(p))
    ensures (!p.Top? ==> p.node in m)
    ensures Zipper(Unlinked(m, p, t.node, RootOf(OnlyChild(t))), p, OnlyChild(t))
  {
    var f := OnlyChild(t);
    assert Represents(m, f, t.node) && Distinct(f) && (f.Nd? ==> f.node in Nodes(f));
    assert Nodes(t) == Nodes(f) + {t.node};
    assert !p.Top? ==> p.node in PathNodes(p);
    var m', changed := Unlinked(m, p, t.node, RootOf(f)), {t.node, RootOf(f), ParentOf(p)};
    FrameAbove(m, m', changed, p, t.node, RootOf(f));
    FrameBelow(m, m', changed, f, t.node, ParentOf(p));
  }

  /** Memory after the writes that put `elm` in the place of `target`. */
  ghost function Substituted(m: Memory, p: Path, target: Node, elm: Node): Memory
    requires target in m && m[target].left != null && m[target].left in m
    requires (m[target].right != null ==> m[target].right in m) && (!p.Top? ==> p.node in m)
  {
    var m1 := Redirected(m[elm := m[target]], p, elm);
    var m2 := m1[m[target].left := m1[m[target].left].(parent := elm)];
    var m3 := if m[target].right == null then m2 else m2[m[target].right := m2[m[target].right].(parent := elm)];
    m3 - {target}
  }

  lemma {:induction false} SubstitutedFrames(m: Memory, p: Path, l: Tree, target: Node, c: Color, r: Tree, elm: Node)
    requires Zipper(m, p, Nd(l, target, c, r)) && l.Nd? && elm !in m
    ensures l.node in m && (r.Nd? ==> r.node in m) && (!p.Top? ==> p.node in m)
    ensures var m' := Substituted(m, p, target, elm);
            RepresentsPath(m', p, elm) && Represents(m', l, elm) && Represents(m', r, elm)
  {
    assert Represents(m, l, target) && Represents(m, r, target) && l.node in Nodes(l) && (r.Nd? ==> r.node in Nodes(r));
    assert Distinct(l) && Distinct(r);
    assert !p.Top? ==> p.node in PathNodes(p);
    assert elm !in Nodes(l) && elm !in Nodes(r) && elm !in PathNodes(p);
    var m', changed := Substituted(m, p, target, elm), {target, elm, RootOf(l), RootOf(r), ParentOf(p)};
    FrameAbove(m, m', changed, p, target, elm);
    FrameBelow(m, m', changed, l, target, elm);
    FrameBelow(m, m', changed, r, target, elm);
  }

  lemma {:induction false} SubstitutedHolds(m: Memory, p: Path, l: Tree, target: Node, c: Color, r: Tree, elm: Node)
    requires Zipper(m, p, Nd(l, target, c, r)) && l.Nd? && elm !in m
    ensures l.node in m && (r.Nd? ==> r.node in m) && (!p.Top? ==> p.node in m)
    ensures Zipper(Substituted(m, p, target, elm), p, Nd(l, elm, c, r))
  {
    SubstitutedFrames(m, p, l, target, c, r, elm);
    assert m.Keys == PathNodes(p) + (Nodes(l) + {target} + Nodes(r));
    assert elm !in PathNodes(p) && elm !in Nodes(l) && elm !in Nodes(r);
    assert Substituted(m, p, target, elm).Keys == m.Keys + {elm} - {target};
    assert l.node in Nodes(l) && (r.Nd? ==> r.node in Nodes(r)) && (!p.Top? ==> p.node in PathNodes(p));
  }

  class Head {
    const cmp: Comparator
    var root: Node?
    ghost var nodes: set<Node>
    ghost var tree: Tree

    constructor (cmp: Comparator)
      requires TotalOrder(cmp)
      ensures this.cmp == cmp && Valid() && Elements() == []
    {
      this.cmp := cmp;
      root, nodes, tree := null, {}, Leaf;
    }

    /** Memory holds `tree`, which obeys the red-black rules and the order. */
    ghost predicate Valid()
      reads this, nodes
    {
      TotalOrder(cmp) && At(Top, tree) && RedBlack(tree) && Sorted(cmp, Inorder(tree))
    }

    /** The elements in ascending order. */
    ghost function Elements(): seq<Node>
      reads this`tree
    {
      Inorder(tree)
    }

    ghost function Snap(): (m: Memory)
      reads this`nodes, nodes
      ensures m.Keys == nodes
    {
      map n | n in nodes :: Cell(n.left, n.right, n.parent, n.color)
    }

    /** Memory holds exactly the tree with `t` at the focus of `p`, parent pointers included. */
    ghost predicate At(p: Path, t: Tree)
      reads this`root, this`nodes, nodes
    {
      root == RootVia(p, RootOf(t)) && Zipper(Snap(), p, t)
    }

    /** What the fields of the node at the focus are. */
    lemma {:induction false} Read(p: Path, t: Tree)
      requires At(p, t) && t.Nd?
      ensures t.node in nodes
      ensures t.node.left == RootOf(t.left) && t.node.right == RootOf(t.right)
      ensures t.node.parent == ParentOf(p) && t.node.color == t.color
    {
      assert Snap()[t.node] == Cell(RootOf(t.left), RootOf(t.right), ParentOf(p), t.color);
    }

    /** What the fields of its parent are, and how they tell the side of the focus. */
    lemma {:induction false} ReadParent(p: Path, t: Tree)
      requires At(p, t) && !p.Top?
      ensures p.node in nodes && p.node.color == p.color && p.node.parent == ParentOf(p.up)
      ensures p.InLeft? ==> p.node.left == RootOf(t) && p.node.right == RootOf(p.right)
      ensures p.InRight? ==> p.node.left == RootOf(p.left) && p.node.right == RootOf(t)
      ensures t.Nd? ==> p.node.left != p.node.right
    {
      Ascend(p, t);
      Read(p.up, Raise(p, t));
      assert t.Nd? ==> t.node in Nodes(t);
      assert p.InLeft? && p.right.Nd? ==> p.right.node in PathNodes(p);
      assert p.InRight? && p.left.Nd? ==> p.left.node in PathNodes(p);
    }

    /** The focus, and whether the head points to it. */
    lemma {:induction false} ReadFocus(p: Path, t: Tree)
      requires At(p, t)
      ensures t.Nd? ==> t.node in nodes && t.node.color == t.color && t.node.parent == ParentOf(p)
      ensures p.Top? <==> root == RootOf(t)
    {
      if t.Nd? { Read(p, t); }
      if !p.Top? {
        RootViaOutside(p, RootOf(t));
        assert t.Nd? ==> t.node in Nodes(t);
      }
    }

    lemma {:induction false} Ascend(p: Path, t: Tree)
      requires !p.Top?
      ensures At(p, t) <==> At(p.up, Raise(p, t))
    {
      ZipperRaise(Snap(), p, t);
    }

    lemma {:induction false} AtPlug(p: Path, t: Tree)
      ensures At(p, t) <==> At(Top, Plug(p, t))
    {
      ZipperPlug(Snap(), p, t);
    }

    lemma {:induction false} AtAppend(inner: Path, outer: Path, t: Tree)
      ensures At(Append(inner, outer), t) <==> At(outer, Plug(inner, t))
    {
      PlugAppend(inner, outer, t);
      AtPlug(Append(inner, outer), t);
      AtPlug(outer, Plug(inner, t));
    }

    /** The fields of any node of the tree, found by a zipper for it. */
    lemma {:induction false} ReadIn(p: Path, t: Tree)
      requires At(Top, Plug(p, t)) && t.Nd?
      ensures t.node in nodes
      ensures t.node.left == RootOf(t.left) && t.node.right == RootOf(t.right) && t.node.parent == ParentOf(p)
    {
      AtPlug(p, t);
      Read(p, t);
    }

    lemma {:induction false} ReadParentIn(p: Path, t: Tree)
      requires At(Top, Plug(p, t)) && t.Nd?
      ensures t.node in nodes && t.node.parent == ParentOf(p)
      ensures !p.Top? ==> p.node in nodes
      ensures p.InLeft? <==> !p.Top? && p.node.left == t.node
      ensures p.InRight? <==> !p.Top? && p.node.right == t.node
    {
      AtPlug(p, t);
      Read(p, t);
      if !p.Top? { ReadParent(p, t); }
    }

    lemma {:induction false} ReadChildren(p: Path, t: Tree)
      requires At(p, t) && t.Nd?
      ensures t.node in nodes && t.node.left == RootOf(t.left) && t.node.right == RootOf(t.right)
      ensures t.left.Nd? ==> t.left.node in nodes && t.left.node.color == t.left.color
      ensures t.right.Nd? ==> t.right.node in nodes && t.right.node.color == t.right.color
      ensures t.left.Nd? && t.right.Nd? ==> t.left.node != t.right.node
    {
      Read(p, t);
      if t.left.Nd? {
        Ascend(InLeft(p, t.node, t.color, t.right), t.left);
        Read(InLeft(p, t.node, t.color, t.right), t.left);
      }
      if t.right.Nd? {
        Ascend(InRight(p, t.left, t.node, t.color), t.right);
        Read(InRight(p, t.left, t.node, t.color), t.right);
      }
    }

    method SetLeft(n: Node, x: Node?)
      requires n in nodes
      modifies n`left
      ensures Snap() == old(Snap())[n := old(Snap())[n].(left := x)]
      ensures root == old(root) && nodes == old(nodes)
    {
      n.left := x;
    }

    method SetRight(n: Node, x: Node?)
      requires n in nodes
      modifies n`right
      ensures Snap() == old(Snap())[n := old(Snap())[n].(right := x)]
      ensures root == old(root) && nodes == old(nodes)
    {
      n.right := x;
    }

    method SetParent(n: Node, x: Node?)
      requires n in nodes
      modifies n`parent
      ensures Snap() == old(Snap())[n := old(Snap())[n].(parent := x)]
      ensures root == old(root) && nodes == old(nodes)
    {
      n.parent := x;
    }

    method SetColor(n: Node, x: Color)
      requires n in nodes
      modifies n`color
      ensures Snap() == old(Snap())[n := old(Snap())[n].(color := x)]
      ensures root == old(root) && nodes == old(nodes)
    {
      n.color := x;
    }

    /** All fields of a node outside the tree are written, and it becomes part of memory. */
    method Adopt(n: Node, left: Node?, right: Node?, parent: Node?, c: Color)
      requires n !in nodes
      modifies this`nodes, n
      ensures Snap() == old(Snap())[n := Cell(left, right, parent, c)]
      ensures root == old(root) && nodes == old(nodes) + {n}
    {
      n.left, n.right, n.parent, n.color := left, right, parent, c;
      nodes := nodes + {n};
    }

    /** The finished tree becomes the recorded one. */
    ghost method Record(t: Tree)
      requires TotalOrder(cmp) && At(Top, t) && RedBlack(t) && Sorted(cmp, Inorder(t))
      modifies this`tree
      ensures Valid() && tree == t
    {
      tree := t;
    }

    ghost method Forget(n: Node)
      modifies this`nodes
      ensures Snap() == old(Snap()) - {n}
      ensures root == old(root) && nodes == old(nodes) - {n}
    {
      nodes := nodes - {n};
    }

    method Recolor(n: Node, c: Color, ghost p: Path, ghost t: Tree)
      requires t.Nd? && t.node == n && At(p, t)
      modifies nodes`color
      ensures nodes == old(nodes)
      ensures At(p, t.(color := c))
    {
      ghost var m := Snap();
      SetColor(n, c);
      FramePath(m, Snap(), {n}, p, n);
      Frame(m, Snap(), {n}, t.left, n);
      Frame(m, Snap(), {n}, t.right, n);
    }

    method RecolorChild(n: Node, c: Color, ghost p: Path, ghost t: Tree)
      requires t.Nd? && (RootOf(t.left) == n || RootOf(t.right) == n) && At(p, t)
      modifies nodes`color
      ensures nodes == old(nodes)
      ensures At(p, ChildRecolored(t, n, c))
    {
      ghost var q := if RootOf(t.left) == n then InLeft(p, t.node, t.color, t.right)
                     else InRight(p, t.left, t.node, t.color);
      ghost var f := if RootOf(t.left) == n then t.left else t.right;
      Ascend(q, f);
      Recolor(n, c, q, f);
      Ascend(q, f.(color := c));
    }

    /** The link from the parent of the focus, or from the head, now leads to `x`. */
    method Relink(elm: Node, parent: Node?, x: Node?, ghost p: Path)
      requires parent == ParentOf(p) && (!p.Top? ==> p.node in nodes && (p.InLeft? <==> p.node.left == elm))
      modifies this`root, nodes
      ensures nodes == old(nodes)
      ensures Snap() == Redirected(old(Snap()), p, x)
      ensures old(root) == RootVia(p, elm) ==> root == RootVia(p, x)
    {
      if parent != null {
        if elm == parent.left {
          SetLeft(parent, x);
        } else {
          SetRight(parent, x);
        }
      } else {
        root := x;
      }
    }

    /** `RB_SET`, then the link from the parent on the side that the comparison chose. */
    method Attach(elm: Node, parent: Node?, comp: int, ghost p: Path)
      requires At(p, Leaf) && elm !in nodes && parent == ParentOf(p)
      requires !p.Top? ==> (p.InLeft? <==> comp < 0)
      modifies this`root, this`nodes, nodes, elm
      ensures nodes == old(nodes) + {elm} && At(p, Nd(Leaf, elm, Red, Leaf))
    {
      ghost var m := Snap();
      Adopt(elm, null, null, parent, Red);
      if parent != null {
        if comp < 0 {
          SetLeft(parent, elm);
        } else {
          SetRight(parent, elm);
        }
      } else {
        root := elm;
      }
      FrameAbove(m, Snap(), {elm, parent}, p, null, elm);
      if !p.Top? {
        RootViaSame(p, null, elm);
      }
    }

    /** A node with at most one child leaves the tree; the child takes its place. */
    method Unlink(elm: Node, child: Node?, parent: Node?, ghost p: Path, ghost t: Tree)
      requires At(p, t) && t.Nd? && t.node == elm && (t.left.Leaf? || t.right.Leaf?)
      requires child == RootOf(OnlyChild(t)) && parent == ParentOf(p)
      modifies this`root, this`nodes, nodes
      ensures nodes == old(nodes) - {elm} && At(p, OnlyChild(t)) && elm.parent == old(elm.parent)
    {
      ghost var m := Snap();
      UnlinkedHolds(m, p, t);
      if !p.Top? { ReadParent(p, t); }
      if child != null {
        SetParent(child, parent);
      }
      Relink(elm, parent, child, p);
      Forget(elm);
      assert Snap() == Unlinked(m, p, elm, child);
    }

    /** `elm` takes over the links, the colour and the place of `target`. */
    method Substitute(target: Node, elm: Node, ghost p: Path, ghost l: Tree, ghost c: Color, ghost r: Tree)
      requires At(p, Nd(l, target, c, r)) && l.Nd? && elm !in nodes
      modifies this`root, this`nodes, nodes, elm
      ensures nodes == old(nodes) + {elm} - {target} && At(p, Nd(l, elm, c, r))
    {
      ghost var m := Snap();
      SubstitutedHolds(m, p, l, target, c, r, elm);
      Read(p, Nd(l, target, c, r));
      if !p.Top? { ReadParent(p, Nd(l, target, c, r)); }
      Adopt(elm, target.left, target.right, target.parent, target.color);
      Relink(target, target.parent, elm, p);
      SetParent(target.left, elm);
      if target.right != null {
        SetParent(target.right, elm);
      }
      Forget(target);
      assert Snap() == Substituted(m, p, target, elm);
    }

    method RotateLeft(elm: Node, ghost p: Path, ghost a: Tree, ghost cl: Color, ghost b: Tree, ghost hi: Node,
                      ghost ch: Color, ghost d: Tree)
      requires At(p, Nd(a, elm, cl, Nd(b, hi, ch, d)))
      modifies this`root, nodes
      ensures nodes == old(nodes)
      ensures At(p, Nd(Nd(a, elm, cl, b), hi, ch, d))
    {
      ghost var m := Snap();
      LowAboveZipper(m, p, a, elm, cl, b, hi, ch, d);
      LeftRotationHolds(m, p, a, elm, cl, b, hi, ch, d);
      var tmp := elm.right;
      SetRight(elm, tmp.left);
      if tmp.left != null {
        SetParent(tmp.left, elm);
      }
      SetParent(tmp, elm.parent);
      Relink(elm, tmp.parent, tmp, p);
      SetLeft(tmp, elm);
      SetParent(elm, tmp);
      assert Snap() == LeftRotation(m, p, elm, tmp, RootOf(b));
      HighAboveZipper(Snap(), p, a, elm, cl, b, hi, ch, d);
    }

    method RotateRight(elm: Node, ghost p: Path, ghost a: Tree, ghost lo: Node, ghost cl: Color, ghost b: Tree,
                       ghost ch: Color, ghost d: Tree)
      requires At(p, Nd(Nd(a, lo, cl, b), elm, ch, d))
      modifies this`root, nodes
      ensures nodes == old(nodes)
      ensures At(p, Nd(a, lo, cl, Nd(b, elm, ch, d)))
    {
      ghost var m := Snap();
      HighAboveZipper(m, p, a, lo, cl, b, elm, ch, d);
      RightRotationHolds(m, p, a, lo, cl, b, elm, ch, d);
      var tmp := elm.left;
      SetLeft(elm, tmp.right);
      if tmp.right != null {
        SetParent(tmp.right, elm);
      }
      SetParent(tmp, elm.parent);
      Relink(elm, tmp.parent, tmp, p);
      SetRight(tmp, elm);
      SetParent(elm, tmp);
      assert Snap() == RightRotation(m, p, elm, tmp, RootOf(b));
      LowAboveZipper(Snap(), p, a, lo, cl, b, elm, ch, d);
    }
  }
}
