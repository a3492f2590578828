/** `RB_INSERT` and its fix-up loop. */
module RbInsert {
  import opened RbShape
  import opened RbHeap
  import opened RbOrder

  /** A red node is at the focus; only between it and its parent may red meet red. */
  ghost predicate RedAtFocus(p: Path, t: Tree, h: nat) {
    IsRed(t) && Fits(t, h) && PathFits(p, h)
  }

  ghost function Sibling(p: Path): Tree
    requires !p.Top?
  {
    if p.InLeft? then p.right else p.left
  }

  lemma {:induction false} Surroundings(p: Path, t: Tree, h: nat)
    requires RedAtFocus(p, t, h) && HoleUnderRed(p)
    ensures !p.up.Top? && p.up.color.Black? && PathFits(p.up.up, h + 1)
    ensures Fits(Sibling(p), h) && !IsRed(Sibling(p)) && Fits(Sibling(p.up), h)
    ensures Fits(Raise(p, t).left, h) && Fits(Raise(p, t).right, h)
    ensures Fits(t.left, h) && !IsRed(t.left) && Fits(t.right, h) && !IsRed(t.right)
    ensures IsRed(Sibling(p.up)) ==> Fits(Sibling(p.up).left, h) && Fits(Sibling(p.up).right, h)
    ensures Spread(p.up.up, Raise(p.up, Raise(p, t))) == Spread(p, t)
  {
    assert PathFits(p.up, h);
    SpreadRaise(p, t);
    SpreadRaise(p.up, Raise(p, t));
  }

  /** The subtree of the grandparent, with what the fields of parent and uncle are. */
  lemma {:induction false} FromGrandparent(head: Head, p: Path, t: Tree, h: nat) returns (w: Tree)
    requires head.At(p, t) && RedAtFocus(p, t, h) && HoleUnderRed(p)
    ensures !p.up.Top? && w == Raise(p.up, Raise(p, t)) && head.At(p.up.up, w)
    ensures PathFits(p.up.up, h + 1) && Spread(p.up.up, w) == Spread(p, t)
    ensures w.Nd? && w.node == p.up.node && w.node in head.nodes
    ensures w.node.left == RootOf(w.left) && w.node.right == RootOf(w.right)
    ensures w.left.Nd? ==> w.left.node in head.nodes && w.left.node.color == w.left.color
    ensures w.right.Nd? ==> w.right.node in head.nodes && w.right.node.color == w.right.color
    ensures IsRed(Sibling(p.up)) ==> RedChildren(w, h)
    ensures (if p.up.InLeft? then w.left else w.right) == Raise(p, t)
    ensures (if p.up.InLeft? then w.right else w.left) == Sibling(p.up)
  {
    w := Raise(p.up, Raise(p, t));
    Surroundings(p, t, h);
    head.Ascend(p, t);
    head.Ascend(p.up, Raise(p, t));
    head.ReadChildren(p.up.up, w);
  }

  ghost predicate RedChildren(w: Tree, h: nat) {
    && w.Nd? && IsRed(w.left) && IsRed(w.right)
    && Fits(w.left.left, h) && Fits(w.left.right, h) && Fits(w.right.left, h) && Fits(w.right.right, h)
  }

  /** Parent and uncle become black and the grandparent red, whatever their sides. */
  method PushRedUp(head: Head, parent: Node, tmp: Node, gparent: Node, ghost u: Path, ghost w: Tree, ghost h: nat)
    returns (ghost w': Tree)
    requires head.At(u, w) && PathFits(u, h + 1) && RedChildren(w, h) && w.node == gparent
    requires (parent == w.left.node && tmp == w.right.node) || (tmp == w.left.node && parent == w.right.node)
    modifies head.nodes`color
    ensures head.At(u, w') && RedAtFocus(u, w', h + 1) && w'.node == gparent && Spread(u, w') == Spread(u, w)
  {
    head.ReadChildren(u, w);
    head.RecolorChild(tmp, Black, u, w);
    w' := ChildRecolored(w, tmp, Black);
    head.RecolorChild(parent, Black, u, w');
    w' := ChildRecolored(w', parent, Black);
    head.Recolor(gparent, Red, u, w');
    w' := w'.(color := Red);
    PushedUp(w, w', u, h);
  }

  lemma {:induction false} PushedUp(w: Tree, w': Tree, u: Path, h: nat)
    requires RedChildren(w, h)
    requires w' == w.(left := w.left.(color := Black), right := w.right.(color := Black), color := Red)
    ensures IsRed(w') && Fits(w', h + 1) && Spread(u, w') == Spread(u, w)
  {
    assert Fits(w'.left, h + 1) && Fits(w'.right, h + 1);
    assert Inorder(w'.left) == Inorder(w.left) && Inorder(w'.right) == Inorder(w.right);
  }

  /** The loop body with a red uncle. */
  method Climb(head: Head, parent: Node, tmp: Node, gparent: Node, ghost p: Path, ghost t: Tree, ghost w: Tree,
               ghost h: nat)
    returns (ghost t': Tree)
    requires !p.Top? && !p.up.Top? && gparent == p.up.node && parent == p.node
    requires head.At(p.up.up, w) && PathFits(p.up.up, h + 1) && Spread(p.up.up, w) == Spread(p, t)
    requires w == Raise(p.up, Raise(p, t)) && RedChildren(w, h)
    requires Sibling(p.up).Nd? && tmp == Sibling(p.up).node
    modifies head.nodes`color
    ensures head.At(p.up.up, t') && RedAtFocus(p.up.up, t', h + 1) && t'.node == gparent
    ensures Spread(p.up.up, t') == Spread(p, t) && Depth(p.up.up) < Depth(p)
  {
    t' := PushRedUp(head, parent, tmp, gparent, p.up.up, w, h);
  }

  lemma {:induction false} OuterLeft(u: Path, f: Tree, parent: Node, s: Tree, g: Node, un: Tree, h: nat)
    requires PathFits(u, h + 1) && IsRed(f) && Fits(f, h)
    requires Fits(s, h) && !IsRed(s) && Fits(un, h) && !IsRed(un)
    ensures var p := InLeft(u, parent, Black, Nd(s, g, Red, un));
            RedAtFocus(p, f, h) && Spread(p, f) == Spread(u, Nd(Nd(f, parent, Red, s), g, Black, un))
  {
    var y := Nd(s, g, Red, un);
    assert Fits(y, h);
    SpreadRaise(InLeft(u, parent, Black, y), f);
    InorderRotation(f, parent, Red, s, g, Black, un);
    assert Inorder(Nd(f, parent, Black, y)) == Inorder(Nd(f, parent, Red, Nd(s, g, Black, un)));
  }

  method StraightenLeft(head: Head, parent: Node, gparent: Node, ghost u: Path, ghost f: Tree, ghost s: Tree,
                        ghost un: Tree)
    requires head.At(u, Nd(Nd(f, parent, Red, s), gparent, Black, un))
    modifies head`root, head.nodes
    ensures head.nodes == old(head.nodes)
    ensures head.At(u, Nd(f, parent, Black, Nd(s, gparent, Red, un)))
  {
    ghost var w := Nd(Nd(f, parent, Red, s), gparent, Black, un);
    head.RecolorChild(parent, Black, u, w);
    head.Recolor(gparent, Red, u, Nd(Nd(f, parent, Black, s), gparent, Black, un));
    head.RotateRight(gparent, u, f, parent, Black, s, Red, un);
  }

  /** The loop body with a black uncle: an inner grandchild is rotated outward first. */
  method TurnLeft(head: Head, elm0: Node, parent0: Node, gparent: Node, ghost p: Path, ghost t: Tree, ghost h: nat)
    returns (elm: Node, ghost p': Path, ghost t': Tree)
    requires head.At(p, t) && RedAtFocus(p, t, h) && HoleUnderRed(p) && p.up.InLeft? && !IsRed(p.up.right)
    requires elm0 == t.node && parent0 == p.node && gparent == p.up.node
    modifies head`root, head.nodes
    ensures head.nodes == old(head.nodes)
    ensures head.At(p', t') && RedAtFocus(p', t', h) && elm == t'.node
    ensures Spread(p', t') == Spread(p, t) && Depth(p') < Depth(p)
  {
    elm := elm0;
    var parent := parent0;
    ghost var g, u, x, un := p.up, p.up.up, Raise(p, t), p.up.right;
    Surroundings(p, t, h);
    head.ReadParent(p, t);
    head.Ascend(p, t);
    head.Ascend(g, x);
    ghost var f, s := t, Sibling(p);
    if parent.right == elm {
      head.RotateLeft(parent, g, p.left, Red, t.left, elm, Red, t.right);
      InorderRotation(p.left, parent, Red, t.left, elm, Red, t.right);
      f, s := Nd(p.left, parent, Red, t.left), t.right;
      head.Ascend(g, Nd(f, elm, Red, s));
      parent, elm := elm, parent;
    }
    StraightenLeft(head, parent, gparent, u, f, s, un);
    p', t' := InLeft(u, parent, Black, Nd(s, gparent, Red, un)), f;
    head.Ascend(p', t');
    OuterLeft(u, f, parent, s, gparent, un, h);
  }

  /** The loop body when the red parent is the left child of its parent. */
  method FixLeft(head: Head, elm0: Node, parent: Node, gparent: Node, ghost p: Path, ghost t: Tree, ghost h: nat)
    returns (elm: Node, ghost p': Path, ghost t': Tree, ghost h': nat)
    requires head.At(p, t) && RedAtFocus(p, t, h) && HoleUnderRed(p) && p.up.InLeft?
    requires elm0 == t.node && parent == p.node && gparent == p.up.node
    modifies head`root, head.nodes
    ensures head.nodes == old(head.nodes)
    ensures head.At(p', t') && RedAtFocus(p', t', h') && elm == t'.node
    ensures Spread(p', t') == Spread(p, t) && Depth(p') < Depth(p)
  {
    ghost var w := FromGrandparent(head, p, t, h);
    var tmp := gparent.right;
    if tmp != null && tmp.color == Red {
      t' := Climb(head, parent, tmp, gparent, p, t, w, h);
      elm, p', h' := gparent, p.up.up, h + 1;
    } else {
      elm, p', t' := TurnLeft(head, elm0, parent, gparent, p, t, h);
      h' := h;
    }
  }

  lemma {:induction false} OuterRight(u: Path, f: Tree, parent: Node, s: Tree, g: Node, un: Tree, h: nat)
    requires PathFits(u, h + 1) && IsRed(f) && Fits(f, h)
    requires Fits(s, h) && !IsRed(s) && Fits(un, h) && !IsRed(un)
    ensures var p := InRight(u, Nd(un, g, Red, s), parent, Black);
            RedAtFocus(p, f, h) && Spread(p, f) == Spread(u, Nd(un, g, Black, Nd(s, parent, Red, f)))
  {
    var y := Nd(un, g, Red, s);
    assert Fits(y, h);
    SpreadRaise(InRight(u, y, parent, Black), f);
    InorderRotation(un, g, Black, s, parent, Red, f);
    assert Inorder(Nd(y, parent, Black, f)) == Inorder(Nd(Nd(un, g, Black, s), parent, Red, f));
  }

  method StraightenRight(head: Head, parent: Node, gparent: Node, ghost u: Path, ghost f: Tree, ghost s: Tree,
                         ghost un: Tree)
    requires head.At(u, Nd(un, gparent, Black, Nd(s, parent, Red, f)))
    modifies head`root, head.nodes
    ensures head.nodes == old(head.nodes)
    ensures head.At(u, Nd(Nd(un, gparent, Red, s), parent, Black, f))
  {
    ghost var w := Nd(un, gparent, Black, Nd(s, parent, Red, f));
    head.RecolorChild(parent, Black, u, w);
    head.Recolor(gparent, Red, u, Nd(un, gparent, Black, Nd(s, parent, Black, f)));
    head.RotateLeft(gparent, u, un, Red, s, parent, Black, f);
  }

  /** The loop body with a black uncle: an inner grandchild is rotated outward first. */
  method TurnRight(head: Head, elm0: Node, parent0: Node, gparent: Node, ghost p: Path, ghost t: Tree, ghost h: nat)
    returns (elm: Node, ghost p': Path, ghost t': Tree)
    requires head.At(p, t) && RedAtFocus(p, t, h) && HoleUnderRed(p) && p.up.InRight? && !IsRed(p.up.left)
    requires elm0 == t.node && parent0 == p.node && gparent == p.up.node
    modifies head`root, head.nodes
    ensures head.nodes == old(head.nodes)
    ensures head.At(p', t') && RedAtFocus(p', t', h) && elm == t'.node
    ensures Spread(p', t') == Spread(p, t) && Depth(p') < Depth(p)
  {
    elm := elm0;
    var parent := parent0;
    ghost var g, u, x, un := p.up, p.up.up, Raise(p, t), p.up.left;
    Surroundings(p, t, h);
    head.ReadParent(p, t);
    head.Ascend(p, t);
    head.Ascend(g, x);
    ghost var f, s := t, Sibling(p);
    if parent.left == elm {
      head.RotateRight(parent, g, t.left, elm, Red, t.right, Red, p.right);
      InorderRotation(t.left, elm, Red, t.right, parent, Red, p.right);
      f, s := Nd(t.right, parent, Red, p.right), t.left;
      head.Ascend(g, Nd(s, elm, Red, f));
      parent, elm := elm, parent;
    }
    StraightenRight(head, parent, gparent, u, f, s, un);
    p', t' := InRight(u, Nd(un, gparent, Red, s), parent, Black), f;
    head.Ascend(p', t');
    OuterRight(u, f, parent, s, gparent, un, h);
  }

  /** The loop body when the red parent is the right child of its parent. */
  method FixRight(head: Head, elm0: Node, parent: Node, gparent: Node, ghost p: Path, ghost t: Tree, ghost h: nat)
    returns (elm: Node, ghost p': Path, ghost t': Tree, ghost h': nat)
    requires head.At(p, t) && RedAtFocus(p, t, h) && HoleUnderRed(p) && p.up.InRight?
    requires elm0 == t.node && parent == p.node && gparent == p.up.node
    modifies head`root, head.nodes
    ensures head.nodes == old(head.nodes)
    ensures head.At(p', t') && RedAtFocus(p', t', h') && elm == t'.node
    ensures Spread(p', t') == Spread(p, t) && Depth(p') < Depth(p)
  {
    ghost var w := FromGrandparent(head, p, t, h);
    var tmp := gparent.left;
    if tmp != null && tmp.color == Red {
      t' := Climb(head, parent, tmp, gparent, p, t, w, h);
      elm, p', h' := gparent, p.up.up, h + 1;
    } else {
      elm, p', t' := TurnRight(head, elm0, parent, gparent, p, t, h);
      h' := h;
    }
  }

  /** `RB_INSERT_COLOR`: the red-red pair only climbs, so the loop ends. */
  method InsertColor(head: Head, elm0: Node, ghost p0: Path, ghost t0: Tree, ghost h0: nat)
    returns (ghost tree: Tree)
    requires head.At(p0, t0) && RedAtFocus(p0, t0, h0) && elm0 == t0.node
    modifies head`root, head.nodes
    ensures head.nodes == old(head.nodes)
    ensures head.At(Top, tree) && RedBlack(tree) && Inorder(tree) == Spread(p0, t0)
  {
    var elm := elm0;
    ghost var p, t, h := p0, t0, h0;
    head.Read(p, t);
    var parent := elm.parent;
    if parent != null { head.ReadParent(p, t); }
    while parent != null && parent.color == Red
      invariant head.nodes == old(head.nodes)
      invariant head.At(p, t) && RedAtFocus(p, t, h) && elm == t.node
      invariant Spread(p, t) == Spread(p0, t0)
      invariant parent == ParentOf(p) && (parent != null ==> parent in head.nodes && parent.color == p.color)
      decreases Depth(p)
    {
      head.ReadParent(p, t);
      var gparent := parent.parent;
      assert gparent == p.up.node;
      head.Ascend(p, t);
      head.ReadParent(p.up, Raise(p, t));
      if parent == gparent.left {
        elm, p, t, h := FixLeft(head, elm, parent, gparent, p, t, h);
      } else {
        elm, p, t, h := FixRight(head, elm, parent, gparent, p, t, h);
      }
      head.Read(p, t);
      parent := elm.parent;
      if parent != null { head.ReadParent(p, t); }
    }
    tree := BlackenRoot(head, p, t, h);
  }

  /** The last statement of `RB_INSERT_COLOR`. */
  method BlackenRoot(head: Head, ghost p: Path, ghost t: Tree, ghost h: nat) returns (ghost tree: Tree)
    requires head.At(p, t) && RedAtFocus(p, t, h) && !HoleUnderRed(p)
    modifies head`root, head.nodes
    ensures head.nodes == old(head.nodes)
    ensures head.At(Top, tree) && RedBlack(tree) && Inorder(tree) == Spread(p, t)
  {
    ghost var whole := Plug(p, t);
    head.AtPlug(p, t);
    InorderPlug(p, t);
    head.Recolor(head.root, Black, Top, whole);
    tree := whole.(color := Black);
    if p.Top? {
      FitsIff(t, h);
    } else {
      FitsPlug(p, t, h);
    }
  }

  /** The search loop of `RB_INSERT`. */
  method Search(head: Head, key: int) returns (r: Node?, parent: Node?, comp: int, ghost p: Path)
    requires head.Valid()
    ensures r != null ==> r in head.Elements() && head.cmp(key, r.key) == 0
    ensures r == null ==> Plug(p, Leaf) == head.tree && parent == ParentOf(p) && Leads(head.cmp, p, key)
    ensures r == null && !p.Top? ==> (p.InLeft? <==> comp < 0)
  {
    var tmp := head.root;
    parent, comp := null, 0;
    ghost var t;
    p, t := Top, head.tree;
    while tmp != null
      invariant Plug(p, t) == head.tree && tmp == RootOf(t) && parent == ParentOf(p)
      invariant Leads(head.cmp, p, key) && (!p.Top? ==> (p.InLeft? <==> comp < 0))
      decreases t
    {
      parent := tmp;
      head.ReadIn(p, t);
      DescendStep(head.cmp, head.tree, p, t, key);
      comp := head.cmp(key, parent.key);
      if comp < 0 {
        tmp := tmp.left;
        p, t := InLeft(p, t.node, t.color, t.right), t.left;
      } else if comp > 0 {
        tmp := tmp.right;
        p, t := InRight(p, t.left, t.node, t.color), t.right;
      } else {
        return tmp, parent, comp, p;
      }
    }
    return null, parent, comp, p;
  }

  /** An equal element, or the place for a new one. */
  method Descend(head: Head, key: int) returns (r: Node?, parent: Node?, comp: int, ghost p: Path)
    requires head.Valid()
    ensures r != null ==> r in head.Elements() && head.cmp(key, r.key) == 0
    ensures r == null ==>
              && head.At(p, Leaf) && Plug(p, Leaf) == head.tree && parent == ParentOf(p)
              && Before(p) + After(p) == head.Elements() && Leads(head.cmp, p, key)
              && (!p.Top? ==> (p.InLeft? <==> comp < 0))
  {
    r, parent, comp, p := Search(head, key);
    if r == null {
      head.AtPlug(p, Leaf);
      InorderPlug(p, Leaf);
    }
  }

  /** `RB_INSERT` after its search loop. */
  method Place(head: Head, elm: Node, parent: Node?, comp: int, ghost p: Path) returns (ghost i: nat)
    requires head.Valid() && elm !in head.nodes
    requires head.At(p, Leaf) && Plug(p, Leaf) == head.tree && parent == ParentOf(p)
    requires Before(p) + After(p) == head.Elements() && Leads(head.cmp, p, elm.key)
    requires !p.Top? ==> (p.InLeft? <==> comp < 0)
    modifies head`root, head`nodes, head`tree, head.nodes, elm
    ensures head.Valid() && head.nodes == old(head.nodes) + {elm}
    ensures i <= |old(head.Elements())| && head.Elements() == InsertAt(old(head.Elements()), i, elm)
  {
    i := |Before(p)|;
    PlaceFound(head.cmp, head.Elements(), p, elm);
    PlugFits(p, Leaf);
    head.Attach(elm, parent, comp, p);
    ghost var tree := InsertColor(head, elm, p, Nd(Leaf, elm, Red, Leaf), 0);
    head.Record(tree);
  }

  /**
   Ascending order decides where the element goes; an equal key stops the descent. An element that is in
   the tree already is the one that stops its own descent.
   */
  method Insert(head: Head, elm: Node) returns (r: Node?)
    requires head.Valid()
    modifies head`root, head`nodes, head`tree, head.nodes, elm
    ensures head.Valid()
    ensures r != null ==>
              && r in old(head.Elements()) && head.cmp(elm.key, r.key) == 0
              && head.tree == old(head.tree) && head.nodes == old(head.nodes) && head.Snap() == old(head.Snap())
    ensures elm in old(head.nodes) ==> r == elm
    ensures r == null ==>
              && head.nodes == old(head.nodes) + {elm}
              && (forall n :: n in old(head.Elements()) ==> head.cmp(elm.key, n.key) != 0)
              && exists i: nat ::
                   i <= |old(head.Elements())| && head.Elements() == InsertAt(old(head.Elements()), i, elm)
  {
    var parent, comp;
    ghost var p;
    r, parent, comp, p := Descend(head, elm.key);
    ElementsAreNodes(head, elm);
    if r != null {
      OnlyItself(head.cmp, head.Elements(), elm, r);
      return;
    }
    PlaceFound(head.cmp, head.Elements(), p, elm);
    ghost var i := Place(head, elm, parent, comp, p);
  }

  lemma {:induction false} ElementsAreNodes(head: Head, elm: Node)
    requires head.Valid()
    ensures elm in head.nodes <==> elm in head.Elements()
    ensures head.cmp(elm.key, elm.key) == 0
  {
    assert elm in head.nodes <==> elm in head.Snap();
    assert elm in head.Snap() <==> elm in Nodes(head.tree);
    NodesInorder(head.tree);
  }

  /** Of two elements of the tree with equal keys there is only one. */
  lemma {:induction false} OnlyItself(cmp: Comparator, s: seq<Node>, elm: Node, r: Node)
    requires TotalOrder(cmp) && Sorted(cmp, s) && r in s && cmp(elm.key, r.key) == 0
    ensures elm in s ==> r == elm
  {
    if elm in s {
      var i, j :| 0 <= i < |s| && 0 <= j < |s| && s[i] == elm && s[j] == r;
    }
  }

  lemma {:induction false} PlaceFound(cmp: Comparator, s: seq<Node>, p: Path, elm: Node)
    requires TotalOrder(cmp) && Sorted(cmp, s) && s == Before(p) + After(p) && Leads(cmp, p, elm.key)
    ensures |Before(p)| <= |s|
    ensures Spread(p, Nd(Leaf, elm, Red, Leaf)) == InsertAt(s, |Before(p)|, elm)
    ensures Sorted(cmp, InsertAt(s, |Before(p)|, elm))
    ensures forall n :: n in s ==> cmp(elm.key, n.key) != 0
  {
    SortedInsert(cmp, Before(p), elm, After(p));
    assert Inorder(Nd(Leaf, elm, Red, Leaf)) == [elm];
    assert s[..|Before(p)|] == Before(p) && s[|Before(p)|..] == After(p);
    forall n | n in s ensures cmp(elm.key, n.key) != 0 {
      assert n in Before(p) || n in After(p);
    }
  }
}
