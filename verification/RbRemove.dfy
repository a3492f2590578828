/** `RB_REMOVE` and its fix-up loop. */
module RbRemove {
  import opened RbShape
  import opened RbHeap
  import opened RbOrder
  import RbSearch

  /**
   One black node is missing at the focus: what hangs there has black height `h`
   where `h + 1` is due. A red focus makes up for it once it is painted black.
   */
  ghost predicate Lacking(p: Path, t: Tree, h: nat) {
    PathFits(p, h + 1) && if IsRed(t) then Fits(t.(color := Black), h + 1) else Fits(t, h)
  }

  // ------------------------------------------ the focus is a left child

  /** A black sibling over a red outer child has a black node to spare. */
  lemma {:induction false} BorrowLeft(u: Path, t: Tree, n: Node, cp: Color, b: Tree, s: Node, d: Tree, h: nat)
    requires PathFits(InLeft(u, n, cp, Nd(b, s, Black, d)), h + 1)
    requires Fits(t, h) && !IsRed(t) && IsRed(d)
    ensures var w := Nd(Nd(t, n, Black, b), s, cp, d.(color := Black));
            RedBlack(Plug(u, w)) && Spread(u, w) == Spread(u, Nd(t, n, cp, Nd(b, s, Black, d)))
  {
    var x, d' := Nd(t, n, Black, b), d.(color := Black);
    assert Fits(Nd(b, s, Black, d), h + 1) && Fits(b, h) && Fits(d, h);
    assert Fits(x, h + 1) && Fits(d', h + 1);
    FitsPlug(u, Nd(x, s, cp, d'), h + 1 + Weight(cp));
    InorderRotation(t, n, cp, b, s, Black, d);
    assert Inorder(x) == Inorder(Nd(t, n, cp, b)) && Inorder(d') == Inorder(d);
  }

  method FinishLeft(head: Head, parent: Node, tmp: Node, ghost u: Path, ghost t: Tree, ghost cp: Color,
                    ghost b: Tree, ghost d: Tree)
    requires head.At(u, Nd(t, parent, cp, Nd(b, tmp, Black, d))) && d.Nd?
    modifies head`root, head.nodes
    ensures head.nodes == old(head.nodes)
    ensures head.At(u, Nd(Nd(t, parent, Black, b), tmp, cp, d.(color := Black)))
  {
    ghost var w := Nd(t, parent, cp, Nd(b, tmp, Black, d));
    head.Read(u, w);
    head.ReadChildren(u, w);
    head.RecolorChild(tmp, parent.color, u, w);
    head.Recolor(parent, Black, u, Nd(t, parent, cp, Nd(b, tmp, cp, d)));
    ghost var q := InRight(u, t, parent, Black);
    head.Ascend(q, Nd(b, tmp, cp, d));
    head.ReadChildren(q, Nd(b, tmp, cp, d));
    if tmp.right != null {
      head.RecolorChild(tmp.right, Black, q, Nd(b, tmp, cp, d));
    }
    head.Ascend(q, Nd(b, tmp, cp, d.(color := Black)));
    head.RotateLeft(parent, u, t, Black, b, tmp, cp, d.(color := Black));
  }

  lemma {:induction false} TurnedLeft(u: Path, n: Node, cp: Color, b: Tree, s: Node, d: Tree, h: nat)
    requires PathFits(InLeft(u, n, cp, Nd(b, s, Black, d)), h + 1) && IsRed(b) && !IsRed(d)
    ensures var d' := Nd(b.right, s, Red, d); var x := Nd(b.left, b.node, Black, d');
            PathFits(InLeft(u, n, cp, x), h + 1) && Inorder(x) == Inorder(Nd(b, s, Black, d))
  {
    var x := Nd(b, s, Black, d);
    assert Fits(x, h + 1) && Fits(b, h) && Fits(d, h);
    assert Fits(Nd(b.right, s, Red, d), h);
    InorderRotation(b.left, b.node, Red, b.right, s, Black, d);
    assert Inorder(Nd(b.right, s, Red, d)) == Inorder(Nd(b.right, s, Black, d));
  }

  /** A red inner child of the sibling is rotated outward. */
  method TurnLeft(head: Head, parent: Node, tmp0: Node, ghost u: Path, ghost t: Tree, ghost cp: Color,
                  ghost b: Tree, ghost d: Tree)
    returns (tmp: Node)
    requires head.At(u, Nd(t, parent, cp, Nd(b, tmp0, Black, d))) && b.Nd?
    modifies head`root, head.nodes
    ensures head.nodes == old(head.nodes) && tmp == b.node
    ensures head.At(u, Nd(t, parent, cp, Nd(b.left, b.node, Black, Nd(b.right, tmp0, Red, d))))
  {
    ghost var q, s := InRight(u, t, parent, cp), Nd(b, tmp0, Black, d);
    head.Ascend(q, s);
    head.ReadChildren(q, s);
    var oleft := tmp0.left;
    if oleft != null {
      head.RecolorChild(oleft, Black, q, s);
    }
    head.Recolor(tmp0, Red, q, Nd(b.(color := Black), tmp0, Black, d));
    head.RotateRight(tmp0, q, b.left, b.node, Black, b.right, Red, d);
    ghost var x := Nd(b.left, b.node, Black, Nd(b.right, tmp0, Red, d));
    head.ReadParent(q, x);
    head.Ascend(q, x);
    tmp := parent.right;
  }

  lemma {:induction false} UncoveredLeft(p: Path, t: Tree, h: nat)
    requires Lacking(p, t, h) && !IsRed(t) && p.InLeft? && IsRed(p.right)
    ensures p.color.Black? && p.right.left.Nd?
    ensures var p' := InLeft(InLeft(p.up, p.right.node, Black, p.right.right), p.node, Red, p.right.left);
            && Lacking(p', t, h) && !IsRed(p'.right) && Spread(p', t) == Spread(p, t)
            && Spread(p'.up, Raise(p', t)) == Spread(p', t)
            && Spread(p'.up.up, Raise(p'.up, Raise(p', t))) == Spread(p', t)
  {
    var b, d := p.right.left, p.right.right;
    var q := InLeft(p.up, p.right.node, Black, d);
    var p' := InLeft(q, p.node, Red, b);
    SpreadRaise(p, t);
    SpreadRaise(p', t);
    SpreadRaise(q, Raise(p', t));
    InorderRotation(t, p.node, Red, b, p.right.node, Black, d);
    assert Inorder(Nd(t, p.node, Red, Nd(b, p.right.node, Black, d))) == Inorder(Raise(p, t)) by {
      assert Inorder(Nd(b, p.right.node, Black, d)) == Inorder(p.right);
    }
    assert Fits(p.right, h + 1) && Fits(b, h + 1) && Fits(d, h + 1) && PathFits(q, h + 1);
  }

  /** A red sibling is rotated above the parent, which leaves a black one. */
  method UncoverLeft(head: Head, parent: Node, tmp0: Node, ghost p: Path, ghost t: Tree)
    returns (tmp: Node?, ghost p': Path)
    requires head.At(p, t) && p.InLeft? && p.right.Nd? && parent == p.node && tmp0 == p.right.node
    modifies head`root, head.nodes
    ensures head.nodes == old(head.nodes)
    ensures p' == InLeft(InLeft(p.up, tmp0, Black, p.right.right), parent, Red, p.right.left)
    ensures head.At(p', t) && tmp == RootOf(p.right.left)
  {
    ghost var u, b, d := p.up, p.right.left, p.right.right;
    head.Ascend(p, t);
    head.RecolorChild(tmp0, Black, u, Raise(p, t));
    head.Recolor(parent, Red, u, Nd(t, parent, p.color, Nd(b, tmp0, Black, d)));
    head.RotateLeft(parent, u, t, Red, b, tmp0, Black, d);
    ghost var q, x := InLeft(u, tmp0, Black, d), Nd(t, parent, Red, b);
    p' := InLeft(q, parent, Red, b);
    head.Ascend(q, x);
    head.Ascend(p', t);
    head.ReadParent(p', t);
    tmp := parent.right;
  }

  /** The loop body when the focus is a left child; `done` stands for the `break`. */
  method FixLeft(head: Head, parent: Node, ghost p: Path, ghost t: Tree, ghost h: nat)
    returns (done: bool, ghost p': Path, ghost t': Tree, ghost h': nat)
    requires head.At(p, t) && Lacking(p, t, h) && !IsRed(t) && p.InLeft? && parent == p.node
    modifies head`root, head.nodes
    ensures head.nodes == old(head.nodes)
    ensures head.At(p', t') && Spread(p', t') == Spread(p, t)
    ensures done ==> RedBlack(Plug(p', t'))
    ensures !done ==> Lacking(p', t', h') && RootOf(t') == parent && (IsRed(t') || Depth(p') < Depth(p))
  {
    head.ReadParent(p, t);
    head.Ascend(p, t);
    head.ReadChildren(p.up, Raise(p, t));
    var tmp := parent.right;
    p' := p;
    if tmp.color == Red {
      UncoveredLeft(p, t, h);
      tmp, p' := UncoverLeft(head, parent, tmp, p, t);
    }
    done, p', t', h' := SettleLeft(head, parent, tmp, p', t, h);
  }

  /** The loop body from where the sibling is known to be black. */
  method SettleLeft(head: Head, parent: Node, tmp0: Node, ghost p: Path, ghost t: Tree, ghost h: nat)
    returns (done: bool, ghost p': Path, ghost t': Tree, ghost h': nat)
    requires head.At(p, t) && Lacking(p, t, h) && !IsRed(t) && p.InLeft? && parent == p.node
    requires p.right.Nd? && p.right.color.Black? && tmp0 == p.right.node
    modifies head`root, head.nodes
    ensures head.nodes == old(head.nodes)
    ensures head.At(p', t') && Spread(p', t') == Spread(p, t)
    ensures done ==> RedBlack(Plug(p', t'))
    ensures !done ==> Lacking(p', t', h') && p' == p.up && RootOf(t') == parent && (IsRed(t') <==> p.color.Red?)
  {
    var tmp := tmp0;
    ghost var u, cp, b, d := p.up, p.color, p.right.left, p.right.right;
    ghost var q := InRight(u, t, parent, cp);
    SpreadRaise(p, t);
    head.Ascend(p, t);
    head.Ascend(q, p.right);
    head.ReadChildren(q, p.right);
    if (tmp.left == null || tmp.left.color == Black) && (tmp.right == null || tmp.right.color == Black) {
      head.RecolorChild(tmp, Red, u, Raise(p, t));
      done, p', t', h' := false, u, Nd(t, parent, cp, Nd(b, tmp, Red, d)), if cp.Red? then h else h + 1;
      RepaintLeft(p, t, h);
    } else {
      if tmp.right == null || tmp.right.color == Black {
        TurnedLeft(u, parent, cp, b, tmp, d, h);
        ghost var s := tmp;
        tmp := TurnLeft(head, parent, tmp, u, t, cp, b, d);
        b, d := b.left, Nd(b.right, s, Red, d);
      }
      FinishLeft(head, parent, tmp, u, t, cp, b, d);
      BorrowLeft(u, t, parent, cp, b, tmp, d, h);
      done, p', t', h' := true, u, Nd(Nd(t, parent, Black, b), tmp, cp, d.(color := Black)), 0;
    }
  }

  /** Painting the sibling red moves the lack one level up, or turns it into a red focus. */
  lemma {:induction false} RepaintLeft(p: Path, t: Tree, h: nat)
    requires Lacking(p, t, h) && !IsRed(t) && p.InLeft? && p.right.Nd? && p.right.color.Black?
    requires !IsRed(p.right.left) && !IsRed(p.right.right)
    ensures var t' := Nd(t, p.node, p.color, p.right.(color := Red));
            Lacking(p.up, t', if p.color.Red? then h else h + 1) && Spread(p.up, t') == Spread(p, t)
  {
    var s := p.right.(color := Red);
    assert Fits(p.right, h + 1) && Fits(s, h);
    assert Fits(Nd(t, p.node, Black, s), h + 1);
    SpreadRaise(p, t);
    assert Inorder(s) == Inorder(p.right);
  }

  // ------------------------------------------ the focus is a right child

  /** A black sibling over a red outer child has a black node to spare. */
  lemma {:induction false} BorrowRight(u: Path, t: Tree, n: Node, cp: Color, b: Tree, s: Node, d: Tree, h: nat)
    requires PathFits(InRight(u, Nd(d, s, Black, b), n, cp), h + 1)
    requires Fits(t, h) && !IsRed(t) && IsRed(d)
    ensures var w := Nd(d.(color := Black), s, cp, Nd(b, n, Black, t));
            RedBlack(Plug(u, w)) && Spread(u, w) == Spread(u, Nd(Nd(d, s, Black, b), n, cp, t))
  {
    var x, d' := Nd(b, n, Black, t), d.(color := Black);
    assert Fits(Nd(d, s, Black, b), h + 1) && Fits(b, h) && Fits(d, h);
    assert Fits(x, h + 1) && Fits(d', h + 1);
    FitsPlug(u, Nd(d', s, cp, x), h + 1 + Weight(cp));
    InorderRotation(d, s, Black, b, n, cp, t);
    assert Inorder(x) == Inorder(Nd(b, n, cp, t)) && Inorder(d') == Inorder(d);
  }

  method FinishRight(head: Head, parent: Node, tmp: Node, ghost u: Path, ghost t: Tree, ghost cp: Color,
                     ghost b: Tree, ghost d: Tree)
    requires head.At(u, Nd(Nd(d, tmp, Black, b), parent, cp, t)) && d.Nd?
    modifies head`root, head.nodes
    ensures head.nodes == old(head.nodes)
    ensures head.At(u, Nd(d.(color := Black), tmp, cp, Nd(b, parent, Black, t)))
  {
    ghost var w := Nd(Nd(d, tmp, Black, b), parent, cp, t);
    head.Read(u, w);
    head.ReadChildren(u, w);
    head.RecolorChild(tmp, parent.color, u, w);
    head.Recolor(parent, Black, u, Nd(Nd(d, tmp, cp, b), parent, cp, t));
    ghost var q := InLeft(u, parent, Black, t);
    head.Ascend(q, Nd(d, tmp, cp, b));
    head.ReadChildren(q, Nd(d, tmp, cp, b));
    if tmp.left != null {
      head.RecolorChild(tmp.left, Black, q, Nd(d, tmp, cp, b));
    }
    head.Ascend(q, Nd(d.(color := Black), tmp, cp, b));
    head.RotateRight(parent, u, d.(color := Black), tmp, cp, b, Black, t);
  }

  lemma {:induction false} TurnedRight(u: Path, n: Node, cp: Color, b: Tree, s: Node, d: Tree, h: nat)
    requires PathFits(InRight(u, Nd(d, s, Black, b), n, cp), h + 1) && IsRed(b) && !IsRed(d)
    ensures var d' := Nd(d, s, Red, b.left); var x := Nd(d', b.node, Black, b.right);
            PathFits(InRight(u, x, n, cp), h + 1) && Inorder(x) == Inorder(Nd(d, s, Black, b))
  {
    var x := Nd(d, s, Black, b);
    assert Fits(x, h + 1) && Fits(b, h) && Fits(d, h);
    assert Fits(Nd(d, s, Red, b.left), h);
    InorderRotation(d, s, Black, b.left, b.node, Red, b.right);
    assert Inorder(Nd(d, s, Red, b.left)) == Inorder(Nd(d, s, Black, b.left));
  }

  /** A red inner child of the sibling is rotated outward. */
  method TurnRight(head: Head, parent: Node, tmp0: Node, ghost u: Path, ghost t: Tree, ghost cp: Color,
                   ghost b: Tree, ghost d: Tree)
    returns (tmp: Node)
    requires head.At(u, Nd(Nd(d, tmp0, Black, b), parent, cp, t)) && b.Nd?
    modifies head`root, head.nodes
    ensures head.nodes == old(head.nodes) && tmp == b.node
    ensures head.At(u, Nd(Nd(Nd(d, tmp0, Red, b.left), b.node, Black, b.right), parent, cp, t))
  {
    ghost var q, s := InLeft(u, parent, cp, t), Nd(d, tmp0, Black, b);
    head.Ascend(q, s);
    head.ReadChildren(q, s);
    var oright := tmp0.right;
    if oright != null {
      head.RecolorChild(oright, Black, q, s);
    }
    head.Recolor(tmp0, Red, q, Nd(d, tmp0, Black, b.(color := Black)));
    head.RotateLeft(tmp0, q, d, Red, b.left, b.node, Black, b.right);
    ghost var x := Nd(Nd(d, tmp0, Red, b.left), b.node, Black, b.right);
    head.ReadParent(q, x);
    head.Ascend(q, x);
    tmp := parent.left;
  }

  lemma {:induction false} UncoveredRight(p: Path, t: Tree, h: nat)
    requires Lacking(p, t, h) && !IsRed(t) && p.InRight? && IsRed(p.left)
    ensures p.color.Black? && p.left.right.Nd?
    ensures var p' := InRight(InRight(p.up, p.left.left, p.left.node, Black), p.left.right, p.node, Red);
            && Lacking(p', t, h) && !IsRed(p'.left) && Spread(p', t) == Spread(p, t)
            && Spread(p'.up, Raise(p', t)) == Spread(p', t)
            && Spread(p'.up.up, Raise(p'.up, Raise(p', t))) == Spread(p', t)
  {
    var b, d := p.left.right, p.left.left;
    var q := InRight(p.up, d, p.left.node, Black);
    var p' := InRight(q, b, p.node, Red);
    SpreadRaise(p, t);
    SpreadRaise(p', t);
    SpreadRaise(q, Raise(p', t));
    InorderRotation(d, p.left.node, Black, b, p.node, Red, t);
    assert Inorder(Nd(Nd(d, p.left.node, Black, b), p.node, Red, t)) == Inorder(Raise(p, t)) by {
      assert Inorder(Nd(d, p.left.node, Black, b)) == Inorder(p.left);
    }
    assert Fits(p.left, h + 1) && Fits(b, h + 1) && Fits(d, h + 1) && PathFits(q, h + 1);
  }

  /** A red sibling is rotated above the parent, which leaves a black one. */
  method UncoverRight(head: Head, parent: Node, tmp0: Node, ghost p: Path, ghost t: Tree)
    returns (tmp: Node?, ghost p': Path)
    requires head.At(p, t) && p.InRight? && p.left.Nd? && parent == p.node && tmp0 == p.left.node
    modifies head`root, head.nodes
    ensures head.nodes == old(head.nodes)
    ensures p' == InRight(InRight(p.up, p.left.left, tmp0, Black), p.left.right, parent, Red)
    ensures head.At(p', t) && tmp == RootOf(p.left.right)
  {
    ghost var u, b, d := p.up, p.left.right, p.left.left;
    head.Ascend(p, t);
    head.RecolorChild(tmp0, Black, u, Raise(p, t));
    head.Recolor(parent, Red, u, Nd(Nd(d, tmp0, Black, b), parent, p.color, t));
    head.RotateRight(parent, u, d, tmp0, Black, b, Red, t);
    ghost var q, x := InRight(u, d, tmp0, Black), Nd(b, parent, Red, t);
    p' := InRight(q, b, parent, Red);
    head.Ascend(q, x);
    head.Ascend(p', t);
    head.ReadParent(p', t);
    tmp := parent.left;
  }

  /** The loop body when the focus is a right child; `done` stands for the `break`. */
  method FixRight(head: Head, parent: Node, ghost p: Path, ghost t: Tree, ghost h: nat)
    returns (done: bool, ghost p': Path, ghost t': Tree, ghost h': nat)
    requires head.At(p, t) && Lacking(p, t, h) && !IsRed(t) && p.InRight? && parent == p.node
    modifies head`root, head.nodes
    ensures head.nodes == old(head.nodes)
    ensures head.At(p', t') && Spread(p', t') == Spread(p, t)
    ensures done ==> RedBlack(Plug(p', t'))
    ensures !done ==> Lacking(p', t', h') && RootOf(t') == parent && (IsRed(t') || Depth(p') < Depth(p))
  {
    head.ReadParent(p, t);
    head.Ascend(p, t);
    head.ReadChildren(p.up, Raise(p, t));
    var tmp := parent.left;
    p' := p;
    if tmp.color == Red {
      UncoveredRight(p, t, h);
      tmp, p' := UncoverRight(head, parent, tmp, p, t);
    }
    done, p', t', h' := SettleRight(head, parent, tmp, p', t, h);
  }

  /** The loop body from where the sibling is known to be black. */
  method SettleRight(head: Head, parent: Node, tmp0: Node, ghost p: Path, ghost t: Tree, ghost h: nat)
    returns (done: bool, ghost p': Path, ghost t': Tree, ghost h': nat)
    requires head.At(p, t) && Lacking(p, t, h) && !IsRed(t) && p.InRight? && parent == p.node
    requires p.left.Nd? && p.left.color.Black? && tmp0 == p.left.node
    modifies head`root, head.nodes
    ensures head.nodes == old(head.nodes)
    ensures head.At(p', t') && Spread(p', t') == Spread(p, t)
    ensures done ==> RedBlack(Plug(p', t'))
    ensures !done ==> Lacking(p', t', h') && p' == p.up && RootOf(t') == parent && (IsRed(t') <==> p.color.Red?)
  {
    var tmp := tmp0;
    ghost var u, cp, b, d := p.up, p.color, p.left.right, p.left.left;
    ghost var q := InLeft(u, parent, cp, t);
    SpreadRaise(p, t);
    head.Ascend(p, t);
    head.Ascend(q, p.left);
    head.ReadChildren(q, p.left);
    if (tmp.left == null || tmp.left.color == Black) && (tmp.right == null || tmp.right.color == Black) {
      head.RecolorChild(tmp, Red, u, Raise(p, t));
      done, p', t', h' := false, u, Nd(Nd(d, tmp, Red, b), parent, cp, t), if cp.Red? then h else h + 1;
      RepaintRight(p, t, h);
    } else {
      if tmp.left == null || tmp.left.color == Black {
        TurnedRight(u, parent, cp, b, tmp, d, h);
        ghost var s := tmp;
        tmp := TurnRight(head, parent, tmp, u, t, cp, b, d);
        b, d := b.right, Nd(d, s, Red, b.left);
      }
      FinishRight(head, parent, tmp, u, t, cp, b, d);
      BorrowRight(u, t, parent, cp, b, tmp, d, h);
      done, p', t', h' := true, u, Nd(d.(color := Black), tmp, cp, Nd(b, parent, Black, t)), 0;
    }
  }

  /** Painting the sibling red moves the lack one level up, or turns it into a red focus. */
  lemma {:induction false} RepaintRight(p: Path, t: Tree, h: nat)
    requires Lacking(p, t, h) && !IsRed(t) && p.InRight? && p.left.Nd? && p.left.color.Black?
    requires !IsRed(p.left.left) && !IsRed(p.left.right)
    ensures var t' := Nd(p.left.(color := Red), p.node, p.color, t);
            Lacking(p.up, t', if p.color.Red? then h else h + 1) && Spread(p.up, t') == Spread(p, t)
  {
    var s := p.left.(color := Red);
    assert Fits(p.left, h + 1) && Fits(s, h);
    assert Fits(Nd(s, p.node, Black, t), h + 1);
    SpreadRaise(p, t);
    assert Inorder(s) == Inorder(p.left);
  }

  // ---------------------------------------------------------------- the loop

  /** `RB_REMOVE_COLOR`. */
  method RemoveColor(head: Head, parent0: Node?, elm0: Node?, ghost p0: Path, ghost t0: Tree, ghost h0: nat)
    returns (ghost tree: Tree)
    requires head.At(p0, t0) && Lacking(p0, t0, h0) && parent0 == ParentOf(p0) && elm0 == RootOf(t0)
    modifies head`root, head.nodes
    ensures head.nodes == old(head.nodes)
    ensures head.At(Top, tree) && RedBlack(tree) && Inorder(tree) == Spread(p0, t0)
  {
    var parent, elm := parent0, elm0;
    ghost var p, t, h, whole := p0, t0, h0, false;
    head.ReadFocus(p, t);
    while (elm == null || elm.color == Black) && elm != head.root
      invariant head.nodes == old(head.nodes)
      invariant head.At(p, t) && Lacking(p, t, h) && Spread(p, t) == Spread(p0, t0)
      invariant parent == ParentOf(p) && elm == RootOf(t) && (p.Top? <==> elm == head.root)
      invariant elm != null ==> elm in head.nodes && elm.color == t.color
      decreases if IsRed(t) then 0 else 1 + Depth(p)
    {
      head.ReadParent(p, t);
      SiblingExists(p, h);
      var done;
      if parent.left == elm {
        done, p, t, h := FixLeft(head, parent, p, t, h);
      } else {
        done, p, t, h := FixRight(head, parent, p, t, h);
      }
      if done {
        elm := head.root;
        whole := true;
        break;
      }
      elm := parent;
      head.ReadFocus(p, t);
      parent := elm.parent;
    }
    tree := PaintBlack(head, elm, p, t, h, whole);
  }

  /** The subtree beside a missing black node is never empty. */
  lemma {:induction false} SiblingExists(p: Path, h: nat)
    requires PathFits(p, h + 1)
    ensures p.InLeft? ==> p.right.Nd?
    ensures p.InRight? ==> p.left.Nd?
  {}

  /** The last statement of `RB_REMOVE_COLOR`, for each way of leaving its loop. */
  method PaintBlack(head: Head, elm: Node?, ghost p: Path, ghost t: Tree, ghost h: nat, ghost whole: bool)
    returns (ghost tree: Tree)
    requires head.At(p, t)
    requires if whole then RedBlack(Plug(p, t)) && elm == head.root else Lacking(p, t, h) && elm == RootOf(t)
    requires !whole ==> p.Top? || IsRed(t)
    modifies head.nodes`color
    ensures head.nodes == old(head.nodes)
    ensures head.At(Top, tree) && RedBlack(tree) && Inorder(tree) == Spread(p, t)
  {
    ghost var q, f := if whole then Top else p, if whole then Plug(p, t) else t;
    InorderPlug(p, t);
    head.AtPlug(p, t);
    if elm != null {
      head.Recolor(elm, Black, q, f);
      f := f.(color := Black);
    }
    head.AtPlug(q, f);
    InorderPlug(q, f);
    tree := Plug(q, f);
    if !whole {
      FitsPlug(q, f, if IsRed(t) then h + 1 else h);
      assert Inorder(f) == Inorder(t);
    }
  }

  // --------------------------------------------------------------- RB_REMOVE

  /** A node of the given colour has been taken out just above the focus. */
  ghost predicate Spliced(p: Path, f: Tree, color: Color, h: nat) {
    if color.Black? then Lacking(p, f, h) else PathFits(p, h) && Fits(f, h) && !IsRed(f)
  }

  lemma {:induction false} SpliceRules(p: Path, t: Tree)
    requires RedBlack(Plug(p, t)) && t.Nd? && (t.left.Leaf? || t.right.Leaf?)
    ensures Spliced(p, OnlyChild(t), t.color, BlackHeight(OnlyChild(t)))
  {
    var f := OnlyChild(t);
    PlugFits(p, t);
    FitsIff(f, BlackHeight(f));
    FitsIff(t, BlackHeight(t));
  }

  /** The `color` label of `RB_REMOVE`. */
  method Rebalance(head: Head, parent: Node?, child: Node?, color: Color, ghost p: Path, ghost f: Tree, ghost h: nat)
    returns (ghost tree: Tree)
    requires head.At(p, f) && Spliced(p, f, color, h) && parent == ParentOf(p) && child == RootOf(f)
    modifies head`root, head.nodes
    ensures head.nodes == old(head.nodes)
    ensures head.At(Top, tree) && RedBlack(tree) && Inorder(tree) == Spread(p, f)
  {
    if color == Black {
      tree := RemoveColor(head, parent, child, p, f, h);
    } else {
      tree := Plug(p, f);
      head.AtPlug(p, f);
      InorderPlug(p, f);
      FitsPlug(p, f, h);
    }
  }

  /** What taking out the node does to the in-order sequence. */
  lemma {:induction false} SpliceOrder(cmp: Comparator, p: Path, t: Tree, s: seq<Node>) returns (i: nat)
    requires t.Nd? && (t.left.Leaf? || t.right.Leaf?) && s == Inorder(Plug(p, t)) && Sorted(cmp, s)
    ensures i < |s| && s[i] == t.node
    ensures Spread(p, OnlyChild(t)) == RemoveAt(s, i) && Sorted(cmp, RemoveAt(s, i))
  {
    var a, b := Before(p) + Inorder(t.left), Inorder(t.right) + After(p);
    i := |a|;
    InorderPlug(p, t);
    SpliceSpread(p, t, a, b);
    RemoveAtMiddle(a, t.node, b);
    SortedRemoveAt(cmp, s, i);
  }

  lemma SpliceSpread(p: Path, t: Tree, a: seq<Node>, b: seq<Node>)
    requires t.Nd? && (t.left.Leaf? || t.right.Leaf?)
    requires a == Before(p) + Inorder(t.left) && b == Inorder(t.right) + After(p)
    ensures Spread(p, t) == a + [t.node] + b && Spread(p, OnlyChild(t)) == a + b
  {
  }

  /** `RB_REMOVE` of a node with at most one child. */
  method RemoveOuter(head: Head, elm: Node, child: Node?, ghost p: Path, ghost t: Tree) returns (ghost i: nat)
    requires head.Valid() && Plug(p, t) == head.tree && t.Nd? && t.node == elm
    requires (t.left.Leaf? || t.right.Leaf?) && child == RootOf(OnlyChild(t))
    modifies head`root, head`nodes, head`tree, head.nodes
    ensures head.Valid() && head.nodes == old(head.nodes) - {elm}
    ensures i < |old(head.Elements())| && old(head.Elements())[i] == elm
    ensures head.Elements() == RemoveAt(old(head.Elements()), i)
  {
    i := SpliceOrder(head.cmp, p, t, head.Elements());
    head.AtPlug(p, t);
    SpliceRules(p, t);
    head.Read(p, t);
    var parent, color := elm.parent, elm.color;
    head.Unlink(elm, child, parent, p, t);
    ghost var tree := Rebalance(head, parent, child, color, p, OnlyChild(t), BlackHeight(OnlyChild(t)));
    head.Record(tree);
  }

  lemma {:induction false} SpreadAppend(q: Path, b: Path)
    ensures Before(Append(q, b)) == Before(b) + Before(q) && After(Append(q, b)) == After(q) + After(b)
  {
    if !q.Top? {
      SpreadAppend(q.up, b);
    }
  }

  /** Replacing a node by its successor is taking it out of the in-order sequence. */
  lemma {:induction false} SuccessorOrder(cmp: Comparator, p: Path, t: Tree, q: Path, f: Tree, s: seq<Node>)
      returns (i: nat)
    requires t.Nd? && Plug(q, f) == t.right && Before(q) == [] && f.Nd? && f.left.Leaf?
    requires s == Inorder(Plug(p, t)) && Sorted(cmp, s)
    ensures i < |s| && s[i] == t.node
    ensures Spread(Append(q, InRight(p, t.left, f.node, t.color)), f.right) == RemoveAt(s, i)
    ensures Sorted(cmp, RemoveAt(s, i))
  {
    var a, b := Before(p) + Inorder(t.left), SuccessorTail(p, q, f);
    i := |a|;
    SuccessorSpread(p, t, q, f);
    RemoveAtMiddle(a, t.node, b);
    SortedRemoveAt(cmp, s, i);
  }

  ghost function SuccessorTail(p: Path, q: Path, f: Tree): seq<Node>
    requires f.Nd?
  {
    [f.node] + Inorder(f.right) + (After(q) + After(p))
  }

  lemma {:induction false} SuccessorSpread(p: Path, t: Tree, q: Path, f: Tree)
    requires t.Nd? && Plug(q, f) == t.right && Before(q) == [] && f.Nd? && f.left.Leaf?
    ensures Inorder(Plug(p, t)) == (Before(p) + Inorder(t.left)) + [t.node] + SuccessorTail(p, q, f)
    ensures Spread(Append(q, InRight(p, t.left, f.node, t.color)), f.right) ==
            (Before(p) + Inorder(t.left)) + SuccessorTail(p, q, f)
  {
    WholeSpread(p, t, q, f);
    SplicedSpread(p, t.left, q, f, t.color);
  }

  lemma {:induction false} WholeSpread(p: Path, t: Tree, q: Path, f: Tree)
    requires t.Nd? && Plug(q, f) == t.right && Before(q) == [] && f.Nd? && f.left.Leaf?
    ensures Inorder(Plug(p, t)) == (Before(p) + Inorder(t.left)) + [t.node] + SuccessorTail(p, q, f)
  {
    InorderPlug(p, t);
    InorderPlug(q, f);
    LeafFirst(f);
    Regroup(Before(p), Inorder(t.left), t.node, [f.node] + Inorder(f.right), After(q), After(p));
    assert Inorder(t.right) == ([f.node] + Inorder(f.right)) + After(q);
  }

  lemma {:induction false} SplicedSpread(p: Path, l: Tree, q: Path, f: Tree, c: Color)
    requires Before(q) == [] && f.Nd?
    ensures Spread(Append(q, InRight(p, l, f.node, c)), f.right) == (Before(p) + Inorder(l)) + SuccessorTail(p, q, f)
  {
    SpreadAppend(q, InRight(p, l, f.node, c));
    RegroupTail(Before(p) + Inorder(l), f.node, Inorder(f.right), After(q) + After(p));
  }

  lemma LeafFirst(f: Tree)
    requires f.Nd? && f.left.Leaf?
    ensures Inorder(f) == [f.node] + Inorder(f.right)
  {
  }

  lemma Regroup(a: seq<Node>, l: seq<Node>, n: Node, x: seq<Node>, y: seq<Node>, z: seq<Node>)
    ensures a + (l + [n] + (x + y)) + z == (a + l) + [n] + (x + (y + z))
  {
  }

  lemma RegroupTail(a: seq<Node>, m: Node, x: seq<Node>, z: seq<Node>)
    ensures ((a + [m]) + [] + x) + z == a + ([m] + x + z) == (a + [m]) + x + z
  {
  }

  /** The colour and balance rules do not look at which node is where. */
  lemma {:induction false} RenameFits(q: Path, p: Path, l: Tree, n: Node, m: Node, c: Color, h: nat)
    requires PathFits(Append(q, InRight(p, l, n, c)), h)
    ensures PathFits(Append(q, InRight(p, l, m, c)), h)
  {
    if !q.Top? {
      RenameFits(q.up, p, l, n, m, c, h + Weight(q.color));
    }
  }

  lemma {:induction false} SuccessorRules(p: Path, t: Tree, q: Path, f: Tree)
    requires RedBlack(Plug(p, t)) && t.Nd? && Plug(q, f) == t.right && f.Nd? && f.left.Leaf?
    ensures Plug(Append(q, InRight(p, t.left, t.node, t.color)), f) == Plug(p, t)
    ensures Spliced(Append(q, InRight(p, t.left, f.node, t.color)), f.right, f.color, BlackHeight(f.right))
  {
    var b, h := InRight(p, t.left, t.node, t.color), BlackHeight(f.right);
    PlugAppend(q, b, f);
    SpliceRules(Append(q, b), f);
    RenameFits(q, p, t.left, t.node, f.node, t.color, if f.color.Black? then h + 1 else h);
  }

  lemma {:induction false} AppendNode(q: Path, b: Path)
    requires !b.Top?
    ensures b.node in PathNodes(Append(q, b))
  {
    if !q.Top? {
      AppendNode(q.up, b);
    }
  }

  lemma {:induction false} AppendParent(q: Path, p: Path, l: Tree, n: Node, m: Node, c: Color)
    requires PathDistinct(Append(q, InRight(p, l, n, c)))
    ensures var up := ParentOf(Append(q, InRight(p, l, n, c)));
            up != null && ParentOf(Append(q, InRight(p, l, m, c))) == if up == n then m else up
  {
    if !q.Top? {
      AppendNode(q.up, InRight(p, l, n, c));
    }
  }

  method TakePlace(head: Head, target: Node, elm: Node, ghost p: Path, ghost l: Tree, ghost c: Color, ghost q: Path,
                   ghost x: Tree)
    requires head.At(Append(q, InRight(p, l, target, c)), x) && l.Nd? && elm !in head.nodes
    modifies head`root, head`nodes, head.nodes, elm
    ensures head.nodes == old(head.nodes) + {elm} - {target}
    ensures head.At(Append(q, InRight(p, l, elm, c)), x)
  {
    ghost var b, b' := InRight(p, l, target, c), InRight(p, l, elm, c);
    head.AtAppend(q, b, x);
    head.Ascend(b, Plug(q, x));
    head.Substitute(target, elm, p, l, c, Plug(q, x));
    head.Ascend(b', Plug(q, x));
    head.AtAppend(q, b', x);
  }

  /** The successor leaves its place and takes that of the removed node. */
  method Exchange(head: Head, target: Node, elm: Node, ghost p: Path, ghost t: Tree, ghost q: Path, ghost f: Tree)
    returns (parent: Node, child: Node?, color: Color)
    requires t.Nd? && t.left.Nd? && head.At(Append(q, InRight(p, t.left, target, t.color)), f)
    requires f.Nd? && f.left.Leaf? && f.node == elm
    modifies head`root, head`nodes, head.nodes
    ensures head.nodes == old(head.nodes) - {target}
    ensures parent == ParentOf(Append(q, InRight(p, t.left, elm, t.color)))
    ensures head.At(Append(q, InRight(p, t.left, elm, t.color)), f.right)
    ensures child == RootOf(f.right) && color == f.color
  {
    ghost var b := InRight(p, t.left, target, t.color);
    AppendParent(q, p, t.left, target, elm, t.color);
    AppendNode(q, b);
    head.Read(Append(q, b), f);
    child, color := elm.right, elm.color;
    var up := elm.parent;
    head.Unlink(elm, child, up, Append(q, b), f);
    parent := if elm.parent == target then elm else up;
    TakePlace(head, target, elm, p, t.left, t.color, q, f.right);
  }

  /** `RB_REMOVE` of a node with two children. */
  method RemoveInner(head: Head, target: Node, ghost p: Path, ghost t: Tree) returns (ghost i: nat)
    requires head.Valid() && Plug(p, t) == head.tree && t.Nd? && t.node == target && t.left.Nd? && t.right.Nd?
    modifies head`root, head`nodes, head`tree, head.nodes
    ensures head.Valid() && head.nodes == old(head.nodes) - {target}
    ensures i < |old(head.Elements())| && old(head.Elements())[i] == target
    ensures head.Elements() == RemoveAt(old(head.Elements()), i)
  {
    var elm;
    ghost var q, f;
    head.ReadIn(p, t);
    elm, q, f := RbSearch.Leftmost(target.right, head, InRight(p, t.left, target, t.color), t.right);
    i := SuccessorOrder(head.cmp, p, t, q, f, head.Elements());
    SuccessorRules(p, t, q, f);
    head.AtPlug(Append(q, InRight(p, t.left, target, t.color)), f);
    var parent, child, color := Exchange(head, target, elm, p, t, q, f);
    ghost var tree := Rebalance(head, parent, child, color,
              Append(q, InRight(p, t.left, elm, t.color)), f.right, BlackHeight(f.right));
    head.Record(tree);
  }

  method Remove(head: Head, elm: Node) returns (r: Node)
    requires head.Valid() && elm in head.nodes
    modifies head`root, head`nodes, head`tree, head.nodes
    ensures head.Valid() && head.nodes == old(head.nodes) - {elm} && r == elm
    ensures exists i: nat :: i < |old(head.Elements())| && old(head.Elements())[i] == elm &&
              head.Elements() == RemoveAt(old(head.Elements()), i)
  {
    ghost var p, t := FocusOn(head.tree, elm);
    head.ReadIn(p, t);
    ghost var i;
    if elm.left == null {
      i := RemoveOuter(head, elm, elm.right, p, t);
    } else if elm.right == null {
      i := RemoveOuter(head, elm, elm.left, p, t);
    } else {
      i := RemoveInner(head, elm, p, t);
    }
    r := elm;
  }
}
