/** The read-only operations: search by the comparator, and stepping by links alone. */
module RbSearch {
  import opened Powers
  import opened RbShape
  import opened RbHeap
  import opened RbOrder

  /** Everything is on one side of `key`, so an empty subtree at the focus ends the search. */
  lemma {:induction false} NotFound(cmp: Comparator, p: Path, s: seq<Node>, key: int)
    requires TotalOrder(cmp) && s == Spread(p, Leaf) && Leads(cmp, p, key)
    ensures forall n :: n in s ==> cmp(key, n.key) != 0
  {
    forall n | n in s ensures cmp(key, n.key) != 0 {
      assert n in Before(p) || n in After(p);
    }
  }

  function Square(n: nat): nat {
    n * n
  }

  /** A search of `steps` rounds in `n` elements takes at most `2 * log2(n + 1)` of them. */
  ghost predicate Logarithmic(steps: nat, n: nat) {
    Pow2(steps) <= Square(n + 1)
  }

  lemma {:induction false} DepthIsLogarithmic(p: Path, t: Tree, steps: nat)
    requires RedBlack(Plug(p, t)) && steps <= Depth(p) + Height(t)
    ensures Logarithmic(steps, |Inorder(Plug(p, t))|)
  {
    DepthPlusHeight(p, t);
    Pow2Monotone(steps, Height(Plug(p, t)));
    HeightBound(Plug(p, t));
  }

  /** `RB_FIND`, with the number of its rounds. */
  method Find(head: Head, key: int) returns (r: Node?, ghost steps: nat)
    requires head.Valid()
    ensures r != null ==> r in head.Elements() && head.cmp(key, r.key) == 0
    ensures r == null ==> forall n :: n in head.Elements() ==> head.cmp(key, n.key) != 0
    ensures Logarithmic(steps, |head.Elements()|)
  {
    var tmp := head.root;
    ghost var p, t := Top, head.tree;
    steps := 0;
    while tmp != null
      invariant Plug(p, t) == head.tree && tmp == RootOf(t) && steps == Depth(p)
      invariant Leads(head.cmp, p, key)
      decreases t
    {
      head.ReadIn(p, t);
      DescendStep(head.cmp, head.tree, p, t, key);
      var comp := head.cmp(key, tmp.key);
      steps := steps + 1;
      if comp < 0 {
        tmp := tmp.left;
        p, t := InLeft(p, t.node, t.color, t.right), t.left;
      } else if comp > 0 {
        tmp := tmp.right;
        p, t := InRight(p, t.left, t.node, t.color), t.right;
      } else {
        DepthIsLogarithmic(p, t, steps);
        return tmp, steps;
      }
    }
    InorderPlug(p, t);
    NotFound(head.cmp, p, head.Elements(), key);
    DepthIsLogarithmic(p, t, steps);
    return null, steps;
  }

  /** The least element that is not below `key`. */
  ghost predicate IsCeiling(cmp: Comparator, s: seq<Node>, key: int, r: Node?) {
    if r == null then forall n :: n in s ==> cmp(key, n.key) > 0
    else r in s && cmp(key, r.key) <= 0 && forall n :: n in s && cmp(key, n.key) <= 0 ==> cmp(r.key, n.key) <= 0
  }

  lemma {:induction false} CeilingAt(cmp: Comparator, a: seq<Node>, r: Node, b: seq<Node>, key: int)
    requires TotalOrder(cmp) && Sorted(cmp, a + [r] + b) && AllBelow(cmp, a, key) && cmp(key, r.key) <= 0
    ensures IsCeiling(cmp, a + [r] + b, key, r)
  {
    SortedAround(cmp, a, r, b);
    var s := a + [r] + b;
    assert s[|a|] == r;
    forall n | n in s && cmp(key, n.key) <= 0 ensures cmp(r.key, n.key) <= 0 {
      assert n in a || n == r || n in b;
    }
  }

  lemma {:induction false} NoCeiling(cmp: Comparator, s: seq<Node>, key: int)
    requires TotalOrder(cmp) && AllBelow(cmp, s, key)
    ensures IsCeiling(cmp, s, key, null)
  {}

  /** Where a search ends, the first element after the gap is the ceiling. */
  lemma {:induction false} CeilingOfPath(cmp: Comparator, p: Path, s: seq<Node>, key: int)
    requires TotalOrder(cmp) && Leads(cmp, p, key) && s == Before(p) + After(p) && Sorted(cmp, s)
    ensures IsCeiling(cmp, s, key, FirstOf(After(p)))
  {
    if After(p) == [] {
      NoCeiling(cmp, s, key);
    } else {
      var r, rest := After(p)[0], After(p)[1..];
      assert s == Before(p) + [r] + rest;
      CeilingAt(cmp, Before(p), r, rest, key);
    }
  }

  /** `RB_NFIND`. */
  method NFind(head: Head, key: int) returns (r: Node?, ghost steps: nat)
    requires head.Valid()
    ensures IsCeiling(head.cmp, head.Elements(), key, r)
    ensures Logarithmic(steps, |head.Elements()|)
  {
    var tmp, res := head.root, null;
    ghost var p, t := Top, head.tree;
    steps := 0;
    while tmp != null
      invariant Plug(p, t) == head.tree && tmp == RootOf(t) && steps == Depth(p)
      invariant Leads(head.cmp, p, key)
      invariant res == FirstOf(After(p))
      decreases t
    {
      head.ReadIn(p, t);
      DescendStep(head.cmp, head.tree, p, t, key);
      var comp := head.cmp(key, tmp.key);
      steps := steps + 1;
      if comp < 0 {
        res := tmp;
        tmp := tmp.left;
        p, t := InLeft(p, t.node, t.color, t.right), t.left;
      } else if comp > 0 {
        tmp := tmp.right;
        p, t := InRight(p, t.left, t.node, t.color), t.right;
      } else {
        InorderPlug(p, t);
        EqualIsCeiling(head.cmp, p, t, key);
        DepthIsLogarithmic(p, t, steps);
        return tmp, steps;
      }
    }
    DepthIsLogarithmic(p, t, steps);
    InorderPlug(p, t);
    CeilingOfPath(head.cmp, p, head.Elements(), key);
    return res, steps;
  }

  ghost function FirstOf(s: seq<Node>): Node? {
    if s == [] then null else s[0]
  }

  ghost function LastOf(s: seq<Node>): Node? {
    if s == [] then null else s[|s| - 1]
  }

  lemma {:induction false} EqualIsCeiling(cmp: Comparator, p: Path, t: Tree, key: int)
    requires TotalOrder(cmp) && t.Nd? && cmp(key, t.node.key) == 0 && Sorted(cmp, Spread(p, t))
    ensures IsCeiling(cmp, Spread(p, t), key, t.node)
  {
    var a, b := Before(p) + Inorder(t.left), Inorder(t.right) + After(p);
    assert Spread(p, t) == a + [t.node] + b;
    SortedAround(cmp, a, t.node, b);
    forall n | n in a ensures cmp(n.key, key) < 0 {
      Transitive(cmp, n.key, t.node.key, key);
    }
    CeilingAt(cmp, a, t.node, b, key);
  }

  ghost function ElementAt(s: seq<Node>, i: int): Node? {
    if 0 <= i < |s| then s[i] else null
  }

  lemma Neighbours(a: seq<Node>, n: Node, b: seq<Node>)
    ensures ElementAt(a + [n] + b, |a| + 1) == FirstOf(b) && ElementAt(a + [n] + b, |a| - 1) == LastOf(a)
  {}

  lemma {:induction false} Place(p: Path, t: Tree, s: seq<Node>, i: nat)
    requires t.Nd? && s == Inorder(Plug(p, t)) && Distinct(Plug(p, t)) && i < |s| && s[i] == t.node
    ensures s == (Before(p) + Inorder(t.left)) + [t.node] + (Inorder(t.right) + After(p))
    ensures i == |Before(p) + Inorder(t.left)|
  {
    InorderPlug(p, t);
    var a, b := Before(p) + Inorder(t.left), Inorder(t.right) + After(p);
    SpreadAround(p, t);
    NodesInorder(Plug(p, t));
    OnlyPlace(a, t.node, b, i);
  }

  lemma OnlyPlace(a: seq<Node>, n: Node, b: seq<Node>, i: nat)
    requires i < |a + [n] + b| && (a + [n] + b)[i] == n
    requires forall x, y :: 0 <= x < y < |a + [n] + b| ==> (a + [n] + b)[x] != (a + [n] + b)[y]
    ensures i == |a|
  {
    assert (a + [n] + b)[|a|] == n;
  }

  /** The zipper for the element at index `i`, and what is next to it in the order. */
  lemma {:induction false} Locate(tree: Tree, i: nat) returns (p: Path, t: Tree)
    requires Distinct(tree) && i < |Inorder(tree)|
    ensures Plug(p, t) == tree && t.Nd? && t.node == Inorder(tree)[i]
    ensures ElementAt(Inorder(tree), i + 1) == FirstOf(Inorder(t.right) + After(p))
    ensures ElementAt(Inorder(tree), i - 1) == LastOf(Before(p) + Inorder(t.left))
  {
    NodesInorder(tree);
    p, t := FocusOn(tree, Inorder(tree)[i]);
    Place(p, t, Inorder(tree), i);
    Neighbours(Before(p) + Inorder(t.left), t.node, Inorder(t.right) + After(p));
  }

  /** The leftmost node of a subtree. */
  method Leftmost(elm0: Node, ghost head: Head, ghost b: Path, ghost f0: Tree)
      returns (elm: Node, ghost q: Path, ghost f: Tree)
    requires head.At(Top, Plug(b, f0)) && f0.Nd? && f0.node == elm0
    ensures Plug(q, f) == f0 && Before(q) == [] && f.Nd? && f.left.Leaf? && f.node == elm
    ensures elm == FirstOf(Inorder(f0))
  {
    elm := elm0;
    q, f := Top, f0;
    head.ReadIn(b, f);
    while elm.left != null
      invariant Plug(q, f) == f0 && Before(q) == [] && f.Nd? && f.node == elm
      invariant elm in head.nodes && elm.left == RootOf(f.left)
      decreases f
    {
      elm := elm.left;
      q, f := InLeft(q, f.node, f.color, f.right), f.left;
      PlugAppend(q, b, f);
      head.ReadIn(Append(q, b), f);
    }
    InorderPlug(q, f);
    assert f.left.Leaf? ==> Inorder(f) == [f.node] + Inorder(f.right);
    assert f.right.Leaf? ==> Inorder(f) == Inorder(f.left) + [f.node];
  }

  /** Up through parents of which the focus is the right child, then once more. */
  method ClimbRight(elm0: Node, ghost head: Head, ghost p0: Path, ghost t0: Tree) returns (r: Node?)
    requires head.At(Top, Plug(p0, t0)) && t0.Nd? && t0.node == elm0
    ensures r == FirstOf(After(p0))
  {
    var elm := elm0;
    ghost var p, t := p0, t0;
    head.ReadParentIn(p, t);
    if elm.parent != null && elm == elm.parent.left {
      return elm.parent;
    }
    while elm.parent != null && elm == elm.parent.right
      invariant Plug(p, t) == Plug(p0, t0) && t.Nd? && t.node == elm && After(p) == After(p0)
      invariant elm in head.nodes && elm.parent == ParentOf(p) && (!p.Top? ==> p.node in head.nodes)
      invariant p.InRight? <==> !p.Top? && p.node.right == elm
      decreases p
    {
      elm := elm.parent;
      p, t := p.up, Raise(p, t);
      head.ReadParentIn(p, t);
    }
    return elm.parent;
  }

  /** `RB_NEXT`: from the links alone, the neighbour in the order. */
  method Next(elm: Node, ghost head: Head, ghost i: nat) returns (r: Node?)
    requires head.Valid() && i < |head.Elements()| && head.Elements()[i] == elm
    ensures r == ElementAt(head.Elements(), i + 1)
  {
    ghost var p, t := Locate(head.tree, i);
    head.ReadIn(p, t);
    ghost var q, f;
    if elm.right != null {
      r, q, f := Leftmost(elm.right, head, InRight(p, t.left, elm, t.color), t.right);
    } else {
      r := ClimbRight(elm, head, p, t);
    }
  }

  /** The rightmost node of a subtree. */
  method Rightmost(elm0: Node, ghost head: Head, ghost b: Path, ghost f0: Tree)
      returns (elm: Node, ghost q: Path, ghost f: Tree)
    requires head.At(Top, Plug(b, f0)) && f0.Nd? && f0.node == elm0
    ensures Plug(q, f) == f0 && After(q) == [] && f.Nd? && f.right.Leaf? && f.node == elm
    ensures elm == LastOf(Inorder(f0))
  {
    elm := elm0;
    q, f := Top, f0;
    head.ReadIn(b, f);
    while elm.right != null
      invariant Plug(q, f) == f0 && After(q) == [] && f.Nd? && f.node == elm
      invariant elm in head.nodes && elm.right == RootOf(f.right)
      decreases f
    {
      elm := elm.right;
      q, f := InRight(q, f.left, f.node, f.color), f.right;
      PlugAppend(q, b, f);
      head.ReadIn(Append(q, b), f);
    }
    InorderPlug(q, f);
    assert f.left.Leaf? ==> Inorder(f) == [f.node] + Inorder(f.right);
    assert f.right.Leaf? ==> Inorder(f) == Inorder(f.left) + [f.node];
  }

  /** Up through parents of which the focus is the left child, then once more. */
  method ClimbLeft(elm0: Node, ghost head: Head, ghost p0: Path, ghost t0: Tree) returns (r: Node?)
    requires head.At(Top, Plug(p0, t0)) && t0.Nd? && t0.node == elm0
    ensures r == LastOf(Before(p0))
  {
    var elm := elm0;
    ghost var p, t := p0, t0;
    head.ReadParentIn(p, t);
    if elm.parent != null && elm == elm.parent.right {
      return elm.parent;
    }
    while elm.parent != null && elm == elm.parent.left
      invariant Plug(p, t) == Plug(p0, t0) && t.Nd? && t.node == elm && Before(p) == Before(p0)
      invariant elm in head.nodes && elm.parent == ParentOf(p) && (!p.Top? ==> p.node in head.nodes)
      invariant p.InLeft? <==> !p.Top? && p.node.left == elm
      decreases p
    {
      elm := elm.parent;
      p, t := p.up, Raise(p, t);
      head.ReadParentIn(p, t);
    }
    return elm.parent;
  }

  /** `RB_PREV`: from the links alone, the neighbour in the order. */
  method Prev(elm: Node, ghost head: Head, ghost i: nat) returns (r: Node?)
    requires head.Valid() && i < |head.Elements()| && head.Elements()[i] == elm
    ensures r == ElementAt(head.Elements(), i - 1)
  {
    ghost var p, t := Locate(head.tree, i);
    head.ReadIn(p, t);
    ghost var q, f;
    if elm.left != null {
      r, q, f := Rightmost(elm.left, head, InLeft(p, elm, t.color, t.right), t.left);
    } else {
      r := ClimbLeft(elm, head, p, t);
    }
  }

  /** `RB_MINMAX`: a negative `val` asks for the least element, any other for the greatest. */
  method MinMax(head: Head, val: int) returns (r: Node?)
    requires head.Valid()
    ensures r == if val < 0 then FirstOf(head.Elements()) else LastOf(head.Elements())
  {
    var tmp := head.root;
    r := null;
    ghost var p, t := Top, head.tree;
    while tmp != null
      invariant Plug(p, t) == head.tree && tmp == RootOf(t) && r == ParentOf(p)
      invariant if val < 0 then Before(p) == [] && p.Top? == (r == null) && r == FirstOf(After(p))
                else After(p) == [] && p.Top? == (r == null) && r == LastOf(Before(p))
      decreases t
    {
      r := tmp;
      head.ReadIn(p, t);
      if val < 0 {
        tmp := tmp.left;
        p, t := InLeft(p, t.node, t.color, t.right), t.left;
      } else {
        tmp := tmp.right;
        p, t := InRight(p, t.left, t.node, t.color), t.right;
      }
    }
    InorderPlug(p, t);
  }

  /** `RB_FOREACH`: the loop from `RB_MIN` by `RB_NEXT`. */
  method Foreach(head: Head) returns (visited: seq<Node>)
    requires head.Valid()
    ensures visited == head.Elements()
  {
    visited := [];
    ghost var s, i := head.Elements(), 0;
    var x := MinMax(head, -1);
    while x != null
      invariant i <= |s| && visited == s[..i] && x == ElementAt(s, i)
      decreases |s| - i
    {
      visited := visited + [x];
      x := Next(x, head, i);
      i := i + 1;
    }
  }

  /** `RB_FOREACH_REVERSE`: the loop from `RB_MAX` by `RB_PREV`. */
  method ForeachReverse(head: Head) returns (visited: seq<Node>)
    requires head.Valid()
    ensures |visited| == |head.Elements()|
    ensures forall i :: 0 <= i < |visited| ==> visited[i] == head.Elements()[|visited| - 1 - i]
  {
    visited := [];
    ghost var s, k := head.Elements(), |head.Elements()| - 1;
    var x := MinMax(head, 1);
    while x != null
      invariant -1 <= k < |s| && |visited| == |s| - 1 - k && x == ElementAt(s, k)
      invariant forall i :: 0 <= i < |visited| ==> visited[i] == s[|s| - 1 - i]
      decreases k + 1
    {
      visited := visited + [x];
      x := Prev(x, head, k);
      k := k - 1;
    }
  }

  /** Stepping forth and back returns to the start, wherever there is a next element. */
  method NextThenPrev(elm: Node, ghost head: Head) returns (there: Node?, back: Node?)
    requires head.Valid() && elm in head.nodes
    ensures there != null ==> back == elm
    ensures there == null ==> elm == LastOf(head.Elements())
  {
    NodesInorder(head.tree);
    ghost var i :| 0 <= i < |head.Elements()| && head.Elements()[i] == elm;
    there := Next(elm, head, i);
    back := null;
    if there != null {
      back := Prev(there, head, i + 1);
    }
  }
}
