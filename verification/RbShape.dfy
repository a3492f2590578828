/**
 The value-level theory of red-black trees: trees, zippers, the colour and
 balance invariants, and the in-order sequence.

 A `Path` is everything of a tree that is outside one focused subtree, innermost
 frame first, so it is exactly what a chain of parent pointers leads through.
 */
module RbShape {
  import opened Powers

  datatype Color = Red | Black

  /** An element with its `RB_ENTRY`; the comparator looks at `key` only. */
  class Node {
    const key: int
    var left: Node?
    var right: Node?
    var parent: Node?
    var color: Color

    constructor (key: int)
      ensures this.key == key
    {
      this.key := key;
      left, right, parent := null, null, null;
      color := Black;
    }
  }

  datatype Tree =
    | Leaf
    | Nd(left: Tree, node: Node, color: Color, right: Tree)

  datatype Path =
    | Top
    | InLeft(up: Path, node: Node, color: Color, right: Tree)
    | InRight(up: Path, left: Tree, node: Node, color: Color)

  /** The whole tree, when the subtree at the focus is `t`. */
  function Plug(p: Path, t: Tree): Tree
    decreases p
  {
    match p
    case Top => t
    case InLeft(up, n, c, r) => Plug(up, Nd(t, n, c, r))
    case InRight(up, l, n, c) => Plug(up, Nd(l, n, c, t))
  }

  function Depth(p: Path): nat {
    if p.Top? then 0 else 1 + Depth(p.up)
  }

  /** `inner` is a path within the subtree that hangs in the hole of `outer`. */
  function Append(inner: Path, outer: Path): Path {
    match inner
    case Top => outer
    case InLeft(up, n, c, r) => InLeft(Append(up, outer), n, c, r)
    case InRight(up, l, n, c) => InRight(Append(up, outer), l, n, c)
  }

  lemma {:induction false} PlugAppend(inner: Path, outer: Path, t: Tree)
    ensures Plug(Append(inner, outer), t) == Plug(outer, Plug(inner, t))
    decreases inner
  {
    match inner
    case Top =>
    case InLeft(up, n, c, r) => PlugAppend(up, outer, Nd(t, n, c, r));
    case InRight(up, l, n, c) => PlugAppend(up, outer, Nd(l, n, c, t));
  }

  // ---------------------------------------------------------------- contents

  function Inorder(t: Tree): seq<Node> {
    match t
    case Leaf => []
    case Nd(l, n, _, r) => Inorder(l) + [n] + Inorder(r)
  }

  function Before(p: Path): seq<Node> {
    match p
    case Top => []
    case InLeft(up, _, _, _) => Before(up)
    case InRight(up, l, n, _) => Before(up) + Inorder(l) + [n]
  }

  function After(p: Path): seq<Node> {
    match p
    case Top => []
    case InLeft(up, n, _, r) => [n] + Inorder(r) + After(up)
    case InRight(up, _, _, _) => After(up)
  }

  /** The in-order sequence of the whole, as seen from the focus. */
  function Spread(p: Path, t: Tree): seq<Node> {
    Before(p) + Inorder(t) + After(p)
  }

  /** The subtree with the parent of the focus as its root. */
  function Raise(p: Path, t: Tree): Tree
    requires !p.Top?
  {
    if p.InLeft? then Nd(t, p.node, p.color, p.right) else Nd(p.left, p.node, p.color, t)
  }

  lemma {:induction false} SpreadRaise(p: Path, t: Tree)
    requires !p.Top?
    ensures Spread(p.up, Raise(p, t)) == Spread(p, t)
  {
    if p.InLeft? {
      assert Before(p) + (Inorder(t) + [p.node] + Inorder(p.right)) + After(p.up)
          == Before(p) + Inorder(t) + ([p.node] + Inorder(p.right) + After(p.up));
    } else {
      assert Before(p.up) + (Inorder(p.left) + [p.node] + Inorder(t)) + After(p)
          == (Before(p.up) + Inorder(p.left) + [p.node]) + Inorder(t) + After(p);
    }
  }

  lemma {:induction false} InorderPlug(p: Path, t: Tree)
    ensures Inorder(Plug(p, t)) == Spread(p, t)
    decreases p
  {
    if p.Top? {
    } else {
      SpreadRaise(p, t);
      InorderPlug(p.up, Raise(p, t));
    }
  }

  lemma {:induction false} InorderRotation(a: Tree, lo: Node, cl: Color, b: Tree, hi: Node, ch: Color, d: Tree)
    ensures Inorder(Nd(Nd(a, lo, cl, b), hi, ch, d)) == Inorder(Nd(a, lo, cl, Nd(b, hi, ch, d)))
  {
    assert (Inorder(a) + [lo] + Inorder(b)) + [hi] + Inorder(d) == Inorder(a) + [lo] + (Inorder(b) + [hi] + Inorder(d));
  }

  ghost function Nodes(t: Tree): set<Node> {
    match t
    case Leaf => {}
    case Nd(l, n, _, r) => Nodes(l) + {n} + Nodes(r)
  }

  ghost function PathNodes(p: Path): set<Node> {
    match p
    case Top => {}
    case InLeft(up, n, _, r) => PathNodes(up) + {n} + Nodes(r)
    case InRight(up, l, n, _) => PathNodes(up) + {n} + Nodes(l)
  }

  /** No node occurs twice. */
  ghost predicate Distinct(t: Tree) {
    match t
    case Leaf => true
    case Nd(l, n, _, r) =>
      Distinct(l) && Distinct(r) && n !in Nodes(l) && n !in Nodes(r) && Nodes(l) !! Nodes(r)
  }

  ghost predicate PathDistinct(p: Path) {
    match p
    case Top => true
    case InLeft(up, n, _, r) =>
      PathDistinct(up) && Distinct(r) && n !in PathNodes(up) && n !in Nodes(r) && PathNodes(up) !! Nodes(r)
    case InRight(up, l, n, _) =>
      PathDistinct(up) && Distinct(l) && n !in PathNodes(up) && n !in Nodes(l) && PathNodes(up) !! Nodes(l)
  }

  /** Distinct nodes are distinct places of the in-order sequence. */
  lemma {:induction false} NodesInorder(t: Tree)
    ensures Nodes(t) == set n | n in Inorder(t)
    ensures Distinct(t) ==> forall i, j :: 0 <= i < j < |Inorder(t)| ==> Inorder(t)[i] != Inorder(t)[j]
  {
    if t.Nd? {
      NodesInorder(t.left);
      NodesInorder(t.right);
      var l, r := Inorder(t.left), Inorder(t.right);
      if Distinct(t) {
        assert forall x :: x in l ==> x in Nodes(t.left);
        DisjointConcat(l + [t.node], r);
        assert Inorder(t) == (l + [t.node]) + r;
      }
    }
  }

  lemma DisjointConcat(a: seq<Node>, b: seq<Node>)
    requires forall i, j :: 0 <= i < j < |a| ==> a[i] != a[j]
    requires forall i, j :: 0 <= i < j < |b| ==> b[i] != b[j]
    requires forall x :: x in a ==> x !in b
    ensures forall i, j :: 0 <= i < j < |a + b| ==> (a + b)[i] != (a + b)[j]
  {
    assert forall i :: 0 <= i < |a| ==> a[i] in a;
  }

  /** Every node of a tree is at the focus of some zipper for that tree. */
  lemma {:induction false} FocusOn(t: Tree, n: Node) returns (p: Path, f: Tree)
    requires n in Nodes(t)
    ensures f.Nd? && f.node == n && Plug(p, f) == t
  {
    if t.node == n {
      p, f := Top, t;
    } else if n in Nodes(t.left) {
      p, f := FocusOn(t.left, n);
      PlugAppend(p, InLeft(Top, t.node, t.color, t.right), f);
      p := Append(p, InLeft(Top, t.node, t.color, t.right));
    } else {
      p, f := FocusOn(t.right, n);
      PlugAppend(p, InRight(Top, t.left, t.node, t.color), f);
      p := Append(p, InRight(Top, t.left, t.node, t.color));
    }
  }

  // ------------------------------------------------- colour and balance rules

  predicate IsRed(t: Tree) {
    t.Nd? && t.color.Red?
  }

  predicate NoRedRed(t: Tree) {
    match t
    case Leaf => true
    case Nd(l, _, c, r) => NoRedRed(l) && NoRedRed(r) && (c.Red? ==> !IsRed(l) && !IsRed(r))
  }

  function Weight(c: Color): nat {
    if c.Black? then 1 else 0
  }

  /** Black nodes on the leftmost way down; on every way down when `Balanced`. */
  function BlackHeight(t: Tree): nat {
    match t
    case Leaf => 0
    case Nd(l, _, c, _) => BlackHeight(l) + Weight(c)
  }

  predicate Balanced(t: Tree) {
    match t
    case Leaf => true
    case Nd(l, _, _, r) => Balanced(l) && Balanced(r) && BlackHeight(l) == BlackHeight(r)
  }

  ghost predicate RedBlack(t: Tree) {
    !IsRed(t) && NoRedRed(t) && Balanced(t)
  }

  /** The colour and balance rules for a subtree of black height `h`, in one recursion. */
  ghost predicate Fits(t: Tree, h: nat) {
    match t
    case Leaf => h == 0
    case Nd(l, _, Red, r) => Fits(l, h) && Fits(r, h) && !IsRed(l) && !IsRed(r)
    case Nd(l, _, Black, r) => h > 0 && Fits(l, h - 1) && Fits(r, h - 1)
  }

  lemma {:induction false} FitsIff(t: Tree, h: nat)
    ensures Fits(t, h) <==> NoRedRed(t) && Balanced(t) && BlackHeight(t) == h
  {
    match t
    case Leaf =>
    case Nd(l, _, Red, r) => FitsIff(l, h); FitsIff(r, h);
    case Nd(l, _, Black, r) => if h > 0 { FitsIff(l, h - 1); FitsIff(r, h - 1); }
  }

  predicate HoleUnderRed(p: Path) {
    !p.Top? && p.color.Red?
  }

  /**
   The rules outside the focus, when the subtree there has black height `h`. The
   root is black unless it is at the focus.
   */
  ghost predicate PathFits(p: Path, h: nat) {
    match p
    case Top => true
    case InLeft(up, _, c, r) =>
      Fits(r, h) && PathFits(up, h + Weight(c)) && (c.Red? ==> !IsRed(r) && !up.Top? && !HoleUnderRed(up))
    case InRight(up, l, _, c) =>
      Fits(l, h) && PathFits(up, h + Weight(c)) && (c.Red? ==> !IsRed(l) && !up.Top? && !HoleUnderRed(up))
  }

  lemma {:induction false} FitsPlug(p: Path, t: Tree, h: nat)
    requires PathFits(p, h) && Fits(t, h) && (IsRed(t) ==> !p.Top? && !HoleUnderRed(p))
    ensures RedBlack(Plug(p, t))
    decreases p
  {
    if p.Top? {
      FitsIff(t, h);
    } else {
      FitsPlug(p.up, Raise(p, t), h + Weight(p.color));
    }
  }

  lemma {:induction false} PlugFits(p: Path, t: Tree)
    requires RedBlack(Plug(p, t))
    ensures PathFits(p, BlackHeight(t)) && Fits(t, BlackHeight(t))
    ensures IsRed(t) ==> !p.Top? && !HoleUnderRed(p)
    decreases p
  {
    if p.Top? {
      FitsIff(t, BlackHeight(t));
    } else {
      PlugFits(p.up, Raise(p, t));
      FitsIff(t, BlackHeight(t));
      FitsIff(Raise(p, t), BlackHeight(Raise(p, t)));
      var s := if p.InLeft? then p.right else p.left;
      FitsIff(s, BlackHeight(s));
    }
  }

  // -------------------------------------------------------------------- height

  function Max(a: nat, b: nat): nat {
    if a < b then b else a
  }

  function Height(t: Tree): nat {
    if t.Leaf? then 0 else 1 + Max(Height(t.left), Height(t.right))
  }

  lemma {:induction false} HeightFromBlackHeight(t: Tree)
    requires NoRedRed(t) && Balanced(t)
    ensures Height(t) <= 2 * BlackHeight(t) + (if IsRed(t) then 1 else 0)
    ensures Pow2(BlackHeight(t)) <= |Inorder(t)| + 1
  {
    if t.Nd? {
      HeightFromBlackHeight(t.left);
      HeightFromBlackHeight(t.right);
    }
  }

  /** Height is at most `2 * log2(n + 1)` for `n` nodes, written without logarithms. */
  lemma {:induction false} HeightBound(t: Tree)
    requires RedBlack(t)
    ensures Pow2(Height(t)) <= (|Inorder(t)| + 1) * (|Inorder(t)| + 1)
  {
    HeightFromBlackHeight(t);
    var h := BlackHeight(t);
    Pow2Sum(h, h);
    Pow2Monotone(Height(t), h + h);
    SquareMonotone(Pow2(h), |Inorder(t)| + 1);
  }

  lemma SquareMonotone(a: nat, b: nat)
    requires a <= b
    ensures a * a <= b * b
  {
    assert a * a <= a * b <= b * b;
  }

  /** A subtree is no higher than what is left of the height below its depth. */
  lemma {:induction false} DepthPlusHeight(p: Path, t: Tree)
    ensures Depth(p) + Height(t) <= Height(Plug(p, t))
    decreases p
  {
    match p
    case Top =>
    case InLeft(up, n, c, r) => DepthPlusHeight(up, Nd(t, n, c, r));
    case InRight(up, l, n, c) => DepthPlusHeight(up, Nd(l, n, c, t));
  }
}
