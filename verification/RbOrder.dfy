/** The order that the comparator of a tree induces on its elements. */
module RbOrder {
  import opened RbShape

  type Comparator = (int, int) -> int

  predicate InOrder(cmp: Comparator, x: int, y: int, z: int) {
    cmp(x, y) <= 0 && cmp(y, z) <= 0
  }

  /** The comparator is a total preorder; keys that compare as 0 count as equal. */
  ghost predicate TotalOrder(cmp: Comparator) {
    && (forall x, y :: cmp(x, y) < 0 <==> cmp(y, x) > 0)
    && (forall x, y, z :: InOrder(cmp, x, y, z) ==> cmp(x, z) <= 0)
  }

  lemma Transitive(cmp: Comparator, x: int, y: int, z: int)
    requires TotalOrder(cmp) && cmp(x, y) <= 0 && cmp(y, z) <= 0
    ensures cmp(x, y) < 0 || cmp(y, z) < 0 ==> cmp(x, z) < 0
  {
    assert InOrder(cmp, x, y, z) && cmp(z, x) >= 0;
    if cmp(x, z) >= 0 {
      assert cmp(z, x) <= 0;
      assert InOrder(cmp, z, x, y) && InOrder(cmp, y, z, x);
    }
  }

  /** Strictly ascending, so also without two equal keys. */
  ghost predicate Sorted(cmp: Comparator, s: seq<Node>) {
    forall i, j :: 0 <= i < j < |s| ==> cmp(s[i].key, s[j].key) < 0
  }

  function InsertAt(s: seq<Node>, i: nat, n: Node): seq<Node>
    requires i <= |s|
  {
    s[..i] + [n] + s[i..]
  }

  function RemoveAt(s: seq<Node>, i: nat): seq<Node>
    requires i < |s|
  {
    s[..i] + s[i + 1..]
  }

  ghost predicate AllBelow(cmp: Comparator, s: seq<Node>, key: int) {
    forall n :: n in s ==> cmp(n.key, key) < 0
  }

  ghost predicate AllAbove(cmp: Comparator, key: int, s: seq<Node>) {
    forall n :: n in s ==> cmp(key, n.key) < 0
  }

  lemma SortedAround(cmp: Comparator, a: seq<Node>, n: Node, b: seq<Node>)
    requires TotalOrder(cmp) && Sorted(cmp, a + [n] + b)
    ensures Sorted(cmp, a) && Sorted(cmp, b) && AllBelow(cmp, a, n.key) && AllAbove(cmp, n.key, b)
  {
    var s := a + [n] + b;
    forall x | x in a ensures cmp(x.key, n.key) < 0 {
      var i :| 0 <= i < |a| && a[i] == x;
      assert s[i] == x && s[|a|] == n;
    }
    forall x | x in b ensures cmp(n.key, x.key) < 0 {
      var i :| 0 <= i < |b| && b[i] == x;
      assert s[|a| + 1 + i] == x && s[|a|] == n;
    }
    assert forall i :: 0 <= i < |a| ==> a[i] == s[i];
    assert forall i :: 0 <= i < |b| ==> b[i] == s[|a| + 1 + i];
  }

  lemma SortedInsert(cmp: Comparator, a: seq<Node>, n: Node, b: seq<Node>)
    requires TotalOrder(cmp) && Sorted(cmp, a + b) && AllBelow(cmp, a, n.key) && AllAbove(cmp, n.key, b)
    ensures Sorted(cmp, a + [n] + b)
  {
    var s, t := a + [n] + b, a + b;
    forall i, j | 0 <= i < j < |s| ensures cmp(s[i].key, s[j].key) < 0 {
      if i < |a| { assert s[i] == t[i] && s[i] in a; }
      if i > |a| { assert s[i] == t[i - 1]; }
      if j < |a| { assert s[j] == t[j]; }
      if j > |a| { assert s[j] == t[j - 1] && s[j] == b[j - |a| - 1]; }
    }
  }

  lemma RemoveAtMiddle(a: seq<Node>, n: Node, b: seq<Node>)
    ensures (a + [n] + b)[|a|] == n && RemoveAt(a + [n] + b, |a|) == a + b
  {
    assert (a + [n] + b)[|a| + 1..] == b;
  }

  lemma SortedRemoveAt(cmp: Comparator, s: seq<Node>, i: nat)
    requires Sorted(cmp, s) && i < |s|
    ensures Sorted(cmp, RemoveAt(s, i))
  {
    var t := RemoveAt(s, i);
    assert forall k :: 0 <= k < |t| ==> t[k] == s[if k < i then k else k + 1];
  }

  /** Below `key` on the way down means below everything that `key` is below. */
  lemma AboveTransitive(cmp: Comparator, key: int, n: Node, s: seq<Node>)
    requires TotalOrder(cmp) && cmp(key, n.key) < 0 && AllAbove(cmp, n.key, s)
    ensures AllAbove(cmp, key, s)
  {
    forall x | x in s ensures cmp(key, x.key) < 0 {
      Transitive(cmp, key, n.key, x.key);
    }
  }

  lemma BelowTransitive(cmp: Comparator, s: seq<Node>, n: Node, key: int)
    requires TotalOrder(cmp) && cmp(n.key, key) < 0 && AllBelow(cmp, s, n.key)
    ensures AllBelow(cmp, s, key)
  {
    forall x | x in s ensures cmp(x.key, key) < 0 {
      Transitive(cmp, x.key, n.key, key);
    }
  }

  /** `key` belongs into the subtree at the focus. */
  ghost predicate Leads(cmp: Comparator, p: Path, key: int) {
    AllBelow(cmp, Before(p), key) && AllAbove(cmp, key, After(p))
  }

  lemma SpreadAround(p: Path, t: Tree)
    requires t.Nd?
    ensures Spread(p, t) == (Before(p) + Inorder(t.left)) + [t.node] + (Inorder(t.right) + After(p))
  {
  }

  lemma LeadsLeft(cmp: Comparator, p: Path, t: Tree, key: int)
    requires TotalOrder(cmp) && Sorted(cmp, Spread(p, t)) && t.Nd? && Leads(cmp, p, key)
    requires cmp(key, t.node.key) < 0
    ensures Leads(cmp, InLeft(p, t.node, t.color, t.right), key)
  {
    SpreadAround(p, t);
    SortedAround(cmp, Before(p) + Inorder(t.left), t.node, Inorder(t.right) + After(p));
    assert forall n :: n in Inorder(t.right) ==> n in Inorder(t.right) + After(p);
    AboveTransitive(cmp, key, t.node, Inorder(t.right));
  }

  lemma LeadsRight(cmp: Comparator, p: Path, t: Tree, key: int)
    requires TotalOrder(cmp) && Sorted(cmp, Spread(p, t)) && t.Nd? && Leads(cmp, p, key)
    requires cmp(key, t.node.key) > 0
    ensures Leads(cmp, InRight(p, t.left, t.node, t.color), key)
  {
    SpreadAround(p, t);
    SortedAround(cmp, Before(p) + Inorder(t.left), t.node, Inorder(t.right) + After(p));
    assert forall n :: n in Inorder(t.left) ==> n in Before(p) + Inorder(t.left);
    BelowTransitive(cmp, Inorder(t.left), t.node, key);
  }

  /** Where the search turns at a node of the tree. */
  lemma {:induction false} DescendStep(cmp: Comparator, tree: Tree, p: Path, t: Tree, key: int)
    requires TotalOrder(cmp) && Sorted(cmp, Inorder(tree)) && Plug(p, t) == tree && t.Nd? && Leads(cmp, p, key)
    ensures cmp(key, t.node.key) < 0 ==> Leads(cmp, InLeft(p, t.node, t.color, t.right), key)
    ensures cmp(key, t.node.key) > 0 ==> Leads(cmp, InRight(p, t.left, t.node, t.color), key)
    ensures t.node in Inorder(tree)
  {
    InorderPlug(p, t);
    assert Spread(p, t)[|Before(p)| + |Inorder(t.left)|] == t.node;
    if cmp(key, t.node.key) < 0 {
      LeadsLeft(cmp, p, t, key);
    }
    if cmp(key, t.node.key) > 0 {
      LeadsRight(cmp, p, t, key);
    }
  }
}
