/**
 The doubly linked list of `kylin_list`, with the loader's module records as values.
 The ghost sequence `nodes` is the list from `head` to `tail`.
 */
module KList {

  /** A `kmod_internal_t`: its name identifies it in the list, and `loaded` says that `module` is not null. */
  class Module {
    const name: string
    var refcnt: nat
    var loaded: bool

    constructor (name: string)
      ensures this.name == name && refcnt == 1 && !loaded
    {
      this.name := name;
      refcnt, loaded := 1, false;
    }
  }

  class ListNode {
    var prev: ListNode?
    var next: ListNode?
    const val: Module

    constructor (val: Module)
      ensures this.val == val
    {
      this.val := val;
    }
  }

  ghost function NodeAt(s: seq<ListNode>, i: int): ListNode? {
    if 0 <= i < |s| then s[i] else null
  }

  /** The values of the nodes in order. */
  ghost function Values(s: seq<ListNode>): (v: seq<Module>)
    ensures |v| == |s| && forall i :: 0 <= i < |s| ==> v[i] == s[i].val
  {
    seq(|s|, i requires 0 <= i < |s| => s[i].val)
  }

  ghost predicate Distinct(s: seq<ListNode>) {
    forall i, j :: 0 <= i < j < |s| ==> s[i] != s[j]
  }

  lemma Removed(s: seq<ListNode>, k: nat)
    requires k < |s| && Distinct(s)
    ensures var r := s[..k] + s[k + 1..];
            && |r| == |s| - 1 && Distinct(r)
            && forall i {:trigger r[i]} :: 0 <= i < |r| ==> r[i] == s[if i < k then i else i + 1]
  {
  }

  lemma Inserted(s: seq<ListNode>, k: nat, n: ListNode)
    requires k <= |s| && Distinct(s) && n !in s
    ensures var r := s[..k] + [n] + s[k..];
            && |r| == |s| + 1 && Distinct(r)
            && forall i {:trigger r[i]} :: 0 <= i < |r| ==>
                      r[i] == if i < k then s[i] else if i == k then n else s[i - 1]
  {
  }

  /** The first `n` nodes are linked one after the other, and none of them twice. */
  ghost predicate Chained(nodes: seq<ListNode>, n: nat)
    requires n <= |nodes|
    reads nodes
  {
    n == 0 ||
    (Chained(nodes, n - 1) && nodes[n - 1] !in nodes[..n - 1] &&
     (n > 1 ==> nodes[n - 2].next == nodes[n - 1] && nodes[n - 1].prev == nodes[n - 2]))
  }

  lemma {:induction false} ChainedIff(nodes: seq<ListNode>, n: nat)
    requires n <= |nodes|
    ensures Chained(nodes, n) <==>
              && (forall i, j :: 0 <= i < j < n ==> nodes[i] != nodes[j])
              && (forall i :: 0 <= i < n - 1 ==> nodes[i].next == nodes[i + 1])
              && (forall i :: 0 < i < n ==> nodes[i].prev == nodes[i - 1])
  {
    if n > 0 {
      ChainedIff(nodes, n - 1);
      assert nodes[n - 1] !in nodes[..n - 1] <==> forall i :: 0 <= i < n - 1 ==> nodes[i] != nodes[n - 1];
    }
  }

  class List {
    var head: ListNode?
    var tail: ListNode?
    var count: nat
    ghost var nodes: seq<ListNode>

    constructor ()
      ensures Valid() && nodes == []
    {
      head, tail, count, nodes := null, null, 0, [];
    }

    /** The ends of the list, and that every node is linked to its neighbours. */
    ghost predicate Valid()
      reads this, nodes
    {
      && head == NodeAt(nodes, 0) && tail == NodeAt(nodes, |nodes| - 1) && count == |nodes|
      && Chained(nodes, |nodes|) && (|nodes| > 0 ==> nodes[0].prev == null && nodes[|nodes| - 1].next == null)
    }

    /** The same, as it is used where links change. */
    ghost predicate Wired()
      reads this, nodes
    {
      && head == NodeAt(nodes, 0) && tail == NodeAt(nodes, |nodes| - 1) && count == |nodes| && Distinct(nodes)
      && (forall i {:trigger nodes[i].next} :: 0 <= i < |nodes| ==> nodes[i].next == NodeAt(nodes, i + 1))
      && (forall i {:trigger nodes[i].prev} :: 0 <= i < |nodes| ==> nodes[i].prev == NodeAt(nodes, i - 1))
    }

    lemma {:induction false} WiredIff()
      ensures Valid() <==> Wired()
    {
      ChainedIff(nodes, |nodes|);
    }

    /** `kylin_list_insert_tail`. */
    method InsertTail(val: Module) returns (node: ListNode)
      requires Valid()
      modifies this, nodes
      ensures Valid() && nodes == old(nodes) + [node] && node.val == val && fresh(node)
    {
      WiredIff();
      node := new ListNode(val);
      if count == 0 {
        head, tail := node, node;
        node.prev, node.next := null, null;
        count, nodes := 1, [node];
      } else {
        LinkLast(node);
      }
      WiredIff();
    }

    method LinkLast(node: ListNode)
      requires Wired() && |nodes| > 0 && node !in nodes
      modifies this, node, nodes[|nodes| - 1]
      ensures Wired() && nodes == old(nodes) + [node]
    {
      node.prev, node.next := tail, null;
      tail.next := node;
      tail := node;
      count := count + 1;
      nodes := nodes + [node];
    }

    /** `kylin_list_insert_before`; `k` is where `after` is. */
    method InsertBefore(after: ListNode, val: Module, ghost k: nat) returns (node: ListNode)
      requires Valid() && k < |nodes| && nodes[k] == after
      modifies this, after, nodes[if k > 0 then k - 1 else k]
      ensures Valid() && nodes == old(nodes)[..k] + [node] + old(nodes)[k..]
      ensures node.val == val && fresh(node)
    {
      WiredIff();
      node := new ListNode(val);
      LinkBefore(after, node, k);
      WiredIff();
    }

    /** The links with `node` at place `k`, from what they are around it. */
    static lemma NextWith(all: seq<ListNode>, k: nat, node: ListNode, r: seq<ListNode>, i: nat)
      requires k < |all| && r == all[..k] + [node] + all[k..] && i < |r| && node.next == all[k]
      requires forall j {:trigger all[j].next} :: 0 <= j < |all| ==>
                 all[j].next == if j == k - 1 then node else NodeAt(all, j + 1)
      ensures r[i].next == NodeAt(r, i + 1)
    {
      if i != k {
        var j := if i < k then i else i - 1;
        assert r[i] == all[j] && all[j].next == if j == k - 1 then node else NodeAt(all, j + 1);
      }
    }

    static lemma PrevWith(all: seq<ListNode>, k: nat, node: ListNode, r: seq<ListNode>, i: nat)
      requires k < |all| && r == all[..k] + [node] + all[k..] && i < |r| && node.prev == NodeAt(all, k - 1)
      requires forall j {:trigger all[j].prev} :: 0 <= j < |all| ==>
                 all[j].prev == if j == k then node else NodeAt(all, j - 1)
      ensures r[i].prev == NodeAt(r, i - 1)
    {
      if i != k {
        var j := if i < k then i else i - 1;
        assert r[i] == all[j] && all[j].prev == if j == k then node else NodeAt(all, j - 1);
      }
    }

    static lemma LinksWith(all: seq<ListNode>, k: nat, node: ListNode, r: seq<ListNode>)
      requires k < |all| && Distinct(all) && node !in all && r == all[..k] + [node] + all[k..]
      requires node.next == all[k] && node.prev == NodeAt(all, k - 1)
      requires forall j {:trigger all[j].next} :: 0 <= j < |all| ==>
                 all[j].next == if j == k - 1 then node else NodeAt(all, j + 1)
      requires forall j {:trigger all[j].prev} :: 0 <= j < |all| ==>
                 all[j].prev == if j == k then node else NodeAt(all, j - 1)
      ensures Distinct(r)
      ensures forall i {:trigger r[i].next} :: 0 <= i < |r| ==> r[i].next == NodeAt(r, i + 1)
      ensures forall i {:trigger r[i].prev} :: 0 <= i < |r| ==> r[i].prev == NodeAt(r, i - 1)
    {
      Inserted(all, k, node);
      forall i | 0 <= i < |r| ensures r[i].next == NodeAt(r, i + 1) {
        NextWith(all, k, node, r, i);
      }
      forall i | 0 <= i < |r| ensures r[i].prev == NodeAt(r, i - 1) {
        PrevWith(all, k, node, r, i);
      }
    }

    method LinkBefore(after: ListNode, node: ListNode, ghost k: nat)
      requires Wired() && k < |nodes| && nodes[k] == after && node !in nodes
      modifies this, after, node, nodes[if k > 0 then k - 1 else k]
      ensures Wired() && nodes == old(nodes)[..k] + [node] + old(nodes)[k..]
    {
      WriteLinks(after, node, k);
      count := count + 1;
      LinksWith(nodes, k, node, nodes[..k] + [node] + nodes[k..]);
      nodes := nodes[..k] + [node] + nodes[k..];
    }

    /** The four links, or three at the head. */
    method WriteLinks(after: ListNode, node: ListNode, ghost k: nat)
      requires Wired() && k < |nodes| && nodes[k] == after && node !in nodes
      modifies this`head, after`prev, node`next, node`prev, {if k > 0 then nodes[k - 1] else node}`next
      ensures head == (if k > 0 then old(head) else node) && node.next == after && node.prev == NodeAt(nodes, k - 1)
      ensures forall j {:trigger nodes[j].next} :: 0 <= j < |nodes| ==>
                nodes[j].next == if j == k - 1 then node else NodeAt(nodes, j + 1)
      ensures forall j {:trigger nodes[j].prev} :: 0 <= j < |nodes| ==>
                nodes[j].prev == if j == k then node else NodeAt(nodes, j - 1)
    {
      assert after.prev == NodeAt(nodes, k - 1);
      node.next := after;
      node.prev := after.prev;
      if head == after {
        head := node;
      } else {
        after.prev.next := node;
      }
      after.prev := node;
    }

    /** `kylin_list_unlink_raw`; `k` is where `node` is. */
    method UnlinkRaw(node: ListNode, ghost k: nat) returns (r: ListNode)
      requires Valid() && k < |nodes| && nodes[k] == node
      modifies this, nodes[if k > 0 then k - 1 else k], nodes[if k + 1 < |nodes| then k + 1 else k]
      ensures Valid() && nodes == old(nodes)[..k] + old(nodes)[k + 1..] && r == node
    {
      WiredIff();
      Bypass(node, k);
      WiredIff();
      r := node;
    }

    /** From the node before, or from the head, past `node`. */
    method SkipForward(node: ListNode, ghost k: nat)
      requires Wired() && k < |nodes| && nodes[k] == node
      modifies this`head, {if k > 0 then nodes[k - 1] else node}`next
      ensures head == if k > 0 then old(head) else NodeAt(nodes, 1)
      ensures forall i {:trigger nodes[i].next} :: 0 <= i < |nodes| ==>
                nodes[i].next == if i == k - 1 then NodeAt(nodes, k + 1) else old(nodes[i].next)
    {
      assert node.next == NodeAt(nodes, k + 1) && node.prev == NodeAt(nodes, k - 1);
      if node.prev != null {
        node.prev.next := node.next;
      } else {
        head := node.next;
      }
    }

    /** From the node behind, or from the tail, past `node`. */
    method SkipBack(node: ListNode, ghost k: nat)
      requires k < |nodes| && nodes[k] == node && Distinct(nodes)
      requires node.next == NodeAt(nodes, k + 1) && node.prev == NodeAt(nodes, k - 1)
      modifies this`tail, {if k + 1 < |nodes| then nodes[k + 1] else node}`prev
      ensures tail == if k + 1 < |nodes| then old(tail) else NodeAt(nodes, k - 1)
      ensures forall i {:trigger nodes[i].prev} :: 0 <= i < |nodes| ==>
                nodes[i].prev == if i == k + 1 then NodeAt(nodes, k - 1) else old(nodes[i].prev)
    {
      if node.next != null {
        node.next.prev := node.prev;
      } else {
        tail := node.prev;
      }
    }

    /** The links after number `k` is gone, from what they were before. */
    static lemma NextWithout(all: seq<ListNode>, k: nat, rest: seq<ListNode>, i: nat)
      requires k < |all| && rest == all[..k] + all[k + 1..] && i < |rest|
      requires forall j {:trigger all[j].next} :: 0 <= j < |all| && j != k ==>
                 all[j].next == NodeAt(all, if j == k - 1 then k + 1 else j + 1)
      ensures rest[i].next == NodeAt(rest, i + 1)
    {
      var j := if i < k then i else i + 1;
      assert rest[i] == all[j] && all[j].next == NodeAt(all, if j == k - 1 then k + 1 else j + 1);
    }

    static lemma PrevWithout(all: seq<ListNode>, k: nat, rest: seq<ListNode>, i: nat)
      requires k < |all| && rest == all[..k] + all[k + 1..] && i < |rest|
      requires forall j {:trigger all[j].prev} :: 0 <= j < |all| && j != k ==>
                 all[j].prev == NodeAt(all, if j == k + 1 then k - 1 else j - 1)
      ensures rest[i].prev == NodeAt(rest, i - 1)
    {
      var j := if i < k then i else i + 1;
      assert rest[i] == all[j] && all[j].prev == NodeAt(all, if j == k + 1 then k - 1 else j - 1);
    }

    static lemma LinksWithout(all: seq<ListNode>, k: nat, rest: seq<ListNode>)
      requires k < |all| && Distinct(all) && rest == all[..k] + all[k + 1..]
      requires forall j {:trigger all[j].next} :: 0 <= j < |all| && j != k ==>
                 all[j].next == NodeAt(all, if j == k - 1 then k + 1 else j + 1)
      requires forall j {:trigger all[j].prev} :: 0 <= j < |all| && j != k ==>
                 all[j].prev == NodeAt(all, if j == k + 1 then k - 1 else j - 1)
      ensures Distinct(rest)
      ensures forall i {:trigger rest[i].next} :: 0 <= i < |rest| ==> rest[i].next == NodeAt(rest, i + 1)
      ensures forall i {:trigger rest[i].prev} :: 0 <= i < |rest| ==> rest[i].prev == NodeAt(rest, i - 1)
    {
      Removed(all, k);
      forall i | 0 <= i < |rest| ensures rest[i].next == NodeAt(rest, i + 1) {
        NextWithout(all, k, rest, i);
      }
      forall i | 0 <= i < |rest| ensures rest[i].prev == NodeAt(rest, i - 1) {
        PrevWithout(all, k, rest, i);
      }
    }

    method Bypass(node: ListNode, ghost k: nat)
      requires Wired() && k < |nodes| && nodes[k] == node
      modifies this, nodes[if k > 0 then k - 1 else k], nodes[if k + 1 < |nodes| then k + 1 else k]
      ensures Wired() && nodes == old(nodes)[..k] + old(nodes)[k + 1..]
    {
      SkipForward(node, k);
      SkipBack(node, k);
      count := count - 1;
      LinksWithout(nodes, k, nodes[..k] + nodes[k + 1..]);
      nodes := nodes[..k] + nodes[k + 1..];
    }

    /** `kylin_list_find_raw` with `__module_match`: the first node of that name. */
    method FindRaw(name: string) returns (r: ListNode?, ghost k: nat)
      requires Valid()
      ensures k <= |nodes| && r == NodeAt(nodes, k)
      ensures forall i :: 0 <= i < k ==> nodes[i].val.name != name
      ensures r != null ==> r.val.name == name
    {
      WiredIff();
      var tmp := head;
      k := 0;
      while tmp != null
        invariant k <= |nodes| && tmp == NodeAt(nodes, k)
        invariant forall i :: 0 <= i < k ==> nodes[i].val.name != name
        decreases |nodes| - k
      {
        if tmp.val.name == name {
          return tmp, k;
        }
        tmp := tmp.next;
        k := k + 1;
      }
      return null, k;
    }

    /** `KYLIN_LIST_FOREACH_REVERSE`: from the last node by `kylin_list_prev`. */
    method Backward() returns (visited: seq<Module>)
      requires Valid()
      ensures |visited| == |nodes| && forall i :: 0 <= i < |nodes| ==> visited[i] == nodes[|nodes| - 1 - i].val
    {
      WiredIff();
      visited := [];
      var node := tail;
      while node != null
        invariant |visited| <= |nodes| && node == NodeAt(nodes, |nodes| - 1 - |visited|)
        invariant forall i :: 0 <= i < |visited| ==> visited[i] == nodes[|nodes| - 1 - i].val
        decreases |nodes| - |visited|
      {
        visited := visited + [node.val];
        node := node.prev;
      }
    }
  }
}
