/**
 The chains of the map as the program has them: nodes linked by `next`, in an array of first nodes.
 The steps of the map on one table are proved to do to these chains what the functions of `MapSpec`
 do to sequences.
 */
module MapLinks {
  import opened MapSpec

  /** A `kmap_node_t`. */
  class Cell {
    const key: Key
    var val: int
    var next: Cell?

    constructor (key: Key, val: int)
      ensures this.key == key && this.val == val
    {
      this.key, this.val := key, val;
    }
  }

  // ----------------------------------------------------------------- one chain

  ghost predicate Distinct(c: seq<Cell>) {
    forall i, j :: 0 <= i < j < |c| ==> c[i] != c[j]
  }

  ghost function CellAt(c: seq<Cell>, i: int): Cell? {
    if 0 <= i < |c| then c[i] else null
  }

  /** The links from `head` on lead through exactly the cells of `c`. */
  ghost predicate Linked(head: Cell?, c: seq<Cell>)
    reads c`next
  {
    && head == CellAt(c, 0) && Distinct(c)
    && (forall i :: 0 <= i < |c| - 1 ==> c[i].next == c[i + 1])
    && (|c| > 0 ==> c[|c| - 1].next == null)
  }

  ghost function NodeOf(cell: Cell): Node
    reads cell`val
  {
    Node(cell.key, cell.val)
  }

  ghost function Contents(c: seq<Cell>): (r: Chain)
    reads c`val
    ensures |r| == |c| && forall i :: 0 <= i < |c| ==> r[i] == NodeOf(c[i])
  {
    if c == [] then [] else Contents(c[..|c| - 1]) + [NodeOf(c[|c| - 1])]
  }

  lemma ContentsWithout(c: seq<Cell>, i: nat)
    requires i < |c|
    ensures Contents(c[..i] + c[i + 1..]) == Contents(c)[..i] + Contents(c)[i + 1..]
  {
    var d := c[..i] + c[i + 1..];
    var a, b := Contents(c), Contents(d);
    forall k | 0 <= k < |b| ensures b[k] == a[if k < i then k else k + 1] {
      assert d[k] == c[if k < i then k else k + 1];
    }
    WithoutOne(a, b, i);
  }

  lemma WithoutOne(a: Chain, b: Chain, i: nat)
    requires i < |a| && |b| == |a| - 1 && forall k :: 0 <= k < |b| ==> b[k] == a[if k < i then k else k + 1]
    ensures b == a[..i] + a[i + 1..]
  {
  }

  lemma ContentsPush(cell: Cell, c: seq<Cell>)
    ensures Contents([cell] + c) == [NodeOf(cell)] + Contents(c)
  {
  }

  lemma {:induction false} PositionIs(c: Chain, key: Key, i: nat)
    requires i <= |c| && (forall j :: 0 <= j < i ==> c[j].key != key) && (i < |c| ==> c[i].key == key)
    ensures Position(c, key) == i
  {
    var p := Position(c, key);
    assert p < |c| ==> c[p].key == key;
  }

  /** The walk of a search, with the node before the one it ends at. */
  method Walk(head: Cell?, key: Key, ghost c: seq<Cell>) returns (prev: Cell?, cell: Cell?, ghost i: nat)
    requires Linked(head, c)
    ensures i == Position(Contents(c), key) <= |c| && cell == CellAt(c, i) && prev == CellAt(c, i - 1)
  {
    prev, cell, i := null, head, 0;
    while cell != null && cell.key != key
      invariant i <= |c| && cell == CellAt(c, i) && prev == CellAt(c, i - 1)
      invariant forall j :: 0 <= j < i ==> c[j].key != key
      decreases |c| - i
    {
      prev, cell, i := cell, cell.next, i + 1;
    }
    PositionIs(Contents(c), key, i);
  }

  /** `prev_node->next = cmp->next`. */
  method Bypass(prev: Cell, cell: Cell, ghost c: seq<Cell>, ghost i: nat)
    requires Linked(CellAt(c, 0), c) && 0 < i < |c| && prev == c[i - 1] && cell == c[i]
    modifies prev`next
    ensures Linked(CellAt(c, 0), c[..i] + c[i + 1..])
  {
    prev.next := cell.next;
    ghost var d := c[..i] + c[i + 1..];
    assert forall k :: 0 <= k < |d| ==> d[k] == c[if k < i then k else k + 1];
  }

  // ----------------------------------------------------------------- a table

  ghost predicate Apart(c: seq<Cell>, d: seq<Cell>) {
    forall i, j :: 0 <= i < |c| && 0 <= j < |d| ==> c[i] != d[j]
  }

  ghost predicate Within(c: seq<Cell>, cells: set<Cell>) {
    forall i :: 0 <= i < |c| ==> c[i] in cells
  }

  ghost predicate AllWithin(chains: seq<seq<Cell>>, cells: set<Cell>) {
    forall b :: 0 <= b < |chains| ==> Within(chains[b], cells)
  }

  ghost predicate AllApart(chains: seq<seq<Cell>>) {
    forall a, b :: 0 <= a < b < |chains| ==> Apart(chains[a], chains[b])
  }

  /** Every bucket is a chain of its own nodes. */
  ghost predicate Tabled(heads: seq<Cell?>, chains: seq<seq<Cell>>, cells: set<Cell>)
    reads cells`next
  {
    && |chains| == |heads| && AllWithin(chains, cells) && AllApart(chains)
    && forall b :: 0 <= b < |chains| ==> Linked(heads[b], chains[b])
  }

  ghost function Buckets(chains: seq<seq<Cell>>, cells: set<Cell>): (r: seq<Chain>)
    requires AllWithin(chains, cells)
    reads cells`val
    ensures |r| == |chains| && forall b :: 0 <= b < |chains| ==> r[b] == Contents(chains[b])
  {
    if chains == [] then [] else Buckets(chains[..|chains| - 1], cells) + [Contents(chains[|chains| - 1])]
  }

  /** One bucket gives up a node, or its chain is exchanged for part of it. */
  lemma TabledShrink(heads: seq<Cell?>, chains: seq<seq<Cell>>, cells: set<Cell>, b: nat, i: nat, head: Cell?)
    requires |chains| == |heads| && AllWithin(chains, cells) && AllApart(chains) && b < |chains| && i < |chains[b]|
    requires forall a :: 0 <= a < |chains| && a != b ==> Linked(heads[a], chains[a])
    requires Linked(head, chains[b][..i] + chains[b][i + 1..])
    ensures var d := chains[b][..i] + chains[b][i + 1..];
            Tabled(heads[b := head], chains[b := d], cells) && Buckets(chains[b := d], cells) ==
                      Buckets(chains, cells)[b := Contents(d)]
  {
    var d := chains[b][..i] + chains[b][i + 1..];
    assert forall k :: 0 <= k < |d| ==> d[k] == chains[b][if k < i then k else k + 1];
  }

  /** What the functions on values say of a key whose bucket and place in it are known. */
  lemma KeyAt(h: Hash, t: Table, key: Key, b: nat, i: nat)
    requires |t.buckets| > 0 && b == Index(h, key, |t.buckets|) && i == Position(t.buckets[b], key)
    ensures Has(h, t, key) <==> i < |t.buckets[b]|
    ensures Has(h, t, key) ==> Get(h, t, key) == t.buckets[b][i]
    ensures Has(h, t, key) ==>
              Cut(h, t, key) == Table(t.buckets[b := t.buckets[b][..i] + t.buckets[b][i + 1..]], Less(t.used))
    ensures forall val :: Has(h, t, key) ==>
              Put(h, t, key, val) == Table(t.buckets[b := t.buckets[b][i := Node(key, val)]], t.used)
  {
  }

  /** Where a cell is: in bucket `b`, at place `i`, after `prev`. */
  ghost predicate Sits(h: Hash, cell: Cell, prev: Cell?, chains: seq<seq<Cell>>, t: Table, b: nat, i: nat) {
    && |t.buckets| == |chains| && b < |chains| && i < |chains[b]|
    && chains[b][i] == cell && prev == CellAt(chains[b], i - 1)
    && b == Index(h, cell.key, |t.buckets|) && i == Position(t.buckets[b], cell.key)
  }

  /** The node of a key, in one table. */
  method Locate(h: Hash, table: array<Cell?>, key: Key, ghost chains: seq<seq<Cell>>, ghost cells: set<Cell>,
                ghost t: Table)
      returns (b: nat, prev: Cell?, cell: Cell?, ghost i: nat)
    requires Tabled(table[..], chains, cells) && t.buckets == Buckets(chains, cells)
    ensures cell != null <==> Has(h, t, key)
    ensures cell != null ==> cell in cells && cell.key == key && NodeOf(cell) == Get(h, t, key)
    ensures cell != null ==> Sits(h, cell, prev, chains, t, b, i)
  {
    if table.Length == 0 {
      return 0, null, null, 0;
    }
    b := Index(h, key, table.Length);
    prev, cell, i := Walk(table[b], key, chains[b]);
    KeyAt(h, t, key, b, i);
  }

  lemma FewerCells(heads: seq<Cell?>, chains: seq<seq<Cell>>, cells: set<Cell>, b: nat, i: nat, d: seq<Cell>)
    requires AllWithin(chains, cells) && AllApart(chains) && b < |chains| && i < |chains[b]| && Distinct(chains[b])
    requires d == chains[b][..i] + chains[b][i + 1..] && Tabled(heads, chains[b := d], cells)
    ensures var rest := cells - {chains[b][i]};
            Tabled(heads, chains[b := d], rest) && Buckets(chains[b := d], rest) == Buckets(chains[b := d], cells)
  {
    assert forall k :: 0 <= k < |d| ==> d[k] == chains[b][if k < i then k else k + 1];
  }

  /** The other chains do not see a change inside one chain. */
  lemma Detached(heads: seq<Cell?>, chains: seq<seq<Cell>>, cells: set<Cell>, b: nat, i: nat, head: Cell?)
      returns (r: seq<seq<Cell>>)
    requires |chains| == |heads| && AllWithin(chains, cells) && AllApart(chains) && b < |chains| && i < |chains[b]|
    requires forall a :: 0 <= a < |chains| && a != b ==> Linked(heads[a], chains[a])
    requires Distinct(chains[b]) && Linked(head, chains[b][..i] + chains[b][i + 1..])
    ensures Tabled(heads[b := head], r, cells - {chains[b][i]})
    ensures Buckets(r, cells - {chains[b][i]}) ==
              Buckets(chains, cells)[b := Contents(chains[b])[..i] + Contents(chains[b])[i + 1..]]
  {
    var d := chains[b][..i] + chains[b][i + 1..];
    r := chains[b := d];
    TabledShrink(heads, chains, cells, b, i, head);
    FewerCells(heads[b := head], chains, cells, b, i, d);
    ContentsWithout(chains[b], i);
  }

  /** A node leaves its chain. */
  method Detach(table: array<Cell?>, b: nat, prev: Cell?, cell: Cell, ghost chains: seq<seq<Cell>>,
                ghost cells: set<Cell>, ghost i: nat)
      returns (ghost r: seq<seq<Cell>>)
    requires Tabled(table[..], chains, cells) && b < |chains| && i < |chains[b]|
    requires cell == chains[b][i] && prev == CellAt(chains[b], i - 1)
    modifies table, cells`next
    ensures Tabled(table[..], r, cells - {cell})
    ensures Buckets(r, cells - {cell}) ==
              Buckets(chains, cells)[b := Contents(chains[b])[..i] + Contents(chains[b])[i + 1..]]
  {
    ghost var c, heads := chains[b], table[..];
    if prev != null {
      Bypass(prev, cell, c, i);
    } else {
      table[b] := cell.next;
    }
    assert Linked(table[b], c[..i] + c[i + 1..]);
    assert table[..] == heads[b := table[b]];
    r := Detached(heads, chains, cells, b, i, table[b]);
  }

  /** `unlink` of a node that was found. */
  method UnlinkFound(h: Hash, table: array<Cell?>, b: nat, prev: Cell?, cell: Cell, ghost chains: seq<seq<Cell>>,
                     ghost cells: set<Cell>,
                     ghost i: nat, ghost t: Table)
      returns (ghost r: seq<seq<Cell>>)
    requires Tabled(table[..], chains, cells) && t.buckets == Buckets(chains, cells)
    requires Sits(h, cell, prev, chains, t, b, i)
    modifies table, cells`next
    ensures Has(h, t, cell.key) && Tabled(table[..], r, cells - {cell})
    ensures Buckets(r, cells - {cell}) == Cut(h, t, cell.key).buckets
  {
    KeyAt(h, t, cell.key, b, i);
    r := Detach(table, b, prev, cell, chains, cells, i);
  }

  lemma Attached(heads: seq<Cell?>, chains: seq<seq<Cell>>, cells: set<Cell>, b: nat, cell: Cell)
      returns (r: seq<seq<Cell>>)
    requires |chains| == |heads| && AllWithin(chains, cells) && AllApart(chains) && b < |chains| && cell !in cells
    requires forall a :: 0 <= a < |chains| ==> Linked(heads[a], chains[a])
    requires cell.next == heads[b]
    ensures Tabled(heads[b := cell], r, cells + {cell})
    ensures Buckets(r, cells + {cell}) == Buckets(chains, cells)[b := [NodeOf(cell)] + Contents(chains[b])]
  {
    var d := [cell] + chains[b];
    r := chains[b := d];
    assert forall k :: 0 <= k < |d| ==> d[k] == if k == 0 then cell else chains[b][k - 1];
    ContentsPush(cell, chains[b]);
    assert Linked(cell, d);
  }

  method Attach(table: array<Cell?>, b: nat, cell: Cell, ghost chains: seq<seq<Cell>>, ghost cells: set<Cell>)
      returns (ghost r: seq<seq<Cell>>)
    requires Tabled(table[..], chains, cells) && b < |chains| && cell !in cells
    modifies table, cell`next
    ensures Tabled(table[..], r, cells + {cell})
    ensures Buckets(r, cells + {cell}) == Buckets(chains, cells)[b := [NodeOf(cell)] + Contents(chains[b])]
  {
    ghost var heads := table[..];
    cell.next := table[b];
    table[b] := cell;
    assert table[..] == heads[b := cell];
    r := Attached(heads, chains, cells, b, cell);
  }

  /** A node goes to the front of its bucket. */
  method PushFront(h: Hash, table: array<Cell?>, cell: Cell, ghost chains: seq<seq<Cell>>, ghost cells: set<Cell>,
                   ghost t: Table)
      returns (ghost r: seq<seq<Cell>>)
    requires Tabled(table[..], chains, cells) && t.buckets == Buckets(chains, cells)
    requires table.Length > 0 && cell !in cells
    modifies table, cell`next
    ensures Tabled(table[..], r, cells + {cell}) && Buckets(r, cells + {cell}) == Push(h, t, NodeOf(cell)).buckets
  {
    r := Attach(table, Index(h, cell.key, table.Length), cell, chains, cells);
  }

  method SetValue(cell: Cell, val: int, ghost chains: seq<seq<Cell>>, ghost cells: set<Cell>, ghost b: nat,
                  ghost i: nat)
    requires AllWithin(chains, cells) && AllApart(chains) && b < |chains|
    requires Distinct(chains[b]) && i < |chains[b]| && cell == chains[b][i]
    modifies cell`val
    ensures Buckets(chains, cells) ==
              old(Buckets(chains, cells))[b := old(Contents(chains[b]))[i := Node(cell.key, val)]]
  {
    ghost var before := Buckets(chains, cells);
    cell.val := val;
    assert Contents(chains[b]) == before[b][i := Node(cell.key, val)];
    forall a | 0 <= a < |chains| && a != b ensures Contents(chains[a]) == before[a] {
      assert Apart(chains[if a < b then a else b], chains[if a < b then b else a]);
    }
  }

  /** `replace` of the value of a node that was found. */
  method ReplaceFound(h: Hash, cell: Cell, val: int, ghost prev: Cell?, ghost chains: seq<seq<Cell>>,
                      ghost cells: set<Cell>,
                      ghost b: nat, ghost i: nat, ghost t: Table)
    requires AllWithin(chains, cells) && AllApart(chains) && t.buckets == Buckets(chains, cells)
    requires Sits(h, cell, prev, chains, t, b, i) && Distinct(chains[b])
    modifies cell`val
    ensures Has(h, t, cell.key) && Buckets(chains, cells) == Put(h, t, cell.key, val).buckets
  {
    KeyAt(h, t, cell.key, b, i);
    SetValue(cell, val, chains, cells, b, i);
  }

  lemma PushAllUnfolds(h: Hash, t: Table, c: Chain, k: nat)
    requires t.buckets != [] && k < |c|
    ensures PushAll(h, t, c[k..]) == PushAll(h, if Has(h, t, c[k].key) then t else Push(h, t, c[k]), c[k + 1..])
  {
    assert c[k..][1..] == c[k + 1..];
  }

  /** One node of the migration: `goal` is the table after all of `nodes`, of which this is number `k`. */
  method MoveNode(h: Hash, table: array<Cell?>, node: Cell, ghost chains: seq<seq<Cell>>, ghost cells: set<Cell>,
                  ghost t: Table,
                  ghost nodes: Chain, ghost k: nat, ghost goal: Table)
      returns (moved: nat, ghost r: seq<seq<Cell>>, ghost all: set<Cell>, ghost t': Table)
    requires Tabled(table[..], chains, cells) && t.buckets == Buckets(chains, cells)
    requires table.Length > 0 && node !in cells
    requires k < |nodes| && nodes[k] == NodeOf(node) && PushAll(h, t, nodes[k..]) == goal
    modifies table, node`next
    ensures t'.used == t.used + moved && moved <= 1 && cells <= all <= cells + {node}
    ensures Tabled(table[..], r, all) && Buckets(r, all) == t'.buckets
    ensures t'.buckets != [] && PushAll(h, t', nodes[k + 1..]) == goal
  {
    PushAllUnfolds(h, t, nodes, k);
    var _, _, cell, _ := Locate(h, table, node.key, chains, cells, t);
    if cell != null {
      return 0, chains, cells, t;
    }
    r := PushFront(h, table, node, chains, cells, t);
    return 1, r, cells + {node}, Push(h, t, nodes[k]);
  }

  /** The cells so far are those at the start and some of the chain's first `k`. */
  ghost predicate Gained(cells: set<Cell>, all: set<Cell>, c: seq<Cell>, k: nat)
    requires k <= |c|
  {
    cells <= all && forall x :: x in all ==> x in cells || x in c[..k]
  }

  lemma GainedNext(cells: set<Cell>, all: set<Cell>, c: seq<Cell>, k: nat)
    requires k < |c| && Gained(cells, all, c, k) && Distinct(c) && forall i :: 0 <= i < |c| ==> c[i] !in cells
    ensures c[k] !in all && forall more :: all <= more <= all + {c[k]} ==> Gained(cells, more, c, k + 1)
  {
    assert c[..k + 1] == c[..k] + [c[k]];
  }

  /** The links after a node that is taken away from the front. */
  lemma LinkedRest(head: Cell?, c: seq<Cell>, k: nat)
    requires k < |c| && Linked(head, c[k..])
    ensures head == c[k] && head.next == CellAt(c[k + 1..], 0) && Linked(head.next, c[k + 1..])
  {
    var d, e := c[k..], c[k + 1..];
    assert forall i :: 0 <= i < |e| ==> e[i] == d[i + 1];
  }

  lemma AllMoved(h: Hash, now: Table, nodes: Chain, k: nat, goal: Table, c: seq<Cell>)
    requires k <= |c| == |nodes| && Linked(null, c[k..]) && now.buckets != [] && PushAll(h, now, nodes[k..]) == goal
    ensures k == |c| && now == goal
  {
    assert c[k..] == [];
  }

  /** One round of the inner loop of the migration: node number `k` of the chain `c`. */
  method MoveStep(h: Hash, table: array<Cell?>, node: Cell, ghost c: seq<Cell>, ghost k: nat, ghost nodes: Chain,
                  ghost start: set<Cell>, ghost chains: seq<seq<Cell>>, ghost cells: set<Cell>, ghost t: Table,
                  ghost goal: Table)
      returns (next: Cell?, moved: nat, ghost r: seq<seq<Cell>>, ghost all: set<Cell>, ghost t': Table)
    requires Tabled(table[..], chains, cells) && t.buckets == Buckets(chains, cells) && t.buckets != []
    requires k < |c| && Linked(node, c[k..]) && Distinct(c)
    requires Gained(start, cells, c, k) && forall i :: 0 <= i < |c| ==> c[i] !in start
    requires nodes == Contents(c) && PushAll(h, t, nodes[k..]) == goal
    modifies table, node`next
    ensures Linked(next, c[k + 1..]) && Gained(start, all, c, k + 1) && t'.used == t.used + moved
    ensures Tabled(table[..], r, all) && Buckets(r, all) == t'.buckets
    ensures t'.buckets != [] && PushAll(h, t', nodes[k + 1..]) == goal
  {
    GainedNext(start, cells, c, k);
    LinkedRest(node, c, k);
    next := node.next;
    moved, r, all, t' := MoveNode(h, table, node, chains, cells, t, nodes, k, goal);
  }

  method MoveRound(h: Hash, table: array<Cell?>, node: Cell, ghost c: seq<Cell>, ghost k: nat, ghost nodes: Chain,
                   ghost start: set<Cell>, ghost chains: seq<seq<Cell>>, ghost cells: set<Cell>, ghost t: Table,
                   ghost goal: Table)
      returns (next: Cell?, moved: nat, ghost r: seq<seq<Cell>>, ghost all: set<Cell>, ghost t': Table)
    requires Tabled(table[..], chains, cells) && t.buckets == Buckets(chains, cells) && t.buckets != []
    requires k < |c| && Linked(node, c[k..]) && Distinct(c)
    requires Gained(start, cells, c, k) && forall i :: 0 <= i < |c| ==> c[i] !in start
    requires nodes == Contents(c) && PushAll(h, t, nodes[k..]) == goal
    modifies table, node`next
    ensures Linked(next, c[k + 1..]) && Gained(start, all, c, k + 1) && t'.used == t.used + moved
    ensures Tabled(table[..], r, all) && Buckets(r, all) == t'.buckets
    ensures t'.buckets != [] && nodes == Contents(c) && PushAll(h, t', nodes[k + 1..]) == goal
  {
    next, moved, r, all, t' := MoveStep(h, table, node, c, k, nodes, start, chains, cells, t, goal);
    assert Contents(c) == nodes;
  }

  /** The inner loop of the migration: node by node into another table, except for keys that are there. */
  method MoveChain(h: Hash, table: array<Cell?>, head: Cell?, ghost c: seq<Cell>, ghost chains: seq<seq<Cell>>,
                   ghost cells: set<Cell>, ghost t: Table)
      returns (moved: nat, ghost r: seq<seq<Cell>>, ghost all: set<Cell>)
    requires Tabled(table[..], chains, cells) && t.buckets == Buckets(chains, cells) && table.Length > 0
    requires Linked(head, c) && forall i :: 0 <= i < |c| ==> c[i] !in cells
    modifies table, c`next
    ensures t.used + moved == PushAll(h, t, Contents(c)).used && Gained(cells, all, c, |c|)
    ensures Tabled(table[..], r, all) && Buckets(r, all) == PushAll(h, t, Contents(c)).buckets
  {
    var node := head;
    moved, r, all := 0, chains, cells;
    ghost var k, now, nodes := 0, t, Contents(c);
    ghost var goal := PushAll(h, t, nodes);
    assert c[0..] == c && nodes[0..] == nodes;
    while node != null
      invariant k <= |c| && Linked(node, c[k..]) && Gained(cells, all, c, k)
      invariant Tabled(table[..], r, all) && Buckets(r, all) == now.buckets && now.used == t.used + moved
      invariant now.buckets != [] && nodes == Contents(c) && PushAll(h, now, nodes[k..]) == goal
      decreases |c| - k
    {
      var m;
      node, m, r, all, now := MoveRound(h, table, node, c, k, nodes, cells, r, all, now, goal);
      moved := moved + m;
      k := k + 1;
    }
    AllMoved(h, now, nodes, k, goal, c);
  }
}
