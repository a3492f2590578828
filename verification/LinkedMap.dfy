/**
 The map with its nodes linked: two tables whose chains have no node in common, and the whole operations on
 them.
 */
module LinkedMap {
  import opened MapSpec
  import opened MapLinks
  import opened MapWorld
  import opened MapRuns
  import HashMap

  /** The first `n` buckets are chains of their own nodes, with these contents. */
  ghost predicate Laid(heads: seq<Cell?>, chains: seq<seq<Cell>>, cells: set<Cell>, buckets: seq<Chain>, n: nat)
    requires n <= |chains| == |heads| == |buckets|
    reads cells
  {
    n == 0 ||
    (Laid(heads, chains, cells, buckets, n - 1) && Within(chains[n - 1], cells) &&
     Linked(heads[n - 1], chains[n - 1]) && Contents(chains[n - 1]) == buckets[n - 1] &&
     forall a :: 0 <= a < n - 1 ==> Apart(chains[a], chains[n - 1]))
  }

  lemma {:induction false} LaidIff(heads: seq<Cell?>, chains: seq<seq<Cell>>, cells: set<Cell>, buckets: seq<Chain>,
                                   n: nat)
    requires n <= |chains| == |heads| == |buckets|
    ensures Laid(heads, chains, cells, buckets, n) <==>
              && (forall b :: 0 <= b < n ==>
                         Within(chains[b], cells) && Linked(heads[b], chains[b]) && Contents(chains[b]) == buckets[b])
              && forall a, b :: 0 <= a < b < n ==> Apart(chains[a], chains[b])
  {
    if n > 0 {
      LaidIff(heads, chains, cells, buckets, n - 1);
    }
  }

  lemma {:induction false} TabledLaid(heads: seq<Cell?>, chains: seq<seq<Cell>>, cells: set<Cell>,
                                      buckets: seq<Chain>)
    requires Tabled(heads, chains, cells) && Buckets(chains, cells) == buckets
    ensures |chains| == |heads| == |buckets| && Laid(heads, chains, cells, buckets, |chains|)
  {
    LaidIff(heads, chains, cells, buckets, |chains|);
  }

  /** A `kmap_ht_t`. */
  class Block {
    const heads: array<Cell?>
    var used: nat
    ghost var chains: seq<seq<Cell>>
    ghost var cells: set<Cell>

    /** The same chains as sequences. */
    ghost var value: Table

    ghost predicate Valid()
      reads this, heads, cells
    {
      && |chains| == heads.Length == |value.buckets| && used == value.used
      && Laid(heads[..], chains, cells, value.buckets, |chains|)
    }

    /** The same, as it is used where links change. */
    ghost predicate Open()
      reads this, heads, cells
    {
      Tabled(heads[..], chains, cells) && Buckets(chains, cells) == value.buckets && used == value.used
    }

    lemma {:induction false} OpenIff()
      ensures Valid() <==> Open()
    {
      if |chains| == heads.Length == |value.buckets| {
        LaidIff(heads[..], chains, cells, value.buckets, |chains|);
        if AllWithin(chains, cells) {
          assert Buckets(chains, cells) == value.buckets <==>
                 forall b :: 0 <= b < |chains| ==> Contents(chains[b]) == value.buckets[b];
        }
      }
    }

    constructor (cap: nat)
      ensures Valid() && cells == {} && fresh(heads) && heads.Length == cap
      ensures value == Table(seq(cap, i => []), 0)
    {
      heads, used := new Cell?[cap](i => null), 0;
      chains, cells, value := seq(cap, i => []), {}, Table(seq(cap, i => []), 0);
      new;
      assert Contents([]) == [];
      OpenIff();
    }

    /** A bucket without a first node is empty. */
    lemma NullIff(b: nat)
      requires Valid() && b < heads.Length
      ensures heads[b] == null <==> value.buckets[b] == []
    {
      OpenIff();
      assert Linked(heads[b], chains[b]) && Contents(chains[b]) == value.buckets[b];
    }

    /** Where the node of a key is. */
    method Spot(h: Hash, key: Key) returns (b: nat, prev: Cell?, cell: Cell?, ghost i: nat)
      requires Valid()
      ensures cell != null <==> Has(h, value, key)
      ensures cell != null ==> cell in cells && cell.key == key && NodeOf(cell) == Get(h, value, key)
      ensures cell != null ==> Sits(h, cell, prev, chains, value, b, i)
    {
      OpenIff();
      b, prev, cell, i := Locate(h, heads, key, chains, cells, value);
    }

    /** The node of a key. */
    method Lookup(h: Hash, key: Key) returns (cell: Cell?)
      requires Valid()
      ensures cell != null <==> Has(h, value, key)
      ensures cell != null ==> cell in cells && NodeOf(cell) == Get(h, value, key)
    {
      var _, _, c, _ := Spot(h, key);
      cell := c;
    }

    /** `unlink` in one table. */
    method Remove(h: Hash, key: Key) returns (cell: Cell?)
      requires Valid()
      modifies this`used, this`chains, this`cells, this`value, heads, cells`next
      ensures Valid() && cells <= old(cells)
      ensures cell != null <==> Has(h, old(value), key)
      ensures cell != null ==> cell in old(cells) && NodeOf(cell) == Get(h, old(value), key)
      ensures value == if cell != null then Cut(h, old(value), key) else old(value)
    {
      ghost var t := value;
      var b, prev, c, i := Spot(h, key);
      if c != null {
        RemoveAt(h, b, prev, c, i, t);
      }
      return c;
    }

    method RemoveAt(h: Hash, b: nat, prev: Cell?, cell: Cell, ghost i: nat, ghost t: Table)
      requires Valid() && t == value && Sits(h, cell, prev, chains, t, b, i)
      modifies this`used, this`chains, this`cells, this`value, heads, cells`next
      ensures Valid() && cells == old(cells) - {cell}
      ensures Has(h, t, cell.key) && value == Cut(h, t, cell.key)
    {
      OpenIff();
      ghost var r := UnlinkFound(h, heads, b, prev, cell, chains, cells, i, t);
      Became(r, cells - {cell}, Less(used), Cut(h, t, cell.key));
    }

    /** The fields after the links have changed. */
    method Became(ghost r: seq<seq<Cell>>, ghost all: set<Cell>, n: nat, ghost t: Table)
      requires Tabled(heads[..], r, all) && Buckets(r, all) == t.buckets && t.used == n
      modifies this`used, this`chains, this`cells, this`value
      ensures Valid() && cells == all && value == t
    {
      TabledLaid(heads[..], r, all, t.buckets);
      used := n;
      chains, cells, value := r, all, t;
    }

    /** An insertion into one table: the node that has the key already, or null. */
    method Add(h: Hash, cell: Cell) returns (found: Cell?)
      requires Valid() && heads.Length > 0 && cell !in cells
      modifies this`used, this`chains, this`cells, this`value, heads, cell`next
      ensures Valid() && old(cells) <= cells <= old(cells) + {cell}
      ensures found != null <==> Has(h, old(value), cell.key)
      ensures found != null ==> found in old(cells) && NodeOf(found) == Get(h, old(value), cell.key)
      ensures value == if found != null then old(value) else Push(h, old(value), NodeOf(cell))
    {
      ghost var t := value;
      found := Lookup(h, cell.key);
      if found == null {
        AddFront(h, cell, t);
      }
    }

    method AddFront(h: Hash, cell: Cell, ghost t: Table)
      requires Valid() && t == value && heads.Length > 0 && cell !in cells
      modifies this`used, this`chains, this`cells, this`value, heads, cell`next
      ensures Valid() && cells == old(cells) + {cell} && value == Push(h, t, old(NodeOf(cell)))
    {
      ghost var n := NodeOf(cell);
      OpenIff();
      ghost var r := PushFront(h, heads, cell, chains, cells, t);
      Became(r, cells + {cell}, used + 1, Push(h, t, n));
    }

    /** `replace` in one table. */
    method Change(h: Hash, key: Key, val: int) returns (cell: Cell?)
      requires Valid()
      modifies cells`val, this`used, this`chains, this`cells, this`value
      ensures Valid() && cells == old(cells) && (cell != null <==> Has(h, old(value), key))
      ensures value == if cell != null then Put(h, old(value), key, val) else old(value)
    {
      ghost var t := value;
      var b, prev, c, i := Spot(h, key);
      if c != null {
        ChangeAt(h, c, val, prev, b, i, t);
      }
      return c;
    }

    method ChangeAt(h: Hash, cell: Cell, val: int, ghost prev: Cell?, ghost b: nat, ghost i: nat, ghost t: Table)
      requires Valid() && t == value && cell in cells && Sits(h, cell, prev, chains, t, b, i)
      modifies cell`val, this`used, this`chains, this`cells, this`value
      ensures Valid() && cells == old(cells) && used == old(used)
      ensures Has(h, t, cell.key) && value == Put(h, t, cell.key, val)
    {
      OpenIff();
      ReplaceFound(h, cell, val, prev, chains, cells, b, i, t);
      Became(chains, cells, used, Put(h, t, cell.key, val));
    }

    /** The nodes of bucket `b` come over from the other table, one by one. */
    method MoveOver(h: Hash, from: Block, b: nat, ghost t: Table) returns (moved: nat)
      requires Valid() && from.Valid() && Separate(from) && b < from.heads.Length && heads.Length > 0
      requires t == PushAll(h, value, from.value.buckets[b])
      modifies this`used, this`chains, this`cells, this`value, heads
      modifies from`used, from`chains, from`cells, from`value, from.heads, from.cells`next
      ensures Valid() && from.Valid() && Separate(from)
      ensures from.cells <= old(from.cells) && cells <= old(cells) + old(from.cells)
      ensures value == t && used == old(used) + moved
      ensures from.value == Table(old(from.value).buckets[b := []], LessAll(old(from.used), moved))
    {
      ghost var c, mine, other := from.chains[b], cells, from.cells;
      ghost var rest := from.SetAside(b);
      OutsideOf(c, other, mine);
      moved := MoveChainOver(h, from, b, c, t, rest);
      HandedOver(mine, cells, c, other, rest);
    }

    /** The same, once the cells of bucket `b` are told from the others. */
    method MoveChainOver(h: Hash, from: Block, b: nat, ghost c: seq<Cell>, ghost t: Table, ghost rest: set<Cell>)
      returns (moved: nat)
      requires Valid() && heads.Length > 0 && this != from && heads != from.heads
      requires b < from.heads.Length == |from.chains| == |from.value.buckets| && c == from.chains[b]
      requires Linked(from.heads[b], c) && Within(c, from.cells) && forall x :: x in c ==> x !in cells && x !in rest
      requires Contents(c) == from.value.buckets[b] && t == PushAll(h, value, from.value.buckets[b])
      requires Laid(from.heads[..][b := null], from.chains[b := []], rest, from.value.buckets[b := []], |from.chains|)
      modifies this`used, this`chains, this`cells, this`value, heads
      modifies from`used, from`chains, from`cells, from`value, from.heads, c`next
      ensures Valid() && from.Valid() && from.cells == rest && Gained(old(cells), cells, c, |c|)
      ensures value == t && used == old(used) + moved
      ensures from.value == Table(old(from.value).buckets[b := []], LessAll(old(from.used), moved))
    {
      var left := from.used;
      ghost var nodes := from.value.buckets[b];
      ghost var heads', chains' := from.heads[..][b := null], from.chains[b := []];
      ghost var buckets' := from.value.buckets[b := []];
      moved := BringOver(h, from.heads[b], c, nodes, t, heads', chains', rest, buckets');
      from.Emptied(b, LessAll(left, moved), heads', chains', rest, buckets');
    }

    /** The nodes of a chain come in; what is laid out with other cells stays as it is. */
    method BringOver(h: Hash, head: Cell?, ghost c: seq<Cell>, ghost nodes: Chain, ghost t: Table,
                     ghost heads': seq<Cell?>, ghost chains': seq<seq<Cell>>, ghost cells': set<Cell>,
                     ghost buckets': seq<Chain>)
      returns (moved: nat)
      requires Valid() && heads.Length > 0 && Linked(head, c) && forall x :: x in c ==> x !in cells && x !in cells'
      requires nodes == Contents(c) && t == PushAll(h, value, nodes)
      requires |heads'| == |chains'| == |buckets'| && Laid(heads', chains', cells', buckets', |chains'|)
      modifies this`used, this`chains, this`cells, this`value, heads, c`next
      ensures Valid() && Gained(old(cells), cells, c, |c|) && value == t && used == old(used) + moved
      ensures Laid(heads', chains', cells', buckets', |chains'|)
    {
      moved := Receive(h, head, c, nodes, t);
    }

    ghost predicate Separate(other: Block)
      reads this`cells, other`cells
    {
      this != other && heads != other.heads && cells !! other.cells
    }

    /** The nodes of a chain come in, except for those whose key is here. */
    method Receive(h: Hash, head: Cell?, ghost c: seq<Cell>, ghost nodes: Chain, ghost t: Table)
      returns (moved: nat)
      requires Valid() && heads.Length > 0 && Linked(head, c) && (forall x :: x in c ==> x !in cells)
      requires nodes == Contents(c) && t == PushAll(h, value, nodes)
      modifies this`used, this`chains, this`cells, this`value, heads, c`next
      ensures Valid() && Gained(old(cells), cells, c, |c|)
      ensures value == t && used == old(used) + moved
    {
      OpenIff();
      ghost var r, all;
      moved, r, all := MoveChain(h, heads, head, c, chains, cells, value);
      Became(r, all, used + moved, t);
    }

    /** The other buckets do without the chain of bucket `b`. */
    lemma {:induction false} SetAside(b: nat) returns (rest: set<Cell>)
      requires Valid() && b < heads.Length
      ensures Linked(heads[b], chains[b]) && Within(chains[b], cells) && Contents(chains[b]) == value.buckets[b]
      ensures rest <= cells && forall x :: x in chains[b] ==> x !in rest
      ensures Laid(heads[..][b := null], chains[b := []], rest, value.buckets[b := []], |chains|)
    {
      OpenIff();
      rest := cells - set x | x in chains[b];
      WithoutBucket(heads[..], chains, cells, b, rest);
      LaidIff(heads[..][b := null], chains[b := []], rest, value.buckets[b := []], |chains|);
    }

    /** A bucket whose nodes are gone. */
    method Emptied(b: nat, n: nat, ghost heads': seq<Cell?>, ghost chains': seq<seq<Cell>>, ghost rest: set<Cell>,
                   ghost buckets': seq<Chain>)
      requires b < heads.Length == |heads'| && heads'[b] == null
      requires forall a :: 0 <= a < heads.Length && a != b ==> heads[a] == heads'[a]
      requires |heads'| == |chains'| == |buckets'| && Laid(heads', chains', rest, buckets', |chains'|)
      modifies this`used, this`chains, this`cells, this`value, heads
      ensures Valid() && cells == rest && value == Table(buckets', n)
    {
      heads[b] := null;
      assert heads[..] == heads';
      used := n;
      chains, cells, value := chains', rest, Table(buckets', n);
    }
  }

  lemma OutsideOf(c: seq<Cell>, cells: set<Cell>, other: set<Cell>)
    requires Within(c, cells) && cells !! other
    ensures forall x :: x in c ==> x !in other
  {
  }

  /** The cells of a chain have changed sides, or are gone. */
  lemma HandedOver(mine: set<Cell>, mine': set<Cell>, c: seq<Cell>, other: set<Cell>, other': set<Cell>)
    requires mine !! other && Within(c, other) && Gained(mine, mine', c, |c|)
    requires other' <= other && forall x :: x in c ==> x !in other'
    ensures mine' !! other' && mine' <= mine + other
  {
    forall x | x in mine' ensures x !in other' && x in mine + other {
      assert x in mine || x in c[..|c|];
    }
  }

  lemma {:induction false} WithoutBucket(heads: seq<Cell?>, chains: seq<seq<Cell>>, cells: set<Cell>, b: nat,
                                         rest: set<Cell>)
    requires |chains| == |heads| && b < |chains| && AllWithin(chains, cells) && AllApart(chains)
    requires forall a :: 0 <= a < |chains| && a != b ==> Linked(heads[a], chains[a])
    requires rest == cells - set x | x in chains[b]
    ensures Tabled(heads[b := null], chains[b := []], rest)
    ensures Buckets(chains[b := []], rest) == Buckets(chains, cells)[b := []]
  {
    var r := chains[b := []];
    OthersWithin(chains, cells, b, rest);
    assert Tabled(heads[b := null], r, rest) by {
      assert AllApart(r);
    }
    var x, y := Buckets(r, rest), Buckets(chains, cells);
    forall a | 0 <= a < |x| ensures x[a] == if a == b then [] else y[a] {
      assert Contents([]) == [];
    }
  }

  lemma OthersWithin(chains: seq<seq<Cell>>, cells: set<Cell>, b: nat, rest: set<Cell>)
    requires b < |chains| && AllWithin(chains, cells) && AllApart(chains) && rest == cells - set x | x in chains[b]
    ensures AllWithin(chains[b := []], rest)
  {
    forall a | 0 <= a < |chains| && a != b ensures Within(chains[a], rest) {
      assert Apart(chains[if a < b then a else b], chains[if a < b then b else a]);
    }
  }

  /** A `kmap_t`. */
  class Guard {
    const hash: Hash
    var ht0: Block
    var ht1: Block
    var rehashidx: int

    ghost function Value(): Map
      reads this, ht0, ht1
    {
      Map(ht0.value, ht1.value, rehashidx)
    }

    ghost predicate Valid()
      reads this, ht0, ht0.heads, ht0.cells, ht1, ht1.heads, ht1.cells
    {
      ht0.Valid() && ht1.Valid() && ht1.Separate(ht0)
    }

    /** No other nodes than these. */
    ghost predicate Within(all: set<Cell>)
      reads this, ht0, ht1
    {
      ht0.cells <= all && ht1.cells <= all
    }

    constructor (hash: Hash)
      ensures Valid() && Value() == EMPTY && this.hash == hash && Within({})
    {
      this.hash := hash;
      ht0 := new Block(0);
      ht1 := new Block(0);
      rehashidx := -1;
    }

    /** `kylin_map_find`. */
    method Find(key: Key) returns (cell: Cell?)
      requires Valid()
      ensures cell != null <==> HashMap.Present(hash, Value(), key)
      ensures cell != null ==> NodeOf(cell) == HashMap.Located(hash, Value(), key)
    {
      cell := ht0.Lookup(hash, key);
      if cell == null && rehashidx != -1 {
        cell := ht1.Lookup(hash, key);
      }
    }

    // -------------------------------------------------------------- migration

    /** The scan for a bucket with nodes; it leaves the table if there is none. */
    method Scan() returns (escaped: bool)
      requires Valid() && MayRehash(Value())
      modifies this`rehashidx
      ensures escaped <==> NextFull(ht0.value.buckets, old(rehashidx)) == |ht0.value.buckets|
      ensures rehashidx == NextFull(ht0.value.buckets, old(rehashidx))
    {
      ghost var buckets, start := ht0.value.buckets, rehashidx;
      while rehashidx < ht0.heads.Length && ht0.heads[rehashidx] == null
        invariant 0 <= rehashidx <= |buckets| && NextFull(buckets, rehashidx) == NextFull(buckets, start)
        decreases |buckets| - rehashidx
      {
        ht0.NullIff(rehashidx);
        rehashidx := rehashidx + 1;
      }
      if rehashidx < ht0.heads.Length {
        ht0.NullIff(rehashidx);
      }
      escaped := rehashidx == ht0.heads.Length;
    }

    /** One round of the migration. */
    method MoveOne() returns (escaped: bool)
      requires Valid() && MayRehash(Value()) && ht0.used != 0
      modifies this`rehashidx, ht0, ht0.heads, ht0.cells`next, ht1, ht1.heads
      ensures Round(hash, old(Value())) == if escaped then Escaped else Went(Value())
      ensures Valid() && ht0.cells <= old(ht0.cells) && ht1.cells <= old(ht0.cells) + old(ht1.cells)
    {
      ghost var s := Value();
      escaped := Scan();
      if !escaped {
        ghost var t := PushAll(hash, s.ht1, s.ht0.buckets[rehashidx]);
        ghost var n, r := RoundIs(hash, s, rehashidx, t);
        MoveHere(rehashidx, t, n, r);
      }
    }

    /** The nodes of one bucket. */
    method MoveHere(b: nat, ghost t: Table, ghost n: nat, ghost r: Map)
      requires Valid() && b < |ht0.value.buckets| && ht1.value.buckets != []
      requires t == PushAll(hash, ht1.value, ht0.value.buckets[b]) && t.used == ht1.used + n && r.ht1 == t
      requires r.ht0 == Table(ht0.value.buckets[b := []], LessAll(ht0.used, n)) && r.rehashidx == b + 1
      modifies this`rehashidx, ht0, ht0.heads, ht0.cells`next, ht1, ht1.heads
      ensures Valid() && Value() == r
      ensures ht0.cells <= old(ht0.cells) && ht1.cells <= old(ht0.cells) + old(ht1.cells)
    {
      ghost var used := ht0.used;
      var moved := ht1.MoveOver(hash, ht0, b, t);
      SameLess(used, moved, n);
      rehashidx := b + 1;
    }

    /** The same with what it means for the maps. */
    method MoveRound(ghost w: World) returns (escaped: bool, ghost w': World)
      requires Valid() && Two(hash, Value(), w) && Rehashing(Value()) && ht0.used != 0
      modifies this`rehashidx, ht0, ht0.heads, ht0.cells`next, ht1, ht1.heads
      ensures Round(hash, old(Value())) == if escaped then Escaped else Went(Value())
      ensures !escaped ==> Two(hash, Value(), w') && Rehashing(Value())
      ensures Valid() && ht0.cells <= old(ht0.cells) && ht1.cells <= old(ht0.cells) + old(ht1.cells)
    {
      w' := RoundTwo(hash, Value(), w);
      escaped := MoveOne();
    }

    method MoveNext(ghost s: Map, ghost k: nat, ghost w: World) returns (escaped: bool, ghost k': nat, ghost w': World)
      requires Valid() && Two(hash, Value(), w) && Rehashing(Value()) && ht0.used != 0
      requires Moves(hash, s, k) == Went(Value())
      modifies this`rehashidx, ht0, ht0.heads, ht0.cells`next, ht1, ht1.heads
      ensures k' == k + 1 && Moves(hash, s, k') == if escaped then Escaped else Went(Value())
      ensures !escaped ==> Two(hash, Value(), w') && Rehashing(Value())
      ensures Valid() && ht0.cells <= old(ht0.cells) && ht1.cells <= old(ht0.cells) + old(ht1.cells)
    {
      k' := HashMap.MovesNext(hash, s, k, Value());
      escaped, w' := MoveRound(w);
    }

    /** The loop of the migration. */
    method MoveLoop(step: nat, ghost s: Map, ghost w: World, ghost all: set<Cell>)
      returns (escaped: bool, ghost k: nat, ghost w': World)
      requires Valid() && Two(hash, Value(), w) && Rehashing(Value()) && s == Value() && Within(all)
      modifies this`rehashidx, ht0, ht0.heads, all`next, ht1, ht1.heads
      ensures k <= step && Moves(hash, s, k) == if escaped then Escaped else Went(Value())
      ensures !escaped ==> Two(hash, Value(), w') && Rehashing(Value()) && (k == step || ht0.used == 0)
      ensures Valid() && Within(all)
    {
      k, w' := 0, w;
      escaped := false;
      var left := step;
      while left > 0 && ht0.used != 0
        invariant k + left == step && !escaped && Valid() && Within(all)
        invariant Two(hash, Value(), w') && Rehashing(Value()) && Moves(hash, s, k) == Went(Value())
        decreases left
      {
        escaped, k, w' := MoveNext(s, k, w');
        if escaped {
          return;
        }
        left := left - 1;
      }
    }

    method MoveSome(step: nat, ghost w: World, ghost all: set<Cell>) returns (escaped: bool, ghost w': World)
      requires Valid() && Two(hash, Value(), w) && Rehashing(Value()) && Within(all)
      modifies this`rehashidx, ht0, ht0.heads, all`next, ht1, ht1.heads
      ensures Moves(hash, old(Value()), step) == if escaped then Escaped else Went(Value())
      ensures !escaped ==> Two(hash, Value(), w') && Rehashing(Value())
      ensures Valid() && Within(all)
    {
      ghost var s, k := Value(), 0;
      escaped, k, w' := MoveLoop(step, s, w, all);
      HashMap.MovesStay(hash, s, k, step);
    }

    /** When nothing is left to move, the second table takes the place of the first. */
    method SettleTables(ghost all: set<Cell>)
      requires Valid() && Within(all)
      modifies this`rehashidx, this`ht0, this`ht1
      ensures Valid() && Within(all) && Value() == Settle(old(Value()))
      ensures ht0 == old(ht0) || ht0 == old(ht1)
      ensures ht1 == old(ht1) || (fresh(ht1) && fresh(ht1.heads))
    {
      if ht0.used == 0 {
        ht0 := ht1;
        ht1 := new Block(0);
        rehashidx := -1;
      }
    }

    /** `_map_rehash`. */
    method Migrate(step: nat, ghost w: World, ghost all: set<Cell>) returns (escaped: bool, ghost w': World)
      requires Valid() && Two(hash, Value(), w) && Within(all)
      modifies this`rehashidx, this`ht0, this`ht1, ht0, ht0.heads, all`next, ht1, ht1.heads
      ensures Rehash(hash, old(Value()), step) == if escaped then Escaped else Went(Value())
      ensures !escaped ==> Two(hash, Value(), w')
      ensures Valid() && Within(all)
      ensures ht0 == old(ht0) || ht0 == old(ht1)
      ensures ht1 == old(ht1) || (fresh(ht1) && fresh(ht1.heads))
    {
      escaped, w' := false, w;
      if rehashidx != -1 {
        escaped, w' := MoveSome(step, w, all);
        if !escaped {
          SettleTwo(hash, Value(), w');
          w' := SettledFrom(Value(), w');
          SettleTables(all);
        }
      }
    }

    // ------------------------------------------------------------- operations

    /** The end of an `unlink`. */
    method RemoveKey(key: Key, ghost all: set<Cell>) returns (cell: Cell?)
      requires Valid() && Within(all)
      modifies ht0, ht0.heads, all`next, ht1, ht1.heads
      ensures Valid() && Within(all) && Value() == Removed(hash, old(Value()), key)
      ensures cell != null <==> HashMap.Present(hash, old(Value()), key)
      ensures cell != null ==> cell in all && NodeOf(cell) == HashMap.Located(hash, old(Value()), key)
    {
      cell := ht0.Remove(hash, key);
      if cell == null && rehashidx != -1 {
        cell := ht1.Remove(hash, key);
      }
    }

    /** `kylin_map_unlink`. */
    method UnlinkKey(key: Key, ghost w: World, ghost all: set<Cell>)
      returns (escaped: bool, cell: Cell?, ghost w': World)
      requires Valid() && Two(hash, Value(), w) && Within(all)
      modifies this`rehashidx, this`ht0, this`ht1, ht0, ht0.heads, all`next, ht1, ht1.heads
      ensures Unlink(hash, old(Value()), key) == if escaped then Escaped else Went(Value())
      ensures Valid() && Within(all) && (!escaped ==> Two(hash, Value(), w'))
      ensures !escaped ==> (cell != null <==> HashMap.Finds(hash, old(Value()), key))
      ensures !escaped && cell != null ==>
                cell in all && NodeOf(cell) == HashMap.FoundNode(hash, old(Value()), key)
    {
      ghost var s := Value();
      escaped, w' := Migrate(1, w, all);
      cell := null;
      if !escaped {
        cell, w' := UnlinkNow(key, s, w', all);
      }
    }

    /** The same after its migration step. */
    method UnlinkNow(key: Key, ghost s: Map, ghost w: World, ghost all: set<Cell>)
      returns (cell: Cell?, ghost w': World)
      requires Valid() && Two(hash, Value(), w) && Within(all) && Step(hash, s) == Went(Value())
      modifies ht0, ht0.heads, all`next, ht1, ht1.heads
      ensures Unlink(hash, s, key) == Went(Value())
      ensures Valid() && Within(all) && Two(hash, Value(), w')
      ensures cell != null <==> HashMap.Finds(hash, s, key)
      ensures cell != null ==> cell in all && NodeOf(cell) == HashMap.FoundNode(hash, s, key)
    {
      RemovedTwo(hash, Value(), w, key);
      w' := WithoutKey(w, key);
      cell := RemoveKey(key, all);
    }

    /** The end of a `replace`. */
    method ChangeKey(key: Key, val: int, ghost all: set<Cell>) returns (cell: Cell?)
      requires Valid() && Within(all)
      modifies ht0, ht1, all`val
      ensures Valid() && Within(all) && Value() == Changed(hash, old(Value()), key, val)
      ensures cell != null <==> Has(hash, old(Value()).ht0, key) || Has(hash, old(Value()).ht1, key)
    {
      cell := ht0.Change(hash, key, val);
      if cell == null {
        cell := ht1.Change(hash, key, val);
      }
    }

    /** `kylin_map_replace`. */
    method ReplaceValue(key: Key, val: int, ghost w: World, ghost all: set<Cell>)
      returns (escaped: bool, cell: Cell?, ghost w': World)
      requires Valid() && Two(hash, Value(), w) && Within(all)
      modifies this`rehashidx, this`ht0, this`ht1, ht0, ht0.heads, all, ht1, ht1.heads
      ensures Replace(hash, old(Value()), key, val) == if escaped then Escaped else Went(Value())
      ensures Valid() && Within(all) && (!escaped ==> Two(hash, Value(), w'))
      ensures !escaped ==> (cell != null <==> HashMap.Finds(hash, old(Value()), key))
    {
      ghost var s := Value();
      escaped, w' := Migrate(1, w, all);
      cell := null;
      if !escaped {
        cell, w' := ReplaceNow(key, val, s, w', all);
      }
    }

    method ReplaceNow(key: Key, val: int, ghost s: Map, ghost w: World, ghost all: set<Cell>)
      returns (cell: Cell?, ghost w': World)
      requires Valid() && Two(hash, Value(), w) && Within(all) && Step(hash, s) == Went(Value())
      modifies ht0, ht1, all`val
      ensures Replace(hash, s, key, val) == Went(Value())
      ensures Valid() && Within(all) && Two(hash, Value(), w')
      ensures cell != null <==> HashMap.Finds(hash, s, key)
    {
      HashMap.ChangedHere(hash, Value(), w, key, val);
      w' := WithValue(w, key, val);
      cell := ChangeKey(key, val, all);
    }

    /** `kylin_map_resize`; a `count` below 2 shifts by an undefined or too large amount. */
    method ResizeTo(count: nat, ghost all: set<Cell>) returns (e: Status)
      requires Valid() && Within(all) && count >= 2
      modifies this`rehashidx, this`ht0, this`ht1
      ensures Valid() && Within(all) && (Value(), e) == Resize(old(Value()), count)
      ensures ht0 == old(ht0) || (fresh(ht0) && fresh(ht0.heads))
      ensures ht1 == old(ht1) || (fresh(ht1) && fresh(ht1.heads))
    {
      if rehashidx != -1 {
        return Busy;
      }
      var cap := Roundup(count);
      if cap == ht0.heads.Length {
        return Exist;
      }
      var t := new Block(cap);
      if ht0.heads.Length == 0 {
        ht0 := t;
      } else {
        ht1, rehashidx := t, 0;
      }
      return Ok;
    }

    /** The expansion at the start of an insertion. */
    method ExpandNow(ghost w: World, ghost all: set<Cell>)
      requires Valid() && Two(hash, Value(), w) && Within(all)
      modifies this`rehashidx, this`ht0, this`ht1
      ensures Valid() && Within(all) && Value() == Expand(old(Value())).0 && Two(hash, Value(), w)
      ensures ht0 == old(ht0) || (fresh(ht0) && fresh(ht0.heads))
      ensures ht1 == old(ht1) || (fresh(ht1) && fresh(ht1.heads))
    {
      ExpandTwo(hash, Value(), w);
      if ht0.heads.Length == 0 {
        var _ := ResizeTo(4, all);
      } else if ht0.used / ht0.heads.Length > FORCE_RESIZE_RATIO {
        Overfull(ht0.used, ht0.heads.Length);
        var _ := ResizeTo(ht0.used * 2, all);
      }
    }

    /** The expansion and the migration step before an insertion. */
    method Prepare(ghost w: World, ghost all: set<Cell>) returns (escaped: bool, ghost w': World)
      requires Valid() && Two(hash, Value(), w) && Within(all)
      modifies this`rehashidx, this`ht0, this`ht1, ht0, ht0.heads, all`next, ht1, ht1.heads
      ensures Prepared(hash, old(Value())) == if escaped then Escaped else Went(Value())
      ensures Valid() && Within(all)
      ensures !escaped ==> Two(hash, Value(), w') && Target(Value()).buckets != []
      ensures ht0 == old(ht0) || ht0 == old(ht1) || (fresh(ht0) && fresh(ht0.heads))
      ensures ht1 == old(ht1) || (fresh(ht1) && fresh(ht1.heads))
    {
      ghost var w1 := PreparedTwo(hash, Value(), w);
      ExpandNow(w, all);
      escaped, w' := Migrate(1, w, all);
    }

    /** The end of an insertion: the node that now has the key. */
    method AddCell(cell: Cell, ghost all: set<Cell>) returns (r: Cell)
      requires Valid() && Within(all) && cell !in all && Target(Value()).buckets != []
      modifies ht0, ht0.heads, ht1, ht1.heads, cell`next
      ensures Valid() && Within(all + {cell}) && Value() == Added(hash, old(Value()), NodeOf(cell))
      ensures var t := Target(old(Value()));
              NodeOf(r) == if Has(hash, t, cell.key) then Get(hash, t, cell.key) else NodeOf(cell)
    {
      var found;
      if rehashidx != -1 {
        found := ht1.Add(hash, cell);
      } else {
        found := ht0.Add(hash, cell);
      }
      r := if found != null then found else cell;
    }

    /** `kylin_map_insert_raw`. */
    method InsertRaw(cell: Cell, ghost w: World, ghost all: set<Cell>)
      returns (escaped: bool, r: Cell, ghost w': World)
      requires Valid() && Two(hash, Value(), w) && Within(all) && cell !in all
      modifies this`rehashidx, this`ht0, this`ht1, ht0, ht0.heads, all`next, ht1, ht1.heads, cell`next
      ensures Insert(hash, old(Value()), NodeOf(cell)) == if escaped then Escaped else Went(Value())
      ensures Valid() && Within(all + {cell}) && (!escaped ==> Two(hash, Value(), w'))
      ensures !escaped ==> NodeOf(r) == HashMap.Chosen(hash, old(Value()), NodeOf(cell))
    {
      ghost var s := Value();
      escaped, w' := Prepare(w, all);
      r := cell;
      if !escaped {
        r, w' := InsertNow(cell, s, w', all);
      }
    }

    method InsertNow(cell: Cell, ghost s: Map, ghost w: World, ghost all: set<Cell>) returns (r: Cell, ghost w': World)
      requires Valid() && Two(hash, Value(), w) && Within(all) && cell !in all && Prepared(hash, s) == Went(Value())
      requires Target(Value()).buckets != []
      modifies ht0, ht0.heads, ht1, ht1.heads, cell`next
      ensures Insert(hash, s, NodeOf(cell)) == Went(Value())
      ensures Valid() && Within(all + {cell}) && Two(hash, Value(), w')
      ensures NodeOf(r) == HashMap.Chosen(hash, s, NodeOf(cell))
    {
      AddedTwo(hash, Value(), w, NodeOf(cell));
      w' := WithNode(w, Rehashing(Value()), NodeOf(cell));
      r := AddCell(cell, all);
    }
  }

  /** What a round of the migration comes to, in the order in which it is done. */
  lemma RoundIs(h: Hash, s: Map, b: nat, t: Table) returns (n: nat, r: Map)
    requires MayRehash(s) && s.ht0.used != 0 && b == NextFull(s.ht0.buckets, s.rehashidx) < |s.ht0.buckets|
    requires t == PushAll(h, s.ht1, s.ht0.buckets[b])
    ensures Round(h, s) == Went(r) && r.ht1 == t && r.rehashidx == b + 1 && t.used == s.ht1.used + n
    ensures r.ht0 == Table(s.ht0.buckets[b := []], LessAll(s.ht0.used, n))
  {
    n, r := t.used - s.ht1.used, MoveBucket(h, s);
  }

  lemma SameLess(used: nat, n: nat, m: nat)
    requires n == m
    ensures LessAll(used, n) == LessAll(used, m)
  {
  }
}
