/** The map of `kylin_map.c` with its two bucket arrays updated in place. */
module HashMap {
  import opened MapSpec
  import opened MapLaws
  import opened MapWorld
  import opened MapRuns

  // ---------------------------------------------------------------- one table

  /** The walk along one chain: the position of the key, or the length of the chain. */
  method Search(c: Chain, key: Key) returns (i: nat)
    ensures i == Position(c, key)
  {
    i := 0;
    while i < |c| && c[i].key != key
      invariant i <= |c| && Position(c, key) == i + Position(c[i..], key)
    {
      i := i + 1;
    }
  }

  /** One table of a search. */
  method Lookup(h: Hash, table: array<Chain>, key: Key, ghost t: Table) returns (found: bool, node: Node)
    requires table[..] == t.buckets
    ensures found <==> Has(h, t, key)
    ensures found ==> node == Get(h, t, key)
  {
    node := Node(key, 0);
    if table.Length == 0 {
      return false, node;
    }
    var c := table[Index(h, key, table.Length)];
    var i := Search(c, key);
    if i == |c| {
      return false, node;
    }
    return true, c[i];
  }

  /** One table of an `unlink`. */
  method CutFrom(h: Hash, table: array<Chain>, key: Key, ghost t: Table) returns (found: bool, node: Node)
    requires table[..] == t.buckets
    modifies table
    ensures found <==> Has(h, t, key)
    ensures table[..] == if found then Cut(h, t, key).buckets else t.buckets
    ensures found ==> node == Get(h, t, key)
  {
    node := Node(key, 0);
    if table.Length == 0 {
      return false, node;
    }
    var b := Index(h, key, table.Length);
    var c := table[b];
    var i := Search(c, key);
    if i == |c| {
      return false, node;
    }
    table[b] := c[..i] + c[i + 1..];
    return true, c[i];
  }

  /** One table of a `replace`. */
  method PutInto(h: Hash, table: array<Chain>, key: Key, val: int, ghost t: Table) returns (found: bool)
    requires table[..] == t.buckets
    modifies table
    ensures found <==> Has(h, t, key)
    ensures table[..] == if found then Put(h, t, key, val).buckets else t.buckets
  {
    if table.Length == 0 {
      return false;
    }
    var b := Index(h, key, table.Length);
    var c := table[b];
    var i := Search(c, key);
    if i == |c| {
      return false;
    }
    table[b] := c[i := Node(key, val)];
    return true;
  }

  /** The table of an insertion. */
  method PushUnlessFound(h: Hash, table: array<Chain>, n: Node, ghost t: Table) returns (found: bool, node: Node)
    requires table[..] == t.buckets && table.Length > 0
    modifies table
    ensures found <==> Has(h, t, n.key)
    ensures table[..] == if found then t.buckets else Push(h, t, n).buckets
    ensures node == if found then Get(h, t, n.key) else n
  {
    var b := Index(h, n.key, table.Length);
    var c := table[b];
    var i := Search(c, n.key);
    if i < |c| {
      return true, c[i];
    }
    table[b] := [n] + c;
    return false, n;
  }

  // ------------------------------------------------------------------ the map

  lemma PushAllOn(h: Hash, t: Table, c: Chain, t': Table, goal: Table)
    requires t.buckets != [] && c != [] && PushAll(h, t, c) == goal
    requires t' == if Has(h, t, c[0].key) then t else Push(h, t, c[0])
    ensures t'.buckets != [] && PushAll(h, t', c[1..]) == goal
  {
  }

  class Guard {
    const hash: Hash
    var table0: array<Chain>
    var used0: nat
    var table1: array<Chain>
    var used1: nat
    var rehashidx: int

    /** The finite maps that the tables stand for. */
    ghost var world: World

    ghost function Value(): Map
      reads this, table0, table1
    {
      Map(Table(table0[..], used0), Table(table1[..], used1), rehashidx)
    }

    /** `table0` and `table1` are separate blocks; an absent table is an array without elements. */
    ghost predicate Valid()
      reads this, table0, table1
    {
      table0 != table1 && Two(hash, Value(), world)
    }

    constructor (hash: Hash)
      ensures Valid() && Value() == EMPTY && world == NOTHING && this.hash == hash
      ensures fresh(table0) && fresh(table1)
    {
      this.hash := hash;
      table0, table1 := new Chain[0], new Chain[0];
      used0, used1, rehashidx, world := 0, 0, -1, NOTHING;
      new;
      InitTwo(hash);
    }

    method Count() returns (n: nat)
      requires Valid()
      ensures n == |world.m0| + |world.m1| + world.d
      ensures Sane(world) ==> n == |View(world)|
    {
      CountIsSize(hash, Value(), world);
      n := used0 + used1;
    }

    /** `kylin_map_find`. */
    method Find(key: Key) returns (found: bool, node: Node)
      requires Valid()
      ensures found <==> key in View(world)
      ensures found ==> node == Node(key, View(world)[key])
    {
      FindIsView(hash, Value(), world, key);
      found, node := Lookup(hash, table0, key, Value().ht0);
      if !found && rehashidx != -1 {
        found, node := Lookup(hash, table1, key, Value().ht1);
      }
    }

    // -------------------------------------------------------------- migration

    /** One node of the migration: to the front of its bucket, or dropped if its key is there. */
    method MoveNode(n: Node) returns (moved: nat)
      requires table0 != table1 && table1.Length > 0
      modifies table1, this`used0, this`used1
      ensures var t := old(Table(table1[..], used1));
              Table(table1[..], used1) == if Has(hash, t, n.key) then t else Push(hash, t, n)
      ensures moved <= 1 && used1 == old(used1) + moved && used0 == LessAll(old(used0), moved)
    {
      var found, _ := PushUnlessFound(hash, table1, n, Table(table1[..], used1));
      if found {
        return 0;
      }
      assert LessAll(used0, 1) == LessAll(Less(used0), 0);
      used0 := Less(used0);
      used1 := used1 + 1;
      return 1;
    }

    /** One round of the inner loop: `goal` is the table after all of `c`, and `moved` nodes have come before. */
    method MoveFront(c: Chain, ghost start: nat, ghost moved: nat, ghost goal: Table) returns (ghost moved': nat)
      requires table0 != table1 && table1.Length > 0 && c != []
      requires used0 == LessAll(start, moved) && PushAll(hash, Table(table1[..], used1), c) == goal
      modifies table1, this`used0, this`used1
      ensures moved' >= moved && used1 == old(used1) + (moved' - moved) && used0 == LessAll(start, moved')
      ensures PushAll(hash, Table(table1[..], used1), c[1..]) == goal
    {
      ghost var t := Table(table1[..], used1);
      var m := MoveNode(c[0]);
      LessMore(start, moved, m);
      PushAllOn(hash, t, c, Table(table1[..], used1), goal);
      moved' := moved + m;
    }

    /** The inner loop of the migration. */
    method MoveChain(c: Chain)
      requires table0 != table1 && table1.Length > 0
      modifies table1, this`used0, this`used1
      ensures Table(table1[..], used1) == PushAll(hash, old(Table(table1[..], used1)), c)
      ensures used1 >= old(used1) && used0 == LessAll(old(used0), used1 - old(used1))
    {
      var node := c;
      ghost var moved, start, t := 0, used0, Table(table1[..], used1);
      ghost var goal := PushAll(hash, t, c);
      while node != []
        invariant used1 == t.used + moved && used0 == LessAll(start, moved)
        invariant PushAll(hash, Table(table1[..], used1), node) == goal
        decreases |node|
      {
        moved := MoveFront(node, start, moved, goal);
        node := node[1..];
      }
    }

    /** The scan for a bucket with nodes; it leaves the table if there is none. */
    method Scan() returns (escaped: bool)
      requires MayRehash(Value())
      modifies this`rehashidx
      ensures escaped <==> NextFull(table0[..], old(rehashidx)) == table0.Length
      ensures rehashidx == NextFull(table0[..], old(rehashidx))
    {
      ghost var buckets, start := table0[..], rehashidx;
      while rehashidx < table0.Length && table0[rehashidx] == []
        invariant 0 <= rehashidx <= table0.Length && NextFull(buckets, rehashidx) == NextFull(buckets, start)
        decreases table0.Length - rehashidx
      {
        rehashidx := rehashidx + 1;
      }
      escaped := rehashidx == table0.Length;
    }

    /** One round of the migration. */
    method MoveOne() returns (escaped: bool)
      requires table0 != table1 && MayRehash(Value()) && used0 != 0
      modifies this`used0, this`used1, this`rehashidx, table0, table1
      ensures Round(hash, old(Value())) == if escaped then Escaped else Went(Value())
    {
      escaped := Scan();
      if !escaped {
        MoveChain(table0[rehashidx]);
        table0[rehashidx] := [];
        rehashidx := rehashidx + 1;
      }
    }

    /** The same with what it means for the maps. */
    method MoveRound() returns (escaped: bool)
      requires Valid() && Rehashing(Value()) && used0 != 0
      modifies this`used0, this`used1, this`rehashidx, this`world, table0, table1
      ensures Round(hash, old(Value())) == if escaped then Escaped else Went(Value())
      ensures !escaped ==> Valid() && Rehashing(Value())
    {
      ghost var w' := RoundTwo(hash, Value(), world);
      escaped := MoveOne();
      world := w';
    }

    method MoveNext(ghost s: Map, ghost k: nat) returns (escaped: bool, ghost k': nat)
      requires Valid() && Rehashing(Value()) && used0 != 0 && Moves(hash, s, k) == Went(Value())
      modifies this`used0, this`used1, this`rehashidx, this`world, table0, table1
      ensures k' == k + 1 && Moves(hash, s, k') == if escaped then Escaped else Went(Value())
      ensures !escaped ==> Valid() && Rehashing(Value())
    {
      k' := MovesNext(hash, s, k, Value());
      escaped := MoveRound();
    }

    /** The loop of the migration. */
    method MoveLoop(step: nat, ghost s: Map) returns (escaped: bool, ghost k: nat)
      requires Valid() && Rehashing(Value()) && s == Value()
      modifies this`used0, this`used1, this`rehashidx, this`world, table0, table1
      ensures k <= step && Moves(hash, s, k) == if escaped then Escaped else Went(Value())
      ensures !escaped ==> Valid() && Rehashing(Value()) && (k == step || used0 == 0)
    {
      k := 0;
      escaped := false;
      var left := step;
      while left > 0 && used0 != 0
        invariant k + left == step && !escaped
        invariant Valid() && Rehashing(Value()) && Moves(hash, s, k) == Went(Value())
        decreases left
      {
        escaped, k := MoveNext(s, k);
        if escaped {
          return;
        }
        left := left - 1;
      }
    }

    method MoveSome(step: nat) returns (escaped: bool)
      requires Valid() && Rehashing(Value())
      modifies this`used0, this`used1, this`rehashidx, this`world, table0, table1
      ensures Moves(hash, old(Value()), step) == if escaped then Escaped else Went(Value())
      ensures !escaped ==> Valid() && Rehashing(Value())
    {
      ghost var s, k := Value(), 0;
      escaped, k := MoveLoop(step, s);
      MovesStay(hash, s, k, step);
    }

    /** When nothing is left to move, the second table takes the place of the first. */
    method SettleTables()
      requires Valid() && Rehashing(Value())
      modifies this`used0, this`used1, this`rehashidx, this`table0, this`table1, this`world
      ensures Valid() && Value() == Settle(old(Value()))
      ensures table0 == old(table0) || table0 == old(table1)
      ensures table1 == old(table1) || fresh(table1)
    {
      ghost var s := Value();
      SettleTwo(hash, s, world);
      if used0 == 0 {
        SwitchTables();
      }
      world := SettledFrom(s, world);
    }

    method SwitchTables()
      requires table0 != table1
      modifies this`used0, this`used1, this`rehashidx, this`table0, this`table1
      ensures table0 == old(table1) && fresh(table1) && Value() == Map(old(Value()).ht1, NO_TABLE, -1)
    {
      table0, used0 := table1, used1;
      table1, used1, rehashidx := new Chain[0], 0, -1;
    }

    /** `_map_rehash`. */
    method Migrate(step: nat) returns (escaped: bool)
      requires Valid()
      modifies this`used0, this`used1, this`rehashidx, this`table0, this`table1, this`world, table0, table1
      ensures Rehash(hash, old(Value()), step) == if escaped then Escaped else Went(Value())
      ensures !escaped ==> Valid()
      ensures table0 == old(table0) || table0 == old(table1)
      ensures table1 == old(table1) || fresh(table1)
    {
      if rehashidx == -1 {
        return false;
      }
      escaped := MoveSome(step);
      if !escaped {
        SettleTables();
      }
    }

    // ------------------------------------------------------------- operations

    /** `kylin_map_resize`; a `count` below 2 shifts by an undefined or too large amount. */
    method ResizeTo(count: nat) returns (e: Status)
      requires Valid() && count >= 2
      modifies this`used0, this`used1, this`rehashidx, this`table0, this`table1
      ensures Valid() && (Value(), e) == Resize(old(Value()), count)
      ensures table0 == old(table0) || table0 == old(table1) || fresh(table0)
      ensures table1 == old(table1) || fresh(table1)
    {
      ResizeTwo(hash, Value(), world, count);
      if rehashidx != -1 {
        return Busy;
      }
      var cap := Roundup(count);
      if cap == table0.Length {
        return Exist;
      }
      var table := new Chain[cap](i => []);
      assert table[..] == seq(cap, i => []);
      if table0.Length == 0 {
        table0, used0 := table, 0;
      } else {
        table1, used1, rehashidx := table, 0, 0;
      }
      return Ok;
    }

    /** The expansion and the migration step before an insertion. */
    method Prepare() returns (escaped: bool)
      requires Valid()
      modifies this`used0, this`used1, this`rehashidx, this`table0, this`table1, this`world, table0, table1
      ensures Prepared(hash, old(Value())) == if escaped then Escaped else Went(Value())
      ensures !escaped ==> Valid() && Target(Value()).buckets != []
      ensures table0 == old(table0) || table0 == old(table1) || fresh(table0)
      ensures table1 == old(table1) || fresh(table1)
    {
      ghost var w' := PreparedTwo(hash, Value(), world);
      if table0.Length == 0 {
        var _ := ResizeTo(4);
      } else if used0 / table0.Length > FORCE_RESIZE_RATIO {
        Overfull(used0, table0.Length);
        var _ := ResizeTo(used0 * 2);
      }
      escaped := Migrate(1);
    }

    /** The end of an insertion. */
    method AddNode(n: Node) returns (node: Node)
      requires table0 != table1 && Target(Value()).buckets != []
      modifies this`used0, this`used1, table0, table1
      ensures Value() == Added(hash, old(Value()), n)
      ensures node == if Has(hash, Target(old(Value())), n.key) then Get(hash, Target(old(Value())), n.key) else n
    {
      var found;
      if rehashidx != -1 {
        found, node := PushUnlessFound(hash, table1, n, Value().ht1);
        used1 := if found then used1 else used1 + 1;
      } else {
        found, node := PushUnlessFound(hash, table0, n, Value().ht0);
        used0 := if found then used0 else used0 + 1;
      }
    }

    /** The end of an `unlink`. */
    method RemoveNode(key: Key) returns (found: bool, node: Node)
      requires table0 != table1
      modifies this`used0, this`used1, table0, table1
      ensures Value() == Removed(hash, old(Value()), key)
      ensures found <==> Present(hash, old(Value()), key)
      ensures found ==> node == Located(hash, old(Value()), key)
    {
      ghost var p := Value();
      found, node := CutFrom(hash, table0, key, p.ht0);
      if found {
        used0 := Less(used0);
      } else if rehashidx != -1 {
        found, node := CutFrom(hash, table1, key, p.ht1);
        used1 := if found then Less(used1) else used1;
      }
    }

    /** The end of a `replace`. */
    method ChangeNode(key: Key, val: int) returns (found: bool)
      requires table0 != table1
      modifies table0, table1
      ensures Value() == Changed(hash, old(Value()), key, val)
      ensures found <==> Has(hash, old(Value()).ht0, key) || Has(hash, old(Value()).ht1, key)
    {
      found := PutInto(hash, table0, key, val, Value().ht0);
      if !found {
        found := PutInto(hash, table1, key, val, Value().ht1);
      }
    }

    method AddKey(n: Node) returns (node: Node)
      requires Valid() && Target(Value()).buckets != []
      modifies this`used0, this`used1, this`world, table0, table1
      ensures Valid() && Value() == Added(hash, old(Value()), n)
      ensures node == if Has(hash, Target(old(Value())), n.key) then Get(hash, Target(old(Value())), n.key) else n
    {
      ghost var second := Rehashing(Value());
      AddedTwo(hash, Value(), world, n);
      node := AddNode(n);
      world := WithNode(world, second, n);
    }

    method RemoveKey(key: Key) returns (found: bool, node: Node)
      requires Valid()
      modifies this`used0, this`used1, this`world, table0, table1
      ensures Valid() && Value() == Removed(hash, old(Value()), key)
      ensures found <==> Present(hash, old(Value()), key)
      ensures found ==> node == Located(hash, old(Value()), key)
    {
      RemovedTwo(hash, Value(), world, key);
      found, node := RemoveNode(key);
      world := WithoutKey(world, key);
    }

    method ChangeKey(key: Key, val: int) returns (found: bool)
      requires Valid()
      modifies this`world, table0, table1
      ensures Valid() && Value() == Changed(hash, old(Value()), key, val)
      ensures found <==> Present(hash, old(Value()), key)
    {
      ChangedHere(hash, Value(), world, key, val);
      found := ChangeNode(key, val);
      world := WithValue(world, key, val);
    }

    /** An insertion on the tables. */
    method InsertTables(n: Node, ghost s: Map) returns (escaped: bool, node: Node)
      requires Valid() && s == Value()
      modifies this`used0, this`used1, this`rehashidx, this`table0, this`table1, this`world, table0, table1
      ensures Insert(hash, s, n) == if escaped then Escaped else Went(Value())
      ensures !escaped ==> Valid() && node == Chosen(hash, s, n)
    {
      escaped := Prepare();
      node := n;
      if !escaped {
        node := AddKey(n);
      }
    }

    /** `kylin_map_insert_raw`: the node that now has the key, which is the old one if there was one. */
    method InsertRaw(n: Node) returns (escaped: bool, node: Node)
      requires Valid()
      modifies this`used0, this`used1, this`rehashidx, this`table0, this`table1, this`world, table0, table1
      ensures Insert(hash, old(Value()), n) == if escaped then Escaped else Went(Value())
      ensures escaped <==> DryState(old(Value()))
      ensures !escaped ==> Valid()
      ensures Sane(old(world)) ==> !escaped && (Sane(world) <==> !Duplicates(hash, old(Value()), n.key))
      ensures Sane(old(world)) && Sane(world) ==>
                View(world) == Inserted(View(old(world)), n) && node == Node(n.key, View(world)[n.key])
    {
      ghost var s, w := Value(), world;
      escaped, node := InsertTables(n, s);
      InsertMeans(hash, s, w, n, Value(), world, escaped);
    }

    /** An unlink on the tables. */
    method UnlinkTables(key: Key, ghost s: Map) returns (escaped: bool, found: bool, node: Node)
      requires Valid() && s == Value()
      modifies this`used0, this`used1, this`rehashidx, this`table0, this`table1, this`world, table0, table1
      ensures Unlink(hash, s, key) == if escaped then Escaped else Went(Value())
      ensures !escaped ==> Valid() && found == Finds(hash, s, key) && (found ==> node == FoundNode(hash, s, key))
    {
      escaped := Migrate(1);
      found, node := false, Node(key, 0);
      if !escaped {
        found, node := RemoveKey(key);
      }
    }

    /** `kylin_map_unlink`. */
    method UnlinkKey(key: Key) returns (escaped: bool, found: bool, node: Node)
      requires Valid()
      modifies this`used0, this`used1, this`rehashidx, this`table0, this`table1, this`world, table0, table1
      ensures Unlink(hash, old(Value()), key) == if escaped then Escaped else Went(Value())
      ensures escaped <==> DryState(old(Value()))
      ensures !escaped ==> Valid()
      ensures Sane(old(world)) ==> !escaped && Sane(world) && View(world) == View(old(world)) - {key}
      ensures Sane(old(world)) ==> (found <==> key in View(old(world)))
      ensures Sane(old(world)) && found ==> node == Node(key, View(old(world))[key])
    {
      ghost var s, w := Value(), world;
      escaped, found, node := UnlinkTables(key, s);
      UnlinkMeans(hash, s, w, key, Value(), world, escaped);
    }

    /** A replacement on the tables. */
    method ReplaceTables(key: Key, val: int, ghost s: Map) returns (escaped: bool, found: bool)
      requires Valid() && s == Value()
      modifies this`used0, this`used1, this`rehashidx, this`table0, this`table1, this`world, table0, table1
      ensures Replace(hash, s, key, val) == if escaped then Escaped else Went(Value())
      ensures !escaped ==> Valid() && found == Finds(hash, s, key)
    {
      escaped := Migrate(1);
      found := false;
      if !escaped {
        found := ChangeKey(key, val);
      }
    }

    /** `kylin_map_replace`. */
    method ReplaceValue(key: Key, val: int) returns (escaped: bool, found: bool)
      requires Valid()
      modifies this`used0, this`used1, this`rehashidx, this`table0, this`table1, this`world, table0, table1
      ensures Replace(hash, old(Value()), key, val) == if escaped then Escaped else Went(Value())
      ensures escaped <==> DryState(old(Value()))
      ensures !escaped ==> Valid()
      ensures Sane(old(world)) ==> !escaped && Sane(world) && View(world) == Replaced(View(old(world)), key, val)
      ensures Sane(old(world)) ==> (found <==> key in View(old(world)))
    {
      ghost var s, w := Value(), world;
      escaped, found := ReplaceTables(key, val, s);
      ReplaceMeans(hash, s, w, key, val, Value(), world, escaped);
    }
  }

  // ------------------------------------------------------- what it all means

  /** A search over both tables has an answer. */
  ghost predicate Present(h: Hash, p: Map, key: Key) {
    Has(h, p.ht0, key) || (Rehashing(p) && Has(h, p.ht1, key))
  }

  lemma {:induction false} ChangedHere(h: Hash, p: Map, w: World, key: Key, val: int)
    requires Two(h, p, w)
    ensures Two(h, Changed(h, p, key, val), WithValue(w, key, val))
    ensures Present(h, p, key) <==> Has(h, p.ht0, key) || Has(h, p.ht1, key)
  {
    FindIsView(h, p, w, key);
    ChangedTwo(h, p, w, key, val);
  }

  ghost function Located(h: Hash, p: Map, key: Key): Node
    requires Present(h, p, key)
  {
    Get(h, if Has(h, p.ht0, key) then p.ht0 else p.ht1, key)
  }

  lemma {:induction false} LessMore(used: nat, n: nat, m: nat)
    requires m <= 1
    ensures LessAll(used, n + m) == LessAll(LessAll(used, n), m)
    decreases n
  {
    if n > 0 {
      LessMore(Less(used), n - 1, m);
    }
  }

  lemma MovesNext(h: Hash, s: Map, k: nat, r: Map) returns (k': nat)
    requires Moves(h, s, k) == Went(r)
    ensures k' == k + 1 && Moves(h, s, k') == Round(h, r)
  {
    k' := k + 1;
  }

  /** Rounds after `ht0` has become empty or the scan has escaped do nothing. */
  lemma {:induction false} MovesStay(h: Hash, s: Map, k: nat, step: nat)
    requires k <= step && (k == step || Moves(h, s, k) == Escaped || Moves(h, s, k).s.ht0.used == 0)
    ensures Moves(h, s, step) == Moves(h, s, k)
    decreases step
  {
    if k < step {
      MovesStay(h, s, k, step - 1);
    }
  }

  /** What a search after the migration step of an operation finds. */
  ghost predicate Finds(h: Hash, s: Map, key: Key) {
    Step(h, s).Went? && Present(h, Step(h, s).s, key)
  }

  ghost function FoundNode(h: Hash, s: Map, key: Key): Node
    requires Finds(h, s, key)
  {
    Located(h, Step(h, s).s, key)
  }

  /** The node that an insertion returns. */
  ghost function Chosen(h: Hash, s: Map, n: Node): Node {
    match Prepared(h, s)
    case Went(p) => if Has(h, Target(p), n.key) then Get(h, Target(p), n.key) else n
    case Escaped => n
  }

  lemma {:induction false} FindsIff(h: Hash, s: Map, w: World, key: Key)
    requires Two(h, s, w) && Sane(w)
    ensures Finds(h, s, key) <==> key in View(w)
    ensures Finds(h, s, key) ==> key in View(w) && FoundNode(h, s, key) == Node(key, View(w)[key])
  {
    var w1 := StepTwo(h, s, w);
    FindIsView(h, Step(h, s).s, w1, key);
  }

  lemma {:induction false} ChosenIs(h: Hash, s: Map, w: World, n: Node)
    requires Two(h, s, w) && Sane(w) && !Duplicates(h, s, n.key)
    ensures Chosen(h, s, n) == Node(n.key, Inserted(View(w), n)[n.key])
  {
    var w1 := PreparedTwo(h, s, w);
    FindIsView(h, Prepared(h, s).s, w1, n.key);
  }

  lemma {:induction false} InsertMeans(h: Hash, s: Map, w: World, n: Node, r: Map, w': World, escaped: bool)
    requires Two(h, s, w) && Insert(h, s, n) == (if escaped then Escaped else Went(r)) && (!escaped ==> Two(h, r, w'))
    ensures escaped <==> DryState(s)
    ensures Sane(w) ==> !escaped && (Sane(w') <==> !Duplicates(h, s, n.key))
    ensures Sane(w) && Sane(w') ==>
              View(w') == Inserted(View(w), n) && Chosen(h, s, n) == Node(n.key, View(w')[n.key])
  {
    DryIff(h, s, w);
    var w2 := InsertTwo(h, s, w, n);
    if !escaped {
      TwoUnique(h, r, w', w2);
      if Sane(w) && Sane(w') {
        ChosenIs(h, s, w, n);
      }
    }
  }

  lemma {:induction false} UnlinkMeans(h: Hash, s: Map, w: World, key: Key, r: Map, w': World, escaped: bool)
    requires Two(h, s, w) && Unlink(h, s, key) == (if escaped then Escaped else Went(r)) && (!escaped ==> Two(h, r, w'))
    ensures escaped <==> DryState(s)
    ensures Sane(w) ==> !escaped && Sane(w') && View(w') == View(w) - {key}
    ensures Sane(w) ==> (Finds(h, s, key) <==> key in View(w))
    ensures Sane(w) && Finds(h, s, key) ==> key in View(w) && FoundNode(h, s, key) == Node(key, View(w)[key])
  {
    DryIff(h, s, w);
    var w2 := UnlinkTwo(h, s, w, key);
    if !escaped {
      TwoUnique(h, r, w', w2);
    }
    if Sane(w) {
      FindsIff(h, s, w, key);
    }
  }

  lemma {:induction false} ReplaceMeans(h: Hash, s: Map, w: World, key: Key, val: int, r: Map, w': World, escaped: bool)
    requires Two(h, s, w) && Replace(h, s, key, val) == (if escaped then Escaped else Went(r))
    requires !escaped ==> Two(h, r, w')
    ensures escaped <==> DryState(s)
    ensures Sane(w) ==> !escaped && Sane(w') && View(w') == Replaced(View(w), key, val)
    ensures Sane(w) ==> (Finds(h, s, key) <==> key in View(w))
  {
    DryIff(h, s, w);
    var w2 := ReplaceTwo(h, s, w, key, val);
    if !escaped {
      TwoUnique(h, r, w', w2);
    }
    if Sane(w) {
      FindsIff(h, s, w, key);
    }
  }
}
