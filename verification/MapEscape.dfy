/**
 Runs from creation that show what can go wrong: a scan that leaves its table, a walk that sees
 nothing, a walk without end, and a step that is not undone.
 */
module MapEscape {
  import opened Powers
  import opened MapSpec
  import opened MapRuns
  import MapWorld
  import MapCursor

  const K0: Key := Key(0)
  const K1: Key := Key(1)
  const K2: Key := Key(2)

  /** The hash is the key. */
  function Plain(k: Key): nat {
    if k.id < 0 then 0 else k.id
  }

  lemma Indices()
    ensures Index(Plain, K0, 2) == 0 == Index(Plain, K0, 8) && Index(Plain, K1, 2) == 1 == Index(Plain, K1, 8)
  {
    assert And(1, 1) == 1 && And(1, 7) == 1;
  }

  lemma Single(n: Node)
    ensures forall c: Chain :: c == [] ==> [n] + c == [n]
  {
  }

  const START: seq<Op> := [OpInsert(Node(K0, 10)), OpInsert(Node(K1, 11)), OpResize(9)]

  /** Two keys, and a migration that has not begun. */
  function Before(): Map {
    Map(Table([[Node(K0, 10)], [Node(K1, 11)]], 2), Table(seq(8, i => []), 0), 0)
  }

  lemma BeforeIsReached()
    ensures Run(Plain, EMPTY, START) == Went(Before())
  {
    Indices();
    var ops := START;
    assert Fls(3) == 1 && Pow2(1) == 2;
    assert Fls(8) == 3 && Pow2(3) == 8;
    var zero := Map(Table([[], []], 0), NO_TABLE, -1);
    assert Resize(EMPTY, 4).0.ht0.buckets == zero.ht0.buckets;
    var one := Map(Table([[Node(K0, 10)], []], 1), NO_TABLE, -1);
    assert Perform(Plain, EMPTY, ops[0]) == Went(one) by {
      assert Prepared(Plain, EMPTY) == Went(zero);
      assert !Has(Plain, zero.ht0, K0);
      Single(Node(K0, 10));
      assert Push(Plain, zero.ht0, Node(K0, 10)).buckets == one.ht0.buckets;
    }
    var two := Map(Table([[Node(K0, 10)], [Node(K1, 11)]], 2), NO_TABLE, -1);
    assert Perform(Plain, one, ops[1]) == Went(two) by {
      assert Prepared(Plain, one) == Went(one);
      assert !Has(Plain, one.ht0, K1);
      Single(Node(K1, 11));
      assert Push(Plain, one.ht0, Node(K1, 11)).buckets == two.ht0.buckets;
    }
    assert Perform(Plain, two, ops[2]) == Went(Before());
    assert ops[1..][0] == ops[1] && ops[1..][1..] == [ops[2]];
    assert Run(Plain, Before(), []) == Went(Before());
    assert Run(Plain, two, [ops[2]]) == Went(Before());
    assert Run(Plain, one, ops[1..]) == Went(Before());
  }

  /** The first bucket has moved. */
  function Between(): Map {
    Map(Table([[], [Node(K1, 11)]], 1), Table(seq(8, i => if i == 0 then [Node(K0, 10)] else []), 1), 1)
  }

  lemma FirstStep()
    ensures Step(Plain, Before()) == Went(Between())
  {
    Indices();
    var s := Before();
    assert NextFull(s.ht0.buckets, 0) == 0;
    var c := s.ht0.buckets[0];
    assert c == [Node(K0, 10)] && c[1..] == [];
    assert !Has(Plain, s.ht1, K0);
    var t := Push(Plain, s.ht1, Node(K0, 10));
    assert PushAll(Plain, s.ht1, c) == PushAll(Plain, t, c[1..]) == t;
    Single(Node(K0, 10));
    assert t.buckets == Between().ht1.buckets;
    assert LessAll(2, 1) == LessAll(1, 0) == 1;
    assert Round(Plain, s) == Went(Between());
    assert Moves(Plain, s, 0) == Went(s) && Moves(Plain, s, 1) == Went(Between());
  }

  // ------------------------------------------------------ a walk sees nothing

  lemma UnlinkEmpties()
    ensures var s := Unlink(Plain, Before(), K1);
            s.Went? && Rehashing(s.s) && s.s.ht0.used == 0 && s.s.ht1.used == 1 && s.s.ht0.buckets == [[], []]
  {
    FirstStep();
    Indices();
    var s := Between();
    assert Bucket(Plain, s.ht0, K1) == [Node(K1, 11)];
    assert Has(Plain, s.ht0, K1);
    var c := Bucket(Plain, s.ht0, K1);
    assert Position(c, K1) == 0 && c[..0] + c[1..] == [];
    assert Cut(Plain, s.ht0, K1).buckets == [[], []];
  }

  /** The last node of `ht0` is unlinked before the migration has seen that. */
  lemma FirstFindsNothing()
    ensures var s := Run(Plain, EMPTY, START + [OpUnlink(K1)]);
            s.Went? && Rehashing(s.s) && s.s.ht0.used == 0 && s.s.ht1.used == 1 && s.s.ht0.buckets == [[], []]
  {
    BeforeIsReached();
    UnlinkEmpties();
    RunAppend(Plain, EMPTY, START, [OpUnlink(K1)]);
    var s := Unlink(Plain, Before(), K1).s;
    assert Perform(Plain, Before(), OpUnlink(K1)) == Went(s) && Run(Plain, s, []) == Went(s);
    assert Run(Plain, Before(), [OpUnlink(K1)]) == Went(s);
  }

  // ------------------------------------------------------------ a second copy

  /** The second copy of `K1` is in the other table. */
  function Doubled(): Map {
    Between().(ht1 := Table(Between().ht1.buckets[1 := [Node(K1, 12)]], 2))
  }

  lemma InsertDoubles()
    ensures Insert(Plain, Before(), Node(K1, 12)) == Went(Doubled())
  {
    FirstStep();
    Indices();
    assert Expand(Before()).0 == Before();
    assert !Has(Plain, Between().ht1, K1);
    Single(Node(K1, 12));
    assert Push(Plain, Between().ht1, Node(K1, 12)).buckets == Doubled().ht1.buckets;
  }

  // ------------------------------------------------------ a walk without end

  /** A walk goes round and round when a chain of `ht1` ends with a second copy. */
  lemma WalkLoops()
    ensures Run(Plain, EMPTY, START + [OpInsert(Node(K1, 12))]) == Went(Doubled())
    ensures var first := MapCursor.FirstFrom(Doubled().ht0.buckets, 0);
            first == [Node(K1, 11)] &&
            forall n: nat :: MapCursor.Steps(MapCursor.NextIn(Plain, Doubled()), first, n) != []
  {
    var s, ops := Doubled(), START + [OpInsert(Node(K1, 12))];
    DoubledIsReached();
    MapWorld.InitTwo(Plain);
    var w := RunTwo(Plain, EMPTY, MapWorld.NOTHING, ops);
    var first := MapCursor.FirstFrom(s.ht0.buckets, 0);
    assert NextFull(s.ht0.buckets, 0) == NextFull(s.ht0.buckets, 1) == 1;
    MapCursor.FirstIs(Plain, s, w, first);
    DoubledEnd();
    forall n: nat ensures MapCursor.Steps(MapCursor.NextIn(Plain, s), first, n) != [] {
      MapCursor.WalkGoesOn(Plain, s, w, first, n);
    }
  }

  /** From `K0` on to the second copy of `K1`; from there `prev` looks for what is in front of the first copy. */
  lemma PrevForgets()
    ensures Run(Plain, EMPTY, START + [OpInsert(Node(K1, 12))]) == Went(Doubled())
    ensures MapCursor.NextOf(Plain, Doubled(), [Node(K0, 10)]) == [Node(K1, 12)]
    ensures MapCursor.PrevOf(Plain, Doubled(), [Node(K1, 12)]) == []
  {
    var s := Doubled();
    DoubledIsReached();
    Indices();
    assert Bucket(Plain, s.ht0, K0) == [] && Bucket(Plain, s.ht1, K0) == [Node(K0, 10)];
    assert !Has(Plain, s.ht0, K0) && Has(Plain, s.ht1, K0);
    assert NextFull(s.ht1.buckets, 1) == 1;
    assert MapCursor.FirstFrom(s.ht1.buckets, 1) == [Node(K1, 12)];
    assert Bucket(Plain, s.ht0, K1) == [Node(K1, 11)];
    assert Has(Plain, s.ht0, K1) && Position(s.ht0.buckets[1], K1) == 0;
    assert MapCursor.LastBelow(s.ht0.buckets, 0) == [];
    assert MapCursor.LastBelow(s.ht0.buckets, 1) == [];
  }

  lemma DoubledIsReached()
    ensures Run(Plain, EMPTY, START + [OpInsert(Node(K1, 12))]) == Went(Doubled())
  {
    BeforeIsReached();
    InsertDoubles();
    RunAppend(Plain, EMPTY, START, [OpInsert(Node(K1, 12))]);
    assert Perform(Plain, Before(), OpInsert(Node(K1, 12))) == Went(Doubled());
    assert Run(Plain, Doubled(), []) == Went(Doubled());
    assert Run(Plain, Before(), [OpInsert(Node(K1, 12))]) == Went(Doubled());
  }

  lemma DoubledEnd()
    ensures !MapCursor.ChainEndsFound(Plain, Doubled())
  {
    Indices();
    var s := Doubled();
    assert s.ht1.buckets[1] == [Node(K1, 12)] && MapCursor.EndOf(s.ht1.buckets[1]) == K1;
    assert Bucket(Plain, s.ht0, K1) == [Node(K1, 11)];
    assert Has(Plain, s.ht0, K1);
  }

  // ------------------------------------------------- a scan leaves the table

  /** The old copy is destroyed, but `used` still counts it. */
  function Stuck(): Map {
    Map(Table([[], []], 1), Doubled().ht1, 2)
  }

  lemma StepLosesCount()
    ensures Step(Plain, Doubled()) == Went(Stuck())
  {
    Indices();
    var s := Doubled();
    assert NextFull(s.ht0.buckets, 1) == 1;
    var c := s.ht0.buckets[1];
    assert c == [Node(K1, 11)] && c[1..] == [];
    assert Bucket(Plain, s.ht1, K1) == [Node(K1, 12)];
    assert Has(Plain, s.ht1, K1);
    assert PushAll(Plain, s.ht1, c) == PushAll(Plain, s.ht1, c[1..]) == s.ht1;
    assert s.ht0.buckets[1 := []] == [[], []];
    assert Round(Plain, s) == Went(Stuck());
    assert Moves(Plain, s, 0) == Went(s) && Moves(Plain, s, 1) == Went(Stuck());
  }

  lemma StepEscapes()
    ensures Step(Plain, Stuck()) == Escaped
  {
    var s := Stuck();
    assert NextFull(s.ht0.buckets, 2) == 2;
    assert Moves(Plain, s, 0) == Went(s) && Moves(Plain, s, 1) == Round(Plain, s) == Escaped;
  }

  const REST: seq<Op> := [OpInsert(Node(K1, 12)), OpReplace(K2, 0), OpReplace(K2, 0)]

  lemma RestEscapes()
    ensures Run(Plain, Before(), REST) == Escaped
  {
    InsertDoubles();
    StepLosesCount();
    StepEscapes();
    var ops := REST;
    assert Index(Plain, K2, 2) == 0 && Index(Plain, K2, 8) == 2 by {
      assert And(2, 1) == 2 * And(1, 0) && And(2, 7) == 2 * And(1, 3);
    }
    assert !Has(Plain, Stuck().ht0, K2) && !Has(Plain, Stuck().ht1, K2);
    assert Perform(Plain, Doubled(), ops[1]) == Went(Stuck());
    assert Perform(Plain, Stuck(), ops[2]) == Escaped;
    assert ops[1..][0] == ops[1] && ops[1..][1..] == [ops[2]];
    assert Run(Plain, Stuck(), [ops[2]]) == Escaped;
    assert Run(Plain, Doubled(), ops[1..]) == Escaped;
  }

  /** A run that inserts one key twice during a migration, and then only changes values. */
  lemma ScanEscapes()
    ensures Run(Plain, EMPTY, START + REST) == Escaped
  {
    BeforeIsReached();
    RestEscapes();
    RunAppend(Plain, EMPTY, START, REST);
  }

  lemma {:induction false} RunAppend(h: Hash, s: Map, a: seq<Op>, b: seq<Op>)
    ensures Run(h, s, a + b) ==
              match Run(h, s, a)
              case Went(r) => Run(h, r, b)
              case Escaped => Escaped
    decreases a
  {
    if a == [] {
      assert a + b == b;
    } else {
      assert (a + b)[0] == a[0] && (a + b)[1..] == a[1..] + b;
      if Perform(h, s, a[0]).Went? {
        RunAppend(h, Perform(h, s, a[0]).s, a[1..], b);
      }
    }
  }
}
