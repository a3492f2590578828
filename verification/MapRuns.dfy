/** What the operations of the map do to the maps of its tables, over whole runs. */
module MapRuns {
  import opened MapSpec
  import opened MapLaws
  import opened MapWorld

  // --------------------------------------------------------------- operations

  /** How a state that is still migrating compares with one before a migration step. */
  ghost predicate MovedOn(s: Map, w: World, r: Map, w': World) {
    && (w.d > 0 ==> Rehashing(r))
    && (Rehashing(s) && Rehashing(r) ==>
          && w.d <= w'.d && |r.ht0.buckets| == |s.ht0.buckets| && s.rehashidx < r.rehashidx
          && (w'.d == 0 ==> r.rehashidx < |r.ht0.buckets|))
  }

  lemma {:induction false} NotPast(h: Hash, p: Map, w: World)
    requires Two(h, p, w) && Rehashing(p) && p.ht0.used > 0 && w.d == 0
    ensures p.rehashidx < |p.ht0.buckets|
  {
    ScanIff(h, p, w);
    assert |w.m0| > 0;
  }

  /** The migration step before an operation: it escapes exactly in a migration from a dry table. */
  lemma {:induction false} StepTwo(h: Hash, s: Map, w: World) returns (w': World)
    requires Two(h, s, w)
    ensures Step(h, s) == Escaped <==> Rehashing(s) && Dry(w)
    ensures Step(h, s).Went? ==> Two(h, Step(h, s).s, w') && MovedOn(s, w, Step(h, s).s, w')
    ensures Step(h, s).Went? ==> Migrates(w, w') && (s.ht0.buckets != [] ==> Step(h, s).s.ht0.buckets != [])
  {
    w' := RehashTwo(h, s, w, 1);
    if Step(h, s).Went? && Rehashing(Step(h, s).s) && w'.d == 0 {
      NotPast(h, Step(h, s).s, w');
    }
  }

  /** The same before an insertion, whose table exists then. */
  lemma {:induction false} PreparedTwo(h: Hash, s: Map, w: World) returns (w': World)
    requires Two(h, s, w)
    ensures Prepared(h, s) == Escaped <==> Rehashing(s) && Dry(w)
    ensures Prepared(h, s).Went? ==> Two(h, Prepared(h, s).s, w') && MovedOn(s, w, Prepared(h, s).s, w')
    ensures Prepared(h, s).Went? ==> Migrates(w, w') && Target(Prepared(h, s).s).buckets != []
  {
    ExpandTwo(h, s, w);
    w' := StepTwo(h, Expand(s).0, w);
  }

  /** The map of the target table gets the node, unless it has the key. */
  ghost function WithNode(w: World, second: bool, n: Node): World {
    if second then World(w.m0, Inserted(w.m1, n), w.d) else World(Inserted(w.m0, n), w.m1, w.d)
  }

  ghost function Inserted(m: map<Key, int>, n: Node): map<Key, int> {
    if n.key in m then m else m[n.key := n.val]
  }

  lemma {:induction false} AddedTwo(h: Hash, p: Map, w: World, n: Node)
    requires Two(h, p, w) && Target(p).buckets != []
    ensures Two(h, Added(h, p, n), WithNode(w, Rehashing(p), n))
  {
    FindIsView(h, p, w, n.key);
    if Rehashing(p) && n.key !in w.m1 {
      PushHolds(h, p.ht1, w.m1, 0, n);
    } else if !Rehashing(p) && n.key !in w.m0 {
      PushHolds(h, p.ht0, w.m0, w.d, n);
    }
  }

  /** The copy of a key that is found first goes. */
  ghost function WithoutKey(w: World, key: Key): World {
    if key in w.m0 then World(w.m0 - {key}, w.m1, w.d) else World(w.m0, w.m1 - {key}, w.d)
  }

  lemma AbsentKey(m: map<Key, int>, key: Key)
    requires key !in m
    ensures m - {key} == m
  {
  }

  /** Another first table that has no nodes where the old one has none. */
  lemma {:induction false} TwoFirst(h: Hash, p: Map, w: World, t: Table, m: map<Key, int>)
    requires Two(h, p, w) && Holds(h, t, m, w.d) && |t.buckets| == |p.ht0.buckets|
    requires forall b :: 0 <= b < |t.buckets| && p.ht0.buckets[b] == [] ==> t.buckets[b] == []
    ensures Two(h, p.(ht0 := t), World(m, w.m1, w.d))
  {
  }

  lemma {:induction false} TwoSecond(h: Hash, p: Map, w: World, t: Table, m: map<Key, int>)
    requires Two(h, p, w) && Rehashing(p) && Holds(h, t, m, 0) && |t.buckets| == |p.ht1.buckets|
    ensures Two(h, p.(ht1 := t), World(w.m0, m, w.d))
  {
  }

  lemma {:induction false} CutFirst(h: Hash, p: Map, w: World, key: Key)
    requires Two(h, p, w) && key in w.m0
    ensures Has(h, p.ht0, key) && Two(h, p.(ht0 := Cut(h, p.ht0, key)), World(w.m0 - {key}, w.m1, w.d))
  {
    CutHolds(h, p.ht0, w.m0, w.d, key);
    TwoFirst(h, p, w, Cut(h, p.ht0, key), w.m0 - {key});
  }

  lemma {:induction false} CutSecond(h: Hash, p: Map, w: World, key: Key)
    requires Two(h, p, w) && key in w.m1 && Rehashing(p)
    ensures Has(h, p.ht1, key) && Two(h, p.(ht1 := Cut(h, p.ht1, key)), World(w.m0, w.m1 - {key}, w.d))
  {
    CutHolds(h, p.ht1, w.m1, 0, key);
    TwoSecond(h, p, w, Cut(h, p.ht1, key), w.m1 - {key});
  }

  lemma {:induction false} PutFirst(h: Hash, p: Map, w: World, key: Key, val: int)
    requires Two(h, p, w) && key in w.m0
    ensures Has(h, p.ht0, key) && Two(h, p.(ht0 := Put(h, p.ht0, key, val)), World(w.m0[key := val], w.m1, w.d))
  {
    PutHolds(h, p.ht0, w.m0, w.d, key, val);
    TwoFirst(h, p, w, Put(h, p.ht0, key, val), w.m0[key := val]);
  }

  lemma {:induction false} PutSecond(h: Hash, p: Map, w: World, key: Key, val: int)
    requires Two(h, p, w) && key in w.m1 && Rehashing(p)
    ensures Has(h, p.ht1, key) && Two(h, p.(ht1 := Put(h, p.ht1, key, val)), World(w.m0, w.m1[key := val], w.d))
  {
    PutHolds(h, p.ht1, w.m1, 0, key, val);
    TwoSecond(h, p, w, Put(h, p.ht1, key, val), w.m1[key := val]);
  }

  lemma {:induction false} RemovedTwo(h: Hash, p: Map, w: World, key: Key)
    requires Two(h, p, w)
    ensures Two(h, Removed(h, p, key), WithoutKey(w, key))
  {
    FindIsView(h, p, w, key);
    if key in w.m0 {
      CutFirst(h, p, w, key);
    } else if key in w.m1 {
      CutSecond(h, p, w, key);
    } else {
      AbsentKey(w.m1, key);
    }
  }

  /** The copy of a key that is found first gets another value. */
  ghost function WithValue(w: World, key: Key, val: int): World {
    if key in w.m0 then World(w.m0[key := val], w.m1, w.d)
    else if key in w.m1 then World(w.m0, w.m1[key := val], w.d)
    else w
  }

  lemma {:induction false} ChangedTwo(h: Hash, p: Map, w: World, key: Key, val: int)
    requires Two(h, p, w)
    ensures Two(h, Changed(h, p, key, val), WithValue(w, key, val))
  {
    FindIsView(h, p, w, key);
    if key in w.m0 {
      PutFirst(h, p, w, key, val);
    } else if key in w.m1 {
      PutSecond(h, p, w, key, val);
    }
  }

  // ------------------------------------------------------------ effects on maps

  /** The key waits in the table that an insertion into `p` does not look into. */
  ghost predicate Waits(h: Hash, p: Map, key: Key) {
    Rehashing(p) && Has(h, p.ht0, key)
  }

  /** An insertion adds a second copy of the key. */
  ghost predicate Duplicates(h: Hash, s: Map, key: Key) {
    Prepared(h, s).Went? && Waits(h, Prepared(h, s).s, key)
  }

  /** On a sane world an insertion is sane exactly if the key does not wait in the other table. */
  lemma {:induction false} WithNodeView(w: World, second: bool, n: Node)
    requires Sane(w) && (!second ==> w.m1 == map[])
    ensures Sane(WithNode(w, second, n)) <==> !(second && n.key in w.m0)
    ensures Sane(WithNode(w, second, n)) ==> View(WithNode(w, second, n)) == Inserted(View(w), n)
  {
    if second {
      if n.key in w.m0 {
        assert n.key in WithNode(w, second, n).m1;
      }
    }
  }

  lemma {:induction false} WithoutKeyView(w: World, key: Key)
    requires Sane(w)
    ensures Sane(WithoutKey(w, key)) && View(WithoutKey(w, key)) == View(w) - {key}
  {
  }

  ghost function Replaced(m: map<Key, int>, key: Key, val: int): map<Key, int> {
    if key in m then m[key := val] else m
  }

  lemma {:induction false} WithValueView(w: World, key: Key, val: int)
    requires Sane(w)
    ensures Sane(WithValue(w, key, val)) && View(WithValue(w, key, val)) == Replaced(View(w), key, val)
  {
  }

  /** `kylin_map_insert_raw`. */
  lemma {:induction false} InsertTwo(h: Hash, s: Map, w: World, n: Node) returns (w': World)
    requires Two(h, s, w)
    ensures Insert(h, s, n) == Escaped <==> Rehashing(s) && Dry(w)
    ensures Insert(h, s, n).Went? ==> Two(h, Insert(h, s, n).s, w') && MovedOn(s, w, Insert(h, s, n).s, w')
    ensures Sane(w) ==> (Sane(w') <==> !Duplicates(h, s, n.key))
    ensures Sane(w) && Sane(w') ==> View(w') == Inserted(View(w), n)
    ensures Sane(w) && n.key !in View(w) ==> !Duplicates(h, s, n.key)
  {
    var w1 := PreparedTwo(h, s, w);
    w' := w1;
    if Prepared(h, s).Went? {
      var p := Prepared(h, s).s;
      AddedTwo(h, p, w1, n);
      w' := WithNode(w1, Rehashing(p), n);
      FindIsView(h, p, w1, n.key);
      if !Rehashing(p) {
        SettledWorld(h, p, w1);
      }
      if Sane(w1) {
        WithNodeView(w1, Rehashing(p), n);
      }
    }
  }

  lemma MovedOnSame(s: Map, w: World, p: Map, w1: World, r: Map, w': World)
    requires MovedOn(s, w, p, w1)
    requires r.rehashidx == p.rehashidx && |r.ht0.buckets| == |p.ht0.buckets| && w'.d == w1.d
    ensures MovedOn(s, w, r, w')
  {
  }

  lemma RemovedShape(h: Hash, p: Map, w: World, key: Key, r: Map)
    requires r == Removed(h, p, key)
    ensures r.rehashidx == p.rehashidx && |r.ht0.buckets| == |p.ht0.buckets|
    ensures |r.ht1.buckets| == |p.ht1.buckets| && WithoutKey(w, key).d == w.d
  {
  }

  lemma ChangedShape(h: Hash, p: Map, w: World, key: Key, val: int, r: Map)
    requires r == Changed(h, p, key, val)
    ensures r.rehashidx == p.rehashidx && |r.ht0.buckets| == |p.ht0.buckets|
    ensures |r.ht1.buckets| == |p.ht1.buckets| && WithValue(w, key, val).d == w.d
  {
  }

  /** The rest of an unlink, from the state after its migration step. */
  lemma {:induction false} RemovedAfter(h: Hash, s: Map, w: World, p: Map, w1: World, key: Key, r: Map)
    requires Two(h, p, w1) && MovedOn(s, w, p, w1) && Migrates(w, w1) && r == Removed(h, p, key)
    ensures Two(h, r, WithoutKey(w1, key)) && MovedOn(s, w, r, WithoutKey(w1, key))
    ensures Sane(w) ==> Sane(WithoutKey(w1, key)) && View(WithoutKey(w1, key)) == View(w) - {key}
  {
    RemovedTwo(h, p, w1, key);
    RemovedShape(h, p, w1, key, r);
    MovedOnSame(s, w, p, w1, r, WithoutKey(w1, key));
    if Sane(w1) {
      WithoutKeyView(w1, key);
    }
  }

  lemma {:induction false} ChangedAfter(h: Hash, s: Map, w: World, p: Map, w1: World, key: Key, val: int, r: Map)
    requires Two(h, p, w1) && MovedOn(s, w, p, w1) && Migrates(w, w1) && r == Changed(h, p, key, val)
    ensures Two(h, r, WithValue(w1, key, val)) && MovedOn(s, w, r, WithValue(w1, key, val))
    ensures Sane(w) ==> Sane(WithValue(w1, key, val)) && View(WithValue(w1, key, val)) == Replaced(View(w), key, val)
  {
    ChangedTwo(h, p, w1, key, val);
    ChangedShape(h, p, w1, key, val, r);
    MovedOnSame(s, w, p, w1, r, WithValue(w1, key, val));
    if Sane(w1) {
      WithValueView(w1, key, val);
    }
  }

  /** `kylin_map_unlink`. */
  lemma {:induction false} UnlinkTwo(h: Hash, s: Map, w: World, key: Key) returns (w': World)
    requires Two(h, s, w)
    ensures Unlink(h, s, key) == Escaped <==> Rehashing(s) && Dry(w)
    ensures Unlink(h, s, key).Went? ==> Two(h, Unlink(h, s, key).s, w') && MovedOn(s, w, Unlink(h, s, key).s, w')
    ensures Sane(w) ==> Sane(w') && View(w') == View(w) - {key}
  {
    w' := StepTwo(h, s, w);
    match Step(h, s)
    case Went(p) =>
      RemovedAfter(h, s, w, p, w', key, Removed(h, p, key));
      w' := WithoutKey(w', key);
    case Escaped =>
  }

  /** `kylin_map_replace`. */
  lemma {:induction false} ReplaceTwo(h: Hash, s: Map, w: World, key: Key, val: int) returns (w': World)
    requires Two(h, s, w)
    ensures Replace(h, s, key, val) == Escaped <==> Rehashing(s) && Dry(w)
    ensures Replace(h, s, key, val).Went? ==>
              Two(h, Replace(h, s, key, val).s, w') && MovedOn(s, w, Replace(h, s, key, val).s, w')
    ensures Sane(w) ==> Sane(w') && View(w') == Replaced(View(w), key, val)
  {
    w' := StepTwo(h, s, w);
    match Step(h, s)
    case Went(p) =>
      ChangedAfter(h, s, w, p, w', key, val, Changed(h, p, key, val));
      w' := WithValue(w', key, val);
    case Escaped =>
  }

  // --------------------------------------------------------------------- runs

  datatype Op =
    | OpInsert(node: Node)
    | OpUnlink(key: Key)
    | OpReplace(key: Key, val: int)
    | OpResize(count: nat)
    | OpFind(key: Key)

  function Perform(h: Hash, s: Map, op: Op): Outcome {
    match op
    case OpInsert(n) => Insert(h, s, n)
    case OpUnlink(k) => Unlink(h, s, k)
    case OpReplace(k, v) => Replace(h, s, k, v)
    case OpResize(count) => Went(if count >= 2 then Resize(s, count).0 else s)
    case OpFind(_) => Went(s)
  }

  /** What the same operation does to a plain finite map. */
  ghost function Effect(m: map<Key, int>, op: Op): map<Key, int> {
    match op
    case OpInsert(n) => Inserted(m, n)
    case OpUnlink(k) => m - {k}
    case OpReplace(k, v) => Replaced(m, k, v)
    case OpResize(_) => m
    case OpFind(_) => m
  }

  predicate Mutates(op: Op) {
    op.OpInsert? || op.OpUnlink? || op.OpReplace?
  }

  ghost predicate Permitted(h: Hash, s: Map, op: Op) {
    op.OpInsert? ==> !Duplicates(h, s, op.node.key)
  }

  /** The two maps after an operation, and when it escapes. */
  lemma {:induction false} PerformTwo(h: Hash, s: Map, w: World, op: Op) returns (w': World)
    requires Two(h, s, w)
    ensures Perform(h, s, op) == Escaped <==> Mutates(op) && Rehashing(s) && Dry(w)
    ensures Perform(h, s, op).Went? ==> Two(h, Perform(h, s, op).s, w')
    ensures Perform(h, s, op).Went? && Mutates(op) ==> MovedOn(s, w, Perform(h, s, op).s, w')
    ensures !Mutates(op) ==> w' == w && (Rehashing(s) ==> Perform(h, s, op) == Went(s))
    ensures Sane(w) ==> (Sane(w') <==> Permitted(h, s, op))
    ensures Sane(w) && Sane(w') ==> View(w') == Effect(View(w), op)
    ensures Sane(w) && op.OpInsert? && op.node.key !in View(w) ==> Permitted(h, s, op)
  {
    w' := w;
    match op
    case OpInsert(n) => w' := InsertTwo(h, s, w, n);
    case OpUnlink(k) => w' := UnlinkTwo(h, s, w, k);
    case OpReplace(k, v) => w' := ReplaceTwo(h, s, w, k, v);
    case OpResize(count) => if count >= 2 { ResizeTwo(h, s, w, count); }
    case OpFind(_) =>
  }

  function Run(h: Hash, s: Map, ops: seq<Op>): Outcome
    decreases ops
  {
    if ops == [] then Went(s)
    else
      match Perform(h, s, ops[0])
      case Went(r) => Run(h, r, ops[1..])
      case Escaped => Escaped
  }

  /** Every run: as long as it does not escape, each table stands for a map of its own. */
  lemma {:induction false} RunTwo(h: Hash, s: Map, w: World, ops: seq<Op>) returns (w': World)
    requires Two(h, s, w)
    ensures Run(h, s, ops).Went? ==> Two(h, Run(h, s, ops).s, w')
    decreases ops
  {
    w' := w;
    if ops != [] {
      var w1 := PerformTwo(h, s, w, ops[0]);
      if Perform(h, s, ops[0]).Went? {
        w' := RunTwo(h, Perform(h, s, ops[0]).s, w1, ops[1..]);
      }
    }
  }

  // ------------------------------------------------------- runs as of one map

  /** The tables stand for one finite map. */
  ghost predicate IsMap(h: Hash, s: Map) {
    exists w :: Two(h, s, w) && Sane(w)
  }

  ghost predicate StandsFor(h: Hash, s: Map, m: map<Key, int>) {
    exists w :: Two(h, s, w) && Sane(w) && View(w) == m
  }

  ghost function Effects(m: map<Key, int>, ops: seq<Op>): map<Key, int>
    decreases ops
  {
    if ops == [] then m else Effects(Effect(m, ops[0]), ops[1..])
  }

  /** Every state of a run stands for some finite map. */
  ghost predicate StaysMap(h: Hash, s: Map, ops: seq<Op>)
    decreases ops
  {
    && IsMap(h, s)
    && (ops == [] ||
        match Perform(h, s, ops[0])
        case Went(r) => StaysMap(h, r, ops[1..])
        case Escaped => false)
  }

  /** No insertion of a run adds a second copy. */
  ghost predicate AllPermitted(h: Hash, s: Map, ops: seq<Op>)
    decreases ops
  {
    ops == [] ||
    (Permitted(h, s, ops[0]) &&
     match Perform(h, s, ops[0])
     case Went(r) => AllPermitted(h, r, ops[1..])
     case Escaped => false)
  }

  /** Only absent keys are inserted. */
  ghost predicate AllAbsent(m: map<Key, int>, ops: seq<Op>)
    decreases ops
  {
    ops == [] || ((ops[0].OpInsert? ==> ops[0].node.key !in m) && AllAbsent(Effect(m, ops[0]), ops[1..]))
  }

  lemma {:induction false} IsMapIff(h: Hash, s: Map, w: World)
    requires Two(h, s, w)
    ensures IsMap(h, s) <==> Sane(w)
  {
    forall w' | Two(h, s, w') ensures w' == w {
      TwoUnique(h, s, w, w');
    }
  }

  /**
   The states of a run all stand for maps exactly when it never adds a second copy of a key. The run
   then does to the tables what it does to a plain map.
   */
  lemma {:induction false} RunIsMapIff(h: Hash, s: Map, w: World, ops: seq<Op>)
    requires Two(h, s, w) && Sane(w)
    ensures StaysMap(h, s, ops) <==> AllPermitted(h, s, ops)
    ensures AllPermitted(h, s, ops) ==> Run(h, s, ops).Went? && StandsFor(h, Run(h, s, ops).s, Effects(View(w), ops))
    ensures AllAbsent(View(w), ops) ==> AllPermitted(h, s, ops)
    decreases ops
  {
    IsMapIff(h, s, w);
    if ops != [] {
      var w' := PerformTwo(h, s, w, ops[0]);
      var r := Perform(h, s, ops[0]).s;
      if Sane(w') {
        RunIsMapIff(h, r, w', ops[1..]);
      } else {
        NotStaying(h, r, w', ops[1..]);
      }
    }
  }

  lemma {:induction false} NotStaying(h: Hash, s: Map, w: World, ops: seq<Op>)
    requires Two(h, s, w) && !Sane(w)
    ensures !StaysMap(h, s, ops)
  {
    IsMapIff(h, s, w);
  }

  /** From creation on, as long as no second copy is added: every search and the count are those of the map. */
  lemma {:induction false} FindAfterRun(h: Hash, ops: seq<Op>, key: Key)
    requires AllPermitted(h, EMPTY, ops)
    ensures Run(h, EMPTY, ops).Went?
    ensures var s, m := Run(h, EMPTY, ops).s, Effects(map[], ops);
            && (key in m <==> Has(h, s.ht0, key) || Has(h, s.ht1, key))
            && (Has(h, s.ht0, key) ==> Get(h, s.ht0, key) == Node(key, m[key]))
            && (Has(h, s.ht1, key) ==> Get(h, s.ht1, key) == Node(key, m[key]))
            && s.ht0.used + s.ht1.used == |m|
  {
    InitTwo(h);
    RunIsMapIff(h, EMPTY, NOTHING, ops);
    var s := Run(h, EMPTY, ops).s;
    var w :| Two(h, s, w) && Sane(w) && View(w) == Effects(map[], ops);
    FindIsView(h, s, w, key);
    CountIsSize(h, s, w);
  }

  // ------------------------------------------------------------------- escapes

  /** A migration is under way, `used` promises nodes in `ht0`, and no bucket has any. */
  predicate DryState(s: Map) {
    Rehashing(s) && s.ht0.used != 0 && forall b :: 0 <= b < |s.ht0.buckets| ==> s.ht0.buckets[b] == []
  }

  lemma {:induction false} DryIff(h: Hash, s: Map, w: World)
    requires Two(h, s, w)
    ensures DryState(s) <==> Rehashing(s) && Dry(w)
  {
    BagOfEmpty(s.ht0.buckets);
    PairsSize(w.m0);
    assert |Bag(s.ht0.buckets)| == |w.m0|;
    assert |w.m0| == 0 <==> w.m0 == map[];
  }

  /** An operation of the run comes to a dry state. */
  ghost predicate ComesDry(h: Hash, s: Map, ops: seq<Op>, i: nat)
    requires i < |ops|
  {
    Mutates(ops[i]) && Run(h, s, ops[..i]).Went? && DryState(Run(h, s, ops[..i]).s)
  }

  lemma RunLater(h: Hash, s: Map, ops: seq<Op>, i: nat)
    requires i < |ops| && ops != [] && Perform(h, s, ops[0]).Went?
    ensures Run(h, s, ops[..i + 1]) == Run(h, Perform(h, s, ops[0]).s, ops[1..][..i])
  {
    assert ops[..i + 1][0] == ops[0] && ops[..i + 1][1..] == ops[1..][..i];
  }

  /** A run leaves the table exactly if one of its changing operations comes to a dry state. */
  lemma {:induction false} RunEscapesIff(h: Hash, s: Map, w: World, ops: seq<Op>)
    requires Two(h, s, w)
    ensures Run(h, s, ops) == Escaped <==> exists i :: 0 <= i < |ops| && ComesDry(h, s, ops, i)
    decreases ops
  {
    if ops != [] {
      var w' := PerformTwo(h, s, w, ops[0]);
      DryIff(h, s, w);
      assert ops[..0] == [];
      assert ComesDry(h, s, ops, 0) <==> Perform(h, s, ops[0]) == Escaped;
      if Perform(h, s, ops[0]).Went? {
        var r, rest := Perform(h, s, ops[0]).s, ops[1..];
        RunEscapesIff(h, r, w', rest);
        forall i | 0 <= i < |rest| ensures ComesDry(h, s, ops, i + 1) <==> ComesDry(h, r, rest, i) {
          RunLater(h, s, ops, i);
        }
        if k :| 0 <= k < |ops| && ComesDry(h, s, ops, k) {
          assert ComesDry(h, r, rest, k - 1);
        }
      }
    }
  }

  /** A migration round loses a node exactly if the other table has its key. */
  lemma {:induction false} LosesIff(h: Hash, s: Map, w: World, s': Map) returns (w': World)
    requires Two(h, s, w) && Rehashing(s) && CanMove(s) && s' == MoveBucket(h, s)
    ensures Two(h, s', w')
    ensures w'.d > w.d <==> exists k :: k in w.m0 && k !in w'.m0 && Has(h, s.ht1, k)
  {
    var ks := MoveTwo(h, s, w, s');
    w' := Moved(w, ks);
    LostIff(w, ks);
    forall k | k in ks ensures Has(h, s.ht1, k) <==> k in w.m1 {
      FindIsView(h, s, w, k);
    }
    assert forall k :: k in w.m0 && k !in w'.m0 <==> k in ks;
  }

  function Mutations(ops: seq<Op>): nat {
    if ops == [] then 0 else (if Mutates(ops[0]) then 1 else 0) + Mutations(ops[1..])
  }

  /**
   Once a node is lost, the migration never ends: it leaves the table by the time its remaining
   buckets and one more are asked for.
   */
  lemma {:induction false} LossDooms(h: Hash, s: Map, w: World, ops: seq<Op>)
    requires Two(h, s, w) && Rehashing(s) && w.d > 0
    ensures Run(h, s, ops).Went? ==> Rehashing(Run(h, s, ops).s)
    ensures Mutations(ops) > |s.ht0.buckets| - s.rehashidx ==> Run(h, s, ops) == Escaped
    decreases ops
  {
    if ops != [] {
      var w' := PerformTwo(h, s, w, ops[0]);
      if Perform(h, s, ops[0]).Went? {
        LossDooms(h, Perform(h, s, ops[0]).s, w', ops[1..]);
      }
    }
  }

  // ------------------------------------------------------ a migration finishes

  /** Some state of the run is not migrating. */
  ghost predicate Ends(h: Hash, s: Map, ops: seq<Op>)
    decreases ops
  {
    || !Rehashing(s)
    || (ops != [] &&
        match Perform(h, s, ops[0])
        case Went(r) => Ends(h, r, ops[1..])
        case Escaped => false)
  }

  /** On every run, a migration is over or has left the table soon after its last bucket. */
  lemma {:induction false} RehashEnds(h: Hash, s: Map, w: World, ops: seq<Op>)
    requires Two(h, s, w) && Rehashing(s) && Mutations(ops) > |s.ht0.buckets| - s.rehashidx
    ensures Ends(h, s, ops) || Run(h, s, ops) == Escaped
    decreases ops
  {
    var w' := PerformTwo(h, s, w, ops[0]);
    if Perform(h, s, ops[0]).Went? && Rehashing(Perform(h, s, ops[0]).s) {
      RehashEnds(h, Perform(h, s, ops[0]).s, w', ops[1..]);
    }
  }

  /** Without second copies, a migration of `c` buckets is over within `c` operations that change the map. */
  lemma {:induction false} RehashFinishes(h: Hash, s: Map, w: World, ops: seq<Op>)
    requires Two(h, s, w) && Sane(w) && Rehashing(s) && AllPermitted(h, s, ops)
    requires Mutations(ops) >= 1 && Mutations(ops) >= |s.ht0.buckets| - s.rehashidx
    ensures Ends(h, s, ops)
    decreases ops
  {
    var w' := PerformTwo(h, s, w, ops[0]);
    var r := Perform(h, s, ops[0]).s;
    if Rehashing(r) {
      RehashFinishes(h, r, w', ops[1..]);
    }
  }
}
