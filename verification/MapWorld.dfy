/**
 The two tables as two finite maps. This holds of every state that can be reached, even when a key
 has a copy in each table.
 */
module MapWorld {
  import opened Powers
  import opened MapSpec
  import opened MapLaws

  /** The maps of `ht0` and `ht1`, and how many nodes of `ht0` were destroyed but are still counted. */
  datatype World = World(m0: map<Key, int>, m1: map<Key, int>, d: nat)

  /** What a search finds: `ht0` comes first. */
  ghost function View(w: World): map<Key, int> {
    w.m1 + w.m0
  }

  /** No key has two copies. */
  ghost predicate Disjoint(w: World) {
    w.m0.Keys !! w.m1.Keys
  }

  /** The tables stand for one map. */
  ghost predicate Sane(w: World) {
    w.d == 0 && Disjoint(w)
  }

  /** `used` promises nodes in `ht0`, but there are none. */
  ghost predicate Dry(w: World) {
    w.m0 == map[] && w.d > 0
  }

  /** The migration has passed empty buckets only. */
  ghost predicate Migration(s: Map) {
    && (!Rehashing(s) ==> s.ht1 == NO_TABLE)
    && (Rehashing(s) ==>
          && s.ht0.buckets != [] && s.ht1.buckets != []
          && 0 <= s.rehashidx <= |s.ht0.buckets|
          && forall b :: 0 <= b < s.rehashidx ==> s.ht0.buckets[b] == [])
  }

  ghost predicate Two(h: Hash, s: Map, w: World) {
    && Holds(h, s.ht0, w.m0, w.d) && Holds(h, s.ht1, w.m1, 0)
    && Migration(s) && (!Rehashing(s) ==> w.d == 0)
  }

  const NOTHING: World := World(map[], map[], 0)

  lemma {:induction false} InitTwo(h: Hash)
    ensures Two(h, EMPTY, NOTHING) && Sane(NOTHING) && View(NOTHING) == map[]
  {
    assert Pairs(map[]) == {};
  }

  /** The tables determine what they stand for. */
  lemma {:induction false} TwoUnique(h: Hash, s: Map, w: World, w': World)
    requires Two(h, s, w) && Two(h, s, w')
    ensures w == w'
  {
    PairsInjective(w.m0, w'.m0);
    PairsInjective(w.m1, w'.m1);
  }

  /** Without a migration there is only `ht0`. */
  lemma {:induction false} SettledWorld(h: Hash, s: Map, w: World)
    requires Two(h, s, w) && !Rehashing(s)
    ensures w.m1 == map[] && Sane(w) && View(w) == w.m0
  {
    assert |w.m1| == 0;
  }

  // ------------------------------------------------------------------- search

  /** `kylin_map_find` looks into `ht0`, then into `ht1` while nodes are being moved. */
  lemma {:induction false} FindIsView(h: Hash, s: Map, w: World, key: Key)
    requires Two(h, s, w)
    ensures Has(h, s.ht0, key) <==> key in w.m0
    ensures Has(h, s.ht1, key) <==> key in w.m1
    ensures key in w.m0 ==> Get(h, s.ht0, key) == Node(key, View(w)[key])
    ensures key in w.m1 && key !in w.m0 ==> Get(h, s.ht1, key) == Node(key, View(w)[key])
    ensures key in w.m1 ==> Rehashing(s) && Get(h, s.ht1, key) == Node(key, w.m1[key])
  {
    HasIff(h, s.ht0, w.m0, w.d, key);
    HasIff(h, s.ht1, w.m1, 0, key);
    if !Rehashing(s) {
      SettledWorld(h, s, w);
    }
  }

  lemma SumOfSizes(m0: map<Key, int>, m1: map<Key, int>)
    requires m0.Keys !! m1.Keys
    ensures |m1 + m0| == |m0| + |m1|
  {
    assert (m1 + m0).Keys == m1.Keys + m0.Keys;
  }

  /** `kylin_map_count`. */
  lemma {:induction false} CountIsSize(h: Hash, s: Map, w: World)
    requires Two(h, s, w)
    ensures s.ht0.used + s.ht1.used == |w.m0| + |w.m1| + w.d
    ensures Sane(w) ==> s.ht0.used + s.ht1.used == |View(w)|
  {
    if Disjoint(w) {
      SumOfSizes(w.m0, w.m1);
    }
  }

  // ---------------------------------------------------------------- migration

  lemma {:induction false} LessAllIs(used: nat, n: nat)
    requires n <= used
    ensures LessAll(used, n) == used - n
    decreases n
  {
    if n > 0 {
      LessAllIs(used - 1, n - 1);
    }
  }

  /** The scan has a bucket to stop at exactly if `ht0` has a node. */
  lemma {:induction false} ScanIff(h: Hash, s: Map, w: World)
    requires Two(h, s, w) && Rehashing(s)
    ensures CanMove(s) <==> w.m0 != map[]
  {
    BagOfEmpty(s.ht0.buckets);
    PairsSize(w.m0);
    assert |Bag(s.ht0.buckets)| == |w.m0|;
    assert |w.m0| == 0 <==> w.m0 == map[];
  }

  /** The keys `ks` move over: copies in `ht1` win, and the others are lost but still counted. */
  ghost function Moved(w: World, ks: set<Key>): World
    requires ks <= w.m0.Keys
  {
    World(w.m0 - ks,
          map k | k in w.m1.Keys + ks :: if k in w.m1 then w.m1[k] else w.m0[k],
          w.d + |w.m1.Keys * ks|)
  }

  lemma {:induction false} ClearHolds(h: Hash, t: Table, m: map<Key, int>, d: nat, b: nat)
    requires Holds(h, t, m, d) && b < |t.buckets|
    ensures var c := t.buckets[b];
            && Placed(h, t.buckets[b := []]) && Bag(t.buckets[b := []]) == PairBag(m - KeysOf(c))
            && |m| == |m - KeysOf(c)| + |c| && PartOf(c, m) && DistinctKeys(c)
  {
    var c := t.buckets[b];
    BagUpdate(t.buckets, b, []);
    assert Bag(t.buckets[b := []]) + multiset(c) == PairBag(m);
    DropChain(c, m, Bag(t.buckets[b := []]));
  }

  lemma {:induction false} MergeIsMoved(w: World, c: Chain)
    requires PartOf(c, w.m0) && DistinctKeys(c)
    ensures KeysOf(c) <= w.m0.Keys && Merge(w.m1, c) == Moved(w, KeysOf(c)).m1
    ensures |Merge(w.m1, c)| + |w.m1.Keys * KeysOf(c)| == |w.m1| + |c|
  {
    MergeIs(w.m1, c, w.m0);
  }

  /** `ht0` after its bucket `b` is gone and `n` of the nodes are no longer counted. */
  lemma {:induction false} MoveOut(h: Hash, t: Table, m: map<Key, int>, d: nat, b: nat, n: nat, t': Table)
    requires Holds(h, t, m, d) && b < |t.buckets| && n <= |t.buckets[b]|
    requires t' == Table(t.buckets[b := []], LessAll(t.used, n))
    ensures Holds(h, t', m - KeysOf(t.buckets[b]), d + |t.buckets[b]| - n)
    ensures PartOf(t.buckets[b], m) && DistinctKeys(t.buckets[b])
  {
    ClearHolds(h, t, m, d, b);
    LessAllIs(t.used, n);
  }

  /** `ht1` after the nodes of a chain of `ht0` have come in. */
  lemma {:induction false} MoveIn(h: Hash, t: Table, w: World, c: Chain, t': Table)
    requires Holds(h, t, w.m1, 0) && t.buckets != [] && t' == PushAll(h, t, c) && PartOf(c, w.m0) && DistinctKeys(c)
    ensures KeysOf(c) <= w.m0.Keys && Holds(h, t', Moved(w, KeysOf(c)).m1, 0)
    ensures Moved(w, KeysOf(c)).d == w.d + |c| - (t'.used - t.used)
  {
    PushAllHolds(h, t, w.m1, 0, c);
    MergeIsMoved(w, c);
  }

  lemma MoveBucketIs(h: Hash, s: Map, b: nat, t: Table, n: nat, s': Map)
    requires CanMove(s) && b == NextFull(s.ht0.buckets, s.rehashidx) && s' == MoveBucket(h, s)
    requires t == PushAll(h, s.ht1, s.ht0.buckets[b]) && n == t.used - s.ht1.used
    ensures s'.ht1 == t && s'.rehashidx == b + 1 && n <= |s.ht0.buckets[b]|
    ensures s'.ht0 == Table(s.ht0.buckets[b := []], LessAll(s.ht0.used, n))
  {
  }

  lemma {:induction false} MoveMigration(s: Map, b: nat, s': Map)
    requires Migration(s) && Rehashing(s) && CanMove(s) && b == NextFull(s.ht0.buckets, s.rehashidx)
    requires s'.ht0.buckets == s.ht0.buckets[b := []] && |s'.ht1.buckets| == |s.ht1.buckets| && s'.rehashidx == b + 1
    ensures Migration(s') && Rehashing(s')
  {
  }

  /** One bucket moves. */
  lemma {:induction false} MoveTwo(h: Hash, s: Map, w: World, s': Map) returns (ks: set<Key>)
    requires Two(h, s, w) && Rehashing(s) && CanMove(s) && s' == MoveBucket(h, s)
    ensures ks != {} && ks <= w.m0.Keys && Two(h, s', Moved(w, ks))
    ensures s.rehashidx < s'.rehashidx && |s'.ht0.buckets| == |s.ht0.buckets|
  {
    var b := NextFull(s.ht0.buckets, s.rehashidx);
    var c := s.ht0.buckets[b];
    var t := PushAll(h, s.ht1, c);
    var n := t.used - s.ht1.used;
    ks := KeysOf(c);
    assert c[0].key in ks;
    MoveBucketIs(h, s, b, t, n, s');
    MoveOut(h, s.ht0, w.m0, w.d, b, n, s'.ht0);
    MoveIn(h, s.ht1, w, c, t);
    MoveMigration(s, b, s');
  }

  /** What a migration does to the maps. */
  ghost predicate Migrates(w: World, w': World) {
    w.d <= w'.d && (Sane(w) ==> Sane(w') && View(w') == View(w))
  }

  lemma MovedView(w: World, ks: set<Key>)
    requires ks <= w.m0.Keys && Disjoint(w)
    ensures Disjoint(Moved(w, ks)) && Moved(w, ks).d == w.d
  {
    assert w.m1.Keys * ks == {};
  }

  lemma MovedAt(w: World, ks: set<Key>, k: Key)
    requires ks <= w.m0.Keys && Disjoint(w)
    ensures k in View(Moved(w, ks)) <==> k in View(w)
    ensures k in View(w) ==> View(Moved(w, ks))[k] == View(w)[k]
  {
    var w' := Moved(w, ks);
    assert k in w'.m0 <==> k in w.m0 && k !in ks;
    assert k in w'.m1 <==> k in w.m1 || k in ks;
  }

  lemma {:induction false} MovedSame(w: World, ks: set<Key>)
    requires ks <= w.m0.Keys && Disjoint(w)
    ensures View(Moved(w, ks)) == View(w)
  {
    var v, v' := View(w), View(Moved(w, ks));
    forall k: Key ensures (k in v' <==> k in v) && (k in v ==> v'[k] == v[k]) {
      MovedAt(w, ks, k);
    }
    Extensional(v, v');
  }

  lemma Extensional(v: map<Key, int>, v': map<Key, int>)
    requires forall k: Key :: (k in v' <==> k in v) && (k in v ==> v'[k] == v[k])
    ensures v == v'
  {
  }

  /** A node is lost exactly if its key has a copy in the other table. */
  lemma {:induction false} LostIff(w: World, ks: set<Key>)
    requires ks <= w.m0.Keys
    ensures Moved(w, ks).d > w.d <==> exists k :: k in ks && k in w.m1
  {
    var both := w.m1.Keys * ks;
    assert forall k :: k in both <==> k in ks && k in w.m1;
    assert |both| > 0 <==> both != {};
  }

  lemma {:induction false} MovedMigrates(w: World, ks: set<Key>)
    requires ks <= w.m0.Keys
    ensures Migrates(w, Moved(w, ks))
  {
    if Sane(w) {
      MovedView(w, ks);
      MovedSame(w, ks);
    }
  }

  /** A round escapes exactly if `ht0` is dry. */
  lemma {:induction false} RoundTwo(h: Hash, s: Map, w: World) returns (w': World)
    requires Two(h, s, w) && Rehashing(s)
    ensures Round(h, s) == Escaped <==> Dry(w)
    ensures Round(h, s).Went? ==>
              var r := Round(h, s).s;
              && Two(h, r, w') && Migrates(w, w') && Rehashing(r) && |r.ht0.buckets| == |s.ht0.buckets|
              && if s.ht0.used == 0 then r == s else r.rehashidx > s.rehashidx
  {
    w' := w;
    ScanIff(h, s, w);
    assert s.ht0.used == 0 <==> |w.m0| == 0 && w.d == 0;
    assert |w.m0| == 0 <==> w.m0 == map[];
    if s.ht0.used != 0 && CanMove(s) {
      var ks := MoveTwo(h, s, w, MoveBucket(h, s));
      MovedMigrates(w, ks);
      w' := Moved(w, ks);
    }
  }

  lemma MigratesOn(w: World, w1: World, w2: World)
    requires Migrates(w, w1) && Migrates(w1, w2)
    ensures Migrates(w, w2)
  {
  }

  /** Where the loop of a migration gets to in `step` rounds. */
  ghost predicate Advanced(s: Map, r: Map, step: nat) {
    Rehashing(r) && |r.ht0.buckets| == |s.ht0.buckets| && (r.ht0.used == 0 || r.rehashidx >= s.rehashidx + step)
  }

  lemma {:induction false} MovesTwo(h: Hash, s: Map, w: World, step: nat) returns (w': World)
    requires Two(h, s, w) && Rehashing(s)
    ensures Moves(h, s, step) == Escaped ==> !Sane(w)
    ensures step == 1 ==> (Moves(h, s, step) == Escaped <==> Dry(w))
    ensures Moves(h, s, step).Went? ==>
              var r := Moves(h, s, step).s; Two(h, r, w') && Migrates(w, w') && Advanced(s, r, step)
    decreases step
  {
    w' := w;
    if step > 0 {
      var w1 := MovesTwo(h, s, w, step - 1);
      if Moves(h, s, step - 1).Went? {
        var p := Moves(h, s, step - 1).s;
        w' := RoundTwo(h, p, w1);
        if step == 1 {
          TwoUnique(h, s, w, w1);
        }
        if Round(h, p).Went? {
          MigratesOn(w, w1, w');
        }
      }
    }
  }

  ghost function SettledFrom(s: Map, w: World): World {
    if s.ht0.used == 0 then World(w.m1, map[], 0) else w
  }

  lemma {:induction false} SettleTwo(h: Hash, s: Map, w: World)
    requires Two(h, s, w) && Rehashing(s)
    ensures Two(h, Settle(s), SettledFrom(s, w)) && Migrates(w, SettledFrom(s, w))
    ensures w.d > 0 ==> Settle(s) == s
  {
    if s.ht0.used == 0 {
      assert w.m0 == map[];
      assert Pairs(map[]) == {};
      assert w.m1 + map[] == w.m1 && map[] + w.m1 == w.m1;
    }
  }

  /**
   A migration keeps what the tables stand for, and it ends or gets past `step` more buckets. Its
   only step in use escapes exactly if `ht0` is dry.
   */
  lemma {:induction false} RehashTwo(h: Hash, s: Map, w: World, step: nat) returns (w': World)
    requires Two(h, s, w)
    ensures Rehash(h, s, step) == Escaped ==> Rehashing(s) && !Sane(w)
    ensures step == 1 ==> (Rehash(h, s, step) == Escaped <==> Rehashing(s) && Dry(w))
    ensures Rehash(h, s, step).Went? ==>
              var r := Rehash(h, s, step).s;
              && Two(h, r, w') && Migrates(w, w') && (!Rehashing(s) ==> r == s)
              && (s.ht0.buckets != [] ==> r.ht0.buckets != []) && (w.d > 0 ==> Rehashing(r))
              && (Rehashing(r) ==> r.ht0.used > 0 && Rehashing(s) && Advanced(s, r, step))
  {
    w' := w;
    if Rehashing(s) {
      var w1 := MovesTwo(h, s, w, step);
      w' := w1;
      if Moves(h, s, step).Went? {
        var p := Moves(h, s, step).s;
        SettleTwo(h, p, w1);
        w' := SettledFrom(p, w1);
        MigratesOn(w, w1, w');
      }
    }
  }

  // ------------------------------------------------------------------- resize

  lemma {:induction false} FreshHolds(h: Hash, cap: nat)
    ensures Holds(h, Table(seq(cap, i => []), 0), map[], 0)
  {
    BagOfEmpty(seq(cap, i => []));
    assert Pairs(map[]) == {};
  }

  lemma {:induction false} ResizeTwo(h: Hash, s: Map, w: World, count: nat)
    requires Two(h, s, w) && count >= 2
    ensures Two(h, Resize(s, count).0, w)
  {
    FreshHolds(h, Roundup(count));
    if !Rehashing(s) {
      SettledWorld(h, s, w);
    }
    if s.ht0.buckets == [] {
      EmptyTable(h, s.ht0, w.m0, w.d);
    }
  }

  lemma {:induction false} EmptyTable(h: Hash, t: Table, m: map<Key, int>, d: nat)
    requires Holds(h, t, m, d) && t.buckets == []
    ensures m == map[] && t.used == d
  {
    assert Pairs(map[]) == {};
    PairsInjective(m, map[]);
  }

  lemma Overfull(used: nat, cap: nat)
    requires cap > 0 && used / cap > FORCE_RESIZE_RATIO
    ensures used > cap && used >= 6
  {
    var q, r := used / cap, used % cap;
    assert used == cap * q + r;
    assert cap * q >= cap * 6 by { assert cap * (q - 6) >= 0; }
  }

  /** The size that an overfull table of `cap` buckets gets. */
  lemma {:induction false} ExpandedSize(used: nat, cap: nat)
    requires cap > 0 && used / cap > FORCE_RESIZE_RATIO
    ensures used * 2 >= 2 && Roundup(used * 2) > cap && Roundup(used * 2) >= used
  {
    Overfull(used, cap);
    RoundupBounds(used * 2);
  }

  lemma RoundupIsPower(count: nat)
    requires count >= 2
    ensures exists k :: Roundup(count) == Pow2(k)
  {
    assert Roundup(count) == Pow2(Fls(count - 1));
  }

  lemma ResizeIs(s: Map, count: nat)
    requires count >= 2 && !Rehashing(s) && Roundup(count) != |s.ht0.buckets|
    ensures Resize(s, count).1 == Ok
    ensures var r := Resize(s, count).0; |(if s.ht0.buckets == [] then r.ht0 else r.ht1).buckets| == Roundup(count)
  {
  }

  /** An automatic expansion finds a power of two that is large enough, and never `Exist`. */
  lemma {:induction false} ExpansionSucceeds(h: Hash, s: Map, w: World)
    requires Two(h, s, w) && NeedsExpansion(s)
    ensures Expand(s).1 == if Rehashing(s) then Busy else Ok
    ensures !Rehashing(s) ==>
              var t := if s.ht0.buckets == [] then Expand(s).0.ht0 else Expand(s).0.ht1;
              |t.buckets| > |s.ht0.buckets| && |t.buckets| >= s.ht0.used && exists k :: |t.buckets| == Pow2(k)
  {
    if !Rehashing(s) {
      var count := if |s.ht0.buckets| == 0 then 4 else s.ht0.used * 2;
      if s.ht0.buckets == [] {
        EmptyTable(h, s.ht0, w.m0, w.d);
        RoundupBounds(4);
      } else {
        ExpandedSize(s.ht0.used, |s.ht0.buckets|);
      }
      RoundupIsPower(count);
      ResizeIs(s, count);
    }
  }

  /** An expansion changes nothing during a migration, and one that it starts has nodes to move. */
  lemma {:induction false} ExpandTwo(h: Hash, s: Map, w: World)
    requires Two(h, s, w)
    ensures Two(h, Expand(s).0, w) && Expand(s).0.ht0.buckets != []
    ensures Rehashing(s) ==> Expand(s).0 == s
    ensures !Rehashing(s) ==> !Dry(w)
  {
    if NeedsExpansion(s) {
      ExpansionSucceeds(h, s, w);
      if s.ht0.buckets != [] {
        Overfull(s.ht0.used, |s.ht0.buckets|);
      }
      ResizeTwo(h, s, w, if |s.ht0.buckets| == 0 then 4 else s.ht0.used * 2);
    }
  }
}
