/**
 When the tables grow, by how much, and how far each operation moves them: in numbers of nodes and
 buckets.
 */
module MapGrowth {
  import opened Powers
  import opened MapSpec
  import opened MapLaws
  import opened MapWorld
  import opened MapRuns

  // --------------------------------------------------------------------- sizes

  lemma {:induction false} PowerUnique(i: nat, j: nat, n: nat)
    requires Pow2(i) < n <= 2 * Pow2(i) && Pow2(j) < n <= 2 * Pow2(j)
    ensures Pow2(i) == Pow2(j)
  {
    if i < j {
      Pow2Monotone(i + 1, j);
    } else if j < i {
      Pow2Monotone(j + 1, i);
    }
  }

  /** The size that a resize to `count` buckets picks is the only power of two of that kind. */
  lemma {:induction false} RoundupIs(count: nat, k: nat)
    requires Pow2(k) < count <= 2 * Pow2(k)
    ensures count >= 2 && Roundup(count) == Pow2(k)
  {
    RoundupBounds(count);
    PowerUnique(Fls(count - 1), k, count);
  }

  /** The three answers of a resize; `r` is the power of two with `r < count <= 2 * r`. */
  lemma {:induction false} ResizeAnswers(s: Map, count: nat, k: nat)
    requires Pow2(k) < count <= 2 * Pow2(k)
    ensures count >= 2
    ensures var a, r := Resize(s, count), Pow2(k);
            && (a.1 == Busy <==> s.rehashidx != -1)
            && (a.1 == Exist <==> s.rehashidx == -1 && |s.ht0.buckets| == r)
            && (a.1 != Ok ==> a.0 == s)
            && (a.1 == Ok ==>
                     var t := if s.ht0.buckets == [] then a.0.ht0 else a.0.ht1;
                     && |t.buckets| == r && t.used == 0 && (forall b :: 0 <= b < r ==> t.buckets[b] == [])
                     && (if s.ht0.buckets == [] then a.0.ht1 == s.ht1 && a.0.rehashidx == -1
                         else a.0.ht0 == s.ht0 && a.0.rehashidx == 0))
  {
    RoundupIs(count, k);
  }

  // -------------------------------------------------------------- hash and mask

  lemma {:induction false} AndMask(a: nat, k: nat)
    ensures And(a, Pow2(k) - 1) == a % Pow2(k)
    decreases k
  {
    if k == 0 {
      Remainder(a, 1, a, 0);
    } else {
      var p := Pow2(k - 1);
      AndMask(a / 2, k - 1);
      OneBitMore(a, p);
      Halved(a, p);
    }
  }

  lemma {:induction false} OneBitMore(a: nat, p: nat)
    requires p > 0 && And(a / 2, p - 1) == a / 2 % p
    ensures And(a, 2 * p - 1) == a % 2 + 2 * (a / 2 % p)
  {
    HalfOfMask(p);
    if a == 0 {
      Remainder(0, p, 0, 0);
    } else {
      AndUnfolds(a, 2 * p - 1);
    }
  }

  lemma HalfOfMask(p: nat)
    requires p > 0
    ensures (2 * p - 1) / 2 == p - 1 && (2 * p - 1) % 2 == 1
  {
  }

  lemma AndUnfolds(a: nat, b: nat)
    requires a > 0 && b > 0
    ensures And(a, b) == (if a % 2 == 1 && b % 2 == 1 then 1 else 0) + 2 * And(a / 2, b / 2)
  {
  }

  lemma {:induction false} Halved(a: nat, p: nat)
    requires p > 0
    ensures a % (2 * p) == a % 2 + 2 * (a / 2 % p)
  {
    var q, r := a / 2 / p, a / 2 % p;
    QuotientAndRemainder(a / 2, p);
    QuotientAndRemainder(a, 2);
    assert a == (2 * p) * q + (a % 2 + 2 * r) by {
      assert 2 * (p * q) == (2 * p) * q;
    }
    Remainder(a, 2 * p, q, a % 2 + 2 * r);
  }

  /** With a power of two of buckets, the mask takes the hash modulo their number. */
  lemma {:induction false} IndexIsModulo(h: Hash, key: Key, k: nat)
    ensures Index(h, key, Pow2(k)) == h(key) % Pow2(k)
  {
    AndMask(h(key), k);
  }

  // -------------------------------------------------------------- one step more

  /** What one migration step moves: the first bucket that is not empty, and no other. */
  ghost predicate BucketMoved(s: Map, r: Map, b: nat) {
    && s.rehashidx <= b < |s.ht0.buckets| && s.ht0.buckets[b] != []
    && (forall i :: 0 <= s.rehashidx <= i < b ==> s.ht0.buckets[i] == [])
    && (r.rehashidx != -1 ==>
           r.rehashidx == b + 1 && r.ht0.buckets == s.ht0.buckets[b := []] && |r.ht1.buckets| == |s.ht1.buckets|)
    && (r.rehashidx == -1 ==> |r.ht0.buckets| == |s.ht1.buckets| && r.ht1 == NO_TABLE)
  }

  lemma {:induction false} StepIs(h: Hash, s: Map)
    requires Rehashing(s) && Step(h, s).Went?
    ensures s.ht0.used == 0 ==> Step(h, s).s == Map(s.ht1, NO_TABLE, -1)
    ensures s.ht0.used != 0 ==> CanMove(s) && Step(h, s).s == Settle(MoveBucket(h, s))
  {
    assert Moves(h, s, 0) == Went(s) && Moves(h, s, 1) == Round(h, s);
  }

  lemma {:induction false} StepMovesOne(h: Hash, s: Map) returns (b: nat)
    requires Rehashing(s) && s.ht0.used != 0 && Step(h, s).Went?
    ensures BucketMoved(s, Step(h, s).s, b)
  {
    StepIs(h, s);
    b := NextFull(s.ht0.buckets, s.rehashidx);
  }

  /** The numbers of buckets after a step: those of before, or the second table has become the first. */
  ghost predicate SameCaps(s: Map, r: Map) {
    if r.rehashidx == -1 then |r.ht0.buckets| == |(if s.rehashidx == -1 then s.ht0 else s.ht1).buckets|
    else s.rehashidx != -1 && |r.ht0.buckets| == |s.ht0.buckets| && |r.ht1.buckets| == |s.ht1.buckets|
  }

  lemma {:induction false} StepCaps(h: Hash, s: Map)
    requires Step(h, s).Went?
    ensures SameCaps(s, Step(h, s).s)
  {
    if Rehashing(s) {
      StepIs(h, s);
    }
  }

  lemma {:induction false} AddedCaps(h: Hash, p: Map, n: Node)
    ensures var r := Added(h, p, n);
            |r.ht0.buckets| == |p.ht0.buckets| && |r.ht1.buckets| == |p.ht1.buckets| && r.rehashidx == p.rehashidx
  {
  }

  // ------------------------------------------------------------------- growth

  /** More than five nodes to a bucket, by a truncating division. */
  lemma {:induction false} OverFive(used: nat, cap: nat)
    requires cap > 0
    ensures used / cap > 5 <==> used >= 6 * cap
  {
    var q, r := used / cap, used % cap;
    QuotientAndRemainder(used, cap);
    if q > 6 {
      MoreTimes(cap, 6, q);
    } else if q < 6 {
      MoreTimes(cap, q, 6);
    }
  }

  /** The table that insertions go to. */
  ghost function TargetCap(s: Map): nat {
    |(if s.rehashidx == -1 then s.ht0 else s.ht1).buckets|
  }

  /** An insertion grows a settled map exactly if there are six nodes or more to a bucket. */
  lemma {:induction false} GrowsIff(h: Hash, s: Map, w: World, n: Node)
    requires Two(h, s, w) && s.rehashidx == -1 && s.ht0.buckets != []
    ensures Insert(h, s, n).Went?
    ensures var r := Insert(h, s, n).s;
            && (r.rehashidx != -1 || |r.ht0.buckets| != |s.ht0.buckets| <==> s.ht0.used >= 6 * |s.ht0.buckets|)
            && (s.ht0.used >= 6 * |s.ht0.buckets| ==>
                     TargetCap(r) < 2 * s.ht0.used <= 2 * TargetCap(r) && exists k :: TargetCap(r) == Pow2(k))
  {
    var used, cap := s.ht0.used, |s.ht0.buckets|;
    var w' := PreparedTwo(h, s, w);
    OverFive(used, cap);
    var p := Expand(s).0;
    if used >= 6 * cap {
      ExpandedSize(used, cap);
      RoundupBounds(used * 2);
      RoundupIsPower(used * 2);
      ResizeIs(s, used * 2);
    }
    StepCaps(h, p);
    AddedCaps(h, Prepared(h, s).s, n);
  }

  /** The first insertion makes two buckets. */
  lemma {:induction false} FirstGrowth(h: Hash, n: Node)
    ensures Insert(h, EMPTY, n).Went?
    ensures var r := Insert(h, EMPTY, n).s; r.rehashidx == -1 && |r.ht0.buckets| == 2 && r.ht0.used == 1
  {
    assert Pow2(1) == 2;
    RoundupIs(4, 1);
    var p := Map(Table(seq(2, i => []), 0), NO_TABLE, -1);
    assert Prepared(h, EMPTY) == Went(p);
    assert !Has(h, p.ht0, n.key);
  }

  /** A migration goes on with the tables it has. */
  lemma {:induction false} NoGrowthMeanwhile(h: Hash, s: Map, n: Node)
    requires s.rehashidx != -1 && Insert(h, s, n).Went?
    ensures SameCaps(s, Insert(h, s, n).s)
  {
    assert Expand(s).0 == s;
    StepCaps(h, s);
    AddedCaps(h, Prepared(h, s).s, n);
  }

  // -------------------------------------------------------------- load of runs

  ghost function Size(w: World): nat {
    |w.m0| + |w.m1| + w.d
  }

  lemma {:induction false} MovedSize(w: World, ks: set<Key>)
    requires ks <= w.m0.Keys
    ensures Size(Moved(w, ks)) == Size(w)
  {
    TakenOut(w.m0.Keys, ks);
    PutIn(w.m1.Keys, ks);
    MovedKeys(w, ks);
  }

  lemma MovedKeys(w: World, ks: set<Key>)
    requires ks <= w.m0.Keys
    ensures Moved(w, ks).m0.Keys == w.m0.Keys - ks && Moved(w, ks).m1.Keys == w.m1.Keys + ks
    ensures |Moved(w, ks).m0| == |w.m0.Keys - ks| && |Moved(w, ks).m1| == |w.m1.Keys + ks|
  {
  }

  lemma TakenOut(a: set<Key>, ks: set<Key>)
    requires ks <= a
    ensures |a - ks| == |a| - |ks|
  {
    assert a == (a - ks) + ks;
  }

  lemma PutIn(a: set<Key>, ks: set<Key>)
    ensures |a + ks| == |a| + |ks| - |a * ks|
  {
  }

  /** Not more than six nodes to a bucket, or time enough to bring them to a table where it is so. */
  ghost predicate Room(s: Map) {
    if s.rehashidx == -1 then s.ht0.used <= 6 * |s.ht0.buckets|
    else
      && s.ht0.used + s.ht1.used + (|s.ht0.buckets| - s.rehashidx) <= 6 * |s.ht1.buckets|
      && (s.ht0.used == 0 ==> s.rehashidx < |s.ht0.buckets|)
  }

  /** Room for one more. */
  ghost predicate RoomToAdd(p: Map) {
    if p.rehashidx == -1 then p.ht0.used < 6 * |p.ht0.buckets|
    else
      && p.ht0.used + p.ht1.used + (|p.ht0.buckets| - p.rehashidx) < 6 * |p.ht1.buckets|
      && p.ht0.used > 0
  }

  /** A migration step keeps the number of nodes and makes room. */
  lemma {:induction false} StepMakesRoom(h: Hash, s: Map, w: World)
    requires Two(h, s, w) && Rehashing(s) && Room(s) && Step(h, s).Went?
    ensures RoomToAdd(Step(h, s).s)
  {
    StepIs(h, s);
    if s.ht0.used != 0 {
      var p := MoveBucket(h, s);
      var ks := MoveTwo(h, s, w, p);
      MovedSize(w, ks);
      CountIsSize(h, s, w);
      CountIsSize(h, p, Moved(w, ks));
      var b := NextFull(s.ht0.buckets, s.rehashidx);
    }
  }

  lemma {:induction false} WithNodeSize(w: World, second: bool, n: Node)
    ensures Size(WithNode(w, second, n)) <= Size(w) + 1
  {
    Grown(w.m0, n);
    Grown(w.m1, n);
  }

  lemma Grown(m: map<Key, int>, n: Node)
    ensures |Inserted(m, n)| <= |m| + 1
  {
    assert Inserted(m, n).Keys == m.Keys + {n.key};
  }

  lemma {:induction false} WithoutKeySize(w: World, key: Key)
    ensures Size(WithoutKey(w, key)) <= Size(w)
  {
    assert (w.m0 - {key}).Keys == w.m0.Keys - {key} && (w.m1 - {key}).Keys == w.m1.Keys - {key};
  }

  lemma {:induction false} WithValueSize(w: World, key: Key, val: int)
    ensures Size(WithValue(w, key, val)) == Size(w)
  {
    assert key in w.m0 ==> w.m0[key := val].Keys == w.m0.Keys;
    assert key in w.m1 ==> w.m1[key := val].Keys == w.m1.Keys;
  }

  lemma {:induction false} AddedRoom(h: Hash, p: Map, w: World, n: Node)
    requires Two(h, p, w) && RoomToAdd(p) && Target(p).buckets != []
    ensures Room(Added(h, p, n))
  {
    AddedTwo(h, p, w, n);
    WithNodeSize(w, Rehashing(p), n);
    CountIsSize(h, p, w);
    CountIsSize(h, Added(h, p, n), WithNode(w, Rehashing(p), n));
    AddedCaps(h, p, n);
  }

  /** An expansion leaves room, and without one there is room. */
  lemma {:induction false} ExpandRoom(h: Hash, s: Map, w: World)
    requires Two(h, s, w) && !Rehashing(s) && Room(s)
    ensures var p := Expand(s).0; if Rehashing(p) then Room(p) else RoomToAdd(p)
  {
    var used, cap := s.ht0.used, |s.ht0.buckets|;
    if cap > 0 {
      OverFive(used, cap);
      if used >= 6 * cap {
        ExpandedSize(used, cap);
        ResizeIs(s, used * 2);
      }
    } else {
      assert Pow2(1) == 2;
      RoundupIs(4, 1);
    }
  }

  lemma {:induction false} InsertRoom(h: Hash, s: Map, w: World, n: Node)
    requires Two(h, s, w) && Room(s) && Insert(h, s, n).Went?
    ensures Room(Insert(h, s, n).s)
  {
    var p := Expand(s).0;
    ExpandTwo(h, s, w);
    if !Rehashing(s) {
      ExpandRoom(h, s, w);
    }
    if Rehashing(p) {
      StepMakesRoom(h, p, w);
    }
    var w' := PreparedTwo(h, s, w);
    AddedRoom(h, Prepared(h, s).s, w', n);
  }

  /** Where a node is left to move, the migration is not past the last bucket. */
  lemma {:induction false} LeftToMove(h: Hash, p: Map, w: World)
    requires Two(h, p, w) && Rehashing(p) && p.ht0.used > 0
    ensures w.d > 0 || p.rehashidx < |p.ht0.buckets|
  {
    if w.d == 0 {
      NotPast(h, p, w);
    }
  }

  /** Fewer nodes, or as many, in tables of the same numbers of buckets. */
  lemma {:induction false} SmallerRoom(h: Hash, p: Map, w: World, r: Map, w': World)
    requires Two(h, p, w) && Two(h, r, w') && Room(p) && (Rehashing(p) ==> p.ht0.used > 0)
    requires Size(w') <= Size(w) && w'.d == w.d && r.rehashidx == p.rehashidx
    requires |r.ht0.buckets| == |p.ht0.buckets| && |r.ht1.buckets| == |p.ht1.buckets|
    ensures Room(r)
  {
    CountIsSize(h, p, w);
    CountIsSize(h, r, w');
    if Rehashing(p) {
      LeftToMove(h, p, w);
    } else {
      SettledWorld(h, p, w);
      SettledWorld(h, r, w');
    }
  }

  /** The migration step before an unlink or a replacement. */
  lemma {:induction false} RoomAfterStep(h: Hash, s: Map, w: World) returns (p: Map, w': World)
    requires Two(h, s, w) && Room(s) && Step(h, s).Went?
    ensures Step(h, s) == Went(p) && Two(h, p, w') && Room(p) && (Rehashing(p) ==> p.ht0.used > 0)
  {
    w' := StepTwo(h, s, w);
    p := Step(h, s).s;
    if Rehashing(s) {
      StepMakesRoom(h, s, w);
    }
  }

  lemma {:induction false} UnlinkRoom(h: Hash, s: Map, w: World, key: Key)
    requires Two(h, s, w) && Room(s) && Unlink(h, s, key).Went?
    ensures Room(Unlink(h, s, key).s)
  {
    var p, w' := RoomAfterStep(h, s, w);
    RemovedRoom(h, p, w', key, Removed(h, p, key));
  }

  lemma {:induction false} RemovedRoom(h: Hash, p: Map, w: World, key: Key, r: Map)
    requires Two(h, p, w) && Room(p) && (Rehashing(p) ==> p.ht0.used > 0) && r == Removed(h, p, key)
    ensures Room(r)
  {
    RemovedTwo(h, p, w, key);
    RemovedShape(h, p, w, key, r);
    WithoutKeySize(w, key);
    SmallerRoom(h, p, w, r, WithoutKey(w, key));
  }

  lemma {:induction false} ReplaceRoom(h: Hash, s: Map, w: World, key: Key, val: int)
    requires Two(h, s, w) && Room(s) && Replace(h, s, key, val).Went?
    ensures Room(Replace(h, s, key, val).s)
  {
    var p, w' := RoomAfterStep(h, s, w);
    ChangedRoom(h, p, w', key, val, Changed(h, p, key, val));
  }

  lemma {:induction false} ChangedRoom(h: Hash, p: Map, w: World, key: Key, val: int, r: Map)
    requires Two(h, p, w) && Room(p) && (Rehashing(p) ==> p.ht0.used > 0) && r == Changed(h, p, key, val)
    ensures Room(r)
  {
    ChangedTwo(h, p, w, key, val);
    ChangedShape(h, p, w, key, val, r);
    WithValueSize(w, key, val);
    SmallerRoom(h, p, w, r, WithValue(w, key, val));
  }

  lemma {:induction false} RunRoom(h: Hash, s: Map, w: World, ops: seq<Op>)
    requires Two(h, s, w) && Room(s) && Run(h, s, ops).Went?
    requires forall i :: 0 <= i < |ops| ==> !ops[i].OpResize?
    ensures Room(Run(h, s, ops).s)
    decreases ops
  {
    if ops != [] {
      var w' := PerformTwo(h, s, w, ops[0]);
      match ops[0] {
        case OpInsert(n) => InsertRoom(h, s, w, n);
        case OpUnlink(key) => UnlinkRoom(h, s, w, key);
        case OpReplace(key, val) => ReplaceRoom(h, s, w, key, val);
        case OpFind(_) =>
      }
      RunRoom(h, Perform(h, s, ops[0]).s, w', ops[1..]);
    }
  }

  /** From creation on without explicit resizes: outside of migrations, at most six nodes to a bucket. */
  lemma {:induction false} LoadFactor(h: Hash, ops: seq<Op>)
    requires forall i :: 0 <= i < |ops| ==> !ops[i].OpResize?
    requires Run(h, EMPTY, ops).Went?
    ensures var s := Run(h, EMPTY, ops).s; s.rehashidx == -1 ==> s.ht0.used <= 6 * |s.ht0.buckets|
  {
    InitTwo(h);
    RunRoom(h, EMPTY, NOTHING, ops);
  }
}
