/** What the two tables stand for in every state that can be reached, and what one step does to it. */
module MapLaws {
  import opened Powers
  import opened MapSpec

  // -------------------------------------------------------------------- bags

  /** All nodes of some buckets, with multiplicity. */
  ghost function Bag(buckets: seq<Chain>): multiset<Node> {
    if buckets == [] then multiset{} else Bag(buckets[..|buckets| - 1]) + multiset(buckets[|buckets| - 1])
  }

  lemma {:induction false} BagUpdate(buckets: seq<Chain>, b: nat, c: Chain)
    requires b < |buckets|
    ensures Bag(buckets[b := c]) + multiset(buckets[b]) == Bag(buckets) + multiset(c)
  {
    var n := |buckets| - 1;
    if b == n {
      assert buckets[b := c][..n] == buckets[..n];
    } else {
      assert buckets[b := c][..n] == buckets[..n][b := c];
      BagUpdate(buckets[..n], b, c);
      var x, y, l := Bag(buckets[..n][b := c]), Bag(buckets[..n]), multiset(buckets[n]);
      assert (x + l) + multiset(buckets[b]) == (x + multiset(buckets[b])) + l == (y + l) + multiset(c);
    }
  }

  lemma {:induction false} BagMembers(buckets: seq<Chain>, n: Node)
    ensures n in Bag(buckets) <==> exists b :: 0 <= b < |buckets| && n in buckets[b]
  {
    if buckets != [] {
      var k := |buckets| - 1;
      BagMembers(buckets[..k], n);
      if n in Bag(buckets[..k]) {
        var b :| 0 <= b < k && n in buckets[..k][b];
        assert n in buckets[b];
      }
      if n in buckets[k] {
        assert n in Bag(buckets);
      }
    }
  }

  lemma {:induction false} BagOfEmpty(buckets: seq<Chain>)
    ensures |Bag(buckets)| == 0 <==> forall b :: 0 <= b < |buckets| ==> buckets[b] == []
  {
    if buckets != [] {
      BagOfEmpty(buckets[..|buckets| - 1]);
    }
  }

  lemma Cancel(a: multiset<Node>, b: multiset<Node>, c: multiset<Node>)
    requires a + c == b + c
    ensures a == b
  {
    forall n ensures a[n] == b[n] {
      assert (a + c)[n] == a[n] + c[n] && (b + c)[n] == b[n] + c[n];
    }
  }

  // ------------------------------------------------------------ pairs of a map

  /** The pairs of a finite map; no node occurs twice among them, and no key. */
  ghost function Pairs(m: map<Key, int>): (r: set<Node>)
    ensures forall n :: n in r <==> n.key in m && n.val == m[n.key]
  {
    set k | k in m :: Node(k, m[k])
  }

  ghost function PairBag(m: map<Key, int>): multiset<Node> {
    multiset(Pairs(m))
  }

  lemma {:induction false} PairsSize(m: map<Key, int>)
    ensures |Pairs(m)| == |m|
  {
    PairsOf(m.Keys, m);
    assert Pairs(m) == set k | k in m.Keys :: Node(k, m[k]);
  }

  lemma {:induction false} PairsOf(keys: set<Key>, m: map<Key, int>)
    requires keys <= m.Keys
    ensures |set k | k in keys :: Node(k, m[k])| == |keys|
  {
    if keys != {} {
      var k :| k in keys;
      PairsOf(keys - {k}, m);
      var rest := set j | j in keys - {k} :: Node(j, m[j]);
      assert (set j | j in keys :: Node(j, m[j])) == rest + {Node(k, m[k])};
      assert Node(k, m[k]) !in rest;
    }
  }

  lemma SizeAdd(m: map<Key, int>, key: Key, val: int)
    requires key !in m
    ensures |m[key := val]| == |m| + 1
  {
    assert m[key := val].Keys == m.Keys + {key};
  }

  lemma PairsAdd(m: map<Key, int>, n: Node)
    requires n.key !in m
    ensures PairBag(m[n.key := n.val]) == PairBag(m) + multiset{n}
  {
    assert Pairs(m[n.key := n.val]) == Pairs(m) + {n};
    assert Pairs(m) !! {n};
  }

  lemma PairsDrop(m: map<Key, int>, key: Key)
    requires key in m
    ensures PairBag(m - {key}) + multiset{Node(key, m[key])} == PairBag(m) && |m - {key}| == |m| - 1
  {
    PairsAdd(m - {key}, Node(key, m[key]));
    SizeAdd(m - {key}, key, m[key]);
    assert m == (m - {key})[key := m[key]];
  }

  lemma SizeChange(m: map<Key, int>, key: Key, val: int)
    requires key in m
    ensures |m[key := val]| == |m|
  {
    assert m[key := val].Keys == m.Keys;
  }

  lemma PairsChange(m: map<Key, int>, key: Key, val: int)
    requires key in m
    ensures PairBag(m[key := val]) + multiset{Node(key, m[key])} == PairBag(m) + multiset{Node(key, val)}
  {
    PairsDrop(m, key);
    PairsAdd(m - {key}, Node(key, val));
    assert m[key := val] == (m - {key})[key := val];
    Swap(PairBag(m - {key}), multiset{Node(key, val)}, multiset{Node(key, m[key])});
  }

  lemma Swap(x: multiset<Node>, a: multiset<Node>, b: multiset<Node>)
    ensures (x + a) + b == (x + b) + a
  {
  }

  lemma PairsInjective(m: map<Key, int>, m': map<Key, int>)
    requires PairBag(m) == PairBag(m')
    ensures m == m'
  {
    forall n ensures n in Pairs(m) <==> n in Pairs(m') {
      assert n in PairBag(m) <==> n in PairBag(m');
    }
    assert Pairs(m) == Pairs(m');
    forall k | k in m ensures k in m' && m'[k] == m[k] {
      assert Node(k, m[k]) in Pairs(m');
    }
    forall k | k in m' ensures k in m {
      assert Node(k, m'[k]) in Pairs(m);
    }
  }

  // ---------------------------------------------------------------- one table

  /** Every node is in the bucket of its key. */
  ghost predicate Placed(h: Hash, buckets: seq<Chain>) {
    forall b, n :: 0 <= b < |buckets| && n in buckets[b] ==> Index(h, n.key, |buckets|) == b
  }

  /** A table with the pairs of `m`, whose `used` counts `d` nodes that are not there. */
  ghost predicate Holds(h: Hash, t: Table, m: map<Key, int>, d: nat) {
    Placed(h, t.buckets) && Bag(t.buckets) == PairBag(m) && t.used == |m| + d
  }

  lemma {:induction false} InBag(m: map<Key, int>, n: Node)
    ensures n in PairBag(m) <==> n.key in m && n.val == m[n.key]
  {
    assert n in PairBag(m) <==> n in Pairs(m);
  }

  /** A search of one table answers as its map does. */
  lemma {:induction false} HasIff(h: Hash, t: Table, m: map<Key, int>, d: nat, key: Key)
    requires Holds(h, t, m, d)
    ensures Has(h, t, key) <==> key in m
    ensures key in m ==> Get(h, t, key) == Node(key, m[key])
  {
    if Has(h, t, key) {
      BagMembers(t.buckets, Get(h, t, key));
      InBag(m, Get(h, t, key));
    }
    if key in m {
      var n := Node(key, m[key]);
      InBag(m, n);
      BagMembers(t.buckets, n);
      var b :| 0 <= b < |t.buckets| && n in t.buckets[b];
      var j :| 0 <= j < |t.buckets[b]| && t.buckets[b][j] == n;
    }
  }

  lemma {:induction false} SetBucket(h: Hash, t: Table, key: Key, c: Chain, used: nat, t': Table)
    requires Placed(h, t.buckets) && t.buckets != [] && t' == WithBucket(h, t, key, c, used)
    requires forall i :: 0 <= i < |c| ==> Index(h, c[i].key, |t.buckets|) == Index(h, key, |t.buckets|)
    ensures Placed(h, t'.buckets)
    ensures Bag(t'.buckets) + multiset(Bucket(h, t, key)) == Bag(t.buckets) + multiset(c)
  {
    BagUpdate(t.buckets, Index(h, key, |t.buckets|), c);
  }

  /** What two bags have in common does not matter. */
  lemma Common(x: multiset<Node>, y: multiset<Node>, rest: multiset<Node>, a: multiset<Node>, b: multiset<Node>)
    requires x + (rest + a) == y + (rest + b)
    ensures x + a == y + b
  {
    assert x + (rest + a) == (x + a) + rest && y + (rest + b) == (y + b) + rest;
    Cancel(x + a, y + b, rest);
  }

  lemma Without(c: Chain, i: nat)
    requires i < |c|
    ensures multiset(c) == multiset(c[..i] + c[i + 1..]) + multiset{c[i]}
  {
    assert c == c[..i] + [c[i]] + c[i + 1..];
  }

  lemma {:induction false} PushHolds(h: Hash, t: Table, m: map<Key, int>, d: nat, n: Node)
    requires Holds(h, t, m, d) && t.buckets != [] && n.key !in m
    ensures Holds(h, Push(h, t, n), m[n.key := n.val], d)
  {
    var c := Bucket(h, t, n.key);
    var t' := Push(h, t, n);
    SetBucket(h, t, n.key, [n] + c, t.used + 1, t');
    assert multiset([n] + c) == multiset(c) + multiset{n};
    assert Bag(t'.buckets) + multiset(c) == Bag(t'.buckets) + (multiset(c) + multiset{});
    Common(Bag(t'.buckets), Bag(t.buckets), multiset(c), multiset{}, multiset{n});
    PairsAdd(m, n);
    SizeAdd(m, n.key, n.val);
  }

  lemma {:induction false} CutHolds(h: Hash, t: Table, m: map<Key, int>, d: nat, key: Key)
    requires Holds(h, t, m, d) && key in m
    ensures Has(h, t, key) && Holds(h, Cut(h, t, key), m - {key}, d)
  {
    HasIff(h, t, m, d, key);
    var c, i := Bucket(h, t, key), Position(Bucket(h, t, key), key);
    var e, n := c[..i] + c[i + 1..], c[i];
    var t' := Cut(h, t, key);
    PairsDrop(m, key);
    SetBucket(h, t, key, e, Less(t.used), t');
    Without(c, i);
    assert Bag(t.buckets) + multiset(e) == Bag(t.buckets) + (multiset(e) + multiset{});
    Common(Bag(t'.buckets), Bag(t.buckets), multiset(e), multiset{n}, multiset{});
    Cancel(Bag(t'.buckets), PairBag(m - {key}), multiset{n});
  }

  lemma {:induction false} PutHolds(h: Hash, t: Table, m: map<Key, int>, d: nat, key: Key, val: int)
    requires Holds(h, t, m, d) && key in m
    ensures Has(h, t, key) && Holds(h, Put(h, t, key, val), m[key := val], d)
  {
    HasIff(h, t, m, d, key);
    var c, i := Bucket(h, t, key), Position(Bucket(h, t, key), key);
    var n, n' := c[i], Node(key, val);
    var e, rest := c[i := n'], c[..i] + c[i + 1..];
    var t' := Put(h, t, key, val);
    PairsChange(m, key, val);
    SizeChange(m, key, val);
    SetBucket(h, t, key, e, t.used, t');
    Without(c, i);
    assert rest == e[..i] + e[i + 1..];
    Without(e, i);
    Common(Bag(t'.buckets), Bag(t.buckets), multiset(rest), multiset{n}, multiset{n'});
    Cancel(Bag(t'.buckets), PairBag(m[key := val]), multiset{n});
  }

  // ------------------------------------------------------------------- chains

  ghost function KeysOf(c: Chain): set<Key> {
    set i | 0 <= i < |c| :: c[i].key
  }

  /** The chain is part of the map. */
  ghost predicate PartOf(c: Chain, m: map<Key, int>) {
    forall i :: 0 <= i < |c| ==> c[i].key in m && m[c[i].key] == c[i].val
  }

  ghost predicate DistinctKeys(c: Chain) {
    forall i, j :: 0 <= i < j < |c| ==> c[i].key != c[j].key
  }

  lemma DropOne(x: multiset<Node>, m: map<Key, int>, n: Node)
    requires x + multiset{n} == PairBag(m)
    ensures n.key in m && m[n.key] == n.val && x == PairBag(m - {n.key}) && |m| == |m - {n.key}| + 1
  {
    assert n in x + multiset{n};
    InBag(m, n);
    PairsDrop(m, n.key);
    Cancel(x, PairBag(m - {n.key}), multiset{n});
  }

  lemma KeysFront(c: Chain)
    requires c != []
    ensures KeysOf(c) == KeysOf(c[1..]) + {c[0].key}
  {
    var rest := c[1..];
    assert forall i :: 0 < i < |c| ==> c[i] == rest[i - 1];
  }

  lemma SubtractTwice(m: map<Key, int>, a: set<Key>, k: Key)
    ensures (m - a) - {k} == m - (a + {k})
  {
  }

  /** Taking the pairs of a chain out of a map leaves the other pairs. */
  lemma {:induction false} DropChain(c: Chain, m: map<Key, int>, x: multiset<Node>)
    requires x + multiset(c) == PairBag(m)
    ensures x == PairBag(m - KeysOf(c)) && |m| == |m - KeysOf(c)| + |c| && PartOf(c, m) && DistinctKeys(c)
    decreases c
  {
    if c == [] {
      DropNone(m, x);
    } else {
      SplitFront(x, c);
      DropChain(c[1..], m, x + multiset{c[0]});
      DropFront(c, m, x);
    }
  }

  lemma DropNone(m: map<Key, int>, x: multiset<Node>)
    requires x + multiset(EMPTY_CHAIN) == PairBag(m)
    ensures x == PairBag(m - KeysOf(EMPTY_CHAIN)) && |m| == |m - KeysOf(EMPTY_CHAIN)|
  {
    assert m - KeysOf(EMPTY_CHAIN) == m;
    assert x + multiset(EMPTY_CHAIN) == x;
  }

  const EMPTY_CHAIN: Chain := []

  lemma SplitFront(x: multiset<Node>, c: Chain)
    requires c != []
    ensures x + multiset(c) == (x + multiset{c[0]}) + multiset(c[1..])
  {
    assert c == [c[0]] + c[1..];
  }

  lemma {:induction false} DropFront(c: Chain, m: map<Key, int>, x: multiset<Node>)
    requires c != [] && x + multiset{c[0]} == PairBag(m - KeysOf(c[1..])) && |m| == |m - KeysOf(c[1..])| + |c[1..]|
    requires PartOf(c[1..], m) && DistinctKeys(c[1..])
    ensures x == PairBag(m - KeysOf(c)) && |m| == |m - KeysOf(c)| + |c| && PartOf(c, m) && DistinctKeys(c)
  {
    DropOne(x, m - KeysOf(c[1..]), c[0]);
    KeysFront(c);
    SubtractTwice(m, KeysOf(c[1..]), c[0].key);
    KeysApart(c, m);
  }

  lemma KeysApart(c: Chain, m: map<Key, int>)
    requires c != [] && PartOf(c[1..], m) && DistinctKeys(c[1..])
    requires c[0].key in m && m[c[0].key] == c[0].val && c[0].key !in KeysOf(c[1..])
    ensures PartOf(c, m) && DistinctKeys(c)
  {
    var rest := c[1..];
    assert forall i :: 0 < i < |c| ==> c[i] == rest[i - 1] && c[i].key in KeysOf(rest);
  }

  /** The nodes of a chain join a map, except for keys that it has. */
  ghost function Merge(m: map<Key, int>, c: Chain): map<Key, int>
    decreases c
  {
    if c == [] then m else Merge(if c[0].key in m then m else m[c[0].key := c[0].val], c[1..])
  }

  lemma {:induction false} PushAllHolds(h: Hash, t: Table, m: map<Key, int>, d: nat, c: Chain)
    requires Holds(h, t, m, d) && t.buckets != []
    ensures Holds(h, PushAll(h, t, c), Merge(m, c), d)
    decreases c
  {
    if c != [] {
      HasIff(h, t, m, d, c[0].key);
      if c[0].key in m {
        PushAllHolds(h, t, m, d, c[1..]);
      } else {
        PushHolds(h, t, m, d, c[0]);
        PushAllHolds(h, Push(h, t, c[0]), m[c[0].key := c[0].val], d, c[1..]);
      }
    }
  }

  /** As many nodes are dropped as keys are in the map already, and the map wins. */
  lemma {:induction false} MergeIs(m: map<Key, int>, c: Chain, m0: map<Key, int>)
    requires PartOf(c, m0) && DistinctKeys(c)
    ensures Merged(m, KeysOf(c), m0, Merge(m, c)) && |Merge(m, c)| + |m.Keys * KeysOf(c)| == |m| + |c|
    decreases c
  {
    if c == [] {
      assert m.Keys * KeysOf(c) == {};
    } else {
      var n, rest := c[0], c[1..];
      var m' := if n.key in m then m else m[n.key := n.val];
      RestApart(c, m0);
      MergeIs(m', rest, m0);
      KeysFront(c);
      MergedFront(m, n, KeysOf(rest), m0, Merge(m', rest));
      MergedSize(m, n, KeysOf(rest));
    }
  }

  lemma MergedFront(m: map<Key, int>, n: Node, ks: set<Key>, m0: map<Key, int>, r: map<Key, int>)
    requires n.key in m0 && m0[n.key] == n.val
    requires Merged(if n.key in m then m else m[n.key := n.val], ks, m0, r)
    ensures Merged(m, ks + {n.key}, m0, r)
  {
  }

  lemma MergedSize(m: map<Key, int>, n: Node, ks: set<Key>)
    requires n.key !in ks
    ensures var m' := if n.key in m then m else m[n.key := n.val];
            |m'.Keys * ks| + |m| + 1 == |m.Keys * (ks + {n.key})| + |m'|
  {
    if n.key in m {
      assert m.Keys * (ks + {n.key}) == m.Keys * ks + {n.key};
    } else {
      SizeAdd(m, n.key, n.val);
      assert m.Keys * (ks + {n.key}) == m[n.key := n.val].Keys * ks;
    }
  }

  lemma RestApart(c: Chain, m: map<Key, int>)
    requires c != [] && PartOf(c, m) && DistinctKeys(c)
    ensures PartOf(c[1..], m) && DistinctKeys(c[1..]) && c[0].key !in KeysOf(c[1..])
  {
    var rest := c[1..];
    assert forall i :: 0 <= i < |rest| ==> rest[i] == c[i + 1];
  }

  /** `r` has the pairs of `m`, and those of `m0` for the other keys among `ks`. */
  ghost predicate Merged(m: map<Key, int>, ks: set<Key>, m0: map<Key, int>, r: map<Key, int>) {
    r.Keys == m.Keys + ks && forall k :: k in r ==> if k in m then r[k] == m[k] else k in m0 && r[k] == m0[k]
  }
}
