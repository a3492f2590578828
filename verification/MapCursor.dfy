/**
 Stepping through the map. A cursor is a node together with what its `next` links lead to, that
 is, a non-empty end of a chain; the empty chain stands for a null pointer.
 */
module MapCursor {
  import opened MapSpec
  import opened MapLaws
  import opened MapWorld
  import opened HashMap

  // -------------------------------------------------------- order of the nodes

  ghost function Suffixes(c: Chain): seq<Chain> {
    if c == [] then [] else [c] + Suffixes(c[1..])
  }

  lemma {:induction false} SuffixAt(c: Chain, j: nat)
    ensures |Suffixes(c)| == |c| && (j < |c| ==> Suffixes(c)[j] == c[j..])
  {
    if c != [] {
      SuffixAt(c[1..], if j == 0 then 0 else j - 1);
    }
  }

  /** The cursors of a table: bucket by bucket, each chain from its front. */
  ghost function Cursors(buckets: seq<Chain>): seq<Chain> {
    if buckets == [] then [] else Cursors(buckets[..|buckets| - 1]) + Suffixes(buckets[|buckets| - 1])
  }

  ghost function Nodes(buckets: seq<Chain>): seq<Node> {
    if buckets == [] then [] else Nodes(buckets[..|buckets| - 1]) + buckets[|buckets| - 1]
  }

  /** `ht0` comes before `ht1`. */
  ghost function Order(s: Map): seq<Chain> {
    Cursors(s.ht0.buckets) + Cursors(s.ht1.buckets)
  }

  /** A null pointer past the end. */
  ghost function CursorIn(order: seq<Chain>, i: nat): Chain {
    if i < |order| then order[i] else []
  }

  /** A null pointer in front of the first. */
  ghost function CursorBefore(order: seq<Chain>, i: nat): Chain {
    if 0 < i <= |order| then order[i - 1] else []
  }

  lemma IndexBefore(order: seq<Chain>, i: nat, p: Chain) returns (k: nat)
    requires p == CursorBefore(order, i) && p != []
    ensures i == k + 1 && p == CursorIn(order, k)
  {
    k := i - 1;
  }

  lemma BeforeIs(order: seq<Chain>, i: nat, next: nat)
    requires next == i + 1
    ensures CursorBefore(order, next) == CursorIn(order, i)
  {
  }

  ghost function Offset(buckets: seq<Chain>, b: nat): nat
    requires b <= |buckets|
  {
    |Cursors(buckets[..b])|
  }

  lemma {:induction false} CursorAt(buckets: seq<Chain>, b: nat, j: nat)
    requires b < |buckets|
    ensures Offset(buckets, b + 1) == Offset(buckets, b) + |buckets[b]| <= |Cursors(buckets)|
    ensures j < |buckets[b]| ==> Cursors(buckets)[Offset(buckets, b) + j] == buckets[b][j..]
  {
    var n := |buckets| - 1;
    SuffixAt(buckets[n], j);
    if b == n {
      assert buckets[..b + 1] == buckets;
    } else {
      var front := buckets[..n];
      assert front[..b] == buckets[..b] && front[..b + 1] == buckets[..b + 1];
      CursorAt(front, b, j);
    }
  }

  lemma {:induction false} Gap(buckets: seq<Chain>, a: nat, b: nat)
    requires a <= b <= |buckets| && forall j :: a <= j < b ==> buckets[j] == []
    ensures Offset(buckets, a) == Offset(buckets, b)
    decreases b - a
  {
    if a < b {
      CursorAt(buckets, a, 0);
      Gap(buckets, a + 1, b);
    }
  }

  lemma {:induction false} Locate(buckets: seq<Chain>, i: nat) returns (b: nat, j: nat)
    requires i < |Cursors(buckets)|
    ensures b < |buckets| && j < |buckets[b]| && i == Offset(buckets, b) + j && Cursors(buckets)[i] == buckets[b][j..]
  {
    var n := |buckets| - 1;
    var front := buckets[..n];
    if i < |Cursors(front)| {
      b, j := Locate(front, i);
      assert front[..b] == buckets[..b];
    } else {
      b, j := n, i - |Cursors(front)|;
      SuffixAt(buckets[n], j);
    }
    CursorAt(buckets, b, j);
  }

  lemma Whole(buckets: seq<Chain>)
    ensures Offset(buckets, |buckets|) == |Cursors(buckets)| && Offset(buckets, 0) == 0
  {
    assert buckets[..|buckets|] == buckets;
  }

  /** What comes after all cursors of the buckets below `a`. */
  lemma {:induction false} From(buckets: seq<Chain>, a: nat, b: nat)
    requires a <= |buckets| && b == NextFull(buckets, a)
    ensures Offset(buckets, a) <= |Cursors(buckets)|
    ensures b == |buckets| <==> Offset(buckets, a) == |Cursors(buckets)|
    ensures b < |buckets| ==> Cursors(buckets)[Offset(buckets, a)] == buckets[b]
  {
    Gap(buckets, a, b);
    if b < |buckets| {
      CursorAt(buckets, b, 0);
    } else {
      Whole(buckets);
    }
  }

  // ------------------------------------------------------------- completeness

  lemma {:induction false} HeadsAreNodes(buckets: seq<Chain>)
    ensures |Cursors(buckets)| == |Nodes(buckets)| && multiset(Nodes(buckets)) == Bag(buckets)
    ensures forall i :: 0 <= i < |Cursors(buckets)| ==>
              Cursors(buckets)[i] != [] && Cursors(buckets)[i][0] == Nodes(buckets)[i]
  {
    if buckets != [] {
      var c := buckets[|buckets| - 1];
      HeadsAreNodes(buckets[..|buckets| - 1]);
      forall j | 0 <= j < |c| ensures |Suffixes(c)| == |c| && Suffixes(c)[j] == c[j..] {
        SuffixAt(c, j);
      }
      SuffixAt(c, 0);
    }
  }

  lemma PairsUnion(m0: map<Key, int>, m1: map<Key, int>)
    requires m0.Keys !! m1.Keys
    ensures PairBag(m1 + m0) == PairBag(m0) + PairBag(m1)
  {
    assert Pairs(m0) !! Pairs(m1);
    UnionOfPairs(m0, m1);
  }

  lemma UnionOfPairs(m0: map<Key, int>, m1: map<Key, int>)
    requires m0.Keys !! m1.Keys
    ensures Pairs(m1 + m0) == Pairs(m0) + Pairs(m1)
  {
  }

  lemma OrderSizes(a: seq<Chain>, b: seq<Chain>, x: seq<Node>, y: seq<Node>)
    requires |a| == |x| && |b| == |y|
    requires forall i :: 0 <= i < |a| ==> a[i] != [] && a[i][0] == x[i]
    requires forall i :: 0 <= i < |b| ==> b[i] != [] && b[i][0] == y[i]
    ensures |a + b| == |x + y| && forall i :: 0 <= i < |x + y| ==> (a + b)[i] != [] && (a + b)[i][0] == (x + y)[i]
  {
  }

  /** The order has every pair of each table exactly once. */
  lemma {:induction false} OrderIsComplete(h: Hash, s: Map, w: World)
    requires Two(h, s, w)
    ensures var nodes := Nodes(s.ht0.buckets) + Nodes(s.ht1.buckets);
            && multiset(nodes) == PairBag(w.m0) + PairBag(w.m1) && |nodes| == |w.m0| + |w.m1| == |Order(s)|
            && forall i :: 0 <= i < |nodes| ==> Order(s)[i] != [] && Order(s)[i][0] == nodes[i]
  {
    HeadsAreNodes(s.ht0.buckets);
    HeadsAreNodes(s.ht1.buckets);
    OrderSizes(Cursors(s.ht0.buckets), Cursors(s.ht1.buckets), Nodes(s.ht0.buckets), Nodes(s.ht1.buckets));
    var nodes := Nodes(s.ht0.buckets) + Nodes(s.ht1.buckets);
    assert multiset(nodes) == PairBag(w.m0) + PairBag(w.m1);
    PairsSize(w.m0);
    PairsSize(w.m1);
    assert |multiset(nodes)| == |nodes|;
  }

  lemma SizeOfView(w: World)
    requires !Disjoint(w)
    ensures |View(w)| < |w.m0| + |w.m1|
  {
    var k :| k in w.m0 && k in w.m1;
    var both := w.m0.Keys * w.m1.Keys;
    assert k in both && |both| > 0;
    assert View(w).Keys == w.m0.Keys + w.m1.Keys;
    assert |w.m0.Keys + w.m1.Keys| + |both| == |w.m0.Keys| + |w.m1.Keys|;
  }

  /** That is every pair of the map exactly once, if there are no second copies, and only then. */
  lemma {:induction false} OnceIff(w: World)
    ensures PairBag(w.m0) + PairBag(w.m1) == PairBag(View(w)) <==> Disjoint(w)
  {
    if Disjoint(w) {
      PairsUnion(w.m0, w.m1);
    } else {
      PairsSize(w.m0);
      PairsSize(w.m1);
      PairsSize(View(w));
      SizeOfView(w);
      assert |PairBag(w.m0) + PairBag(w.m1)| == |w.m0| + |w.m1| && |PairBag(View(w))| == |View(w)|;
    }
  }

  // ----------------------------------------------------- where a cursor stands

  lemma {:induction false} PositionIs(h: Hash, t: Table, m: map<Key, int>, d: nat, b: nat, j: nat)
    requires Holds(h, t, m, d) && b < |t.buckets| && j < |t.buckets[b]|
    ensures var key := t.buckets[b][j].key;
            Index(h, key, |t.buckets|) == b && Position(t.buckets[b], key) == j && Has(h, t, key) && key in m
  {
    var c := t.buckets[b];
    var key := c[j].key;
    assert c[j] in c;
    ClearHolds(h, t, m, d, b);
    assert Position(c, key) <= j;
  }

  /** A cursor at place `j` of bucket `b` in a table that has its key. */
  ghost predicate StandsIn(h: Hash, t: Table, c: Chain, b: nat, j: nat) {
    && b < |t.buckets| && j < |t.buckets[b]| && c == t.buckets[b][j..]
    && Index(h, c[0].key, |t.buckets|) == b && Position(t.buckets[b], c[0].key) == j
  }

  lemma {:induction false} PlaceIn(h: Hash, t: Table, m: map<Key, int>, d: nat, i: nat, c: Chain)
      returns (b: nat, j: nat)
    requires Holds(h, t, m, d) && i < |Cursors(t.buckets)| && c == Cursors(t.buckets)[i]
    ensures StandsIn(h, t, c, b, j) && i == Offset(t.buckets, b) + j && c != [] && c[0].key in m
  {
    b, j := Locate(t.buckets, i);
    PositionIs(h, t, m, d, b, j);
  }

  /** The table, the bucket and the place in its chain. */
  lemma {:induction false} FindPlace(h: Hash, s: Map, w: World, i: nat, c: Chain) returns (second: bool, b: nat, j: nat)
    requires Two(h, s, w) && c == CursorIn(Order(s), i) && c != []
    ensures second <==> i >= |Cursors(s.ht0.buckets)|
    ensures !second ==> StandsIn(h, s.ht0, c, b, j) && i == Offset(s.ht0.buckets, b) + j
    ensures second ==> StandsIn(h, s.ht1, c, b, j) && i == |Cursors(s.ht0.buckets)| + Offset(s.ht1.buckets, b) + j
    ensures second ==> c[0].key in w.m1
  {
    var k := |Cursors(s.ht0.buckets)|;
    OrderAt(Cursors(s.ht0.buckets), Cursors(s.ht1.buckets), i);
    second := i >= k;
    if second {
      b, j := PlaceIn(h, s.ht1, w.m1, 0, i - k, c);
    } else {
      b, j := PlaceIn(h, s.ht0, w.m0, w.d, i, c);
    }
  }

  /** Number `i` of the order is not a second copy: a search for its key finds it. */
  ghost predicate Found(h: Hash, s: Map, i: nat, c: Chain)
    requires c != []
  {
    i < |Cursors(s.ht0.buckets)| || !Has(h, s.ht0, c[0].key)
  }

  /** Number `i` of the order is found or has a link to follow. */
  ghost predicate Leads(h: Hash, s: Map, i: nat, c: Chain)
    requires c != []
  {
    |c| > 1 || Found(h, s, i, c)
  }

  /** Without second copies every node is found. */
  lemma {:induction false} AllFound(h: Hash, s: Map, w: World, i: nat, c: Chain)
    requires Two(h, s, w) && Disjoint(w) && c == CursorIn(Order(s), i) && c != []
    ensures Found(h, s, i, c)
  {
    var second, _, _ := FindPlace(h, s, w, i, c);
    if second {
      FindIsView(h, s, w, c[0].key);
    }
  }

  // -------------------------------------------------------------------- steps

  function FirstFrom(buckets: seq<Chain>, a: nat): Chain
    requires a <= |buckets|
  {
    var b := NextFull(buckets, a);
    if b < |buckets| then buckets[b] else []
  }

  /** `kylin_map_next`: within the chain, to the next bucket, to the next table. */
  function NextOf(h: Hash, s: Map, c: Chain): Chain
    requires c != []
  {
    var key := c[0].key;
    if |c| > 1 then c[1..]
    else if Has(h, s.ht0, key) then
      var r := FirstFrom(s.ht0.buckets, Index(h, key, |s.ht0.buckets|) + 1);
      if r != [] then r else FirstFrom(s.ht1.buckets, 0)
    else if Has(h, s.ht1, key) then FirstFrom(s.ht1.buckets, Index(h, key, |s.ht1.buckets|) + 1)
    else []
  }

  /** The last node in the buckets below `a`. */
  function LastBelow(buckets: seq<Chain>, a: nat): Chain
    requires a <= |buckets|
    decreases a
  {
    if a == 0 then []
    else if buckets[a - 1] == [] then LastBelow(buckets, a - 1)
    else buckets[a - 1][|buckets[a - 1]| - 1..]
  }

  /** `kylin_map_prev`. */
  function PrevOf(h: Hash, s: Map, c: Chain): Chain
    requires c != []
  {
    var key := c[0].key;
    if Has(h, s.ht0, key) then
      var b := Index(h, key, |s.ht0.buckets|);
      var j := Position(s.ht0.buckets[b], key);
      if j > 0 then s.ht0.buckets[b][j - 1..] else LastBelow(s.ht0.buckets, b)
    else if Has(h, s.ht1, key) then
      var b := Index(h, key, |s.ht1.buckets|);
      var j := Position(s.ht1.buckets[b], key);
      if j > 0 then s.ht1.buckets[b][j - 1..]
      else
        var r := LastBelow(s.ht1.buckets, b);
        if r != [] then r else LastBelow(s.ht0.buckets, |s.ht0.buckets|)
    else []
  }

  /** The cursor after place `j` of bucket `b` in the order of one table. */
  lemma {:induction false} After(buckets: seq<Chain>, b: nat, j: nat)
    requires b < |buckets| && j < |buckets[b]|
    ensures var r := if j + 1 < |buckets[b]| then buckets[b][j + 1..] else FirstFrom(buckets, b + 1);
            var k := Offset(buckets, b) + j + 1;
            k <= |Cursors(buckets)|
                      && (if k == |Cursors(buckets)| then r == [] else r != [] && Cursors(buckets)[k] == r)
  {
    CursorAt(buckets, b, j + 1);
    if j + 1 == |buckets[b]| {
      From(buckets, b + 1, NextFull(buckets, b + 1));
    } else {
      Inside(buckets, b, j + 1);
    }
  }

  lemma {:induction false} Inside(buckets: seq<Chain>, b: nat, j: nat)
    requires b < |buckets| && j < |buckets[b]|
    ensures Offset(buckets, b) + j < |Cursors(buckets)|
  {
    CursorAt(buckets, b, j);
  }

  /** The cursor before it. */
  lemma {:induction false} Before(buckets: seq<Chain>, b: nat, j: nat, r: Chain)
    requires b < |buckets| && j < |buckets[b]| && r == if j > 0 then buckets[b][j - 1..] else LastBelow(buckets, b)
    ensures var k := Offset(buckets, b) + j;
            k <= |Cursors(buckets)| && (if k == 0 then r == [] else r != [] && Cursors(buckets)[k - 1] == r)
  {
    CursorAt(buckets, b, j);
    if j > 0 {
      CursorAt(buckets, b, j - 1);
    } else {
      Below(buckets, b);
    }
  }

  lemma {:induction false} Below(buckets: seq<Chain>, a: nat)
    requires a <= |buckets|
    ensures var r := LastBelow(buckets, a);
            var k := Offset(buckets, a);
            k <= |Cursors(buckets)| && (if k == 0 then r == [] else r != [] && Cursors(buckets)[k - 1] == r)
    decreases a
  {
    if a > 0 {
      CursorAt(buckets, a - 1, if buckets[a - 1] == [] then 0 else |buckets[a - 1]| - 1);
      Below(buckets, a - 1);
    }
  }

  lemma {:induction false} NextFromSecond(h: Hash, s: Map, c: Chain, b: nat, j: nat)
    requires StandsIn(h, s.ht1, c, b, j) && (|c| > 1 || !Has(h, s.ht0, c[0].key))
    ensures NextOf(h, s, c) ==
              if j + 1 < |s.ht1.buckets[b]| then s.ht1.buckets[b][j + 1..] else FirstFrom(s.ht1.buckets, b + 1)
  {
    assert c[1..] == s.ht1.buckets[b][j + 1..];
  }

  lemma {:induction false} NextFromFirst(h: Hash, s: Map, c: Chain, b: nat, j: nat)
    requires StandsIn(h, s.ht0, c, b, j)
    ensures var r := if j + 1 < |s.ht0.buckets[b]| then s.ht0.buckets[b][j + 1..] else FirstFrom(s.ht0.buckets, b + 1);
            NextOf(h, s, c) == if r != [] then r else FirstFrom(s.ht1.buckets, 0)
  {
    assert c[1..] == s.ht0.buckets[b][j + 1..];
  }

  lemma {:induction false} PrevFromSecond(h: Hash, s: Map, c: Chain, b: nat, j: nat, r: Chain)
    requires StandsIn(h, s.ht1, c, b, j) && !Has(h, s.ht0, c[0].key)
    requires r == if j > 0 then s.ht1.buckets[b][j - 1..] else LastBelow(s.ht1.buckets, b)
    ensures PrevOf(h, s, c) == if r != [] then r else LastBelow(s.ht0.buckets, |s.ht0.buckets|)
  {
  }

  lemma {:induction false} NextWithinSecond(h: Hash, s: Map, c: Chain, b: nat, j: nat, k: nat)
    requires StandsIn(h, s.ht1, c, b, j) && (|c| > 1 || !Has(h, s.ht0, c[0].key))
    requires k == Offset(s.ht1.buckets, b) + j + 1
    ensures var y := Cursors(s.ht1.buckets); k <= |y| && NextOf(h, s, c) == if k < |y| then y[k] else []
  {
    NextFromSecond(h, s, c, b, j);
    After(s.ht1.buckets, b, j);
  }

  lemma {:induction false} NextWithinFirst(h: Hash, s: Map, c: Chain, b: nat, j: nat, k: nat)
    requires StandsIn(h, s.ht0, c, b, j) && k == Offset(s.ht0.buckets, b) + j + 1
    ensures var x := Cursors(s.ht0.buckets);
            k <= |x| && NextOf(h, s, c) == if k < |x| then x[k] else FirstFrom(s.ht1.buckets, 0)
  {
    NextFromFirst(h, s, c, b, j);
    After(s.ht0.buckets, b, j);
  }

  lemma {:induction false} PrevWithinSecond(h: Hash, s: Map, c: Chain, b: nat, j: nat, k: nat)
    requires StandsIn(h, s.ht1, c, b, j) && !Has(h, s.ht0, c[0].key) && k == Offset(s.ht1.buckets, b) + j
    ensures var y := Cursors(s.ht1.buckets);
            k <= |y| && PrevOf(h, s, c) == if k > 0 then y[k - 1] else LastBelow(s.ht0.buckets, |s.ht0.buckets|)
  {
    var r := if j > 0 then s.ht1.buckets[b][j - 1..] else LastBelow(s.ht1.buckets, b);
    PrevFromSecond(h, s, c, b, j, r);
    Before(s.ht1.buckets, b, j, r);
  }

  lemma {:induction false} PrevWithinFirst(h: Hash, s: Map, c: Chain, b: nat, j: nat, k: nat)
    requires StandsIn(h, s.ht0, c, b, j) && k == Offset(s.ht0.buckets, b) + j
    ensures var x := Cursors(s.ht0.buckets); k <= |x| && PrevOf(h, s, c) == if k > 0 then x[k - 1] else []
  {
    Before(s.ht0.buckets, b, j, PrevOf(h, s, c));
  }

  /** The ends of the tables. */
  lemma {:induction false} Ends(s: Map)
    ensures var y := Cursors(s.ht1.buckets); FirstFrom(s.ht1.buckets, 0) == if |y| > 0 then y[0] else []
    ensures var x := Cursors(s.ht0.buckets);
            LastBelow(s.ht0.buckets, |s.ht0.buckets|) == if |x| > 0 then x[|x| - 1] else []
  {
    From(s.ht1.buckets, 0, NextFull(s.ht1.buckets, 0));
    Whole(s.ht1.buckets);
    Below(s.ht0.buckets, |s.ht0.buckets|);
    Whole(s.ht0.buckets);
  }

  /** Places in the order from places in the tables. */
  lemma NextGlue(x: seq<Chain>, y: seq<Chain>, i: nat, r: Chain, first: Chain)
    requires first == CursorIn(y, 0)
    requires r == if i < |x| then x[i] else if i == |x| then first else CursorIn(y, i - |x|)
    ensures r == CursorIn(x + y, i)
  {
  }

  lemma SecondGlue(x: seq<Chain>, y: seq<Chain>, i: nat, k: nat, r: Chain)
    requires i == |x| + k && r == CursorIn(y, k)
    ensures r == CursorIn(x + y, i)
  {
  }

  lemma PrevGlue(x: seq<Chain>, y: seq<Chain>, i: nat, k: nat, r: Chain, last: Chain)
    requires i == |x| + k && k <= |y| && last == if |x| > 0 then x[|x| - 1] else []
    requires r == if k > 0 then y[k - 1] else last
    ensures r == CursorBefore(x + y, i)
  {
  }

  lemma {:induction false} NextInSecond(h: Hash, s: Map, i: nat, c: Chain, b: nat, j: nat)
    requires StandsIn(h, s.ht1, c, b, j) && i == |Cursors(s.ht0.buckets)| + Offset(s.ht1.buckets, b) + j
    requires |c| > 1 || !Has(h, s.ht0, c[0].key)
    ensures NextOf(h, s, c) == CursorIn(Order(s), i + 1)
  {
    var x, y := Cursors(s.ht0.buckets), Cursors(s.ht1.buckets);
    var k := Offset(s.ht1.buckets, b) + j + 1;
    NextWithinSecond(h, s, c, b, j, k);
    SecondGlue(x, y, i + 1, k, NextOf(h, s, c));
  }

  lemma {:induction false} NextInFirst(h: Hash, s: Map, i: nat, c: Chain, b: nat, j: nat)
    requires StandsIn(h, s.ht0, c, b, j) && i == Offset(s.ht0.buckets, b) + j
    ensures NextOf(h, s, c) == CursorIn(Order(s), i + 1)
  {
    NextWithinFirst(h, s, c, b, j, i + 1);
    Ends(s);
    NextGlue(Cursors(s.ht0.buckets), Cursors(s.ht1.buckets), i + 1, NextOf(h, s, c), FirstFrom(s.ht1.buckets, 0));
  }

  lemma {:induction false} PrevInSecond(h: Hash, s: Map, i: nat, c: Chain, b: nat, j: nat)
    requires StandsIn(h, s.ht1, c, b, j) && i == |Cursors(s.ht0.buckets)| + Offset(s.ht1.buckets, b) + j
    requires !Has(h, s.ht0, c[0].key)
    ensures PrevOf(h, s, c) == CursorBefore(Order(s), i)
  {
    var x, y := Cursors(s.ht0.buckets), Cursors(s.ht1.buckets);
    var k := Offset(s.ht1.buckets, b) + j;
    PrevWithinSecond(h, s, c, b, j, k);
    Ends(s);
    PrevGlue(x, y, i, k, PrevOf(h, s, c), LastBelow(s.ht0.buckets, |s.ht0.buckets|));
  }

  lemma {:induction false} PrevInFirst(h: Hash, s: Map, i: nat, c: Chain, b: nat, j: nat)
    requires StandsIn(h, s.ht0, c, b, j) && i == Offset(s.ht0.buckets, b) + j
    ensures PrevOf(h, s, c) == CursorBefore(Order(s), i)
  {
    PrevWithinFirst(h, s, c, b, j, i);
    if i > 0 {
      OrderAt(Cursors(s.ht0.buckets), Cursors(s.ht1.buckets), i - 1);
    }
  }

  /** Next in the sense of the links is next in the order. */
  lemma {:induction false} NextOfLeading(h: Hash, s: Map, w: World, i: nat, c: Chain)
    requires Two(h, s, w) && c == CursorIn(Order(s), i) && c != [] && Leads(h, s, i, c)
    ensures NextOf(h, s, c) == CursorIn(Order(s), i + 1)
  {
    var second, b, j := FindPlace(h, s, w, i, c);
    if second {
      NextInSecond(h, s, i, c, b, j);
    } else {
      NextInFirst(h, s, i, c, b, j);
    }
  }

  lemma {:induction false} NextOfLeadingTo(h: Hash, s: Map, w: World, i: nat, c: Chain, next: nat)
    requires Two(h, s, w) && c == CursorIn(Order(s), i) && c != [] && Leads(h, s, i, c) && next == i + 1
    ensures NextOf(h, s, c) == CursorIn(Order(s), next)
  {
    NextOfLeading(h, s, w, i, c);
  }

  lemma {:induction false} PrevOfFound(h: Hash, s: Map, w: World, i: nat, c: Chain)
    requires Two(h, s, w) && c == CursorIn(Order(s), i) && c != [] && Found(h, s, i, c)
    ensures PrevOf(h, s, c) == CursorBefore(Order(s), i)
  {
    var second, b, j := FindPlace(h, s, w, i, c);
    if second {
      PrevInSecond(h, s, i, c, b, j);
    } else {
      PrevInFirst(h, s, i, c, b, j);
    }
  }

  lemma OrderAt(x: seq<Chain>, y: seq<Chain>, i: nat)
    ensures |x + y| == |x| + |y|
    ensures i < |x| ==> (x + y)[i] == x[i]
    ensures |x| <= i < |x| + |y| ==> (x + y)[i] == y[i - |x|]
  {
  }

  lemma {:induction false} NextAndBack(h: Hash, s: Map, w: World, i: nat, c: Chain, n: Chain)
    requires Two(h, s, w) && Disjoint(w) && c == CursorIn(Order(s), i) && c != [] && n == NextOf(h, s, c) && n != []
    ensures PrevOf(h, s, n) == c
  {
    var next := i + 1;
    AllFound(h, s, w, i, c);
    NextOfLeadingTo(h, s, w, i, c, next);
    AllFound(h, s, w, next, n);
    PrevOfFound(h, s, w, next, n);
    BeforeIs(Order(s), i, next);
  }

  lemma {:induction false} PrevAt(h: Hash, s: Map, w: World, i: nat, c: Chain, p: Chain) returns (k: nat)
    requires Two(h, s, w) && Disjoint(w) && c == CursorIn(Order(s), i) && c != [] && p == PrevOf(h, s, c) && p != []
    ensures i == k + 1 && p == CursorIn(Order(s), k)
  {
    AllFound(h, s, w, i, c);
    PrevOfFound(h, s, w, i, c);
    k := IndexBefore(Order(s), i, p);
  }

  lemma {:induction false} BackAndNext(h: Hash, s: Map, w: World, i: nat, c: Chain, p: Chain)
    requires Two(h, s, w) && Disjoint(w) && c == CursorIn(Order(s), i) && c != [] && p == PrevOf(h, s, c) && p != []
    ensures NextOf(h, s, p) == c
  {
    var k := PrevAt(h, s, w, i, c, p);
    AllFound(h, s, w, k, p);
    NextOfLeadingTo(h, s, w, k, p, i);
  }

  // ------------------------------------------------------------ second copies

  /** The place in the order of a key that the table has. */
  ghost function PlaceOf(h: Hash, t: Table, key: Key): nat
    requires Has(h, t, key)
  {
    Offset(t.buckets, Index(h, key, |t.buckets|)) + Position(Bucket(h, t, key), key)
  }

  /** The place of the node that a search for the key finds: `prev` looks in front of that one. */
  ghost function Home(h: Hash, s: Map, i: nat, c: Chain): nat
    requires c != []
  {
    if Found(h, s, i, c) then i else PlaceOf(h, s.ht0, c[0].key)
  }

  /** Where `next` gets to: without a link to follow, past the bucket in which it finds the key. */
  ghost function NextPlace(h: Hash, s: Map, i: nat, c: Chain): nat
    requires c != []
  {
    if Leads(h, s, i, c) then i + 1
    else
      assert Has(h, s.ht0, c[0].key);
      Offset(s.ht0.buckets, Index(h, c[0].key, |s.ht0.buckets|) + 1)
  }

  lemma {:induction false} HomeInFirst(h: Hash, s: Map, key: Key, k: nat)
    requires Has(h, s.ht0, key) && k == PlaceOf(h, s.ht0, key)
    ensures k < |Cursors(s.ht0.buckets)| <= |Order(s)|
    ensures Order(s)[k] != [] && Order(s)[k][0].key == key
  {
    var b := Index(h, key, |s.ht0.buckets|);
    var j := Position(s.ht0.buckets[b], key);
    CursorAt(s.ht0.buckets, b, j);
    Inside(s.ht0.buckets, b, j);
    OrderAt(Cursors(s.ht0.buckets), Cursors(s.ht1.buckets), k);
  }

  /** The node that is found has the same key, and is the node itself or in an earlier place. */
  lemma {:induction false} HomeIs(h: Hash, s: Map, i: nat, c: Chain, k: nat)
    requires c == CursorIn(Order(s), i) && c != [] && k == Home(h, s, i, c)
    ensures k <= i < |Order(s)| && (k == i <==> Found(h, s, i, c))
    ensures Order(s)[k] != [] && Order(s)[k][0].key == c[0].key && Found(h, s, k, Order(s)[k])
    ensures k < i ==> k < |Cursors(s.ht0.buckets)| <= i
  {
    if !Found(h, s, i, c) {
      HomeInFirst(h, s, c[0].key, k);
    }
  }

  lemma SameKeySamePrev(h: Hash, s: Map, c: Chain, c': Chain)
    requires c != [] && c' != [] && c[0].key == c'[0].key
    ensures PrevOf(h, s, c) == PrevOf(h, s, c')
  {
  }

  lemma NextOfSecondCopy(h: Hash, s: Map, c: Chain, a: nat)
    requires |c| == 1 && Has(h, s.ht0, c[0].key) && a == Index(h, c[0].key, |s.ht0.buckets|) + 1
    ensures a <= |s.ht0.buckets|
    ensures var r := FirstFrom(s.ht0.buckets, a); NextOf(h, s, c) == if r != [] then r else FirstFrom(s.ht1.buckets, 0)
  {
  }

  /** The node after bucket `b` of `ht0`. */
  lemma {:induction false} AfterBucket(s: Map, b: nat, j: nat)
    requires b < |s.ht0.buckets| && s.ht0.buckets[b] != [] && j == Offset(s.ht0.buckets, b + 1)
    ensures 0 < j <= |Cursors(s.ht0.buckets)|
    ensures var r := FirstFrom(s.ht0.buckets, b + 1);
            CursorIn(Order(s), j) == if r != [] then r else FirstFrom(s.ht1.buckets, 0)
  {
    var x, y := Cursors(s.ht0.buckets), Cursors(s.ht1.buckets);
    CursorAt(s.ht0.buckets, b, 0);
    From(s.ht0.buckets, b + 1, NextFull(s.ht0.buckets, b + 1));
    Ends(s);
    OrderAt(x, y, j);
    OrderAt(x, y, |x|);
  }

  /** From a second copy at the end of its chain, `next` goes back. */
  lemma {:induction false} GoesBack(h: Hash, s: Map, w: World, i: nat, c: Chain) returns (j: nat)
    requires Two(h, s, w) && c == CursorIn(Order(s), i) && c != [] && !Leads(h, s, i, c)
    ensures j == NextPlace(h, s, i, c) && 0 < j <= |Cursors(s.ht0.buckets)| <= i < |Order(s)|
    ensures NextOf(h, s, c) == Order(s)[j]
  {
    var b := Index(h, c[0].key, |s.ht0.buckets|);
    j := Offset(s.ht0.buckets, b + 1);
    AfterBucket(s, b, j);
    NextOfSecondCopy(h, s, c, b + 1);
  }

  /** Next in the sense of the links is next in the order, except from a second copy without a link to follow. */
  lemma {:induction false} NextIsNext(h: Hash, s: Map, w: World, i: nat, c: Chain)
    requires Two(h, s, w) && c == CursorIn(Order(s), i) && c != []
    ensures NextOf(h, s, c) == CursorIn(Order(s), NextPlace(h, s, i, c))
    ensures if Leads(h, s, i, c) then NextPlace(h, s, i, c) == i + 1 else 0 < NextPlace(h, s, i, c) <= i
  {
    if Leads(h, s, i, c) {
      NextOfLeading(h, s, w, i, c);
    } else {
      var _ := GoesBack(h, s, w, i, c);
    }
  }

  /** Previous in the sense of the search is in front of the node that it finds. */
  lemma {:induction false} PrevIsPrev(h: Hash, s: Map, w: World, i: nat, c: Chain)
    requires Two(h, s, w) && c == CursorIn(Order(s), i) && c != []
    ensures PrevOf(h, s, c) == CursorBefore(Order(s), Home(h, s, i, c))
    ensures Home(h, s, i, c) <= i && (Home(h, s, i, c) == i <==> Found(h, s, i, c))
  {
    var k := Home(h, s, i, c);
    HomeIs(h, s, i, c, k);
    PrevOfFound(h, s, w, k, Order(s)[k]);
    SameKeySamePrev(h, s, c, Order(s)[k]);
  }

  // ---------------------------------------------------- back and forth, exactly

  /** By places: `prev` undoes a step exactly if `next` led on and ended at a node that is found. */
  lemma {:induction false} BackAgainIff(h: Hash, s: Map, w: World, i: nat, c: Chain, k: nat, n: Chain)
    requires Two(h, s, w) && c == CursorIn(Order(s), i) && c != []
    requires k == NextPlace(h, s, i, c) && n == CursorIn(Order(s), k) && n != []
    ensures NextOf(h, s, c) == n
    ensures Home(h, s, k, n) == i + 1 <==> Leads(h, s, i, c) && Found(h, s, k, n)
  {
    NextIsNext(h, s, w, i, c);
    HomeIs(h, s, k, n, Home(h, s, k, n));
  }

  /** By places: `next` undoes a step back exactly if the step began at a node that is found, and led on. */
  lemma {:induction false} ForthAgainIff(h: Hash, s: Map, w: World, i: nat, c: Chain, k: nat, p: Chain)
    requires Two(h, s, w) && c == CursorIn(Order(s), i) && c != []
    requires Home(h, s, i, c) > 0 && k == Home(h, s, i, c) - 1 && p == CursorIn(Order(s), k) && p != []
    ensures PrevOf(h, s, c) == p
    ensures NextPlace(h, s, k, p) == i <==> Found(h, s, i, c) && Leads(h, s, k, p)
  {
    PrevPlaceIs(h, s, w, i, c, k);
    NextPlaceIs(h, s, w, k, p, k + 1);
  }

  lemma {:induction false} PrevPlaceIs(h: Hash, s: Map, w: World, i: nat, c: Chain, k: nat)
    requires Two(h, s, w) && c == CursorIn(Order(s), i) && c != []
    requires Home(h, s, i, c) > 0 && k == Home(h, s, i, c) - 1
    ensures PrevOf(h, s, c) == CursorIn(Order(s), k) && k < i && (k + 1 == i <==> Found(h, s, i, c))
  {
    PrevIsPrev(h, s, w, i, c);
    BeforeIs(Order(s), k, Home(h, s, i, c));
  }

  lemma {:induction false} NextPlaceIs(h: Hash, s: Map, w: World, i: nat, c: Chain, next: nat)
    requires Two(h, s, w) && c == CursorIn(Order(s), i) && c != [] && next == i + 1
    ensures if Leads(h, s, i, c) then NextPlace(h, s, i, c) == next else NextPlace(h, s, i, c) < next
  {
    NextIsNext(h, s, w, i, c);
  }

  ghost predicate PrevUndoes(h: Hash, s: Map, c: Chain) {
    c != [] && NextOf(h, s, c) != [] ==> PrevOf(h, s, NextOf(h, s, c)) == c
  }

  ghost predicate NextUndoes(h: Hash, s: Map, c: Chain) {
    c != [] && PrevOf(h, s, c) != [] ==> NextOf(h, s, PrevOf(h, s, c)) == c
  }

  /** A node of `ht0` is at the place of its key. */
  lemma {:induction false} AtPlaceOf(h: Hash, s: Map, w: World, i: nat, c: Chain)
    requires Two(h, s, w) && i < |Cursors(s.ht0.buckets)| && c == CursorIn(Order(s), i) && c != []
    ensures Has(h, s.ht0, c[0].key) && i == PlaceOf(h, s.ht0, c[0].key)
  {
    var _, b, j := FindPlace(h, s, w, i, c);
  }

  /** A key with two copies has one of them in `ht1`. */
  lemma {:induction false} SecondCopy(h: Hash, s: Map, w: World, key: Key) returns (i: nat)
    requires Two(h, s, w) && key in w.m0 && key in w.m1
    ensures i < |Order(s)| && Order(s)[i] != [] && !Found(h, s, i, Order(s)[i])
  {
    FindIsView(h, s, w, key);
    i := PlaceInSecond(h, s, key);
  }

  lemma {:induction false} PlaceInSecond(h: Hash, s: Map, key: Key) returns (i: nat)
    requires Has(h, s.ht1, key)
    ensures |Cursors(s.ht0.buckets)| <= i < |Order(s)| && Order(s)[i] != [] && Order(s)[i][0].key == key
  {
    var b := Index(h, key, |s.ht1.buckets|);
    var chain := s.ht1.buckets[b];
    var j := Position(chain, key);
    CursorAt(s.ht1.buckets, b, j);
    Inside(s.ht1.buckets, b, j);
    i := |Cursors(s.ht0.buckets)| + Offset(s.ht1.buckets, b) + j;
    OrderAt(Cursors(s.ht0.buckets), Cursors(s.ht1.buckets), i);
    assert Order(s)[i] == chain[j..];
  }

  /** A second copy whose predecessor is none. */
  lemma {:induction false} CopyAfterFound(h: Hash, s: Map, i: nat) returns (k: nat, p: Chain, j: nat, c: Chain)
    requires i < |Order(s)| && Order(s)[i] != [] && !Found(h, s, i, Order(s)[i])
    ensures j == k + 1 < |Order(s)| && c == Order(s)[j] && c != [] && !Found(h, s, j, c)
    ensures p == Order(s)[k] && p != [] && Found(h, s, k, p)
    decreases i
  {
    j, c := i, Order(s)[i];
    HomeInFirst(h, s, c[0].key, PlaceOf(h, s.ht0, c[0].key));
    k := i - 1;
    p := Order(s)[k];
    NotEmpty(s, k, p);
    if !Found(h, s, k, p) {
      k, p, j, c := CopyAfterFound(h, s, k);
    }
  }

  /** The node before the first copy is not the node before the second. */
  lemma {:induction false} OtherPredecessor(h: Hash, s: Map, w: World, j: nat, k: nat, p: Chain)
    requires Two(h, s, w) && k < |Cursors(s.ht0.buckets)| <= |Order(s)| && k < j < |Order(s)|
    requires p == CursorIn(Order(s), j) && p != [] && Found(h, s, j, p)
    ensures Order(s)[k] != p
  {
    var c := Order(s)[k];
    if c == p {
      AtPlaceOf(h, s, w, k, c);
      if j < |Cursors(s.ht0.buckets)| {
        AtPlaceOf(h, s, w, j, p);
      }
    }
  }

  /** `prev` does not lead back from the second copy of a key to where `next` came from. */
  lemma {:induction false} CopyNotUndone(h: Hash, s: Map, w: World, i: nat, p: Chain, j: nat, c: Chain)
    requires Two(h, s, w) && j == i + 1 < |Order(s)| && c == Order(s)[j] && c != [] && !Found(h, s, j, c)
    requires p == Order(s)[i] && p != [] && Found(h, s, i, p)
    ensures NextOf(h, s, p) == c && PrevOf(h, s, c) != p
  {
    NextOfLeadingTo(h, s, w, i, p, j);
    var k, q := PrevOfCopy(h, s, w, j, c);
    if q != [] {
      OtherPredecessor(h, s, w, i, k, p);
    }
  }

  /** Where `prev` leads from a second copy: nowhere, or to a node that is not the one before it. */
  lemma {:induction false} PrevOfCopy(h: Hash, s: Map, w: World, j: nat, c: Chain) returns (k: nat, q: Chain)
    requires Two(h, s, w) && c == CursorIn(Order(s), j) && c != [] && !Found(h, s, j, c)
    ensures q == PrevOf(h, s, c) && |Cursors(s.ht0.buckets)| <= |Order(s)|
    ensures q != [] ==> k < |Cursors(s.ht0.buckets)| && k + 1 < j && q == Order(s)[k]
  {
    var home := Home(h, s, j, c);
    HomeIs(h, s, j, c, home);
    PrevIsPrev(h, s, w, j, c);
    k, q := 0, PrevOf(h, s, c);
    if q != [] {
      k := IndexBefore(Order(s), home, q);
    }
  }

  lemma {:induction false} CopiesNotUndone(h: Hash, s: Map, w: World) returns (j: nat)
    requires Two(h, s, w) && !Disjoint(w)
    ensures j < |Order(s)| && !PrevUndoes(h, s, Order(s)[j])
  {
    var key :| key in w.m0 && key in w.m1;
    var i := SecondCopy(h, s, w, key);
    var k, p, n, c := CopyAfterFound(h, s, i);
    CopyNotUndone(h, s, w, k, p, n, c);
    j := k;
  }

  /**
   `prev` undoes `next` across chains, buckets and tables exactly if no key has two copies, and then
   `next` undoes `prev`.
   */
  lemma {:induction false} PrevUndoesNext(h: Hash, s: Map, w: World)
    requires Two(h, s, w)
    ensures (forall i :: 0 <= i < |Order(s)| ==> PrevUndoes(h, s, Order(s)[i])) <==> Disjoint(w)
    ensures Disjoint(w) ==> forall i :: 0 <= i < |Order(s)| ==> NextUndoes(h, s, Order(s)[i])
  {
    if Disjoint(w) {
      forall i | 0 <= i < |Order(s)| ensures PrevUndoes(h, s, Order(s)[i]) && NextUndoes(h, s, Order(s)[i]) {
        BothUndo(h, s, w, i, Order(s)[i]);
      }
    } else {
      var j := CopiesNotUndone(h, s, w);
    }
  }

  lemma {:induction false} BothUndo(h: Hash, s: Map, w: World, i: nat, c: Chain)
    requires Two(h, s, w) && Disjoint(w) && c == CursorIn(Order(s), i)
    ensures PrevUndoes(h, s, c) && NextUndoes(h, s, c)
  {
    if c != [] {
      if NextOf(h, s, c) != [] {
        NextAndBack(h, s, w, i, c, NextOf(h, s, c));
      }
      if PrevOf(h, s, c) != [] {
        BackAndNext(h, s, w, i, c, PrevOf(h, s, c));
      }
    }
  }

  // -------------------------------------------------------------- whole walks

  /** The cursor after `n` steps, or the end. */
  ghost function Steps(f: Chain -> Chain, c: Chain, n: nat): Chain
    decreases n
  {
    if n == 0 || c == [] then c else Steps(f, f(c), n - 1)
  }

  /** Every step leads to the next of the order. */
  lemma {:induction false} StepsReach(f: Chain -> Chain, order: seq<Chain>, i: nat, n: nat)
    requires forall k :: 0 <= k < |order| ==> f(order[k]) == CursorIn(order, k + 1)
    requires i + n >= |order|
    ensures Steps(f, CursorIn(order, i), n) == []
    decreases n
  {
    if i < |order| {
      StepsReach(f, order, i + 1, n - 1);
    }
  }

  /** The step from number `i` does not leave the first `stop + 1`. */
  ghost predicate StaysBelow(f: Chain -> Chain, order: seq<Chain>, stop: nat, i: nat)
    requires i < |order| && stop < |order|
  {
    exists j :: 0 <= j <= stop && f(order[i]) == order[j]
  }

  lemma StepsBelow(f: Chain -> Chain, order: seq<Chain>, stop: nat, i: nat, j: nat)
    requires i < |order| && j <= stop < |order| && f(order[i]) == order[j]
    ensures StaysBelow(f, order, stop, i)
  {
  }

  lemma {:induction false} StepsForever(f: Chain -> Chain, order: seq<Chain>, stop: nat, i: nat, n: nat)
    requires i <= stop < |order| && forall k :: 0 <= k <= stop ==> order[k] != [] && StaysBelow(f, order, stop, k)
    ensures Steps(f, order[i], n) != []
    decreases n
  {
    if n > 0 {
      assert StaysBelow(f, order, stop, i);
      var j :| 0 <= j <= stop && f(order[i]) == order[j];
      StepsForever(f, order, stop, j, n - 1);
    }
  }

  ghost function NextIn(h: Hash, s: Map): Chain -> Chain {
    c => if c == [] then [] else NextOf(h, s, c)
  }

  /** No chain of `ht1` ends with a key that `ht0` has as well. */
  ghost predicate ChainEndsFound(h: Hash, s: Map) {
    forall b :: 0 <= b < |s.ht1.buckets| && s.ht1.buckets[b] != [] ==> !Has(h, s.ht0, EndOf(s.ht1.buckets[b]))
  }

  ghost function EndOf(c: Chain): Key
    requires c != []
  {
    c[|c| - 1].key
  }

  lemma {:induction false} AllLead(h: Hash, s: Map, w: World, i: nat, c: Chain)
    requires Two(h, s, w) && c == CursorIn(Order(s), i) && c != [] && ChainEndsFound(h, s)
    ensures Leads(h, s, i, c)
  {
    var second, b, j := FindPlace(h, s, w, i, c);
    if second && |c| == 1 {
      assert c[0] == s.ht1.buckets[b][j] && j == |s.ht1.buckets[b]| - 1;
      assert c[0].key == EndOf(s.ht1.buckets[b]);
    }
  }

  lemma {:induction false} NotEmpty(s: Map, i: nat, c: Chain)
    requires i < |Order(s)| && c == Order(s)[i]
    ensures c != []
  {
    HeadsAreNodes(s.ht0.buckets);
    HeadsAreNodes(s.ht1.buckets);
    OrderAt(Cursors(s.ht0.buckets), Cursors(s.ht1.buckets), i);
  }

  lemma {:induction false} NextInOrder(h: Hash, s: Map, w: World, order: seq<Chain>, i: nat)
    requires Two(h, s, w) && ChainEndsFound(h, s) && order == Order(s) && i < |order|
    ensures NextIn(h, s)(order[i]) == CursorIn(order, i + 1)
  {
    NotEmpty(s, i, order[i]);
    AllLead(h, s, w, i, order[i]);
    NextOfLeading(h, s, w, i, order[i]);
  }

  lemma {:induction false} NextLed(h: Hash, s: Map, w: World, order: seq<Chain>, i: nat, j: nat)
    requires Two(h, s, w) && order == Order(s) && i < j == i + 1 < |order| && order[i] != []
    requires Leads(h, s, i, order[i])
    ensures NextIn(h, s)(order[i]) == order[j]
  {
    NextOfLeadingTo(h, s, w, i, order[i], j);
  }

  lemma {:induction false} LedBelow(h: Hash, s: Map, w: World, order: seq<Chain>, stop: nat, i: nat, j: nat)
    requires Two(h, s, w) && order == Order(s) && i < j == i + 1 <= stop < |order| && order[i] != []
    requires Leads(h, s, i, order[i])
    ensures StaysBelow(NextIn(h, s), order, stop, i)
  {
    NextLed(h, s, w, order, i, j);
    StepsBelow(NextIn(h, s), order, stop, i, j);
  }

  lemma {:induction false} BackBelow(h: Hash, s: Map, w: World, order: seq<Chain>, stop: nat, i: nat)
    requires Two(h, s, w) && order == Order(s) && i <= stop < |order| && order[i] != [] && !Leads(h, s, i, order[i])
    ensures StaysBelow(NextIn(h, s), order, stop, i)
  {
    var j := GoesBack(h, s, w, i, order[i]);
    StepsBelow(NextIn(h, s), order, stop, i, j);
  }

  /** Up to such a copy, no step leads past it. */
  lemma {:induction false} NextStaysBelow(h: Hash, s: Map, w: World, order: seq<Chain>, stop: nat, i: nat)
    requires Two(h, s, w) && order == Order(s) && i <= stop < |order|
    requires order[stop] != [] && !Leads(h, s, stop, order[stop])
    ensures order[i] != [] && StaysBelow(NextIn(h, s), order, stop, i)
  {
    NotEmpty(s, i, order[i]);
    if i == stop {
      BackBelow(h, s, w, order, stop, stop);
    } else if Leads(h, s, i, order[i]) {
      LedBelow(h, s, w, order, stop, i, i + 1);
    } else {
      BackBelow(h, s, w, order, stop, i);
    }
  }

  /** Where a chain of `ht1` ends in the order. */
  lemma {:induction false} EndPlace(h: Hash, s: Map, b: nat) returns (i: nat)
    requires b < |s.ht1.buckets| && s.ht1.buckets[b] != [] && Has(h, s.ht0, EndOf(s.ht1.buckets[b]))
    ensures i < |Order(s)| && Order(s)[i] != [] && !Leads(h, s, i, Order(s)[i])
  {
    var x, y, chain := Cursors(s.ht0.buckets), Cursors(s.ht1.buckets), s.ht1.buckets[b];
    CursorAt(s.ht1.buckets, b, |chain| - 1);
    Inside(s.ht1.buckets, b, |chain| - 1);
    i := |x| + Offset(s.ht1.buckets, b) + |chain| - 1;
    OrderAt(x, y, i);
    assert Order(s)[i] == chain[|chain| - 1..];
  }

  lemma {:induction false} WalkEnds(h: Hash, s: Map, w: World, first: Chain)
    requires Two(h, s, w) && ChainEndsFound(h, s) && first == CursorIn(Order(s), 0)
    ensures Steps(NextIn(h, s), first, |Order(s)|) == []
  {
    var order := Order(s);
    forall i | 0 <= i < |order| ensures NextIn(h, s)(order[i]) == CursorIn(order, i + 1) {
      NextInOrder(h, s, w, order, i);
    }
    StepsReach(NextIn(h, s), order, 0, |order|);
  }

  lemma {:induction false} WalkGoesOn(h: Hash, s: Map, w: World, first: Chain, n: nat)
    requires Two(h, s, w) && !ChainEndsFound(h, s) && first == CursorIn(Order(s), 0)
    ensures Steps(NextIn(h, s), first, n) != []
  {
    var order := Order(s);
    var b :| 0 <= b < |s.ht1.buckets| && s.ht1.buckets[b] != [] && Has(h, s.ht0, EndOf(s.ht1.buckets[b]));
    var stop := EndPlace(h, s, b);
    forall i | 0 <= i <= stop ensures order[i] != [] && StaysBelow(NextIn(h, s), order, stop, i) {
      NextStaysBelow(h, s, w, order, stop, i);
    }
    StepsForever(NextIn(h, s), order, stop, 0, n);
  }

  /**
   The walk from `first` by `next` comes to an end exactly if `ht0` has no node, or no chain of `ht1`
   ends with a key of `ht0`.
   */
  lemma {:induction false} WalkEndsIff(h: Hash, s: Map, w: World, first: Chain)
    requires Two(h, s, w) && first == FirstFrom(s.ht0.buckets, 0)
    ensures (exists n: nat :: Steps(NextIn(h, s), first, n) == []) <==> w.m0 == map[] || ChainEndsFound(h, s)
  {
    FirstIs(h, s, w, first);
    if w.m0 == map[] {
      assert Steps(NextIn(h, s), first, 0) == [];
    } else if ChainEndsFound(h, s) {
      WalkEnds(h, s, w, first);
    } else {
      forall n: nat ensures Steps(NextIn(h, s), first, n) != [] {
        WalkGoesOn(h, s, w, first, n);
      }
    }
  }

  // ------------------------------------------------------------------ methods

  method ScanUp(table: array<Chain>, a: nat) returns (r: Chain)
    requires a <= table.Length
    ensures r == FirstFrom(table[..], a)
  {
    var b := a;
    while b < table.Length && table[b] == []
      invariant a <= b <= table.Length && NextFull(table[..], a) == NextFull(table[..], b)
    {
      b := b + 1;
    }
    r := if b < table.Length then table[b] else [];
  }

  /** To the last node of a chain. */
  method LastOf(c: Chain) returns (r: Chain)
    requires c != []
    ensures r == c[|c| - 1..]
  {
    r := c;
    while |r| > 1
      invariant 0 < |r| <= |c| && r == c[|c| - |r|..]
    {
      r := r[1..];
    }
  }

  method ScanDown(table: array<Chain>, a: nat) returns (r: Chain)
    requires a <= table.Length
    ensures r == LastBelow(table[..], a)
  {
    var b := a - 1;
    while b >= 0 && table[b] == []
      invariant -1 <= b < a && LastBelow(table[..], a) == LastBelow(table[..], b + 1)
    {
      b := b - 1;
    }
    if b == -1 {
      return [];
    }
    r := LastOf(table[b]);
  }

  method StepForward(g: Guard, c: Chain) returns (r: Chain)
    requires c != []
    ensures r == NextOf(g.hash, g.Value(), c)
  {
    if |c| > 1 {
      return c[1..];
    }
    var key := c[0].key;
    var found, _ := Lookup(g.hash, g.table0, key, g.Value().ht0);
    if found {
      r := ScanUp(g.table0, Index(g.hash, key, g.table0.Length) + 1);
      if r == [] {
        r := ScanUp(g.table1, 0);
      }
      return;
    }
    var found1, _ := Lookup(g.hash, g.table1, key, g.Value().ht1);
    if !found1 {
      return [];
    }
    r := ScanUp(g.table1, Index(g.hash, key, g.table1.Length) + 1);
  }

  method StepBack(g: Guard, c: Chain) returns (r: Chain)
    requires c != []
    ensures r == PrevOf(g.hash, g.Value(), c)
  {
    var key := c[0].key;
    var found, _ := Lookup(g.hash, g.table0, key, g.Value().ht0);
    if found {
      var b := Index(g.hash, key, g.table0.Length);
      var j := Search(g.table0[b], key);
      if j > 0 {
        return g.table0[b][j - 1..];
      }
      r := ScanDown(g.table0, b);
      return;
    }
    var found1, _ := Lookup(g.hash, g.table1, key, g.Value().ht1);
    if !found1 {
      return [];
    }
    var b := Index(g.hash, key, g.table1.Length);
    var j := Search(g.table1[b], key);
    if j > 0 {
      return g.table1[b][j - 1..];
    }
    r := ScanDown(g.table1, b);
    if r == [] {
      r := ScanDown(g.table0, g.table0.Length);
    }
  }

  /** `kylin_map_first` looks into `ht0` only. */
  method First(g: Guard) returns (c: Chain)
    requires g.Valid()
    ensures c == [] <==> g.world.m0 == map[]
    ensures c != [] ==> Order(g.Value()) != [] && c == Order(g.Value())[0]
  {
    c := ScanUp(g.table0, 0);
    FirstIs(g.hash, g.Value(), g.world, c);
  }

  lemma {:induction false} FirstIs(h: Hash, s: Map, w: World, c: Chain)
    requires Two(h, s, w) && c == FirstFrom(s.ht0.buckets, 0)
    ensures c == [] <==> w.m0 == map[]
    ensures c != [] ==> Order(s) != [] && c == Order(s)[0]
  {
    From(s.ht0.buckets, 0, NextFull(s.ht0.buckets, 0));
    Whole(s.ht0.buckets);
    HeadsAreNodes(s.ht0.buckets);
    PairsSize(w.m0);
    assert |multiset(Nodes(s.ht0.buckets))| == |Nodes(s.ht0.buckets)|;
    assert |w.m0| == 0 <==> w.m0 == map[];
  }

  method Next(g: Guard, c: Chain, ghost i: nat) returns (r: Chain)
    requires g.Valid() && c == CursorIn(Order(g.Value()), i) && c != []
    ensures r == CursorIn(Order(g.Value()), NextPlace(g.hash, g.Value(), i, c))
  {
    NextIsNext(g.hash, g.Value(), g.world, i, c);
    r := StepForward(g, c);
  }

  method Prev(g: Guard, c: Chain, ghost i: nat) returns (r: Chain)
    requires g.Valid() && c == CursorIn(Order(g.Value()), i) && c != []
    ensures r == CursorBefore(Order(g.Value()), Home(g.hash, g.Value(), i, c))
  {
    PrevIsPrev(g.hash, g.Value(), g.world, i, c);
    r := StepBack(g, c);
  }

  /** The next cursor of a walk, and the node of the one it leaves. */
  method Advance(g: Guard, c: Chain, ghost order: seq<Chain>, ghost i: nat)
    returns (n: Node, r: Chain, ghost next: nat)
    requires g.Valid() && ChainEndsFound(g.hash, g.Value())
    requires order == Order(g.Value()) && c == CursorIn(order, i) && c != []
    ensures n == c[0] && next == i + 1 && r == CursorIn(order, next)
  {
    AllLead(g.hash, g.Value(), g.world, i, c);
    r := Next(g, c, i);
    n, next := c[0], i + 1;
  }

  /** From a node by `next` to the end. */
  method Collect(g: Guard, first: Chain, ghost order: seq<Chain>, ghost nodes: seq<Node>) returns (seen: seq<Node>)
    requires g.Valid() && ChainEndsFound(g.hash, g.Value()) && order == Order(g.Value()) && first == CursorIn(order, 0)
    requires |nodes| == |order| && forall i :: 0 <= i < |nodes| ==> order[i] != [] && order[i][0] == nodes[i]
    ensures seen == nodes
  {
    var c := first;
    seen := [];
    ghost var i := 0;
    while c != []
      invariant i <= |order| && c == CursorIn(order, i) && seen == nodes[..i]
      decreases |order| - i
    {
      var n, r, next := Advance(g, c, order, i);
      OneMore(nodes, i, seen, n);
      seen, c, i := seen + [n], r, next;
    }
  }

  lemma OneMore(nodes: seq<Node>, i: nat, seen: seq<Node>, n: Node)
    requires i < |nodes| && seen == nodes[..i] && n == nodes[i]
    ensures seen + [n] == nodes[..i + 1]
  {
  }

  /**
   Every pair of the map is seen exactly once, unless a key has two copies, or `ht0` has been emptied
   while `ht1` has nodes: then `first` finds nothing.
   */
  method Walk(g: Guard) returns (seen: seq<Node>)
    requires g.Valid() && (g.world.m0 == map[] || ChainEndsFound(g.hash, g.Value()))
    ensures multiset(seen) == PairBag(View(g.world)) <==>
            Disjoint(g.world) && (g.world.m0 != map[] || g.world.m1 == map[])
    ensures |seen| == if g.world.m0 != map[] then |g.world.m0| + |g.world.m1| else 0
  {
    ghost var nodes := Nodes(g.table0[..]) + Nodes(g.table1[..]);
    OrderIsComplete(g.hash, g.Value(), g.world);
    OnceIff(g.world);
    var first := First(g);
    seen := [];
    if first != [] {
      seen := Collect(g, first, Order(g.Value()), nodes);
    } else {
      NothingSeen(g.world);
    }
  }

  lemma {:induction false} NothingSeen(w: World)
    requires w.m0 == map[]
    ensures PairBag(View(w)) == multiset([]) <==> w.m1 == map[]
  {
    assert View(w) == w.m1;
    PairsSize(w.m1);
    assert |PairBag(w.m1)| == |w.m1|;
    assert |w.m1| == 0 <==> w.m1 == map[];
  }
}
