/**
 The hash map of `kylin_map` on values: two tables of chains and the index of the
 bucket that is migrated next.
 */
module MapSpec {
  import opened Powers

  /** A key that the comparator of the map tells apart; nothing else about it matters. */
  datatype Key = Key(id: int)

  /** A node without its `next` link; `val` is opaque. */
  datatype Node = Node(key: Key, val: int)

  type Chain = seq<Node>

  type Hash = Key -> nat

  /** A `kmap_ht_t`: no buckets stand for a null table, and `cap` is their number. */
  datatype Table = Table(buckets: seq<Chain>, used: nat)

  const NO_TABLE: Table := Table([], 0)

  /** `rehashidx` is -1 unless nodes are being moved from `ht0` to `ht1`. */
  datatype Map = Map(ht0: Table, ht1: Table, rehashidx: int)

  const EMPTY: Map := Map(NO_TABLE, NO_TABLE, -1)

  predicate Rehashing(s: Map) {
    s.rehashidx != -1
  }

  // ---------------------------------------------------------- words and powers

  /** Bitwise `&`. */
  function And(a: nat, b: nat): (r: nat)
    ensures r <= b
    decreases a
  {
    if a == 0 || b == 0 then 0 else (if a % 2 == 1 && b % 2 == 1 then 1 else 0) + 2 * And(a / 2, b / 2)
  }

  /** `kylin_fls`: the index of the highest set bit. */
  function Fls(w: nat): nat
    requires w > 0
  {
    if w == 1 then 0 else 1 + Fls(w / 2)
  }

  /** `kylin_roundup_pow_of_two`, whose name promises more than it does. */
  function Roundup(n: nat): nat
    requires n >= 2
  {
    Pow2(Fls(n - 1))
  }

  lemma {:induction false} FlsBounds(w: nat)
    requires w > 0
    ensures Pow2(Fls(w)) <= w < 2 * Pow2(Fls(w))
  {
    if w > 1 {
      FlsBounds(w / 2);
    }
  }

  /** The result is the largest power of two below `n`, so half of what rounding up would give. */
  lemma {:induction false} RoundupBounds(n: nat)
    requires n >= 2
    ensures Roundup(n) < n <= 2 * Roundup(n)
  {
    FlsBounds(n - 1);
  }

  // ------------------------------------------------------------------- tables

  /** `hash & mask`. */
  function Index(h: Hash, key: Key, cap: nat): (b: nat)
    requires cap > 0
    ensures b < cap
  {
    And(h(key), cap - 1)
  }

  function Push(h: Hash, t: Table, n: Node): Table
    requires t.buckets != []
  {
    var b := Index(h, n.key, |t.buckets|);
    Table(t.buckets[b := [n] + t.buckets[b]], t.used + 1)
  }

  /** The position of a key in a chain, or its length. */
  function Position(c: Chain, key: Key): (i: nat)
    ensures i <= |c| && (i < |c| ==> c[i].key == key) && forall j :: 0 <= j < i ==> c[j].key != key
  {
    if c == [] || c[0].key == key then 0 else 1 + Position(c[1..], key)
  }

  function Bucket(h: Hash, t: Table, key: Key): Chain {
    if t.buckets == [] then [] else t.buckets[Index(h, key, |t.buckets|)]
  }

  predicate Has(h: Hash, t: Table, key: Key) {
    Position(Bucket(h, t, key), key) < |Bucket(h, t, key)|
  }

  function Get(h: Hash, t: Table, key: Key): Node
    requires Has(h, t, key)
  {
    Bucket(h, t, key)[Position(Bucket(h, t, key), key)]
  }

  function WithBucket(h: Hash, t: Table, key: Key, c: Chain, used: nat): Table
    requires t.buckets != []
  {
    Table(t.buckets[Index(h, key, |t.buckets|) := c], used)
  }

  const SIZES: nat := 0x1_0000_0000_0000_0000

  /** `used--` in a `size_t`. */
  function Less(used: nat): nat {
    if used == 0 then SIZES - 1 else used - 1
  }

  /** The same for each of `n` nodes. */
  function LessAll(used: nat, n: nat): nat
    decreases n
  {
    if n == 0 then used else LessAll(Less(used), n - 1)
  }

  /** The table without the node that `Get` finds. */
  function Cut(h: Hash, t: Table, key: Key): Table
    requires Has(h, t, key)
  {
    var c, i := Bucket(h, t, key), Position(Bucket(h, t, key), key);
    WithBucket(h, t, key, c[..i] + c[i + 1..], Less(t.used))
  }

  function Put(h: Hash, t: Table, key: Key, val: int): Table
    requires Has(h, t, key)
  {
    var c, i := Bucket(h, t, key), Position(Bucket(h, t, key), key);
    WithBucket(h, t, key, c[i := Node(key, val)], t.used)
  }

  /**
   The nodes of a chain, first to last, each to the front of its bucket. A node whose key is
   there already is dropped.
   */
  function PushAll(h: Hash, t: Table, c: Chain): (r: Table)
    requires t.buckets != []
    ensures |r.buckets| == |t.buckets| && t.used <= r.used <= t.used + |c|
    decreases c
  {
    if c == [] then t else PushAll(h, if Has(h, t, c[0].key) then t else Push(h, t, c[0]), c[1..])
  }

  // --------------------------------------------------------------- operations

  /** The first bucket from `i` on that is not empty, or the number of buckets. */
  function NextFull(buckets: seq<Chain>, i: nat): (b: nat)
    requires i <= |buckets|
    ensures i <= b <= |buckets| && (b < |buckets| ==> buckets[b] != []) && forall j :: i <= j < b ==> buckets[j] == []
    decreases |buckets| - i
  {
    if i == |buckets| || buckets[i] != [] then i else NextFull(buckets, i + 1)
  }

  /** How an operation ends: the migration may look for its next bucket beyond the end of `ht0`. */
  datatype Outcome = Went(s: Map) | Escaped

  predicate MayRehash(s: Map) {
    0 <= s.rehashidx <= |s.ht0.buckets| && s.ht1.buckets != []
  }

  /** There is a bucket for the scan to stop at; it has no bound of its own. */
  predicate CanMove(s: Map) {
    MayRehash(s) && NextFull(s.ht0.buckets, s.rehashidx) < |s.ht0.buckets|
  }

  /** The next bucket that has nodes moves over. */
  function MoveBucket(h: Hash, s: Map): Map
    requires CanMove(s)
  {
    var b := NextFull(s.ht0.buckets, s.rehashidx);
    var t := PushAll(h, s.ht1, s.ht0.buckets[b]);
    Map(Table(s.ht0.buckets[b := []], LessAll(s.ht0.used, t.used - s.ht1.used)), t, b + 1)
  }

  /** One round of the loop of `_map_rehash`. */
  function Round(h: Hash, s: Map): Outcome {
    if s.ht0.used == 0 then Went(s) else if CanMove(s) then Went(MoveBucket(h, s)) else Escaped
  }

  /** `step` rounds of the loop, or fewer if `ht0` is empty before. */
  function Moves(h: Hash, s: Map, step: nat): Outcome {
    if step == 0 then Went(s)
    else
      match Moves(h, s, step - 1)
      case Went(r) => Round(h, r)
      case Escaped => Escaped
  }

  /** When nothing is left in `ht0`, `ht1` takes its place. */
  function Settle(s: Map): Map {
    if s.ht0.used == 0 then Map(s.ht1, NO_TABLE, -1) else s
  }

  /** `_map_rehash`. */
  function Rehash(h: Hash, s: Map, step: nat): Outcome {
    if !Rehashing(s) then Went(s)
    else
      match Moves(h, s, step)
      case Went(r) => Went(Settle(r))
      case Escaped => Escaped
  }

  datatype Status = Ok | Busy | Exist

  /** `kylin_map_resize`. */
  function Resize(s: Map, count: nat): (Map, Status)
    requires count >= 2
  {
    var cap := Roundup(count);
    if Rehashing(s) then (s, Busy)
    else if cap == |s.ht0.buckets| then (s, Exist)
    else
      var t := Table(seq(cap, i => []), 0);
      if s.ht0.buckets == [] then (s.(ht0 := t), Ok) else (Map(s.ht0, t, 0), Ok)
  }

  const FORCE_RESIZE_RATIO: nat := 5

  predicate NeedsExpansion(s: Map) {
    |s.ht0.buckets| == 0 || s.ht0.used / |s.ht0.buckets| > FORCE_RESIZE_RATIO
  }

  /** The expansion at the start of an insertion. */
  function Expand(s: Map): (Map, Status) {
    if !NeedsExpansion(s) then (s, Ok)
    else Resize(s, if |s.ht0.buckets| == 0 then 4 else s.ht0.used * 2)
  }

  /** The migration step with which `insert`, `unlink` and `replace` begin. */
  function Step(h: Hash, s: Map): Outcome {
    Rehash(h, s, 1)
  }

  /** How an insertion gets to where it chooses its table. */
  function Prepared(h: Hash, s: Map): Outcome {
    Step(h, Expand(s).0)
  }

  function Target(s: Map): Table {
    if Rehashing(s) then s.ht1 else s.ht0
  }

  /** A duplicate is looked for in the target table only. */
  function Added(h: Hash, r: Map, n: Node): Map {
    if Target(r).buckets == [] || Has(h, Target(r), n.key) then r
    else if Rehashing(r) then r.(ht1 := Push(h, r.ht1, n)) else r.(ht0 := Push(h, r.ht0, n))
  }

  function Removed(h: Hash, r: Map, key: Key): Map {
    if Has(h, r.ht0, key) then r.(ht0 := Cut(h, r.ht0, key))
    else if Rehashing(r) && Has(h, r.ht1, key) then r.(ht1 := Cut(h, r.ht1, key))
    else r
  }

  function Changed(h: Hash, r: Map, key: Key, val: int): Map {
    if Has(h, r.ht0, key) then r.(ht0 := Put(h, r.ht0, key, val))
    else if Has(h, r.ht1, key) then r.(ht1 := Put(h, r.ht1, key, val))
    else r
  }

  /** `kylin_map_insert_raw`. */
  function Insert(h: Hash, s: Map, n: Node): Outcome {
    match Prepared(h, s)
    case Went(p) => Went(Added(h, p, n))
    case Escaped => Escaped
  }

  /** `kylin_map_unlink`. */
  function Unlink(h: Hash, s: Map, key: Key): Outcome {
    match Step(h, s)
    case Went(p) => Went(Removed(h, p, key))
    case Escaped => Escaped
  }

  /** `kylin_map_replace`. */
  function Replace(h: Hash, s: Map, key: Key, val: int): Outcome {
    match Step(h, s)
    case Went(p) => Went(Changed(h, p, key, val))
    case Escaped => Escaped
  }
}
