/**
 What a module session does, on values: the walk over the dependency symbols, the
 counting of arrivals and the order of the load handlers.
 */
module LoaderSpec {

  type Name = string

  const DEPEND_ON: string := "_depend_on_"

  /** The `.so` files by module name, each with the names in its symbol table. */
  datatype Files = Files(symbols: map<Name, seq<string>>)

  /** A symbol `<module>_depend_on_<name>` of a module declares a dependency. */
  predicate DeclaresDependency(module_: Name, symbol: string) {
    |symbol| > |module_ + DEPEND_ON| && module_ + DEPEND_ON <= symbol
  }

  function Dependencies(module_: Name, symbols: seq<string>): seq<Name> {
    if symbols == [] then [] else
      var rest, last := Dependencies(module_, symbols[..|symbols| - 1]), symbols[|symbols| - 1];
      if DeclaresDependency(module_, last) then rest + [last[|module_ + DEPEND_ON|..]] else rest
  }

  function Deps(w: Files, m: Name): seq<Name> {
    if m in w.symbols then Dependencies(m, w.symbols[m]) else []
  }

  type Rank = map<Name, nat>

  /** Every dependency has a file and ranks below its dependent. */
  ghost predicate Ranked(w: Files, rank: Rank) {
    && rank.Keys == w.symbols.Keys
    && forall m, d :: m in w.symbols && d in Deps(w, m) ==> d in w.symbols && rank[d] < rank[m]
  }

  /** The dependencies of `m` are ranked, and lower. */
  ghost predicate Descends(w: Files, rank: Rank, m: Name)
    requires m in rank
  {
    forall d :: d in Deps(w, m) ==> d in rank && rank[d] < rank[m]
  }

  lemma RankedByDescent(w: Files, rank: Rank)
    requires rank.Keys == w.symbols.Keys && forall m :: m in rank ==> Descends(w, rank, m)
    ensures Ranked(w, rank)
  {
    forall m, d | m in w.symbols && d in Deps(w, m) ensures d in w.symbols && rank[d] < rank[m] {
      assert Descends(w, rank, m);
    }
  }

  // ------------------------------------------------------------- the session

  /**
   `order` is the module list, `arrivals[m]` how often the walk has come to `m`,
   and `log` the modules whose load handler has been called, oldest first.
   */
  datatype State = State(order: seq<Name>, arrivals: map<Name, nat>, log: seq<Name>)

  const EMPTY: State := State([], map[], [])

  /** `refcnt` is a `uint32_t`. */
  const WRAP: nat := 0x1_0000_0000

  function Wrapped(n: nat): nat {
    n % WRAP
  }

  function Refcnt(s: State, m: Name): nat {
    if m in s.arrivals then Wrapped(s.arrivals[m]) else 0
  }

  function Arrivals(s: State, m: Name): nat {
    if m in s.arrivals then s.arrivals[m] else 0
  }

  function IndexOf(s: seq<Name>, m: Name): (i: nat)
    requires m in s
    ensures i < |s| && s[i] == m && m !in s[..i]
  {
    if s[0] == m then 0 else 1 + IndexOf(s[1..], m)
  }

  function InsertBefore(s: seq<Name>, at: Name, m: Name): seq<Name>
    requires at in s
  {
    s[..IndexOf(s, at)] + [m] + s[IndexOf(s, at)..]
  }

  /** A dependency that is in the list is counted, any other put just before its dependent. */
  function Arrive(s: State, at: Name, d: Name): State
    requires at in s.order
  {
    if d in s.order then s.(arrivals := s.arrivals[d := Arrivals(s, d) + 1])
    else State(InsertBefore(s.order, at, d), s.arrivals[d := 1], s.log)
  }

  /** The load handler runs when the count is 1 after the walk below the module. */
  function Finish(s: State, m: Name): State {
    if Refcnt(s, m) == 1 then s.(log := s.log + [m]) else s
  }

  lemma ArriveKeeps(s: State, at: Name, d: Name)
    requires at in s.order
    ensures at in Arrive(s, at, d).order && d in Arrive(s, at, d).order
    ensures forall m :: m in s.order ==> m in Arrive(s, at, d).order
  {
    if d !in s.order {
      var i := IndexOf(s.order, at);
      assert s.order == s.order[..i] + s.order[i..];
    }
  }

  /** The walk over the first dependencies `ds` of `m`, in the order of its symbols. */
  ghost function Walk(w: Files, rank: Rank, s: State, m: Name, ds: seq<Name>): (r: State)
    requires Ranked(w, rank) && m in w.symbols && m in s.order && (forall d :: d in ds ==> d in Deps(w, m))
    ensures forall x :: x in s.order ==> x in r.order
    decreases rank[m], |ds|
  {
    if ds == [] then s else
      Visit(w, rank, Walk(w, rank, s, m, ds[..|ds| - 1]), m, ds[|ds| - 1])
  }

  /** `__module_depend_process` for one dependency: it is walked in full every time. */
  ghost function Visit(w: Files, rank: Rank, s: State, m: Name, d: Name): (r: State)
    requires Ranked(w, rank) && m in w.symbols && m in s.order && d in Deps(w, m)
    ensures forall x :: x in s.order ==> x in r.order
    decreases rank[m], 0
  {
    ArriveKeeps(s, m, d);
    Finish(Walk(w, rank, Arrive(s, m, d), d, Deps(w, d)), d)
  }

  datatype Outcome = Done | Exists | Invalid

  /** `kylin_module_load`: a file that is missing leaves the module in the list, unloaded. */
  ghost function Load(w: Files, rank: Rank, s: State, m: Name): (State, Outcome)
    requires Ranked(w, rank)
  {
    if m in s.order then (s, Exists) else
      var s1 := State(s.order + [m], s.arrivals[m := 1], s.log);
      if m !in w.symbols then (s1, Invalid)
      else (Finish(Walk(w, rank, s1, m, Deps(w, m)), m), Done)
  }

  /** The session after a sequence of load calls. */
  ghost function Run(w: Files, rank: Rank, calls: seq<Name>): State
    requires Ranked(w, rank)
  {
    if calls == [] then EMPTY else Load(w, rank, Run(w, rank, calls[..|calls| - 1]), calls[|calls| - 1]).0
  }

  // --------------------------------------------------------- dependency paths

  /** The number of dependency paths, with multiplicity. */
  ghost function Paths(w: Files, rank: Rank, x: Name, y: Name): nat
    requires Ranked(w, rank) && x in w.symbols
    decreases rank[x], 1, 0
  {
    (if x == y then 1 else 0) + PathsVia(w, rank, x, Deps(w, x), y)
  }

  ghost function PathsVia(w: Files, rank: Rank, x: Name, ds: seq<Name>, y: Name): nat
    requires Ranked(w, rank) && x in w.symbols && (forall d :: d in ds ==> d in Deps(w, x))
    decreases rank[x], 0, |ds|
  {
    if ds == [] then 0 else PathsVia(w, rank, x, ds[..|ds| - 1], y) + Paths(w, rank, ds[|ds| - 1], y)
  }

  /** Nothing depends on what ranks as high, so a module is not its own dependency. */
  lemma {:induction false} NoPathUp(w: Files, rank: Rank, x: Name, ds: seq<Name>, y: Name)
    requires Ranked(w, rank) && x in w.symbols && (forall d :: d in ds ==> d in Deps(w, x))
    requires y in w.symbols && rank[x] <= rank[y]
    ensures PathsVia(w, rank, x, ds, y) == 0
    decreases rank[x], |ds|
  {
    if ds != [] {
      var d := ds[|ds| - 1];
      NoPathUp(w, rank, x, ds[..|ds| - 1], y);
      NoPathUp(w, rank, d, Deps(w, d), y);
    }
  }
}
