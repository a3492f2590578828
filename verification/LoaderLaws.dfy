/** What holds of every sequence of load calls. */
module LoaderLaws {
  import opened LoaderSpec

  // ------------------------------------------------------------- the counting

  /** Exactly the modules in the list have been counted. */
  ghost predicate Counted(s: State) {
    forall m :: m in s.arrivals <==> m in s.order
  }

  lemma {:induction false} ArriveCounts(s: State, at: Name, d: Name, y: Name)
    requires Counted(s) && at in s.order
    ensures Counted(Arrive(s, at, d))
    ensures Arrivals(Arrive(s, at, d), y) == Arrivals(s, y) + (if y == d then 1 else 0)
  {
    if d !in s.order {
      var i := IndexOf(s.order, at);
      assert s.order == s.order[..i] + s.order[i..];
    }
  }

  lemma {:induction false} WalkCounts(w: Files, rank: Rank, s: State, m: Name, ds: seq<Name>, y: Name)
    requires Ranked(w, rank) && m in w.symbols && m in s.order && (forall d :: d in ds ==> d in Deps(w, m))
    requires Counted(s)
    ensures Counted(Walk(w, rank, s, m, ds))
    ensures Arrivals(Walk(w, rank, s, m, ds), y) == Arrivals(s, y) + PathsVia(w, rank, m, ds, y)
    decreases rank[m], |ds|
  {
    if ds != [] {
      WalkCounts(w, rank, s, m, ds[..|ds| - 1], y);
      VisitCounts(w, rank, Walk(w, rank, s, m, ds[..|ds| - 1]), m, ds[|ds| - 1], y);
    }
  }

  lemma {:induction false} VisitCounts(w: Files, rank: Rank, s: State, m: Name, d: Name, y: Name)
    requires Ranked(w, rank) && m in w.symbols && m in s.order && d in Deps(w, m)
    requires Counted(s)
    ensures Counted(Visit(w, rank, s, m, d))
    ensures Arrivals(Visit(w, rank, s, m, d), y) == Arrivals(s, y) + Paths(w, rank, d, y)
    decreases rank[m], 0
  {
    ArriveKeeps(s, m, d);
    ArriveCounts(s, m, d, y);
    WalkCounts(w, rank, Arrive(s, m, d), d, Deps(w, d), y);
  }

  function Times(log: seq<Name>, m: Name): nat {
    if log == [] then 0 else Times(log[..|log| - 1], m) + (if log[|log| - 1] == m then 1 else 0)
  }

  lemma TimesAppend(log: seq<Name>, x: Name, m: Name)
    ensures Times(log + [x], m) == Times(log, m) + (if x == m then 1 else 0)
  {
    assert (log + [x])[..|log|] == log;
  }

  /** The number of counts up to `n` at which a 32-bit counter reads 1. */
  function Rounds(n: nat): nat {
    if n == 0 then 0 else Rounds(n - 1) + (if n % WRAP == 1 then 1 else 0)
  }

  lemma {:induction false} RoundsClosed(n: nat)
    ensures Rounds(n) == (n + WRAP - 1) / WRAP
  {
    if n > 0 {
      RoundsClosed(n - 1);
    }
  }

  /** The handler runs once for the first arrival and once more per wrap of the counter. */
  lemma {:induction false} WalkLoads(w: Files, rank: Rank, s: State, m: Name, ds: seq<Name>, y: Name)
    requires Ranked(w, rank) && m in w.symbols && m in s.order && (forall d :: d in ds ==> d in Deps(w, m))
    requires Counted(s)
    ensures var r := Walk(w, rank, s, m, ds);
            Times(r.log, y) + Rounds(Arrivals(s, y)) == Times(s.log, y) + Rounds(Arrivals(r, y))
    decreases rank[m], |ds|
  {
    if ds != [] {
      var s1 := Walk(w, rank, s, m, ds[..|ds| - 1]);
      WalkLoads(w, rank, s, m, ds[..|ds| - 1], y);
      WalkCounts(w, rank, s, m, ds[..|ds| - 1], y);
      VisitLoads(w, rank, s1, m, ds[|ds| - 1], y);
    }
  }

  lemma {:induction false} VisitLoads(w: Files, rank: Rank, s: State, m: Name, d: Name, y: Name)
    requires Ranked(w, rank) && m in w.symbols && m in s.order && d in Deps(w, m)
    requires Counted(s)
    ensures var r := Visit(w, rank, s, m, d);
            Times(r.log, y) + Rounds(Arrivals(s, y)) == Times(s.log, y) + Rounds(Arrivals(r, y))
    decreases rank[m], 0
  {
    Below(w, rank, m, d);
    var s1 := Counting(s, m, d, y);
    WalkLoads(w, rank, s1, d, Deps(w, d), y);
    WalkCounts(w, rank, s1, d, Deps(w, d), d);
    NoPathUp(w, rank, d, Deps(w, d), d);
    FinishRounds(s, s1, Walk(w, rank, s1, d, Deps(w, d)), d, y);
  }

  lemma Below(w: Files, rank: Rank, m: Name, d: Name)
    requires Ranked(w, rank) && m in w.symbols && d in Deps(w, m)
    ensures d in w.symbols && rank[d] < rank[m]
  {
  }

  lemma Counting(s: State, m: Name, d: Name, y: Name) returns (s1: State)
    requires Counted(s) && m in s.order
    ensures s1 == Arrive(s, m, d) && Counted(s1) && d in s1.order && s1.log == s.log
    ensures Arrivals(s1, d) == Arrivals(s, d) + 1 && (y != d ==> Arrivals(s1, y) == Arrivals(s, y))
  {
    s1 := Arrive(s, m, d);
    ArriveKeeps(s, m, d);
    ArriveCounts(s, m, d, y);
    ArriveCounts(s, m, d, d);
  }

  /** Loads and counts from an arrival to the finish that belongs to it. */
  lemma {:induction false} FinishRounds(s: State, s1: State, s2: State, d: Name, y: Name)
    requires Counted(s2) && d in s2.order && s1.log == s.log
    requires Arrivals(s1, d) == Arrivals(s, d) + 1 == Arrivals(s2, d) && (y != d ==> Arrivals(s1, y) == Arrivals(s, y))
    requires Times(s2.log, y) + Rounds(Arrivals(s1, y)) == Times(s1.log, y) + Rounds(Arrivals(s2, y))
    ensures var r := Finish(s2, d);
            Times(r.log, y) + Rounds(Arrivals(s, y)) == Times(s.log, y) + Rounds(Arrivals(r, y))
  {
    FinishLoads(s2, d, y, Arrivals(s, d));
  }

  lemma {:induction false} FinishLoads(s: State, d: Name, y: Name, before: nat)
    requires Counted(s) && d in s.order && Arrivals(s, d) == before + 1
    ensures Times(Finish(s, d).log, y) == Times(s.log, y) + (if y == d then Rounds(before + 1) - Rounds(before) else 0)
  {
    TimesAppend(s.log, d, y);
  }

  // ---------------------------------------------------------------- the order

  /** The load order: every module of the log at its first place. */
  function FirstLoads(log: seq<Name>): seq<Name> {
    if log == [] then [] else
      var rest, last := log[..|log| - 1], log[|log| - 1];
      if last in rest then FirstLoads(rest) else FirstLoads(rest) + [last]
  }

  lemma {:induction false} FirstLoadsMembers(log: seq<Name>)
    ensures forall m :: m in FirstLoads(log) <==> m in log
  {
    if log != [] {
      FirstLoadsMembers(log[..|log| - 1]);
      assert log == log[..|log| - 1] + [log[|log| - 1]];
    }
  }

  lemma FirstLoadsAppend(log: seq<Name>, m: Name)
    ensures FirstLoads(log + [m]) == if m in FirstLoads(log) then FirstLoads(log) else FirstLoads(log) + [m]
  {
    assert (log + [m])[..|log|] == log;
    FirstLoadsMembers(log);
  }

  /** The modules of the list that have a file. */
  function Existing(w: Files, order: seq<Name>): seq<Name> {
    if order == [] then [] else
      var rest, last := Existing(w, order[..|order| - 1]), order[|order| - 1];
      if last in w.symbols then rest + [last] else rest
  }

  lemma {:induction false} ExistingConcat(w: Files, a: seq<Name>, b: seq<Name>)
    ensures Existing(w, a + b) == Existing(w, a) + Existing(w, b)
  {
    if b == [] {
      assert a + b == a;
    } else {
      assert (a + b)[..|a + b| - 1] == a + b[..|b| - 1];
      ExistingConcat(w, a, b[..|b| - 1]);
    }
  }

  lemma {:induction false} ExistingMembers(w: Files, order: seq<Name>)
    ensures forall m :: m in Existing(w, order) <==> m in order && m in w.symbols
  {
    if order != [] {
      ExistingMembers(w, order[..|order| - 1]);
      assert order == order[..|order| - 1] + [order[|order| - 1]];
    }
  }

  ghost predicate NoDuplicates(s: seq<Name>) {
    forall i, j :: 0 <= i < j < |s| ==> s[i] != s[j]
  }

  /** Every module comes after all its dependencies. */
  ghost predicate Topological(w: Files, s: seq<Name>) {
    forall i, d :: 0 <= i < |s| && d in Deps(w, s[i]) ==> d in s[..i]
  }

  /**
   Between two steps of a walk, the list is the load order so far followed by the
   `pending` modules, from the one being walked up to the one the caller asked for.
   */
  ghost predicate Walking(w: Files, rank: Rank, s: State, pending: seq<Name>) {
    && Counted(s)
    && Existing(w, s.order) == FirstLoads(s.log) + pending
    && NoDuplicates(FirstLoads(s.log) + pending)
    && Topological(w, FirstLoads(s.log))
    && (forall m :: m in pending ==> m in w.symbols)
    && Ascending(rank, pending)
  }

  ghost predicate Ascending(rank: Rank, p: seq<Name>) {
    p == [] || (p[0] in rank && Ascending(rank, p[1..]) && (|p| > 1 ==> rank[p[0]] < rank[p[1]]))
  }

  lemma AscendingCons(rank: Rank, d: Name, p: seq<Name>)
    ensures Ascending(rank, [d] + p) <==> d in rank && Ascending(rank, p) && (p != [] ==> rank[d] < rank[p[0]])
  {
    assert ([d] + p)[1..] == p;
  }

  lemma {:induction false} AscendingAbove(rank: Rank, p: seq<Name>)
    requires Ascending(rank, p)
    ensures forall x :: x in p ==> x in rank && rank[p[0]] <= rank[x]
  {
    if p != [] {
      AscendingAbove(rank, p[1..]);
      assert p == [p[0]] + p[1..];
    }
  }

  lemma PrefixMembers(a: seq<Name>, b: seq<Name>)
    requires a <= b
    ensures forall x :: x in a ==> x in b
  {
    assert b == a + b[|a|..];
  }

  lemma LastOrBefore(s: seq<Name>)
    requires s != []
    ensures forall x :: x in s ==> x in s[..|s| - 1] || x == s[|s| - 1]
  {
    assert s == s[..|s| - 1] + [s[|s| - 1]];
  }

  lemma NoDuplicatesInsert(f: seq<Name>, d: Name, p: seq<Name>)
    ensures NoDuplicates(f + ([d] + p)) <==> NoDuplicates(f + p) && d !in f + p
  {
    var s, t := f + ([d] + p), f + p;
    assert forall i {:trigger t[i]} :: 0 <= i < |t| ==> t[i] == s[if i < |f| then i else i + 1];
    assert forall i {:trigger s[i]} :: 0 <= i < |s| && i != |f| ==> s[i] == t[if i < |f| then i else i - 1];
    assert s[|f|] == d;
    forall i | 0 <= i < |t| ensures NoDuplicates(s) ==> t[i] != d {
      assert t[i] == s[if i < |f| then i else i + 1];
    }
  }

  lemma TopologicalAppend(w: Files, f: seq<Name>, d: Name)
    requires Topological(w, f) && forall x :: x in Deps(w, d) ==> x in f
    ensures Topological(w, f + [d])
  {
    var s := f + [d];
    forall i, x | 0 <= i < |s| && x in Deps(w, s[i]) ensures x in s[..i] {
      if i < |f| {
        assert s[..i] == f[..i] && s[i] == f[i];
      } else {
        assert s[..i] == f;
      }
    }
  }

  lemma TopologicalClosed(w: Files, f: seq<Name>)
    requires Topological(w, f)
    ensures forall m, d :: m in f && d in Deps(w, m) ==> d in f
  {
    forall m, d | m in f && d in Deps(w, m) ensures d in f {
      var i :| 0 <= i < |f| && f[i] == m;
      PrefixMembers(f[..i], f);
    }
  }

  /** Cutting a sequence without duplicates at the same element on both sides. */
  lemma CutAt(a: seq<Name>, b: seq<Name>, f: seq<Name>, p: seq<Name>)
    requires a + b == f + p && b != [] && p != [] && b[0] == p[0] && NoDuplicates(f + p)
    ensures a == f && b == p
  {
    var s := f + p;
    assert s[|f|] == p[0] && s[|a|] == b[0];
    assert |a| == |f|;
    assert a == s[..|a|] && b == s[|a|..];
  }

  /** An existing module between others. */
  lemma {:induction false} ExistingBetween(w: Files, a: seq<Name>, d: Name, b: seq<Name>)
    requires d in w.symbols
    ensures Existing(w, a + [d] + b) == Existing(w, a) + [d] + Existing(w, b)
  {
    ExistingConcat(w, a + [d], b);
    ExistingConcat(w, a, [d]);
    assert Existing(w, [d]) == [d];
  }

  lemma {:induction false} ExistingSplit(w: Files, order: seq<Name>, f: seq<Name>, p: seq<Name>, i: nat)
    requires Existing(w, order) == f + p && p != [] && NoDuplicates(f + p)
    requires i < |order| && order[i] == p[0] && p[0] in w.symbols
    ensures Existing(w, order[..i]) == f && Existing(w, order[i..]) == p
  {
    var a, b := order[..i], order[i..];
    assert order == a + b;
    ExistingConcat(w, a, b);
    ExistingBetween(w, [], p[0], b[1..]);
    assert b == [] + [p[0]] + b[1..];
    CutAt(Existing(w, a), Existing(w, b), f, p);
  }

  lemma {:induction false} ExistingInsert(w: Files, order: seq<Name>, f: seq<Name>, p: seq<Name>, d: Name)
    requires Existing(w, order) == f + p && p != [] && NoDuplicates(f + p)
    requires p[0] in order && p[0] in w.symbols && d in w.symbols
    ensures Existing(w, InsertBefore(order, p[0], d)) == f + ([d] + p)
  {
    var i := IndexOf(order, p[0]);
    ExistingSplit(w, order, f, p, i);
    ExistingBetween(w, order[..i], d, order[i..]);
  }

  /** `m` is the innermost pending module, or it was loaded before and ranks below them. */
  ghost predicate Walked(rank: Rank, s: State, m: Name, pending: seq<Name>)
    requires m in rank && Ascending(rank, pending)
  {
    || (pending != [] && pending[0] == m)
    || (m in FirstLoads(s.log) && (pending != [] ==> rank[m] < rank[pending[0]]))
  }

  lemma {:induction false} WalkOrder(w: Files, rank: Rank, s: State, m: Name, ds: seq<Name>, pending: seq<Name>)
    requires Ranked(w, rank) && m in w.symbols && m in s.order && (forall d :: d in ds ==> d in Deps(w, m))
    requires Walking(w, rank, s, pending) && Walked(rank, s, m, pending)
    ensures var r := Walk(w, rank, s, m, ds);
            && Walking(w, rank, r, pending) && FirstLoads(s.log) <= FirstLoads(r.log)
            && forall d :: d in ds ==> d in FirstLoads(r.log)
    decreases rank[m], |ds|
  {
    if ds != [] {
      var d := ds[|ds| - 1];
      var s1 := Walk(w, rank, s, m, ds[..|ds| - 1]);
      WalkOrder(w, rank, s, m, ds[..|ds| - 1], pending);
      PrefixMembers(FirstLoads(s.log), FirstLoads(s1.log));
      VisitOrder(w, rank, s1, m, d, pending);
      PrefixMembers(FirstLoads(s1.log), FirstLoads(Visit(w, rank, s1, m, d).log));
      LastOrBefore(ds);
    }
  }

  lemma {:induction false} VisitOrder(w: Files, rank: Rank, s: State, m: Name, d: Name, pending: seq<Name>)
    requires Ranked(w, rank) && m in w.symbols && m in s.order && d in Deps(w, m)
    requires Walking(w, rank, s, pending) && Walked(rank, s, m, pending)
    ensures var r := Visit(w, rank, s, m, d);
            Walking(w, rank, r, pending) && FirstLoads(s.log) <= FirstLoads(r.log) && d in FirstLoads(r.log)
    decreases rank[m], 0
  {
    ExistingMembers(w, s.order);
    if d in s.order {
      VisitKnown(w, rank, s, m, d, pending);
    } else {
      VisitNew(w, rank, s, m, d, pending);
    }
  }

  lemma {:induction false} VisitKnown(w: Files, rank: Rank, s: State, m: Name, d: Name, pending: seq<Name>)
    requires Ranked(w, rank) && m in w.symbols && m in s.order && d in Deps(w, m) && d in s.order
    requires Walking(w, rank, s, pending) && Walked(rank, s, m, pending)
    ensures var r := Visit(w, rank, s, m, d);
            Walking(w, rank, r, pending) && FirstLoads(s.log) <= FirstLoads(r.log) && d in FirstLoads(r.log)
    decreases rank[m], 0, 0
  {
    ExistingMembers(w, s.order);
    AscendingAbove(rank, pending);
    assert d in FirstLoads(s.log) + pending;
    var s1 := Arrive(s, m, d);
    ArriveCounts(s, m, d, d);
    WalkOrder(w, rank, s1, d, Deps(w, d), pending);
    var s2 := Walk(w, rank, s1, d, Deps(w, d));
    FirstLoadsAppend(s2.log, d);
  }

  lemma {:induction false} VisitNew(w: Files, rank: Rank, s: State, m: Name, d: Name, pending: seq<Name>)
    requires Ranked(w, rank) && m in w.symbols && m in s.order && d in Deps(w, m) && d !in s.order
    requires Walking(w, rank, s, pending) && Walked(rank, s, m, pending)
    ensures var r := Visit(w, rank, s, m, d);
            Walking(w, rank, r, pending) && FirstLoads(s.log) <= FirstLoads(r.log) && d in FirstLoads(r.log)
    decreases rank[m], 0, 0
  {
    Below(w, rank, m, d);
    ArriveNew(w, rank, s, m, d, pending);
    var s1 := Counting(s, m, d, d);
    WalkOrder(w, rank, s1, d, Deps(w, d), [d] + pending);
    WalkCounts(w, rank, s1, d, Deps(w, d), d);
    NoPathUp(w, rank, d, Deps(w, d), d);
    LoadPending(w, rank, Walk(w, rank, s1, d, Deps(w, d)), d, pending);
  }

  lemma {:induction false} ArriveNew(w: Files, rank: Rank, s: State, m: Name, d: Name, pending: seq<Name>)
    requires Ranked(w, rank) && m in w.symbols && m in s.order && d in Deps(w, m) && d !in s.order
    requires Walking(w, rank, s, pending) && Walked(rank, s, m, pending)
    ensures Walking(w, rank, Arrive(s, m, d), [d] + pending)
  {
    var f := FirstLoads(s.log);
    ExistingMembers(w, s.order);
    assert d !in f + pending;
    TopologicalClosed(w, f);
    assert pending != [] && pending[0] == m;
    ExistingInsert(w, s.order, f, pending, d);
    ArriveCounts(s, m, d, d);
    NoDuplicatesInsert(f, d, pending);
    AscendingCons(rank, d, pending);
  }

  /** The innermost pending module is loaded once its dependencies are. */
  lemma {:induction false} LoadPending(w: Files, rank: Rank, s: State, d: Name, pending: seq<Name>)
    requires Ranked(w, rank) && Walking(w, rank, s, [d] + pending) && Arrivals(s, d) == 1
    requires forall x :: x in Deps(w, d) ==> x in FirstLoads(s.log)
    ensures Walking(w, rank, Finish(s, d), pending)
    ensures FirstLoads(Finish(s, d).log) == FirstLoads(s.log) + [d]
  {
    var f := FirstLoads(s.log);
    assert FirstLoads(s.log + [d]) == f + [d] by {
      NoDuplicatesInsert(f, d, pending);
      FirstLoadsAppend(s.log, d);
    }
    assert Topological(w, f + [d]) by { TopologicalAppend(w, f, d); }
    assert Ascending(rank, pending) by { AscendingCons(rank, d, pending); }
    assert (f + [d]) + pending == f + ([d] + pending);
    assert forall x :: x in pending ==> x in [d] + pending;
  }

  // ------------------------------------------------------------ whole sessions

  /** The calls that started a walk: the module was new and its file was there. */
  ghost function Roots(w: Files, rank: Rank, calls: seq<Name>): (r: seq<Name>)
    requires Ranked(w, rank)
    ensures forall m :: m in r ==> m in w.symbols
  {
    if calls == [] then [] else
      var before, c := calls[..|calls| - 1], calls[|calls| - 1];
      if c in Run(w, rank, before).order || c !in w.symbols then Roots(w, rank, before)
      else Roots(w, rank, before) + [c]
  }

  ghost function PathsFrom(w: Files, rank: Rank, roots: seq<Name>, y: Name): nat
    requires Ranked(w, rank) && forall m :: m in roots ==> m in w.symbols
  {
    if roots == [] then 0 else PathsFrom(w, rank, roots[..|roots| - 1], y) + Paths(w, rank, roots[|roots| - 1], y)
  }

  /** A module that was just put at the end of the list is the only pending one. */
  lemma {:induction false} StartsWalking(w: Files, rank: Rank, s: State, m: Name, s1: State)
    requires Ranked(w, rank) && Walking(w, rank, s, []) && m !in s.order && m in w.symbols
    requires s1 == State(s.order + [m], s.arrivals[m := 1], s.log)
    ensures Walking(w, rank, s1, [m])
  {
    var f := FirstLoads(s.log);
    assert f + [] == f && f + ([m] + []) == f + [m] && [m] + [] == [m];
    ExistingConcat(w, s.order, [m]);
    assert Existing(w, [m]) == [m];
    ExistingMembers(w, s.order);
    NoDuplicatesInsert(f, m, []);
    AscendingCons(rank, m, []);
  }

  /** An entry without a file. */
  lemma {:induction false} StaysSettled(w: Files, rank: Rank, s: State, m: Name, s1: State)
    requires Ranked(w, rank) && Walking(w, rank, s, []) && m !in s.order && m !in w.symbols
    requires s1 == State(s.order + [m], s.arrivals[m := 1], s.log)
    ensures Walking(w, rank, s1, [])
  {
    ExistingConcat(w, s.order, [m]);
    assert Existing(w, [m]) == [];
  }

  lemma {:induction false} LoadKeepsOrder(w: Files, rank: Rank, s: State, m: Name)
    requires Ranked(w, rank) && Walking(w, rank, s, [])
    ensures Walking(w, rank, Load(w, rank, s, m).0, [])
  {
    if m !in s.order {
      var s1 := State(s.order + [m], s.arrivals[m := 1], s.log);
      if m in w.symbols {
        StartsWalking(w, rank, s, m, s1);
        WalkAndLoad(w, rank, s1, m);
      } else {
        StaysSettled(w, rank, s, m, s1);
      }
    }
  }

  lemma {:induction false} WalkAndLoad(w: Files, rank: Rank, s: State, m: Name)
    requires Ranked(w, rank) && Walking(w, rank, s, [m]) && m in w.symbols && m in s.order && Arrivals(s, m) == 1
    ensures Walking(w, rank, Finish(Walk(w, rank, s, m, Deps(w, m)), m), [])
  {
    assert [m] + [] == [m];
    WalkOrder(w, rank, s, m, Deps(w, m), [m]);
    WalkCounts(w, rank, s, m, Deps(w, m), m);
    NoPathUp(w, rank, m, Deps(w, m), m);
    LoadPending(w, rank, Walk(w, rank, s, m, Deps(w, m)), m, []);
  }

  lemma {:induction false} LoadCounts(w: Files, rank: Rank, s: State, m: Name, y: Name)
    requires Ranked(w, rank) && Counted(s) && y in w.symbols
    ensures var r := Load(w, rank, s, m).0;
            && Counted(r)
            && Arrivals(r, y) == Arrivals(s, y) + (if m in w.symbols && m !in s.order then Paths(w, rank, m, y) else 0)
            && Times(r.log, y) + Rounds(Arrivals(s, y)) == Times(s.log, y) + Rounds(Arrivals(r, y))
  {
    if m !in s.order && m in w.symbols {
      var s1 := State(s.order + [m], s.arrivals[m := 1], s.log);
      WalkCounts(w, rank, s1, m, Deps(w, m), y);
      WalkLoads(w, rank, s1, m, Deps(w, m), y);
      WalkCounts(w, rank, s1, m, Deps(w, m), m);
      NoPathUp(w, rank, m, Deps(w, m), m);
      FinishLoads(Walk(w, rank, s1, m, Deps(w, m)), m, y, 0);
    }
  }

  lemma {:induction false} RunKeepsOrder(w: Files, rank: Rank, calls: seq<Name>)
    requires Ranked(w, rank)
    ensures Walking(w, rank, Run(w, rank, calls), [])
  {
    if calls != [] {
      RunKeepsOrder(w, rank, calls[..|calls| - 1]);
      LoadKeepsOrder(w, rank, Run(w, rank, calls[..|calls| - 1]), calls[|calls| - 1]);
    }
  }

  /** The count of a module is the number of dependency paths to it from the loaded roots. */
  lemma {:induction false} RunCounts(w: Files, rank: Rank, calls: seq<Name>, y: Name)
    requires Ranked(w, rank) && y in w.symbols
    ensures var s := Run(w, rank, calls);
            && Counted(s)
            && Arrivals(s, y) == PathsFrom(w, rank, Roots(w, rank, calls), y)
            && Refcnt(s, y) == PathsFrom(w, rank, Roots(w, rank, calls), y) % 0x1_0000_0000
            && Times(s.log, y) == Rounds(PathsFrom(w, rank, Roots(w, rank, calls), y))
  {
    RunArrivals(w, rank, calls, y);
  }

  lemma {:induction false} RunArrivals(w: Files, rank: Rank, calls: seq<Name>, y: Name)
    requires Ranked(w, rank) && y in w.symbols
    ensures var s := Run(w, rank, calls);
            && Counted(s)
            && Arrivals(s, y) == PathsFrom(w, rank, Roots(w, rank, calls), y)
            && Times(s.log, y) == Rounds(PathsFrom(w, rank, Roots(w, rank, calls), y))
  {
    if calls != [] {
      var before, c := calls[..|calls| - 1], calls[|calls| - 1];
      RunArrivals(w, rank, before, y);
      LoadCounts(w, rank, Run(w, rank, before), c, y);
      RootsGrow(w, rank, before, c, calls, y);
    }
  }

  lemma {:induction false} RootsGrow(w: Files, rank: Rank, before: seq<Name>, c: Name, calls: seq<Name>, y: Name)
    requires Ranked(w, rank) && calls != [] && calls[..|calls| - 1] == before && calls[|calls| - 1] == c
    ensures Run(w, rank, calls) == Load(w, rank, Run(w, rank, before), c).0
    ensures PathsFrom(w, rank, Roots(w, rank, calls), y) ==
            PathsFrom(w, rank, Roots(w, rank, before), y) +
            (if c in w.symbols && c !in Run(w, rank, before).order then Paths(w, rank, c, y) else 0)
  {
    var r := Roots(w, rank, before);
    assert (r + [c])[..|r|] == r;
  }

  /** The list, without names that have no file, is the load order, and it is topological. */
  lemma {:induction false} LoadOrderIsTopological(w: Files, rank: Rank, calls: seq<Name>)
    requires Ranked(w, rank)
    ensures var s := Run(w, rank, calls);
            && Existing(w, s.order) == FirstLoads(s.log)
            && NoDuplicates(FirstLoads(s.log)) && Topological(w, FirstLoads(s.log))
  {
    RunKeepsOrder(w, rank, calls);
    var f := FirstLoads(Run(w, rank, calls).log);
    assert f + [] == f;
  }

  lemma {:induction false} TimesMembers(log: seq<Name>, m: Name)
    ensures Times(log, m) > 0 <==> m in log
  {
    if log != [] {
      TimesMembers(log[..|log| - 1], m);
      assert log == log[..|log| - 1] + [log[|log| - 1]];
    }
  }

  /**
   A module is loaded at all exactly when a loaded root depends on it, and then once
   unless more than 2^32 paths lead to it.
   */
  lemma {:induction false} LoadedOnce(w: Files, rank: Rank, calls: seq<Name>, y: Name)
    requires Ranked(w, rank) && y in w.symbols
    ensures var s, n := Run(w, rank, calls), PathsFrom(w, rank, Roots(w, rank, calls), y);
            && (y in s.log <==> n > 0)
            && (Times(s.log, y) == 1 <==> 0 < n <= 0x1_0000_0000)
  {
    RunCounts(w, rank, calls, y);
    RoundsClosed(PathsFrom(w, rank, Roots(w, rank, calls), y));
    TimesMembers(Run(w, rank, calls).log, y);
  }

  lemma {:induction false} FirstLoadsWhole(log: seq<Name>)
    requires forall m :: m in log ==> Times(log, m) <= 1
    ensures FirstLoads(log) == log
  {
    if log != [] {
      var rest, last := log[..|log| - 1], log[|log| - 1];
      assert log == rest + [last];
      forall m | m in rest ensures Times(rest, m) <= 1 {
        assert m in log;
      }
      FirstLoadsWhole(rest);
      assert last in log;
      TimesMembers(rest, last);
    }
  }

  /** What is in the list after a step was there before, or has a file. */
  ghost predicate AddsExisting(w: Files, before: seq<Name>, after: seq<Name>) {
    forall x :: x in after ==> x in before || x in w.symbols
  }

  lemma AddsTransitive(w: Files, a: seq<Name>, b: seq<Name>, c: seq<Name>)
    requires AddsExisting(w, a, b) && AddsExisting(w, b, c)
    ensures AddsExisting(w, a, c)
  {
  }

  lemma ArriveAdds(w: Files, s: State, m: Name, d: Name)
    requires m in s.order && d in w.symbols
    ensures AddsExisting(w, s.order, Arrive(s, m, d).order)
  {
    ArriveKeeps(s, m, d);
  }

  lemma {:induction false} WalkAddsExisting(w: Files, rank: Rank, s: State, m: Name, ds: seq<Name>)
    requires Ranked(w, rank) && m in w.symbols && m in s.order && (forall d :: d in ds ==> d in Deps(w, m))
    ensures AddsExisting(w, s.order, Walk(w, rank, s, m, ds).order)
    decreases rank[m], |ds|
  {
    if ds != [] {
      var d, s1 := ds[|ds| - 1], Walk(w, rank, s, m, ds[..|ds| - 1]);
      WalkAddsExisting(w, rank, s, m, ds[..|ds| - 1]);
      ArriveKeeps(s1, m, d);
      var s2 := Arrive(s1, m, d);
      ArriveAdds(w, s1, m, d);
      WalkAddsExisting(w, rank, s2, d, Deps(w, d));
      AddsTransitive(w, s.order, s1.order, s2.order);
      AddsTransitive(w, s.order, s2.order, Walk(w, rank, s2, d, Deps(w, d)).order);
    }
  }

  /** Names without a file get into the list by load calls only. */
  lemma {:induction false} RunAddsExisting(w: Files, rank: Rank, calls: seq<Name>)
    requires Ranked(w, rank)
    ensures forall x :: x in Run(w, rank, calls).order && x !in w.symbols ==> x in calls
    ensures forall x :: x in calls ==> x in Run(w, rank, calls).order
  {
    if calls != [] {
      var before, c := calls[..|calls| - 1], calls[|calls| - 1];
      var s := Run(w, rank, before);
      RunAddsExisting(w, rank, before);
      if c !in s.order && c in w.symbols {
        WalkAddsExisting(w, rank, State(s.order + [c], s.arrivals[c := 1], s.log), c, Deps(w, c));
      }
      assert calls == before + [c];
    }
  }

  lemma {:induction false} ExistingWhole(w: Files, order: seq<Name>)
    ensures Existing(w, order) == order <==> forall m :: m in order ==> m in w.symbols
  {
    ExistingMembers(w, order);
    if order != [] {
      ExistingWhole(w, order[..|order| - 1]);
      LastOrBefore(order);
    }
  }

  /** The list is the load order exactly when every call named a module that has a file. */
  lemma {:induction false} ListIsLoadOrder(w: Files, rank: Rank, calls: seq<Name>)
    requires Ranked(w, rank)
    ensures var s := Run(w, rank, calls);
            s.order == FirstLoads(s.log) <==> forall c :: c in calls ==> c in w.symbols
  {
    LoadOrderIsTopological(w, rank, calls);
    RunAddsExisting(w, rank, calls);
    ExistingWhole(w, Run(w, rank, calls).order);
  }

  lemma {:induction false} LogExists(w: Files, rank: Rank, calls: seq<Name>)
    requires Ranked(w, rank)
    ensures forall m :: m in Run(w, rank, calls).log ==> m in w.symbols
  {
    var s := Run(w, rank, calls);
    LoadOrderIsTopological(w, rank, calls);
    ExistingMembers(w, s.order);
    FirstLoadsMembers(s.log);
  }

  /** Without missing files and without a wrap of a counter, log and list are the same. */
  lemma {:induction false} LogIsList(w: Files, rank: Rank, calls: seq<Name>)
    requires Ranked(w, rank) && forall c :: c in calls ==> c in w.symbols
    requires forall y :: y in w.symbols ==> PathsFrom(w, rank, Roots(w, rank, calls), y) <= WRAP
    ensures Run(w, rank, calls).log == Run(w, rank, calls).order
  {
    var s := Run(w, rank, calls);
    LogExists(w, rank, calls);
    forall m | m in s.log ensures Times(s.log, m) <= 1 {
      LoadedOnce(w, rank, calls, m);
    }
    FirstLoadsWhole(s.log);
    ListIsLoadOrder(w, rank, calls);
  }

  /** An entry was never loaded exactly if it has no file, and such entries come from load calls only. */
  lemma {:induction false} NeverLoadedIff(w: Files, rank: Rank, calls: seq<Name>)
    requires Ranked(w, rank)
    ensures var s := Run(w, rank, calls); forall m :: m in s.order ==> (m !in s.log <==> m !in w.symbols)
    ensures var s := Run(w, rank, calls);
            (exists m :: m in s.order && m !in s.log) <==> exists c :: c in calls && c !in w.symbols
  {
    var s := Run(w, rank, calls);
    LoadOrderIsTopological(w, rank, calls);
    ExistingMembers(w, s.order);
    FirstLoadsMembers(s.log);
    RunAddsExisting(w, rank, calls);
    forall m | m in s.order ensures m !in s.log <==> m !in w.symbols {
      assert m in Existing(w, s.order) <==> m in w.symbols;
      assert m in FirstLoads(s.log) <==> m in s.log;
    }
  }
}
