/**
 What a load call answers, and in which order modules load, told without the list and the counters: by
 the dependency paths of the files and by a depth-first walk.
 */
module LoaderOrder {
  import opened LoaderSpec
  import opened LoaderLaws

  // ------------------------------------------------------- declared dependencies

  /** Symbol by symbol, in the order of the symbol table. */
  lemma {:induction false} DependenciesConcat(m: Name, a: seq<string>, b: seq<string>)
    ensures Dependencies(m, a + b) == Dependencies(m, a) + Dependencies(m, b)
    decreases |b|
  {
    if b == [] {
      assert a + b == a;
    } else {
      var n := |b| - 1;
      assert (a + b)[..|a + b| - 1] == a + b[..n];
      DependenciesConcat(m, a, b[..n]);
    }
  }

  /** A symbol declares what follows `<module>_depend_on_`, unless nothing does. */
  lemma {:induction false} DependencyOf(m: Name, symbol: string)
    ensures var n := |m| + 11;
            Dependencies(m, [symbol]) ==
              if |symbol| > n && symbol[..n] == m + "_depend_on_" then [symbol[n..]] else []
  {
    assert [symbol][..0] == [] && Dependencies(m, []) == [];
    assert |"_depend_on_"| == 11;
    assert |symbol| > |m| + 11 ==> (m + DEPEND_ON <= symbol <==> symbol[..|m| + 11] == m + DEPEND_ON);
  }

  // ------------------------------------------------------------------ answers

  /** A load call or the dependencies of a module that was to be loaded have come to `c` before. */
  ghost predicate Known(w: Files, rank: Rank, calls: seq<Name>, c: Name)
    requires Ranked(w, rank)
  {
    c in calls || exists x :: x in calls && x in w.symbols && Paths(w, rank, x, c) > 0
  }

  ghost predicate Closed(w: Files, f: seq<Name>) {
    forall m, d :: m in f && d in Deps(w, m) ==> d in f
  }

  /** Paths stay where dependencies do. */
  lemma {:induction false} PathsStay(w: Files, rank: Rank, f: seq<Name>, x: Name, ds: seq<Name>, y: Name)
    requires Ranked(w, rank) && x in w.symbols && (forall d :: d in ds ==> d in Deps(w, x))
    requires Closed(w, f) && x in f && PathsVia(w, rank, x, ds, y) > 0
    ensures y in f && y in w.symbols
    decreases rank[x], |ds|
  {
    var d := ds[|ds| - 1];
    Below(w, rank, x, d);
    if PathsVia(w, rank, x, ds[..|ds| - 1], y) > 0 {
      PathsStay(w, rank, f, x, ds[..|ds| - 1], y);
    } else if y != d {
      PathsStay(w, rank, f, d, Deps(w, d), y);
    }
  }

  lemma {:induction false} RootsAreCalls(w: Files, rank: Rank, calls: seq<Name>)
    requires Ranked(w, rank)
    ensures forall x :: x in Roots(w, rank, calls) ==> x in calls && x in w.symbols
  {
    if calls != [] {
      RootsAreCalls(w, rank, calls[..|calls| - 1]);
    }
  }

  lemma {:induction false} SomeRoot(w: Files, rank: Rank, roots: seq<Name>, y: Name) returns (x: Name)
    requires Ranked(w, rank) && (forall m :: m in roots ==> m in w.symbols) && PathsFrom(w, rank, roots, y) > 0
    ensures x in roots && Paths(w, rank, x, y) > 0
  {
    var n := |roots| - 1;
    if Paths(w, rank, roots[n], y) > 0 {
      x := roots[n];
    } else {
      x := SomeRoot(w, rank, roots[..n], y);
    }
  }

  lemma {:induction false} LoadedClosed(w: Files, rank: Rank, calls: seq<Name>)
    requires Ranked(w, rank)
    ensures var s := Run(w, rank, calls);
            Closed(w, FirstLoads(s.log)) && forall m :: m in FirstLoads(s.log) <==> m in s.order && m in w.symbols
  {
    var s := Run(w, rank, calls);
    LoadOrderIsTopological(w, rank, calls);
    TopologicalClosed(w, FirstLoads(s.log));
    ExistingMembers(w, s.order);
  }

  lemma {:induction false} ListedIffKnown(w: Files, rank: Rank, calls: seq<Name>, c: Name)
    requires Ranked(w, rank)
    ensures c in Run(w, rank, calls).order <==> Known(w, rank, calls, c)
  {
    var s := Run(w, rank, calls);
    RunAddsExisting(w, rank, calls);
    LoadedClosed(w, rank, calls);
    if c in s.order && c in w.symbols {
      FirstLoadsMembers(s.log);
      LoadedOnce(w, rank, calls, c);
      var x := SomeRoot(w, rank, Roots(w, rank, calls), c);
      RootsAreCalls(w, rank, calls);
    }
    if x :| x in calls && x in w.symbols && Paths(w, rank, x, c) > 0 {
      if x != c {
        PathsStay(w, rank, FirstLoads(s.log), x, Deps(w, x), c);
      }
    }
  }

  /** What the next load call answers: already there, no file, or loaded. */
  ghost predicate Answers(w: Files, rank: Rank, before: seq<Name>, c: Name, r: Outcome)
    requires Ranked(w, rank)
  {
    && (r == Exists <==> Known(w, rank, before, c))
    && (r == Invalid <==> !Known(w, rank, before, c) && c !in w.symbols)
    && (r == Done <==> !Known(w, rank, before, c) && c in w.symbols)
  }

  /** After any load calls. */
  lemma {:induction false} LoadAnswers(w: Files, rank: Rank, before: seq<Name>, c: Name)
    requires Ranked(w, rank)
    ensures Answers(w, rank, before, c, Load(w, rank, Run(w, rank, before), c).1)
  {
    ListedIffKnown(w, rank, before, c);
  }

  // -------------------------------------------------------------- load order

  /** The modules in the order in which a depth-first walk from `m` is done with them. */
  ghost function Finishes(w: Files, rank: Rank, m: Name): seq<Name>
    requires Ranked(w, rank) && m in w.symbols
    decreases rank[m], 1, 0
  {
    FinishesVia(w, rank, m, Deps(w, m)) + [m]
  }

  /** From the dependencies `ds` of `m`, the first one first. */
  ghost function FinishesVia(w: Files, rank: Rank, m: Name, ds: seq<Name>): seq<Name>
    requires Ranked(w, rank) && m in w.symbols && (forall d :: d in ds ==> d in Deps(w, m))
    decreases rank[m], 0, |ds|
  {
    if ds == [] then [] else FinishesVia(w, rank, m, ds[..|ds| - 1]) + Finishes(w, rank, ds[|ds| - 1])
  }

  /** From the calls that named an existing file, the first one first. */
  ghost function AllFinishes(w: Files, rank: Rank, calls: seq<Name>): seq<Name>
    requires Ranked(w, rank)
  {
    if calls == [] then [] else
      var c := calls[|calls| - 1];
      AllFinishes(w, rank, calls[..|calls| - 1]) + if c in w.symbols then Finishes(w, rank, c) else []
  }

  /** First places of a whole from those of a part. */
  lemma {:induction false} FirstLoadsPart(a: seq<Name>, b: seq<Name>, c: seq<Name>)
    requires FirstLoads(a) == FirstLoads(b)
    ensures FirstLoads(a + c) == FirstLoads(b + c)
    decreases |c|
  {
    if c == [] {
      assert a + c == a && b + c == b;
    } else {
      var n := |c| - 1;
      FirstLoadsPart(a, b, c[..n]);
      assert a + c == (a + c[..n]) + [c[n]] && b + c == (b + c[..n]) + [c[n]];
      FirstLoadsAppend(a + c[..n], c[n]);
      FirstLoadsAppend(b + c[..n], c[n]);
    }
  }

  lemma {:induction false} FirstLoadsKnown(a: seq<Name>, c: seq<Name>)
    requires forall m :: m in c ==> m in FirstLoads(a)
    ensures FirstLoads(a + c) == FirstLoads(a)
    decreases |c|
  {
    if c == [] {
      assert a + c == a;
    } else {
      var n := |c| - 1;
      FirstLoadsKnown(a, c[..n]);
      assert a + c == (a + c[..n]) + [c[n]];
      FirstLoadsAppend(a + c[..n], c[n]);
    }
  }

  /** How the walk stands when it arrives at a dependency. */
  lemma {:induction false} ArriveWalking(w: Files, rank: Rank, s: State, m: Name, d: Name, pending: seq<Name>)
      returns (inner: seq<Name>)
    requires Ranked(w, rank) && m in w.symbols && m in s.order && d in Deps(w, m)
    requires Walking(w, rank, s, pending) && Walked(rank, s, m, pending)
    ensures d in w.symbols && rank[d] < rank[m] && d in Arrive(s, m, d).order && Arrive(s, m, d).log == s.log
    ensures Walking(w, rank, Arrive(s, m, d), inner) && Walked(rank, Arrive(s, m, d), d, inner)
  {
    Below(w, rank, m, d);
    ArriveKeeps(s, m, d);
    ExistingMembers(w, s.order);
    ArriveCounts(s, m, d, d);
    inner := pending;
    if d in s.order {
      AscendingAbove(rank, pending);
      assert d in FirstLoads(s.log) + pending;
    } else {
      ArriveNew(w, rank, s, m, d, pending);
      inner := [d] + pending;
    }
  }

  lemma {:induction false} WalkTrace(w: Files, rank: Rank, s: State, m: Name, ds: seq<Name>, pending: seq<Name>)
    requires Ranked(w, rank) && m in w.symbols && m in s.order && (forall d :: d in ds ==> d in Deps(w, m))
    requires Walking(w, rank, s, pending) && Walked(rank, s, m, pending)
    ensures FirstLoads(Walk(w, rank, s, m, ds).log) == FirstLoads(s.log + FinishesVia(w, rank, m, ds))
    decreases rank[m], |ds|
  {
    if ds == [] {
      assert s.log + [] == s.log;
    } else {
      var ds1, d := ds[..|ds| - 1], ds[|ds| - 1];
      var s1 := WalkedOn(w, rank, s, m, ds1, pending);
      WalkTrace(w, rank, s, m, ds1, pending);
      VisitTrace(w, rank, s1, m, d, pending);
      TraceOn(s.log, FinishesVia(w, rank, m, ds1), s1.log, Finishes(w, rank, d), Visit(w, rank, s1, m, d).log);
    }
  }

  /** The walk over some of the dependencies leaves all as it was for the next. */
  lemma {:induction false} WalkedOn(w: Files, rank: Rank, s: State, m: Name, ds: seq<Name>, pending: seq<Name>)
      returns (s1: State)
    requires Ranked(w, rank) && m in w.symbols && m in s.order && (forall d :: d in ds ==> d in Deps(w, m))
    requires Walking(w, rank, s, pending) && Walked(rank, s, m, pending)
    ensures s1 == Walk(w, rank, s, m, ds) && m in s1.order
    ensures Walking(w, rank, s1, pending) && Walked(rank, s1, m, pending)
  {
    s1 := Walk(w, rank, s, m, ds);
    WalkOrder(w, rank, s, m, ds, pending);
    PrefixMembers(FirstLoads(s.log), FirstLoads(s1.log));
  }

  /** One part of a trace after another. */
  lemma {:induction false} TraceOn(a: seq<Name>, v: seq<Name>, b: seq<Name>, f: seq<Name>, c: seq<Name>)
    requires FirstLoads(b) == FirstLoads(a + v) && FirstLoads(c) == FirstLoads(b + f)
    ensures FirstLoads(c) == FirstLoads(a + (v + f))
  {
    FirstLoadsPart(b, a + v, f);
    assert (a + v) + f == a + (v + f);
  }

  lemma {:induction false} VisitTrace(w: Files, rank: Rank, s: State, m: Name, d: Name, pending: seq<Name>)
    requires Ranked(w, rank) && m in w.symbols && m in s.order && d in Deps(w, m)
    requires Walking(w, rank, s, pending) && Walked(rank, s, m, pending)
    ensures d in w.symbols
    ensures FirstLoads(Visit(w, rank, s, m, d).log) == FirstLoads(s.log + Finishes(w, rank, d))
    decreases rank[m], 0
  {
    var inner := ArriveWalking(w, rank, s, m, d, pending);
    var s1 := Arrive(s, m, d);
    var s2 := Walk(w, rank, s1, d, Deps(w, d));
    WalkTrace(w, rank, s1, d, Deps(w, d), inner);
    VisitOrder(w, rank, s, m, d, pending);
    VisitIs(w, rank, s, m, d);
    FinishTrace(s2, d);
    TraceOn(s.log, FinishesVia(w, rank, d, Deps(w, d)), s2.log, [d], Finish(s2, d).log);
  }

  lemma VisitIs(w: Files, rank: Rank, s: State, m: Name, d: Name)
    requires Ranked(w, rank) && m in w.symbols && m in s.order && d in Deps(w, m)
    requires d in w.symbols && d in Arrive(s, m, d).order
    ensures Visit(w, rank, s, m, d) == Finish(Walk(w, rank, Arrive(s, m, d), d, Deps(w, d)), d)
  {
  }

  /** Loaded or loaded before. */
  lemma {:induction false} FinishTrace(s: State, d: Name)
    requires d in FirstLoads(Finish(s, d).log)
    ensures FirstLoads(Finish(s, d).log) == FirstLoads(s.log + [d])
  {
    FirstLoadsAppend(s.log, d);
  }

  lemma {:induction false} FinishesStay(w: Files, rank: Rank, f: seq<Name>, m: Name, ds: seq<Name>)
    requires Ranked(w, rank) && m in w.symbols && (forall d :: d in ds ==> d in Deps(w, m)) && Closed(w, f) && m in f
    ensures forall x :: x in FinishesVia(w, rank, m, ds) ==> x in f
    decreases rank[m], |ds|
  {
    if ds != [] {
      var d := ds[|ds| - 1];
      Below(w, rank, m, d);
      FinishesStay(w, rank, f, m, ds[..|ds| - 1]);
      FinishesStay(w, rank, f, d, Deps(w, d));
    }
  }

  lemma {:induction false} LoadTrace(w: Files, rank: Rank, calls: seq<Name>, c: Name)
    requires Ranked(w, rank)
    ensures var s := Run(w, rank, calls);
            FirstLoads(Load(w, rank, s, c).0.log) ==
              FirstLoads(s.log + if c in w.symbols then Finishes(w, rank, c) else [])
  {
    var s := Run(w, rank, calls);
    LoadedClosed(w, rank, calls);
    if c !in w.symbols {
      assert s.log + [] == s.log;
    } else if c in s.order {
      FinishesStay(w, rank, FirstLoads(s.log), c, Deps(w, c));
      FirstLoadsKnown(s.log, Finishes(w, rank, c));
    } else {
      RunKeepsOrder(w, rank, calls);
      NewTrace(w, rank, s, c);
    }
  }

  lemma {:induction false} NewTrace(w: Files, rank: Rank, s: State, c: Name)
    requires Ranked(w, rank) && Walking(w, rank, s, []) && c !in s.order && c in w.symbols
    ensures FirstLoads(Load(w, rank, s, c).0.log) == FirstLoads(s.log + Finishes(w, rank, c))
  {
    var s1 := State(s.order + [c], s.arrivals[c := 1], s.log);
    StartsWalking(w, rank, s, c, s1);
    WalkTrace(w, rank, s1, c, Deps(w, c), [c]);
    var s2 := RootLoads(w, rank, s1, c);
    FinishTrace(s2, c);
    TraceOn(s.log, FinishesVia(w, rank, c, Deps(w, c)), s2.log, [c], Finish(s2, c).log);
  }

  lemma {:induction false} RootLoads(w: Files, rank: Rank, s: State, c: Name) returns (s2: State)
    requires Ranked(w, rank) && Walking(w, rank, s, [c]) && c in w.symbols && c in s.order && Arrivals(s, c) == 1
    ensures s2 == Walk(w, rank, s, c, Deps(w, c)) && c in FirstLoads(Finish(s2, c).log)
  {
    s2 := Walk(w, rank, s, c, Deps(w, c));
    WalkOrder(w, rank, s, c, Deps(w, c), [c]);
    WalkCounts(w, rank, s, c, Deps(w, c), c);
    NoPathUp(w, rank, c, Deps(w, c), c);
    assert [c] + [] == [c];
    LoadPending(w, rank, s2, c, []);
  }

  /**
   The load order is that of a depth-first walk which takes the calls in their order and the
   dependencies of a module in the order of its symbols: each module at its first place.
   */
  lemma {:induction false} LoadOrderIsDepthFirst(w: Files, rank: Rank, calls: seq<Name>)
    requires Ranked(w, rank)
    ensures FirstLoads(Run(w, rank, calls).log) == FirstLoads(AllFinishes(w, rank, calls))
  {
    if calls != [] {
      var before, c := calls[..|calls| - 1], calls[|calls| - 1];
      var s, f := Run(w, rank, before), if c in w.symbols then Finishes(w, rank, c) else [];
      LoadOrderIsDepthFirst(w, rank, before);
      LoadTrace(w, rank, before, c);
      FirstLoadsPart(s.log, AllFinishes(w, rank, before), f);
    }
  }
}
