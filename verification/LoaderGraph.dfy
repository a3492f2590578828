/** The dependency relation as a graph: acyclicity, and paths as such. */
module LoaderGraph {
  import opened LoaderSpec

  // ---------------------------------------------------------------- acyclicity

  /** Each module of `p` depends on the one after it. */
  ghost predicate Chain(w: Files, p: seq<Name>) {
    forall i :: 0 <= i < |p| - 1 ==> p[i + 1] in Deps(w, p[i])
  }

  ghost predicate Acyclic(w: Files) {
    forall p :: Chain(w, p) && |p| >= 2 ==> p[0] != p[|p| - 1]
  }

  /** Every dependency has a file. */
  ghost predicate Closed(w: Files) {
    forall m, d :: m in w.symbols && d in Deps(w, m) ==> d in w.symbols
  }

  lemma {:induction false} ChainDescends(w: Files, rank: Rank, p: seq<Name>)
    requires Ranked(w, rank) && Chain(w, p) && |p| >= 2
    ensures p[0] in w.symbols && p[|p| - 1] in w.symbols && rank[p[|p| - 1]] < rank[p[0]]
  {
    assert p[0 + 1] in Deps(w, p[0]);
    if |p| > 2 {
      var q := p[1..];
      forall i | 0 <= i < |q| - 1 ensures q[i + 1] in Deps(w, q[i]) {
        assert p[(i + 1) + 1] in Deps(w, p[i + 1]);
      }
      ChainDescends(w, rank, q);
    }
  }

  /** Ranks for a part of the modules that contains all their dependencies. */
  ghost predicate PartlyRanked(w: Files, rank: Rank) {
    && rank.Keys <= w.symbols.Keys
    && (forall m :: m in rank ==> rank[m] < |rank|)
    && forall m :: m in rank ==> Descends(w, rank, m)
  }

  lemma ChainExtended(w: Files, p: seq<Name>, d: Name)
    requires Chain(w, p) && p != [] && d in Deps(w, p[|p| - 1])
    ensures Chain(w, p + [d])
  {}

  lemma ChainSuffix(w: Files, p: seq<Name>, k: nat)
    requires Chain(w, p) && k <= |p|
    ensures Chain(w, p[k..])
  {
    var q := p[k..];
    forall i | 0 <= i < |q| - 1 ensures q[i + 1] in Deps(w, q[i]) {
      assert p[(k + i) + 1] in Deps(w, p[k + i]);
    }
  }

  lemma NotOnChain(w: Files, p: seq<Name>, d: Name)
    requires Acyclic(w) && Chain(w, p) && p != [] && d in Deps(w, p[|p| - 1])
    ensures d !in p
  {
    forall k | 0 <= k < |p| ensures p[k] != d {
      ChainSuffix(w, p, k);
      ChainExtended(w, p[k..], d);
      assert (p[k..] + [d])[0] == p[k];
    }
  }

  /** Following unranked dependencies ends at a module that has none. */
  lemma {:induction false} FindLowest(w: Files, rank: Rank, p: seq<Name>, seen: set<Name>) returns (x: Name)
    requires Closed(w) && Acyclic(w) && Chain(w, p) && p != []
    requires (forall m :: m in p <==> m in seen) && seen <= w.symbols.Keys - rank.Keys
    ensures x in w.symbols && x !in rank && forall d :: d in Deps(w, x) ==> d in rank
    decreases w.symbols.Keys - rank.Keys - seen
  {
    x := p[|p| - 1];
    assert x in seen;
    if d :| d in Deps(w, x) && d !in rank {
      NotOnChain(w, p, d);
      ChainExtended(w, p, d);
      x := FindLowest(w, rank, p + [d], seen + {d});
    }
  }

  lemma ExtendedByOne(w: Files, rank: Rank, x: Name)
    requires PartlyRanked(w, rank) && x in w.symbols && x !in rank && forall d :: d in Deps(w, x) ==> d in rank
    ensures PartlyRanked(w, rank[x := |rank|]) && rank[x := |rank|].Keys == rank.Keys + {x}
  {
    var r := rank[x := |rank|];
    assert r.Keys == rank.Keys + {x};
    assert |r| == |rank| + 1;
    forall m | m in r ensures Descends(w, r, m) {
      DescendsInExtended(w, rank, x, m, r);
    }
  }

  lemma DescendsInExtended(w: Files, rank: Rank, x: Name, m: Name, r: Rank)
    requires PartlyRanked(w, rank) && x !in rank && forall d :: d in Deps(w, x) ==> d in rank
    requires r == rank[x := |rank|] && m in r
    ensures Descends(w, r, m)
  {
    assert m in rank ==> Descends(w, rank, m);
  }

  lemma {:induction false} Extend(w: Files, rank: Rank) returns (r: Rank)
    requires Closed(w) && Acyclic(w) && PartlyRanked(w, rank)
    ensures Ranked(w, r)
    decreases w.symbols.Keys - rank.Keys
  {
    if rank.Keys == w.symbols.Keys {
      r := rank;
      RankedByDescent(w, r);
    } else {
      var m :| m in w.symbols.Keys && m !in rank.Keys;
      var x := FindLowest(w, rank, [m], {m});
      ExtendedByOne(w, rank, x);
      r := Extend(w, rank[x := |rank|]);
    }
  }

  ghost function RankOf(w: Files): (r: Rank)
    requires Closed(w) && Acyclic(w)
    ensures Ranked(w, r)
  {
    RankedIffAcyclic(w);
    var r :| Ranked(w, r);
    r
  }

  /** Ranks exist exactly for the acyclic relations whose dependencies all have files. */
  lemma {:induction false} RankedIffAcyclic(w: Files)
    ensures (exists rank :: Ranked(w, rank)) <==> Closed(w) && Acyclic(w)
  {
    if Closed(w) && Acyclic(w) {
      var rank := Extend(w, map[]);
    }
    forall rank, p | Ranked(w, rank) && Chain(w, p) && |p| >= 2 ensures p[0] != p[|p| - 1] {
      ChainDescends(w, rank, p);
    }
  }

  // --------------------------------------------------------------------- paths

  /** The choices `es` of a dependency at each module lead from `x` to `y`. */
  ghost predicate Leads(w: Files, x: Name, es: seq<nat>, y: Name)
    decreases |es|
  {
    if es == [] then x == y
    else es[0] < |Deps(w, x)| && Leads(w, Deps(w, x)[es[0]], es[1..], y)
  }

  ghost predicate Distinct(ps: seq<seq<nat>>) {
    forall i, j :: 0 <= i < j < |ps| ==> ps[i] != ps[j]
  }

  lemma DistinctConcat(a: seq<seq<nat>>, b: seq<seq<nat>>)
    requires Distinct(a) && Distinct(b) && forall x :: x in a ==> x !in b
    ensures Distinct(a + b)
  {
    assert forall i :: 0 <= i < |a| ==> a[i] in a;
    assert forall i :: 0 <= i < |b| ==> b[i] in b;
  }

  ghost function Prefixed(e: nat, ps: seq<seq<nat>>): (r: seq<seq<nat>>)
    ensures |r| == |ps| && forall i :: 0 <= i < |ps| ==> r[i] == [e] + ps[i]
  {
    seq(|ps|, i requires 0 <= i < |ps| => [e] + ps[i])
  }

  lemma PrefixedMembers(e: nat, ps: seq<seq<nat>>)
    ensures Distinct(ps) ==> Distinct(Prefixed(e, ps))
    ensures forall es: seq<nat> :: es in Prefixed(e, ps) <==> es != [] && es[0] == e && es[1..] in ps
  {
    var r := Prefixed(e, ps);
    forall i | 0 <= i < |ps| ensures r[i][1..] == ps[i] && r[i] != [] && r[i][0] == e {}
    forall es: seq<nat> | es != [] && es[0] == e && es[1..] in ps ensures es in r {
      var i :| 0 <= i < |ps| && ps[i] == es[1..];
      assert es == [e] + ps[i] == r[i];
    }
  }

  /** `Paths` counts the paths: they can be listed, each once, in that many places. */
  lemma {:induction false} PathsListed(w: Files, rank: Rank, x: Name, y: Name) returns (ps: seq<seq<nat>>)
    requires Ranked(w, rank) && x in w.symbols
    ensures |ps| == Paths(w, rank, x, y) && Distinct(ps)
    ensures forall es :: es in ps <==> Leads(w, x, es, y)
    decreases rank[x], 1, 0
  {
    var ds := Deps(w, x);
    assert ds[..|ds|] == ds;
    ps := PathsViaListed(w, rank, x, |ds|, y);
    if x == y {
      DistinctConcat([[]], ps);
      ps := [[]] + ps;
    }
  }

  lemma {:induction false} PathsViaListed(w: Files, rank: Rank, x: Name, k: nat, y: Name) returns (ps: seq<seq<nat>>)
    requires Ranked(w, rank) && x in w.symbols && k <= |Deps(w, x)|
    ensures |ps| == PathsVia(w, rank, x, Deps(w, x)[..k], y) && Distinct(ps)
    ensures forall es :: es in ps <==> es != [] && es[0] < k && Leads(w, x, es, y)
    decreases rank[x], 0, k
  {
    var ds := Deps(w, x)[..k];
    if k == 0 {
      ps := [];
    } else {
      var a := PathsViaListed(w, rank, x, k - 1, y);
      var b := PathsListed(w, rank, ds[k - 1], y);
      assert ds[..k - 1] == Deps(w, x)[..k - 1];
      PrefixedMembers(k - 1, b);
      DistinctConcat(a, Prefixed(k - 1, b));
      ps := a + Prefixed(k - 1, b);
    }
  }
}
