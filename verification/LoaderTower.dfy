/** Sessions that show what can go wrong: a module that loads twice, and an entry that never loads. */
module LoaderTower {
  import opened Powers
  import opened LoaderSpec
  import opened LoaderLaws

  // ----------------------------------------------------------- a missing file

  /** A load call for a file that does not exist leaves its entry in the list. */
  lemma MissingFile(w: Files, rank: Rank, m: Name)
    requires Ranked(w, rank) && m !in w.symbols
    ensures var s := Run(w, rank, [m]); s.order == [m] && s.log == [] && s.order != FirstLoads(s.log)
  {
    assert [m][..0] == [] && Run(w, rank, []) == EMPTY;
    assert Load(w, rank, EMPTY, m).0 == State([] + [m], map[][m := 1], []);
  }

  // ------------------------------------------------------------ a tower of 2n

  /** Two modules on each level `i`. */
  function Tag(i: nat, right: bool): (m: Name)
    ensures |m| == i + 1
  {
    seq(i, _ => 'x') + (if right then "b" else "a")
  }

  lemma TagInjective(i: nat, right: bool, i': nat, right': bool)
    requires Tag(i, right) == Tag(i', right')
    ensures i == i' && right == right'
  {
    assert Tag(i, right)[i] == if right then 'b' else 'a';
    assert Tag(i, right')[i] == if right' then 'b' else 'a';
  }

  /** Each depends on both modules of the level below. */
  function Symbols(i: nat, right: bool): seq<string> {
    if i == 0 then []
    else [Tag(i, right) + DEPEND_ON + Tag(i - 1, false), Tag(i, right) + DEPEND_ON + Tag(i - 1, true)]
  }

  lemma Declared(m: Name, d: Name)
    requires d != ""
    ensures DeclaresDependency(m, m + DEPEND_ON + d) && (m + DEPEND_ON + d)[|m + DEPEND_ON|..] == d
  {
  }

  lemma SymbolsDeclare(i: nat, right: bool)
    requires i > 0
    ensures Dependencies(Tag(i, right), Symbols(i, right)) == [Tag(i - 1, false), Tag(i - 1, true)]
  {
    var m, l, r := Tag(i, right), Tag(i - 1, false), Tag(i - 1, true);
    var a, b := m + DEPEND_ON + l, m + DEPEND_ON + r;
    Declared(m, l);
    Declared(m, r);
    assert [a, b][..1] == [a] && [a][..0] == [];
    assert Dependencies(m, []) == [];
    assert Dependencies(m, [a]) == [] + [l];
  }

  function Levels(n: nat): map<Name, seq<string>> {
    (if n == 0 then map[] else Levels(n - 1))[Tag(n, false) := Symbols(n, false)][Tag(n, true) := Symbols(n, true)]
  }

  lemma {:induction false} LevelAt(n: nat, i: nat, right: bool)
    requires i <= n
    ensures Tag(i, right) in Levels(n) && Levels(n)[Tag(i, right)] == Symbols(i, right)
  {
    if i < n {
      LevelAt(n - 1, i, right);
    }
    if Tag(n, false) == Tag(n, true) {
      TagInjective(n, false, n, true);
    }
  }

  lemma {:induction false} LevelOf(n: nat, m: Name) returns (i: nat, right: bool)
    requires m in Levels(n)
    ensures i <= n && m == Tag(i, right)
  {
    if m == Tag(n, false) {
      i, right := n, false;
    } else if m == Tag(n, true) {
      i, right := n, true;
    } else {
      i, right := LevelOf(n - 1, m);
    }
  }

  function Tower(n: nat): Files {
    Files(Levels(n))
  }

  ghost function Heights(n: nat): Rank {
    map m | m in Levels(n) :: |m|
  }

  lemma {:induction false} TowerDeps(n: nat, i: nat, right: bool)
    requires i <= n
    ensures Deps(Tower(n), Tag(i, right)) == if i == 0 then [] else [Tag(i - 1, false), Tag(i - 1, true)]
  {
    LevelAt(n, i, right);
    if i > 0 {
      SymbolsDeclare(i, right);
    }
  }

  lemma {:induction false} TowerRanked(n: nat)
    ensures Ranked(Tower(n), Heights(n))
  {
    HeightKeys(n);
    var w, rank := Tower(n), Heights(n);
    forall m | m in rank ensures Descends(w, rank, m) {
      TowerStep(n, w, rank, m);
    }
    RankedByDescent(w, rank);
  }

  lemma HeightKeys(n: nat)
    ensures Heights(n).Keys == Levels(n).Keys
  {
  }

  lemma {:induction false} TowerStep(n: nat, w: Files, rank: Rank, m: Name)
    requires w == Tower(n) && rank == Heights(n) && m in rank
    ensures Descends(w, rank, m)
  {
    forall d | d in Deps(w, m) ensures d in rank && rank[d] < rank[m] {
      TowerDescends(n, m, d);
      HeightOf(n, m);
      HeightOf(n, d);
    }
  }

  lemma HeightOf(n: nat, m: Name)
    requires m in Levels(n)
    ensures m in Heights(n) && Heights(n)[m] == |m|
  {
  }

  lemma {:induction false} TowerDescends(n: nat, m: Name, d: Name)
    requires m in Levels(n) && d in Deps(Tower(n), m)
    ensures d in Levels(n) && |d| < |m|
  {
    var i, right := LevelOf(n, m);
    TowerDeps(n, i, right);
    LevelAt(n, i - 1, d == Tag(i - 1, true));
  }

  /** Twice as many paths lead to the bottom from each level. */
  lemma {:induction false} TowerPaths(n: nat, i: nat, right: bool)
    requires i <= n && Ranked(Tower(n), Heights(n)) && Tag(i, right) in Levels(n)
    ensures Paths(Tower(n), Heights(n), Tag(i, right), Tag(0, false)) ==
              if i > 0 then Pow2(i - 1) else if right then 0 else 1
    decreases i
  {
    var w, rank, x, y := Tower(n), Heights(n), Tag(i, right), Tag(0, false);
    TowerDeps(n, i, right);
    if i == 0 {
      if x == y {
        TagInjective(0, right, 0, false);
      }
      assert PathsVia(w, rank, x, [], y) == 0;
    } else {
      var l, r := Tag(i - 1, false), Tag(i - 1, true);
      LevelAt(n, i - 1, false);
      LevelAt(n, i - 1, true);
      TowerPaths(n, i - 1, false);
      TowerPaths(n, i - 1, true);
      PathsOfTwo(w, rank, x, l, r, y);
    }
  }

  /** The paths from a module with two dependencies. */
  lemma {:induction false} PathsOfTwo(w: Files, rank: Rank, x: Name, l: Name, r: Name, y: Name)
    requires Ranked(w, rank) && x in w.symbols && Deps(w, x) == [l, r] && x != y
    ensures l in w.symbols && r in w.symbols
    ensures Paths(w, rank, x, y) == Paths(w, rank, l, y) + Paths(w, rank, r, y)
  {
    assert l in Deps(w, x) && r in Deps(w, x);
    assert [l, r][..1] == [l] && [l][..0] == [];
    assert PathsVia(w, rank, x, [], y) == 0;
    assert PathsVia(w, rank, x, [l], y) == Paths(w, rank, l, y);
    assert PathsVia(w, rank, x, [l, r], y) == Paths(w, rank, l, y) + Paths(w, rank, r, y);
  }

  lemma {:induction false} TowerRoots(n: nat)
    requires Ranked(Tower(n), Heights(n))
    ensures PathsFrom(Tower(n), Heights(n), Roots(Tower(n), Heights(n), [Tag(n, false)]), Tag(0, false)) ==
              if n > 0 then Pow2(n - 1) else 1
  {
    var w, rank, top := Tower(n), Heights(n), Tag(n, false);
    LevelAt(n, n, false);
    TowerPaths(n, n, false);
    assert [top][..0] == [] && Run(w, rank, []) == EMPTY && Roots(w, rank, []) == [];
    assert Roots(w, rank, [top]) == [] + [top];
    assert PathsFrom(w, rank, [], Tag(0, false)) == 0;
  }

  /** One load call of a tower that is high enough loads the module at its bottom more than once. */
  lemma {:induction false} LoadsTwice(n: nat)
    requires n > 0 && Pow2(n - 1) > WRAP
    ensures Ranked(Tower(n), Heights(n)) && Times(Run(Tower(n), Heights(n), [Tag(n, false)]).log, Tag(0, false)) > 1
  {
    TowerRanked(n);
    LevelAt(n, 0, false);
    TowerRoots(n);
    var w, rank, calls, y := Tower(n), Heights(n), [Tag(n, false)], Tag(0, false);
    LoadedOnce(w, rank, calls, y);
    TimesMembers(Run(w, rank, calls).log, y);
  }

  /** Thirty-five levels, numbered from 0, are enough. */
  lemma LoadsTwiceAt34()
    ensures Ranked(Tower(34), Heights(34))
    ensures Times(Run(Tower(34), Heights(34), [Tag(34, false)]).log, Tag(0, false)) > 1
  {
    Pow2Sum(16, 17);
    assert Pow2(8) == 256;
    assert Pow2(16) == 65536;
    assert Pow2(17) == 131072;
    LoadsTwice(34);
  }
}
