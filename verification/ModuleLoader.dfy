/**
 A module session as the program keeps it: a linked list of module records with
 32-bit counters. Its methods are proved to do what `LoaderSpec` says on values.
 */
module ModuleLoader {
  import opened LoaderSpec
  import LoaderLaws
  import LoaderGraph
  import LoaderOrder
  import KList

  type Module = KList.Module

  lemma FirstIndex(s: seq<Name>, k: nat, m: Name)
    requires k < |s| && s[k] == m && m !in s[..k]
    ensures IndexOf(s, m) == k
  {
    assert s[IndexOf(s, m)] == m;
  }

  lemma CountWraps(n: nat)
    ensures Wrapped(Wrapped(n) + 1) == Wrapped(n + 1)
  {}

  /** The records of the list have the names of `order`, none of them twice. */
  ghost predicate Named(list: seq<Module>, order: seq<Name>) {
    && |list| == |order| && LoaderLaws.NoDuplicates(order)
    && forall i :: 0 <= i < |list| ==> list[i].name == order[i]
  }

  lemma {:induction false} NamedInsert(list: seq<Module>, order: seq<Name>, k: nat, m: Module)
    requires Named(list, order) && k <= |list| && m.name !in order
    ensures Named(list[..k] + [m] + list[k..], order[..k] + [m.name] + order[k..])
  {
    assert order[..k] + order[k..] == order;
    LoaderLaws.NoDuplicatesInsert(order[..k], m.name, order[k..]);
    assert order[..k] + ([m.name] + order[k..]) == order[..k] + [m.name] + order[k..];
  }

  lemma SameName(list: seq<Module>, order: seq<Name>, m: Module)
    requires Named(list, order) && m in list
    ensures m.name in order && forall x :: x in list && x.name == m.name ==> x == m
  {
    var j :| 0 <= j < |list| && list[j] == m;
    forall x | x in list && x.name == m.name ensures x == m {
      var i :| 0 <= i < |list| && list[i] == x;
      assert order[i] == order[j];
    }
  }

  lemma InsertedSet(list: seq<Module>, k: nat, m: Module)
    requires k <= |list|
    ensures Members(list[..k] + [m] + list[k..]) == Members(list) + {m}
  {
    assert list == list[..k] + list[k..];
  }

  lemma NamesInOrder(list: seq<Module>, order: seq<Name>)
    requires Named(list, order)
    ensures forall x :: x in list ==> x.name in order
  {
    forall x | x in list ensures x.name in order {
      var i :| 0 <= i < |list| && list[i] == x;
      assert order[i] == x.name;
    }
  }

  ghost predicate NodesIn(nodes: seq<KList.ListNode>, repr: set<object>) {
    forall i :: 0 <= i < |nodes| ==> nodes[i] in repr
  }

  lemma NodesInInsert(nodes: seq<KList.ListNode>, k: nat, n: KList.ListNode, repr: set<object>, repr': set<object>)
    requires k <= |nodes| && NodesIn(nodes, repr) && repr <= repr' && n in repr'
    ensures NodesIn(nodes[..k] + [n] + nodes[k..], repr')
  {
  }

  lemma ValuesInsert(nodes: seq<KList.ListNode>, k: nat, n: KList.ListNode)
    requires k <= |nodes|
    ensures KList.Values(nodes[..k] + [n] + nodes[k..]) == KList.Values(nodes)[..k] + [n.val] + KList.Values(nodes)[k..]
  {
  }

  ghost function Members(list: seq<Module>): set<Module> {
    set m | m in list
  }

  /** The fields of a record are those of the state. */
  ghost predicate Book(m: Module, s: State)
    reads m
  {
    && m.name in s.arrivals && m.refcnt == Wrapped(s.arrivals[m.name])
    && (m.loaded <==> m.name in s.log)
  }

  ghost predicate Booked(records: set<Module>, s: State)
    reads records
  {
    forall m :: m in records ==> Book(m, s)
  }

  /** What has been loaded is in the list. */
  ghost predicate Listed(log: seq<Name>, order: seq<Name>) {
    log == [] || (Listed(log[..|log| - 1], order) && log[|log| - 1] in order)
  }

  lemma {:induction false} ListedIff(log: seq<Name>, order: seq<Name>)
    ensures Listed(log, order) <==> forall m :: m in log ==> m in order
  {
    if log != [] {
      ListedIff(log[..|log| - 1], order);
      assert log == log[..|log| - 1] + [log[|log| - 1]];
    }
  }

  lemma ListedFinish(s: State, m: Name)
    requires Listed(s.log, s.order) && m in s.order
    ensures Listed(s.log + [m], s.order)
  {
    assert (s.log + [m])[..|s.log|] == s.log;
  }

  /** One count more for one module. */
  function Counting(s: State, m: Name): State {
    s.(arrivals := s.arrivals[m := Arrivals(s, m) + 1])
  }

  /** A new module at place `k`. */
  function Entered(s: State, m: Name, k: nat): State
    requires k <= |s.order|
  {
    State(s.order[..k] + [m] + s.order[k..], s.arrivals[m := 1], s.log)
  }

  lemma EnteredLast(s: State, m: Name)
    ensures Entered(s, m, |s.order|) == State(s.order + [m], s.arrivals[m := 1], s.log)
    ensures m in Entered(s, m, |s.order|).order
  {
  }

  lemma {:induction false} ListedEntered(s: State, m: Name, k: nat)
    requires k <= |s.order| && Listed(s.log, s.order)
    ensures Listed(s.log, Entered(s, m, k).order)
  {
    ListedIff(s.log, s.order);
    ListedIff(s.log, Entered(s, m, k).order);
    assert s.order == s.order[..k] + s.order[k..];
  }

  /** The other records do not notice that a module is loaded. */
  lemma {:induction false} OthersBooked(list: seq<Module>, records: set<Module>, s: State, m: Module)
    requires Named(list, s.order) && records == Members(list) && Booked(records, s) && m in records
    ensures forall x :: x in records && x != m ==> Book(x, State(s.order, s.arrivals, s.log + [m.name]))
  {
    SameName(list, s.order, m);
    forall x | x in records && x != m ensures Book(x, State(s.order, s.arrivals, s.log + [m.name])) {
      assert x.name != m.name;
      assert Book(x, s);
    }
  }

  /** The other records do not notice a new one. */
  lemma {:induction false} BookedEntered(list: seq<Module>, records: set<Module>, s: State, m: Module, k: nat)
    requires Named(list, s.order) && records == Members(list) && Booked(records, s) && Listed(s.log, s.order)
    requires k <= |list| && m.name !in s.order && m.refcnt == 1 && !m.loaded
    ensures Booked(records + {m}, Entered(s, m.name, k))
  {
    ListedIff(s.log, s.order);
    NamesInOrder(list, s.order);
  }

  /** The books with a new record at place `k`. */
  lemma {:induction false} BooksEntered(list: seq<Module>, records: set<Module>, s: State, m: Module, k: nat)
    requires Named(list, s.order) && records == Members(list) && Booked(records, s) && Listed(s.log, s.order)
    requires k <= |list| && m.name !in s.order && m.refcnt == 1 && !m.loaded
    ensures k <= |s.order| && Named(list[..k] + [m] + list[k..], Entered(s, m.name, k).order)
    ensures records + {m} == Members(list[..k] + [m] + list[k..]) && Booked(records + {m}, Entered(s, m.name, k))
    ensures Listed(s.log, Entered(s, m.name, k).order) && Entered(s, m.name, k).log == s.log
  {
    NamedInsert(list, s.order, k, m);
    InsertedSet(list, k, m);
    ListedEntered(s, m.name, k);
    BookedEntered(list, records, s, m, k);
  }

  class Session {
    const files: Files
    ghost const rank: Rank
    const list: KList.List
    var log: seq<Name>
    ghost var state: State
    /** The records from the head of the list to its tail, and the same as a set. */
    ghost var entries: seq<Module>
    ghost var records: set<Module>
    ghost var repr: set<object>

    constructor (files: Files)
      requires LoaderGraph.Closed(files) && LoaderGraph.Acyclic(files)
      ensures Valid() && state == EMPTY && this.files == files && fresh(repr)
    {
      this.files := files;
      this.rank := LoaderGraph.RankOf(files);
      list := new KList.List();
      log, state, entries, records, repr := [], EMPTY, [], {}, {list};
    }

    /** The linked list holds the entries. */
    ghost predicate Linked()
      reads this`entries, list, list.nodes
    {
      list.Valid() && entries == KList.Values(list.nodes)
    }

    /** The entries, the counters and the log are those of `state`. */
    ghost predicate Counted()
      reads this`state, this`entries, this`log, this`records, records
    {
      && Named(entries, state.order) && log == state.log && records == Members(entries)
      && Booked(records, state) && Listed(state.log, state.order)
    }

    ghost predicate Valid()
      reads this, list, list.nodes, records
    {
      Ranked(files, rank) && Kept()
    }

    /** The heap, the list and the books agree. */
    ghost predicate Kept()
      reads this, list, list.nodes, records
    {
      Owned() && Linked() && Counted()
    }

    /** Everything that the session changes on the heap, besides its own fields. */
    ghost predicate Owned()
      reads this`repr, this`records, list
    {
      this !in repr && list in repr && records <= repr && NodesIn(list.nodes, repr)
    }

    /** `refcnt++`. */
    method Count(m: Module)
      requires Valid() && m in records
      modifies this`state, m`refcnt
      ensures Valid() && state == Counting(old(state), m.name)
    {
      SameName(entries, state.order, m);
      CountWraps(state.arrivals[m.name]);
      m.refcnt := Wrapped(m.refcnt + 1);
      state := Counting(state, m.name);
    }

    /** `__module_exist`. */
    method Exist(name: Name) returns (m: KList.Module?)
      requires Valid()
      ensures Valid() && (m != null <==> name in state.order) && (m != null ==> m in records && m.name == name)
    {
      var r, _, _ := Find(name);
      return r;
    }

    /** `kylin_list_find_raw` by name. */
    method Find(name: Name) returns (m: KList.Module?, node: KList.ListNode?, ghost k: nat)
      requires Valid()
      ensures Valid() && (m != null <==> name in state.order)
      ensures node != null <==> m != null
      ensures m != null ==> k == IndexOf(state.order, name) && k < |list.nodes| && list.nodes[k] == node
      ensures m != null ==> m in records && m.name == name
    {
      node, k := list.FindRaw(name);
      if node == null {
        return null, null, k;
      }
      FirstIndex(state.order, k, name);
      m := node.val;
    }

    /** A new record in front of the one at `k`, or behind the last one; the books do not change. */
    method InsertRecord(node: KList.ListNode, d: Name, ghost k: nat) returns (m: Module, n: KList.ListNode)
      requires Linked() && Counted() && k < |list.nodes| && list.nodes[k] == node
      modifies list, list.nodes
      ensures list.nodes == old(list.nodes)[..k] + [n] + old(list.nodes)[k..] && n.val == m
      ensures Counted() && list.Valid() && fresh({m, n}) && m.name == d && m.refcnt == 1 && !m.loaded
    {
      m := new KList.Module(d);
      n := InsertNode(node, m, k);
    }

    method AppendRecord(d: Name) returns (m: Module, n: KList.ListNode)
      requires Linked() && Counted()
      modifies list, list.nodes
      ensures list.nodes == old(list.nodes) + [n] && n.val == m
      ensures Counted() && list.Valid() && fresh({m, n}) && m.name == d && m.refcnt == 1 && !m.loaded
    {
      m := new KList.Module(d);
      n := AppendNode(m);
    }

    method InsertNode(node: KList.ListNode, m: Module, ghost k: nat) returns (n: KList.ListNode)
      requires Linked() && Counted() && k < |list.nodes| && list.nodes[k] == node
      modifies list, list.nodes
      ensures list.nodes == old(list.nodes)[..k] + [n] + old(list.nodes)[k..] && n.val == m
      ensures Counted() && list.Valid() && fresh(n)
      ensures m.refcnt == old(m.refcnt) && m.loaded == old(m.loaded)
    {
      n := list.InsertBefore(node, m, k);
      assert forall x :: x in records ==> x.refcnt == old(x.refcnt) && x.loaded == old(x.loaded);
    }

    method AppendNode(m: Module) returns (n: KList.ListNode)
      requires Linked() && Counted()
      modifies list, list.nodes
      ensures Counted() && list.Valid() && fresh(n) && list.nodes == old(list.nodes) + [n] && n.val == m
      ensures m.refcnt == old(m.refcnt) && m.loaded == old(m.loaded)
    {
      n := list.InsertTail(m);
      assert forall x :: x in records ==> x.refcnt == old(x.refcnt) && x.loaded == old(x.loaded);
    }

    /** The list gets a new record before the one at `k`; the entries follow later. */
    method LinkBefore(node: KList.ListNode, d: Name, ghost k: nat) returns (m: Module, ghost added: set<object>)
      requires Kept() && k < |list.nodes| && list.nodes[k] == node
      modifies this`repr, list, list.nodes
      ensures Owned() && Counted() && m.name == d && m.refcnt == 1 && !m.loaded
      ensures list.Valid() && k <= |entries| && KList.Values(list.nodes) == entries[..k] + [m] + entries[k..]
      ensures m in added && fresh(added) && repr == old(repr) + added
    {
      ghost var nodes := list.nodes;
      var n;
      m, n := InsertRecord(node, d, k);
      Adopt(m, n, nodes, k);
      added := {m, n};
    }

    method LinkLast(d: Name, ghost k: nat) returns (m: Module, ghost added: set<object>)
      requires Kept() && k == |list.nodes|
      modifies this`repr, list, list.nodes
      ensures Owned() && Counted() && m.name == d && m.refcnt == 1 && !m.loaded
      ensures list.Valid() && k <= |entries| && KList.Values(list.nodes) == entries[..k] + [m] + entries[k..]
      ensures m in added && fresh(added) && repr == old(repr) + added
    {
      ghost var nodes := list.nodes;
      var n;
      m, n := AppendRecord(d);
      assert list.nodes == nodes[..k] + [n] + nodes[k..];
      Adopt(m, n, nodes, k);
      added := {m, n};
    }

    /** A new record and its node belong to the session. */
    ghost method Adopt(m: Module, n: KList.ListNode, nodes: seq<KList.ListNode>, k: nat)
      requires this !in repr && list in repr && records <= repr && NodesIn(nodes, repr) && k <= |nodes|
      requires list.nodes == nodes[..k] + [n] + nodes[k..]
      modifies this`repr
      ensures Owned() && repr == old(repr) + {m, n}
      ensures KList.Values(list.nodes) == KList.Values(nodes)[..k] + [n.val] + KList.Values(nodes)[k..]
    {
      ghost var all := repr;
      repr := repr + {m, n};
      NodesInInsert(nodes, k, n, all, repr);
      ValuesInsert(nodes, k, n);
    }

    /** A new record is in its place; the books follow. */
    ghost method Enter(m: Module, k: nat)
      requires Owned() && Counted() && list.Valid() && m in repr
      requires m.name !in state.order && m.refcnt == 1 && !m.loaded
      requires k <= |entries| && KList.Values(list.nodes) == entries[..k] + [m] + entries[k..]
      modifies this`state, this`entries, this`records
      ensures Kept() && records == old(records) + {m}
      ensures k <= |old(state).order| && state == Entered(old(state), m.name, k)
    {
      BooksEntered(entries, records, state, m, k);
      state := Entered(state, m.name, k);
      entries := entries[..k] + [m] + entries[k..];
      records := records + {m};
    }

    /** A record at the end of the list. */
    method AddLast(d: Name) returns (m: Module, ghost added: set<object>)
      requires Kept() && d !in state.order
      modifies this`state, this`entries, this`records, this`repr, repr
      ensures Kept() && m.name == d && m in records
      ensures repr == old(repr) + added && fresh(added) && old(records) <= records
      ensures state == Entered(old(state), d, |old(state).order|)
    {
      ghost var k := |list.nodes|;
      m, added := LinkLast(d, k);
      Enter(m, k);
    }

    /** `__module_load`: the handler of the module is called with `KMOD_ACTION_LOAD`. */
    method LoadIfFirst(m: Module)
      requires Valid() && m in records
      modifies this`state, this`log, m`loaded
      ensures Valid() && state == Finish(old(state), m.name)
    {
      SameName(entries, state.order, m);
      if m.refcnt == 1 {
        RunHandler(m);
      }
    }

    method RunHandler(m: Module)
      requires Kept() && m in records && m.name in state.order
      modifies this`state, this`log, m`loaded
      ensures Kept() && state == State(old(state).order, old(state).arrivals, old(state).log + [m.name])
    {
      ghost var s := state;
      ListedFinish(s, m.name);
      OthersBooked(entries, records, s, m);
      log := log + [m.name];
      m.loaded := true;
      state := State(s.order, s.arrivals, s.log + [m.name]);
    }

    /** `kylin_elf_symbol` over the symbols of `name`, with `__module_depend_process` as its hook. */
    method WalkSymbols(name: Name) returns (ghost added: set<object>)
      requires Valid() && name in files.symbols && name in state.order
      modifies this`state, this`entries, this`records, this`repr, this`log, repr
      ensures Valid() && repr == old(repr) + added && fresh(added) && old(records) <= records
      ensures state == Walk(files, rank, old(state), name, Deps(files, name))
      decreases rank[name], 1, 1
    {
      var symbols, i := files.symbols[name], 0;
      added := {};
      while i < |symbols|
        invariant i <= |symbols| && Valid() && repr == old(repr) + added && fresh(added) && old(records) <= records
        invariant state == WalkUpTo(files, rank, old(state), name, i)
      {
        ghost var more := OneSymbol(name, i, old(state));
        added := added + more;
        i := i + 1;
      }
      assert symbols[..|symbols|] == symbols;
    }

    /** The hook is called for the symbol at `i`, and does nothing unless it declares a dependency. */
    method OneSymbol(name: Name, i: nat, ghost s: State) returns (ghost added: set<object>)
      requires Valid() && name in files.symbols && name in s.order && i < |files.symbols[name]|
      requires state == WalkUpTo(files, rank, s, name, i)
      modifies this`state, this`entries, this`records, this`repr, this`log, repr
      ensures Valid() && repr == old(repr) + added && fresh(added) && old(records) <= records
      ensures state == WalkUpTo(files, rank, s, name, i + 1)
      decreases rank[name], 1, 0
    {
      added := {};
      WalkUpToStep(files, rank, s, name, i);
      var symbol := files.symbols[name][i];
      if DeclaresDependency(name, symbol) {
        added := Depend(name, symbol[|name + DEPEND_ON|..]);
      }
    }

    /** The dependencies of a module first, then the module. */
    method WalkThenLoad(m: Module) returns (ghost added: set<object>)
      requires Valid() && m in records && m.name in files.symbols && m.name in state.order
      modifies this`state, this`entries, this`records, this`repr, this`log, repr
      ensures Valid() && repr == old(repr) + added && fresh(added) && old(records) <= records
      ensures state == Finish(Walk(files, rank, old(state), m.name, Deps(files, m.name)), m.name)
      decreases rank[m.name], 2
    {
      added := WalkSymbols(m.name);
      LoadIfFirst(m);
    }

    /** `__module_depend_process` for a symbol that declares the dependency `d`. */
    method Depend(name: Name, d: Name) returns (ghost added: set<object>)
      requires Valid() && name in files.symbols && name in state.order && d in Deps(files, name)
      modifies this`state, this`entries, this`records, this`repr, this`log, repr
      ensures Valid() && repr == old(repr) + added && fresh(added) && old(records) <= records
      ensures state == Visit(files, rank, old(state), name, d)
      decreases rank[name], 0
    {
      ArriveKeeps(state, name, d);
      var m;
      ghost var more;
      m, added := Reach(name, d);
      more := WalkThenLoad(m);
      added := added + more;
    }

    /** The dependency is counted, or put just before its dependent. */
    method Reach(name: Name, d: Name) returns (m: Module, ghost added: set<object>)
      requires Valid() && name in state.order
      modifies this`state, this`entries, this`records, this`repr, repr
      ensures Valid() && repr == old(repr) + added && fresh(added) && old(records) <= records
      ensures state == Arrive(old(state), name, d) && m in records && m.name == d
    {
      var r := Exist(d);
      if r == null {
        m, added := AddBefore(name, d);
        return;
      }
      m, added := CountAgain(r, name);
    }

    /** A dependency that is in the list already. */
    method CountAgain(r: Module, name: Name) returns (m: Module, ghost added: set<object>)
      requires Valid() && r in records && r.name in state.order && name in state.order
      modifies this`state, r`refcnt
      ensures Valid() && added == {} && m == r
      ensures state == Arrive(old(state), name, r.name)
    {
      Count(r);
      return r, {};
    }

    /** A record just before its dependent. */
    method AddBefore(name: Name, d: Name) returns (m: Module, ghost added: set<object>)
      requires Valid() && name in state.order && d !in state.order
      modifies this`state, this`entries, this`records, this`repr, repr
      ensures Valid() && m.name == d && m in records
      ensures repr == old(repr) + added && fresh(added) && old(records) <= records
      ensures state == Arrive(old(state), name, d)
    {
      var _, node, k := Find(name);
      m, added := LinkBefore(node, d, k);
      Enter(m, k);
    }

    /** `kylin_module_load`. */
    method LoadModule(name: Name) returns (r: Outcome, ghost added: set<object>)
      requires Valid()
      modifies this`state, this`entries, this`records, this`repr, this`log, repr
      ensures Valid() && repr == old(repr) + added && fresh(added) && old(records) <= records
      ensures (state, r) == Load(files, rank, old(state), name)
    {
      var m := Exist(name);
      if m != null {
        return Exists, {};
      }
      r, added := LoadNew(name);
    }

    method LoadNew(name: Name) returns (r: Outcome, ghost added: set<object>)
      requires Valid() && name !in state.order
      modifies this`state, this`entries, this`records, this`repr, this`log, repr
      ensures Valid() && repr == old(repr) + added && fresh(added) && old(records) <= records
      ensures (state, r) == Load(files, rank, old(state), name)
    {
      EnteredLast(state, name);
      var m;
      m, added := AddLast(name);
      if name !in files.symbols {
        return Invalid, added;
      }
      ghost var more := WalkThenLoad(m);
      return Done, added + more;
    }

    /**
     `kylin_module_unload_all`: from the last record back, until a handler refuses. A record that was
     never loaded has no handler, and calling it is a null dereference.
     */
    method UnloadAll(unloads: Name -> bool) returns (called: seq<Name>, e: Ending)
      requires Valid()
      ensures Unloads(Reversed(state.order), state.log, unloads, called, e)
      ensures |called| <= |state.order| && called == Reversed(state.order)[..|called|]
      ensures forall i :: 0 <= i < |called| - 1 ==> unloads(called[i])
      ensures e == Unloaded <==> called == Reversed(state.order) && forall m :: m in called ==> unloads(m)
      ensures e == Refused <==> called != [] && !unloads(called[|called| - 1])
      ensures e == Crashed <==> |called| < |state.order| && forall m :: m in called ==> unloads(m)
      ensures e == Crashed ==> Reversed(state.order)[|called|] !in state.log
    {
      var back := list.Backward();
      ghost var names := Reversed(state.order);
      BackwardBooked(entries, records, state, back, names);
      called, e := UnloadBackward(back, names, state.log, unloads);
      UnloadsPlainly(names, state.log, unloads, called, e);
    }
  }

  /** The records from the tail of the list on. */
  lemma BackwardBooked(list: seq<Module>, records: set<Module>, s: State, back: seq<Module>, names: seq<Name>)
    requires Named(list, s.order) && records == Members(list) && Booked(records, s)
    requires |back| == |list| && forall i :: 0 <= i < |list| ==> back[i] == list[|list| - 1 - i]
    requires |names| == |s.order| && forall i :: 0 <= i < |names| ==> names[i] == s.order[|names| - 1 - i]
    ensures |back| == |names| && forall i :: 0 <= i < |back| ==> back[i].name == names[i]
    ensures forall i :: 0 <= i < |back| ==> (back[i].loaded <==> back[i].name in s.log)
  {
    forall i | 0 <= i < |back| ensures back[i].loaded <==> back[i].name in s.log {
      assert back[i] in records;
    }
  }

  datatype Ending = Unloaded | Refused | Crashed

  /** A loaded module whose handler agrees. */
  ghost predicate Agrees(log: seq<Name>, unloads: Name -> bool, m: Name) {
    m in log && unloads(m)
  }

  /** The first of `names` that does not simply unload is at `k`. */
  ghost predicate StopsAt(names: seq<Name>, log: seq<Name>, unloads: Name -> bool, k: int) {
    0 <= k < |names| && !Agrees(log, unloads, names[k]) && forall j :: 0 <= j < k ==> Agrees(log, unloads, names[j])
  }

  /** Which handlers are called, and how it ends. */
  ghost predicate Unloads(names: seq<Name>, log: seq<Name>, unloads: Name -> bool, called: seq<Name>, e: Ending) {
    && (e == Unloaded <==> forall j :: 0 <= j < |names| ==> Agrees(log, unloads, names[j]))
    && (e == Refused <==> exists k :: StopsAt(names, log, unloads, k) && names[k] in log)
    && (e == Crashed <==> exists k :: StopsAt(names, log, unloads, k) && names[k] !in log)
    && (e == Unloaded ==> called == names)
    && (e != Unloaded ==>
              exists k :: StopsAt(names, log, unloads, k) && called == names[..if e == Refused then k + 1 else k])
  }

  /** Who was called tells how it ended. */
  lemma {:induction false} UnloadsPlainly(names: seq<Name>, log: seq<Name>, unloads: Name -> bool, called: seq<Name>,
                                          e: Ending)
    requires Unloads(names, log, unloads, called, e)
    ensures |called| <= |names| && called == names[..|called|]
    ensures forall i :: 0 <= i < |called| - 1 ==> unloads(called[i])
    ensures e == Unloaded <==> called == names && forall m :: m in called ==> unloads(m)
    ensures e == Refused <==> called != [] && !unloads(called[|called| - 1])
    ensures e == Crashed <==> |called| < |names| && forall m :: m in called ==> unloads(m)
    ensures e == Crashed ==> names[|called|] !in log
  {
    if e == Unloaded {
      assert forall j :: 0 <= j < |names| ==> Agrees(log, unloads, names[j]);
    } else {
      var k :| StopsAt(names, log, unloads, k) && called == names[..if e == Refused then k + 1 else k];
      StopsOnce(names, log, unloads, k);
      assert e == Refused <==> names[k] in log;
      assert e == Refused ==> called == names[..k] + [names[k]];
    }
  }

  lemma StopsOnce(names: seq<Name>, log: seq<Name>, unloads: Name -> bool, k: int)
    requires StopsAt(names, log, unloads, k)
    ensures forall j :: StopsAt(names, log, unloads, j) ==> j == k
    ensures forall m :: m in names[..k] ==> Agrees(log, unloads, m)
  {
    forall m | m in names[..k] ensures Agrees(log, unloads, m) {
      var i :| 0 <= i < k && names[i] == m;
    }
  }

  /** The loop of `kylin_module_unload_all`; `back` has the records from the tail of the list on. */
  method UnloadBackward(back: seq<Module>, ghost names: seq<Name>, ghost log: seq<Name>, unloads: Name -> bool)
      returns (called: seq<Name>, e: Ending)
    requires |back| == |names| && forall i :: 0 <= i < |back| ==> back[i].name == names[i]
    requires forall i :: 0 <= i < |back| ==> (back[i].loaded <==> back[i].name in log)
    ensures Unloads(names, log, unloads, called, e)
  {
    called := [];
    var i := 0;
    while i < |back|
      invariant i <= |back| && called == names[..i]
      invariant forall j :: 0 <= j < i ==> Agrees(log, unloads, names[j])
    {
      var name := back[i].name;
      if !back[i].loaded {
        assert StopsAt(names, log, unloads, i);
        return called, Crashed;
      }
      called := called + [name];
      if !unloads(name) {
        assert StopsAt(names, log, unloads, i);
        return called, Refused;
      }
      i := i + 1;
    }
    assert called == names;
    return called, Unloaded;
  }

  function Reversed(s: seq<Name>): (r: seq<Name>)
    ensures |r| == |s| && forall i :: 0 <= i < |s| ==> r[i] == s[|s| - 1 - i]
  {
    if s == [] then [] else Reversed(s[1..]) + [s[0]]
  }

  /** Each load call has answered as the calls before it and the dependency paths demand. */
  ghost predicate Answered(w: Files, rank: Rank, calls: seq<Name>, answers: seq<Outcome>)
    requires Ranked(w, rank)
  {
    |answers| == |calls| &&
    forall i :: 0 <= i < |calls| ==> LoaderOrder.Answers(w, rank, calls[..i], calls[i], answers[i])
  }

  lemma AnsweredNext(w: Files, rank: Rank, calls: seq<Name>, i: nat, answers: seq<Outcome>, r: Outcome)
    requires Ranked(w, rank) && i < |calls| && Answered(w, rank, calls[..i], answers)
    requires LoaderOrder.Answers(w, rank, calls[..i], calls[i], r)
    ensures Answered(w, rank, calls[..i + 1], answers + [r])
  {
    var all := calls[..i + 1];
    forall j | 0 <= j < i + 1 ensures LoaderOrder.Answers(w, rank, all[..j], all[j], (answers + [r])[j]) {
      SliceOf(calls, i, j);
      if j < i {
        assert LoaderOrder.Answers(w, rank, calls[..i][..j], calls[..i][j], answers[j]);
      }
    }
  }

  lemma SliceOf(calls: seq<Name>, i: nat, j: nat)
    requires j <= i < |calls|
    ensures calls[..i + 1][..j] == calls[..j] && calls[..i + 1][j] == calls[j]
    ensures j < i ==> calls[..i][..j] == calls[..j] && calls[..i][j] == calls[j]
  {
  }

  /** Load calls one after the other. */
  method LoadAll(session: Session, calls: seq<Name>) returns (answers: seq<Outcome>)
    requires session.Valid() && session.state == EMPTY
    modifies session, session.repr
    ensures session.Valid() && session.state == Run(session.files, session.rank, calls)
    ensures Answered(session.files, session.rank, calls, answers)
  {
    var i := 0;
    answers := [];
    while i < |calls|
      invariant i <= |calls| && session.Valid() && session.state == Run(session.files, session.rank, calls[..i])
      invariant fresh(session.repr - old(session.repr))
      invariant Answered(session.files, session.rank, calls[..i], answers)
    {
      assert calls[..i + 1][..i] == calls[..i];
      LoaderOrder.LoadAnswers(session.files, session.rank, calls[..i], calls[i]);
      var r, _ := session.LoadModule(calls[i]);
      AnsweredNext(session.files, session.rank, calls, i, answers, r);
      answers := answers + [r];
      i := i + 1;
    }
    assert calls[..|calls|] == calls;
  }

  /** Every module is reached by few enough paths for its counter. */
  ghost predicate NoWraps(w: Files, rank: Rank, calls: seq<Name>)
    requires Ranked(w, rank)
  {
    forall y :: y in w.symbols ==> LoaderLaws.PathsFrom(w, rank, LoaderLaws.Roots(w, rank, calls), y) <= WRAP
  }

  ghost predicate AllExist(w: Files, calls: seq<Name>) {
    forall c :: c in calls ==> c in w.symbols
  }

  /** A session from its creation through any load calls to `kylin_module_unload_all`. */
  method RunSession(files: Files, calls: seq<Name>, unloads: Name -> bool)
    returns (answers: seq<Outcome>, loaded: seq<Name>, called: seq<Name>, e: Ending, ghost rank: Rank)
    requires LoaderGraph.Closed(files) && LoaderGraph.Acyclic(files)
    ensures Ranked(files, rank) && loaded == Run(files, rank, calls).log
    ensures Answered(files, rank, calls, answers)
    ensures LoaderLaws.Topological(files, LoaderLaws.FirstLoads(loaded))
    ensures LoaderLaws.FirstLoads(loaded) == LoaderLaws.FirstLoads(LoaderOrder.AllFinishes(files, rank, calls))
    ensures Unloads(Reversed(Run(files, rank, calls).order), loaded, unloads, called, e)
    ensures e == Crashed ==> !AllExist(files, calls)
    ensures (forall m :: unloads(m)) ==> (e == Crashed <==> !AllExist(files, calls))
    ensures e == Unloaded ==> called == Reversed(LoaderLaws.FirstLoads(loaded))
    ensures e == Unloaded && NoWraps(files, rank, calls) ==> called == Reversed(loaded)
  {
    var session := new Session(files);
    rank := session.rank;
    answers := LoadAll(session, calls);
    loaded := session.log;
    called, e := session.UnloadAll(unloads);
    SessionEnds(files, rank, calls, unloads, called, e);
    LoaderOrder.LoadOrderIsDepthFirst(files, rank, calls);
  }

  /** The ends of a session. */
  lemma {:induction false} SessionEnds(w: Files, rank: Rank, calls: seq<Name>, unloads: Name -> bool,
                                       called: seq<Name>, e: Ending)
    requires Ranked(w, rank)
    requires Unloads(Reversed(Run(w, rank, calls).order), Run(w, rank, calls).log, unloads, called, e)
    ensures LoaderLaws.Topological(w, LoaderLaws.FirstLoads(Run(w, rank, calls).log))
    ensures e == Crashed ==> !AllExist(w, calls)
    ensures (forall m :: unloads(m)) ==> (e == Crashed <==> !AllExist(w, calls))
    ensures e == Unloaded ==> called == Reversed(LoaderLaws.FirstLoads(Run(w, rank, calls).log))
    ensures e == Unloaded && NoWraps(w, rank, calls) ==> called == Reversed(Run(w, rank, calls).log)
  {
    LoaderLaws.LoadOrderIsTopological(w, rank, calls);
    if e == Unloaded {
      GoesThrough(w, rank, calls, unloads);
    } else {
      Stops(w, rank, calls, unloads);
    }
  }

  /** An unloading that goes through is the exact reverse of the loading. */
  lemma {:induction false} GoesThrough(w: Files, rank: Rank, calls: seq<Name>, unloads: Name -> bool)
    requires Ranked(w, rank)
    requires forall m :: m in Reversed(Run(w, rank, calls).order) ==> Agrees(Run(w, rank, calls).log, unloads, m)
    ensures AllExist(w, calls) && Run(w, rank, calls).order == LoaderLaws.FirstLoads(Run(w, rank, calls).log)
    ensures NoWraps(w, rank, calls) ==> Run(w, rank, calls).order == Run(w, rank, calls).log
  {
    ReversedMembers(Run(w, rank, calls).order);
    LoaderLaws.NeverLoadedIff(w, rank, calls);
    LoaderLaws.ListIsLoadOrder(w, rank, calls);
    if NoWraps(w, rank, calls) {
      LoaderLaws.LogIsList(w, rank, calls);
    }
  }

  /** An unloading stops at a module that refuses, or at an entry without a file. */
  lemma {:induction false} Stops(w: Files, rank: Rank, calls: seq<Name>, unloads: Name -> bool)
    requires Ranked(w, rank)
    ensures var s := Run(w, rank, calls);
            forall k :: StopsAt(Reversed(s.order), s.log, unloads, k) && Reversed(s.order)[k] !in s.log ==>
                      !AllExist(w, calls)
  {
    ReversedMembers(Run(w, rank, calls).order);
    LoaderLaws.NeverLoadedIff(w, rank, calls);
  }

  lemma ReversedMembers(s: seq<Name>)
    ensures forall m :: m in s <==> m in Reversed(s)
  {
    forall m | m in Reversed(s) ensures m in s {
      var j :| 0 <= j < |s| && Reversed(s)[j] == m;
      assert s[|s| - 1 - j] == m;
    }
    forall m | m in s ensures m in Reversed(s) {
      var j :| 0 <= j < |s| && s[j] == m;
      assert Reversed(s)[|s| - 1 - j] == m;
    }
  }

  /** The walk over the first `i` symbols of a module. */
  ghost function WalkUpTo(w: Files, rank: Rank, s: State, m: Name, i: nat): State
    requires Ranked(w, rank) && m in w.symbols && m in s.order && i <= |w.symbols[m]|
  {
    DependenciesPrefix(m, w.symbols[m], i);
    Walk(w, rank, s, m, Dependencies(m, w.symbols[m][..i]))
  }

  lemma {:induction false} WalkUpToStep(w: Files, rank: Rank, s: State, m: Name, i: nat)
    requires Ranked(w, rank) && m in w.symbols && m in s.order && i < |w.symbols[m]|
    ensures var symbol, before := w.symbols[m][i], WalkUpTo(w, rank, s, m, i);
            && m in before.order
            && if DeclaresDependency(m, symbol) then
                 var d := symbol[|m + DEPEND_ON|..];
                 d in Deps(w, m) && WalkUpTo(w, rank, s, m, i + 1) == Visit(w, rank, before, m, d)
               else WalkUpTo(w, rank, s, m, i + 1) == before
  {
    var symbols := w.symbols[m];
    DependenciesPrefix(m, symbols, i);
    DependenciesPrefix(m, symbols, i + 1);
    var ds, after := Dependencies(m, symbols[..i]), Dependencies(m, symbols[..i + 1]);
    assert symbols[..i + 1][..i] == symbols[..i];
    if DeclaresDependency(m, symbols[i]) {
      var d := symbols[i][|m + DEPEND_ON|..];
      assert after == ds + [d] && after[..|ds|] == ds && after[|ds|] == d;
    }
  }

  lemma {:induction false} DependenciesPrefix(name: Name, symbols: seq<string>, i: nat)
    requires i <= |symbols|
    ensures forall d :: d in Dependencies(name, symbols[..i]) ==> d in Dependencies(name, symbols)
    decreases |symbols|
  {
    if i < |symbols| {
      DependenciesPrefix(name, symbols[..|symbols| - 1], i);
      assert symbols[..|symbols| - 1][..i] == symbols[..i];
    } else {
      assert symbols[..i] == symbols;
    }
  }
}
