/**
 BSD tail queues. A queue head and the link fields of an element have the same layout: a pointer
 to an element, and the address of such a pointer. `LAST` and `PREV` depend on it, for they read
 the link fields of an element as if they were a head. So there is one class for both, and an
 address of a pointer to an element is the object whose first field the pointer is.
 */
module TailQueue {

  class Link {
    /** `tqh_first` of a head, `tqe_next` of an element. */
    var to: Link?
    /** `tqh_last` of a head, `tqe_prev` of an element. */
    var back: Link?

    constructor ()
      ensures to == null && back == null
    {
      to, back := null, null;
    }
  }

  ghost predicate Distinct(c: seq<Link>) {
    forall i, j :: 0 <= i < j < |c| ==> c[i] != c[j]
  }

  ghost predicate Apart(c: seq<Link>, d: seq<Link>) {
    forall i, j :: 0 <= i < |c| && 0 <= j < |d| ==> c[i] != d[j]
  }

  /** `c` is a head followed by the elements of its queue in order. */
  ghost predicate Queue(c: seq<Link>)
    reads c
  {
    && |c| > 0 && Distinct(c)
    && (forall i :: 0 <= i < |c| - 1 ==> c[i].to == c[i + 1])
    && c[|c| - 1].to == null
    && (forall i :: 0 < i < |c| ==> c[i].back == c[i - 1])
    && c[0].back == c[|c| - 1]
  }

  // ----------------------------------------------------------------- reading

  /** `TAILQ_LAST`: the elements are `c[1..]`. */
  method Last(head: Link, ghost c: seq<Link>) returns (e: Link?)
    requires Queue(c) && head == c[0]
    ensures e == if |c| == 1 then null else c[|c| - 1]
  {
    assert |c| > 1 ==> c[|c| - 1].back == c[|c| - 2] && c[|c| - 2].to == c[|c| - 1];
    e := head.back.back.to;
  }

  /** `TAILQ_PREV`, which is null for the first element: the head's own last element has no next one. */
  method Prev(elm: Link, ghost c: seq<Link>, ghost i: nat) returns (e: Link?)
    requires Queue(c) && 0 < i < |c| && elm == c[i]
    ensures e == if i == 1 then null else c[i - 1]
  {
    assert elm.back == c[i - 1];
    assert i > 1 ==> c[i - 1].back == c[i - 2] && c[i - 2].to == c[i - 1];
    e := elm.back.back.to;
  }

  /** `TAILQ_FOREACH`. */
  method Foreach(head: Link, ghost c: seq<Link>) returns (s: seq<Link>)
    requires Queue(c) && head == c[0]
    ensures s == c[1..]
  {
    s := [];
    var e := head.to;
    while e != null
      invariant |s| < |c| && s == c[1..|s| + 1] && e == if |s| + 1 < |c| then c[|s| + 1] else null
      decreases |c| - |s|
    {
      s := s + [e];
      e := e.to;
    }
  }

  function Reversed(s: seq<Link>): (r: seq<Link>) {
    if s == [] then [] else [s[|s| - 1]] + Reversed(s[..|s| - 1])
  }

  lemma {:induction false} ReversedAt(s: seq<Link>, i: nat)
    requires i < |s|
    ensures |Reversed(s)| == |s| && Reversed(s)[i] == s[|s| - 1 - i]
  {
    if |s| > 1 {
      ReversedAt(s[..|s| - 1], if i == 0 then 0 else i - 1);
    }
  }

  lemma {:induction false} ReversedIs(s: seq<Link>)
    ensures |Reversed(s)| == |s| && forall i :: 0 <= i < |s| ==> Reversed(s)[i] == s[|s| - 1 - i]
  {
    if s != [] {
      ReversedAt(s, 0);
      forall i | 0 <= i < |s| ensures Reversed(s)[i] == s[|s| - 1 - i] {
        ReversedAt(s, i);
      }
    }
  }

  /** `TAILQ_FOREACH_REVERSE`. */
  method ForeachReverse(head: Link, ghost c: seq<Link>) returns (s: seq<Link>)
    requires Queue(c) && head == c[0]
    ensures s == Reversed(c[1..]) && |s| == |c| - 1 && forall j :: 0 <= j < |s| ==> s[j] == c[|c| - 1 - j]
  {
    s := [];
    var e := Last(head, c);
    ghost var i := |c|;
    assert c[1..i] == c[1..];
    while e != null
      invariant 0 < i <= |c| && s + Reversed(c[1..i]) == Reversed(c[1..]) && e == if i == 1 then null else c[i - 1]
      decreases i
    {
      i := i - 1;
      assert c[1..i + 1] == c[1..i] + [c[i]];
      s := s + [e];
      e := Prev(e, c, i);
    }
    ReversedIs(c[1..]);
  }

  /** Both walks over one queue. */
  method WalkBothWays(head: Link, ghost c: seq<Link>) returns (s: seq<Link>, s': seq<Link>)
    requires Queue(c) && head == c[0]
    ensures s == c[1..] && s' == Reversed(s)
  {
    s := Foreach(head, c);
    s' := ForeachReverse(head, c);
  }

  // ---------------------------------------------------------------- changing

  method Init(head: Link)
    modifies head
    ensures Queue([head])
  {
    head.to := null;
    head.back := head;
  }

  method InsertHead(head: Link, elm: Link, ghost c: seq<Link>)
    requires Queue(c) && head == c[0] && elm !in c
    modifies head, elm, c[if |c| > 1 then 1 else 0]
    ensures Queue([head, elm] + c[1..])
  {
    elm.to := head.to;
    if elm.to != null {
      head.to.back := elm;
    } else {
      head.back := elm;
    }
    head.to := elm;
    elm.back := head;
  }

  method InsertTail(head: Link, elm: Link, ghost c: seq<Link>)
    requires Queue(c) && head == c[0] && elm !in c
    modifies head, elm, c[|c| - 1]
    ensures Queue(c + [elm])
  {
    elm.to := null;
    elm.back := head.back;
    head.back.to := elm;
    head.back := elm;
  }

  lemma InsertedAt(c: seq<Link>, i: nat, elm: Link)
    requires i <= |c|
    ensures var d := c[..i] + [elm] + c[i..];
            |d| == |c| + 1 && forall k :: 0 <= k < |d| ==>
                      d[k] == if k < i then c[k] else if k == i then elm else c[k - 1]
    ensures Distinct(c) && elm !in c ==> Distinct(c[..i] + [elm] + c[i..])
  {
  }

  method InsertAfter(head: Link, listelm: Link, elm: Link, ghost c: seq<Link>, ghost i: nat)
    requires Queue(c) && head == c[0] && 0 < i < |c| && listelm == c[i] && elm !in c
    modifies head, listelm, elm, c[if i + 1 < |c| then i + 1 else i]
    ensures Queue(c[..i + 1] + [elm] + c[i + 1..])
  {
    elm.to := listelm.to;
    if elm.to != null {
      elm.to.back := elm;
    } else {
      head.back := elm;
    }
    listelm.to := elm;
    elm.back := listelm;
    ghost var d := c[..i + 1] + [elm] + c[i + 1..];
    InsertedAt(c, i + 1, elm);
    assert forall k :: 0 <= k < |d| - 1 ==> d[k].to == d[k + 1];
    assert forall k :: 0 < k < |d| ==> d[k].back == d[k - 1];
  }

  method InsertBefore(listelm: Link, elm: Link, ghost c: seq<Link>, ghost i: nat)
    requires Queue(c) && 0 < i < |c| && listelm == c[i] && elm !in c
    modifies listelm, elm, c[i - 1]
    ensures Queue(c[..i] + [elm] + c[i..])
  {
    elm.back := listelm.back;
    elm.to := listelm;
    listelm.back.to := elm;
    listelm.back := elm;
    InsertedAt(c, i, elm);
  }

  method Remove(head: Link, elm: Link, ghost c: seq<Link>, ghost i: nat)
    requires Queue(c) && head == c[0] && 0 < i < |c| && elm == c[i]
    modifies head, c[i - 1], c[if i + 1 < |c| then i + 1 else i]
    ensures Queue(c[..i] + c[i + 1..])
  {
    if elm.to != null {
      elm.to.back := elm.back;
    } else {
      head.back := elm.back;
    }
    elm.back.to := elm.to;
    ghost var d := c[..i] + c[i + 1..];
    assert forall k :: 0 <= k < |d| ==> d[k] == c[if k < i then k else k + 1];
  }

  /** The second queue ends up empty. */
  method Concat(head1: Link, head2: Link, ghost c: seq<Link>, ghost d: seq<Link>)
    requires Queue(c) && Queue(d) && head1 == c[0] && head2 == d[0] && Apart(c, d)
    modifies head1, head2, c[|c| - 1], d[if |d| > 1 then 1 else 0]
    ensures Queue(c + d[1..]) && Queue([head2])
  {
    if head2.to != null {
      head1.back.to := head2.to;
      head2.to.back := head1.back;
      head1.back := head2.back;
      Init(head2);
    }
  }

  method Swap(head1: Link, head2: Link, ghost c: seq<Link>, ghost d: seq<Link>)
    requires Queue(c) && Queue(d) && head1 == c[0] && head2 == d[0] && Apart(c, d)
    modifies head1, head2, c[if |c| > 1 then 1 else 0], d[if |d| > 1 then 1 else 0]
    ensures Queue([head1] + d[1..]) && Queue([head2] + c[1..])
  {
    var first, last := head1.to, head1.back;
    head1.to, head1.back := head2.to, head2.back;
    head2.to, head2.back := first, last;
    first := head1.to;
    if first != null {
      first.back := head1;
    } else {
      head1.back := head1;
    }
    first := head2.to;
    if first != null {
      first.back := head2;
    } else {
      head2.back := head2;
    }
  }

  // --------------------------------------------------------------------- runs

  /** Operations on two queues: `second` says which one is meant, `i` is the place of `at`. */
  datatype Op =
    | PutHead(second: bool, elm: Link)
    | PutTail(second: bool, elm: Link)
    | PutAfter(second: bool, at: Link, i: nat, elm: Link)
    | PutBefore(second: bool, at: Link, i: nat, elm: Link)
    | Drop(second: bool, at: Link, i: nat)
    | Join
    | Exchange

  /** Two queues, each with its head in front. */
  datatype Both = Both(c: seq<Link>, d: seq<Link>)

  ghost predicate Edits(op: Op) {
    !op.Join? && !op.Exchange?
  }

  ghost predicate Editable(op: Op, c: seq<Link>) {
    && |c| > 0 && Edits(op)
    && (op.PutAfter? || op.PutBefore? || op.Drop? ==> 0 < op.i < |c| && c[op.i] == op.at)
  }

  /** What the operation does to a sequence. */
  ghost function Edited(op: Op, c: seq<Link>): seq<Link>
    requires Editable(op, c)
  {
    match op
    case PutHead(_, e) => [c[0], e] + c[1..]
    case PutTail(_, e) => c + [e]
    case PutAfter(_, _, i, e) => c[..i + 1] + [e] + c[i + 1..]
    case PutBefore(_, _, i, e) => c[..i] + [e] + c[i..]
    case Drop(_, _, i) => c[..i] + c[i + 1..]
  }

  ghost predicate Puts(op: Op) {
    op.PutHead? || op.PutTail? || op.PutAfter? || op.PutBefore?
  }

  /** An element that goes in is in neither queue; one that is named is where the operation says. */
  ghost predicate Legal(op: Op, b: Both) {
    && |b.c| > 0 && |b.d| > 0
    && (Edits(op) ==> Editable(op, if op.second then b.d else b.c))
    && (Puts(op) ==> op.elm !in b.c && op.elm !in b.d)
  }

  ghost function Effect(op: Op, b: Both): Both
    requires Legal(op, b)
  {
    if op.Join? then Both(b.c + b.d[1..], [b.d[0]])
    else if op.Exchange? then Both([b.c[0]] + b.d[1..], [b.d[0]] + b.c[1..])
    else if op.second then Both(b.c, Edited(op, b.d)) else Both(Edited(op, b.c), b.d)
  }

  ghost predicate Holds(b: Both)
    reads b.c, b.d
  {
    Queue(b.c) && Queue(b.d) && Apart(b.c, b.d)
  }

  ghost predicate Within(c: seq<Link>, all: set<Link>) {
    forall i :: 0 <= i < |c| ==> c[i] in all
  }

  method Edit(op: Op, head: Link, ghost c: seq<Link>, ghost own: set<Link>)
    requires Queue(c) && head == c[0] && Editable(op, c) && Within(c, own)
    requires (Puts(op) ==> op.elm !in c && op.elm in own)
    modifies own
    ensures Queue(Edited(op, c))
  {
    match op
    case PutHead(_, e) => InsertHead(head, e, c);
    case PutTail(_, e) => InsertTail(head, e, c);
    case PutAfter(_, at, i, e) => InsertAfter(head, at, e, c, i);
    case PutBefore(_, at, i, e) => InsertBefore(at, e, c, i);
    case Drop(_, at, i) => Remove(head, at, c, i);
  }

  lemma EditedApart(op: Op, c: seq<Link>, d: seq<Link>)
    requires Editable(op, c) && Apart(c, d) && (Puts(op) ==> op.elm !in d)
    ensures Apart(Edited(op, c), d) && Apart(d, Edited(op, c)) && Edited(op, c)[0] == c[0] && |Edited(op, c)| > 0
  {
  }

  /** The objects that an operation may touch are in `all`. */
  ghost predicate Owned(op: Op, all: set<Link>) {
    Puts(op) ==> op.elm in all
  }

  ghost function Own(op: Op, c: seq<Link>): set<Link> {
    (set x | x in c) + if Puts(op) then {op.elm} else {}
  }

  method Perform(op: Op, head1: Link, head2: Link, ghost b: Both, ghost all: set<Link>)
    requires Holds(b) && head1 == b.c[0] && head2 == b.d[0] && Legal(op, b)
    requires Within(b.c, all) && Within(b.d, all) && Owned(op, all)
    modifies all
    ensures Holds(Effect(op, b))
  {
    if op.Join? {
      Concat(head1, head2, b.c, b.d);
    } else if op.Exchange? {
      Swap(head1, head2, b.c, b.d);
    } else if op.second {
      EditBeside(op, head2, b.d, b.c, all);
    } else {
      EditBeside(op, head1, b.c, b.d, all);
    }
  }

  /** One of two queues changes. */
  method EditBeside(op: Op, head: Link, ghost c: seq<Link>, ghost d: seq<Link>, ghost all: set<Link>)
    requires Queue(c) && Queue(d) && Apart(c, d) && head == c[0] && Editable(op, c)
    requires Within(c, all) && Owned(op, all) && (Puts(op) ==> op.elm !in c && op.elm !in d)
    modifies all
    ensures Queue(Edited(op, c)) && Queue(d) && Apart(Edited(op, c), d) && Apart(d, Edited(op, c))
  {
    EditedApart(op, c, d);
    Edit(op, head, c, Own(op, c));
  }

  lemma EditedWithin(op: Op, c: seq<Link>, all: set<Link>)
    requires Editable(op, c) && Within(c, all) && Owned(op, all)
    ensures Within(Edited(op, c), all)
  {
  }

  lemma EffectWithin(op: Op, b: Both, all: set<Link>)
    requires Legal(op, b) && Within(b.c, all) && Within(b.d, all) && Owned(op, all)
    ensures Within(Effect(op, b).c, all) && Within(Effect(op, b).d, all)
    ensures |Effect(op, b).c| > 0 && Effect(op, b).c[0] == b.c[0]
    ensures |Effect(op, b).d| > 0 && Effect(op, b).d[0] == b.d[0]
  {
    if Edits(op) {
      EditedWithin(op, if op.second then b.d else b.c, all);
    }
  }

  ghost predicate AllLegal(ops: seq<Op>, b: Both)
    decreases ops
  {
    ops == [] || (Legal(ops[0], b) && AllLegal(ops[1..], Effect(ops[0], b)))
  }

  ghost function Effects(ops: seq<Op>, b: Both): Both
    requires AllLegal(ops, b)
    decreases ops
  {
    if ops == [] then b else Effects(ops[1..], Effect(ops[0], b))
  }

  /**
   After any run of operations on two queues, the forward walk of each gives the sequence that the
   same operations make of plain sequences, and the backward walk gives its exact reverse.
   */
  method Run(ops: seq<Op>, head1: Link, head2: Link, ghost b: Both, ghost all: set<Link>)
      returns (s: seq<Link>, s': seq<Link>, t: seq<Link>, t': seq<Link>)
    requires Holds(b) && head1 == b.c[0] && head2 == b.d[0] && AllLegal(ops, b)
    requires Within(b.c, all) && Within(b.d, all) && forall i :: 0 <= i < |ops| ==> Owned(ops[i], all)
    modifies all
    ensures var r := Effects(ops, b); Holds(r) && s == r.c[1..] && t == r.d[1..]
    ensures s' == Reversed(s) && t' == Reversed(t)
  {
    ghost var r := b;
    var i := 0;
    while i < |ops|
      invariant 0 <= i <= |ops| && Holds(r) && head1 == r.c[0] && head2 == r.d[0]
      invariant AllLegal(ops[i..], r) && Effects(ops[i..], r) == Effects(ops, b)
      invariant Within(r.c, all) && Within(r.d, all)
    {
      assert ops[i..][0] == ops[i] && ops[i..][1..] == ops[i + 1..];
      EffectWithin(ops[i], r, all);
      Perform(ops[i], head1, head2, r, all);
      r := Effect(ops[i], r);
      i := i + 1;
    }
    s, s' := WalkBothWays(head1, r.c);
    t, t' := WalkBothWays(head2, r.d);
  }
}
