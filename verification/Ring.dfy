/** The ring buffer between one producer and one consumer, one shared access at a time. */
module Ring {
  import opened Powers

  /** Where `kylin_ring_enqueue` stands: before its loads, between them, after them, after the claim. */
  datatype Producer = Quiet | Begun(v: int) | SawHead(v: int, head: nat)
            | SawBoth(v: int, head: nat, tail: nat) | Claimed(v: int, slot: nat)

  /** The same for `kylin_ring_dequeue`, and for `kylin_ring_peek` up to the second load. */
  datatype Consumer = Calm | Asked | KnowsTail(tail: nat) | KnowsBoth(tail: nat, head: nat) | Taking(slot: nat)

  datatype State = State(head: nat, tail: nat, val: seq<int>, p: Producer, c: Consumer)

  /**
   What happened so far: the values that got a slot, the values that were handed out, the number
   of slots given back, and the numbers of slots given back and handed out at the latest loads.
   */
  datatype History = History(put: seq<int>, got: seq<int>, freed: nat, freedSeen: nat, putSeen: nat)

  datatype Step = Call(v: int) | LoadHead | LoadTail | Claim | Store | Ask | PollTail | PollHead | Release | Take | Peek

  predicate Enabled(s: State, e: Step) {
    match e
    case Call(_) => s.p.Quiet?
    case LoadHead => s.p.Begun?
    case LoadTail => s.p.SawHead?
    case Claim => s.p.SawBoth?
    case Store => s.p.Claimed? && s.p.slot < |s.val|
    case Ask => s.c.Calm?
    case PollTail => s.c.Asked?
    case PollHead => s.c.KnowsTail?
    case Release => s.c.KnowsBoth?
    case Take => s.c.Taking? && s.c.slot < |s.val|
    case Peek => s.c.KnowsBoth? && After(s.c.tail, |s.val|) < |s.val|
  }

  /** One place on; `cap - 1` is the mask of the ring. */
  function After(x: nat, cap: nat): nat {
    if x + 1 == cap then 0 else x + 1
  }

  function Next(s: State, e: Step): State
    requires Enabled(s, e)
  {
    match e
    case Call(v) => s.(p := Begun(v))
    case LoadHead => s.(p := SawHead(s.p.v, s.head))
    case LoadTail => s.(p := SawBoth(s.p.v, s.p.head, s.tail))
    case Claim =>
      var h := After(s.p.head, |s.val|);
      if h == s.p.tail then s.(p := Quiet)
      else if s.head == s.p.head then s.(head := h, p := Claimed(s.p.v, h))
      else s.(p := Begun(s.p.v))
    case Store => s.(val := s.val[s.p.slot := s.p.v], p := Quiet)
    case Ask => s.(c := Asked)
    case PollTail => s.(c := KnowsTail(s.tail))
    case PollHead => s.(c := KnowsBoth(s.c.tail, s.head))
    case Release =>
      if s.c.tail == s.c.head then s.(c := Calm)
      else if s.tail == s.c.tail then s.(tail := After(s.c.tail, |s.val|), c := Taking(After(s.c.tail, |s.val|)))
      else s.(c := Asked)
    case Take => s.(c := Calm)
    case Peek => s.(c := Calm)
  }

  function Record(s: State, g: History, e: Step): History
    requires Enabled(s, e)
  {
    match e
    case LoadTail => g.(freedSeen := g.freed)
    case Claim => if After(s.p.head, |s.val|) != s.p.tail && s.head == s.p.head then g.(put := g.put + [s.p.v]) else g
    case PollHead => g.(putSeen := |g.put|)
    case Release => if s.c.tail != s.c.head && s.tail == s.c.tail then g.(freed := g.freed + 1) else g
    case Take => g.(got := g.got + [s.val[s.c.slot]])
    case _ => g
  }

  // -------------------------------------------------------------------- slots

  /** The slot of the `j`-th value: `j` modulo the capacity. */
  function Slot(j: nat, cap: nat): (r: nat)
    requires cap > 0
    ensures r < cap
    decreases j
  {
    if j < cap then j else Slot(j - cap, cap)
  }

  lemma {:induction false} SlotAfter(j: nat, cap: nat)
    requires cap > 0
    ensures Slot(j + 1, cap) == After(Slot(j, cap), cap)
    decreases j
  {
    if j >= cap {
      SlotAfter(j - cap, cap);
    }
  }

  lemma {:induction false} SlotsDiffer(i: nat, j: nat, cap: nat)
    requires cap > 0 && i < j < i + cap
    ensures Slot(i, cap) != Slot(j, cap)
    decreases i
  {
    if i >= cap {
      SlotsDiffer(i - cap, j - cap, cap);
    }
  }

  lemma {:induction false} SlotPeriod(i: nat, cap: nat)
    requires cap > 0
    ensures Slot(i + cap, cap) == Slot(i, cap)
  {
  }

  lemma {:induction false} OneRoundLess(j: nat, cap: nat)
    requires 0 < cap <= j
    ensures (j - cap) % cap == j % cap
  {
    var q, r := (j - cap) / cap, (j - cap) % cap;
    QuotientAndRemainder(j - cap, cap);
    assert cap * (q + 1) == cap * q + cap;
    Remainder(j, cap, q + 1, r);
  }

  lemma {:induction false} SlotIs(j: nat, cap: nat)
    requires cap > 0
    ensures Slot(j, cap) == j % cap
    decreases j
  {
    if j < cap {
      Remainder(j, cap, 0, j);
    } else {
      SlotIs(j - cap, cap);
      OneRoundLess(j, cap);
    }
  }

  // ---------------------------------------------------------------- invariant

  /** The first value that is still in the ring or on its way out. */
  function Oldest(s: State, g: History): nat {
    if s.c.Taking? then g.freed else g.freed + 1
  }

  /** Counters and what the two sides know of them, stale or not. */
  ghost predicate Counters(s: State, g: History) {
    var cap := |s.val|;
    && cap > 0
    && s.head == Slot(|g.put|, cap) && s.tail == Slot(g.freed, cap)
    && g.freed <= |g.put| <= g.freed + cap - 1
    && |g.got| + 1 == Oldest(s, g)
  }

  ghost predicate ProducerKnows(s: State, g: History) {
    var cap := |s.val|;
    && (s.p.SawHead? || s.p.SawBoth? ==> s.p.head == s.head)
    && (s.p.SawBoth? ==>
          && cap > 0 && s.p.tail == Slot(g.freedSeen, cap)
          && g.freedSeen <= g.freed && |g.put| <= g.freedSeen + cap - 1)
    && (s.p.Claimed? ==> |g.put| > 0 && s.p.slot == s.head && s.p.v == g.put[|g.put| - 1])
  }

  ghost predicate ConsumerKnows(s: State, g: History) {
    var cap := |s.val|;
    && (s.c.KnowsTail? || s.c.KnowsBoth? ==> s.c.tail == s.tail)
    && (s.c.KnowsBoth? ==>
          && cap > 0 && s.c.head == Slot(g.putSeen, cap)
          && g.freed <= g.putSeen <= |g.put| && g.putSeen <= g.freed + cap - 1)
    && (s.c.Taking? ==> s.c.slot == s.tail && g.freed > 0)
  }

  /** Values from the oldest to the newest are in their slots, but for one that is about to be stored. */
  ghost predicate Stored(s: State, g: History) {
    |s.val| > 0 && forall j :: 0 < j && Oldest(s, g) <= j <= |g.put| && (s.p.Claimed? ==> j < |g.put|) ==>
              s.val[Slot(j, |s.val|)] == g.put[j - 1]
  }

  /** What every run keeps, whatever the consumer has read. */
  ghost predicate Inv(s: State, g: History) {
    Counters(s, g) && ProducerKnows(s, g) && ConsumerKnows(s, g) && Stored(s, g)
  }

  function Start(val: seq<int>): State {
    State(0, 0, val, Quiet, Calm)
  }

  const NOTHING: History := History([], [], 0, 0, 0)

  lemma {:induction false} StartInv(val: seq<int>)
    requires val != []
    ensures Inv(Start(val), NOTHING)
  {
  }

  /** The slot has its value, and no longer awaits a store. */
  ghost predicate Settled(s: State, slot: nat) {
    s.p.Claimed? ==> slot != s.p.slot
  }

  /** A slot that is read has been stored, or what it had before is the same. */
  ghost predicate Good(s: State, e: Step) {
    e.Take? && s.c.Taking? && s.c.slot < |s.val| && !Settled(s, s.c.slot) ==> s.val[s.c.slot] == s.p.v
  }

  // -------------------------------------------------------------------- steps

  /** A claim is refused exactly if the ring was full at the load of the tail. */
  lemma {:induction false} ClaimIs(s: State, g: History)
    requires Counters(s, g) && ProducerKnows(s, g) && s.p.SawBoth?
    ensures if |g.put| < g.freedSeen + |s.val| - 1
            then var slot := Slot(|g.put| + 1, |s.val|);
                 && Next(s, Claim) == s.(head := slot, p := Claimed(s.p.v, slot))
                 && Record(s, g, Claim) == g.(put := g.put + [s.p.v])
            else Next(s, Claim) == s.(p := Quiet) && Record(s, g, Claim) == g
  {
    var cap, n := |s.val|, |g.put|;
    SlotAfter(n, cap);
    SlotPeriod(g.freedSeen, cap);
    if n + 1 < g.freedSeen + cap {
      SlotsDiffer(g.freedSeen, n + 1, cap);
    }
  }

  /** A claim takes a slot that is neither in use nor being read, however stale the tail was. */
  lemma {:induction false} ClaimKeeps(s: State, g: History)
    requires Inv(s, g) && s.p.SawBoth?
    ensures Inv(Next(s, Claim), Record(s, g, Claim))
    ensures if |g.put| < g.freedSeen + |s.val| - 1
            then Next(s, Claim).p == Claimed(s.p.v, Slot(|g.put| + 1, |s.val|)) &&
                 Record(s, g, Claim).put == g.put + [s.p.v]
            else Next(s, Claim).p == Quiet && Record(s, g, Claim).put == g.put
    ensures var r := Next(s, Claim); r.p.Claimed? && r.c.Taking? ==> r.p.slot != r.c.slot
  {
    var cap, n := |s.val|, |g.put|;
    ClaimIs(s, g);
    if n + 1 < g.freedSeen + cap {
      SlotsDiffer(g.freed, n + 1, cap);
    }
  }

  lemma {:induction false} StoreKeeps(s: State, g: History)
    requires Inv(s, g) && s.p.Claimed?
    ensures Enabled(s, Store) && Inv(Next(s, Store), Record(s, g, Store))
  {
    var cap, n := |s.val|, |g.put|;
    var r := Next(s, Store);
    forall j | Oldest(s, g) <= j <= n ensures r.val[Slot(j, cap)] == g.put[j - 1] {
      if j < n {
        SlotsDiffer(j, n, cap);
      }
    }
  }

  lemma {:induction false} ReleaseKeeps(s: State, g: History)
    requires Inv(s, g) && s.c.KnowsBoth?
    ensures Inv(Next(s, Release), Record(s, g, Release))
    ensures if g.putSeen == g.freed
            then Next(s, Release).c == Calm && Record(s, g, Release).freed == g.freed
            else Next(s, Release).c == Taking(Slot(g.freed + 1, |s.val|)) && Record(s, g, Release).freed == g.freed + 1
  {
    SlotAfter(g.freed, |s.val|);
    if g.freed < g.putSeen {
      SlotsDiffer(g.freed, g.putSeen, |s.val|);
    }
  }

  /** What a consumer reads is the next value exactly if it is stored, or if the old contents are equal. */
  lemma {:induction false} TakeIsNext(s: State, g: History)
    requires Inv(s, g) && s.c.Taking?
    ensures Enabled(s, Take) && |g.got| < |g.put|
    ensures s.val[s.c.slot] == g.put[|g.got|] <==> Settled(s, s.c.slot) || s.val[s.c.slot] == s.p.v
    ensures Inv(Next(s, Take), Record(s, g, Take))
  {
    var cap, n := |s.val|, |g.put|;
    if s.p.Claimed? && g.freed < n {
      SlotsDiffer(g.freed, n, cap);
    }
    assert g.put[|g.got|] == g.put[g.freed - 1];
  }

  /** The same for a peek at a ring that is not empty, which reads the slot before it is given back. */
  lemma {:induction false} PeekIsNext(s: State, g: History)
    requires Inv(s, g) && s.c.KnowsBoth? && s.c.tail != s.c.head
    ensures Enabled(s, Peek) && |g.got| < |g.put|
    ensures var slot := After(s.c.tail, |s.val|);
            s.val[slot] == g.put[|g.got|] <==> Settled(s, slot) || s.val[slot] == s.p.v
  {
    var cap, j, n := |s.val|, g.freed + 1, |g.put|;
    ReleaseKeeps(s, g);
    SlotAfter(g.freed, cap);
    if s.p.Claimed? && j < n {
      SlotsDiffer(j, n, cap);
    }
    assert g.put[|g.got|] == g.put[j - 1];
  }

  lemma {:induction false} StepKeeps(s: State, g: History, e: Step)
    requires Inv(s, g) && Enabled(s, e)
    ensures Inv(Next(s, e), Record(s, g, e))
  {
    match e
    case Claim => ClaimKeeps(s, g);
    case Store => StoreKeeps(s, g);
    case Release => ReleaseKeeps(s, g);
    case Take => TakeIsNext(s, g);
    case _ =>
  }

  /** Only a good read keeps the order, and no step restores it. */
  lemma {:induction false} StepPrefix(s: State, g: History, e: Step)
    requires Inv(s, g) && Enabled(s, e)
    ensures var g' := Record(s, g, e); g'.got <= g'.put <==> g.got <= g.put && Good(s, e)
  {
    if e.Take? {
      TakeIsNext(s, g);
      var g' := Record(s, g, e);
      assert g'.got[..|g.got|] == g.got && g'.put == g.put;
      assert g'.got <= g'.put <==> g.got <= g.put && s.val[s.c.slot] == g.put[|g.got|];
    } else {
      assert Record(s, g, e).got == g.got && g.put <= Record(s, g, e).put;
      assert |g.got| <= |g.put|;
    }
  }

  // --------------------------------------------------------------------- runs

  predicate Possible(s: State, run: seq<Step>)
    decreases run
  {
    run == [] || (Enabled(s, run[0]) && Possible(Next(s, run[0]), run[1..]))
  }

  ghost predicate AllGood(s: State, run: seq<Step>)
    requires Possible(s, run)
    decreases run
  {
    run == [] || (Good(s, run[0]) && AllGood(Next(s, run[0]), run[1..]))
  }

  function Run(s: State, run: seq<Step>): State
    requires Possible(s, run)
    decreases run
  {
    if run == [] then s else Run(Next(s, run[0]), run[1..])
  }

  function Story(s: State, g: History, run: seq<Step>): History
    requires Possible(s, run)
    decreases run
  {
    if run == [] then g else Story(Next(s, run[0]), Record(s, g, run[0]), run[1..])
  }

  lemma {:induction false} RunKeeps(s: State, g: History, run: seq<Step>)
    requires Inv(s, g) && Possible(s, run)
    ensures Inv(Run(s, run), Story(s, g, run))
    decreases run
  {
    if run != [] {
      StepKeeps(s, g, run[0]);
      RunKeeps(Next(s, run[0]), Record(s, g, run[0]), run[1..]);
    }
  }

  lemma {:induction false} RunPrefix(s: State, g: History, run: seq<Step>)
    requires Inv(s, g) && Possible(s, run)
    ensures Story(s, g, run).got <= Story(s, g, run).put <==> g.got <= g.put && AllGood(s, run)
    decreases run
  {
    if run != [] {
      StepKeeps(s, g, run[0]);
      StepPrefix(s, g, run[0]);
      RunPrefix(Next(s, run[0]), Record(s, g, run[0]), run[1..]);
    }
  }

  /**
   Any interleaving with any staleness: what comes out is a prefix of what went in exactly if every
   read came after its store or found an equal value.
   */
  lemma {:induction false} FirstInFirstOut(val: seq<int>, run: seq<Step>)
    requires val != [] && Possible(Start(val), run)
    ensures var g := Story(Start(val), NOTHING, run); g.got <= g.put <==> AllGood(Start(val), run)
  {
    StartInv(val);
    RunPrefix(Start(val), NOTHING, run);
  }

  /**
   Whatever is read: 0 to `cap - 1` slots are in use, as many values are handed out as slots were
   given back or one less, and the next claim does not take the slot that is being read.
   */
  lemma {:induction false} Occupancy(val: seq<int>, run: seq<Step>)
    requires val != [] && Possible(Start(val), run)
    ensures var g := Story(Start(val), NOTHING, run);
            0 <= |g.put| - g.freed <= |val| - 1 && g.freed - 1 <= |g.got| <= g.freed
    ensures var s := Run(Start(val), run);
            s.p.SawBoth? && s.c.Taking? && Next(s, Claim).p.Claimed? ==> Next(s, Claim).p.slot != s.c.slot
  {
    StartInv(val);
    RunKeeps(Start(val), NOTHING, run);
    SameSize(Start(val), run);
    var s, g := Run(Start(val), run), Story(Start(val), NOTHING, run);
    if s.p.SawBoth? {
      ClaimKeeps(s, g);
    }
  }

  lemma {:induction false} SameSize(s: State, run: seq<Step>)
    requires Possible(s, run)
    ensures |Run(s, run).val| == |s.val|
    decreases run
  {
    if run != [] {
      SameSize(Next(s, run[0]), run[1..]);
    }
  }

  // -------------------------------------------- claim and store as one action

  /** A store follows its claim at once. */
  predicate Together(s: State, run: seq<Step>)
    requires Possible(s, run)
    decreases run
  {
    run == [] || ((s.p.Claimed? ==> run[0].Store?) && Together(Next(s, run[0]), run[1..]))
  }

  lemma {:induction false} TogetherIsGood(s: State, run: seq<Step>)
    requires Possible(s, run) && Together(s, run)
    ensures AllGood(s, run)
    decreases run
  {
    if run != [] {
      TogetherIsGood(Next(s, run[0]), run[1..]);
    }
  }

  // --------------------------------------------------------- calls on their own

  lemma RunOne(s: State, g: History, e: Step, run: seq<Step>)
    requires Enabled(s, e) && Possible(Next(s, e), run)
    ensures Possible(s, [e] + run) && Run(s, [e] + run) == Run(Next(s, e), run)
    ensures Story(s, g, [e] + run) == Story(Next(s, e), Record(s, g, e), run)
  {
    assert ([e] + run)[1..] == run;
  }

  /** An enqueue in which the consumer does not move: refused on a full ring, and else its value is stored. */
  lemma {:induction false} EnqueueAlone(s: State, g: History, v: int) returns (run: seq<Step>)
    requires Inv(s, g) && s.p.Quiet?
    ensures run == [Call(v), LoadHead, LoadTail, Claim] + if |g.put| - g.freed < |s.val| - 1 then [Store] else []
    ensures Possible(s, run) && Run(s, run).p == Quiet && Run(s, run).c == s.c && Story(s, g, run).got == g.got
    ensures if |g.put| - g.freed < |s.val| - 1
            then Story(s, g, run).put == g.put + [v] && Run(s, run).val == s.val[Slot(|g.put| + 1, |s.val|) := v]
            else Story(s, g, run).put == g.put && Run(s, run) == s
  {
    var s3, g3 := s.(p := SawBoth(v, s.head, s.tail)), g.(freedSeen := g.freed);
    var s4, g4 := Next(s3, Claim), Record(s3, g3, Claim);
    var rest: seq<Step> := if |g.put| - g.freed < |s.val| - 1 then [Store] else [];
    ClaimKeeps(s3, g3);
    if rest != [] {
      RunOne(s4, g4, Store, []);
    }
    RunOne(s3, g3, Claim, rest);
    BothLoads(s, g, v, [Claim] + rest);
    run := [Call(v), LoadHead, LoadTail] + ([Claim] + rest);
  }

  lemma {:induction false} BothLoads(s: State, g: History, v: int, run: seq<Step>)
    requires s.p.Quiet? && Possible(s.(p := SawBoth(v, s.head, s.tail)), run)
    ensures var s3, all := s.(p := SawBoth(v, s.head, s.tail)), [Call(v), LoadHead, LoadTail] + run;
            Possible(s, all) && Run(s, all) == Run(s3, run) &&
            Story(s, g, all) == Story(s3, g.(freedSeen := g.freed), run)
  {
    var s1, s2 := Next(s, Call(v)), Next(Next(s, Call(v)), LoadHead);
    RunOne(s2, g, LoadTail, run);
    RunOne(s1, g, LoadHead, [LoadTail] + run);
    RunOne(s, g, Call(v), [LoadHead] + ([LoadTail] + run));
    assert [Call(v), LoadHead, LoadTail] + run == [Call(v)] + ([LoadHead] + ([LoadTail] + run));
  }

  /** A dequeue in which the producer does not move: nothing from an empty ring, and else what its slot holds. */
  lemma {:induction false} DequeueAlone(s: State, g: History) returns (run: seq<Step>)
    requires Inv(s, g) && s.c.Calm?
    ensures run == [Ask, PollTail, PollHead, Release] + if g.freed < |g.put| then [Take] else []
    ensures Possible(s, run) && Run(s, run).c == Calm && Run(s, run).p == s.p && Run(s, run).val == s.val
    ensures Story(s, g, run).put == g.put
    ensures if g.freed < |g.put|
            then var slot := Slot(g.freed + 1, |s.val|);
                 && Story(s, g, run).got == g.got + [s.val[slot]]
                 && (Settled(s, slot) ==> s.val[slot] == g.put[|g.got|])
            else Story(s, g, run).got == g.got && Run(s, run) == s
  {
    var s3, g3 := s.(c := KnowsBoth(s.tail, s.head)), g.(putSeen := |g.put|);
    var s4, g4 := Next(s3, Release), Record(s3, g3, Release);
    var rest: seq<Step> := if g.freed < |g.put| then [Take] else [];
    ReleaseKeeps(s3, g3);
    if rest != [] {
      TakeIsNext(s4, g4);
      RunOne(s4, g4, Take, []);
    }
    RunOne(s3, g3, Release, rest);
    BothPolls(s, g, [Release] + rest);
    run := [Ask, PollTail, PollHead] + ([Release] + rest);
  }

  lemma {:induction false} BothPolls(s: State, g: History, run: seq<Step>)
    requires s.c.Calm? && Possible(s.(c := KnowsBoth(s.tail, s.head)), run)
    ensures var s3, all := s.(c := KnowsBoth(s.tail, s.head)), [Ask, PollTail, PollHead] + run;
            Possible(s, all) && Run(s, all) == Run(s3, run) &&
            Story(s, g, all) == Story(s3, g.(putSeen := |g.put|), run)
  {
    var s1, s2 := Next(s, Ask), Next(Next(s, Ask), PollTail);
    RunOne(s2, g, PollHead, run);
    RunOne(s1, g, PollTail, [PollHead] + run);
    RunOne(s, g, Ask, [PollTail] + ([PollHead] + run));
    assert [Ask, PollTail, PollHead] + run == [Ask] + ([PollTail] + ([PollHead] + run));
  }

  const LATE: seq<Step> := [Call(7), LoadHead, LoadTail, Claim, Ask, PollTail, PollHead, Release, Take]

  lemma LateTake(s4: State, g4: History)
    requires s4 == State(1, 0, [0, 0], Claimed(7, 1), Calm) && g4.put == [7] && g4.got == []
    ensures Possible(s4, Tail(LATE, 4)) && Story(s4, g4, Tail(LATE, 4)).put == [7]
    ensures Story(s4, g4, Tail(LATE, 4)).got == [0]
  {
    var s5, g5 := Next(s4, Ask), Record(s4, g4, Ask);
    var s6, g6 := Next(s5, PollTail), Record(s5, g5, PollTail);
    var s7, g7 := Next(s6, PollHead), Record(s6, g6, PollHead);
    var s8, g8 := Next(s7, Release), Record(s7, g7, Release);
    assert s8 == State(1, 1, [0, 0], Claimed(7, 1), Taking(1));
    Unroll(s8, g8, LATE, 8);
    Unroll(s7, g7, LATE, 7);
    Unroll(s6, g6, LATE, 6);
    Unroll(s5, g5, LATE, 5);
    Unroll(s4, g4, LATE, 4);
  }

  /** As the code has it, a store can come too late: the consumer then gets what was in the slot before. */
  lemma LateStore()
    ensures Possible(Start([0, 0]), LATE)
    ensures var g := Story(Start([0, 0]), NOTHING, LATE); g.put == [7] && g.got == [0]
  {
    var s0, g0 := Start([0, 0]), NOTHING;
    var s1, g1 := Next(s0, Call(7)), Record(s0, g0, Call(7));
    var s2, g2 := Next(s1, LoadHead), Record(s1, g1, LoadHead);
    var s3, g3 := Next(s2, LoadTail), Record(s2, g2, LoadTail);
    LateTake(Next(s3, Claim), Record(s3, g3, Claim));
    Unroll(s3, g3, LATE, 3);
    Unroll(s2, g2, LATE, 2);
    Unroll(s1, g1, LATE, 1);
    Unroll(s0, g0, LATE, 0);
    assert Tail(LATE, 0) == LATE;
  }

  function Tail(run: seq<Step>, i: nat): seq<Step>
    requires i <= |run|
  {
    run[i..]
  }

  lemma Unroll(s: State, g: History, run: seq<Step>, i: nat)
    requires i < |run| && Enabled(s, run[i]) && Possible(Next(s, run[i]), Tail(run, i + 1))
    ensures Possible(s, Tail(run, i))
    ensures Story(s, g, Tail(run, i)) == Story(Next(s, run[i]), Record(s, g, run[i]), Tail(run, i + 1))
  {
    assert Tail(run, i)[1..] == Tail(run, i + 1);
  }
}
