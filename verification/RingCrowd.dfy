/**
 The ring buffer between any number of producers and consumers. Values are left out: what matters is
 which slots the compare-and-set operations take when they compare positions that come round again.
 */
module RingCrowd {
  import opened Ring

  datatype Sender = Idle | Head(head: nat) | Both(head: nat, tail: nat) | Filling(slot: nat)

  datatype Receiver = Waiting | First(tail: nat) | Known(tail: nat, head: nat) | Reading(slot: nat)

  datatype Crowd = Crowd(cap: nat, head: nat, tail: nat, p: seq<Sender>, c: seq<Receiver>)

  /** How many slots had been claimed and given back at the latest loads of a thread. */
  datatype Seen = Seen(put: nat, freed: nat)

  /** How many slots have been claimed and given back, and what each thread knows of that. */
  datatype Counts = Counts(put: nat, freed: nat, p: seq<Seen>, c: seq<Seen>)

  /** One shared access of producer or consumer `i`. */
  datatype Access =
    | SeeHead(i: nat) | SeeTail(i: nat) | DoClaim(i: nat) | DoStore(i: nat)
    | AskTail(i: nat) | AskHead(i: nat) | DoRelease(i: nat) | DoTake(i: nat)

  predicate Allowed(s: Crowd, e: Access) {
    match e
    case SeeHead(i) => i < |s.p| && s.p[i].Idle?
    case SeeTail(i) => i < |s.p| && s.p[i].Head?
    case DoClaim(i) => i < |s.p| && s.p[i].Both?
    case DoStore(i) => i < |s.p| && s.p[i].Filling?
    case AskTail(i) => i < |s.c| && s.c[i].Waiting?
    case AskHead(i) => i < |s.c| && s.c[i].First?
    case DoRelease(i) => i < |s.c| && s.c[i].Known?
    case DoTake(i) => i < |s.c| && s.c[i].Reading?
  }

  /** The compare-and-set of an enqueue goes through. */
  predicate Claims(s: Crowd, i: nat)
    requires i < |s.p| && s.p[i].Both?
  {
    After(s.p[i].head, s.cap) != s.p[i].tail && s.head == s.p[i].head
  }

  /** The compare-and-set of a dequeue goes through. */
  predicate Releases(s: Crowd, i: nat)
    requires i < |s.c| && s.c[i].Known?
  {
    s.c[i].tail != s.c[i].head && s.tail == s.c[i].tail
  }

  /** A refused or failed attempt starts again from the loads, or ends. */
  function Do(s: Crowd, e: Access): Crowd
    requires Allowed(s, e)
  {
    match e
    case SeeHead(i) => s.(p := s.p[i := Head(s.head)])
    case SeeTail(i) => s.(p := s.p[i := Both(s.p[i].head, s.tail)])
    case DoClaim(i) =>
      if Claims(s, i) then s.(head := After(s.head, s.cap), p := s.p[i := Filling(After(s.head, s.cap))])
      else s.(p := s.p[i := Idle])
    case DoStore(i) => s.(p := s.p[i := Idle])
    case AskTail(i) => s.(c := s.c[i := First(s.tail)])
    case AskHead(i) => s.(c := s.c[i := Known(s.c[i].tail, s.head)])
    case DoRelease(i) =>
      if Releases(s, i) then s.(tail := After(s.tail, s.cap), c := s.c[i := Reading(After(s.tail, s.cap))])
      else s.(c := s.c[i := Waiting])
    case DoTake(i) => s.(c := s.c[i := Waiting])
  }

  function Tell(s: Crowd, g: Counts, e: Access): Counts
    requires Allowed(s, e) && |g.p| == |s.p| && |g.c| == |s.c|
  {
    match e
    case SeeHead(i) => g.(p := g.p[i := g.p[i].(put := g.put)])
    case SeeTail(i) => g.(p := g.p[i := g.p[i].(freed := g.freed)])
    case DoClaim(i) => if Claims(s, i) then g.(put := g.put + 1) else g
    case AskTail(i) => g.(c := g.c[i := g.c[i].(freed := g.freed)])
    case AskHead(i) => g.(c := g.c[i := g.c[i].(put := g.put)])
    case DoRelease(i) => if Releases(s, i) then g.(freed := g.freed + 1) else g
    case _ => g
  }

  // ---------------------------------------------------------------- invariant

  /** What producer `i` knows, stale or not. */
  ghost predicate SenderKnows(s: Crowd, g: Counts, i: nat)
    requires i < |s.p| && i < |g.p| && s.cap > 0
  {
    var seen := g.p[i];
    && (s.p[i].Head? || s.p[i].Both? ==> s.p[i].head == Slot(seen.put, s.cap) && seen.put <= g.put)
    && (s.p[i].Both? ==>
          && s.p[i].tail == Slot(seen.freed, s.cap)
          && seen.freed <= g.freed && seen.freed <= g.put && seen.put <= seen.freed + s.cap - 1)
  }

  ghost predicate ReceiverKnows(s: Crowd, g: Counts, i: nat)
    requires i < |s.c| && i < |g.c| && s.cap > 0
  {
    var seen := g.c[i];
    && (s.c[i].First? || s.c[i].Known? ==> s.c[i].tail == Slot(seen.freed, s.cap) && seen.freed <= g.freed)
    && (s.c[i].Known? ==>
          && s.c[i].head == Slot(seen.put, s.cap)
          && seen.put <= g.put && seen.freed <= seen.put <= g.freed + s.cap - 1)
  }

  ghost predicate Consistent(s: Crowd, g: Counts) {
    && s.cap > 0 && |g.p| == |s.p| && |g.c| == |s.c|
    && s.head == Slot(g.put, s.cap) && s.tail == Slot(g.freed, s.cap)
    && (forall i :: 0 <= i < |s.p| ==> SenderKnows(s, g, i))
    && (forall i :: 0 <= i < |s.c| ==> ReceiverKnows(s, g, i))
  }

  /** Between 0 and `cap - 1` slots are in use. */
  ghost predicate InBounds(s: Crowd, g: Counts) {
    g.freed <= g.put <= g.freed + s.cap - 1
  }

  function Beginning(cap: nat, producers: nat, consumers: nat): Crowd {
    Crowd(cap, 0, 0, seq(producers, _ => Idle), seq(consumers, _ => Waiting))
  }

  function Nothing(producers: nat, consumers: nat): Counts {
    Counts(0, 0, seq(producers, _ => Seen(0, 0)), seq(consumers, _ => Seen(0, 0)))
  }

  lemma {:induction false} BeginningConsistent(cap: nat, producers: nat, consumers: nat)
    requires cap > 0
    ensures var s, g := Beginning(cap, producers, consumers), Nothing(producers, consumers);
            Consistent(s, g) && InBounds(s, g)
  {
  }

  // ----------------------------------------------------------- bad operations

  /** The ring is full, and the head has come round to where the claiming producer saw it. */
  ghost predicate Overruns(s: Crowd, g: Counts, i: nat)
    requires i < |s.p| && i < |g.p| && s.p[i].Both?
  {
    Claims(s, i) && g.put == g.freed + s.cap - 1 && g.put >= g.p[i].put + s.cap
  }

  /** The ring is empty, and the tail has come round to where the consumer saw it. */
  ghost predicate Underruns(s: Crowd, g: Counts, i: nat)
    requires i < |s.c| && i < |g.c| && s.c[i].Known?
  {
    Releases(s, i) && g.put == g.freed && g.freed >= g.c[i].freed + s.cap
  }

  ghost predicate Bad(s: Crowd, g: Counts, e: Access)
    requires Allowed(s, e) && |g.p| == |s.p| && |g.c| == |s.c|
  {
    (e.DoClaim? && Overruns(s, g, e.i)) || (e.DoRelease? && Underruns(s, g, e.i))
  }

  /** A position that was seen fewer than `cap` steps ago and is the same now has not moved. */
  lemma {:induction false} SameUnlessRound(seen: nat, now: nat, cap: nat)
    requires cap > 0 && seen <= now < seen + cap && Slot(seen, cap) == Slot(now, cap)
    ensures seen == now
  {
    if seen < now {
      SlotsDiffer(seen, now, cap);
    }
  }

  /** When a claim goes through at all, and what it then does. */
  lemma {:induction false} ClaimsIff(s: Crowd, g: Counts, i: nat)
    requires Consistent(s, g) && i < |s.p| && s.p[i].Both?
    ensures var cap, seen, r := s.cap, g.p[i], Do(s, DoClaim(i));
            if g.put % cap == seen.put % cap && (seen.put + 1) % cap != seen.freed % cap
            then r == s.(head := (g.put + 1) % cap, p := s.p[i := Filling((g.put + 1) % cap)])
            else r == s.(p := s.p[i := Idle])
  {
    var cap, seen := s.cap, g.p[i];
    assert SenderKnows(s, g, i);
    SlotIs(g.put, cap);
    SlotIs(g.put + 1, cap);
    SlotIs(seen.put, cap);
    SlotIs(seen.put + 1, cap);
    SlotIs(seen.freed, cap);
    SlotAfter(g.put, cap);
    SlotAfter(seen.put, cap);
  }

  lemma {:induction false} ReleasesIff(s: Crowd, g: Counts, i: nat)
    requires Consistent(s, g) && i < |s.c| && s.c[i].Known?
    ensures var cap, seen, r := s.cap, g.c[i], Do(s, DoRelease(i));
            if g.freed % cap == seen.freed % cap && seen.freed % cap != seen.put % cap
            then r == s.(tail := (g.freed + 1) % cap, c := s.c[i := Reading((g.freed + 1) % cap)])
            else r == s.(c := s.c[i := Waiting])
  {
    var cap, seen := s.cap, g.c[i];
    assert ReceiverKnows(s, g, i);
    SlotIs(g.freed, cap);
    SlotIs(g.freed + 1, cap);
    SlotIs(seen.put, cap);
    SlotIs(seen.freed, cap);
    SlotAfter(g.freed, cap);
  }

  /** Fewer than `cap` claims after the load: exactly if there was none, and the ring was not full at the load. */
  lemma {:induction false} FreshClaimIff(s: Crowd, g: Counts, i: nat)
    requires Consistent(s, g) && i < |s.p| && s.p[i].Both? && g.put < g.p[i].put + s.cap
    ensures Claims(s, i) <==> g.put == g.p[i].put && g.p[i].put < g.p[i].freed + s.cap - 1
  {
    var cap, seen := s.cap, g.p[i];
    assert SenderKnows(s, g, i);
    SlotAfter(seen.put, cap);
    if seen.put < g.put {
      SlotsDiffer(seen.put, g.put, cap);
    } else if seen.put < seen.freed + cap - 1 {
      SlotsDiffer(seen.freed, seen.put + 1, cap);
    } else {
      SlotPeriod(seen.freed, cap);
    }
  }

  lemma {:induction false} FreshReleaseIff(s: Crowd, g: Counts, i: nat)
    requires Consistent(s, g) && i < |s.c| && s.c[i].Known? && g.freed < g.c[i].freed + s.cap && InBounds(s, g)
    ensures Releases(s, i) <==> g.freed == g.c[i].freed && g.c[i].freed < g.c[i].put
  {
    var cap, seen := s.cap, g.c[i];
    assert ReceiverKnows(s, g, i);
    if seen.freed < g.freed {
      SlotsDiffer(seen.freed, g.freed, cap);
    } else if seen.freed < seen.put {
      SlotsDiffer(seen.freed, seen.put, cap);
    }
  }

  /** A producer that is not disturbed claims a slot exactly if the ring is not full. */
  lemma {:induction false} UndisturbedClaim(s: Crowd, g: Counts, i: nat)
    requires Consistent(s, g) && InBounds(s, g) && i < |s.p| && s.p[i].Idle?
    ensures var s1 := Do(s, SeeHead(i));
            var s2 := Do(s1, SeeTail(i));
            Do(s2, DoClaim(i)).p[i] ==
              if g.put - g.freed < s.cap - 1 then Filling((g.put + 1) % s.cap) else Idle
  {
    var s1, g1 := Do(s, SeeHead(i)), Tell(s, g, SeeHead(i));
    var s2, g2 := Do(s1, SeeTail(i)), Tell(s1, g1, SeeTail(i));
    AccessKeeps(s, g, SeeHead(i));
    AccessKeeps(s1, g1, SeeTail(i));
    FreshClaimIff(s2, g2, i);
    SlotIs(g.put + 1, s.cap);
    SlotAfter(g.put, s.cap);
  }

  /** A consumer that is not disturbed gives a slot back exactly if the ring is not empty. */
  lemma {:induction false} UndisturbedRelease(s: Crowd, g: Counts, i: nat)
    requires Consistent(s, g) && InBounds(s, g) && i < |s.c| && s.c[i].Waiting?
    ensures var s1 := Do(s, AskTail(i));
            var s2 := Do(s1, AskHead(i));
            Do(s2, DoRelease(i)).c[i] ==
              if g.freed < g.put then Reading((g.freed + 1) % s.cap) else Waiting
  {
    var s1, g1 := Do(s, AskTail(i)), Tell(s, g, AskTail(i));
    var s2, g2 := Do(s1, AskHead(i)), Tell(s1, g1, AskHead(i));
    AccessKeeps(s, g, AskTail(i));
    AccessKeeps(s1, g1, AskHead(i));
    FreshReleaseIff(s2, g2, i);
    SlotIs(g.freed + 1, s.cap);
    SlotAfter(g.freed, s.cap);
  }

  /** A claim goes through at a full ring exactly if it is bad; the ring then looks empty. */
  lemma {:induction false} ClaimAtFull(s: Crowd, g: Counts, i: nat)
    requires Consistent(s, g) && i < |s.p| && s.p[i].Both? && g.put == g.freed + s.cap - 1
    ensures Claims(s, i) <==> Overruns(s, g, i)
    ensures After(s.head, s.cap) == s.tail
  {
    var cap, seen := s.cap, g.p[i];
    assert SenderKnows(s, g, i);
    SlotAfter(g.put, cap);
    SlotPeriod(g.freed, cap);
    if Claims(s, i) && g.put < seen.put + cap {
      SameUnlessRound(seen.put, g.put, cap);
      SlotPeriod(seen.freed, cap);
    }
  }

  /** Any other claim takes a slot that is not in use, and not the one that was given back last. */
  lemma {:induction false} ClaimIsFree(s: Crowd, g: Counts, j: nat)
    requires Consistent(s, g) && g.freed <= j <= g.put < g.freed + s.cap - 1
    ensures Slot(j, s.cap) != After(s.head, s.cap)
  {
    SlotAfter(g.put, s.cap);
    SlotsDiffer(j, g.put + 1, s.cap);
  }

  lemma {:induction false} ReleaseAtEmpty(s: Crowd, g: Counts, i: nat)
    requires Consistent(s, g) && i < |s.c| && s.c[i].Known? && g.put == g.freed
    ensures Releases(s, i) <==> Underruns(s, g, i)
  {
    var seen := g.c[i];
    assert ReceiverKnows(s, g, i);
    if Releases(s, i) && g.freed < seen.freed + s.cap {
      SameUnlessRound(seen.freed, g.freed, s.cap);
    }
  }

  /** An operation leaves the bounds exactly if it is bad. */
  lemma {:induction false} LeavesIff(s: Crowd, g: Counts, e: Access)
    requires Consistent(s, g) && InBounds(s, g) && Allowed(s, e)
    ensures InBounds(Do(s, e), Tell(s, g, e)) <==> !Bad(s, g, e)
  {
    match e
    case DoClaim(i) =>
      if g.put == g.freed + s.cap - 1 {
        ClaimAtFull(s, g, i);
      }
    case DoRelease(i) =>
      if g.put == g.freed {
        ReleaseAtEmpty(s, g, i);
      }
    case _ =>
  }

  lemma {:induction false} SendersKeep(s: Crowd, g: Counts, e: Access, i: nat)
    requires Consistent(s, g) && InBounds(s, g) && Allowed(s, e) && i < |s.p|
    ensures SenderKnows(Do(s, e), Tell(s, g, e), i)
  {
    assert SenderKnows(s, g, i);
  }

  lemma {:induction false} ReceiversKeep(s: Crowd, g: Counts, e: Access, i: nat)
    requires Consistent(s, g) && InBounds(s, g) && Allowed(s, e) && i < |s.c|
    ensures ReceiverKnows(Do(s, e), Tell(s, g, e), i)
  {
    assert ReceiverKnows(s, g, i);
  }

  /** Within the bounds, what the threads know stays true of the past. */
  lemma {:induction false} AccessKeeps(s: Crowd, g: Counts, e: Access)
    requires Consistent(s, g) && InBounds(s, g) && Allowed(s, e)
    ensures Consistent(Do(s, e), Tell(s, g, e))
  {
    var r, k := Do(s, e), Tell(s, g, e);
    SlotAfter(g.put, s.cap);
    SlotAfter(g.freed, s.cap);
    forall i | 0 <= i < |r.p| ensures SenderKnows(r, k, i) {
      SendersKeep(s, g, e, i);
    }
    forall i | 0 <= i < |r.c| ensures ReceiverKnows(r, k, i) {
      ReceiversKeep(s, g, e, i);
    }
  }

  // --------------------------------------------------------------------- runs

  predicate Feasible(s: Crowd, run: seq<Access>)
    decreases run
  {
    run == [] || (Allowed(s, run[0]) && Feasible(Do(s, run[0]), run[1..]))
  }

  /** Every state of the run is within the bounds. */
  ghost predicate StaysInBounds(s: Crowd, g: Counts, run: seq<Access>)
    requires Feasible(s, run) && |g.p| == |s.p| && |g.c| == |s.c|
    decreases run
  {
    InBounds(s, g) && (run == [] || StaysInBounds(Do(s, run[0]), Tell(s, g, run[0]), run[1..]))
  }

  ghost predicate NoneBad(s: Crowd, g: Counts, run: seq<Access>)
    requires Feasible(s, run) && |g.p| == |s.p| && |g.c| == |s.c|
    decreases run
  {
    run == [] || (!Bad(s, g, run[0]) && NoneBad(Do(s, run[0]), Tell(s, g, run[0]), run[1..]))
  }

  lemma {:induction false} StaysIff(s: Crowd, g: Counts, run: seq<Access>)
    requires Consistent(s, g) && InBounds(s, g) && Feasible(s, run)
    ensures StaysInBounds(s, g, run) <==> NoneBad(s, g, run)
    decreases run
  {
    if run != [] {
      var r, k := Do(s, run[0]), Tell(s, g, run[0]);
      LeavesIff(s, g, run[0]);
      AccessKeeps(s, g, run[0]);
      if InBounds(r, k) {
        StaysIff(r, k, run[1..]);
      }
    }
  }

  /**
   Any number of producers and consumers, any interleaving: the slots in use stay between 0 and
   `cap - 1` exactly if no claim goes through at a full ring, nor a release at an empty one, after the
   position it compares has gone all the way round since it was loaded.
   */
  lemma {:induction false} CrowdOccupancy(cap: nat, producers: nat, consumers: nat, run: seq<Access>)
    requires cap > 0 && Feasible(Beginning(cap, producers, consumers), run)
    ensures var s, g := Beginning(cap, producers, consumers), Nothing(producers, consumers);
            StaysInBounds(s, g, run) <==> NoneBad(s, g, run)
  {
    BeginningConsistent(cap, producers, consumers);
    StaysIff(Beginning(cap, producers, consumers), Nothing(producers, consumers), run);
  }

  // ------------------------------------------------------------ a bad claim

  function Reached(s: Crowd, g: Counts, run: seq<Access>): (Crowd, Counts)
    requires Feasible(s, run) && |g.p| == |s.p| && |g.c| == |s.c|
    decreases run
  {
    if run == [] then (s, g) else Reached(Do(s, run[0]), Tell(s, g, run[0]), run[1..])
  }

  /** Two slots, two producers and a consumer. */
  function Trio(head: nat, tail: nat, p: Sender, q: Sender, c: Receiver): Crowd {
    Crowd(2, head, tail, [p, q], [c])
  }

  function Tally(put: nat, freed: nat, p: Seen, q: Seen, c: Seen): Counts {
    Counts(put, freed, [p, q], [c])
  }

  /** The first producer loads, and claims after the second has enqueued twice and the consumer taken once. */
  const ROUND: seq<Access> :=
    [SeeHead(0), SeeTail(0), SeeHead(1), SeeTail(1), DoClaim(1), DoStore(1), AskTail(0), AskHead(0), DoRelease(0),
     SeeHead(1), SeeTail(1), DoClaim(1), DoClaim(0)]

  lemma StepOn(s: Crowd, g: Counts, i: nat, r: Crowd, k: Counts)
    requires i < |ROUND| && Allowed(s, ROUND[i]) && |g.p| == |s.p| && |g.c| == |s.c|
    requires r == Do(s, ROUND[i]) && k == Tell(s, g, ROUND[i]) && Feasible(r, ROUND[i + 1..])
    ensures Feasible(s, ROUND[i..]) && Reached(s, g, ROUND[i..]) == Reached(r, k, ROUND[i + 1..])
  {
    assert ROUND[i..][0] == ROUND[i] && ROUND[i..][1..] == ROUND[i + 1..];
  }

  lemma Pairs()
    ensures forall x: Sender, y, z :: [x, y][0 := z] == [z, y] && [x, y][1 := z] == [x, z]
    ensures forall x: Seen, y, z :: [x, y][0 := z] == [z, y] && [x, y][1 := z] == [x, z]
    ensures (forall x: Receiver, z :: [x][0 := z] == [z]) && forall x: Seen, z :: [x][0 := z] == [z]
  {
  }

  /** What `ROUND` comes to after its first `i` accesses. */
  function Stage(i: nat): (Crowd, Counts)
    requires i <= |ROUND|
  {
    match i
    case 0 => (Trio(0, 0, Idle, Idle, Waiting), Tally(0, 0, Seen(0, 0), Seen(0, 0), Seen(0, 0)))
    case 1 => (Trio(0, 0, Head(0), Idle, Waiting), Tally(0, 0, Seen(0, 0), Seen(0, 0), Seen(0, 0)))
    case 2 => (Trio(0, 0, Both(0, 0), Idle, Waiting), Tally(0, 0, Seen(0, 0), Seen(0, 0), Seen(0, 0)))
    case 3 => (Trio(0, 0, Both(0, 0), Head(0), Waiting), Tally(0, 0, Seen(0, 0), Seen(0, 0), Seen(0, 0)))
    case 4 => (Trio(0, 0, Both(0, 0), Both(0, 0), Waiting), Tally(0, 0, Seen(0, 0), Seen(0, 0), Seen(0, 0)))
    case 5 => (Trio(1, 0, Both(0, 0), Filling(1), Waiting), Tally(1, 0, Seen(0, 0), Seen(0, 0), Seen(0, 0)))
    case 6 => (Trio(1, 0, Both(0, 0), Idle, Waiting), Tally(1, 0, Seen(0, 0), Seen(0, 0), Seen(0, 0)))
    case 7 => (Trio(1, 0, Both(0, 0), Idle, First(0)), Tally(1, 0, Seen(0, 0), Seen(0, 0), Seen(0, 0)))
    case 8 => (Trio(1, 0, Both(0, 0), Idle, Known(0, 1)), Tally(1, 0, Seen(0, 0), Seen(0, 0), Seen(1, 0)))
    case 9 => (Trio(1, 1, Both(0, 0), Idle, Reading(1)), Tally(1, 1, Seen(0, 0), Seen(0, 0), Seen(1, 0)))
    case 10 => (Trio(1, 1, Both(0, 0), Head(1), Reading(1)), Tally(1, 1, Seen(0, 0), Seen(1, 0), Seen(1, 0)))
    case 11 => (Trio(1, 1, Both(0, 0), Both(1, 1), Reading(1)), Tally(1, 1, Seen(0, 0), Seen(1, 1), Seen(1, 0)))
    case 12 => (Trio(0, 1, Both(0, 0), Filling(0), Reading(1)), Tally(2, 1, Seen(0, 0), Seen(1, 1), Seen(1, 0)))
    case _ => (Trio(1, 1, Filling(1), Filling(0), Reading(1)), Tally(3, 1, Seen(0, 0), Seen(1, 1), Seen(1, 0)))
  }

  lemma StageOn(i: nat)
    requires i < |ROUND|
    ensures Follows(i)
  {
    if i < 4 {
      FirstStages(i);
    } else if i < 9 {
      MiddleStages(i);
    } else {
      LastStages(i);
    }
  }

  ghost predicate Follows(i: nat)
    requires i < |ROUND|
  {
    var s, g, r, k := Stage(i).0, Stage(i).1, Stage(i + 1).0, Stage(i + 1).1;
    && Allowed(s, ROUND[i]) && |g.p| == |s.p| && |g.c| == |s.c|
    && r == Do(s, ROUND[i]) && k == Tell(s, g, ROUND[i])
  }

  lemma FirstStages(i: nat)
    requires i < 4
    ensures Follows(i)
  {
    Pairs();
  }

  lemma MiddleStages(i: nat)
    requires 4 <= i < 9
    ensures Follows(i)
  {
    Pairs();
  }

  lemma LastStages(i: nat)
    requires 9 <= i < |ROUND|
    ensures Follows(i)
  {
    Pairs();
  }

  lemma {:induction false} RoundFrom(i: nat)
    requires i <= |ROUND|
    ensures Feasible(Stage(i).0, ROUND[i..]) && |Stage(i).1.p| == |Stage(i).0.p| && |Stage(i).1.c| == |Stage(i).0.c|
    ensures Reached(Stage(i).0, Stage(i).1, ROUND[i..]) == Stage(|ROUND|)
    decreases |ROUND| - i
  {
    if i < |ROUND| {
      StageOn(i);
      RoundFrom(i + 1);
      StepOn(Stage(i).0, Stage(i).1, i, Stage(i + 1).0, Stage(i + 1).1);
    }
  }

  /**
   A producer that waits long enough between its loads and its claim gets the slot that was given back
   last: both positions are then the same, and the ring looks empty while two values are in it.
   */
  lemma {:induction false} ClaimAfterRound(s: Crowd, g: Counts, run: seq<Access>)
    requires s == Beginning(2, 2, 1) && g == Nothing(2, 1) && run == ROUND
    ensures Feasible(s, run)
    ensures var r := Reached(s, g, run); r.0.head == r.0.tail && r.1.put - r.1.freed == 2
  {
    AtFirst(s, g);
    RoundFrom(0);
    assert ROUND[0..] == run;
    AtLast();
  }

  lemma AtFirst(s: Crowd, g: Counts)
    requires s == Beginning(2, 2, 1) && g == Nothing(2, 1)
    ensures s == Stage(0).0 && g == Stage(0).1
  {
  }

  lemma AtLast()
    ensures var r := Stage(|ROUND|); r.0.head == r.0.tail && r.1.put - r.1.freed == 2
  {
  }
}
