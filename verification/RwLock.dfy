/** The reader-writer lock as a protocol of atomic loads and compare-and-sets on one 32-bit counter. */
module RwLock {

  const MAX: nat := 0xFFFFFFFF

  /** `Wants...` is the top of a spin loop, `Saw...` is after its load. */
  datatype Phase = Idle | WantsRead | SawRead(x: nat) | Reading | WantsWrite | SawWrite(x: nat) | Writing

  /** The counter, and where each thread stands. */
  datatype State = State(cnt: nat, threads: seq<Phase>)

  datatype Step =
    | CallRead(t: nat) | LoadRead(t: nat) | SetRead(t: nat) | EndRead(t: nat)
    | CallWrite(t: nat) | LoadWrite(t: nat) | SetWrite(t: nat) | EndWrite(t: nat)

  predicate Enabled(s: State, e: Step) {
    && e.t < |s.threads|
    && match e
       case CallRead(t) => s.threads[t] == Idle
       case LoadRead(t) => s.threads[t] == WantsRead
       case SetRead(t) => s.threads[t].SawRead?
       case EndRead(t) => s.threads[t] == Reading
       case CallWrite(t) => s.threads[t] == Idle
       case LoadWrite(t) => s.threads[t] == WantsWrite
       case SetWrite(t) => s.threads[t].SawWrite?
       case EndWrite(t) => s.threads[t] == Writing
  }

  /** Increments and decrements wrap. */
  function Word(x: int): nat {
    x % (MAX + 1)
  }

  function To(s: State, t: nat, p: Phase): State
    requires t < |s.threads|
  {
    State(s.cnt, s.threads[t := p])
  }

  function Next(s: State, e: Step): State
    requires Enabled(s, e)
  {
    var t := e.t;
    match e
    case CallRead(_) => To(s, t, WantsRead)
    case LoadRead(_) => To(s, t, SawRead(s.cnt))
    case SetRead(_) =>
      var x := s.threads[t].x;
      if x == MAX || s.cnt != x then To(s, t, WantsRead)
      else State(Word(x + 1), s.threads[t := Reading])
    case EndRead(_) => State(Word(s.cnt - 1), s.threads[t := Idle])
    case CallWrite(_) => To(s, t, WantsWrite)
    case LoadWrite(_) => To(s, t, SawWrite(s.cnt))
    case SetWrite(_) =>
      if s.threads[t].x != 0 || s.cnt != 0 then To(s, t, WantsWrite)
      else State(MAX, s.threads[t := Writing])
    case EndWrite(_) => State(Word(s.cnt + 1), s.threads[t := Idle])
  }

  predicate Possible(s: State, run: seq<Step>)
    decreases run
  {
    run == [] || (Enabled(s, run[0]) && Possible(Next(s, run[0]), run[1..]))
  }

  function Run(s: State, run: seq<Step>): State
    requires Possible(s, run)
    decreases run
  {
    if run == [] then s else Run(Next(s, run[0]), run[1..])
  }

  function Start(n: nat): State {
    State(0, seq(n, i => Idle))
  }

  // ------------------------------------------------------------------ holders

  function Count(threads: seq<Phase>, p: Phase): nat {
    if threads == [] then 0 else Count(threads[..|threads| - 1], p) + if threads[|threads| - 1] == p then 1 else 0
  }

  function Readers(s: State): nat {
    Count(s.threads, Reading)
  }

  function Writers(s: State): nat {
    Count(s.threads, Writing)
  }

  lemma {:induction false} CountUpdate(threads: seq<Phase>, p: Phase, t: nat, q: Phase)
    requires t < |threads|
    ensures Count(threads[t := q], p) ==
              Count(threads, p) - (if threads[t] == p then 1 else 0) + if q == p then 1 else 0
  {
    var n := |threads| - 1;
    if t == n {
      assert threads[t := q][..n] == threads[..n];
    } else {
      assert threads[t := q][..n] == threads[..n][t := q];
      CountUpdate(threads[..n], p, t, q);
    }
  }

  /** Two threads in one phase count as two. */
  lemma {:induction false} CountTwo(threads: seq<Phase>, i: nat, j: nat)
    requires i < j < |threads|
    ensures threads[i] == threads[j] ==> Count(threads, threads[i]) >= 2
    ensures Count(threads, threads[i]) >= 1 && Count(threads, threads[j]) >= 1
  {
    var p := if threads[i] == Idle then WantsRead else Idle;
    var q := if threads[j] == Idle then WantsRead else Idle;
    CountUpdate(threads, threads[i], i, p);
    CountUpdate(threads, threads[j], j, q);
    CountUpdate(threads[i := p], threads[i], j, p);
  }

  // ------------------------------------------------------------------- safety

  /** A single writer and no reader, or the counter is the exact number of readers. */
  predicate Safe(s: State) {
    if Writers(s) == 0 then s.cnt == Readers(s) <= MAX
    else Writers(s) == 1 && Readers(s) == 0 && s.cnt == MAX
  }

  lemma {:induction false} StepKeepsSafe(s: State, e: Step)
    requires Safe(s) && Enabled(s, e)
    ensures Safe(Next(s, e))
  {
    var p := Next(s, e).threads[e.t];
    CountUpdate(s.threads, Reading, e.t, p);
    CountUpdate(s.threads, Writing, e.t, p);
  }

  lemma {:induction false} StartCounts(n: nat, p: Phase)
    requires p != Idle
    ensures Count(Start(n).threads, p) == 0
  {
    if n > 0 {
      assert Start(n).threads[..n - 1] == Start(n - 1).threads;
      StartCounts(n - 1, p);
    }
  }

  lemma {:induction false} RunKeepsSafe(s: State, run: seq<Step>)
    requires Safe(s) && Possible(s, run)
    ensures Safe(Run(s, run))
    decreases run
  {
    if run != [] {
      StepKeepsSafe(s, run[0]);
      RunKeepsSafe(Next(s, run[0]), run[1..]);
    }
  }

  /** Any number of threads in any interleaving: no two threads hold the lock unless both read. */
  lemma {:induction false} MutualExclusion(n: nat, run: seq<Step>, i: nat, j: nat)
    requires Possible(Start(n), run) && i < j < |Run(Start(n), run).threads|
    ensures var s := Run(Start(n), run);
            && (s.threads[i] == Writing ==> s.threads[j] != Reading && s.threads[j] != Writing)
            && (s.threads[j] == Writing ==> s.threads[i] != Reading && s.threads[i] != Writing)
  {
    StartCounts(n, Reading);
    StartCounts(n, Writing);
    RunKeepsSafe(Start(n), run);
    CountTwo(Run(Start(n), run).threads, i, j);
  }

  /**
   The counter after any run. It is `MAX` under a writer, but not only then: the same value stands
   for a full set of readers.
   */
  lemma {:induction false} CounterMeaning(n: nat, run: seq<Step>)
    requires Possible(Start(n), run)
    ensures var s := Run(Start(n), run);
            && s.cnt == (if Writers(s) > 0 then 0xFFFFFFFF else Readers(s))
            && (s.cnt == 0xFFFFFFFF <==> Writers(s) == 1 || Readers(s) == 0xFFFFFFFF)
            && (s.cnt == 0 <==> Writers(s) == 0 && Readers(s) == 0)
  {
    StartCounts(n, Reading);
    StartCounts(n, Writing);
    RunKeepsSafe(Start(n), run);
  }

  // ----------------------------------------------------------------- progress

  /** The compare-and-set of a writer goes through exactly if it saw 0 and nobody holds the lock. */
  lemma {:induction false} WriterEntersIff(s: State, t: nat)
    requires Safe(s) && t < |s.threads| && s.threads[t].SawWrite?
    ensures var r := Next(s, SetWrite(t));
            && (r.threads[t] == Writing <==> s.threads[t].x == 0 && Readers(s) == 0 && Writers(s) == 0)
            && (r.threads[t] != Writing ==> r == State(s.cnt, s.threads[t := WantsWrite]))
  {
  }

  /** That of a reader, exactly if there is no writer, room for one more, and as many readers as it saw. */
  lemma {:induction false} ReaderEntersIff(s: State, t: nat)
    requires Safe(s) && t < |s.threads| && s.threads[t].SawRead?
    ensures var r := Next(s, SetRead(t));
            && (r.threads[t] == Reading <==>
                     Writers(s) == 0 && Readers(s) < 0xFFFFFFFF && s.threads[t].x == Readers(s))
            && (r.threads[t] != Reading ==> r == State(s.cnt, s.threads[t := WantsRead]))
  {
  }

  /** An unlock takes exactly one holder away. */
  lemma {:induction false} Unlocks(s: State, t: nat)
    requires Safe(s) && t < |s.threads|
    ensures s.threads[t] == Reading ==>
              var r := Next(s, EndRead(t)); r.threads == s.threads[t := Idle] && r.cnt == Readers(s) - 1 == Readers(r)
    ensures s.threads[t] == Writing ==>
              var r := Next(s, EndWrite(t)); r.threads == s.threads[t := Idle] && r.cnt == 0 && Writers(r) == 0
  {
    CountUpdate(s.threads, Reading, t, Idle);
    CountUpdate(s.threads, Writing, t, Idle);
  }

  /** All steps of the run are those of thread `t`. */
  ghost predicate Own(run: seq<Step>, t: nat) {
    forall i :: 0 <= i < |run| ==> run[i].t == t
  }

  lemma {:induction false} OthersStand(s: State, run: seq<Step>, t: nat)
    requires Possible(s, run) && Own(run, t) && t < |s.threads|
    ensures |Run(s, run).threads| == |s.threads| && Run(s, run).threads == s.threads[t := Run(s, run).threads[t]]
    decreases run
  {
    if run != [] {
      OthersStand(Next(s, run[0]), run[1..], t);
    }
  }

  /** A thread that waits to write, or has not called yet. */
  ghost predicate WaitsToWrite(s: State, t: nat) {
    t < |s.threads| && (s.threads[t].Idle? || s.threads[t].WantsWrite? || s.threads[t].SawWrite?)
  }

  ghost predicate WaitsToRead(s: State, t: nat) {
    t < |s.threads| && (s.threads[t].Idle? || s.threads[t].WantsRead? || s.threads[t].SawRead?)
  }

  ghost predicate Gets(s: State, t: nat, p: Phase, run: seq<Step>) {
    Own(run, t) && Possible(s, run) && t < |Run(s, run).threads| && Run(s, run).threads[t] == p
  }

  /** The loop from its top, with the load and the compare-and-set undisturbed. */
  lemma {:induction false} WriteTurn(s: State, t: nat)
    requires Safe(s) && t < |s.threads| && s.threads[t] == WantsWrite && Readers(s) == 0 && Writers(s) == 0
    ensures Gets(s, t, Writing, [LoadWrite(t), SetWrite(t)])
  {
    var run := [LoadWrite(t), SetWrite(t)];
    var s1 := Next(s, run[0]);
    var s2 := Next(s1, run[1]);
    assert run[1..] == [run[1]] && run[1..][1..] == [];
    assert Possible(s2, []) && Possible(s1, run[1..]) && Run(s1, run[1..]) == s2;
  }

  lemma {:induction false} ReadTurn(s: State, t: nat)
    requires Safe(s) && t < |s.threads| && s.threads[t] == WantsRead && Writers(s) == 0 && Readers(s) < MAX
    ensures Gets(s, t, Reading, [LoadRead(t), SetRead(t)])
  {
    var run := [LoadRead(t), SetRead(t)];
    var s1 := Next(s, run[0]);
    var s2 := Next(s1, run[1]);
    assert run[1..] == [run[1]] && run[1..][1..] == [];
    assert Possible(s2, []) && Possible(s1, run[1..]) && Run(s1, run[1..]) == s2;
  }

  /** A failed attempt leads back to the top of the loop. */
  lemma {:induction false} TurnAgain(s: State, t: nat, e: Step, p: Phase, run: seq<Step>)
    requires Enabled(s, e) && e.t == t && Gets(Next(s, e), t, p, run)
    ensures Gets(s, t, p, [e] + run)
  {
    assert ([e] + run)[1..] == run;
  }

  lemma {:induction false} WriterHasRun(s: State, t: nat) returns (run: seq<Step>)
    requires Safe(s) && WaitsToWrite(s, t) && Readers(s) == 0 && Writers(s) == 0
    ensures Gets(s, t, Writing, run)
  {
    run := [LoadWrite(t), SetWrite(t)];
    if s.threads[t] == WantsWrite {
      WriteTurn(s, t);
    } else if s.threads[t] == Idle {
      StepKeepsSafe(s, CallWrite(t));
      CountUpdate(s.threads, Reading, t, WantsWrite);
      CountUpdate(s.threads, Writing, t, WantsWrite);
      WriteTurn(Next(s, CallWrite(t)), t);
      TurnAgain(s, t, CallWrite(t), Writing, run);
      run := [CallWrite(t)] + run;
    } else {
      var r := Next(s, SetWrite(t));
      if r.threads[t] == Writing {
        run := [];
      } else {
        StepKeepsSafe(s, SetWrite(t));
        CountUpdate(s.threads, Reading, t, WantsWrite);
        CountUpdate(s.threads, Writing, t, WantsWrite);
        WriteTurn(r, t);
      }
      TurnAgain(s, t, SetWrite(t), Writing, run);
      run := [SetWrite(t)] + run;
    }
  }

  lemma {:induction false} ReaderHasRun(s: State, t: nat) returns (run: seq<Step>)
    requires Safe(s) && WaitsToRead(s, t) && Writers(s) == 0 && Readers(s) < MAX
    ensures Gets(s, t, Reading, run)
  {
    run := [LoadRead(t), SetRead(t)];
    if s.threads[t] == WantsRead {
      ReadTurn(s, t);
    } else if s.threads[t] == Idle {
      StepKeepsSafe(s, CallRead(t));
      CountUpdate(s.threads, Reading, t, WantsRead);
      CountUpdate(s.threads, Writing, t, WantsRead);
      ReadTurn(Next(s, CallRead(t)), t);
      TurnAgain(s, t, CallRead(t), Reading, run);
      run := [CallRead(t)] + run;
    } else {
      var r := Next(s, SetRead(t));
      if r.threads[t] == Reading {
        run := [];
      } else {
        StepKeepsSafe(s, SetRead(t));
        CountUpdate(s.threads, Reading, t, WantsRead);
        CountUpdate(s.threads, Writing, t, WantsRead);
        ReadTurn(r, t);
      }
      TurnAgain(s, t, SetRead(t), Reading, run);
      run := [SetRead(t)] + run;
    }
  }

  /** Left alone after any run, a thread that is to write gets the lock exactly if nobody holds it. */
  lemma {:induction false} WriterProgress(n: nat, before: seq<Step>, t: nat)
    requires Possible(Start(n), before) && WaitsToWrite(Run(Start(n), before), t)
    ensures var s := Run(Start(n), before);
            (exists run :: Gets(s, t, Writing, run)) <==> Readers(s) == 0 && Writers(s) == 0
  {
    var s := Run(Start(n), before);
    StartCounts(n, Reading);
    StartCounts(n, Writing);
    RunKeepsSafe(Start(n), before);
    if Readers(s) == 0 && Writers(s) == 0 {
      var run := WriterHasRun(s, t);
    }
    forall run | Gets(s, t, Writing, run) ensures Readers(s) == 0 && Writers(s) == 0 {
      RunKeepsSafe(s, run);
      OthersStand(s, run, t);
      CountUpdate(s.threads, Reading, t, Writing);
      CountUpdate(s.threads, Writing, t, Writing);
    }
  }

  /** A thread that is to read, exactly if there is no writer and room for one more. */
  lemma {:induction false} ReaderProgress(n: nat, before: seq<Step>, t: nat)
    requires Possible(Start(n), before) && WaitsToRead(Run(Start(n), before), t)
    ensures var s := Run(Start(n), before);
            (exists run :: Gets(s, t, Reading, run)) <==> Writers(s) == 0 && Readers(s) < 0xFFFFFFFF
  {
    var s := Run(Start(n), before);
    StartCounts(n, Reading);
    StartCounts(n, Writing);
    RunKeepsSafe(Start(n), before);
    if Writers(s) == 0 && Readers(s) < MAX {
      var run := ReaderHasRun(s, t);
    }
    forall run | Gets(s, t, Reading, run) ensures Writers(s) == 0 && Readers(s) < MAX {
      RunKeepsSafe(s, run);
      OthersStand(s, run, t);
      CountUpdate(s.threads, Reading, t, Reading);
      CountUpdate(s.threads, Writing, t, Reading);
    }
  }

  // --------------------------------------------------------------- saturation

  /** All threads below `k` read. */
  function Crowd(n: nat, k: nat): State
    requires k <= n && k <= MAX
  {
    State(k, seq(n, i => if i < k then Reading else Idle))
  }

  lemma {:induction false} Grow(n: nat, k: nat) returns (run: seq<Step>)
    requires k < n && k < MAX
    ensures Possible(Crowd(n, k), run) && Run(Crowd(n, k), run) == Crowd(n, k + 1)
  {
    run := [CallRead(k), LoadRead(k), SetRead(k)];
    var s0 := Crowd(n, k);
    var s1 := Next(s0, run[0]);
    var s2 := Next(s1, run[1]);
    var s3 := Next(s2, run[2]);
    assert s3.threads == Crowd(n, k + 1).threads;
    assert run[1..] == [run[1], run[2]] && run[1..][1..] == [run[2]];
    assert Possible(s3, []) && Possible(s2, [run[2]]) && Run(s2, [run[2]]) == s3;
    assert Possible(s1, run[1..]) && Run(s1, run[1..]) == s3;
  }

  lemma {:induction false} RunAppend(s: State, a: seq<Step>, b: seq<Step>)
    requires Possible(s, a) && Possible(Run(s, a), b)
    ensures Possible(s, a + b) && Run(s, a + b) == Run(Run(s, a), b)
    decreases a
  {
    if a == [] {
      assert a + b == b;
    } else {
      RunAppend(Next(s, a[0]), a[1..], b);
      assert (a + b)[1..] == a[1..] + b;
    }
  }

  lemma {:induction false} CrowdGathers(n: nat, k: nat) returns (run: seq<Step>)
    requires k <= n && k <= MAX
    ensures Possible(Start(n), run) && Run(Start(n), run) == Crowd(n, k)
    decreases k
  {
    if k == 0 {
      run := [];
      assert Start(n).threads == Crowd(n, 0).threads;
    } else {
      var a := CrowdGathers(n, k - 1);
      var b := Grow(n, k - 1);
      RunAppend(Start(n), a, b);
      run := a + b;
    }
  }

  /** The counter can read as write-locked although there are only readers. */
  lemma {:induction false} Saturation(n: nat) returns (run: seq<Step>)
    requires n >= MAX
    ensures Possible(Start(n), run)
    ensures var s := Run(Start(n), run); s.cnt == 0xFFFFFFFF && Writers(s) == 0 && Readers(s) == 0xFFFFFFFF
  {
    run := CrowdGathers(n, MAX);
    var s := Run(Start(n), run);
    assert s.threads[0] == Reading;
    CountUpdate(s.threads, Reading, 0, Idle);
    StartCounts(n, Reading);
    StartCounts(n, Writing);
    RunKeepsSafe(Start(n), run);
  }
}
