/** Threads that increment a global variable under a semaphore. */
module SemIncrement {
  import opened Runs

  const INT_MAX: int := 0x7FFF_FFFF

  /** The points of the loop body between two accesses to shared state. */
  datatype Pc = Waiting | Loading | Incrementing | Storing | Posting

  /** `j` counts the finished iterations. */
  datatype Thread = Thread(pc: Pc, loc: int, j: nat, loops: nat)

  /** `overflow` is set when an increment leaves the range of int. */
  datatype State = State(glob: int, sem: nat, threads: seq<Thread>, overflow: bool)

  predicate Init(s: State) {
    && s.glob == 0 && s.sem == 1 && !s.overflow
    && forall i :: 0 <= i < |s.threads| ==> s.threads[i].pc == Waiting && s.threads[i].j == 0
  }

  predicate Enabled(s: State, i: nat) {
    && i < |s.threads| && s.threads[i].j < s.threads[i].loops
    && (s.threads[i].pc == Waiting ==> 0 < s.sem)
  }

  function Apply(s: State, i: nat): State
    requires Enabled(s, i)
  {
    var t := s.threads[i];
    match t.pc
    case Waiting => s.(sem := s.sem - 1, threads := s.threads[i := t.(pc := Loading)])
    case Loading => s.(threads := s.threads[i := t.(pc := Incrementing, loc := s.glob)])
    case Incrementing =>
      s.(threads := s.threads[i := t.(pc := Storing, loc := t.loc + 1)], overflow := s.overflow || t.loc == INT_MAX)
    case Storing => s.(glob := t.loc, threads := s.threads[i := t.(pc := Posting)])
    case Posting => s.(sem := s.sem + 1, threads := s.threads[i := t.(pc := Waiting, j := t.j + 1)])
  }

  ghost predicate Next(s: State, s': State) {
    exists i :: Enabled(s, i) && s' == Apply(s, i)
  }

  function Inside(t: Thread): int {
    if t.pc == Waiting then 0 else 1
  }

  /** Increments that the thread has stored. */
  function Stored(t: Thread): int {
    t.j + if t.pc == Posting then 1 else 0
  }

  function Loops(t: Thread): int {
    t.loops
  }

  ghost predicate ThreadOk(s: State, t: Thread) {
    && t.j <= t.loops && (t.pc != Waiting ==> t.j < t.loops)
    && (t.pc == Incrementing ==> t.loc == s.glob)
    && (t.pc == Storing ==> t.loc == s.glob + 1)
  }

  /** At most one thread is inside, its copy is up to date, and the variable counts the
      increments stored. */
  ghost predicate Inv(s: State) {
    && s.sem + Sum(s.threads, Inside) == 1
    && s.glob == Sum(s.threads, Stored)
    && (forall i :: 0 <= i < |s.threads| ==> ThreadOk(s, s.threads[i]))
  }

  /** Two threads inside would make the sum two. */
  lemma {:induction false} AloneInside(threads: seq<Thread>, i: nat, j: nat)
    requires i < |threads| && j < |threads| && i != j && Sum(threads, Inside) <= 1 && threads[i].pc != Waiting
    ensures threads[j].pc == Waiting
  {
    var t := threads[i := threads[i].(pc := Waiting)];
    SumUpdate(threads, i, t[i], Inside);
    SumAtLeast(t, j, Inside);
  }

  lemma StepKeeps(s: State, i: nat)
    requires Inv(s) && Enabled(s, i)
    ensures Inv(Apply(s, i))
  {
    var s' := Apply(s, i);
    assert ThreadOk(s, s.threads[i]);
    SumUpdate(s.threads, i, s'.threads[i], Inside);
    SumUpdate(s.threads, i, s'.threads[i], Stored);
    forall j | 0 <= j < |s'.threads| ensures ThreadOk(s', s'.threads[j]) {
      assert ThreadOk(s, s.threads[j]);
      if j != i && s.threads[i].pc != Waiting {
        AloneInside(s.threads, i, j);
      }
    }
  }

  lemma MutualExclusion(run: seq<State>, i: nat)
    requires IsRun(Init, Next, run) && i < |run|
    ensures Inv(run[i])
  {
    forall s | Init(s) ensures Inv(s) {
      SumZero(s.threads, Inside);
      SumZero(s.threads, Stored);
    }
    forall s, s' | Inv(s) && Next(s, s') ensures Inv(s') {
      var a: nat :| Enabled(s, a) && s' == Apply(s, a);
      StepKeeps(s, a);
    }
    Throughout(Init, Next, Inv, run, i);
  }

  predicate Finished(s: State) {
    forall i :: 0 <= i < |s.threads| ==> s.threads[i].j == s.threads[i].loops
  }

  /** When every thread has finished, no increment was lost. */
  lemma NoLostIncrement(run: seq<State>, i: nat)
    requires IsRun(Init, Next, run) && i < |run| && Finished(run[i])
    ensures run[i].glob == Sum(run[i].threads, Loops) && run[i].sem == 1
  {
    MutualExclusion(run, i);
    var s := run[i];
    forall j | 0 <= j < |s.threads| ensures Stored(s.threads[j]) == Loops(s.threads[j]) && Inside(s.threads[j]) == 0 {
      assert ThreadOk(s, s.threads[j]);
    }
    SumEqual(s.threads, Stored, s.threads, Loops);
    SumZero(s.threads, Inside);
  }

  // ----- No overflow --------------------------------------------------------

  lemma {:induction false} SumBound(threads: seq<Thread>)
    requires forall j :: 0 <= j < |threads| ==>
               threads[j].j <= threads[j].loops && (threads[j].pc != Waiting ==> threads[j].j < threads[j].loops)
    ensures Sum(threads, Stored) <= Sum(threads, Loops)
    decreases |threads|
  {
    if threads != [] {
      SumBound(threads[..|threads| - 1]);
    }
  }

  /** A thread with an increment still to store leaves room for it. */
  lemma RoomForOne(s: State, i: nat)
    requires Inv(s) && i < |s.threads| && s.threads[i].pc == Incrementing
    ensures s.glob < Sum(s.threads, Loops)
  {
    assert ThreadOk(s, s.threads[i]);
    var t := s.threads[i].(pc := Posting);
    SumUpdate(s.threads, i, t, Stored);
    SumUpdate(s.threads, i, t, Loops);
    forall j | 0 <= j < |s.threads| ensures ThreadOk(s, s.threads[j]) {}
    SumBound(s.threads[i := t]);
  }

  ghost predicate InRange(s: State) {
    Inv(s) && !s.overflow && Sum(s.threads, Loops) <= 0x7FFF_FFFF
  }

  ghost predicate FittingInit(s: State) {
    Init(s) && Sum(s.threads, Loops) <= 0x7FFF_FFFF
  }

  /** If the total fits in an int, no increment ever leaves the range, at any point. */
  lemma NeverOverflows(run: seq<State>, i: nat)
    requires IsRun(FittingInit, Next, run) && i < |run|
    ensures InRange(run[i])
  {
    forall s | FittingInit(s) ensures InRange(s) {
      SumZero(s.threads, Inside);
      SumZero(s.threads, Stored);
    }
    forall s, s' | InRange(s) && Next(s, s') ensures InRange(s') {
      var a: nat :| Enabled(s, a) && s' == Apply(s, a);
      StepKeeps(s, a);
      SumUpdate(s.threads, a, s'.threads[a], Loops);
      assert ThreadOk(s, s.threads[a]);
      if s.threads[a].pc == Incrementing {
        RoomForOne(s, a);
      }
    }
    Throughout(FittingInit, Next, InRange, run, i);
  }

  /** Until all have finished, some thread can move. */
  lemma NeverStuck(s: State)
    requires Inv(s) && !Finished(s)
    ensures exists i :: Enabled(s, i)
  {
    var i :| 0 <= i < |s.threads| && s.threads[i].j != s.threads[i].loops;
    assert ThreadOk(s, s.threads[i]);
    if s.sem == 0 {
      var k := SumPositive(s.threads, Inside);
      assert ThreadOk(s, s.threads[k]) && Enabled(s, k);
    } else {
      assert Enabled(s, i);
    }
  }
}
