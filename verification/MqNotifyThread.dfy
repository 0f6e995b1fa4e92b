/** Message queue notification by threads: every notification starts a thread that
    registers again and then drains the queue, while other threads may still drain. */
module MqNotifyThread {
  import opened Runs

  /** Where a thread is: about to register, draining, or finished. The main thread
      does the same before it pauses. */
  datatype Pc = Setup | Drain | Done

  /** `failed` is set when mq_notify() finds a registration in place. */
  datatype State = State(queue: seq<int>, registered: bool, threads: seq<Pc>,
                         arrived: seq<int>, received: seq<int>, failed: bool)

  datatype Step = Arrive(msg: int, pos: nat) | Register(i: nat) | Receive(i: nat) | Finish(i: nat)

  predicate Init(s: State) {
    !s.registered && s.threads == [Setup] && s.arrived == s.queue && s.received == [] && !s.failed
  }

  predicate Enabled(s: State, a: Step) {
    && !s.failed
    && match a
       case Arrive(_, pos) => pos <= |s.queue|
       case Register(i) => i < |s.threads| && s.threads[i] == Setup
       case Receive(i) => i < |s.threads| && s.threads[i] == Drain && s.queue != []
       case Finish(i) => i < |s.threads| && s.threads[i] == Drain && s.queue == []
  }

  /** A message that arrives in an empty queue uses up the registration and starts a
      thread. Its place in the queue depends on its priority. */
  function Apply(s: State, a: Step): State
    requires Enabled(s, a)
  {
    match a
    case Arrive(m, pos) =>
      var s1 := s.(queue := s.queue[..pos] + [m] + s.queue[pos..], arrived := s.arrived + [m]);
      if s.queue == [] && s.registered then s1.(registered := false, threads := s.threads + [Setup]) else s1
    case Register(i) =>
      if s.registered then s.(failed := true)
      else s.(registered := true, threads := s.threads[i := Drain])
    case Receive(i) => s.(queue := s.queue[1..], received := s.received + [s.queue[0]])
    case Finish(i) => s.(threads := s.threads[i := Done])
  }

  ghost predicate Next(s: State, s': State) {
    exists a :: Enabled(s, a) && s' == Apply(s, a)
  }

  function IsSetup(p: Pc): int {
    if p == Setup then 1 else 0
  }

  function IsActive(p: Pc): int {
    if p == Done then 0 else 1
  }

  /** One registration or one thread about to register; no message without a thread that
      will drain it; every message in the queue or received, and once. */
  ghost predicate Inv(s: State) {
    && !s.failed
    && (if s.registered then 1 else 0) + Sum(s.threads, IsSetup) == 1
    && (s.queue != [] ==> 0 < Sum(s.threads, IsActive))
    && multiset(s.arrived) == multiset(s.received) + multiset(s.queue)
  }

  lemma SetupIsActive(threads: seq<Pc>)
    requires 0 < Sum(threads, IsSetup)
    ensures 0 < Sum(threads, IsActive)
  {
    var i := SumPositive(threads, IsSetup);
    SumAtLeast(threads, i, IsActive);
  }

  lemma ArriveKeeps(s: State, m: int, pos: nat)
    requires Inv(s) && Enabled(s, Arrive(m, pos))
    ensures Inv(Apply(s, Arrive(m, pos)))
  {
    var s' := Apply(s, Arrive(m, pos));
    InsertMultiset(s.queue, pos, m);
    SumAppend(s.threads, Setup, IsSetup);
    SumAppend(s.threads, Setup, IsActive);
    if s.queue == [] {
      SetupIsActive(s'.threads);
    }
  }

  lemma ReceiveKeeps(s: State, i: nat)
    requires Inv(s) && Enabled(s, Receive(i))
    ensures Inv(Apply(s, Receive(i)))
  {
    TakeMultiset(s.queue, s.received);
  }

  lemma StepKeeps(s: State, a: Step)
    requires Inv(s) && Enabled(s, a)
    ensures Inv(Apply(s, a))
  {
    match a
    case Arrive(m, pos) => ArriveKeeps(s, m, pos);
    case Receive(i) => ReceiveKeeps(s, i);
    case Register(i) =>
      SumAtLeast(s.threads, i, IsSetup);
      SumUpdate(s.threads, i, Drain, IsSetup);
      SumUpdate(s.threads, i, Drain, IsActive);
    case Finish(i) =>
      SumUpdate(s.threads, i, Done, IsSetup);
  }

  lemma InitHolds(s: State)
    requires Init(s)
    ensures Inv(s)
  {
    assert Sum([Setup], IsSetup) == Sum([], IsSetup) + 1 && Sum([Setup], IsActive) == Sum([], IsActive) + 1 by {
      SumAppend([], Setup, IsSetup);
      SumAppend([], Setup, IsActive);
      assert [] + [Setup] == [Setup];
    }
  }

  /** In every interleaving, registering never fails, and no message is stranded or lost. */
  lemma NoMessageStranded(run: seq<State>, i: nat)
    requires IsRun(Init, Next, run) && i < |run|
    ensures Inv(run[i])
  {
    forall s | Init(s) ensures Inv(s) {
      InitHolds(s);
    }
    forall s, s' | Inv(s) && Next(s, s') ensures Inv(s') {
      var a :| Enabled(s, a) && s' == Apply(s, a);
      StepKeeps(s, a);
    }
    Throughout(Init, Next, Inv, run, i);
  }

  /** The steps that threads have left, when nothing more arrives. */
  ghost function Work(s: State): int {
    Sum(s.threads, IsSetup) + Sum(s.threads, IsActive) + |s.queue|
  }

  /** Every step of a thread reduces the work. */
  lemma ThreadsProgress(s: State, a: Step)
    requires Inv(s) && Enabled(s, a) && !a.Arrive?
    ensures 0 <= Work(Apply(s, a)) < Work(s)
  {
    match a
    case Register(i) =>
      SumAtLeast(s.threads, i, IsSetup);
      SumUpdate(s.threads, i, Drain, IsSetup);
      SumUpdate(s.threads, i, Drain, IsActive);
      SumNat(s.threads[i := Drain], IsActive);
    case Receive(i) =>
      SumNat(s.threads, IsActive);
    case Finish(i) =>
      SumUpdate(s.threads, i, Done, IsSetup);
      SumUpdate(s.threads, i, Done, IsActive);
      SumNat(s.threads[i := Done], IsActive);
      SumNat(s.threads[i := Done], IsSetup);
  }

  /** When no thread can move, everything that arrived has been received, and the next
      message will be notified. */
  lemma QuietMeansDrained(s: State)
    requires Inv(s) && forall a :: Enabled(s, a) ==> a.Arrive?
    ensures s.queue == [] && s.registered && multiset(s.received) == multiset(s.arrived)
  {
    if 0 < Sum(s.threads, IsActive) {
      var i := SumPositive(s.threads, IsActive);
      assert Enabled(s, Register(i)) || Enabled(s, Receive(i)) || Enabled(s, Finish(i));
    }
    if 0 < Sum(s.threads, IsSetup) {
      var i := SumPositive(s.threads, IsSetup);
      assert Enabled(s, Register(i));
    }
  }
}
