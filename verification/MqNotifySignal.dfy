/** Message queue notification by a signal whose handler sets a flag; the main loop
    tests the flag, clears it, registers again and drains the queue. */
module MqNotifySignal {
  import opened Runs

  /** The places in the main loop between two of its actions. */
  datatype Pc = Test | Clear | Register | Drain | Sleep

  datatype State = State(queue: seq<int>, registered: bool, pending: bool, gotSig: bool, pc: Pc,
                         arrived: seq<int>, received: seq<int>, failed: bool)

  /** A message arrives; the handler runs; or the main loop moves on. */
  datatype Step = Arrive(msg: int, pos: nat) | Handler | Main

  predicate Init(s: State) {
    !s.registered && !s.pending && s.gotSig && s.pc == Test && s.arrived == s.queue && s.received == [] && !s.failed
  }

  predicate Enabled(s: State, a: Step) {
    && !s.failed
    && match a
       case Arrive(_, pos) => pos <= |s.queue|
       case Handler => s.pending
       case Main => true
  }

  /** The signal is not queued: a second one that comes while it is pending is lost. */
  function Apply(s: State, a: Step): State
    requires Enabled(s, a)
  {
    match a
    case Arrive(m, pos) =>
      var s1 := s.(queue := s.queue[..pos] + [m] + s.queue[pos..], arrived := s.arrived + [m]);
      if s.queue == [] && s.registered then s1.(registered := false, pending := true) else s1
    case Handler => s.(pending := false, gotSig := true)
    case Main =>
      match s.pc
      case Test => s.(pc := if s.gotSig then Clear else Sleep)
      case Clear => s.(gotSig := false, pc := Register)
      case Register => if s.registered then s.(failed := true) else s.(registered := true, pc := Drain)
      case Drain =>
        if s.queue == [] then s.(pc := Sleep)
        else s.(queue := s.queue[1..], received := s.received + [s.queue[0]])
      case Sleep => s.(pc := Test)
  }

  ghost predicate Next(s: State, s': State) {
    exists a :: Enabled(s, a) && s' == Apply(s, a)
  }

  /** Exactly one of: registered, signal pending, flag set, flag cleared and about to
      register. So clearing the flag loses no signal, and no signal is merged away. */
  ghost predicate OneToken(s: State) {
    && !s.failed
    && Bit(s.registered) + Bit(s.pending) + Bit(s.gotSig) + Bit(s.pc == Register) == 1
    && (s.pc == Clear ==> s.gotSig)
    && (s.queue != [] ==> s.pending || s.gotSig || s.pc == Register || s.pc == Drain)
  }

  ghost predicate NothingLost(s: State) {
    multiset(s.arrived) == multiset(s.received) + multiset(s.queue)
  }

  ghost predicate Inv(s: State) {
    OneToken(s) && NothingLost(s)
  }

  lemma TokenKept(s: State, a: Step)
    requires OneToken(s) && Enabled(s, a)
    ensures OneToken(Apply(s, a))
  {
  }

  lemma ArrivalCounts(s: State, m: int, pos: nat)
    requires NothingLost(s) && Enabled(s, Arrive(m, pos))
    ensures NothingLost(Apply(s, Arrive(m, pos)))
  {
    InsertMultiset(s.queue, pos, m);
    assert multiset(s.arrived + [m]) == multiset(s.arrived) + multiset{m};
  }

  lemma ReceiptCounts(s: State)
    requires NothingLost(s) && Enabled(s, Main)
    ensures NothingLost(Apply(s, Main))
  {
    var s' := Apply(s, Main);
    if s.pc == Drain && s.queue != [] {
      TakeMultiset(s.queue, s.received);
      assert s'.queue == s.queue[1..] && s'.received == s.received + [s.queue[0]] && s'.arrived == s.arrived;
    } else {
      assert s'.queue == s.queue && s'.received == s.received && s'.arrived == s.arrived;
    }
  }

  lemma MessagesKept(s: State, a: Step)
    requires NothingLost(s) && Enabled(s, a)
    ensures NothingLost(Apply(s, a))
  {
    match a
    case Arrive(m, pos) => ArrivalCounts(s, m, pos);
    case Main => ReceiptCounts(s);
    case Handler =>
      assert Apply(s, a).queue == s.queue;
  }

  lemma StepKeeps(s: State, a: Step)
    requires Inv(s) && Enabled(s, a)
    ensures Inv(Apply(s, a))
  {
    TokenKept(s, a);
    MessagesKept(s, a);
  }

  /** In every interleaving, registering never finds itself busy, and a message in the
      queue always has a drain under way or signalled. */
  lemma NoMessageStranded(run: seq<State>, i: nat)
    requires IsRun(Init, Next, run) && i < |run|
    ensures Inv(run[i])
  {
    forall s, s' | Inv(s) && Next(s, s') ensures Inv(s') {
      var a :| Enabled(s, a) && s' == Apply(s, a);
      StepKeeps(s, a);
    }
    Throughout(Init, Next, Inv, run, i);
  }

  /** How many steps of the main loop there are until the queue is empty. */
  function Distance(s: State): nat {
    |s.queue| +
    if s.pc == Drain then 0
    else if s.pc == Register then 1
    else if s.pc == Clear then 2
    else if s.pc == Test then 3
    else 4
  }

  /** Once the signal has been delivered, every step of the main loop brings the
      queue one step closer to being empty. */
  lemma MainProgress(s: State)
    requires Inv(s) && s.queue != [] && !s.pending
    ensures Distance(Apply(s, Main)) == Distance(s) - 1
    ensures !Apply(s, Main).pending
  {
  }

  /** The handler leads to such a state without moving the loop or the queue. */
  lemma HandlerDelivers(s: State)
    requires Inv(s) && Enabled(s, Handler)
    ensures var s' := Apply(s, Handler); !s'.pending && s'.queue == s.queue && Distance(s') == Distance(s)
  {
  }

  /** Steps that can be taken in turn, with nothing more arriving. */
  ghost predicate Legal(s: State, steps: seq<Step>)
    decreases |steps|
  {
    steps == [] || (!steps[0].Arrive? && Enabled(s, steps[0]) && Legal(Apply(s, steps[0]), steps[1..]))
  }

  ghost function After(s: State, steps: seq<Step>): State
    requires Legal(s, steps)
    decreases |steps|
  {
    if steps == [] then s else After(Apply(s, steps[0]), steps[1..])
  }

  lemma {:induction false} StaysEmpty(s: State, steps: seq<Step>)
    requires Inv(s) && s.queue == [] && Legal(s, steps)
    ensures Inv(After(s, steps)) && After(s, steps).queue == [] && After(s, steps).arrived == s.arrived
    decreases |steps|
  {
    hide OneToken, NothingLost;
    if steps != [] {
      StepKeeps(s, steps[0]);
      StaysEmpty(Apply(s, steps[0]), steps[1..]);
    }
  }

  lemma {:induction false} DrainsOnceDelivered(s: State, steps: seq<Step>)
    requires Inv(s) && !s.pending && Legal(s, steps) && Distance(s) <= |steps|
    ensures Inv(After(s, steps)) && After(s, steps).queue == [] && After(s, steps).arrived == s.arrived
    decreases |steps|
  {
    hide OneToken, NothingLost;
    if s.queue == [] {
      StaysEmpty(s, steps);
    } else {
      StepKeeps(s, Main);
      MainProgress(s);
      DrainsOnceDelivered(Apply(s, Main), steps[1..]);
    }
  }

  lemma {:induction false} Drains(s: State, steps: seq<Step>, h: nat)
    requires Inv(s) && Legal(s, steps) && h + |s.queue| + 4 <= |steps|
    requires s.pending ==> 0 < h && steps[h - 1] == Handler
    ensures Inv(After(s, steps)) && After(s, steps).queue == [] && After(s, steps).arrived == s.arrived
    decreases |steps|
  {
    hide OneToken, NothingLost;
    if !s.pending {
      DrainsOnceDelivered(s, steps);
    } else {
      StepKeeps(s, steps[0]);
      if steps[0] == Handler {
        HandlerDelivers(s);
        DrainsOnceDelivered(Apply(s, Handler), steps[1..]);
      } else {
        assert h > 1 && steps[1..][h - 2] == steps[h - 1];
        Drains(Apply(s, steps[0]), steps[1..], h - 1);
      }
    }
  }

  /** From every state that can be reached, and whatever the order of the steps: when a
      pending signal has been delivered by step `h`, the main loop needs at most four steps
      more than there were messages to empty the queue, and has then received all that
      arrived. */
  lemma QueueIsDrained(s: State, steps: seq<Step>, h: nat)
    requires Inv(s) && Legal(s, steps) && h + |s.queue| + 4 <= |steps|
    requires s.pending ==> 0 < h && steps[h - 1] == Handler
    ensures var s' := After(s, steps); s'.queue == [] && multiset(s'.received) == multiset(s.arrived)
  {
    hide OneToken, NothingLost, Legal, After;
    Drains(s, steps, h);
    EmptyMeansAll(After(s, steps));
  }

  lemma EmptyMeansAll(s: State)
    requires Inv(s) && s.queue == []
    ensures multiset(s.received) == multiset(s.arrived)
  {
  }
}
