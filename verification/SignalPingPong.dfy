/** Parent and child that send each other a signal in turn and wait in sigsuspend(). */
module SignalPingPong {
  import opened Runs

  datatype Pc = Send | Wait | Exited

  /** A pending signal is a single bit: a second one is merged into it, which
      `merged` records, as `missed` records a kill() of a process that has exited. */
  datatype State = State(numSigs: nat, childPc: Pc, parentPc: Pc, childDone: nat, parentDone: nat,
                         toParent: bool, toChild: bool, childSent: nat, parentSent: nat, merged: bool, missed: bool)

  datatype Step = Child | Parent

  predicate Init(s: State) {
    && 0 < s.numSigs && s.childPc == Send && s.parentPc == Wait && s.childDone == 0 && s.parentDone == 0
    && !s.toParent && !s.toChild && s.childSent == 0 && s.parentSent == 0 && !s.merged && !s.missed
  }

  predicate Enabled(s: State, a: Step) {
    match a
    case Child => s.childPc == Send || (s.childPc == Wait && s.toChild)
    case Parent => s.parentPc == Send || (s.parentPc == Wait && s.toParent)
  }

  /** After the last round a process exits. */
  function Apply(s: State, a: Step): State
    requires Enabled(s, a)
  {
    match a
    case Child =>
      if s.childPc == Send then
        s.(childPc := Wait, childSent := s.childSent + 1, toParent := true,
           merged := s.merged || s.toParent, missed := s.missed || s.parentPc == Exited)
      else
        s.(toChild := false, childDone := s.childDone + 1,
           childPc := if s.childDone + 1 < s.numSigs then Send else Exited)
    case Parent =>
      if s.parentPc == Wait then s.(toParent := false, parentPc := Send)
      else
        s.(parentDone := s.parentDone + 1, parentSent := s.parentSent + 1, toChild := true,
           merged := s.merged || s.toChild, missed := s.missed || s.childPc == Exited,
           parentPc := if s.parentDone + 1 < s.numSigs then Wait else Exited)
  }

  ghost predicate Next(s: State, s': State) {
    exists a :: Enabled(s, a) && s' == Apply(s, a)
  }

  /** One turn goes round: the child may send, or its signal is under way, or the parent
      may send, or the parent's signal is under way, until both have exited. */
  ghost predicate Inv(s: State) {
    && !s.merged && !s.missed
    && Bit(s.childPc == Send) + Bit(s.toParent) + Bit(s.parentPc == Send) + Bit(s.toChild) ==
       (if s.childPc == Exited then 0 else 1)
    && s.childSent == s.childDone + Bit(s.childPc == Wait)
    && s.parentSent == s.parentDone
    && s.childSent == s.parentSent + Bit(s.toParent) + Bit(s.parentPc == Send)
    && s.parentSent == s.childDone + Bit(s.toChild)
    && s.childDone <= s.numSigs && s.parentDone <= s.numSigs
    && (s.childPc == Exited <==> s.childDone == s.numSigs)
    && (s.parentPc == Exited <==> s.parentDone == s.numSigs)
  }

  lemma StepKeeps(s: State, a: Step)
    requires Inv(s) && Enabled(s, a)
    ensures Inv(Apply(s, a))
  {
  }

  lemma Safety(run: seq<State>, i: nat)
    requires IsRun(Init, Next, run) && i < |run|
    ensures Inv(run[i])
  {
    forall s, s' | Inv(s) && Next(s, s') ensures Inv(s') {
      var a :| Enabled(s, a) && s' == Apply(s, a);
      StepKeeps(s, a);
    }
    Throughout(Init, Next, Inv, run, i);
  }

  /** In every interleaving: at most one signal is under way and none was merged away or
      sent to a process that had exited; the numbers of signals sent differ by at most
      one; and a process has exited exactly when it did all its rounds. */
  lemma TurnsAlternate(run: seq<State>, i: nat)
    requires IsRun(Init, Next, run) && i < |run|
    ensures var s := run[i];
            && !(s.toParent && s.toChild) && !s.merged && !s.missed
            && s.parentSent <= s.childSent <= s.parentSent + 1
            && (s.childPc == Exited ==> s.childSent == s.parentSent == s.numSigs)
            && (s.parentPc == Exited ==> s.childSent == s.parentSent == s.numSigs)
  {
    Safety(run, i);
  }

  /** Until both have exited, exactly one of the two can move. */
  lemma NeverStuck(s: State)
    requires Inv(s) && !(s.childPc == Exited && s.parentPc == Exited)
    ensures Enabled(s, Child) != Enabled(s, Parent)
  {
  }

  function Remaining(s: State): int {
    2 * (s.numSigs - s.childSent) + 2 * (s.numSigs - s.parentSent) + Bit(s.toParent) + Bit(s.toChild)
  }

  /** Every step leads closer to the end. */
  lemma Terminates(s: State, a: Step)
    requires Inv(s) && Enabled(s, a)
    ensures 0 <= Remaining(Apply(s, a)) < Remaining(s)
  {
  }
}
