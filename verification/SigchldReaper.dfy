/** Reaping children in a SIGCHLD handler, although SIGCHLD is not queued. */
module SigchldReaper {
  import opened Runs

  /** The parent creates its children with SIGCHLD blocked, then tests its counter and
      waits in sigsuspend(), where the handler runs: it reaps in a loop, and then takes
      its time before it returns. */
  datatype Pc = Forking | Test | Suspended | Reaping | Returning | Exited

  datatype State = State(n: nat, created: nat, alive: nat, zombies: nat, reaped: nat, pending: bool,
                         numLiveChildren: int, sigCnt: nat, caught: nat, pc: Pc)

  datatype Step = Dies | Parent

  predicate Init(s: State) {
    && 0 < s.n && s.created == 0 && s.alive == 0 && s.zombies == 0 && s.reaped == 0 && !s.pending
    && s.numLiveChildren == s.n && s.sigCnt == 0 && s.caught == 0 && s.pc == Forking
  }

  predicate Enabled(s: State, a: Step) {
    match a
    case Dies => 0 < s.alive
    case Parent => s.pc != Exited && (s.pc == Suspended ==> s.pending)
  }

  function Apply(s: State, a: Step): State
    requires Enabled(s, a)
  {
    match a
    case Dies => s.(alive := s.alive - 1, zombies := s.zombies + 1, pending := true)
    case Parent =>
      match s.pc
      case Forking =>
        if s.created < s.n then s.(created := s.created + 1, alive := s.alive + 1) else s.(pc := Test)
      case Test => s.(pc := if s.numLiveChildren > 0 then Suspended else Exited)
      case Suspended => s.(pending := false, caught := s.caught + 1, pc := Reaping)
      case Reaping =>
        if s.zombies > 0 then
          s.(zombies := s.zombies - 1, reaped := s.reaped + 1, numLiveChildren := s.numLiveChildren - 1)
        else s.(pc := Returning)
      case Returning => s.(sigCnt := s.sigCnt + 1, pc := Test)
  }

  ghost predicate Next(s: State, s': State) {
    exists a :: Enabled(s, a) && s' == Apply(s, a)
  }

  ghost predicate Inv(s: State) {
    && s.created == s.alive + s.zombies + s.reaped
    && s.created <= s.n && (s.pc != Forking ==> s.created == s.n)
    && s.numLiveChildren == s.n - s.reaped
    // an unreaped child has its signal pending, or the handler still looks
    && (0 < s.zombies ==> s.pending || s.pc == Reaping)
    && (s.pc == Suspended ==> 0 < s.numLiveChildren)
    && (s.pc == Exited ==> s.numLiveChildren == 0)
    // every signal caught or pending stands for a death of its own
    && s.caught + Bit(s.pending) <= s.zombies + s.reaped
    && s.caught == s.sigCnt + Bit(s.pc == Reaping || s.pc == Returning)
  }

  lemma StepKeeps(s: State, a: Step)
    requires Inv(s) && Enabled(s, a)
    ensures Inv(Apply(s, a))
  {
  }

  /** For every number of children and every order of deaths. */
  lemma Safety(run: seq<State>, i: nat)
    requires IsRun(Init, Next, run) && i < |run|
    ensures Inv(run[i])
  {
    forall s, s' | Inv(s) && Next(s, s') ensures Inv(s') {
      var a :| Enabled(s, a) && s' == Apply(s, a);
      StepKeeps(s, a);
    }
    Throughout(Init, Next, Inv, run, i);
  }

  /** At every point of every run: when the parent waits, its counter is the number of
      children created and not yet reaped, and a zombie means a pending signal; when it
      has left, every child was reaped; and SIGCHLD is caught at most once per child. */
  lemma AllAreReaped(run: seq<State>, i: nat)
    requires IsRun(Init, Next, run) && i < |run|
    ensures var s := run[i];
            && (s.pc == Suspended ==> s.numLiveChildren == s.created - s.reaped && (0 < s.zombies ==> s.pending))
            && (s.pc == Exited ==> s.reaped == s.n && s.alive == 0 && s.zombies == 0)
            && s.caught <= s.n && s.sigCnt <= s.n
  {
    Safety(run, i);
  }

  /** The parent is never left waiting for nothing: until it exits, some step is possible. */
  lemma NeverStuck(s: State)
    requires Inv(s) && s.pc != Exited
    ensures Enabled(s, Dies) || Enabled(s, Parent)
  {
  }

  function Rank(pc: Pc): nat {
    match pc
    case Forking => 6
    case Reaping => 5
    case Returning => 4
    case Test => 3
    case Suspended => 2
    case Exited => 0
  }

  function Remaining(s: State): int {
    (s.n - s.created) + 6 * (s.alive + s.n - s.created) + s.zombies + 4 * Bit(s.pending) + Rank(s.pc)
  }

  /** Every step, of a child or of the parent, leads closer to the end, so the parent does
      exit; and by then it has reaped every child. */
  lemma Terminates(s: State, a: Step)
    requires Inv(s) && Enabled(s, a)
    ensures 0 <= Remaining(Apply(s, a)) < Remaining(s)
  {
  }
}
