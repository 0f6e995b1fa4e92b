/** Processes that append to one file a byte at a time: with O_APPEND, or with lseek()
    to the end followed by write(). */
module AtomicAppend {
  import opened Runs

  /** A byte of the file: there from the start, or written by a process. */
  datatype Byte = Old(c: char) | By(writer: nat)

  /** `off` is the file offset, meaningful between lseek() and write(). */
  datatype Proc = Proc(useLseek: bool, numBytes: nat, done: nat, sought: bool, off: nat)

  datatype State = State(file: seq<Byte>, procs: seq<Proc>, orig: seq<Byte>, hole: bool)

  datatype Step = Seek(i: nat) | Write(i: nat)

  predicate IsOld(file: seq<Byte>) {
    forall j :: 0 <= j < |file| ==> file[j].Old?
  }

  predicate Init(s: State) {
    && s.file == s.orig && IsOld(s.orig) && !s.hole
    && forall i :: 0 <= i < |s.procs| ==> s.procs[i].done == 0 && !s.procs[i].sought
  }

  predicate Enabled(s: State, a: Step) {
    match a
    case Seek(i) =>
      i < |s.procs| && s.procs[i].done < s.procs[i].numBytes && s.procs[i].useLseek && !s.procs[i].sought
    case Write(i) =>
      i < |s.procs| && s.procs[i].done < s.procs[i].numBytes && (s.procs[i].useLseek ==> s.procs[i].sought)
  }

  /** write() of one byte at an offset; past the end it would leave a hole. */
  function WriteAt(file: seq<Byte>, off: nat, b: Byte): seq<Byte> {
    if off < |file| then file[off := b] else file + seq(off - |file|, _ => Old('\0')) + [b]
  }

  function Apply(s: State, a: Step): State
    requires Enabled(s, a)
  {
    match a
    case Seek(i) =>
      s.(procs := s.procs[i := s.procs[i].(sought := true, off := |s.file|)])
    case Write(i) =>
      var p := s.procs[i];
      var at := if p.useLseek then p.off else |s.file|;
      s.(file := WriteAt(s.file, at, By(i)), procs := s.procs[i := p.(done := p.done + 1, sought := false)],
         hole := s.hole || |s.file| < at)
  }

  ghost predicate Next(s: State, s': State) {
    exists a :: Enabled(s, a) && s' == Apply(s, a)
  }

  function DoneOf(p: Proc): int {
    p.done
  }

  function Total(p: Proc): int {
    p.numBytes
  }

  ghost predicate ProcOk(s: State, p: Proc) {
    && p.done <= p.numBytes
    && |s.orig| + p.done <= |s.file|
    && (p.sought ==> p.useLseek && p.done < p.numBytes && |s.orig| + p.done <= p.off <= |s.file|)
  }

  /** No hole, the original bytes untouched, and as many new bytes as some process wrote at
      least, and as all wrote at most. */
  ghost predicate Inv(s: State) {
    && !s.hole && |s.orig| <= |s.file| && s.file[..|s.orig|] == s.orig && IsOld(s.orig)
    && (forall j :: |s.orig| <= j < |s.file| ==> s.file[j].By?)
    && (forall i :: 0 <= i < |s.procs| ==> ProcOk(s, s.procs[i]))
    && |s.file| <= |s.orig| + Sum(s.procs, DoneOf)
  }

  lemma WriteKeeps(s: State, i: nat)
    requires Inv(s) && Enabled(s, Write(i))
    ensures Inv(Apply(s, Write(i)))
  {
    var p := s.procs[i];
    assert ProcOk(s, p);
    var s' := Apply(s, Write(i));
    SumUpdate(s.procs, i, s'.procs[i], DoneOf);
    var at := if p.useLseek then p.off else |s.file|;
    assert |s.orig| <= at <= |s.file|;
    assert s'.file[..|s.orig|] == s.file[..|s.orig|];
    forall j | 0 <= j < |s'.procs| ensures ProcOk(s', s'.procs[j]) {
      assert ProcOk(s, s.procs[j]);
    }
  }

  lemma StepKeeps(s: State, a: Step)
    requires Inv(s) && Enabled(s, a)
    ensures Inv(Apply(s, a))
  {
    match a
    case Write(i) => WriteKeeps(s, i);
    case Seek(i) =>
      var s' := Apply(s, a);
      SumUpdate(s.procs, i, s'.procs[i], DoneOf);
      forall j | 0 <= j < |s'.procs| ensures ProcOk(s', s'.procs[j]) {
        assert ProcOk(s, s.procs[j]);
      }
  }

  lemma Safety(run: seq<State>, i: nat)
    requires IsRun(Init, Next, run) && i < |run|
    ensures Inv(run[i])
  {
    forall s | Init(s) ensures Inv(s) {
      SumZero(s.procs, DoneOf);
    }
    forall s, s' | Inv(s) && Next(s, s') ensures Inv(s') {
      var a :| Enabled(s, a) && s' == Apply(s, a);
      StepKeeps(s, a);
    }
    Throughout(Init, Next, Inv, run, i);
  }

  predicate Finished(s: State) {
    forall i :: 0 <= i < |s.procs| ==> s.procs[i].done == s.procs[i].numBytes
  }

  /** However the processes interleave, whichever mode each is in: at the end, the original
      bytes stand first, unchanged and without a hole after them; the file has grown by at
      least the most that one process wrote, and by at most what all wrote. */
  lemma FinalSize(run: seq<State>, i: nat)
    requires IsRun(Init, Next, run) && i < |run| && Finished(run[i])
    ensures var s := run[i];
            && !s.hole && |s.orig| <= |s.file| && s.file[..|s.orig|] == s.orig
            && (forall j :: 0 <= j < |s.procs| ==> |s.orig| + s.procs[j].numBytes <= |s.file|)
            && |s.file| <= |s.orig| + Sum(s.procs, Total)
  {
    Safety(run, i);
    var s := run[i];
    forall j | 0 <= j < |s.procs| ensures |s.orig| + s.procs[j].numBytes <= |s.file| {
      assert ProcOk(s, s.procs[j]);
    }
    SumEqual(s.procs, DoneOf, s.procs, Total);
  }

  // ----- When nothing is lost -----------------------------------------------

  /** No process that seeks shares the file with another one: among those that have bytes
      to write, all append, or there is only one. */
  ghost predicate RaceFree(procs: seq<Proc>) {
    forall i, k :: 0 <= i < |procs| && 0 <= k < |procs| && i != k && 0 < procs[i].numBytes && 0 < procs[k].numBytes ==>
      !procs[i].useLseek
  }

  function CountBy(file: seq<Byte>, w: nat): nat {
    if file == [] then 0 else CountBy(file[..|file| - 1], w) + if file[|file| - 1] == By(w) then 1 else 0
  }

  /** The arguments of the processes, which no step changes. */
  ghost predicate From(s0: State, s: State) {
    && s.orig == s0.orig && |s.procs| == |s0.procs|
    && forall i :: 0 <= i < |s.procs| ==>
         s.procs[i].useLseek == s0.procs[i].useLseek && s.procs[i].numBytes == s0.procs[i].numBytes
  }

  /** Every byte written is in the file: each process has as many there as it wrote. */
  ghost predicate Complete(s: State) {
    && |s.file| == |s.orig| + Sum(s.procs, DoneOf)
    && (forall i :: 0 <= i < |s.procs| ==> CountBy(s.file, i) == s.procs[i].done)
    && (forall i :: 0 <= i < |s.procs| && s.procs[i].sought ==> s.procs[i].off == |s.file|)
  }

  ghost predicate RaceFreeInv(s: State) {
    Inv(s) && Complete(s) && RaceFree(s.procs)
  }

  lemma AppendKeeps(s: State, i: nat)
    requires RaceFreeInv(s) && Enabled(s, Write(i))
    ensures Complete(Apply(s, Write(i)))
  {
    var s' := Apply(s, Write(i));
    SumUpdate(s.procs, i, s'.procs[i], DoneOf);
    assert s'.file == s.file + [By(i)];
    assert s'.file[..|s.file|] == s.file;
    forall j | 0 <= j < |s.procs| && j != i ensures !s.procs[j].sought {
      assert ProcOk(s, s.procs[j]);
    }
  }

  lemma RaceFreeKeeps(s: State, a: Step)
    requires RaceFreeInv(s) && Enabled(s, a)
    ensures RaceFreeInv(Apply(s, a))
  {
    StepKeeps(s, a);
    match a
    case Write(i) => AppendKeeps(s, i);
    case Seek(i) => SumUpdate(s.procs, i, Apply(s, a).procs[i], DoneOf);
  }

  lemma {:induction false} OldCountsNone(file: seq<Byte>, w: nat)
    requires IsOld(file)
    ensures CountBy(file, w) == 0
    decreases |file|
  {
    if file != [] {
      OldCountsNone(file[..|file| - 1], w);
    }
  }

  lemma InitComplete(s: State)
    requires Init(s)
    ensures Inv(s) && Complete(s)
  {
    SumZero(s.procs, DoneOf);
    forall j | 0 <= j < |s.procs| ensures CountBy(s.file, j) == s.procs[j].done {
      OldCountsNone(s.file, j);
    }
  }

  ghost predicate RaceFreeInit(s: State) {
    Init(s) && RaceFree(s.procs)
  }

  /** Without a race no byte is ever lost: the final size is the original one plus all that
      was written, and each process finds all its bytes in the file. */
  lemma NothingIsLost(run: seq<State>, i: nat)
    requires IsRun(RaceFreeInit, Next, run) && i < |run|
    ensures Complete(run[i])
    ensures Finished(run[i]) ==> |run[i].file| == |run[i].orig| + Sum(run[i].procs, Total)
  {
    forall s | RaceFreeInit(s) ensures RaceFreeInv(s) {
      InitComplete(s);
    }
    forall s, s' | RaceFreeInv(s) && Next(s, s') ensures RaceFreeInv(s') {
      var a :| Enabled(s, a) && s' == Apply(s, a);
      RaceFreeKeeps(s, a);
    }
    Throughout(RaceFreeInit, Next, RaceFreeInv, run, i);
    if Finished(run[i]) {
      SumEqual(run[i].procs, DoneOf, run[i].procs, Total);
    }
  }

  ghost predicate AppendInit(s: State) {
    Init(s) && forall i :: 0 <= i < |s.procs| ==> !s.procs[i].useLseek
  }

  /** In particular with O_APPEND. */
  lemma AppendLosesNothing(run: seq<State>, i: nat)
    requires IsRun(AppendInit, Next, run) && i < |run|
    ensures Complete(run[i])
    ensures Finished(run[i]) ==> |run[i].file| == |run[i].orig| + Sum(run[i].procs, Total)
  {
    assert IsRun(RaceFreeInit, Next, run);
    NothingIsLost(run, i);
  }

  // ----- Constructing runs --------------------------------------------------

  ghost predicate IsPath(path: seq<State>) {
    path != [] && forall i :: 0 <= i < |path| - 1 ==> Next(path[i], path[i + 1])
  }

  ghost predicate Connects(path: seq<State>, s: State, end: State) {
    IsPath(path) && path[0] == s && path[|path| - 1] == end
  }

  lemma Prepend(s: State, a: Step, path: seq<State>)
    requires Enabled(s, a) && IsPath(path) && path[0] == Apply(s, a)
    ensures Connects([s] + path, s, path[|path| - 1])
  {
    var path' := [s] + path;
    assert Next(s, Apply(s, a));
    forall i | 0 <= i < |path'| - 1 ensures Next(path'[i], path'[i + 1]) {
      if i > 0 {
        assert Next(path[i - 1], path[i - 1 + 1]);
      }
    }
  }

  lemma StepFrom(s0: State, s: State, a: Step)
    requires From(s0, s) && Enabled(s, a)
    ensures From(s0, Apply(s, a))
  {
  }

  /** The steps that a process has left. */
  function Left(p: Proc): int {
    2 * (p.numBytes - p.done) - Bit(p.sought)
  }

  lemma StepsLeft(s: State, a: Step)
    requires Inv(s) && Enabled(s, a)
    ensures 0 <= Sum(Apply(s, a).procs, Left) < Sum(s.procs, Left)
  {
    var s' := Apply(s, a);
    StepKeeps(s, a);
    SumUpdate(s.procs, a.i, s'.procs[a.i], Left);
    forall j | 0 <= j < |s'.procs| ensures 0 <= Left(s'.procs[j]) {
      assert ProcOk(s', s'.procs[j]);
    }
    SumNat(s'.procs, Left);
  }

  lemma SomeStep(s: State) returns (a: Step)
    requires Inv(s) && !Finished(s)
    ensures Enabled(s, a)
  {
    var i :| 0 <= i < |s.procs| && s.procs[i].done != s.procs[i].numBytes;
    assert ProcOk(s, s.procs[i]);
    a := if s.procs[i].useLseek && !s.procs[i].sought then Seek(i) else Write(i);
  }

  /** A byte was overwritten. */
  ghost predicate Lossy(s: State) {
    Inv(s) && |s.file| < |s.orig| + Sum(s.procs, DoneOf)
  }

  /** What is lost stays lost. */
  lemma LossyKept(s: State, a: Step)
    requires Lossy(s) && Enabled(s, a)
    ensures Lossy(Apply(s, a))
  {
    StepKeeps(s, a);
    assert ProcOk(s, s.procs[a.i]);
    SumUpdate(s.procs, a.i, Apply(s, a).procs[a.i], DoneOf);
  }

  /** Every lossy state can be run to the end, which is lossy too. */
  lemma {:induction false} FinishLossy(s0: State, s: State) returns (path: seq<State>)
    requires Lossy(s) && From(s0, s)
    ensures IsPath(path) && path[0] == s
    ensures var end := path[|path| - 1]; Finished(end) && Lossy(end) && From(s0, end)
    decreases Sum(s.procs, Left)
  {
    if Finished(s) {
      path := [s];
    } else {
      var a := SomeStep(s);
      StepsLeft(s, a);
      LossyKept(s, a);
      StepFrom(s0, s, a);
      path := FinishLossy(s0, Apply(s, a));
      Prepend(s, a, path);
      path := [s] + path;
    }
  }

  // ----- Losing bytes -------------------------------------------------------

  /** A process that seeks before another one writes, and writes after it, overwrites. */
  lemma Overwritten(s0: State, i: nat, k: nat) returns (path: seq<State>)
    requires Init(s0) && i < |s0.procs| && k < |s0.procs| && i != k
    requires 0 < s0.procs[i].numBytes && 0 < s0.procs[k].numBytes && s0.procs[i].useLseek
    ensures IsPath(path) && path[0] == s0
    ensures var end := path[|path| - 1]; Finished(end) && Lossy(end) && From(s0, end)
  {
    hide Inv, Sum;
    InitComplete(s0);
    var s1 := Apply(s0, Seek(i));
    StepKeeps(s0, Seek(i));
    var s2 := if s0.procs[k].useLseek then Apply(s1, Seek(k)) else s1;
    if s0.procs[k].useLseek {
      StepKeeps(s1, Seek(k));
    }
    var s3 := Apply(s2, Write(k));
    StepKeeps(s2, Write(k));
    var s4 := Apply(s3, Write(i));
    StepKeeps(s3, Write(i));
    DoneAfterTwo(s0, s4, i, k);
    assert |s4.file| == |s0.orig| + 1;
    path := FinishLossy(s0, s4);
    Prepend(s3, Write(i), path);
    path := [s3] + path;
    Prepend(s2, Write(k), path);
    path := [s2] + path;
    if s0.procs[k].useLseek {
      Prepend(s1, Seek(k), path);
      path := [s1] + path;
    }
    Prepend(s0, Seek(i), path);
    path := [s0] + path;
  }

  lemma DoneAfterTwo(s0: State, s: State, i: nat, k: nat)
    requires Init(s0) && |s.procs| == |s0.procs| && i < |s.procs| && k < |s.procs| && i != k
    requires s.procs[i].done == 1 && s.procs[k].done == 1
    requires forall j :: 0 <= j < |s.procs| && j != i && j != k ==> s.procs[j].done == 0
    ensures Sum(s.procs, DoneOf) == 2
  {
    var p := s.procs[i := s.procs[i].(done := 0)];
    var q := p[k := p[k].(done := 0)];
    SumUpdate(s.procs, i, p[i], DoneOf);
    SumUpdate(p, k, q[k], DoneOf);
    SumZero(q, DoneOf);
  }

  /** A run from `s0` to the end. */
  ghost predicate FullRun(s0: State, run: seq<State>) {
    IsRun(Init, Next, run) && run[0] == s0 && Finished(run[|run| - 1])
  }

  /** For any processes: every run to the end keeps every byte exactly if no process that
      seeks shares the file with another one. */
  lemma KeepsAllIff(s0: State)
    requires Init(s0)
    ensures (forall run: seq<State> :: FullRun(s0, run) ==>
               |run[|run| - 1].file| == |s0.orig| + Sum(s0.procs, Total)) <==>
            RaceFree(s0.procs)
  {
    if RaceFree(s0.procs) {
      forall run: seq<State> | FullRun(s0, run) ensures |run[|run| - 1].file| == |s0.orig| + Sum(s0.procs, Total) {
        assert IsRun(RaceFreeInit, Next, run);
        NothingIsLost(run, |run| - 1);
        FromThroughout(s0, run, |run| - 1);
        SumEqual(run[|run| - 1].procs, Total, s0.procs, Total);
      }
    } else {
      var i, k :| 0 <= i < |s0.procs| && 0 <= k < |s0.procs| && i != k
                  && 0 < s0.procs[i].numBytes && 0 < s0.procs[k].numBytes && s0.procs[i].useLseek;
      var run := Overwritten(s0, i, k);
      var end := run[|run| - 1];
      assert FullRun(s0, run);
      SumEqual(end.procs, DoneOf, s0.procs, Total);
    }
  }

  lemma FromThroughout(s0: State, run: seq<State>, i: nat)
    requires FullRun(s0, run) && i < |run|
    ensures From(s0, run[i])
  {
    var here := (s: State) => s == s0;
    var from := (s: State) => From(s0, s);
    forall s, s' | from(s) && Next(s, s') ensures from(s') {
      var a :| Enabled(s, a) && s' == Apply(s, a);
      StepFrom(s0, s, a);
    }
    Throughout(here, Next, from, run, i);
  }

  // ----- The bounds are met -------------------------------------------------

  /** Between two bytes: nobody has sought. */
  ghost predicate Settled(s: State) {
    && Inv(s) && |s.file| == |s.orig| + Sum(s.procs, DoneOf)
    && forall i :: 0 <= i < |s.procs| ==> !s.procs[i].sought
  }

  lemma SettledWrite(s: State, i: nat)
    requires Inv(s) && Enabled(s, Write(i)) && |s.file| == |s.orig| + Sum(s.procs, DoneOf)
    requires s.procs[i].useLseek ==> s.procs[i].off == |s.file|
    requires forall j :: 0 <= j < |s.procs| && j != i ==> !s.procs[j].sought
    ensures Settled(Apply(s, Write(i)))
  {
    StepKeeps(s, Write(i));
    SumUpdate(s.procs, i, Apply(s, Write(i)).procs[i], DoneOf);
  }

  lemma {:induction false} FinishSettled(s0: State, s: State) returns (path: seq<State>)
    requires Settled(s) && From(s0, s)
    ensures IsPath(path) && path[0] == s
    ensures var end := path[|path| - 1]; Finished(end) && Settled(end) && From(s0, end)
    decreases Sum(s.procs, Left)
  {
    hide Inv, Sum;
    if Finished(s) {
      path := [s];
    } else {
      var a := SomeStep(s);
      var i := a.i;
      StepsLeft(s, a);
      StepFrom(s0, s, a);
      var s1 := Apply(s, a);
      if a.Write? {
        SettledWrite(s, i);
        path := FinishSettled(s0, s1);
      } else {
        StepKeeps(s, a);
        SumUpdate(s.procs, i, s1.procs[i], DoneOf);
        StepsLeft(s1, Write(i));
        StepFrom(s0, s1, Write(i));
        SettledWrite(s1, i);
        path := FinishSettled(s0, Apply(s1, Write(i)));
        Prepend(s1, Write(i), path);
        path := [s1] + path;
      }
      Prepend(s, a, path);
      path := [s] + path;
    }
  }

  /** Whatever the processes and their modes, some run keeps every byte ... */
  lemma MayKeepAll(s0: State) returns (run: seq<State>)
    requires Init(s0)
    ensures FullRun(s0, run) && |run[|run| - 1].file| == |s0.orig| + Sum(s0.procs, Total)
  {
    InitComplete(s0);
    run := FinishSettled(s0, s0);
    SumEqual(run[|run| - 1].procs, DoneOf, s0.procs, Total);
  }

  ghost predicate IsMax(procs: seq<Proc>, n: nat) {
    && (forall j :: 0 <= j < |procs| ==> procs[j].numBytes <= n)
    && (n == 0 || exists j :: 0 <= j < |procs| && procs[j].numBytes == n)
  }

  function Min(a: nat, b: nat): nat {
    if a < b then a else b
  }

  /** Round `r`, in which those with more than `r` bytes first all seek and then all write:
      the first `i` have done so. */
  ghost predicate InRound(s0: State, s: State, r: nat, writing: bool, i: nat) {
    && From(s0, s) && i <= |s.procs|
    && (forall j :: 0 <= j < |s.procs| ==>
          var p := s.procs[j];
          && p.done == Min(if writing && j < i then r + 1 else r, p.numBytes)
          && (p.sought <==> r < p.numBytes && (writing <==> i <= j))
          && (p.sought ==> p.off == |s.orig| + r))
    && |s.file| == |s.orig| + r +
                   if writing && exists j :: 0 <= j < i && r < s.procs[j].numBytes then 1 else 0
  }

  function RoundAction(writing: bool, i: nat): Step {
    if writing then Write(i) else Seek(i)
  }

  /** One process more has taken part in the round. */
  lemma RoundStep(s0: State, s: State, r: nat, writing: bool, i: nat)
    requires InRound(s0, s, r, writing, i) && i < |s.procs| && s0.procs[i].useLseek
    ensures var a := RoundAction(writing, i);
            if r < s.procs[i].numBytes then Enabled(s, a) && InRound(s0, Apply(s, a), r, writing, i + 1)
            else InRound(s0, s, r, writing, i + 1)
  {
  }

  lemma RoundTurns(s0: State, s: State, r: nat, writing: bool, i: nat, max: nat)
    requires InRound(s0, s, r, writing, i) && IsMax(s0.procs, max) && r <= max && (writing ==> r < max)
    ensures i <= |s.procs| == |s0.procs|
    ensures r == max ==> Finished(s) && |s.file| == |s0.orig| + max
    ensures r < max && i == |s.procs| ==>
              if writing then InRound(s0, s, r + 1, false, 0) else InRound(s0, s, r, true, 0)
  {
  }

  /** All bytes of a round go to the same place. */
  lemma {:induction false} Rounds(s0: State, s: State, r: nat, writing: bool, i: nat, max: nat)
    returns (path: seq<State>)
    requires InRound(s0, s, r, writing, i) && IsMax(s0.procs, max) && r <= max && (writing ==> r < max)
    requires forall j :: 0 <= j < |s0.procs| ==> s0.procs[j].useLseek
    ensures IsPath(path) && path[0] == s
    ensures var end := path[|path| - 1]; Finished(end) && |end.file| == |s0.orig| + max
    decreases max - r, !writing, |s0.procs| - i
  {
    hide InRound, IsMax, Enabled, Apply, Finished;
    RoundTurns(s0, s, r, writing, i, max);
    if r == max {
      path := [s];
    } else if i == |s.procs| {
      if writing {
        path := Rounds(s0, s, r + 1, false, 0, max);
      } else {
        path := Rounds(s0, s, r, true, 0, max);
      }
    } else {
      var a := RoundAction(writing, i);
      RoundStep(s0, s, r, writing, i);
      if r < s.procs[i].numBytes {
        path := Rounds(s0, Apply(s, a), r, writing, i + 1, max);
        Prepend(s, a, path);
        path := [s] + path;
      } else {
        path := Rounds(s0, s, r, writing, i + 1, max);
      }
    }
  }

  /** ... and if all seek, some run leaves only as many bytes as the longest of them wrote. */
  lemma MayKeepOnlyMax(s0: State, max: nat) returns (run: seq<State>)
    requires Init(s0) && IsMax(s0.procs, max)
    requires forall j :: 0 <= j < |s0.procs| ==> s0.procs[j].useLseek
    ensures FullRun(s0, run) && |run[|run| - 1].file| == |s0.orig| + max
  {
    run := Rounds(s0, s0, 0, false, 0, max);
  }
}
