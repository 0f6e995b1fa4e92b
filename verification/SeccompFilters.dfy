/** The seccomp filters of the demonstration programs, and the policies they mean. */
module SeccompFilters {
  import opened Bpf
  import opened Options

  const AUDIT_ARCH_X86_64: bv32 := 0xC000_003E
  const AUDIT_ARCH_I386: bv32 := 0x4000_0003
  const X32_SYSCALL_BIT: bv32 := 0x4000_0000

  const NR_OPEN: bv32 := 2
  const NR_LSEEK: bv32 := 8
  const NR_MKDIR: bv32 := 83
  const NR_OPENAT: bv32 := 257
  const NR_MQ_NOTIFY_X86_64: bv32 := 244
  const NR_MQ_NOTIFY_I386: bv32 := 281
  const NR_MQ_NOTIFY_X32: bv32 := 527

  const O_WRONLY: bv32 := 1
  const O_RDWR: bv32 := 2
  const O_CREAT: bv32 := 0x40
  const ENOTSUP: bv32 := 95

  const RET_KILL_PROCESS: bv32 := 0x8000_0000
  const RET_ERRNO: bv32 := 0x0005_0000
  const RET_USER_NOTIF: bv32 := 0x7FC0_0000
  const RET_TRACE: bv32 := 0x7FF0_0000
  const RET_ALLOW: bv32 := 0x7FFF_0000

  const NR: nat := 0
  const ARCH: nat := 4
  const ARG1: nat := 24
  const ARG2: nat := 32

  // ----- The shared prologue ------------------------------------------------

  function Prologue(): Prog {
    [LdAbs(ARCH), Jeq(AUDIT_ARCH_X86_64, 0, 2), LdAbs(NR), Jge(X32_SYSCALL_BIT, 0, 1), Ret(RET_KILL_PROCESS)]
  }

  predicate IsX86_64(d: Data) {
    d.arch == AUDIT_ARCH_X86_64 && d.nr < X32_SYSCALL_BIT
  }

  /** In front of any program, the prologue kills calls of another architecture or
      ABI, and hands all others on with the call number in the accumulator. */
  lemma PrologueThen(p: Prog, acc: bv32, d: Data)
    ensures Run(Prologue() + p, 0, acc, d) ==
            if d.arch == 0xC000_003E && d.nr < 0x4000_0000 then Run(p, 0, d.nr, d) else Some(0x8000_0000)
  {
    var q := Prologue() + p;
    assert q[0] == LdAbs(ARCH) && q[1] == Jeq(AUDIT_ARCH_X86_64, 0, 2) && q[2] == LdAbs(NR)
        && q[3] == Jge(X32_SYSCALL_BIT, 0, 1) && q[4] == Ret(RET_KILL_PROCESS);
    assert Run(q, 4, d.arch, d) == Some(RET_KILL_PROCESS) && Run(q, 4, d.nr, d) == Some(RET_KILL_PROCESS);
    Relocate(Prologue(), p, 0, d.nr, d);
    assert Run(q, 3, d.nr, d) == if d.nr < X32_SYSCALL_BIT then Run(p, 0, d.nr, d) else Some(RET_KILL_PROCESS);
    assert Run(q, 1, d.arch, d) == if d.arch == AUDIT_ARCH_X86_64 then Run(q, 2, d.arch, d) else Run(q, 4, d.arch, d);
  }

  lemma PrologueValid(p: Prog)
    requires ValidProg(p)
    ensures ValidProg(Prologue() + p)
  {
    var q := Prologue() + p;
    forall pc | 0 <= pc < |q| ensures ValidInstr(q, pc) {
      if pc < 5 {
        assert q[pc] == Prologue()[pc];
      } else {
        assert q[pc] == p[pc - 5] && ValidInstr(p, pc - 5);
      }
    }
  }

  // ----- seccomp_control_open.c ---------------------------------------------

  function OpenFilter(): Prog {
    Prologue() + OpenBody()
  }

  function OpenBody(): Prog {
    [Jeq(NR_OPEN, 2, 0), Jeq(NR_OPENAT, 3, 0), Ret(RET_ALLOW),
     LdAbs(ARG1), Ja(1), LdAbs(ARG2),
     Jset(O_CREAT, 0, 1), Ret(RET_KILL_PROCESS),
     Jset(O_WRONLY | O_RDWR, 0, 1), Ret(RET_ERRNO | ENOTSUP),
     Ret(RET_ALLOW)]
  }

  /** Creating kills, writing without creating fails, reading is allowed. */
  function FlagsPolicy(flags: bv32): bv32 {
    if flags & O_CREAT != 0 then RET_KILL_PROCESS
    else if flags & O_WRONLY != 0 || flags & O_RDWR != 0 then RET_ERRNO | ENOTSUP
    else RET_ALLOW
  }

  function OpenPolicy(d: Data): bv32 {
    if !IsX86_64(d) then RET_KILL_PROCESS
    else if d.nr == NR_OPEN then FlagsPolicy(Low(d.a1))
    else if d.nr == NR_OPENAT then FlagsPolicy(Low(d.a2))
    else RET_ALLOW
  }

  lemma OpenFlags(flags: bv32, d: Data)
    ensures Run(OpenBody(), 6, flags, d) == Some(FlagsPolicy(flags))
  {
    hide Run;
    var p := OpenBody();
    assert flags & (O_WRONLY | O_RDWR) != 0 <==> flags & O_WRONLY != 0 || flags & O_RDWR != 0;
    Step(p, 6, flags, d);
    Step(p, 7, flags, d);
    Step(p, 8, flags, d);
    Step(p, 9, flags, d);
    Step(p, 10, flags, d);
  }

  lemma OpenBodyMeaning(d: Data)
    ensures Run(OpenBody(), 0, d.nr, d) ==
            Some(if d.nr == NR_OPEN then FlagsPolicy(Low(d.a1))
                 else if d.nr == NR_OPENAT then FlagsPolicy(Low(d.a2))
                 else RET_ALLOW)
  {
    hide Run, Low, FlagsPolicy;
    var p := OpenBody();
    OpenFlags(Low(d.a1), d);
    OpenFlags(Low(d.a2), d);
    Step(p, 0, d.nr, d);
    Step(p, 1, d.nr, d);
    Step(p, 2, d.nr, d);
    Step(p, 3, d.nr, d);
    Step(p, 4, Low(d.a1), d);
    Step(p, 5, d.nr, d);
  }

  lemma OpenBodyValid()
    ensures ValidProg(OpenBody())
  {
  }

  lemma OpenIsPolicy(d: Data)
    ensures ValidProg(OpenFilter()) && Apply(OpenFilter(), d) == Some(OpenPolicy(d))
  {
    hide Run, Low, FlagsPolicy, OpenBody, Prologue;
    PrologueThen(OpenBody(), 0, d);
    OpenBodyMeaning(d);
    OpenBodyValid();
    PrologueValid(OpenBody());
  }

  lemma FlagBits(x: bv64)
    ensures Low(x) & 0x40 != 0 <==> x & 0x40 != 0
    ensures Low(x) & 1 != 0 || Low(x) & 2 != 0 <==> x & 3 != 0
  {
  }

  /** open() and openat() are decided on their own flags argument: creating kills,
      writing without creating fails with ENOTSUP, and reading is allowed. */
  lemma OpenMeaning(d: Data)
    ensures ValidProg(OpenFilter())
    ensures Apply(OpenFilter(), d) == Some(
              if d.arch != 0xC000_003E || d.nr >= 0x4000_0000 then 0x8000_0000
              else if d.nr != 2 && d.nr != 257 then 0x7FFF_0000
              else
                var flags := if d.nr == 2 then d.a1 else d.a2;
                if flags & 0x40 != 0 then 0x8000_0000 else if flags & 3 != 0 then 0x0005_005F else 0x7FFF_0000)
  {
    hide Low, Apply;
    OpenIsPolicy(d);
    FlagBits(d.a1);
    FlagBits(d.a2);
  }

  // ----- seccomp_arg64.c ----------------------------------------------------

  function SeekFilter(): Prog {
    Prologue() + SeekBody()
  }

  function SeekBody(): Prog {
    [Jeq(NR_LSEEK, 1, 0), Ret(RET_ALLOW),
     LdAbs(ARG1 + 4), Jeq(0, 1, 0), Ret(RET_ERRNO | 2),
     LdAbs(ARG1), Jgt(1000, 0, 1), Ret(RET_ERRNO | 1),
     Ret(RET_ALLOW)]
  }

  lemma Halves(x: bv64)
    ensures High(x) == 0 <==> x < 0x1_0000_0000
    ensures x < 0x1_0000_0000 ==> (Low(x) > 1000 <==> x > 1000)
  {
    if x < 0x1_0000_0000 {
      assert x & 0xFFFF_FFFF == x;
    }
  }

  lemma SeekBodyMeaning(d: Data)
    ensures Run(SeekBody(), 0, d.nr, d) ==
            Some(if d.nr != NR_LSEEK then RET_ALLOW else if High(d.a1) != 0 then RET_ERRNO | 2
                 else if Low(d.a1) > 1000 then RET_ERRNO | 1 else RET_ALLOW)
  {
    hide Run, Low, High;
    var p := SeekBody();
    var hi, lo := High(d.a1), Low(d.a1);
    Step(p, 0, d.nr, d);
    Step(p, 1, d.nr, d);
    Step(p, 2, d.nr, d);
    Step(p, 3, hi, d);
    Step(p, 4, hi, d);
    Step(p, 5, hi, d);
    Step(p, 6, lo, d);
    Step(p, 7, lo, d);
    Step(p, 8, lo, d);
  }

  lemma SeekBodyValid()
    ensures ValidProg(SeekBody())
  {
  }

  /** The two 32-bit comparisons amount to one on 64 bits. */
  lemma SeekMeaning(d: Data)
    ensures ValidProg(SeekFilter())
    ensures Apply(SeekFilter(), d) == Some(
              if d.arch != 0xC000_003E || d.nr >= 0x4000_0000 then 0x8000_0000
              else if d.nr != 8 || d.a1 <= 1000 then 0x7FFF_0000
              else if d.a1 < 0x1_0000_0000 then 0x0005_0001
              else 0x0005_0002)
  {
    hide Run, Low, High, SeekBody, Prologue;
    PrologueThen(SeekBody(), 0, d);
    Halves(d.a1);
    SeekBodyMeaning(d);
    SeekBodyValid();
    PrologueValid(SeekBody());
  }

  // ----- seccomp_multiarch.c ------------------------------------------------

  function MultiarchFilter(): Prog {
    [LdAbs(ARCH), Jeq(AUDIT_ARCH_X86_64, 0, 5),
     LdAbs(NR), Jeq(NR_MQ_NOTIFY_X86_64, 0, 1), Ret(RET_ERRNO | NR_MQ_NOTIFY_X86_64),
     Jeq(NR_MQ_NOTIFY_X32 + X32_SYSCALL_BIT, 0, 5), Ret(RET_ERRNO | NR_MQ_NOTIFY_X32),
     Jeq(AUDIT_ARCH_I386, 0, 4),
     LdAbs(NR), Jeq(NR_MQ_NOTIFY_I386, 0, 1), Ret(RET_ERRNO | NR_MQ_NOTIFY_I386),
     Ret(RET_ALLOW), Ret(RET_KILL_PROCESS)]
  }

  datatype Abi = X86_64 | X32 | I386 | Unknown

  function AbiOf(d: Data): Abi {
    if d.arch == AUDIT_ARCH_I386 then I386
    else if d.arch != AUDIT_ARCH_X86_64 then Unknown
    else if d.nr < X32_SYSCALL_BIT then X86_64
    else X32
  }

  /** The number of mq_notify() under an ABI; an x32 call adds bit 30 to it. */
  function MqNotifyNr(abi: Abi): bv32 {
    match abi
    case X86_64 => NR_MQ_NOTIFY_X86_64
    case X32 => NR_MQ_NOTIFY_X32
    case I386 => NR_MQ_NOTIFY_I386
    case Unknown => 0
  }

  /** mq_notify() fails with its number under the caller's own ABI. */
  function MultiarchPolicy(d: Data): bv32 {
    var abi := AbiOf(d);
    var nr := if abi == X32 then d.nr - X32_SYSCALL_BIT else d.nr;
    if abi == Unknown then RET_KILL_PROCESS
    else if nr == MqNotifyNr(abi) then RET_ERRNO | MqNotifyNr(abi)
    else RET_ALLOW
  }

  lemma MultiarchI386(d: Data)
    requires d.arch != AUDIT_ARCH_X86_64
    ensures Run(MultiarchFilter(), 7, d.arch, d) == Some(MultiarchPolicy(d))
  {
    hide Run;
    var p := MultiarchFilter();
    Step(p, 7, d.arch, d);
    Step(p, 8, d.arch, d);
    Step(p, 9, d.nr, d);
    Step(p, 10, d.nr, d);
    Step(p, 11, d.nr, d);
    Step(p, 12, d.arch, d);
  }

  lemma MultiarchX86(d: Data)
    requires d.arch == AUDIT_ARCH_X86_64
    ensures Run(MultiarchFilter(), 2, d.arch, d) == Some(MultiarchPolicy(d))
  {
    hide Run;
    var p := MultiarchFilter();
    Step(p, 2, d.arch, d);
    Step(p, 3, d.nr, d);
    Step(p, 4, d.nr, d);
    Step(p, 5, d.nr, d);
    Step(p, 6, d.nr, d);
    Step(p, 11, d.nr, d);
  }

  lemma MultiarchValid()
    ensures ValidProg(MultiarchFilter())
  {
  }

  lemma MultiarchIsPolicy(d: Data)
    ensures ValidProg(MultiarchFilter()) && Apply(MultiarchFilter(), d) == Some(MultiarchPolicy(d))
  {
    hide Run, MultiarchPolicy, ValidProg;
    var p := MultiarchFilter();
    MultiarchValid();
    Step(p, 0, 0, d);
    Step(p, 1, d.arch, d);
    if d.arch == AUDIT_ARCH_X86_64 {
      MultiarchX86(d);
    } else {
      MultiarchI386(d);
    }
  }

  /** mq_notify() is call 244 on x86-64, 527 with bit 30 set on x32, and 281 on i386, and
      fails with that number as its error. */
  lemma MultiarchMeaning(d: Data)
    ensures ValidProg(MultiarchFilter())
    ensures Apply(MultiarchFilter(), d) == Some(
              if d.arch == 0xC000_003E then
                if d.nr == 244 then 0x0005_0000 | 244
                else if d.nr == 0x4000_0000 + 527 then 0x0005_0000 | 527
                else 0x7FFF_0000
              else if d.arch == 0x4000_0003 then if d.nr == 281 then 0x0005_0000 | 281 else 0x7FFF_0000
              else 0x8000_0000)
  {
    hide Apply, MultiarchFilter, ValidProg;
    MultiarchIsPolicy(d);
  }

  // ----- seccomp_user_notification.c ----------------------------------------

  function NotifyFilter(): Prog {
    Prologue() + [Jeq(NR_MKDIR, 0, 1), Ret(RET_USER_NOTIF), Ret(RET_ALLOW)]
  }

  function Filter2Body(secondFilter: bv32): Prog {
    var last := if secondFilter == RET_ERRNO then Ret(RET_ERRNO | ENOTSUP) else Ret(RET_TRACE);
    [Jeq(NR_MKDIR, 1, 0), Ret(RET_ALLOW), last]
  }

  function Filter2(secondFilter: bv32): Prog {
    Prologue() + Filter2Body(secondFilter)
  }

  /** The second filter is built with a blank last entry, which is then overwritten. */
  method InstallFilter2(secondFilter: bv32) returns (filter: Prog)
    ensures ValidProg(filter) && filter == Filter2(secondFilter)
    ensures forall d :: Apply(filter, d) == Some(
              if d.arch != 0xC000_003E || d.nr >= 0x4000_0000 then 0x8000_0000
              else if d.nr != 83 then 0x7FFF_0000
              else if secondFilter == 0x0005_0000 then 0x0005_005F
              else 0x7FF0_0000)
  {
    var prog := Prologue() + [Jeq(NR_MKDIR, 1, 0), Ret(RET_ALLOW), LdImm(0)];
    var a := new Instr[|prog|](i requires 0 <= i < |prog| => prog[i]);
    a[a.Length - 1] := if secondFilter == RET_ERRNO then Ret(RET_ERRNO | ENOTSUP) else Ret(RET_TRACE);
    filter := a[..];
    assert filter == Prologue() + Filter2Body(secondFilter);
    PrologueValid(Filter2Body(secondFilter));
    forall d ensures Apply(filter, d) == Some(Filter2Policy(secondFilter, d)) {
      Filter2Meaning(secondFilter, d);
    }
  }

  function Filter2Policy(secondFilter: bv32, d: Data): bv32 {
    if !IsX86_64(d) then RET_KILL_PROCESS
    else if d.nr != NR_MKDIR then RET_ALLOW
    else if secondFilter == RET_ERRNO then RET_ERRNO | ENOTSUP
    else RET_TRACE
  }

  lemma Filter2Meaning(secondFilter: bv32, d: Data)
    ensures Apply(Filter2(secondFilter), d) == Some(Filter2Policy(secondFilter, d))
  {
    hide Run, Prologue;
    var body := Filter2Body(secondFilter);
    PrologueThen(body, 0, d);
    Step(body, 0, d.nr, d);
    Step(body, 1, d.nr, d);
    Step(body, 2, d.nr, d);
  }

  function NotifyPolicy(d: Data): bv32 {
    if !IsX86_64(d) then RET_KILL_PROCESS else if d.nr == NR_MKDIR then RET_USER_NOTIF else RET_ALLOW
  }

  lemma NotifyMeaning(d: Data)
    ensures ValidProg(NotifyFilter())
    ensures Apply(NotifyFilter(), d) == Some(
              if d.arch != 0xC000_003E || d.nr >= 0x4000_0000 then 0x8000_0000
              else if d.nr == 83 then 0x7FC0_0000
              else 0x7FFF_0000)
  {
    hide Run, Prologue;
    var body := [Jeq(NR_MKDIR, 0, 1), Ret(RET_USER_NOTIF), Ret(RET_ALLOW)];
    PrologueThen(body, 0, d);
    PrologueValid(body);
    Step(body, 0, d.nr, d);
    Step(body, 1, d.nr, d);
    Step(body, 2, d.nr, d);
  }

  // ----- Several filters at once --------------------------------------------

  /** The action of a return value as the kernel compares it: the upper half, read
      as a signed number, so that killing the process comes first. */
  function Precedence(ret: bv32): int {
    ((ret & 0xFFFF_0000) ^ 0x8000_0000) as int
  }

  /** The order of importance given in seccomp(2): kill the process, kill the thread, trap,
      errno, notify, trace, log, allow. The lower half does not matter. */
  lemma PrecedenceOrder(ret: bv32)
    ensures Precedence(0x8000_0000) < Precedence(0) < Precedence(0x0003_0000) < Precedence(0x0005_0000)
          < Precedence(0x7FC0_0000) < Precedence(0x7FF0_0000) < Precedence(0x7FFC_0000) < Precedence(0x7FFF_0000)
    ensures Precedence(ret) == Precedence(ret & 0xFFFF_0000)
  {
    assert ret & 0xFFFF_0000 & 0xFFFF_0000 == ret & 0xFFFF_0000;
  }

  /** The filters are run in turn; a value replaces the one kept so far only when its
      action is strictly more important. */
  function Combine(rets: seq<bv32>): (r: bv32) {
    if rets == [] then RET_ALLOW
    else
      var kept, last := Combine(rets[..|rets| - 1]), rets[|rets| - 1];
      if Precedence(last) < Precedence(kept) then last else kept
  }

  /** The combined value was returned by some filter, unless none objects, and no
      filter returned a more important action. */
  lemma {:induction false} CombineIsMostImportant(rets: seq<bv32>)
    ensures Combine(rets) == RET_ALLOW || Combine(rets) in rets
    ensures forall i :: 0 <= i < |rets| ==> Precedence(Combine(rets)) <= Precedence(rets[i])
    ensures Precedence(Combine(rets)) <= Precedence(RET_ALLOW)
    decreases |rets|
  {
    hide Precedence;
    if rets != [] {
      var init := rets[..|rets| - 1];
      CombineIsMostImportant(init);
      forall i | 0 <= i < |rets| ensures Precedence(Combine(rets)) <= Precedence(rets[i]) {
        if i < |init| {
          assert rets[i] == init[i];
        }
      }
    }
  }

  lemma CombineTwo(a: bv32, b: bv32)
    ensures Combine([a, b]) ==
            var kept := if Precedence(a) < Precedence(RET_ALLOW) then a else RET_ALLOW;
            if Precedence(b) < Precedence(kept) then b else kept
  {
    hide Precedence;
    assert [a][..0] == [];
    assert Combine([a]) == if Precedence(a) < Precedence(RET_ALLOW) then a else RET_ALLOW;
    assert [a, b][..1] == [a];
  }

  /** With both filters installed, whichever is run first: mkdir() fails with ENOTSUP
      and no notification in errno mode, and is notified in trace mode; every other
      call is treated as by the first filter alone. */
  lemma BothFilters(secondFilter: bv32, d: Data)
    ensures Apply(NotifyFilter(), d).Some? && Apply(Filter2(secondFilter), d).Some?
    ensures var first, second := Apply(NotifyFilter(), d).value, Apply(Filter2(secondFilter), d).value;
            var both := Combine([first, second]);
            && both == Combine([second, first])
            && first == Combine([first])
            && (d.arch != 0xC000_003E || d.nr != 83 ==> both == first)
            && (d.arch == 0xC000_003E && d.nr == 83 ==>
                  both == if secondFilter == 0x0005_0000 then 0x0005_005F else 0x7FC0_0000)
  {
    NotifyMeaning(d);
    Filter2Meaning(secondFilter, d);
    hide Apply, NotifyFilter, Filter2;
    var first, second := NotifyPolicy(d), Filter2Policy(secondFilter, d);
    assert d.nr == 83 ==> d.nr < 0x4000_0000;
    CombineTwo(first, second);
    CombineTwo(second, first);
    assert [first][..0] == [];
  }
}
