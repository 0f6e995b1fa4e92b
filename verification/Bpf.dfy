/** Classic BPF as seccomp runs it: a 32-bit accumulator, loads from the call
    record, forward jumps, and returns. */
module Bpf {
  import opened Options

  datatype Instr =
    | LdAbs(off: nat)
    | LdImm(k: bv32)
    | Jeq(k: bv32, jt: nat, jf: nat)
    | Jge(k: bv32, jt: nat, jf: nat)
    | Jgt(k: bv32, jt: nat, jf: nat)
    | Jset(k: bv32, jt: nat, jf: nat)
    | Ja(dist: nat)
    | Ret(k: bv32)

  type Prog = seq<Instr>

  /** struct seccomp_data. */
  datatype Data = Data(nr: bv32, arch: bv32, ip: bv64, a0: bv64, a1: bv64, a2: bv64, a3: bv64, a4: bv64, a5: bv64)

  function Low(x: bv64): bv32 {
    (x & 0xFFFF_FFFF) as bv32
  }

  function High(x: bv64): bv32 {
    (x >> 32) as bv32
  }

  /** The 32-bit word at a byte offset of the record, on a little-endian machine. */
  function Load(d: Data, off: nat): Option<bv32> {
    if off == 0 then Some(d.nr)
    else if off == 4 then Some(d.arch)
    else if off == 8 then Some(Low(d.ip))
    else if off == 12 then Some(High(d.ip))
    else if off == 16 then Some(Low(d.a0))
    else if off == 20 then Some(High(d.a0))
    else if off == 24 then Some(Low(d.a1))
    else if off == 28 then Some(High(d.a1))
    else if off == 32 then Some(Low(d.a2))
    else if off == 36 then Some(High(d.a2))
    else if off == 40 then Some(Low(d.a3))
    else if off == 44 then Some(High(d.a3))
    else if off == 48 then Some(Low(d.a4))
    else if off == 52 then Some(High(d.a4))
    else if off == 56 then Some(Low(d.a5))
    else if off == 60 then Some(High(d.a5))
    else None
  }

  /** The layout of the record: the number, the architecture, and argument `i` as the two
      words, low one first, that start at byte 16 + 8 * i. */
  lemma RecordLayout(d: Data, i: nat)
    requires i < 6
    ensures Load(d, 0) == Some(d.nr) && Load(d, 4) == Some(d.arch)
    ensures var lo, hi := Load(d, 16 + 8 * i), Load(d, 20 + 8 * i);
            && lo.Some? && hi.Some?
            && (hi.value as bv64 << 32) | lo.value as bv64 == [d.a0, d.a1, d.a2, d.a3, d.a4, d.a5][i]
  {
    LoadArgument(d, i);
    Joined([d.a0, d.a1, d.a2, d.a3, d.a4, d.a5][i]);
    hide Low, High, Load;
  }

  lemma LoadArgument(d: Data, i: nat)
    requires i < 6
    ensures var x := [d.a0, d.a1, d.a2, d.a3, d.a4, d.a5][i];
            Load(d, 16 + 8 * i) == Some(Low(x)) && Load(d, 20 + 8 * i) == Some(High(x))
  {
    hide Low, High;
  }

  lemma Joined(x: bv64)
    ensures (High(x) as bv64 << 32) | Low(x) as bv64 == x
  {
  }

  predicate ValidOffset(off: nat) {
    off % 4 == 0 && off < 64
  }

  /** Where one instruction leads. */
  datatype Effect = Next(skip: nat, acc: bv32) | Return(k: bv32) | Fault

  function Branch(taken: bool, jt: nat, jf: nat, acc: bv32): Effect {
    Next(if taken then jt else jf, acc)
  }

  function Execute(i: Instr, acc: bv32, d: Data): Effect {
    match i
    case LdAbs(off) => (match Load(d, off) case Some(w) => Next(0, w) case None => Fault)
    case LdImm(k) => Next(0, k)
    case Jeq(k, jt, jf) => Branch(acc == k, jt, jf, acc)
    case Jge(k, jt, jf) => Branch(acc >= k, jt, jf, acc)
    case Jgt(k, jt, jf) => Branch(acc > k, jt, jf, acc)
    case Jset(k, jt, jf) => Branch(acc & k != 0, jt, jf, acc)
    case Ja(dist) => Next(dist, acc)
    case Ret(k) => Return(k)
  }

  /** The value returned from instruction `pc` on; None if the program runs off its
      end or reads outside the record. */
  function Run(p: Prog, pc: nat, acc: bv32, d: Data): (r: Option<bv32>)
    decreases |p| - pc
  {
    if pc >= |p| then None
    else match Execute(p[pc], acc, d)
      case Next(skip, acc') => Run(p, pc + 1 + skip, acc', d)
      case Return(k) => Some(k)
      case Fault => None
  }

  /** One instruction at a time. */
  lemma Step(p: Prog, pc: nat, acc: bv32, d: Data)
    requires pc < |p|
    ensures Run(p, pc, acc, d) ==
            match Execute(p[pc], acc, d)
            case Next(skip, acc') => Run(p, pc + 1 + skip, acc', d)
            case Return(k) => Some(k)
            case Fault => None
  {
  }

  function Apply(p: Prog, d: Data): Option<bv32> {
    Run(p, 0, 0, d)
  }

  /** The number of instructions executed from `pc` on. */
  function Steps(p: Prog, pc: nat, acc: bv32, d: Data): nat
    decreases |p| - pc
  {
    if pc >= |p| then 0
    else match Execute(p[pc], acc, d)
      case Next(skip, acc') => 1 + Steps(p, pc + 1 + skip, acc', d)
      case _ => 1
  }

  /** What the kernel checks of instruction `pc`: jumps and fall-through stay inside
      the program, and loads stay inside the record. */
  predicate ValidInstr(p: Prog, pc: nat)
    requires pc < |p|
  {
    match p[pc]
    case LdAbs(off) => ValidOffset(off) && pc + 1 < |p|
    case LdImm(_) => pc + 1 < |p|
    case Jeq(_, jt, jf) => pc + 1 + jt < |p| && pc + 1 + jf < |p|
    case Jge(_, jt, jf) => pc + 1 + jt < |p| && pc + 1 + jf < |p|
    case Jgt(_, jt, jf) => pc + 1 + jt < |p| && pc + 1 + jf < |p|
    case Jset(_, jt, jf) => pc + 1 + jt < |p| && pc + 1 + jf < |p|
    case Ja(dist) => pc + 1 + dist < |p|
    case Ret(_) => true
  }

  predicate ValidProg(p: Prog) {
    p != [] && forall pc :: 0 <= pc < |p| ==> ValidInstr(p, pc)
  }

  /** A valid program ends in a return. */
  lemma LastIsRet(p: Prog)
    requires ValidProg(p)
    ensures p[|p| - 1].Ret?
  {
    assert ValidInstr(p, |p| - 1);
  }

  lemma ValidLoad(d: Data, off: nat)
    requires ValidOffset(off)
    ensures Load(d, off).Some?
  {
    assert off == 0 || off == 4 || off == 8 || off == 12 || off == 16 || off == 20 || off == 24 || off == 28 ||
           off == 32 || off == 36 || off == 40 || off == 44 || off == 48 || off == 52 || off == 56 || off == 60;
  }

  lemma ValidEffect(p: Prog, pc: nat, acc: bv32, d: Data)
    requires ValidProg(p) && pc < |p|
    ensures match Execute(p[pc], acc, d)
            case Next(skip, _) => pc + 1 + skip < |p|
            case Return(k) => p[pc] == Ret(k)
            case Fault => false
  {
    hide Load, ValidProg;
    assert ValidInstr(p, pc) by { InstrOfValid(p, pc); }
    match p[pc]
    case LdAbs(off) => ValidLoad(d, off);
    case _ =>
  }

  lemma InstrOfValid(p: Prog, pc: nat)
    requires ValidProg(p) && pc < |p|
    ensures ValidInstr(p, pc)
  {
  }

  /** A valid program returns a value from every instruction, whatever the accumulator
      and the call record, and executes no instruction twice. */
  lemma {:induction false} ValidTerminates(p: Prog, pc: nat, acc: bv32, d: Data) returns (j: nat)
    requires ValidProg(p) && pc < |p|
    ensures pc <= j < |p| && p[j].Ret? && Run(p, pc, acc, d) == Some(p[j].k)
    ensures Steps(p, pc, acc, d) <= |p| - pc
    decreases |p| - pc
  {
    hide Execute, ValidProg;
    ValidEffect(p, pc, acc, d);
    match Execute(p[pc], acc, d)
    case Next(skip, acc') =>
      j := ValidTerminates(p, pc + 1 + skip, acc', d);
    case Return(k) =>
      j := pc;
  }

  /** Jumps are relative, so code behaves the same wherever it is placed. */
  lemma {:induction false} Relocate(pre: Prog, p: Prog, pc: nat, acc: bv32, d: Data)
    ensures Run(pre + p, |pre| + pc, acc, d) == Run(p, pc, acc, d)
    decreases |p| - pc
  {
    if pc < |p| {
      assert (pre + p)[|pre| + pc] == p[pc];
      match Execute(p[pc], acc, d)
      case Next(skip, acc') =>
        Relocate(pre, p, pc + 1 + skip, acc', d);
      case _ =>
    }
  }
}
