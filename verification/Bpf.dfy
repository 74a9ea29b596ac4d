/**
 The classic-BPF machine that seccomp runs, restricted to the instructions which
 the macros of `util/bpf_helper.h` and the code in `policybuilder.cc` emit.

 Jumps are relative and forward only, so a run always ends: either in a RET, or by
 leaving the program at some position at or past its end.
 */
module Bpf {
  type Word = n: nat | n < 0x1_0000_0000
  type Offset8 = n: nat | n < 0x100
  type Slot = n: nat | n < 16
  type ArgIndex = n: nat | n < 6
  type Args = s: seq<Word> | |s| == 6 witness [0, 0, 0, 0, 0, 0]
  type Memory = s: seq<Word> | |s| == 16 witness [0, 0, 0, 0, 0, 0, 0, 0, 0, 0, 0, 0, 0, 0, 0, 0]

  datatype Cond = Eq | Gt | Ge | AnyBit

  datatype Instr =
    | LoadNr                    // BPF_LD+BPF_W+BPF_ABS, offsetof(seccomp_data, nr)
    | LoadArch                  // ... offsetof(seccomp_data, arch)
    | LoadArgLo(arg: ArgIndex)  // ... the low half of args[arg]
    | LoadArgHi(arg: ArgIndex)  // ... the high half of args[arg]
    | LoadMem(slot: Slot)       // BPF_LD+BPF_MEM
    | StoreMem(slot: Slot)      // BPF_ST
    | And(mask: Word)           // BPF_ALU+BPF_AND+BPF_K
    | Ja(off: Word)             // BPF_JMP+BPF_JA
    | Jump(cond: Cond, k: Word, jt: Offset8, jf: Offset8)
    | Ret(k: Word)              // BPF_RET+BPF_K

  /** The part of `struct seccomp_data` a filter can observe. */
  datatype Data = Data(nr: Word, arch: Word, lo: Args, hi: Args)

  datatype Machine = Machine(acc: Word, mem: Memory)

  datatype Step = Goto(skip: nat, next: Machine) | Halt(action: Word)

  datatype Outcome = Returned(action: Word) | Left(pc: nat, state: Machine)

  /** Stores to a `uint8_t` and `uint32_t` truncate. */
  function U8(n: nat): (r: Offset8)
    ensures r == n <==> n < 0x100
  {
    n % 0x100
  }

  function U32(n: nat): (r: Word)
    ensures r == n <==> n < 0x1_0000_0000
  {
    n % 0x1_0000_0000
  }

  /** Bitwise conjunction. */
  function BitAnd(a: nat, b: nat): (r: nat)
    ensures r <= a
  {
    if a == 0 || b == 0 then 0
    else (if a % 2 == 1 && b % 2 == 1 then 1 else 0) + 2 * BitAnd(a / 2, b / 2)
  }

  predicate Holds(c: Cond, a: Word, k: Word) {
    match c
    case Eq => a == k
    case Gt => a > k
    case Ge => a >= k
    case AnyBit => BitAnd(a, k) != 0
  }

  function Execute(i: Instr, d: Data, s: Machine): Step {
    match i
    case LoadNr => Goto(0, s.(acc := d.nr))
    case LoadArch => Goto(0, s.(acc := d.arch))
    case LoadArgLo(n) => Goto(0, s.(acc := d.lo[n]))
    case LoadArgHi(n) => Goto(0, s.(acc := d.hi[n]))
    case LoadMem(n) => Goto(0, s.(acc := s.mem[n]))
    case StoreMem(n) => Goto(0, s.(mem := s.mem[n := s.acc]))
    case And(mask) => Goto(0, s.(acc := BitAnd(s.acc, mask)))
    case Ja(off) => Goto(off, s)
    case Jump(c, k, jt, jf) => Goto(if Holds(c, s.acc, k) then jt else jf, s)
    case Ret(k) => Halt(k)
  }

  /** Runs `p` from position `pc`. */
  function Run(p: seq<Instr>, d: Data, pc: nat, s: Machine): Outcome
    decreases |p| - pc
  {
    if pc >= |p| then Left(pc, s)
    else
      match Execute(p[pc], d, s)
      case Goto(skip, next) => Run(p, d, pc + 1 + skip, next)
      case Halt(k) => Returned(k)
  }

  /** The same outcome seen from `n` instructions earlier. */
  function Shift(o: Outcome, n: nat): Outcome {
    match o
    case Returned(k) => o
    case Left(pc, s) => Left(pc + n, s)
  }

  /** Jumps are relative: instructions in front of the entry point do not matter. */
  lemma {:induction false} RunSuffix(pre: seq<Instr>, p: seq<Instr>, d: Data, pc: nat, s: Machine)
    ensures Run(pre + p, d, |pre| + pc, s) == Shift(Run(p, d, pc, s), |pre|)
    decreases |p| - pc
  {
    if pc < |p| {
      assert (pre + p)[|pre| + pc] == p[pc];
      match Execute(p[pc], d, s)
      case Goto(skip, next) =>
        RunSuffix(pre, p, d, pc + 1 + skip, next);
        assert |pre| + pc + 1 + skip == |pre| + (pc + 1 + skip);
      case Halt(_) =>
    }
  }

  /** Instructions behind `p` do not matter until `p` is left. */
  lemma {:induction false} RunPrefix(p: seq<Instr>, q: seq<Instr>, d: Data, pc: nat, s: Machine)
    ensures match Run(p, d, pc, s)
            case Returned(k) => Run(p + q, d, pc, s) == Returned(k)
            case Left(e, s') => e >= |p| && Run(p + q, d, pc, s) == Run(p + q, d, e, s')
    decreases |p| - pc
  {
    if pc < |p| {
      assert (p + q)[pc] == p[pc];
      match Execute(p[pc], d, s)
      case Goto(skip, next) => RunPrefix(p, q, d, pc + 1 + skip, next);
      case Halt(_) =>
    }
  }

  /** Running `p` followed by `q` runs `p`, and then `q` from where `p` was left. */
  lemma RunSeq(p: seq<Instr>, q: seq<Instr>, d: Data, pc: nat, s: Machine)
    ensures match Run(p, d, pc, s)
            case Returned(k) => Run(p + q, d, pc, s) == Returned(k)
            case Left(e, s') => e >= |p| && Run(p + q, d, pc, s) == Shift(Run(q, d, e - |p|, s'), |p|)
  {
    RunPrefix(p, q, d, pc, s);
    match Run(p, d, pc, s)
    case Returned(_) =>
    case Left(e, s') => RunSuffix(p, q, d, e - |p|, s');
  }

  /** `CheckBpfBounds`: a jump skips at most `maxJump` instructions. */
  predicate CheckBpfBounds(i: Instr, maxJump: nat) {
    match i
    case Ja(off) => off <= maxJump
    case Jump(_, _, jt, jf) => jt <= maxJump && jf <= maxJump
    case _ => true
  }

  predicate Bounded(p: seq<Instr>) {
    forall i :: 0 <= i < |p| ==> CheckBpfBounds(p[i], |p| - i - 1)
  }

  /** Instruction `i` can jump past the end, whether it ever does or not. */
  predicate LeadsOut(p: seq<Instr>, i: nat)
    requires i < |p|
  {
    || (p[i].Ja? && i + 1 + p[i].off > |p|)
    || (p[i].Jump? && (i + 1 + p[i].jt > |p| || i + 1 + p[i].jf > |p|))
  }

  lemma BoundedIff(p: seq<Instr>)
    ensures Bounded(p) <==> forall i :: 0 <= i < |p| ==> !LeadsOut(p, i)
  {
    forall i | 0 <= i < |p| ensures LeadsOut(p, i) <==> !CheckBpfBounds(p[i], |p| - i - 1) {
    }
  }

  /** A bounded program can only return or reach exactly its end. */
  lemma {:induction false} BoundedRun(p: seq<Instr>, d: Data, pc: nat, s: Machine)
    requires Bounded(p) && pc <= |p|
    ensures Run(p, d, pc, s).Left? ==> Run(p, d, pc, s).pc == |p|
    decreases |p| - pc
  {
    if pc < |p| {
      assert CheckBpfBounds(p[pc], |p| - pc - 1);
      match Execute(p[pc], d, s)
      case Goto(skip, next) => BoundedRun(p, d, pc + 1 + skip, next);
      case Halt(_) =>
    }
  }
}
