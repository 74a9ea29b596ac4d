/** Comparisons of 32-bit and 64-bit arguments, which the macros of `util/bpf_helper.h` build from
    instructions on 32 bits. */
module Wide {
  import opened Bpf
  import opened Bits

  datatype Compare = IsEq | IsNe | HasAny | IsGe | IsGt | IsLe | IsLt

  type Wide64 = n: nat | n < 0x1_0000_0000_0000_0000

  function LoHalf(x: Wide64): Word { x % 0x1_0000_0000 }

  function HiHalf(x: Wide64): Word { x / 0x1_0000_0000 }

  /** The argument as the system call gets it. */
  function Argument(d: Data, i: ArgIndex): nat { Whole(d.hi[i], d.lo[i]) }

  function Whole(hi: nat, lo: nat): nat { 0x1_0000_0000 * hi + lo }

  /** What a comparison is for. */
  predicate True(c: Compare, arg: nat, value: nat) {
    match c
    case IsEq => arg == value
    case IsNe => arg != value
    case HasAny => BitAnd(arg, value) != 0
    case IsGe => arg >= value
    case IsGt => arg > value
    case IsLe => arg <= value
    case IsLt => arg < value
  }

  // ----- the macros -----

  /** `ARG_64`: the low half goes to slot 0, the high half to slot 1 and the accumulator. */
  function Arg64(i: ArgIndex): seq<Instr> { [LoadArgLo(i), StoreMem(0), LoadArgHi(i), StoreMem(1)] }

  /** `JEQ32` and the others, with the instruction to be reached on success. */
  function Code32(c: Compare, value: Word, goal: Instr): seq<Instr> {
    match c
    case IsEq => [Jump(Eq, value, 0, 1), goal]
    case IsNe => [Jump(Eq, value, 1, 0), goal]
    case HasAny => [Jump(AnyBit, value, 0, 1), goal]
    case IsGe => [Jump(Ge, value, 0, 1), goal]
    case IsGt => [Jump(Gt, value, 0, 1), goal]
    case IsLe => [Jump(Gt, value, 1, 0), goal]
    case IsLt => [Jump(Ge, value, 1, 0), goal]
  }

  /** The comparisons of the high halves in front of the load of the low half. */
  function Upper(c: Compare, hi: Word): seq<Instr> {
    match c
    case IsEq => [Jump(Eq, hi, 0, 5)]
    case IsNe => [Jump(Eq, hi, 0, 3)]
    case HasAny => [Jump(AnyBit, hi, 3, 0)]
    case IsGe | IsGt => [Jump(Gt, hi, 4, 0), Jump(Eq, hi, 0, 5)]
    case IsLe | IsLt => [Jump(Ge, hi, 0, 4), Jump(Eq, hi, 0, 5)]
  }

  /** The comparison of the low halves. */
  function Lower(c: Compare, lo: Word): Instr {
    match c
    case IsEq => Jump(Eq, lo, 0, 2)
    case IsNe => Jump(Eq, lo, 2, 0)
    case HasAny => Jump(AnyBit, lo, 0, 2)
    case IsGe => Jump(Ge, lo, 0, 2)
    case IsGt => Jump(Gt, lo, 0, 2)
    case IsLe => Jump(Gt, lo, 2, 0)
    case IsLt => Jump(Ge, lo, 2, 0)
  }

  /** `JEQ64` and the others. */
  function Code64(c: Compare, lo: Word, hi: Word, goal: Instr): seq<Instr> {
    Upper(c, hi) + [LoadMem(0), Lower(c, lo), LoadMem(1), goal, LoadMem(1)]
  }

  // ----- what they do -----

  /** The comparison leads to position `at` if it is true of `arg` and to `end` otherwise, with the
      machine as it was. */
  ghost predicate Leads(p: seq<Instr>, d: Data, s: Machine, yes: bool, at: nat, end: nat) {
    Run(p, d, 0, s) == Run(p, d, if yes then at else end, s)
  }

  /** The 32-bit comparisons compare the accumulator. */
  lemma Code32Decides(c: Compare, value: Word, goal: Instr, d: Data, s: Machine)
    ensures Leads(Code32(c, value, goal), d, s, True(c, s.acc, value), 1, 2)
  {
    JumpStep(Code32(c, value, goal), d, 0, s);
  }

  lemma JumpStep(p: seq<Instr>, d: Data, pc: nat, s: Machine)
    requires pc < |p| && p[pc].Jump?
    ensures Run(p, d, pc, s) == Run(p, d, pc + 1 + if Holds(p[pc].cond, s.acc, p[pc].k) then p[pc].jt else p[pc].jf, s)
  {
  }

  lemma LoadStep(p: seq<Instr>, d: Data, pc: nat, s: Machine)
    requires pc < |p| && p[pc].LoadMem?
    ensures Run(p, d, pc, s) == Run(p, d, pc + 1, s.(acc := s.mem[p[pc].slot]))
  {
  }

  /** From the load of the low half on: to the instruction for success or to the end, and the high
      half is in the accumulator again. */
  lemma LowerDecides(p: seq<Instr>, n: nat, c: Compare, lo: Word, goal: Instr, d: Data, s: Machine)
    requires n + 5 == |p| && p[n..] == [LoadMem(0), Lower(c, lo), LoadMem(1), goal, LoadMem(1)]
    requires s.mem[1] == s.acc
    ensures Run(p, d, n, s) == Run(p, d, if True(c, s.mem[0], lo) then n + 3 else n + 5, s)
  {
    assert p[n] == p[n..][0] && p[n + 1] == p[n..][1] && p[n + 2] == p[n..][2] && p[n + 4] == p[n..][4];
    var t := s.(acc := s.mem[0]);
    LoadStep(p, d, n, s);
    JumpStep(p, d, n + 1, t);
    if True(c, t.acc, lo) {
      LoadStep(p, d, n + 2, t);
    } else {
      LoadStep(p, d, n + 4, t);
    }
  }

  /** How a comparison of numbers of 64 bits goes by their halves. */
  lemma ByHalves(c: Compare, hi: Word, lo: Word, h: Word, l: Word)
    ensures True(c, Whole(hi, lo), Whole(h, l))
            <==> if c.HasAny? then True(c, hi, h) || True(c, lo, l)
                 else if hi == h then True(c, lo, l)
                 else True(c, hi, h)
  {
    if c.HasAny? {
      CommonBit(Whole(hi, lo), Whole(h, l), hi, lo, h, l);
    }
  }

  /** The position of the instruction for success. */
  function Success(c: Compare): nat { if c.IsEq? || c.IsNe? || c.HasAny? then 4 else 5 }

  /** With the low half of a number in slot 0 and the high half in slot 1 and the accumulator, the
      64-bit comparisons compare the number, and leave the machine so. */
  lemma Code64Decides(c: Compare, lo: Word, hi: Word, goal: Instr, d: Data, s: Machine)
    requires s.mem[1] == s.acc
    ensures Leads(Code64(c, lo, hi, goal), d, s, True(c, Whole(s.acc, s.mem[0]), Whole(hi, lo)), Success(c),
                  Success(c) + 2)
  {
    var p := Code64(c, lo, hi, goal);
    var n := |Upper(c, hi)|;
    assert p[n..] == [LoadMem(0), Lower(c, lo), LoadMem(1), goal, LoadMem(1)];
    ByHalves(c, s.acc, s.mem[0], hi, lo);
    LowerDecides(p, n, c, lo, goal, d, s);
    assert p[0] == Upper(c, hi)[0];
    JumpStep(p, d, 0, s);
    if n == 2 {
      assert p[1] == Upper(c, hi)[1];
      JumpStep(p, d, 1, s);
    }
  }

  lemma Code64Returns(c: Compare, value: Wide64, action: Word, d: Data, s: Machine)
    requires s.mem[1] == s.acc
    ensures var p := Code64(c, LoHalf(value), HiHalf(value), Ret(action));
            Run(p, d, 0, s) == if True(c, Whole(s.acc, s.mem[0]), value) then Returned(action) else Left(|p|, s)
  {
    var p := Code64(c, LoHalf(value), HiHalf(value), Ret(action));
    Code64Decides(c, LoHalf(value), HiHalf(value), Ret(action), d, s);
    assert Whole(HiHalf(value), LoHalf(value)) == value;
    assert p[Success(c)] == Ret(action) && |p| == Success(c) + 2;
  }

  lemma Arg64Loads(i: ArgIndex, d: Data, s: Machine)
    ensures Run(Arg64(i), d, 0, s) == Left(4, Machine(d.hi[i], s.mem[0 := d.lo[i]][1 := d.hi[i]]))
  {
    var p := Arg64(i);
    var s1 := s.(acc := d.lo[i]);
    var s2 := s1.(mem := s.mem[0 := d.lo[i]]);
    var s3 := s2.(acc := d.hi[i]);
    assert Run(p, d, 0, s) == Run(p, d, 1, s1) == Run(p, d, 2, s2) == Run(p, d, 3, s3);
  }

  /** A body that returns `action` when a 64-bit argument compares to a value as stated, and goes on
      otherwise. */
  lemma CompareArgument(c: Compare, i: ArgIndex, value: Wide64, action: Word, d: Data, s: Machine)
    ensures var p := Arg64(i) + Code64(c, LoHalf(value), HiHalf(value), Ret(action));
            Run(p, d, 0, s) == if True(c, Argument(d, i), value) then Returned(action)
                               else Left(|p|, Machine(d.hi[i], s.mem[0 := d.lo[i]][1 := d.hi[i]]))
  {
    var code := Code64(c, LoHalf(value), HiHalf(value), Ret(action));
    var t := Machine(d.hi[i], s.mem[0 := d.lo[i]][1 := d.hi[i]]);
    Arg64Loads(i, d, s);
    Code64Returns(c, value, action, d, t);
    RunSeq(Arg64(i), code, d, 0, s);
  }
}
