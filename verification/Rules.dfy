/**
 The user's part of a policy as a list of rules with first-match semantics, and the
 proof that the code emitted for the list decides exactly as the list does.
 */
module Rules {
  import opened Bpf
  import opened Seccomp
  import opened Dispatch

  datatype Rule =
    | Simple(nr: Word, action: Word)                  // SYSCALL(nr, action)
    | OnSyscalls(nums: seq<Word>, body: seq<Instr>)   // AddPolicyOnSyscalls(nums, body)
    | Always(action: Word)                            // DefaultAction

  /** What a rule, or a list of rules, says about one system call.  Passing on keeps what
      bodies left in the scratch memory. */
  datatype Verdict = Decide(action: Word) | Pass(mem: Memory)

  // ----- emitted code -----

  /** A TRACE, which the upper half without its first bit says, of another value in the lower half
      is replaced by one of the host's architecture. */
  function Normalise(host: Host, i: Instr): Instr {
    if i.Ret? && i.k / 0x1_0000 % 0x8000 == RET_TRACE / 0x1_0000 && i.k % 0x1_0000 != host.Arch()
    then Ret(Trace(host.Arch())) else i
  }

  function NormaliseAll(host: Host, body: seq<Instr>): (r: seq<Instr>)
    ensures |r| == |body|
    ensures forall i :: 0 <= i < |body| ==> r[i] == Normalise(host, body[i])
  {
    seq(|body|, i requires 0 <= i < |body| => Normalise(host, body[i]))
  }

  /** What a body returns once it is normalised: a TRACE carries the host's architecture. */
  function Retraced(host: Host, k: Word): Word {
    if k / 0x1_0000 % 0x8000 != 0x7ff0 || k % 0x1_0000 == host.Arch() then k else 0x7ff0_0000 + host.Arch()
  }

  /** Normalising a body changes the TRACEs that it returns, and nothing else that it does. */
  lemma {:induction false} NormalisedRuns(host: Host, body: seq<Instr>, d: Data, pc: nat, s: Machine)
    ensures Run(NormaliseAll(host, body), d, pc, s)
            == match Run(body, d, pc, s)
               case Returned(k) => Returned(Retraced(host, k))
               case Left(e, s') => Left(e, s')
    decreases |body| - pc
  {
    if pc < |body| {
      NormalisedStep(host, body[pc], d, s);
      match Execute(body[pc], d, s)
      case Goto(skip, next) => NormalisedRuns(host, body, d, pc + 1 + skip, next);
      case Halt(_) =>
    }
  }

  lemma NormalisedStep(host: Host, i: Instr, d: Data, s: Machine)
    ensures Execute(Normalise(host, i), d, s)
            == match Execute(i, d, s)
               case Goto(skip, next) => Goto(skip, next)
               case Halt(k) => Halt(Retraced(host, k))
  {
  }

  /** The normalised body and the load that restores the number behind it. */
  function Tail(host: Host, body: seq<Instr>): (r: seq<Instr>)
    ensures |r| == |body| + 1
  {
    NormaliseAll(host, body) + [LoadNr]
  }

  function Compile(host: Host, r: Rule): seq<Instr> {
    match r
    case Simple(nr, action) => [Jump(Eq, nr, 0, 1), Ret(action)]
    case OnSyscalls(nums, body) => Emit(nums, Tail(host, body), 0).out
    case Always(action) => [Ret(action)]
  }

  function CompileAll(host: Host, rules: seq<Rule>): seq<Instr> {
    if rules == [] then [] else Compile(host, rules[0]) + CompileAll(host, rules[1..])
  }

  /** The bodies `AddPolicyOnSyscalls` does not reject. */
  predicate Accepted(r: Rule) {
    r.OnSyscalls? ==> Bounded(r.body) && |r.body| + 1 <= 0xffff_ffff
  }

  // ----- first-match semantics -----

  /** The body, run from its instruction `entry` with the number in the accumulator. */
  function BodyMeaning(host: Host, body: seq<Instr>, entry: nat, d: Data, m: Memory): Verdict {
    match Run(NormaliseAll(host, body), d, entry, Machine(d.nr, m))
    case Returned(k) => Decide(k)
    case Left(_, s) => Pass(s.mem)
  }

  /** An empty list of numbers leaves the body without any comparison in front. */
  function Meaning(host: Host, r: Rule, d: Data, m: Memory): Verdict {
    match r
    case Simple(nr, action) => if d.nr == nr then Decide(action) else Pass(m)
    case OnSyscalls(nums, body) =>
      if nums == [] || d.nr in nums then BodyMeaning(host, body, Entry(nums, d.nr, |body| + 1, 0), d, m)
      else Pass(m)
    case Always(action) => Decide(action)
  }

  function FirstMatch(host: Host, rules: seq<Rule>, d: Data, m: Memory): Verdict {
    if rules == [] then Pass(m)
    else
      match Meaning(host, rules[0], d, m)
      case Decide(k) => Decide(k)
      case Pass(m') => FirstMatch(host, rules[1..], d, m')
  }

  /** The machine's outcome that stands for a verdict of code of length `n`. */
  function OutcomeOf(v: Verdict, n: nat, d: Data): Outcome {
    match v
    case Decide(k) => Returned(k)
    case Pass(m) => Left(n, Machine(d.nr, m))
  }

  // ----- the code decides as the rules do -----

  /** A body only returns, or reaches its trailing load with the number restored. */
  lemma TailRun(host: Host, body: seq<Instr>, entry: nat, d: Data, m: Memory)
    requires Bounded(body) && entry <= |body| + 1 && (entry > |body| ==> entry == 1)
    ensures Run(Tail(host, body), d, entry, Machine(d.nr, m))
            == OutcomeOf(BodyMeaning(host, body, entry, d, m), |body| + 1, d)
  {
    var p := NormaliseAll(host, body);
    if entry <= |body| {
      assert Bounded(p) by {
        forall i | 0 <= i < |p| ensures CheckBpfBounds(p[i], |p| - i - 1) {
          assert CheckBpfBounds(body[i], |body| - i - 1);
        }
      }
      BoundedRun(p, d, entry, Machine(d.nr, m));
      RunSeq(p, [LoadNr], d, entry, Machine(d.nr, m));
    }
  }

  /** A number outside the list leaves the block at its end with A = nr; one in the list,
      or any number when the list is empty, enters the body at `Entry`. */
  lemma {:induction false} CompiledBlock(host: Host, nums: seq<Word>, body: seq<Instr>, d: Data, m: Memory)
    requires Bounded(body) && |body| + 1 <= 0xffff_ffff
    requires |Emit(nums, Tail(host, body), 0).out| < 0xffff_ffff
    ensures Run(Emit(nums, Tail(host, body), 0).out, d, 0, Machine(d.nr, m))
            == OutcomeOf(Meaning(host, OnSyscalls(nums, body), d, m), |Emit(nums, Tail(host, body), 0).out|, d)
  {
    var s := Machine(d.nr, m);
    var tail := Tail(host, body);
    var entry := Entry(nums, d.nr, |tail|, 0);
    if nums == [] {
      TailRun(host, body, 0, d, m);
    } else if d.nr in nums {
      TailRun(host, body, entry, d, m);
      MatchEnters(nums, tail, 0, d, s);
    } else {
      MissPasses(nums, tail, 0, d, s);
    }
  }

  /** The emitted code decides as its rule does and is left at its end with A = nr. */
  lemma CompiledRule(host: Host, r: Rule, d: Data, m: Memory)
    requires Accepted(r) && |Compile(host, r)| < 0xffff_ffff
    ensures Run(Compile(host, r), d, 0, Machine(d.nr, m))
            == OutcomeOf(Meaning(host, r, d, m), |Compile(host, r)|, d)
  {
    match r
    case Simple(nr, action) => CompareAndJump(Compile(host, r), d, Machine(d.nr, m), nr, 0, 1);
    case OnSyscalls(nums, body) => CompiledBlock(host, nums, body, d, m);
    case Always(action) =>
  }

  /** Code behind a rule runs exactly when the rule passes, from its start and with A = nr. */
  lemma HeadRule(host: Host, r: Rule, rest: seq<Instr>, d: Data, m: Memory)
    requires Accepted(r) && |Compile(host, r)| < 0xffff_ffff
    ensures var o := Run(Compile(host, r) + rest, d, 0, Machine(d.nr, m));
            match Meaning(host, r, d, m)
            case Decide(k) => o == Returned(k)
            case Pass(m') => o == Shift(Run(rest, d, 0, Machine(d.nr, m')), |Compile(host, r)|)
  {
    CompiledRule(host, r, d, m);
    RunSeq(Compile(host, r), rest, d, 0, Machine(d.nr, m));
  }

  /** The code emitted for a list of rules decides by first match. */
  lemma {:induction false} CompiledRules(host: Host, rules: seq<Rule>, d: Data, m: Memory)
    requires forall r :: r in rules ==> Accepted(r) && |Compile(host, r)| < 0xffff_ffff
    ensures Run(CompileAll(host, rules), d, 0, Machine(d.nr, m))
            == OutcomeOf(FirstMatch(host, rules, d, m), |CompileAll(host, rules)|, d)
  {
    if rules != [] {
      HeadRule(host, rules[0], CompileAll(host, rules[1..]), d, m);
      match Meaning(host, rules[0], d, m)
      case Decide(_) =>
      case Pass(m') => CompiledRules(host, rules[1..], d, m');
    }
  }

  // ----- when the block dispatches to the first instruction -----

  /** What the block is for: run the body from its start when the number is listed. */
  function IdealMeaning(host: Host, nums: seq<Word>, body: seq<Instr>, d: Data, m: Memory): Verdict {
    if nums == [] || d.nr in nums then BodyMeaning(host, body, 0, d, m) else Pass(m)
  }

  /** The block emitted with `skew` does on `d` what it is for. */
  ghost predicate DispatchesWell(host: Host, nums: seq<Word>, body: seq<Instr>, skew: nat, d: Data, m: Memory)
    requires skew <= 1
  {
    var out := Emit(nums, Tail(host, body), skew).out;
    Run(out, d, 0, Machine(d.nr, m)) == OutcomeOf(IdealMeaning(host, nums, body, d, m), |out|, d)
  }

  lemma {:induction false} EmitLength(nums: seq<Word>, tail: seq<Instr>, skew: nat)
    requires 1 <= |tail| && skew <= 1
    ensures |Emit(nums, tail, skew).out| <= |tail| + 3 * |nums|
  {
    if nums != [] {
      EmitLength(nums[1..], tail, skew);
    }
  }

  /** The code dispatches well on every body of `n` instructions exactly when the body is
      empty or the list needs no helper jump: 256 numbers, or 255 behind a body of 255 or
      more instructions. */
  lemma DispatchExact(host: Host, nums: seq<Word>, n: nat)
    requires n + 1 + 3 * |nums| < 0xffff_ffff
    ensures (forall body, d, m | |body| == n && Bounded(body) :: DispatchesWell(host, nums, body, 0, d, m))
            <==> n == 0 || |nums| <= Reach(n + 1)
  {
    if n == 0 || |nums| <= Reach(n + 1) {
      forall body, d, m | |body| == n && Bounded(body) ensures DispatchesWell(host, nums, body, 0, d, m) {
        EmitLength(nums, Tail(host, body), 0);
        CompiledBlock(host, nums, body, d, m);
      }
    } else {
      var body, d, m := MisdirectedBody(host, nums, n);
      assert !DispatchesWell(host, nums, body, 0, d, m);
    }
  }

  /** A body whose first instruction is skipped when the list is too long: it should return
      for the first number of the list, and the emitted block passes instead. */
  lemma MisdirectedBody(host: Host, nums: seq<Word>, n: nat) returns (body: seq<Instr>, d: Data, m: Memory)
    requires n + 1 + 3 * |nums| < 0xffff_ffff && n > 0 && |nums| > Reach(n + 1)
    ensures |body| == n && Bounded(body) && !DispatchesWell(host, nums, body, 0, d, m)
  {
    body := [Ret(RET_ALLOW)] + seq(n - 1, _ => LoadNr);
    var args: Args := [0, 0, 0, 0, 0, 0];
    d := Data(nums[0], 0, args, args);
    m := [0, 0, 0, 0, 0, 0, 0, 0, 0, 0, 0, 0, 0, 0, 0, 0];
    EmitLength(nums, Tail(host, body), 0);
    CompiledBlock(host, nums, body, d, m);
    assert nums[0] in Far(nums, n + 1);
    LoadsPass(NormaliseAll(host, body), d, 1, Machine(d.nr, m));
    assert NormaliseAll(host, body)[0].Ret?;
  }

  lemma {:induction false} LoadsPass(p: seq<Instr>, d: Data, pc: nat, s: Machine)
    requires pc <= |p| && forall i :: pc <= i < |p| ==> p[i] == LoadNr
    ensures Run(p, d, pc, s).Left?
    decreases |p| - pc
  {
    if pc < |p| {
      LoadsPass(p, d, pc + 1, s.(acc := d.nr));
    }
  }

  /** With helper offsets one smaller the block dispatches well for lists of every length. */
  lemma {:induction false} RepairedDispatch(host: Host, nums: seq<Word>, body: seq<Instr>, d: Data, m: Memory)
    requires Bounded(body) && |body| + 1 + 3 * |nums| < 0xffff_ffff
    ensures DispatchesWell(host, nums, body, 1, d, m)
  {
    var tail := Tail(host, body);
    EmitLength(nums, tail, 1);
    if nums == [] || d.nr in nums {
      TailRun(host, body, 0, d, m);
      if nums != [] { MatchEnters(nums, tail, 1, d, Machine(d.nr, m)); }
    } else {
      MissPasses(nums, tail, 1, d, Machine(d.nr, m));
    }
  }
}
