/** The whole filter: what it decides, and that it always decides. */
module Filters {
  import opened Options
  import opened Sequences
  import opened Bits
  import opened Bpf
  import opened Seccomp
  import opened Dispatch
  import opened Rules
  import opened PolicyBuilders
  import opened Policies

  function NotifOutcome(o: Outcome): Outcome {
    if o == Returned(RET_KILL) then Returned(RET_USER_NOTIF) else o
  }

  /** Replacing the KILLs of a program changes its decisions in that way and no other. */
  lemma {:induction false} KillsReplaced(p: seq<Instr>, d: Data, pc: nat, s: Machine)
    ensures Run(NotifAll(p), d, pc, s) == NotifOutcome(Run(p, d, pc, s))
    decreases |p| - pc
  {
    if pc < |p| {
      match Execute(p[pc], d, s)
      case Goto(skip, next) =>
        assert Execute(NotifAll(p)[pc], d, s) == Goto(skip, next);
        KillsReplaced(p, d, pc + 1 + skip, next);
      case Halt(_) =>
    }
  }

  /** The default policy denies what `Denied` says and leaves the rest to the user's part. */
  lemma DefaultChecks(host: Host, p: Policy, notif: bool, d: Data, s: Machine) returns (acc: Word)
    ensures Checks(DefaultPolicy(host, p, notif), d, s,
                   match EntryDecision(host, notif, d)
                   case Some(k) => Some(k)
                   case None => if Denied(host, p.handlesPtrace, p.handlesBpf, d) then Some(RET_KILL) else None,
                   acc)
  {
    var t := s.(acc := d.nr);
    var v0 := EntryDecision(host, notif, d);
    EntriesCheck(host, notif, d, s);
    var v1 := if d.nr == host.Ptrace() && !p.handlesPtrace then Some(RET_KILL) else None;
    DenyChecks(p.handlesPtrace, host.Ptrace(), d, t);
    CheckSeq(EntryChecks(host, notif), DenyCheck(p.handlesPtrace, host.Ptrace()), d, s, v0, d.nr, v1, d.nr);
    var w1 := if v0.Some? then v0 else v1;
    var p1 := EntryChecks(host, notif) + DenyCheck(p.handlesPtrace, host.Ptrace());
    var v2 := if d.nr == host.BpfNr() && !p.handlesBpf then Some(RET_KILL) else None;
    DenyChecks(p.handlesBpf, host.BpfNr(), d, t);
    CheckSeq(p1, DenyCheck(p.handlesBpf, host.BpfNr()), d, s, w1, d.nr, v2, d.nr);
    var w2 := if w1.Some? then w1 else v2;
    var p2 := p1 + DenyCheck(p.handlesBpf, host.BpfNr());
    acc := FlagTail(host, p2, d, s, w2);
    FlagBits(d.lo[0], CLONE_UNTRACED, FILTER_FLAG_NEW_LISTENER);
    FlagBits(d.lo[1], CLONE_UNTRACED, FILTER_FLAG_NEW_LISTENER);
  }

  /** The last two of the default checks. */
  lemma FlagTail(host: Host, p2: seq<Instr>, d: Data, s: Machine, w2: Option<Word>) returns (acc: Word)
    requires Checks(p2, d, s, w2, d.nr)
    ensures Checks(p2 + CloneCheck(host) + ListenerCheck(host), d, s,
                   if w2.Some? then w2
                   else if d.nr == host.Clone() && BitAnd(d.lo[0], CLONE_UNTRACED) != 0 then Some(RET_KILL)
                   else if d.nr == host.SeccompNr() && BitAnd(d.lo[1], FILTER_FLAG_NEW_LISTENER) != 0
                     then Some(RET_KILL)
                   else None,
                   acc)
  {
    var t := s.(acc := d.nr);
    var v3 := if d.nr == host.Clone() && BitAnd(d.lo[0], CLONE_UNTRACED) != 0 then Some(RET_KILL) else None;
    var acc3 := if d.nr == host.Clone() then d.lo[0] else d.nr;
    FlagChecks(host.Clone(), 0, CLONE_UNTRACED, d, t);
    CheckSeq(p2, CloneCheck(host), d, s, w2, d.nr, v3, acc3);
    var w3 := if w2.Some? then w2 else v3;
    var v4 := if d.nr == host.SeccompNr() && BitAnd(d.lo[1], FILTER_FLAG_NEW_LISTENER) != 0
              then Some(RET_KILL) else None;
    acc := if d.nr == host.SeccompNr() then d.lo[1] else d.nr;
    ListenerChecks(host, d, s.(acc := acc3));
    CheckSeq(p2 + CloneCheck(host), ListenerCheck(host), d, s, w3, acc3, v4, acc);
  }

  /** The user's part decides by first match, and by KILL when no rule does. */
  lemma UserPartReturns(host: Host, rules: seq<Rule>, d: Data, s: Machine)
    requires forall r :: r in rules ==> Accepted(r) && |Compile(host, r)| < 0xffff_ffff
    ensures Run([LoadNr] + CompileAll(host, rules) + [Ret(RET_KILL)], d, 0, s)
            == Returned(UserDecision(host, rules, d, s.mem))
  {
    var code := CompileAll(host, rules);
    CompiledRules(host, rules, d, s.mem);
    LoadThen(code, d, s);
    KillAfter([LoadNr] + code, d, s);
  }

  lemma LoadThen(code: seq<Instr>, d: Data, s: Machine)
    ensures Run([LoadNr] + code, d, 0, s) == Shift(Run(code, d, 0, Machine(d.nr, s.mem)), 1)
  {
    assert Run([LoadNr], d, 0, s) == Left(1, Machine(d.nr, s.mem));
    RunSeq([LoadNr], code, d, 0, s);
  }

  /** Code that is left exactly at its end runs into the KILL behind it. */
  lemma KillAfter(code: seq<Instr>, d: Data, s: Machine)
    requires Run(code, d, 0, s).Left? ==> Run(code, d, 0, s).pc == |code|
    ensures Run(code + [Ret(RET_KILL)], d, 0, s)
            == if Run(code, d, 0, s).Returned? then Run(code, d, 0, s) else Returned(RET_KILL)
  {
    RunSeq(code, [Ret(RET_KILL)], d, 0, s);
  }

  /** Every rule of a builder that can be built is small enough. */
  lemma {:induction false} RuleWithinPolicy(host: Host, rules: seq<Rule>, r: Rule)
    requires r in rules
    ensures |Compile(host, r)| <= |CompileAll(host, rules)|
  {
    if r != rules[0] {
      RuleWithinPolicy(host, rules[1..], r);
    }
  }

  lemma BuildableRules(host: Host, b: Builder)
    requires Buildable(host, b)
    ensures forall r :: r in b.AllRules() ==> Accepted(r) && |Compile(host, r)| < 0xffff_ffff
  {
    forall r | r in b.AllRules() ensures Accepted(r) && |Compile(host, r)| < 0xffff_ffff {
      if r in b.rules {
        RuleWithinPolicy(host, b.rules, r);
      }
    }
  }

  function PolicyOf(host: Host, b: Builder): Policy {
    Policy(CompileAll(host, b.AllRules()), b.handlesBpf, b.handlesPtrace)
  }

  /** Checks in front of the user's part decide first. */
  lemma CheckedUserPart(host: Host, checks: seq<Instr>, rules: seq<Rule>, d: Data, s: Machine, v: Option<Word>,
                        acc: Word)
    requires Checks(checks, d, s, v, acc)
    requires forall r :: r in rules ==> Accepted(r) && |Compile(host, r)| < 0xffff_ffff
    ensures Run(checks + [LoadNr] + CompileAll(host, rules) + [Ret(RET_KILL)], d, 0, s)
            == Returned(if v.Some? then v.value else UserDecision(host, rules, d, s.mem))
  {
    var code := CompileAll(host, rules);
    var user := [LoadNr] + code + [Ret(RET_KILL)];
    UserPartReturns(host, rules, d, s.(acc := acc));
    RunSeq(checks, user, d, 0, s);
    Regroups(checks, [LoadNr], code, [Ret(RET_KILL)]);
  }

  lemma AssembledDecides(host: Host, b: Builder, notif: bool, d: Data, s: Machine)
    requires Buildable(host, b)
    ensures Run(Assembled(host, PolicyOf(host, b), notif), d, 0, s)
            == Returned(match EntryDecision(host, notif, d)
                        case Some(k) => k
                        case None =>
                          if Denied(host, b.handlesPtrace, b.handlesBpf, d) then RET_KILL
                          else UserDecision(host, b.AllRules(), d, s.mem))
  {
    var p := PolicyOf(host, b);
    var acc := DefaultChecks(host, p, notif, d, s);
    BuildableRules(host, b);
    var v := match EntryDecision(host, notif, d)
             case Some(k) => Some(k)
             case None => if Denied(host, p.handlesPtrace, p.handlesBpf, d) then Some(RET_KILL) else None;
    CheckedUserPart(host, DefaultPolicy(host, p, notif), b.AllRules(), d, s, v, acc);
  }

  /** For every builder that `TryBuild` accepts, in both modes and on every system call, the
      filter returns, and returns the first-match decision. */
  lemma FilterDecides(host: Host, b: Builder, notif: bool, d: Data, s: Machine)
    requires Buildable(host, b)
    ensures Run(Filter(host, PolicyOf(host, b), notif), d, 0, s) == Returned(Decision(host, b, notif, d, s.mem))
  {
    AssembledDecides(host, b, notif, d, s);
    if notif {
      KillsReplaced(Assembled(host, PolicyOf(host, b), notif), d, 0, s);
    }
  }

  // ----- the decision in terms of what blocks are for -----

  /** First match where a block runs its body from the first instruction for listed numbers. */
  function IdealFirstMatch(host: Host, rules: seq<Rule>, d: Data, m: Memory): Verdict {
    if rules == [] then Pass(m)
    else
      match if rules[0].OnSyscalls? then IdealMeaning(host, rules[0].nums, rules[0].body, d, m)
            else Meaning(host, rules[0], d, m)
      case Decide(k) => Decide(k)
      case Pass(m') => IdealFirstMatch(host, rules[1..], d, m')
  }

  /** The list of numbers needs no helper jump, or the body is empty. */
  predicate InRange(r: Rule) {
    r.OnSyscalls? ==> r.body == [] || |r.nums| <= Reach(|r.body| + 1)
  }

  lemma {:induction false} InRangeIsIdeal(host: Host, rules: seq<Rule>, d: Data, m: Memory)
    requires forall r :: r in rules ==> InRange(r)
    ensures FirstMatch(host, rules, d, m) == IdealFirstMatch(host, rules, d, m)
  {
    if rules != [] {
      assert InRange(rules[0]);
      match Meaning(host, rules[0], d, m)
      case Decide(_) =>
      case Pass(m') => InRangeIsIdeal(host, rules[1..], d, m');
    }
  }

  /** When every list is in range, what passes the default checks is decided by the first rule
      that is meant to decide it, or by KILL, which becomes a notification in that mode. */
  lemma FilterDecidesAsMeant(host: Host, b: Builder, notif: bool, d: Data, s: Machine)
    requires Buildable(host, b) && forall r :: r in b.rules ==> InRange(r)
    requires EntryDecision(host, notif, d) == None && !Denied(host, b.handlesPtrace, b.handlesBpf, d)
    ensures var v := IdealFirstMatch(host, b.AllRules(), d, s.mem);
            var k := if v.Decide? then v.action else RET_KILL;
            Run(Filter(host, PolicyOf(host, b), notif), d, 0, s)
            == Returned(if notif && k == RET_KILL then RET_USER_NOTIF else k)
  {
    FilterDecides(host, b, notif, d, s);
    InRangeIsIdeal(host, b.AllRules(), d, s.mem);
  }

  /** Every sequence of calls that leaves no error and stays within the limit can be built. */
  lemma CallsBuildable(host: Host, calls: seq<Call>)
    ensures var b := ApplyAll(host, EMPTY, calls);
            Buildable(host, b) <==> b.status == None && |CompileAll(host, b.rules)| <= MAX_USER_POLICY_LENGTH
  {
    RulesAccepted(host, EMPTY, calls);
  }

  lemma {:induction false} RulesAccepted(host: Host, b: Builder, calls: seq<Call>)
    requires forall r :: r in b.rules ==> Accepted(r)
    requires forall r :: r in b.overridable ==> r.Simple?
    ensures var b' := ApplyAll(host, b, calls);
            (forall r :: r in b'.rules ==> Accepted(r)) && (forall r :: r in b'.overridable ==> r.Simple?)
    decreases |calls|
  {
    if calls != [] {
      RulesAccepted(host, Apply(host, b, calls[0]), calls[1..]);
    }
  }

  /** The tracking policy sends every system call to the monitor. */
  lemma TrackingTraces(host: Host, d: Data, s: Machine)
    ensures Run(TrackingPolicy(host), d, 0, s)
            == Returned(Trace(if d.arch == host.AuditArch() then host.Arch()
                              else if host.X8664? && d.arch == AUDIT_ARCH_I386 then ARCH_X86 else ARCH_UNKNOWN))
  {
    var t := s.(acc := d.arch);
    var own := ReturnWhen(Eq, host.AuditArch(), Trace(host.Arch()));
    var v := if d.arch == host.AuditArch() then Some(Trace(host.Arch())) else None;
    var w := Some(Trace(if host.X8664? && d.arch == AUDIT_ARCH_I386 then ARCH_X86 else ARCH_UNKNOWN));
    CheckReturn(Eq, host.AuditArch(), Trace(host.Arch()), d, t);
    CheckLoad(LoadArch, own, d, s, d.arch, v, d.arch);
    ForeignArchChecks(host, d, t);
    CheckSeq([LoadArch] + own, ForeignArch(host), d, s, v, d.arch, w, d.arch);
  }
}
