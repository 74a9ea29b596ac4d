/** What the filter of a sequence of calls returns, in terms of the calls alone and in the words of
    the kernel interface. */
module CallLaws {
  import opened Options
  import opened Bpf
  import opened Seccomp
  import opened Rules
  import opened PolicyBuilders
  import opened Policies
  import opened Filters
  import opened BuilderLaws

  // ----- which calls can be built -----

  /** The error of the last body that is rejected. */
  function Rejection(calls: seq<Call>): Option<Error> {
    if calls == [] then None
    else if Rejection(calls[1..]).Some? then Rejection(calls[1..])
    else if !calls[0].AddPolicyOnSyscalls? then None
    else if !Bounded(calls[0].body) then Some(JumpOutOfBounds)
    else if |calls[0].body| >= 0xffff_ffff then Some(PolicyTooLong)
    else None
  }

  lemma {:induction false} StatusOfCalls(host: Host, b: Builder, calls: seq<Call>)
    ensures ApplyAll(host, b, calls).status == if Rejection(calls).Some? then Rejection(calls) else b.status
    decreases |calls|
  {
    if calls != [] {
      StatusOfCalls(host, Apply(host, b, calls[0]), calls[1..]);
    }
  }

  lemma {:induction false} RejectionIff(calls: seq<Call>)
    ensures Rejection(calls) == None
            <==> forall c :: c in calls && c.AddPolicyOnSyscalls? ==> Bounded(c.body) && |c.body| < 0xffff_ffff
  {
    if calls != [] {
      RejectionIff(calls[1..]);
      assert calls == [calls[0]] + calls[1..];
    }
  }

  /** A policy can be built exactly when every body is accepted and the code is not too long. */
  lemma BuildableIff(host: Host, calls: seq<Call>)
    ensures Buildable(host, ApplyAll(host, EMPTY, calls))
            <==> && |CompileAll(host, ApplyAll(host, EMPTY, calls).rules)| <= 30000
                 && forall c :: c in calls && c.AddPolicyOnSyscalls? ==> Bounded(c.body) && |c.body| < 0xffff_ffff
  {
    CallsBuildable(host, calls);
    StatusOfCalls(host, EMPTY, calls);
    RejectionIff(calls);
  }

  // ----- what the calls say -----

  /** What one call says by itself about a system call. */
  function Says(host: Host, c: Call, d: Data, m: Memory): Verdict {
    match c
    case AllowSyscall(nr) => if nr == d.nr then Decide(0x7fff_0000) else Pass(m)
    case BlockSyscallWithErrno(nr, error) => if nr == d.nr then Decide(0x0005_0000 + error % 0x1_0000) else Pass(m)
    case AddPolicyOnSyscalls(nums, body) =>
      if Covers(c, d.nr) then Meaning(host, OnSyscalls(nums, body), d, m) else Pass(m)
    case _ => Pass(m)
  }

  /** The first call that decides. */
  function FirstSaid(host: Host, calls: seq<Call>, d: Data, m: Memory): Verdict {
    if calls == [] then Pass(m)
    else
      match Says(host, calls[0], d, m)
      case Decide(k) => Decide(k)
      case Pass(m') => FirstSaid(host, calls[1..], d, m')
  }

  /** The error of the first overridable block of a number. */
  function FirstOverridable(calls: seq<Call>, nr: Word): Option<Word> {
    if calls == [] then None
    else if calls[0].OverridableBlockSyscallWithErrno? && calls[0].nr == nr then Some(calls[0].error)
    else FirstOverridable(calls[1..], nr)
  }

  /** Behind the default checks: the first call that decides, then the default action, then the
      first overridable block, then KILL. */
  function Said(host: Host, calls: seq<Call>, d: Data, m: Memory): Word {
    match FirstSaid(host, calls, d, m)
    case Decide(k) => k
    case Pass(_) =>
      if DefaultActionAllowAll in calls then 0x7fff_0000
      else
        match FirstOverridable(calls, d.nr)
        case Some(error) => 0x0005_0000 + error % 0x1_0000
        case None => 0
  }

  lemma SaysAsAppended(host: Host, rules: seq<Rule>, c: Call, d: Data, m: Memory)
    requires c.AddPolicyOnSyscalls? ==> Bounded(c.body) && |c.body| < 0xffff_ffff
    ensures FirstMatch(host, Appended(rules, c), d, m)
            == match FirstMatch(host, rules, d, m)
               case Decide(k) => Decide(k)
               case Pass(m') => Says(host, c, d, m')
  {
    var all := Appended(rules, c);
    if all != rules {
      assert all == rules + [all[|rules|]];
      FirstMatchOne(host, rules, all[|rules|], d, m);
    }
  }

  lemma {:induction false} SaidAsAppended(host: Host, rules: seq<Rule>, calls: seq<Call>, d: Data, m: Memory)
    requires Rejection(calls) == None
    ensures FirstMatch(host, AppendedAll(rules, calls), d, m)
            == match FirstMatch(host, rules, d, m)
               case Decide(k) => Decide(k)
               case Pass(m') => FirstSaid(host, calls, d, m')
    decreases |calls|
  {
    if calls != [] {
      RejectionIff(calls);
      SaysAsAppended(host, rules, calls[0], d, m);
      SaidAsAppended(host, Appended(rules, calls[0]), calls[1..], d, m);
    }
  }

  lemma {:induction false} OverridableOfCalls(host: Host, b: Builder, calls: seq<Call>, d: Data, m: Memory)
    ensures FirstMatch(host, ApplyAll(host, b, calls).overridable, d, m)
            == match FirstMatch(host, b.overridable, d, m)
               case Decide(k) => Decide(k)
               case Pass(m') =>
                 match FirstOverridable(calls, d.nr)
                 case Some(error) => Decide(0x0005_0000 + error % 0x1_0000)
                 case None => Pass(m')
    decreases |calls|
  {
    if calls != [] {
      var b' := Apply(host, b, calls[0]);
      if calls[0].OverridableBlockSyscallWithErrno? {
        FirstMatchOne(host, b.overridable, b'.overridable[|b.overridable|], d, m);
        assert b'.overridable == b.overridable + [b'.overridable[|b.overridable|]];
      }
      OverridableOfCalls(host, b', calls[1..], d, m);
    }
  }

  predicate Blocks(handled: set<Word>, calls: seq<Call>, nr: Word) { nr !in handled && BlockedFirst(calls, nr) }

  lemma {:induction false} FlagsOfCalls(host: Host, b: Builder, calls: seq<Call>)
    ensures var b' := ApplyAll(host, b, calls);
            && b'.handlesPtrace == (b.handlesPtrace || Blocks(b.handled, calls, host.Ptrace()))
            && b'.handlesBpf == (b.handlesBpf || Blocks(b.handled, calls, host.BpfNr()))
    decreases |calls|
  {
    if calls != [] {
      FlagsOfCalls(host, Apply(host, b, calls[0]), calls[1..]);
    }
  }

  lemma {:induction false} DefaultOfCalls(host: Host, b: Builder, calls: seq<Call>)
    ensures ApplyAll(host, b, calls).allowAll == (b.allowAll || DefaultActionAllowAll in calls)
    decreases |calls|
  {
    if calls != [] {
      DefaultOfCalls(host, Apply(host, b, calls[0]), calls[1..]);
      assert calls == [calls[0]] + calls[1..];
    }
  }

  /** The rules, then the default action, then the overridable rules, then KILL. */
  lemma AllRulesMatch(host: Host, b: Builder, d: Data, m: Memory)
    ensures UserDecision(host, b.AllRules(), d, m)
            == match FirstMatch(host, b.rules, d, m)
               case Decide(k) => k
               case Pass(m') =>
                 if b.allowAll then RET_ALLOW
                 else match FirstMatch(host, b.overridable, d, m')
                      case Decide(k) => k
                      case Pass(_) => RET_KILL
  {
    var rest := (if b.allowAll then [Always(RET_ALLOW)] else []) + b.overridable;
    assert b.AllRules() == b.rules + rest;
    FirstMatchAppend(host, b.rules, rest, d, m);
    if b.allowAll {
      assert rest[0] == Always(RET_ALLOW);
    } else {
      assert rest == b.overridable;
    }
  }

  lemma UserPartOfCalls(host: Host, calls: seq<Call>, d: Data, m: Memory)
    requires Rejection(calls) == None
    ensures UserDecision(host, ApplyAll(host, EMPTY, calls).AllRules(), d, m) == Said(host, calls, d, m)
  {
    var b := ApplyAll(host, EMPTY, calls);
    AllRulesMatch(host, b, d, m);
    HandledCheckIsSound(host, calls, d, m);
    SaidAsAppended(host, [], calls, d, m);
    DefaultOfCalls(host, EMPTY, calls);
    if FirstSaid(host, calls, d, m).Pass? {
      OverridableOfCalls(host, EMPTY, calls, d, FirstSaid(host, calls, d, m).mem);
    }
  }

  /** The execveat with which the client starts the sandboxee. */
  predicate FirstExecveat(host: Host, d: Data) {
    d.nr == host.Execveat() && d.lo[4] == AT_EMPTY_PATH && d.lo[5] == EXECVE_MAGIC
  }

  /** The seccomp call with which the client installs the filter. */
  predicate ClientSeccomp(host: Host, d: Data) { d.nr == host.SeccompNr() && d.lo[3] == EXECVE_MAGIC }

  /** Another architecture is traced under its own name, or reported; what the client does to start
      the sandboxee is traced, or allowed; everything else gets `said` unless it is denied. */
  function Returns(host: Host, notif: bool, denied: bool, said: Word, d: Data): Word {
    if d.arch != host.AuditArch() then
      if notif then 0x7fc0_0000
      else 0x7ff0_0000 + if host.X8664? && d.arch == AUDIT_ARCH_I386 then 0xcaf2 else 0xcaf0
    else if FirstExecveat(host, d) then if notif then 0x7fff_0000 else 0x7ff0_0000 + host.Arch()
    else if notif && ClientSeccomp(host, d) then 0x7fff_0000
    else
      var k := if denied then 0 else said;
      if notif && k == 0 then 0x7fc0_0000 else k
  }

  lemma DecisionReturns(host: Host, b: Builder, notif: bool, d: Data, m: Memory)
    ensures Decision(host, b, notif, d, m)
            == Returns(host, notif, Denied(host, b.handlesPtrace, b.handlesBpf, d),
                       UserDecision(host, b.AllRules(), d, m), d)
  {
  }

  /** For every sequence of calls that can be built, in both modes and for every system call, the
      filter returns what the calls say, unless the default policy decides.  Its denial of ptrace and
      bpf is lifted exactly when the first plain call about the number blocks it. */
  lemma FilterOfCalls(host: Host, calls: seq<Call>, notif: bool, d: Data, s: Machine)
    requires Buildable(host, ApplyAll(host, EMPTY, calls))
    ensures var denied := Denied(host, BlockedFirst(calls, host.Ptrace()), BlockedFirst(calls, host.BpfNr()), d);
            Run(Filter(host, PolicyOf(host, ApplyAll(host, EMPTY, calls)), notif), d, 0, s)
            == Returned(Returns(host, notif, denied, Said(host, calls, d, s.mem), d))
  {
    var b := ApplyAll(host, EMPTY, calls);
    FilterDecides(host, b, notif, d, s);
    DecisionReturns(host, b, notif, d, s.mem);
    FlagsOfCalls(host, EMPTY, calls);
    StatusOfCalls(host, EMPTY, calls);
    UserPartOfCalls(host, calls, d, s.mem);
  }

  // ----- overridable blocks -----

  /** The call decides nothing about `nr`, unless as an overridable block. */
  predicate Quiet(c: Call, nr: Word) {
    match c
    case AllowSyscall(n) => n != nr
    case BlockSyscallWithErrno(n, _) => n != nr
    case OverridableBlockSyscallWithErrno(_, _) => true
    case AddPolicyOnSyscalls(_, _) => !Covers(c, nr)
    case DefaultActionAllowAll => false
  }

  lemma {:induction false} QuietPasses(host: Host, calls: seq<Call>, d: Data, m: Memory)
    requires forall c :: c in calls ==> Quiet(c, d.nr)
    ensures FirstSaid(host, calls, d, m) == Pass(m) && DefaultActionAllowAll !in calls
    ensures !BlockedFirst(calls, d.nr)
  {
    if calls != [] {
      assert calls[0] in calls;
      QuietPasses(host, calls[1..], d, m);
      assert calls == [calls[0]] + calls[1..];
    }
  }

  lemma {:induction false} OverridableFirst(before: seq<Call>, c: Call, after: seq<Call>)
    requires c.OverridableBlockSyscallWithErrno? && FirstOverridable(before, c.nr) == None
    ensures FirstOverridable(before + [c] + after, c.nr) == Some(c.error)
  {
    if before == [] {
      assert before + [c] + after == [c] + after;
    } else {
      assert (before + [c] + after)[1..] == before[1..] + [c] + after;
      OverridableFirst(before[1..], c, after);
    }
  }

  /** An overridable block returns its errno when no other call decides about the number, and it is
      the first of the overridable ones. */
  lemma OverridableReturnsErrno(host: Host, before: seq<Call>, error: Word, after: seq<Call>, notif: bool, d: Data,
                                s: Machine)
    requires d.arch == host.AuditArch() && d.nr !in {host.Ptrace(), host.BpfNr(), host.Clone(), host.SeccompNr()}
    requires !FirstExecveat(host, d) && FirstOverridable(before, d.nr) == None
    requires var calls := before + [OverridableBlockSyscallWithErrno(d.nr, error)] + after;
             Buildable(host, ApplyAll(host, EMPTY, calls)) && forall c :: c in calls ==> Quiet(c, d.nr)
    ensures var calls := before + [OverridableBlockSyscallWithErrno(d.nr, error)] + after;
            Run(Filter(host, PolicyOf(host, ApplyAll(host, EMPTY, calls)), notif), d, 0, s)
            == Returned(0x0005_0000 + error % 0x1_0000)
  {
    var c := OverridableBlockSyscallWithErrno(d.nr, error);
    FilterOfCalls(host, before + [c] + after, notif, d, s);
    QuietPasses(host, before + [c] + after, d, s.mem);
    OverridableFirst(before, c, after);
  }
}
