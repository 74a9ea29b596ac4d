/** Laws of the calls on a `PolicyBuilder`, stated on the rules they leave. */
module BuilderLaws {
  import opened Sequences
  import opened Bpf
  import opened Seccomp
  import opened Dispatch
  import opened Rules
  import opened PolicyBuilders
  import opened Policies
  import opened Filters

  lemma {:induction false} FirstMatchAppend(host: Host, a: seq<Rule>, b: seq<Rule>, d: Data, m: Memory)
    ensures FirstMatch(host, a + b, d, m)
            == match FirstMatch(host, a, d, m)
               case Decide(k) => Decide(k)
               case Pass(m') => FirstMatch(host, b, d, m')
  {
    if a == [] {
      assert a + b == b;
    } else {
      assert (a + b)[1..] == a[1..] + b;
      match Meaning(host, a[0], d, m)
      case Decide(_) =>
      case Pass(m') => FirstMatchAppend(host, a[1..], b, d, m');
    }
  }

  lemma FirstMatchOne(host: Host, a: seq<Rule>, r: Rule, d: Data, m: Memory)
    ensures FirstMatch(host, a + [r], d, m)
            == match FirstMatch(host, a, d, m)
               case Decide(k) => Decide(k)
               case Pass(m') => Meaning(host, r, d, m')
  {
    FirstMatchAppend(host, a, [r], d, m);
    match FirstMatch(host, a, d, m)
    case Decide(_) =>
    case Pass(m') =>
      match Meaning(host, r, d, m')
      case Decide(_) =>
      case Pass(m'') => assert FirstMatch(host, [r][1..], d, m'') == Pass(m'');
  }

  // ----- skipping numbers that are handled already -----

  /** The rules when every call appends, whether or not its number was handled before. */
  function Appended(rules: seq<Rule>, c: Call): seq<Rule> {
    match c
    case AllowSyscall(nr) => rules + [Simple(nr, RET_ALLOW)]
    case BlockSyscallWithErrno(nr, error) => rules + [Simple(nr, Errno(error))]
    case AddPolicyOnSyscalls(nums, body) =>
      if Bounded(body) && |body| + 1 <= 0xffff_ffff then rules + [OnSyscalls(nums, body)] else rules
    case _ => rules
  }

  function AppendedAll(rules: seq<Rule>, calls: seq<Call>): seq<Rule>
    decreases |calls|
  {
    if calls == [] then rules else AppendedAll(Appended(rules, calls[0]), calls[1..])
  }

  /** `rules` decide about every handled number, and as `all` do about every number. */
  ghost predicate SameRules(host: Host, rules: seq<Rule>, handled: set<Word>, all: seq<Rule>) {
    forall d: Data, m: Memory ::
      && FirstMatch(host, rules, d, m) == FirstMatch(host, all, d, m)
      && (d.nr in handled ==> FirstMatch(host, rules, d, m).Decide?)
  }

  lemma SameRulesStep(host: Host, b: Builder, all: seq<Rule>, c: Call)
    requires SameRules(host, b.rules, b.handled, all)
    ensures var b' := Apply(host, b, c); SameRules(host, b'.rules, b'.handled, Appended(all, c))
  {
    var b', all' := Apply(host, b, c), Appended(all, c);
    forall d: Data, m: Memory
      ensures FirstMatch(host, b'.rules, d, m) == FirstMatch(host, all', d, m)
      ensures d.nr in b'.handled ==> FirstMatch(host, b'.rules, d, m).Decide?
    {
      assert FirstMatch(host, b.rules, d, m) == FirstMatch(host, all, d, m);
      if all' != all {
        FirstMatchOne(host, all, all'[|all|], d, m);
        assert all' == all + [all'[|all|]];
      }
      if b'.rules != b.rules {
        FirstMatchOne(host, b.rules, b'.rules[|b.rules|], d, m);
        assert b'.rules == b.rules + [b'.rules[|b.rules|]];
      }
    }
  }

  /** Skipping the rules of handled numbers changes no decision. */
  lemma {:induction false} SkippingHandledKeepsMeaning(host: Host, b: Builder, all: seq<Rule>, calls: seq<Call>)
    requires SameRules(host, b.rules, b.handled, all)
    ensures forall d, m :: FirstMatch(host, ApplyAll(host, b, calls).rules, d, m)
                        == FirstMatch(host, AppendedAll(all, calls), d, m)
    decreases |calls|
  {
    if calls != [] {
      SameRulesStep(host, b, all, calls[0]);
      SkippingHandledKeepsMeaning(host, Apply(host, b, calls[0]), Appended(all, calls[0]), calls[1..]);
    }
  }

  /** The same from the start: the two ways of building decide every system call alike. */
  lemma HandledCheckIsSound(host: Host, calls: seq<Call>, d: Data, m: Memory)
    ensures FirstMatch(host, ApplyAll(host, EMPTY, calls).rules, d, m)
            == FirstMatch(host, AppendedAll([], calls), d, m)
  {
    SkippingHandledKeepsMeaning(host, EMPTY, [], calls);
  }

  // ----- order of calls -----

  /** Builders that differ at most in their rules, which decide alike. */
  ghost predicate Equivalent(host: Host, a: Builder, b: Builder) {
    && a == b.(rules := a.rules)
    && forall d: Data, m: Memory :: FirstMatch(host, a.rules, d, m) == FirstMatch(host, b.rules, d, m)
  }

  /** Equivalence is kept by every further call. */
  lemma {:induction false} EquivalentAll(host: Host, a: Builder, b: Builder, calls: seq<Call>)
    requires Equivalent(host, a, b)
    ensures Equivalent(host, ApplyAll(host, a, calls), ApplyAll(host, b, calls))
    decreases |calls|
  {
    if calls != [] {
      EquivalentStep(host, a, b, calls[0]);
      EquivalentAll(host, Apply(host, a, calls[0]), Apply(host, b, calls[0]), calls[1..]);
    }
  }

  lemma EquivalentStep(host: Host, a: Builder, b: Builder, c: Call)
    requires Equivalent(host, a, b)
    ensures Equivalent(host, Apply(host, a, c), Apply(host, b, c))
  {
    match c
    case AllowSyscall(nr) => SameLast(host, a.rules, b.rules, Simple(nr, RET_ALLOW));
    case BlockSyscallWithErrno(nr, error) => SameLast(host, a.rules, b.rules, Simple(nr, Errno(error)));
    case AddPolicyOnSyscalls(nums, body) => SameLast(host, a.rules, b.rules, OnSyscalls(nums, body));
    case _ =>
  }

  lemma SameLast(host: Host, a: seq<Rule>, b: seq<Rule>, r: Rule)
    requires forall d, m :: FirstMatch(host, a, d, m) == FirstMatch(host, b, d, m)
    ensures forall d, m :: FirstMatch(host, a + [r], d, m) == FirstMatch(host, b + [r], d, m)
  {
    forall d, m ensures FirstMatch(host, a + [r], d, m) == FirstMatch(host, b + [r], d, m) {
      FirstMatchOne(host, a, r, d, m);
      FirstMatchOne(host, b, r, d, m);
    }
  }

  /** Equivalent builders decide every system call alike, in both modes. */
  lemma EquivalentDecide(host: Host, a: Builder, b: Builder, notif: bool, d: Data, m: Memory)
    requires Equivalent(host, a, b)
    ensures Decision(host, a, notif, d, m) == Decision(host, b, notif, d, m)
  {
    var rest := (if a.allowAll then [Always(RET_ALLOW)] else []) + a.overridable;
    assert a.AllRules() == a.rules + rest && b.AllRules() == b.rules + rest;
    FirstMatchAppend(host, a.rules, rest, d, m);
    FirstMatchAppend(host, b.rules, rest, d, m);
  }

  /** Two `AllowSyscall` calls commute, after any other calls and before any others. */
  lemma AllowsCommute(host: Host, b: Builder, x: Word, y: Word, calls: seq<Call>, notif: bool, d: Data, m: Memory)
    ensures Decision(host, ApplyAll(host, b, [AllowSyscall(x), AllowSyscall(y)] + calls), notif, d, m)
            == Decision(host, ApplyAll(host, b, [AllowSyscall(y), AllowSyscall(x)] + calls), notif, d, m)
  {
    var cx, cy := AllowSyscall(x), AllowSyscall(y);
    var xy, yx := Apply(host, Apply(host, b, cx), cy), Apply(host, Apply(host, b, cy), cx);
    ApplyTwo(host, b, cx, cy, calls);
    ApplyTwo(host, b, cy, cx, calls);
    AllowsSwapped(host, b, x, y);
    EquivalentAll(host, xy, yx, calls);
    EquivalentDecide(host, ApplyAll(host, xy, calls), ApplyAll(host, yx, calls), notif, d, m);
  }

  lemma ApplyTwo(host: Host, b: Builder, c: Call, c': Call, calls: seq<Call>)
    ensures ApplyAll(host, b, [c, c'] + calls) == ApplyAll(host, Apply(host, Apply(host, b, c), c'), calls)
  {
    assert ([c, c'] + calls)[1..] == [c'] + calls;
    assert ([c'] + calls)[1..] == calls;
  }

  lemma AllowsSwapped(host: Host, b: Builder, x: Word, y: Word)
    ensures Equivalent(host, Apply(host, Apply(host, b, AllowSyscall(x)), AllowSyscall(y)),
                       Apply(host, Apply(host, b, AllowSyscall(y)), AllowSyscall(x)))
  {
    var xy := Apply(host, Apply(host, b, AllowSyscall(x)), AllowSyscall(y));
    var yx := Apply(host, Apply(host, b, AllowSyscall(y)), AllowSyscall(x));
    assert xy.handled == yx.handled;
    if x !in b.handled && y !in b.handled && x != y {
      SwapLast(host, b.rules, Simple(x, RET_ALLOW), Simple(y, RET_ALLOW));
    }
  }

  /** Two last rules for different numbers can be swapped. */
  lemma SwapLast(host: Host, rules: seq<Rule>, r: Rule, r': Rule)
    requires r.Simple? && r'.Simple? && r.nr != r'.nr
    ensures forall d, m :: FirstMatch(host, rules + [r] + [r'], d, m) == FirstMatch(host, rules + [r'] + [r], d, m)
  {
    forall d, m ensures FirstMatch(host, rules + [r] + [r'], d, m) == FirstMatch(host, rules + [r'] + [r], d, m) {
      FirstMatchOne(host, rules, r, d, m);
      FirstMatchOne(host, rules, r', d, m);
      FirstMatchOne(host, rules + [r], r', d, m);
      FirstMatchOne(host, rules + [r'], r, d, m);
    }
  }

  // ----- numbers that a policy must not allow -----

  /** The numbers that the default policy denies unless the user's policy blocks them. */
  predicate Sensitive(host: Host, nr: Word) {
    nr == host.Ptrace() || nr == host.BpfNr()
  }

  /** Has the default policy's denial of `nr` been lifted? */
  predicate Lifted(host: Host, b: Builder, nr: Word) {
    (nr == host.Ptrace() && b.handlesPtrace) || (nr == host.BpfNr() && b.handlesBpf)
  }

  predicate Covers(c: Call, nr: Word) {
    c.AddPolicyOnSyscalls? && (c.nums == [] || nr in c.nums)
  }

  /** Is the first `AllowSyscall` or `BlockSyscallWithErrno` of `nr` a block? */
  predicate BlockedFirst(calls: seq<Call>, nr: Word) {
    calls != [] &&
    if calls[0] == AllowSyscall(nr) then false
    else if calls[0].BlockSyscallWithErrno? && calls[0].nr == nr then true
    else BlockedFirst(calls[1..], nr)
  }

  /** No `AddPolicyOnSyscalls` that covers `nr` comes before the call that blocks it. */
  predicate Guarded(calls: seq<Call>, nr: Word) {
    calls == [] ||
    if calls[0] == AllowSyscall(nr) || (calls[0].BlockSyscallWithErrno? && calls[0].nr == nr) then true
    else if Covers(calls[0], nr) then !BlockedFirst(calls[1..], nr)
    else Guarded(calls[1..], nr)
  }

  /** The rule says nothing about `nr`. */
  predicate Silent(r: Rule, nr: Word) {
    match r
    case Simple(n, _) => n != nr
    case OnSyscalls(nums, _) => nums != [] && nr !in nums
    case Always(_) => false
  }

  ghost predicate Untouched(rules: seq<Rule>, nr: Word) {
    forall r :: r in rules ==> Silent(r, nr)
  }

  lemma {:induction false} UntouchedPasses(host: Host, rules: seq<Rule>, d: Data, m: Memory)
    requires Untouched(rules, d.nr)
    ensures FirstMatch(host, rules, d, m) == Pass(m)
  {
    if rules != [] {
      assert rules[0] in rules;
      UntouchedPasses(host, rules[1..], d, m);
    }
  }

  /** Rules only grow, so what they decide stays decided. */
  lemma {:induction false} DecidedStays(host: Host, b: Builder, calls: seq<Call>, d: Data, m: Memory)
    requires FirstMatch(host, b.rules, d, m).Decide?
    ensures FirstMatch(host, ApplyAll(host, b, calls).rules, d, m) == FirstMatch(host, b.rules, d, m)
    decreases |calls|
  {
    if calls != [] {
      var b' := Apply(host, b, calls[0]);
      if b'.rules != b.rules {
        FirstMatchOne(host, b.rules, b'.rules[|b.rules|], d, m);
        assert b'.rules == b.rules + [b'.rules[|b.rules|]];
      }
      DecidedStays(host, b', calls[1..], d, m);
    }
  }

  /** A handled number, or one that is allowed before it is blocked, stays denied. */
  lemma {:induction false} NotLifted(host: Host, b: Builder, calls: seq<Call>, nr: Word)
    requires Sensitive(host, nr) && !Lifted(host, b, nr)
    requires nr in b.handled || !BlockedFirst(calls, nr)
    ensures !Lifted(host, ApplyAll(host, b, calls), nr)
    decreases |calls|
  {
    if calls != [] {
      NotLifted(host, Apply(host, b, calls[0]), calls[1..], nr);
    }
  }

  lemma BlockedReturnsErrno(host: Host, b: Builder, error: Word, calls: seq<Call>, d: Data, m: Memory)
    requires d.nr !in b.handled && Untouched(b.rules, d.nr)
    ensures var b' := ApplyAll(host, Apply(host, b, BlockSyscallWithErrno(d.nr, error)), calls);
            FirstMatch(host, b'.rules, d, m) == Decide(Errno(error))
  {
    UntouchedPasses(host, b.rules, d, m);
    FirstMatchOne(host, b.rules, Simple(d.nr, Errno(error)), d, m);
    DecidedStays(host, Apply(host, b, BlockSyscallWithErrno(d.nr, error)), calls, d, m);
  }

  /** If the calls lift the denial of a guarded number, the rules return an errno for it. */
  lemma {:induction false} GuardedReturnsErrno(host: Host, b: Builder, calls: seq<Call>, d: Data, m: Memory)
    requires Sensitive(host, d.nr) && !Lifted(host, b, d.nr) && d.nr !in b.handled
    requires Untouched(b.rules, d.nr) && Guarded(calls, d.nr)
    ensures var b' := ApplyAll(host, b, calls);
            Lifted(host, b', d.nr) ==> exists e :: FirstMatch(host, b'.rules, d, m) == Decide(Errno(e))
    decreases |calls|
  {
    if calls != [] {
      var b' := Apply(host, b, calls[0]);
      if calls[0] == AllowSyscall(d.nr) || Covers(calls[0], d.nr) {
        NotLifted(host, b', calls[1..], d.nr);
      } else if calls[0].BlockSyscallWithErrno? && calls[0].nr == d.nr {
        BlockedReturnsErrno(host, b, calls[0].error, calls[1..], d, m);
      } else {
        GuardedReturnsErrno(host, b', calls[1..], d, m);
      }
    }
  }

  /** The words that a filter returns for a call that it does not let through by itself. */
  ghost predicate Refuses(k: Word) {
    k == RET_KILL || k == RET_USER_NOTIF || (exists e :: k == Errno(e)) || (exists a :: k == Trace(a))
  }

  /** A sensitive number that is guarded is never allowed, whatever the mode and arguments: the
      decision is a refusal, and no word with the action ALLOW is one. */
  lemma GuardedNeverAllowed(host: Host, calls: seq<Call>, notif: bool, d: Data, m: Memory)
    requires Sensitive(host, d.nr) && Guarded(calls, d.nr)
    ensures var k := Decision(host, ApplyAll(host, EMPTY, calls), notif, d, m); Refuses(k) && k < RET_ALLOW
  {
    var b := ApplyAll(host, EMPTY, calls);
    GuardedReturnsErrno(host, EMPTY, calls, d, m);
    var rest := (if b.allowAll then [Always(RET_ALLOW)] else []) + b.overridable;
    assert b.AllRules() == b.rules + rest;
    FirstMatchAppend(host, b.rules, rest, d, m);
  }

  /** Without `AddPolicyOnSyscalls` every sequence of calls is guarded. */
  lemma {:induction false} PlainCallsAreGuarded(calls: seq<Call>, nr: Word)
    requires forall c :: c in calls ==> !c.AddPolicyOnSyscalls?
    ensures Guarded(calls, nr)
  {
    if calls != [] {
      assert calls[0] in calls;
      PlainCallsAreGuarded(calls[1..], nr);
    }
  }

  const ALLOW_BODY: seq<Instr> := [Ret(RET_ALLOW), Ret(RET_ALLOW)]

  /** The same calls with every body replaced by one that allows. */
  function Allowing(calls: seq<Call>): seq<Call> {
    if calls == [] then []
    else [if calls[0].AddPolicyOnSyscalls? then calls[0].(body := ALLOW_BODY) else calls[0]] + Allowing(calls[1..])
  }

  lemma AllowBodyAllows(host: Host, nums: seq<Word>, d: Data, m: Memory)
    requires nums == [] || d.nr in nums
    ensures Meaning(host, OnSyscalls(nums, ALLOW_BODY), d, m) == Decide(RET_ALLOW)
  {
    assert NormaliseAll(host, ALLOW_BODY) == ALLOW_BODY;
    AllowBodyRuns(d, Entry(nums, d.nr, |ALLOW_BODY| + 1, 0), Machine(d.nr, m));
  }

  lemma AllowBodyRuns(d: Data, pc: nat, s: Machine)
    requires pc < 2
    ensures Run(ALLOW_BODY, d, pc, s) == Returned(RET_ALLOW)
  {
  }

  lemma {:induction false} AllowingBlockedFirst(calls: seq<Call>, nr: Word)
    requires BlockedFirst(calls, nr)
    ensures BlockedFirst(Allowing(calls), nr)
  {
    var a := Allowing(calls);
    assert a[1..] == Allowing(calls[1..]);
    if calls[0] != AllowSyscall(nr) && !(calls[0].BlockSyscallWithErrno? && calls[0].nr == nr) {
      AllowingBlockedFirst(calls[1..], nr);
    }
  }

  /** A number that is blocked before it is allowed has its denial lifted. */
  lemma {:induction false} BlockLifts(host: Host, b: Builder, calls: seq<Call>, nr: Word)
    requires Sensitive(host, nr)
    requires Lifted(host, b, nr) || (nr !in b.handled && BlockedFirst(calls, nr))
    ensures Lifted(host, ApplyAll(host, b, calls), nr)
    decreases |calls|
  {
    if calls != [] {
      BlockLifts(host, Apply(host, b, calls[0]), calls[1..], nr);
    }
  }

  /** A covering call whose body allows, and a block later on. */
  lemma CoveredThenBlocked(host: Host, b: Builder, nums: seq<Word>, calls: seq<Call>, d: Data, m: Memory)
    requires Sensitive(host, d.nr) && d.nr !in b.handled && Untouched(b.rules, d.nr)
    requires (nums == [] || d.nr in nums) && BlockedFirst(calls, d.nr)
    ensures var b' := ApplyAll(host, Apply(host, b, AddPolicyOnSyscalls(nums, ALLOW_BODY)), calls);
            Lifted(host, b', d.nr) && FirstMatch(host, b'.rules, d, m) == Decide(RET_ALLOW)
  {
    var b' := Apply(host, b, AddPolicyOnSyscalls(nums, ALLOW_BODY));
    UntouchedPasses(host, b.rules, d, m);
    AllowBodyAllows(host, nums, d, m);
    FirstMatchOne(host, b.rules, OnSyscalls(nums, ALLOW_BODY), d, m);
    DecidedStays(host, b', calls, d, m);
    BlockLifts(host, b', calls, d.nr);
  }

  lemma {:induction false} UnguardedAllows(host: Host, b: Builder, calls: seq<Call>, d: Data, m: Memory)
    requires Sensitive(host, d.nr) && d.nr !in b.handled
    requires Untouched(b.rules, d.nr) && !Guarded(calls, d.nr)
    ensures var b' := ApplyAll(host, b, Allowing(calls));
            Lifted(host, b', d.nr) && FirstMatch(host, b'.rules, d, m) == Decide(RET_ALLOW)
    decreases |calls|
  {
    var a := Allowing(calls);
    assert a[1..] == Allowing(calls[1..]);
    if Covers(calls[0], d.nr) {
      AllowingBlockedFirst(calls[1..], d.nr);
      CoveredThenBlocked(host, b, calls[0].nums, a[1..], d, m);
    } else {
      UnguardedAllows(host, Apply(host, b, a[0]), calls[1..], d, m);
    }
  }

  /** The guard is exact: without it some bodies in the same calls make the number allowed. */
  lemma UnguardedCanBeAllowed(host: Host, calls: seq<Call>, notif: bool, d: Data, m: Memory)
    requires Sensitive(host, d.nr) && d.arch == host.AuditArch() && !Guarded(calls, d.nr)
    ensures Decision(host, ApplyAll(host, EMPTY, Allowing(calls)), notif, d, m) == RET_ALLOW
  {
    var b := ApplyAll(host, EMPTY, Allowing(calls));
    UnguardedAllows(host, EMPTY, calls, d, m);
    var rest := (if b.allowAll then [Always(RET_ALLOW)] else []) + b.overridable;
    assert b.AllRules() == b.rules + rest;
    FirstMatchAppend(host, b.rules, rest, d, m);
  }

  // ----- the same of filters -----

  /** Builders that differ at most in the order of their rules. */
  ghost predicate Permuted(a: Builder, b: Builder) {
    a == b.(rules := a.rules) && multiset(a.rules) == multiset(b.rules)
  }

  lemma {:induction false} PermutedAll(host: Host, a: Builder, b: Builder, calls: seq<Call>)
    requires Permuted(a, b)
    ensures Permuted(ApplyAll(host, a, calls), ApplyAll(host, b, calls))
    decreases |calls|
  {
    if calls != [] {
      PermutedStep(host, a, b, calls[0]);
      PermutedAll(host, Apply(host, a, calls[0]), Apply(host, b, calls[0]), calls[1..]);
    }
  }

  lemma PermutedStep(host: Host, a: Builder, b: Builder, c: Call)
    requires Permuted(a, b)
    ensures Permuted(Apply(host, a, c), Apply(host, b, c))
  {
  }

  /** Whether a policy can be built does not depend on the order of accepted rules. */
  lemma PermutedBuildable(host: Host, a: Builder, b: Builder)
    requires Permuted(a, b)
    ensures Buildable(host, a) <==> Buildable(host, b)
  {
    PermutedLength(host, a.rules, b.rules);
    forall r ensures r in a.rules <==> r in b.rules {
      assert r in multiset(a.rules) <==> r in multiset(b.rules);
    }
  }

  lemma CompileWithout(host: Host, rules: seq<Rule>, i: nat)
    requires i < |rules|
    ensures |CompileAll(host, rules)| == |Compile(host, rules[i])| + |CompileAll(host, rules[..i] + rules[i + 1..])|
  {
    var front, r, back := rules[..i], rules[i], rules[i + 1..];
    assert rules == front + ([r] + back);
    CompileAppend(host, front, [r] + back);
    CompileFirst(host, r, back);
    CompileAppend(host, front, back);
  }

  /** The order of rules does not matter for the length of their code. */
  lemma {:induction false} PermutedLength(host: Host, a: seq<Rule>, b: seq<Rule>)
    requires multiset(a) == multiset(b)
    ensures |CompileAll(host, a)| == |CompileAll(host, b)|
    decreases |a|
  {
    if a == [] {
      assert |multiset(b)| == 0;
    } else {
      var i := TakeOne(a, b);
      assert a == [a[0]] + a[1..];
      PermutedLength(host, a[1..], b[..i] + b[i + 1..]);
      CompileWithout(host, b, i);
      CompileFirst(host, a[0], a[1..]);
    }
  }

  /** Swapping two `AllowSyscall` calls anywhere makes no difference to whether a policy can be built,
      nor to what its filter does with any system call. */
  lemma FiltersCommute(host: Host, b: Builder, x: Word, y: Word, calls: seq<Call>, notif: bool, d: Data, s: Machine)
    ensures var xy := ApplyAll(host, b, [AllowSyscall(x), AllowSyscall(y)] + calls);
            var yx := ApplyAll(host, b, [AllowSyscall(y), AllowSyscall(x)] + calls);
            && (Buildable(host, xy) <==> Buildable(host, yx))
            && (Buildable(host, xy) ==>
                  Run(Filter(host, PolicyOf(host, xy), notif), d, 0, s)
                  == Run(Filter(host, PolicyOf(host, yx), notif), d, 0, s))
  {
    var cx, cy := AllowSyscall(x), AllowSyscall(y);
    var xy, yx := Apply(host, Apply(host, b, cx), cy), Apply(host, Apply(host, b, cy), cx);
    ApplyTwo(host, b, cx, cy, calls);
    ApplyTwo(host, b, cy, cx, calls);
    AllowsSwapped(host, b, x, y);
    EquivalentAll(host, xy, yx, calls);
    AllowsPermuted(host, b, x, y);
    PermutedAll(host, xy, yx, calls);
    EquivalentFilters(host, ApplyAll(host, xy, calls), ApplyAll(host, yx, calls), notif, d, s);
  }

  lemma AllowsPermuted(host: Host, b: Builder, x: Word, y: Word)
    ensures Permuted(Apply(host, Apply(host, b, AllowSyscall(x)), AllowSyscall(y)),
                     Apply(host, Apply(host, b, AllowSyscall(y)), AllowSyscall(x)))
  {
    var first, second := Apply(host, b, AllowSyscall(x)), Apply(host, b, AllowSyscall(y));
    if x !in b.handled && y !in b.handled && x != y {
      var rx, ry := Simple(x, RET_ALLOW), Simple(y, RET_ALLOW);
      assert first.rules == b.rules + [rx] && second.rules == b.rules + [ry];
      assert b.handled + {x} + {y} == b.handled + {y} + {x};
      SwapEnds(b.rules, rx, ry);
    } else {
      assert Apply(host, first, AllowSyscall(y)) == Apply(host, second, AllowSyscall(x));
    }
  }

  lemma EquivalentFilters(host: Host, a: Builder, b: Builder, notif: bool, d: Data, s: Machine)
    requires Equivalent(host, a, b) && Permuted(a, b)
    ensures Buildable(host, a) <==> Buildable(host, b)
    ensures Buildable(host, a) ==>
              Run(Filter(host, PolicyOf(host, a), notif), d, 0, s)
              == Run(Filter(host, PolicyOf(host, b), notif), d, 0, s)
  {
    PermutedBuildable(host, a, b);
    if Buildable(host, a) {
      FilterDecides(host, a, notif, d, s);
      FilterDecides(host, b, notif, d, s);
      EquivalentDecide(host, a, b, notif, d, s.mem);
    }
  }

  /** Every filter refuses a guarded number. */
  lemma GuardedFilterDenies(host: Host, calls: seq<Call>, notif: bool, d: Data, s: Machine)
    requires Sensitive(host, d.nr) && Guarded(calls, d.nr) && Buildable(host, ApplyAll(host, EMPTY, calls))
    ensures var p := PolicyOf(host, ApplyAll(host, EMPTY, calls));
            exists k: Word :: Run(Filter(host, p, notif), d, 0, s) == Returned(k) && Refuses(k) && k < RET_ALLOW
  {
    GuardedNeverAllowed(host, calls, notif, d, s.mem);
    FilterDecides(host, ApplyAll(host, EMPTY, calls), notif, d, s);
  }

  /** The filter of every unguarded sequence of calls that can be built with bodies that allow,
      allows the number on the host's architecture. */
  lemma UnguardedFilterAllows(host: Host, calls: seq<Call>, notif: bool, d: Data, s: Machine)
    requires Sensitive(host, d.nr) && d.arch == host.AuditArch() && !Guarded(calls, d.nr)
    requires Buildable(host, ApplyAll(host, EMPTY, Allowing(calls)))
    ensures Run(Filter(host, PolicyOf(host, ApplyAll(host, EMPTY, Allowing(calls))), notif), d, 0, s)
            == Returned(RET_ALLOW)
  {
    UnguardedCanBeAllowed(host, calls, notif, d, s.mem);
    FilterDecides(host, ApplyAll(host, EMPTY, Allowing(calls)), notif, d, s);
  }

  /** A body for a number, and then a block of it. */
  function BodyThenBlock(nr: Word, error: Word): seq<Call> {
    [AddPolicyOnSyscalls([nr], ALLOW_BODY), BlockSyscallWithErrno(nr, error)]
  }

  lemma BodyThenBlockBuilds(host: Host, nr: Word, error: Word)
    ensures Allowing(BodyThenBlock(nr, error)) == BodyThenBlock(nr, error) && !Guarded(BodyThenBlock(nr, error), nr)
    ensures Buildable(host, ApplyAll(host, EMPTY, BodyThenBlock(nr, error)))
  {
    var calls := BodyThenBlock(nr, error);
    var b1 := Apply(host, EMPTY, calls[0]);
    var b2 := Apply(host, b1, calls[1]);
    assert calls[1..] == [calls[1]] && calls[1..][1..] == [];
    assert ApplyAll(host, EMPTY, calls) == ApplyAll(host, b1, calls[1..]) == ApplyAll(host, b2, []);
    assert Allowing(calls[1..]) == [calls[1]] + Allowing([]);
    var r1, r2 := OnSyscalls([nr], ALLOW_BODY), Simple(nr, Errno(error));
    assert b2.rules == [] + [r1] + [r2];
    CompileOne(host, [], r1);
    CompileOne(host, [] + [r1], r2);
    EmitLength([nr], Tail(host, ALLOW_BODY), 0);
  }

  /** Such a filter, which allows the number although its last word on it is a block. */
  lemma BodyThenBlockAllows(host: Host, error: Word, notif: bool, d: Data, s: Machine)
    requires Sensitive(host, d.nr) && d.arch == host.AuditArch()
    ensures var b := ApplyAll(host, EMPTY, BodyThenBlock(d.nr, error));
            Buildable(host, b) && Run(Filter(host, PolicyOf(host, b), notif), d, 0, s) == Returned(RET_ALLOW)
  {
    BodyThenBlockBuilds(host, d.nr, error);
    UnguardedFilterAllows(host, BodyThenBlock(d.nr, error), notif, d, s);
  }
}
