/** `GetDefaultPolicy` as it is written, with labels, and how it resolves; `GetPolicy`. */
module LabelledPolicies {
  import opened Bpf
  import opened Labels
  import opened Seccomp
  import opened PolicyBuilders
  import opened Policies

  const PAST_ARCH_CHECK := 0
  const PAST_SECCOMP := 1
  const PAST_EXECVEAT := 2
  const PAST_CLONE_UNTRACED := 3
  const PAST_SECCOMP_NEW_LISTENER := 4

  /** `JEQ32(k, JUMP(l))` or `JNE32(k, JUMP(l))`. */
  function JumpTo(eq: bool, k: Word, l: nat): seq<Item> {
    [Plain(Jump(Eq, k, if eq then 0 else 1, if eq then 1 else 0)), To(l)]
  }

  function LabelledArch(host: Host): seq<Item> {
    [Plain(LoadArch)]
    + (JumpTo(true, host.AuditArch(), PAST_ARCH_CHECK) + (Plains(ForeignArch(host)) + [At(PAST_ARCH_CHECK)]))
  }

  function LabelledSeccomp(host: Host): seq<Item> {
    [Plain(LoadNr)]
    + (JumpTo(false, host.SeccompNr(), PAST_SECCOMP)
       + ([Plain(LoadArgLo(3))]
          + (JumpTo(false, EXECVE_MAGIC, PAST_SECCOMP) + (Plains([Ret(RET_ALLOW)]) + [At(PAST_SECCOMP)]))))
  }

  function LabelledExecveat(host: Host, action: Word): seq<Item> {
    [Plain(LoadNr)]
    + (JumpTo(false, host.Execveat(), PAST_EXECVEAT)
       + ([Plain(LoadArgLo(4))]
          + (JumpTo(false, AT_EMPTY_PATH, PAST_EXECVEAT)
             + ([Plain(LoadArgLo(5))]
                + (JumpTo(false, EXECVE_MAGIC, PAST_EXECVEAT) + (Plains([Ret(action)]) + [At(PAST_EXECVEAT)]))))))
  }

  function LabelledEntry(host: Host, notif: bool): (r: seq<Item>)
    ensures 1 <= |r| <= 40
  {
    if notif then
      Plains(NotifArchCheck(host))
      + (LabelledSeccomp(host) + (LabelledExecveat(host, RET_ALLOW) + Plains([LoadNr])))
    else
      LabelledArch(host) + (LabelledExecveat(host, Trace(host.Arch())) + Plains([LoadNr]))
  }

  function LabelledClone(host: Host): seq<Item> {
    JumpTo(false, host.Clone(), PAST_CLONE_UNTRACED)
    + (Plains([LoadArgLo(0)] + ReturnWhen(AnyBit, CLONE_UNTRACED, RET_KILL)) + [At(PAST_CLONE_UNTRACED)])
  }

  function LabelledListener(host: Host): seq<Item> {
    [Plain(LoadNr)]
    + (JumpTo(false, host.SeccompNr(), PAST_SECCOMP_NEW_LISTENER)
       + (Plains([LoadArgLo(1)] + ReturnWhen(AnyBit, FILTER_FLAG_NEW_LISTENER, RET_KILL))
          + [At(PAST_SECCOMP_NEW_LISTENER)]))
  }

  function LabelledDefault(host: Host, p: Policy, notif: bool): (r: seq<Item>)
    ensures 1 <= |r| <= BPF_MAXINSNS
  {
    LabelledEntry(host, notif)
    + Plains(DenyCheck(p.handlesPtrace, host.Ptrace()))
    + Plains(DenyCheck(p.handlesBpf, host.BpfNr()))
    + LabelledClone(host)
    + LabelledListener(host)
  }

  // ----- how each stretch resolves -----

  lemma {:induction false} PlainsEnd(code: seq<Instr>, l: nat)
    requires |code| < 0xff
    ensures Ends(Plains(code) + [At(l)], l, code + [Ja(0)])
  {
    EndsAtLabel(l);
    if code == [] {
      assert Plains(code) + [At(l)] == [At(l)] && code + [Ja(0)] == [Ja(0)];
    } else {
      PlainsEnd(code[1..], l);
      EndsBehind(Plain(code[0]), Plains(code[1..]) + [At(l)], l, code[1..] + [Ja(0)]);
      assert Plains(code) + [At(l)] == [Plain(code[0])] + (Plains(code[1..]) + [At(l)]);
      assert code + [Ja(0)] == [code[0]] + (code[1..] + [Ja(0)]);
    }
  }

  lemma JumpResolves(eq: bool, k: Word, l: nat, p: seq<Item>, r: seq<Instr>)
    requires Ends(p, l, r) && |p| < 0xf0
    ensures Ends(JumpTo(eq, k, l) + p, l, [Jump(Eq, k, if eq then 0 else 1, if eq then 1 else 0), Ja(|r| - 1)] + r)
  {
    BranchResolves(Jump(Eq, k, if eq then 0 else 1, if eq then 1 else 0), l, p, r);
  }

  lemma SkipResolves(eq: bool, k: Word, l: nat, code: seq<Instr>)
    requires |code| < 0x80
    ensures Ends(JumpTo(eq, k, l) + (Plains(code) + [At(l)]), l, SkipWhen(eq, k, code))
  {
    PlainsEnd(code, l);
    JumpResolves(eq, k, l, Plains(code) + [At(l)], code + [Ja(0)]);
  }

  /** `JNE32(k, JUMP(l))`, the load of an argument, and the rest up to the label. */
  lemma NestedResolves(k: Word, l: nat, load: Instr, p: seq<Item>, r: seq<Instr>)
    requires Ends(p, l, r) && |p| < 0x80
    ensures Ends(JumpTo(false, k, l) + ([Plain(load)] + p), l, SkipWithin(k, [load] + r))
  {
    EndsBehind(Plain(load), p, l, r);
    JumpResolves(false, k, l, [Plain(load)] + p, [load] + r);
  }

  lemma ArchResolves(host: Host)
    ensures Ends(LabelledArch(host), PAST_ARCH_CHECK, ArchCheck(host))
  {
    var code := ForeignArch(host);
    SkipResolves(true, host.AuditArch(), PAST_ARCH_CHECK, code);
    EndsBehind(Plain(LoadArch),
               JumpTo(true, host.AuditArch(), PAST_ARCH_CHECK) + (Plains(code) + [At(PAST_ARCH_CHECK)]),
               PAST_ARCH_CHECK, SkipWhen(true, host.AuditArch(), code));
  }

  lemma SeccompResolves(host: Host)
    ensures Ends(LabelledSeccomp(host), PAST_SECCOMP, NotifSeccompCheck(host))
  {
    var l, allow := PAST_SECCOMP, [Ret(RET_ALLOW)];
    var magic := JumpTo(false, EXECVE_MAGIC, l) + (Plains(allow) + [At(l)]);
    SkipResolves(false, EXECVE_MAGIC, l, allow);
    NestedResolves(host.SeccompNr(), l, LoadArgLo(3), magic, SkipWhen(false, EXECVE_MAGIC, allow));
    EndsBehind(Plain(LoadNr), JumpTo(false, host.SeccompNr(), l) + ([Plain(LoadArgLo(3))] + magic), l,
               SkipWithin(host.SeccompNr(), [LoadArgLo(3)] + SkipWhen(false, EXECVE_MAGIC, allow)));
  }

  lemma ExecveatResolves(host: Host, action: Word)
    ensures Ends(LabelledExecveat(host, action), PAST_EXECVEAT, ExecveatCheck(host, action))
  {
    var l, ret := PAST_EXECVEAT, [Ret(action)];
    var magic := JumpTo(false, EXECVE_MAGIC, l) + (Plains(ret) + [At(l)]);
    var skip := SkipWhen(false, EXECVE_MAGIC, ret);
    SkipResolves(false, EXECVE_MAGIC, l, ret);
    NestedResolves(AT_EMPTY_PATH, l, LoadArgLo(5), magic, skip);
    var flag := JumpTo(false, AT_EMPTY_PATH, l) + ([Plain(LoadArgLo(5))] + magic);
    var within := SkipWithin(AT_EMPTY_PATH, [LoadArgLo(5)] + skip);
    NestedResolves(host.Execveat(), l, LoadArgLo(4), flag, within);
    EndsBehind(Plain(LoadNr), JumpTo(false, host.Execveat(), l) + ([Plain(LoadArgLo(4))] + flag), l,
               SkipWithin(host.Execveat(), [LoadArgLo(4)] + within));
  }

  lemma ListenerResolves(host: Host)
    ensures Ends(LabelledListener(host), PAST_SECCOMP_NEW_LISTENER, ListenerCheck(host))
  {
    var l, code := PAST_SECCOMP_NEW_LISTENER, [LoadArgLo(1)] + ReturnWhen(AnyBit, FILTER_FLAG_NEW_LISTENER, RET_KILL);
    SkipResolves(false, host.SeccompNr(), l, code);
    EndsBehind(Plain(LoadNr), JumpTo(false, host.SeccompNr(), l) + (Plains(code) + [At(l)]), l,
               SkipWhen(false, host.SeccompNr(), code));
  }

  lemma {:induction false} PlainsClosed(code: seq<Instr>)
    ensures Closed(Plains(code), {}, code)
  {
    if code != [] {
      PlainsClosed(code[1..]);
      assert Plains(code)[1..] == Plains(code[1..]);
    }
  }

  /** Stretches with labels of their own, and plain code between them. */
  lemma ThreeResolve(a: seq<Item>, la: nat, ra: seq<Instr>, b: seq<Item>, lb: nat, rb: seq<Instr>, c: seq<Instr>)
    requires Closed(a, {la}, ra) && Closed(b, {lb}, rb) && la != lb
    ensures Closed(a + (b + Plains(c)), {la, lb}, ra + (rb + c))
  {
    PlainsClosed(c);
    ClosedAppend(b, {lb}, rb, Plains(c), {}, c);
    ClosedAppend(a, {la}, ra, b + Plains(c), {lb} + {}, rb + c);
  }

  lemma FourResolve(p: seq<Instr>, a: seq<Item>, la: nat, ra: seq<Instr>, b: seq<Item>, lb: nat, rb: seq<Instr>,
                    c: seq<Instr>)
    requires Closed(a, {la}, ra) && Closed(b, {lb}, rb) && la != lb
    ensures Closed(Plains(p) + (a + (b + Plains(c))), {la, lb}, p + (ra + (rb + c)))
  {
    ThreeResolve(a, la, ra, b, lb, rb, c);
    PlainsClosed(p);
    ClosedAppend(Plains(p), {}, p, a + (b + Plains(c)), {la, lb}, ra + (rb + c));
  }

  lemma FiveResolve(a: seq<Item>, la: set<nat>, ra: seq<Instr>, p: seq<Instr>, q: seq<Instr>,
                    b: seq<Item>, lb: nat, rb: seq<Instr>, c: seq<Item>, lc: nat, rc: seq<Instr>)
    requires Closed(a, la, ra) && Closed(b, {lb}, rb) && Closed(c, {lc}, rc)
    requires lb !in la && lc !in la && lb != lc
    ensures Closed(a + Plains(p) + Plains(q) + b + c, la + {lb, lc}, ra + p + q + rb + rc)
  {
    PlainsClosed(p);
    PlainsClosed(q);
    ClosedAppend(a, la, ra, Plains(p), {}, p);
    ClosedAppend(a + Plains(p), la + {}, ra + p, Plains(q), {}, q);
    ClosedAppend(a + Plains(p) + Plains(q), la + {} + {}, ra + p + q, b, {lb}, rb);
    ClosedAppend(a + Plains(p) + Plains(q) + b, la + {} + {} + {lb}, ra + p + q + rb, c, {lc}, rc);
  }

  const ENTRY_LABELS := {PAST_ARCH_CHECK, PAST_SECCOMP, PAST_EXECVEAT}

  lemma EntryResolves(host: Host, notif: bool)
    ensures Closed(LabelledEntry(host, notif), ENTRY_LABELS, EntryChecks(host, notif))
  {
    if notif {
      SeccompResolves(host);
      ExecveatResolves(host, RET_ALLOW);
      FourResolve(NotifArchCheck(host), LabelledSeccomp(host), PAST_SECCOMP, NotifSeccompCheck(host),
                  LabelledExecveat(host, RET_ALLOW), PAST_EXECVEAT, ExecveatCheck(host, RET_ALLOW), [LoadNr]);
    } else {
      var action := Trace(host.Arch());
      ArchResolves(host);
      ExecveatResolves(host, action);
      ThreeResolve(LabelledArch(host), PAST_ARCH_CHECK, ArchCheck(host),
                   LabelledExecveat(host, action), PAST_EXECVEAT, ExecveatCheck(host, action), [LoadNr]);
    }
  }

  /** The default policy can be resolved, and resolves to what module Policies reasons about. */
  lemma DefaultResolves(host: Host, p: Policy, notif: bool)
    ensures Resolvable(LabelledDefault(host, p, notif))
    ensures Resolved(LabelledDefault(host, p, notif)) == DefaultPolicy(host, p, notif)
  {
    EntryResolves(host, notif);
    SkipResolves(false, host.Clone(), PAST_CLONE_UNTRACED,
                 [LoadArgLo(0)] + ReturnWhen(AnyBit, CLONE_UNTRACED, RET_KILL));
    ListenerResolves(host);
    FiveResolve(LabelledEntry(host, notif), ENTRY_LABELS, EntryChecks(host, notif),
                DenyCheck(p.handlesPtrace, host.Ptrace()), DenyCheck(p.handlesBpf, host.BpfNr()),
                LabelledClone(host), PAST_CLONE_UNTRACED, CloneCheck(host),
                LabelledListener(host), PAST_SECCOMP_NEW_LISTENER, ListenerCheck(host));
  }

  method Forbid(labelled: seq<Item>, handled: bool, nr: Word) returns (r: seq<Item>)
    ensures r == labelled + Plains(DenyCheck(handled, nr))
  {
    r := labelled;
    if !handled {
      r := r + Plains(ReturnWhen(Eq, nr, RET_KILL));
    }
  }

  /** Resolving never fails, so the check that would abort is never reached. */
  method GetDefaultPolicy(host: Host, p: Policy, notif: bool) returns (policy: seq<Instr>)
    ensures policy == DefaultPolicy(host, p, notif)
  {
    var labelled := LabelledEntry(host, notif);
    labelled := Forbid(labelled, p.handlesPtrace, host.Ptrace());
    labelled := Forbid(labelled, p.handlesBpf, host.BpfNr());
    labelled := labelled + LabelledClone(host);
    labelled := labelled + LabelledListener(host);
    DefaultResolves(host, p, notif);
    policy := ResolveAll(labelled);
  }

  method ResolveAll(labelled: seq<Item>) returns (policy: seq<Instr>)
    requires Resolvable(labelled) && 1 <= |labelled| <= BPF_MAXINSNS
    ensures policy == Resolved(labelled)
  {
    var filter := new Item[|labelled|](i requires 0 <= i < |labelled| => labelled[i]);
    assert filter[..] == labelled;
    var code := BpfResolveJumps(filter);
    assert code == 0;
    policy := seq(filter.Length, i requires 0 <= i < filter.Length && filter[i].Plain? reads filter => filter[i].instr);
  }

  method GetPolicy(host: Host, p: Policy, notif: bool, permitAll: bool) returns (policy: seq<Instr>)
    ensures policy == if permitAll then TrackingPolicy(host) else Filter(host, p, notif)
  {
    if permitAll {
      return TrackingPolicy(host);
    }
    policy := GetDefaultPolicy(host, p, notif);
    policy := policy + [LoadNr];
    policy := policy + p.userPolicy;
    policy := policy + [Ret(RET_KILL)];
    if notif {
      policy := ReplaceKills(policy);
    }
  }
}
