/**
 The filter that `Policy::GetPolicy` assembles, and what it decides.

 The default policy is written with its labels resolved: a label is a jump by 0 and a
 jump to a label is a `Ja` by the distance to it (module LabelledPolicies has it with labels).
 */
module Policies {
  import opened Options
  import opened Bpf
  import opened Seccomp
  import opened Dispatch
  import opened Rules
  import opened PolicyBuilders

  // ----- the default policy, one stretch of code for each check -----

  /** `JEQ32(k, JUMP(l))` or `JNE32(k, JUMP(l))`, the code up to `LABEL(l)`, and the label. */
  function SkipWhen(eq: bool, k: Word, code: seq<Instr>): seq<Instr>
    requires |code| < 0x100
  {
    [Jump(Eq, k, if eq then 0 else 1, if eq then 1 else 0), Ja(|code|)] + (code + [Ja(0)])
  }

  /** The same with a label that `code` already ends with. */
  function SkipWithin(k: Word, code: seq<Instr>): seq<Instr>
    requires 1 <= |code| < 0x100
  {
    [Jump(Eq, k, 1, 0), Ja(|code| - 1)] + code
  }

  /** `JEQ32(k, action)` and `JA32(k, action)`. */
  function ReturnWhen(c: Cond, k: Word, action: Word): seq<Instr> {
    [Jump(c, k, 0, 1), Ret(action)]
  }

  /** What is returned for the 32-bit architecture of an x86-64 host, and for others. */
  function ForeignArch(host: Host): seq<Instr> {
    (if host.X8664? then ReturnWhen(Eq, AUDIT_ARCH_I386, Trace(ARCH_X86)) else []) + [Ret(Trace(ARCH_UNKNOWN))]
  }

  function ArchCheck(host: Host): seq<Instr> {
    [LoadArch] + SkipWhen(true, host.AuditArch(), ForeignArch(host))
  }

  function NotifArchCheck(host: Host): seq<Instr> {
    [LoadArch, Jump(Eq, host.AuditArch(), 1, 0), Ret(RET_KILL)]
  }

  function NotifSeccompCheck(host: Host): seq<Instr> {
    [LoadNr]
    + SkipWithin(host.SeccompNr(), [LoadArgLo(3)] + SkipWhen(false, EXECVE_MAGIC, [Ret(RET_ALLOW)]))
  }

  function ExecveatCheck(host: Host, action: Word): seq<Instr> {
    [LoadNr]
    + SkipWithin(host.Execveat(),
                 [LoadArgLo(4)]
                 + SkipWithin(AT_EMPTY_PATH, [LoadArgLo(5)] + SkipWhen(false, EXECVE_MAGIC, [Ret(action)])))
  }

  /** `JEQ32(nr, DENY)`, left out when the user's policy handles the call. */
  function DenyCheck(handled: bool, nr: Word): seq<Instr> {
    if handled then [] else ReturnWhen(Eq, nr, RET_KILL)
  }

  function CloneCheck(host: Host): seq<Instr> {
    SkipWhen(false, host.Clone(), [LoadArgLo(0)] + ReturnWhen(AnyBit, CLONE_UNTRACED, RET_KILL))
  }

  function ListenerCheck(host: Host): seq<Instr> {
    [LoadNr]
    + SkipWhen(false, host.SeccompNr(), [LoadArgLo(1)] + ReturnWhen(AnyBit, FILTER_FLAG_NEW_LISTENER, RET_KILL))
  }

  function EntryChecks(host: Host, notif: bool): seq<Instr> {
    if notif then NotifArchCheck(host) + (NotifSeccompCheck(host) + (ExecveatCheck(host, RET_ALLOW) + [LoadNr]))
    else ArchCheck(host) + (ExecveatCheck(host, Trace(host.Arch())) + [LoadNr])
  }

  /** `GetDefaultPolicy`, built up by appending. */
  function DefaultPolicy(host: Host, p: Policy, notif: bool): seq<Instr> {
    EntryChecks(host, notif)
    + DenyCheck(p.handlesPtrace, host.Ptrace())
    + DenyCheck(p.handlesBpf, host.BpfNr())
    + CloneCheck(host)
    + ListenerCheck(host)
  }

  /** The KILL that is replaced in the mode with user notifications. */
  function NotifInstr(i: Instr): Instr {
    if i == Ret(RET_KILL) then Ret(RET_USER_NOTIF) else i
  }

  function NotifAll(p: seq<Instr>): (r: seq<Instr>)
    ensures |r| == |p|
    ensures forall i :: 0 <= i < |p| ==> r[i] == NotifInstr(p[i])
  {
    seq(|p|, i requires 0 <= i < |p| => NotifInstr(p[i]))
  }

  /** Default policy, user policy, and a final KILL. */
  function Assembled(host: Host, p: Policy, notif: bool): seq<Instr> {
    DefaultPolicy(host, p, notif) + [LoadNr] + p.userPolicy + [Ret(RET_KILL)]
  }

  function Filter(host: Host, p: Policy, notif: bool): seq<Instr> {
    if notif then NotifAll(Assembled(host, p, notif)) else Assembled(host, p, notif)
  }

  /** `GetTrackingPolicy`, used instead when all system calls are permitted by a flag. */
  function TrackingPolicy(host: Host): seq<Instr> {
    [LoadArch] + ReturnWhen(Eq, host.AuditArch(), Trace(host.Arch())) + ForeignArch(host)
  }

  method ReplaceKills(p: seq<Instr>) returns (policy: seq<Instr>)
    ensures policy == NotifAll(p)
  {
    policy := p;
    for i := 0 to |policy|
      invariant |policy| == |p|
      invariant forall j :: 0 <= j < i ==> policy[j] == NotifInstr(p[j])
      invariant forall j :: i <= j < |p| ==> policy[j] == p[j]
    {
      if policy[i].Ret? && policy[i].k == RET_KILL {
        policy := policy[i := Ret(RET_USER_NOTIF)];
      }
    }
  }

  // ----- what a policy promises to decide -----

  /** The checks that come before the user's rules. */
  function EntryDecision(host: Host, notif: bool, d: Data): Option<Word> {
    if d.arch != host.AuditArch() then
      Some(if notif then RET_KILL
           else if host.X8664? && d.arch == AUDIT_ARCH_I386 then Trace(ARCH_X86) else Trace(ARCH_UNKNOWN))
    else if notif && d.nr == host.SeccompNr() && d.lo[3] == EXECVE_MAGIC then
      Some(RET_ALLOW)
    else if d.nr == host.Execveat() && d.lo[4] == AT_EMPTY_PATH && d.lo[5] == EXECVE_MAGIC then
      Some(if notif then RET_ALLOW else Trace(host.Arch()))
    else
      None
  }

  /** What the default policy denies: ptrace and bpf unless they are handled, a clone with bit 23 of
      its flags (CLONE_UNTRACED), and a seccomp call with bit 3 (a new listener). */
  predicate Denied(host: Host, handlesPtrace: bool, handlesBpf: bool, d: Data) {
    || (d.nr == host.Ptrace() && !handlesPtrace)
    || (d.nr == host.BpfNr() && !handlesBpf)
    || (d.nr == host.Clone() && d.lo[0] / 0x80_0000 % 2 == 1)
    || (d.nr == host.SeccompNr() && d.lo[1] / 8 % 2 == 1)
  }

  function UserDecision(host: Host, rules: seq<Rule>, d: Data, m: Memory): Word {
    match FirstMatch(host, rules, d, m)
    case Decide(k) => k
    case Pass(_) => RET_KILL
  }

  /** First match over the default checks, the user's rules, and KILL. */
  function Decision(host: Host, b: Builder, notif: bool, d: Data, m: Memory): Word {
    var k := match EntryDecision(host, notif, d)
             case Some(k) => k
             case None =>
               if Denied(host, b.handlesPtrace, b.handlesBpf, d) then RET_KILL
               else UserDecision(host, b.AllRules(), d, m);
    if notif && k == RET_KILL then RET_USER_NOTIF else k
  }

  // ----- each check decides or is left at its end -----

  /** `p` returns the action of `v`, or is left at its end with `acc` in the accumulator
      and the scratch memory unchanged. */
  ghost predicate Checks(p: seq<Instr>, d: Data, s: Machine, v: Option<Word>, acc: Word) {
    Run(p, d, 0, s) == (match v case Some(k) => Returned(k) case None => Left(|p|, s.(acc := acc)))
  }

  lemma CheckSeq(p: seq<Instr>, q: seq<Instr>, d: Data, s: Machine, v: Option<Word>, acc: Word, w: Option<Word>,
                 acc': Word)
    requires Checks(p, d, s, v, acc)
    requires v.None? ==> Checks(q, d, s.(acc := acc), w, acc')
    ensures Checks(p + q, d, s, if v.Some? then v else w, acc')
  {
    RunSeq(p, q, d, 0, s);
  }

  lemma CheckLoad(i: Instr, q: seq<Instr>, d: Data, s: Machine, acc: Word, w: Option<Word>, acc': Word)
    requires Execute(i, d, s) == Goto(0, s.(acc := acc))
    requires Checks(q, d, s.(acc := acc), w, acc')
    ensures Checks([i] + q, d, s, w, acc')
  {
    assert Run([i], d, 0, s) == Left(1, s.(acc := acc));
    CheckSeq([i], q, d, s, None, acc, w, acc');
  }

  lemma CheckReturn(c: Cond, k: Word, action: Word, d: Data, s: Machine)
    ensures Checks(ReturnWhen(c, k, action), d, s, if Holds(c, s.acc, k) then Some(action) else None, s.acc)
  {
    var p := ReturnWhen(c, k, action);
    assert Execute(p[0], d, s) == Goto(if Holds(c, s.acc, k) then 0 else 1, s);
  }

  /** The jump around `code` is taken, or the code runs. */
  lemma CheckSkip(p: seq<Instr>, jt: Offset8, k: Word, code: seq<Instr>, d: Data, s: Machine, w: Option<Word>,
                  acc': Word)
    requires jt <= 1 && 1 <= |code| < 0x100 && code[|code| - 1] == Ja(0)
    requires p == [Jump(Eq, k, jt, 1 - jt), Ja(|code| - 1)] + code
    requires Checks(code, d, s, w, acc')
    ensures var skip := (s.acc == k) == (jt == 0);
            Checks(p, d, s, if skip then None else w, if skip then s.acc else acc')
  {
    CompareAndJump(p, d, s, k, jt, 1 - jt);
    if (s.acc == k) == (jt == 0) {
      assert p[1] == Ja(|code| - 1) && Run(p, d, 1, s) == Run(p, d, |code| + 1, s);
      assert p[|code| + 1] == Ja(0) && Run(p, d, |code| + 1, s) == Run(p, d, |code| + 2, s);
      assert s == s.(acc := s.acc);
    } else {
      RunSuffix([Jump(Eq, k, jt, 1 - jt), Ja(|code| - 1)], code, d, 0, s);
    }
  }

  lemma CheckLabel(code: seq<Instr>, d: Data, s: Machine, w: Option<Word>, acc': Word)
    requires Checks(code, d, s, w, acc')
    ensures Checks(code + [Ja(0)], d, s, w, acc')
  {
    assert Checks([Ja(0)], d, s.(acc := acc'), None, acc');
    CheckSeq(code, [Ja(0)], d, s, w, acc', None, acc');
  }

  lemma CheckSkipWhen(eq: bool, k: Word, code: seq<Instr>, d: Data, s: Machine, w: Option<Word>, acc': Word)
    requires |code| < 0x100 - 1
    requires Checks(code, d, s, w, acc')
    ensures var skip := (s.acc == k) == eq;
            Checks(SkipWhen(eq, k, code), d, s, if skip then None else w, if skip then s.acc else acc')
  {
    CheckLabel(code, d, s, w, acc');
    CheckSkip(SkipWhen(eq, k, code), if eq then 0 else 1, k, code + [Ja(0)], d, s, w, acc');
  }

  lemma ForeignArchChecks(host: Host, d: Data, s: Machine)
    requires s.acc == d.arch
    ensures Checks(ForeignArch(host), d, s,
                   Some(Trace(if host.X8664? && d.arch == AUDIT_ARCH_I386 then ARCH_X86 else ARCH_UNKNOWN)), d.arch)
  {
    var unknown := [Ret(Trace(ARCH_UNKNOWN))];
    var i386 := if host.X8664? then ReturnWhen(Eq, AUDIT_ARCH_I386, Trace(ARCH_X86)) else [];
    var v := if host.X8664? && d.arch == AUDIT_ARCH_I386 then Some(Trace(ARCH_X86)) else None;
    assert Checks(unknown, d, s, Some(Trace(ARCH_UNKNOWN)), d.arch);
    CheckReturn(Eq, AUDIT_ARCH_I386, Trace(ARCH_X86), d, s);
    CheckSeq(i386, unknown, d, s, v, d.arch, Some(Trace(ARCH_UNKNOWN)), d.arch);
  }

  lemma ArchChecks(host: Host, d: Data, s: Machine)
    ensures Checks(ArchCheck(host), d, s,
                   if d.arch == host.AuditArch() then None
                   else Some(if host.X8664? && d.arch == AUDIT_ARCH_I386 then Trace(ARCH_X86) else Trace(ARCH_UNKNOWN)),
                   d.arch)
  {
    var t := s.(acc := d.arch);
    var w := Some(Trace(if host.X8664? && d.arch == AUDIT_ARCH_I386 then ARCH_X86 else ARCH_UNKNOWN));
    ForeignArchChecks(host, d, t);
    CheckSkipWhen(true, host.AuditArch(), ForeignArch(host), d, t, w, d.arch);
    CheckLoad(LoadArch, SkipWhen(true, host.AuditArch(), ForeignArch(host)), d, s, d.arch,
              if d.arch == host.AuditArch() then None else w, d.arch);
  }

  lemma NotifArchChecks(host: Host, d: Data, s: Machine)
    ensures Checks(NotifArchCheck(host), d, s, if d.arch == host.AuditArch() then None else Some(RET_KILL), d.arch)
  {
    var t := s.(acc := d.arch);
    var rest := [Jump(Eq, host.AuditArch(), 1, 0), Ret(RET_KILL)];
    CompareAndJump(rest, d, t, host.AuditArch(), 1, 0);
    CheckLoad(LoadArch, rest, d, s, d.arch, if d.arch == host.AuditArch() then None else Some(RET_KILL), d.arch);
    assert NotifArchCheck(host) == [LoadArch] + rest;
  }

  lemma NotifSeccompChecks(host: Host, d: Data, s: Machine)
    ensures Checks(NotifSeccompCheck(host), d, s,
                   if d.nr == host.SeccompNr() && d.lo[3] == EXECVE_MAGIC then Some(RET_ALLOW) else None,
                   if d.nr == host.SeccompNr() then d.lo[3] else d.nr)
  {
    var t := s.(acc := d.nr);
    var code := [LoadArgLo(3)] + SkipWhen(false, EXECVE_MAGIC, [Ret(RET_ALLOW)]);
    var v := if d.lo[3] == EXECVE_MAGIC then Some(RET_ALLOW) else None;
    MagicChecks(3, RET_ALLOW, d, t);
    CheckSkip(SkipWithin(host.SeccompNr(), code), 1, host.SeccompNr(), code, d, t, v, d.lo[3]);
    CheckLoad(LoadNr, SkipWithin(host.SeccompNr(), code), d, s, d.nr,
              if d.nr == host.SeccompNr() then v else None, if d.nr == host.SeccompNr() then d.lo[3] else d.nr);
  }

  /** The comparison with the magic value that ends the two special cases. */
  lemma MagicChecks(arg: ArgIndex, action: Word, d: Data, s: Machine)
    ensures var code := [LoadArgLo(arg)] + SkipWhen(false, EXECVE_MAGIC, [Ret(action)]);
            && Checks(code, d, s, if d.lo[arg] == EXECVE_MAGIC then Some(action) else None, d.lo[arg])
            && |code| == 5 && code[4] == Ja(0)
  {
    var t := s.(acc := d.lo[arg]);
    assert Checks([Ret(action)], d, t, Some(action), t.acc);
    CheckSkipWhen(false, EXECVE_MAGIC, [Ret(action)], d, t, Some(action), t.acc);
    CheckLoad(LoadArgLo(arg), SkipWhen(false, EXECVE_MAGIC, [Ret(action)]), d, s, t.acc,
              if t.acc == EXECVE_MAGIC then Some(action) else None, t.acc);
  }

  lemma ExecveatChecks(host: Host, action: Word, d: Data, s: Machine)
    ensures Checks(ExecveatCheck(host, action) + [LoadNr], d, s,
                   if d.nr == host.Execveat() && d.lo[4] == AT_EMPTY_PATH && d.lo[5] == EXECVE_MAGIC then Some(action)
                   else None,
                   d.nr)
  {
    var t, u := s.(acc := d.nr), s.(acc := d.lo[4]);
    var magic := [LoadArgLo(5)] + SkipWhen(false, EXECVE_MAGIC, [Ret(action)]);
    var v := if d.lo[5] == EXECVE_MAGIC then Some(action) else None;
    MagicChecks(5, action, d, u);
    var empty := SkipWithin(AT_EMPTY_PATH, magic);
    var v', acc' := if u.acc == AT_EMPTY_PATH then v else None, if u.acc == AT_EMPTY_PATH then d.lo[5] else u.acc;
    CheckSkip(empty, 1, AT_EMPTY_PATH, magic, d, u, v, d.lo[5]);
    CheckLoad(LoadArgLo(4), empty, d, t, u.acc, v', acc');
    var all := SkipWithin(host.Execveat(), [LoadArgLo(4)] + empty);
    var v'', acc'' := if d.nr == host.Execveat() then v' else None, if d.nr == host.Execveat() then acc' else d.nr;
    CheckSkip(all, 1, host.Execveat(), [LoadArgLo(4)] + empty, d, t, v', acc');
    CheckLoad(LoadNr, all, d, s, d.nr, v'', acc'');
    assert Checks([LoadNr], d, s.(acc := acc''), None, d.nr);
    CheckSeq(ExecveatCheck(host, action), [LoadNr], d, s, v'', acc'', None, d.nr);
  }

  lemma DenyChecks(handled: bool, nr: Word, d: Data, s: Machine)
    requires s.acc == d.nr
    ensures Checks(DenyCheck(handled, nr), d, s, if d.nr == nr && !handled then Some(RET_KILL) else None, d.nr)
  {
    CheckReturn(Eq, nr, RET_KILL, d, s);
  }

  /** A check that one argument of one call has no bit of `mask`. */
  lemma FlagChecks(nr: Word, arg: ArgIndex, mask: Word, d: Data, s: Machine)
    requires s.acc == d.nr
    ensures Checks(SkipWhen(false, nr, [LoadArgLo(arg)] + ReturnWhen(AnyBit, mask, RET_KILL)), d, s,
                   if d.nr == nr && BitAnd(d.lo[arg], mask) != 0 then Some(RET_KILL) else None,
                   if d.nr == nr then d.lo[arg] else d.nr)
  {
    var t := s.(acc := d.lo[arg]);
    var v := if BitAnd(d.lo[arg], mask) != 0 then Some(RET_KILL) else None;
    CheckReturn(AnyBit, mask, RET_KILL, d, t);
    CheckLoad(LoadArgLo(arg), ReturnWhen(AnyBit, mask, RET_KILL), d, s, t.acc, v, t.acc);
    CheckSkipWhen(false, nr, [LoadArgLo(arg)] + ReturnWhen(AnyBit, mask, RET_KILL), d, s, v, t.acc);
  }

  lemma ListenerChecks(host: Host, d: Data, s: Machine)
    ensures Checks(ListenerCheck(host), d, s,
                   if d.nr == host.SeccompNr() && BitAnd(d.lo[1], FILTER_FLAG_NEW_LISTENER) != 0
                   then Some(RET_KILL) else None,
                   if d.nr == host.SeccompNr() then d.lo[1] else d.nr)
  {
    var t := s.(acc := d.nr);
    var nr, mask := host.SeccompNr(), FILTER_FLAG_NEW_LISTENER;
    FlagChecks(nr, 1, mask, d, t);
    CheckLoad(LoadNr, SkipWhen(false, nr, [LoadArgLo(1)] + ReturnWhen(AnyBit, mask, RET_KILL)), d, s, d.nr,
              if d.nr == nr && BitAnd(d.lo[1], mask) != 0 then Some(RET_KILL) else None,
              if d.nr == nr then d.lo[1] else d.nr);
  }

  /** The checks in front of the user's policy, for both modes. */
  lemma EntriesCheck(host: Host, notif: bool, d: Data, s: Machine)
    ensures Checks(EntryChecks(host, notif), d, s, EntryDecision(host, notif, d), d.nr)
  {
    var action := if notif then RET_ALLOW else Trace(host.Arch());
    var t := s.(acc := d.arch);
    var v := if d.nr == host.Execveat() && d.lo[4] == AT_EMPTY_PATH && d.lo[5] == EXECVE_MAGIC
             then Some(action) else None;
    var exec := ExecveatCheck(host, action) + [LoadNr];
    if notif {
      var acc := if d.nr == host.SeccompNr() then d.lo[3] else d.nr;
      var w := if d.nr == host.SeccompNr() && d.lo[3] == EXECVE_MAGIC then Some(RET_ALLOW) else None;
      NotifArchChecks(host, d, s);
      NotifSeccompChecks(host, d, t);
      ExecveatChecks(host, action, d, t.(acc := acc));
      CheckSeq(NotifSeccompCheck(host), exec, d, t, w, acc, v, d.nr);
      CheckSeq(NotifArchCheck(host), NotifSeccompCheck(host) + exec, d, s,
               if d.arch == host.AuditArch() then None else Some(RET_KILL), d.arch, if w.Some? then w else v, d.nr);
    } else {
      ArchChecks(host, d, s);
      ExecveatChecks(host, action, d, t);
      CheckSeq(ArchCheck(host), exec, d, s,
               if d.arch == host.AuditArch() then None
               else Some(if host.X8664? && d.arch == AUDIT_ARCH_I386 then Trace(ARCH_X86) else Trace(ARCH_UNKNOWN)),
               d.arch, v, d.nr);
    }
  }
}
