/**
 `PolicyBuilder`: the calls that add rules, and `TryBuild`.

 `Builder` is the rule list that a sequence of calls denotes; the class holds the
 instruction vectors of the source and is proved to stay the compilation of that list.
 */
module PolicyBuilders {
  import opened Options
  import opened Sequences
  import opened Bits
  import opened Bpf
  import opened Seccomp
  import opened Dispatch
  import opened Rules

  const MAX_USER_POLICY_LENGTH: nat := 30000

  datatype Error = JumpOutOfBounds | PolicyTooLong | UserPolicyTooLong | AlreadyBuilt

  datatype Result<+T> = Ok(value: T) | Err(error: Error)

  datatype Call =
    | AllowSyscall(nr: Word)
    | BlockSyscallWithErrno(nr: Word, error: Word)
    | OverridableBlockSyscallWithErrno(nr: Word, error: Word)
    | AddPolicyOnSyscalls(nums: seq<Word>, body: seq<Instr>)
    | DefaultActionAllowAll

  /** The policy that `TryBuild` hands out. */
  datatype Policy = Policy(userPolicy: seq<Instr>, handlesBpf: bool, handlesPtrace: bool)

  datatype Builder = Builder(
    rules: seq<Rule>,
    overridable: seq<Rule>,
    allowAll: bool,
    handled: set<Word>,
    handlesBpf: bool,
    handlesPtrace: bool,
    status: Option<Error>)
  {
    /** User rules in call order, the default action, then the overridable rules. */
    function AllRules(): seq<Rule> {
      rules + (if allowAll then [Always(RET_ALLOW)] else []) + overridable
    }
  }

  const EMPTY := Builder([], [], false, {}, false, false, None)

  function Apply(host: Host, b: Builder, c: Call): Builder {
    match c
    case AllowSyscall(nr) =>
      if nr in b.handled then b
      else b.(handled := b.handled + {nr}, rules := b.rules + [Simple(nr, RET_ALLOW)])
    case BlockSyscallWithErrno(nr, error) =>
      if nr in b.handled then b
      else b.(handled := b.handled + {nr},
              rules := b.rules + [Simple(nr, Errno(error))],
              handlesBpf := b.handlesBpf || nr == host.BpfNr(),
              handlesPtrace := b.handlesPtrace || nr == host.Ptrace())
    case OverridableBlockSyscallWithErrno(nr, error) =>
      b.(overridable := b.overridable + [Simple(nr, Errno(error))])
    case AddPolicyOnSyscalls(nums, body) =>
      if !Bounded(body) then b.(status := Some(JumpOutOfBounds))
      else if |body| + 1 > 0xffff_ffff then b.(status := Some(PolicyTooLong))
      else b.(rules := b.rules + [OnSyscalls(nums, body)])
    case DefaultActionAllowAll =>
      b.(allowAll := true)
  }

  function ApplyAll(host: Host, b: Builder, calls: seq<Call>): Builder
    decreases |calls|
  {
    if calls == [] then b else ApplyAll(host, Apply(host, b, calls[0]), calls[1..])
  }

  lemma CompileFirst(host: Host, r: Rule, rest: seq<Rule>)
    ensures CompileAll(host, [r] + rest) == Compile(host, r) + CompileAll(host, rest)
  {
    assert ([r] + rest)[1..] == rest;
  }

  lemma {:induction false} CompileAppend(host: Host, a: seq<Rule>, b: seq<Rule>)
    ensures CompileAll(host, a + b) == CompileAll(host, a) + CompileAll(host, b)
  {
    if a == [] {
      assert a + b == b;
    } else {
      assert a + b == [a[0]] + (a[1..] + b);
      CompileFirst(host, a[0], a[1..] + b);
      CompileAppend(host, a[1..], b);
      Associates(Compile(host, a[0]), CompileAll(host, a[1..]), CompileAll(host, b));
    }
  }

  lemma CompileOne(host: Host, a: seq<Rule>, r: Rule)
    ensures CompileAll(host, a + [r]) == CompileAll(host, a) + Compile(host, r)
  {
    CompileAppend(host, a, [r]);
    assert CompileAll(host, [r]) == Compile(host, r) + CompileAll(host, []);
  }

  lemma CompileAllRules(host: Host, b: Builder)
    ensures CompileAll(host, b.AllRules())
            == CompileAll(host, b.rules) + (if b.allowAll then [Ret(RET_ALLOW)] else [])
               + CompileAll(host, b.overridable)
  {
    var d := if b.allowAll then [Always(RET_ALLOW)] else [];
    CompileAppend(host, b.rules + d, b.overridable);
    if b.allowAll {
      CompileOne(host, b.rules, Always(RET_ALLOW));
    } else {
      assert b.rules + d == b.rules;
    }
  }

  class PolicyBuilder {
    const host: Host
    var userPolicy: seq<Instr>
    var overridablePolicy: seq<Instr>
    var defaultAction: Option<Instr>
    var handledSyscalls: set<Word>
    var handlesBpf: bool
    var handlesPtrace: bool
    var lastStatus: Option<Error>
    var alreadyBuilt: bool

    /** The rule list denoted by the calls made so far. */
    ghost var model: Builder

    ghost predicate Valid()
      reads this
    {
      && (!alreadyBuilt ==>
            && userPolicy == CompileAll(host, model.rules)
            && (forall r :: r in model.rules ==> Accepted(r)))
      && overridablePolicy == CompileAll(host, model.overridable)
      && (forall r :: r in model.overridable ==> r.Simple?)
      && defaultAction == (if model.allowAll then Some(Ret(RET_ALLOW)) else None)
      && handledSyscalls == model.handled
      && handlesBpf == model.handlesBpf
      && handlesPtrace == model.handlesPtrace
      && lastStatus == model.status
    }

    constructor (host: Host)
      ensures Valid() && this.host == host && model == EMPTY && !alreadyBuilt
    {
      this.host := host;
      userPolicy, overridablePolicy, defaultAction := [], [], None;
      handledSyscalls, handlesBpf, handlesPtrace := {}, false, false;
      lastStatus, alreadyBuilt := None, false;
      model := EMPTY;
    }

    method AllowSyscall(nr: Word)
      requires Valid()
      modifies this
      ensures Valid() && model == Apply(host, old(model), Call.AllowSyscall(nr))
      ensures alreadyBuilt == old(alreadyBuilt)
    {
      if nr !in handledSyscalls {
        CompileOne(host, model.rules, Simple(nr, RET_ALLOW));
        handledSyscalls := handledSyscalls + {nr};
        userPolicy := userPolicy + [Jump(Eq, nr, 0, 1), Ret(RET_ALLOW)];
        model := Apply(host, model, Call.AllowSyscall(nr));
      }
    }

    method NoteBlocked(nr: Word)
      modifies this`handlesBpf, this`handlesPtrace
      ensures handlesBpf == (old(handlesBpf) || nr == host.BpfNr())
      ensures handlesPtrace == (old(handlesPtrace) || nr == host.Ptrace())
    {
      if nr == host.BpfNr() {
        handlesBpf := true;
      }
      if nr == host.Ptrace() {
        handlesPtrace := true;
      }
    }

    method BlockSyscallWithErrno(nr: Word, error: Word)
      requires Valid()
      modifies this
      ensures Valid() && model == Apply(host, old(model), Call.BlockSyscallWithErrno(nr, error))
      ensures alreadyBuilt == old(alreadyBuilt)
    {
      if nr !in handledSyscalls {
        var action := Errno(error);
        CompileOne(host, model.rules, Simple(nr, action));
        handledSyscalls := handledSyscalls + {nr};
        userPolicy := userPolicy + [Jump(Eq, nr, 0, 1), Ret(action)];
        NoteBlocked(nr);
        model := Apply(host, model, Call.BlockSyscallWithErrno(nr, error));
      }
    }

    method OverridableBlockSyscallWithErrno(nr: Word, error: Word)
      requires Valid()
      modifies this
      ensures Valid() && model == Apply(host, old(model), Call.OverridableBlockSyscallWithErrno(nr, error))
      ensures alreadyBuilt == old(alreadyBuilt)
    {
      CompileOne(host, model.overridable, Simple(nr, Errno(error)));
      overridablePolicy := overridablePolicy + [Jump(Eq, nr, 0, 1), Ret(Errno(error))];
      model := Apply(host, model, Call.OverridableBlockSyscallWithErrno(nr, error));
    }

    method DefaultAction()
      requires Valid()
      modifies this
      ensures Valid() && model == Apply(host, old(model), DefaultActionAllowAll)
      ensures alreadyBuilt == old(alreadyBuilt)
    {
      defaultAction := Some(Ret(RET_ALLOW));
      model := Apply(host, model, DefaultActionAllowAll);
    }

    /** The normalised body, or the reason for rejecting it. */
    method CheckBody(policy: seq<Instr>) returns (r: Result<seq<Instr>>)
      ensures r == if !Bounded(policy) then Err(JumpOutOfBounds)
                   else if |policy| + 1 > 0xffff_ffff then Err(PolicyTooLong)
                   else Ok(Tail(host, policy))
    {
      var out := policy;
      for i := 0 to |policy|
        invariant |out| == |policy|
        invariant forall j :: 0 <= j < i ==> CheckBpfBounds(policy[j], |policy| - j - 1)
        invariant forall j :: 0 <= j < i ==> out[j] == Normalise(host, policy[j])
        invariant forall j :: i <= j < |policy| ==> out[j] == policy[j]
      {
        var maxJump := |out| - i - 1;
        if !CheckBpfBounds(out[i], maxJump) {
          return Err(JumpOutOfBounds);
        }
        if out[i].Ret? {
          ActionPart(out[i].k, RET_ACTION);
          DataPart(out[i].k, RET_DATA);
        }
        if out[i].Ret? && BitAnd(out[i].k, RET_ACTION) == RET_TRACE && BitAnd(out[i].k, RET_DATA) != host.Arch() {
          out := out[i := Ret(Trace(host.Arch()))];
        }
      }
      assert out == NormaliseAll(host, policy);
      out := out + [LoadNr];
      if |out| > 0xffff_ffff {
        return Err(PolicyTooLong);
      }
      return Ok(out);
    }

    /** The comparisons, pushed to the front from the last number to the first. */
    static method EmitComparisons(nums: seq<Word>, tail: seq<Instr>) returns (out: seq<Instr>)
      requires |tail| >= 1
      ensures out == Emit(nums, tail, 0).out
    {
      out := tail;
      var doPolicyLoc: nat := |out|;
      var last := true;
      var i := |nums|;
      assert nums[i..] == [];
      while i > 0
        invariant 0 <= i <= |nums|
        invariant last <==> i == |nums|
        invariant Chain(out, doPolicyLoc) == Emit(nums[i..], tail, 0)
      {
        i := i - 1;
        assert nums[i..][1..] == nums[i + 1..];
        var jf: Offset8 := 0;
        if last {
          if |out| > MAX_SHORT_JUMP {
            out := [Ja(U32(|out|))] + out;
          } else {
            jf := U8(|out|);
          }
          last := false;
        }
        if |out| - doPolicyLoc > MAX_SHORT_JUMP {
          out := [Ja(U32(|out| - (|tail| - 1)))] + out;
          doPolicyLoc := |out|;
          jf := U8(jf + 1);
        }
        var jt := U8(|out| - doPolicyLoc);
        out := [Jump(Eq, nums[i], jt, jf)] + out;
      }
      assert nums[0..] == nums;
    }

    method AddPolicyOnSyscalls(nums: seq<Word>, policy: seq<Instr>)
      requires Valid()
      modifies this
      ensures Valid() && model == Apply(host, old(model), Call.AddPolicyOnSyscalls(nums, policy))
      ensures alreadyBuilt == old(alreadyBuilt)
    {
      var checked := CheckBody(policy);
      if checked.Err? {
        lastStatus := Some(checked.error);
      } else {
        var out := EmitComparisons(nums, checked.value);
        CompileOne(host, model.rules, OnSyscalls(nums, policy));
        userPolicy := userPolicy + out;
      }
      model := Apply(host, model, Call.AddPolicyOnSyscalls(nums, policy));
    }

    /** A policy is handed out once, and only without errors and within the length limit. */
    method TryBuild() returns (r: Result<Policy>)
      requires Valid()
      modifies this
      ensures Valid() && model == old(model)
      ensures old(alreadyBuilt) ==> r.Err? && alreadyBuilt
      ensures !old(alreadyBuilt) ==>
                r == if |CompileAll(host, model.rules)| > MAX_USER_POLICY_LENGTH then Err(UserPolicyTooLong)
                     else if model.status.Some? then Err(model.status.value)
                     else Ok(Policy(CompileAll(host, model.AllRules()), model.handlesBpf, model.handlesPtrace))
      ensures r.Ok? ==> alreadyBuilt
      ensures r.Err? ==> alreadyBuilt == old(alreadyBuilt)
      ensures r.Ok? ==> Buildable(host, model)
    {
      if |userPolicy| > MAX_USER_POLICY_LENGTH {
        return Err(UserPolicyTooLong);
      }
      if lastStatus.Some? {
        return Err(lastStatus.value);
      }
      if alreadyBuilt {
        return Err(AlreadyBuilt);
      }
      CompileAllRules(host, model);
      var output := userPolicy;
      assert output + [] == output;
      userPolicy := [];
      if defaultAction.Some? {
        output := output + [defaultAction.value];
      }
      output := output + overridablePolicy;
      assert output == CompileAll(host, model.AllRules());
      alreadyBuilt := true;
      return Ok(Policy(output, handlesBpf, handlesPtrace));
    }
  }

  /** The builders whose policy `TryBuild` hands out. */
  ghost predicate Buildable(host: Host, b: Builder) {
    && |CompileAll(host, b.rules)| <= MAX_USER_POLICY_LENGTH
    && b.status == None
    && (forall r :: r in b.rules ==> Accepted(r))
    && (forall r :: r in b.overridable ==> r.Simple?)
  }
}
