/**
 The ptrace monitor as a state machine: what one iteration of `PtraceMonitor::Run` does with the
 answers of the kernel, and what holds of every run.
 */
module MonitorModel {
  import opened Options

  datatype Status = Unset | Ok | SetupError | Violation | Signaled | Timeout | ExternalKill | InternalError

  // Reason codes of `result.h`.
  const FAILED_SIGNALS := 2
  const FAILED_SUBPROCESS := 3
  const FAILED_NOTIFY := 4
  const FAILED_WAIT := 6
  const FAILED_PTRACE := 8
  const FAILED_IPC := 9
  const FAILED_LIMITS := 10
  const FAILED_CWD := 11
  const FAILED_POLICY := 12
  const FAILED_FETCH := 14
  const FAILED_GETEVENT := 15
  const FAILED_MONITOR := 16
  const FAILED_KILL := 17
  const FAILED_INTERRUPT := 18
  const FAILED_CHILD := 19
  const FAILED_INSPECT := 20
  const VIOLATION_NETWORK := 0x1000_0000

  const SIGSYS := 31
  const ARCH_FIRST := 0xcaf0
  const ARCH_LAST := 0xcaf5

  datatype Syscall = Syscall(arch: int, nr: int)

  /** The wait status that a PTRACE_EVENT_EXIT message carries. */
  datatype Death = ByExit(code: int) | BySignal(signal: int)

  datatype Event =
    | SignalDelivery
    | SyscallExitStop
    | ForkEvent(child: int)      // also VFORK and CLONE
    | VforkDone
    | ExecEvent
    | ExitEvent(death: Death)
    | GroupStop
    | SeccompEvent(data: int)
    | UnknownEvent

  datatype WaitStatus = Exited(code: int) | KilledBy(signal: int) | Stopped(event: Event) | Continued

  datatype Wait = Nothing | NoChild | WaitFailed | Reported(pid: int, status: WaitStatus)

  datatype EventMessage = MessageRead | MessageGone | MessageFailed

  datatype Registers = Fetched(nr: int, returnValue: int) | RegsGone | RegsFailed

  datatype TraceAction = Allow | Deny | InspectAfterReturn

  /** What the environment answers and requests during one iteration of the main loop. */
  datatype Iteration = Iteration(
    deadlinePassed: bool,
    dumpRequested: bool,
    killRequested: bool,
    proxyViolation: bool,
    timeoutKillOk: bool,
    interruptOk: bool,
    externalKillOk: bool,
    networkKillOk: bool,
    wait: Wait,
    message: EventMessage,
    regs: Registers,
    action: TraceAction)

  datatype Config = Config(
    mainPid: int,
    hostArch: int,
    execveat: int,
    execs: set<int>,
    forks: set<int>,
    collectStacktraceOnExit: bool,
    logAllStackTraces: bool,
    canDumpStack: bool,
    logFile: bool,
    permitAll: bool)

  /** What the user's `Notify` object is told, and the exits of processes, in order. */
  datatype Entry =
    | Decided(pid: int, syscall: Syscall)               // EventSyscallTrace answered kInspectAfterReturn
    | SyscallReturn(pid: int, syscall: Syscall, value: int)  // EventSyscallReturn
    | ExitStop(pid: int)                                // PTRACE_EVENT_EXIT
    | Died(pid: int)                                    // waitpid reports the process as exited or killed

  /** The requests that have been acted on. */
  datatype Flags = Flags(timedOut: bool, shouldDumpStack: bool, externalKill: bool, networkViolation: bool)

  /** `checkFailed`: the CHECK in `SetExitStatusCode` has fired. */
  datatype State = State(
    status: Status,
    reason: int,
    checkFailed: bool,
    flags: Flags,
    waitForExecve: bool,
    inProgress: map<int, Syscall>,
    log: seq<Entry>)

  function Initial(waitForExecve: bool): State {
    State(Unset, 0, false, Flags(false, false, false, false), waitForExecve, map[], [])
  }

  // ----- the handlers -----

  /** `MonitorBase::SetExitStatusCode`. */
  function SetExitStatusCode(s: State, status: Status, reason: int): State {
    if s.status != Unset then s.(checkFailed := true) else s.(status := status, reason := reason)
  }

  function Report(s: State, pid: int, value: int): State
    requires pid in s.inProgress
  {
    s.(log := s.log + [SyscallReturn(pid, s.inProgress[pid], value)], inProgress := s.inProgress - {pid})
  }

  function ActionProcessSyscall(c: Config, s: State, pid: int, syscall: Syscall, action: TraceAction): State {
    if syscall.nr == c.execveat && s.waitForExecve then s
    else
      match action
      case Allow => s
      case InspectAfterReturn =>
        s.(inProgress := s.inProgress[pid := syscall], log := s.log + [Decided(pid, syscall)])
      case Deny =>
        if c.logFile || c.permitAll then s else SetExitStatusCode(s, Violation, syscall.nr)
  }

  function EventPtraceSeccomp(c: Config, s: State, pid: int, data: int, regs: Registers, action: TraceAction): State {
    if data < ARCH_FIRST || data > ARCH_LAST then s
    else
      match regs
      case RegsGone => s
      case RegsFailed => SetExitStatusCode(s, InternalError, FAILED_FETCH)
      case Fetched(nr, _) =>
        if data != c.hostArch then SetExitStatusCode(s, Violation, nr)
        else ActionProcessSyscall(c, s, pid, Syscall(data, nr), action)
  }

  function EventSyscallExit(s: State, pid: int, regs: Registers): State {
    if pid !in s.inProgress then SetExitStatusCode(s, InternalError, FAILED_INSPECT)
    else
      match regs
      case RegsGone => s
      case RegsFailed => SetExitStatusCode(s, InternalError, FAILED_FETCH)
      case Fetched(_, value) => Report(s, pid, value)
  }

  function EventPtraceNewProcess(c: Config, s: State, pid: int, child: int): State {
    if pid !in s.inProgress then s
    else if s.inProgress[pid].nr !in c.forks then SetExitStatusCode(s, InternalError, FAILED_INSPECT)
    else Report(s, pid, child)
  }

  function EventPtraceExec(c: Config, s: State, pid: int): State {
    if s.waitForExecve then s.(waitForExecve := false)
    else if pid !in s.inProgress then s
    else if s.inProgress[pid].nr !in c.execs then SetExitStatusCode(s, InternalError, FAILED_INSPECT)
    else Report(s, pid, 0)
  }

  /** The status of a main process that died, the requests of the monitor first. */
  function SetDeathStatus(s: State, death: Death): State {
    if s.flags.networkViolation then SetExitStatusCode(s, Violation, VIOLATION_NETWORK)
    else if s.flags.externalKill then SetExitStatusCode(s, ExternalKill, 0)
    else if s.flags.timedOut then SetExitStatusCode(s, Timeout, 0)
    else
      match death
      case ByExit(code) => SetExitStatusCode(s, Ok, code)
      case BySignal(signal) => SetExitStatusCode(s, Signaled, signal)
  }

  function EventPtraceExit(c: Config, s: State, pid: int, death: Death, regs: Registers): State {
    ExitCause(c, s.(inProgress := s.inProgress - {pid}, log := s.log + [ExitStop(pid)]), pid, death, regs)
  }

  function ExitCause(c: Config, s: State, pid: int, death: Death, regs: Registers): State {
    var isSeccomp := death == BySignal(SIGSYS);
    if death.ByExit? && (!c.collectStacktraceOnExit || pid != c.mainPid) then s
    else if (isSeccomp || pid == c.mainPid || c.logAllStackTraces) && !regs.Fetched? then
      SetExitStatusCode(s, InternalError, FAILED_FETCH)
    else if isSeccomp then SetExitStatusCode(s, Violation, if regs.Fetched? then regs.nr else 0)
    else if pid == c.mainPid then SetDeathStatus(s, death)
    else s
  }

  function HandleEvent(c: Config, s: State, pid: int, event: Event, it: Iteration): State {
    match event
    case SyscallExitStop => EventSyscallExit(s, pid, it.regs)
    case ForkEvent(child) => EventPtraceNewProcess(c, s, pid, child)
    case ExecEvent => EventPtraceExec(c, s, pid)
    case ExitEvent(death) => EventPtraceExit(c, s, pid, death, it.regs)
    case SeccompEvent(data) => EventPtraceSeccomp(c, s, pid, data, it.regs, it.action)
    case _ => s
  }

  function StateProcessStopped(c: Config, s0: State, pid: int, event: Event, it: Iteration): State {
    if event.SignalDelivery? then s0
    else
      match it.message
      case MessageGone => s0
      case MessageFailed => SetExitStatusCode(s0, InternalError, FAILED_GETEVENT)
      case MessageRead =>
        var s := if pid == c.mainPid && s0.flags.shouldDumpStack && c.canDumpStack
                 then s0.(flags := s0.flags.(shouldDumpStack := false))
                 else s0;
        HandleEvent(c, s, pid, event, it)
  }

  /** What is done with the result of `PidWaiter::Wait`. */
  function HandleWait(c: Config, s: State, it: Iteration): State {
    match it.wait
    case Nothing => s
    case NoChild => SetExitStatusCode(s, InternalError, FAILED_CHILD)
    case WaitFailed => s
    case Reported(pid, status) =>
      var dead := s.(log := s.log + [Died(pid)]);
      match status
      case Exited(code) =>
        if pid != c.mainPid then dead
        else if !s.waitForExecve then SetExitStatusCode(dead, Ok, code)
        else SetExitStatusCode(dead, SetupError, FAILED_MONITOR)
      case KilledBy(signal) => if pid != c.mainPid then dead else SetDeathStatus(dead, BySignal(signal))
      case Stopped(event) => StateProcessStopped(c, s, pid, event, it)
      case Continued => s
  }

  /** The flags once the requests of an iteration are on record. */
  function NoteAll(f: Flags, it: Iteration): Flags {
    Flags(f.timedOut || it.deadlinePassed, f.shouldDumpStack || it.dumpRequested,
          f.externalKill || it.killRequested, f.networkViolation || it.proxyViolation)
  }

  /** The first request of an iteration that cannot be acted on: the flags then, and the reason. */
  function FailedRequest(f: Flags, it: Iteration): Option<(Flags, int)> {
    var f1 := f.(timedOut := f.timedOut || it.deadlinePassed);
    var f2 := f1.(shouldDumpStack := f.shouldDumpStack || it.dumpRequested);
    var f3 := f2.(externalKill := f.externalKill || it.killRequested);
    var f4 := f3.(networkViolation := f.networkViolation || it.proxyViolation);
    if it.deadlinePassed && !it.timeoutKillOk then Some((f1, FAILED_KILL))
    else if it.dumpRequested && !it.interruptOk then Some((f2, FAILED_INTERRUPT))
    else if it.killRequested && !it.externalKillOk then Some((f3, FAILED_KILL))
    else if it.proxyViolation && !f.networkViolation && !it.networkKillOk then Some((f4, FAILED_KILL))
    else None
  }

  /** One iteration of the main loop, and whether the loop was left by a `break`. */
  function Iterate(c: Config, s: State, it: Iteration): (State, bool) {
    match FailedRequest(s.flags, it)
    case Some(f) => (SetExitStatusCode(s.(flags := f.0), InternalError, f.1), true)
    case None => (HandleWait(c, s.(flags := NoteAll(s.flags, it)), it), false)
  }

  /** The main loop on a sequence of iterations.  It has returned when the second component is
      true; otherwise the sequence was used up while it was running. */
  function RunLoop(c: Config, s: State, its: seq<Iteration>): (State, bool)
    decreases |its|
  {
    if s.status != Unset then (s, true)
    else if its == [] then (s, false)
    else
      var (s', broke) := Iterate(c, s, its[0]);
      if broke then (s', true) else RunLoop(c, s', its[1..])
  }

  /** `PtraceMonitor::Run`. */
  function Run(c: Config, s: State, signalsOk: bool, attachOk: bool, its: seq<Iteration>): (State, bool) {
    if !signalsOk then (SetExitStatusCode(s, SetupError, FAILED_SIGNALS), true)
    else if !attachOk then (SetExitStatusCode(s, SetupError, FAILED_PTRACE), true)
    else RunLoop(c, s, its)
  }

  // ----- reports of system call returns -----

  /** Entries about a process.  The code forgets a call in progress at an exit stop but not when
      `waitpid` reports a death, so statements come in two strengths: `deaths` says whether such
      reports are taken into account. */
  predicate Concerns(e: Entry, pid: int, deaths: bool) { e.pid == pid && (e.Died? ==> deaths) }

  function PendingAfter(before: map<int, Syscall>, e: Entry, deaths: bool): map<int, Syscall> {
    if e.Decided? then before[e.pid := e.syscall] else if e.Died? && !deaths then before else before - {e.pid}
  }

  /** The last entry about a process, if it is a decision to inspect, names the pending call. */
  function PendingIn(log: seq<Entry>, deaths: bool): map<int, Syscall> {
    if log == [] then map[] else PendingAfter(PendingIn(log[..|log| - 1], deaths), log[|log| - 1], deaths)
  }

  /** Entry `i` is the decision about `syscall` of `pid`, and nothing about `pid` follows before `j`. */
  predicate DecidedAt(log: seq<Entry>, i: nat, j: nat, pid: int, syscall: Syscall, deaths: bool)
    requires i < j <= |log|
  {
    log[i] == Decided(pid, syscall) && forall k :: i < k < j ==> !Concerns(log[k], pid, deaths)
  }

  /** Every reported return is the one of the latest decision about that process, with neither an
      exit nor another report of the process in between. */
  ghost predicate WellReported(log: seq<Entry>, deaths: bool) {
    forall j :: 0 <= j < |log| && log[j].SyscallReturn? ==>
      exists i :: 0 <= i < j && DecidedAt(log, i, j, log[j].pid, log[j].syscall, deaths)
  }

  lemma {:induction false} PendingWasDecided(log: seq<Entry>, pid: int, deaths: bool) returns (i: nat)
    requires pid in PendingIn(log, deaths)
    ensures i < |log| && DecidedAt(log, i, |log|, pid, PendingIn(log, deaths)[pid], deaths)
    decreases |log|
  {
    var n := |log| - 1;
    if log[n].Decided? && log[n].pid == pid {
      i := n;
    } else {
      i := PendingWasDecided(log[..n], pid, deaths);
    }
  }

  lemma LogMore(log: seq<Entry>, e: Entry, deaths: bool)
    requires WellReported(log, deaths)
    requires e.SyscallReturn? ==> e.pid in PendingIn(log, deaths) && PendingIn(log, deaths)[e.pid] == e.syscall
    ensures WellReported(log + [e], deaths)
    ensures PendingIn(log + [e], deaths) == PendingAfter(PendingIn(log, deaths), e, deaths)
  {
    var log' := log + [e];
    assert log'[..|log|] == log;
    forall j | 0 <= j < |log'| && log'[j].SyscallReturn?
      ensures exists i :: 0 <= i < j && DecidedAt(log', i, j, log'[j].pid, log'[j].syscall, deaths)
    {
      if j < |log| {
        var i :| 0 <= i < j && DecidedAt(log, i, j, log[j].pid, log[j].syscall, deaths);
        assert DecidedAt(log', i, j, log'[j].pid, log'[j].syscall, deaths);
      } else {
        var i := PendingWasDecided(log, e.pid, deaths);
        assert DecidedAt(log', i, j, e.pid, e.syscall, deaths);
      }
    }
  }

  // ----- what one step may do -----

  /** At most one entry is logged, and the calls in progress follow the log. */
  predicate LogStep(s: State, s': State) {
    || (s'.log == s.log && s'.inProgress == s.inProgress)
    || (|s'.log| == |s.log| + 1
        && var e := s'.log[|s.log|];
           && s'.log == s.log + [e]
           && s'.inProgress == PendingAfter(s.inProgress, e, false)
           && (e.SyscallReturn? ==> e.pid in s.inProgress && s.inProgress[e.pid] == e.syscall))
  }

  /** A status that blames a request is set only if the request is on record and none that takes
      precedence is. */
  predicate StatusStep(s: State, s': State) {
    && s'.flags.timedOut == s.flags.timedOut && s'.flags.externalKill == s.flags.externalKill
    && s'.flags.networkViolation == s.flags.networkViolation
    && (s'.status == ExternalKill ==> s.flags.externalKill && !s.flags.networkViolation)
    && (s'.status == Timeout ==> s.flags.timedOut && !s.flags.externalKill && !s.flags.networkViolation)
    && (s'.status == Signaled ==> !s.flags.timedOut && !s.flags.externalKill && !s.flags.networkViolation)
  }

  /** OK is set only while monitoring, unless stack traces are collected on exit. */
  predicate ExecveStep(c: Config, s: State, s': State) {
    && (!s.waitForExecve ==> !s'.waitForExecve)
    && (s'.status == Ok && !c.collectStacktraceOnExit ==> !s'.waitForExecve)
  }

  /** What handling the result of a wait does to a state without a final status. */
  predicate GoodStep(c: Config, s: State, s': State) {
    !s'.checkFailed && LogStep(s, s') && StatusStep(s, s') && ExecveStep(c, s, s')
  }

  /** Setting a status that blames no request is a good step. */
  lemma SetSteps(c: Config, s: State, s1: State, status: Status, reason: int)
    requires GoodStep(c, s, s1) && s1.status == Unset && status in {Violation, InternalError, SetupError}
    ensures GoodStep(c, s, SetExitStatusCode(s1, status, reason))
  {
  }

  lemma ReportSteps(c: Config, s: State, s1: State, pid: int, value: int)
    requires GoodStep(c, s, s1) && s1.log == s.log && s1.inProgress == s.inProgress && pid in s.inProgress
    ensures GoodStep(c, s, Report(s1, pid, value))
  {
  }

  lemma DeathSteps(c: Config, s: State, s1: State, death: Death)
    requires GoodStep(c, s, s1) && s1.status == Unset && (death.ByExit? ==> c.collectStacktraceOnExit)
    ensures GoodStep(c, s, SetDeathStatus(s1, death))
  {
  }

  lemma ExitSteps(c: Config, s: State, s1: State, pid: int, death: Death, regs: Registers)
    requires GoodStep(c, s, s1) && s1.status == Unset && s1.log == s.log && s1.inProgress == s.inProgress
    ensures GoodStep(c, s, EventPtraceExit(c, s1, pid, death, regs))
  {
    var s2 := s1.(inProgress := s1.inProgress - {pid}, log := s1.log + [ExitStop(pid)]);
    assert GoodStep(c, s, s2);
    SetSteps(c, s, s2, InternalError, FAILED_FETCH);
    SetSteps(c, s, s2, Violation, if regs.Fetched? then regs.nr else 0);
    if death.ByExit? ==> c.collectStacktraceOnExit {
      DeathSteps(c, s, s2, death);
    }
  }

  lemma SeccompSteps(c: Config, s: State, s1: State, pid: int, data: int, regs: Registers, action: TraceAction)
    requires GoodStep(c, s, s1) && s1.status == Unset && s1.log == s.log && s1.inProgress == s.inProgress
    ensures GoodStep(c, s, EventPtraceSeccomp(c, s1, pid, data, regs, action))
  {
    SetSteps(c, s, s1, InternalError, FAILED_FETCH);
    if regs.Fetched? {
      SetSteps(c, s, s1, Violation, regs.nr);
      var syscall := Syscall(data, regs.nr);
      var s2 := s1.(inProgress := s1.inProgress[pid := syscall], log := s1.log + [Decided(pid, syscall)]);
      assert GoodStep(c, s, s2);
    }
  }

  lemma MessageSteps(c: Config, s: State, s1: State, pid: int, event: Event, it: Iteration)
    requires GoodStep(c, s, s1) && s1.status == Unset && s1.log == s.log && s1.inProgress == s.inProgress
    ensures GoodStep(c, s, HandleEvent(c, s1, pid, event, it))
  {
    SetSteps(c, s, s1, InternalError, FAILED_INSPECT);
    SetSteps(c, s, s1, InternalError, FAILED_FETCH);
    match event
    case SyscallExitStop =>
      if pid in s.inProgress && it.regs.Fetched? { ReportSteps(c, s, s1, pid, it.regs.returnValue); }
    case ForkEvent(child) => if pid in s.inProgress { ReportSteps(c, s, s1, pid, child); }
    case ExecEvent => if pid in s.inProgress { ReportSteps(c, s, s1, pid, 0); }
    case ExitEvent(death) => ExitSteps(c, s, s1, pid, death, it.regs);
    case SeccompEvent(data) => SeccompSteps(c, s, s1, pid, data, it.regs, it.action);
    case _ =>
  }

  lemma StoppedSteps(c: Config, s: State, pid: int, event: Event, it: Iteration)
    requires s.status == Unset && !s.checkFailed
    ensures GoodStep(c, s, StateProcessStopped(c, s, pid, event, it))
  {
    SetSteps(c, s, s, InternalError, FAILED_GETEVENT);
    MessageSteps(c, s, s, pid, event, it);
    MessageSteps(c, s, s.(flags := s.flags.(shouldDumpStack := false)), pid, event, it);
  }

  lemma WaitSteps(c: Config, s: State, it: Iteration)
    requires s.status == Unset && !s.checkFailed
    ensures GoodStep(c, s, HandleWait(c, s, it))
  {
    SetSteps(c, s, s, InternalError, FAILED_CHILD);
    if it.wait.Reported? {
      var dead := s.(log := s.log + [Died(it.wait.pid)]);
      assert GoodStep(c, s, dead);
      match it.wait.status
      case Exited(code) => SetSteps(c, s, dead, SetupError, FAILED_MONITOR);
      case KilledBy(signal) => DeathSteps(c, s, dead, BySignal(signal));
      case Stopped(event) => StoppedSteps(c, s, it.wait.pid, event, it);
      case Continued =>
    }
  }

  /** An internal error has been set, and what is logged is unchanged. */
  predicate Broken(s: State, s': State) {
    && s'.status == InternalError && !s'.checkFailed
    && s'.log == s.log && s'.inProgress == s.inProgress && s'.waitForExecve == s.waitForExecve
  }

  /** An iteration that starts without a status either fails to act on a request, and then sets an
      internal error and leaves the loop, or handles the wait with all requests on record. */
  lemma IterateSteps(c: Config, s: State, it: Iteration)
    requires s.status == Unset && !s.checkFailed
    ensures var (s', broke) := Iterate(c, s, it);
            if broke then Broken(s, s') else GoodStep(c, s.(flags := NoteAll(s.flags, it)), s')
  {
    WaitSteps(c, s.(flags := NoteAll(s.flags, it)), it);
  }

  // ----- every run -----

  /** What every iteration keeps. */
  ghost predicate Inv(s: State) {
    !s.checkFailed && s.inProgress == PendingIn(s.log, false) && WellReported(s.log, false)
  }

  lemma LogStepKeeps(s: State, s': State)
    requires Inv(s) && LogStep(s, s') && !s'.checkFailed
    ensures Inv(s')
  {
    if s'.log != s.log {
      LogMore(s.log, s'.log[|s.log|], false);
    }
  }

  lemma WaitKeeps(c: Config, s: State, it: Iteration)
    requires Inv(s) && s.status == Unset
    ensures var s' := HandleWait(c, s, it); Inv(s') && GoodStep(c, s, s')
  {
    WaitSteps(c, s, it);
    LogStepKeeps(s, HandleWait(c, s, it));
  }

  lemma ActionKeeps(c: Config, s: State, pid: int, syscall: Syscall, action: TraceAction)
    requires Inv(s) && s.status == Unset
    ensures var s' := ActionProcessSyscall(c, s, pid, syscall, action); Inv(s') && GoodStep(c, s, s')
  {
    LogStepKeeps(s, ActionProcessSyscall(c, s, pid, syscall, action));
  }

  lemma StoppedKeeps(c: Config, s: State, pid: int, event: Event, it: Iteration)
    requires Inv(s) && s.status == Unset
    ensures var s' := StateProcessStopped(c, s, pid, event, it); Inv(s') && GoodStep(c, s, s')
  {
    StoppedSteps(c, s, pid, event, it);
    LogStepKeeps(s, StateProcessStopped(c, s, pid, event, it));
  }

  lemma SeccompKeeps(c: Config, s: State, pid: int, data: int, regs: Registers, action: TraceAction)
    requires Inv(s) && s.status == Unset
    ensures var s' := EventPtraceSeccomp(c, s, pid, data, regs, action); Inv(s') && GoodStep(c, s, s')
  {
    SeccompSteps(c, s, s, pid, data, regs, action);
    LogStepKeeps(s, EventPtraceSeccomp(c, s, pid, data, regs, action));
  }

  lemma SyscallExitKeeps(c: Config, s: State, pid: int, regs: Registers)
    requires Inv(s) && s.status == Unset
    ensures var s' := EventSyscallExit(s, pid, regs); Inv(s') && GoodStep(c, s, s')
  {
    LogStepKeeps(s, EventSyscallExit(s, pid, regs));
  }

  lemma NewProcessKeeps(c: Config, s: State, pid: int, child: int)
    requires Inv(s) && s.status == Unset
    ensures var s' := EventPtraceNewProcess(c, s, pid, child); Inv(s') && GoodStep(c, s, s')
  {
    LogStepKeeps(s, EventPtraceNewProcess(c, s, pid, child));
  }

  lemma ExecKeeps(c: Config, s: State, pid: int)
    requires Inv(s) && s.status == Unset
    ensures var s' := EventPtraceExec(c, s, pid); Inv(s') && GoodStep(c, s, s')
  {
    LogStepKeeps(s, EventPtraceExec(c, s, pid));
  }

  lemma ExitKeeps(c: Config, s: State, pid: int, death: Death, regs: Registers)
    requires Inv(s) && s.status == Unset
    ensures var s' := EventPtraceExit(c, s, pid, death, regs); Inv(s') && GoodStep(c, s, s')
  {
    ExitSteps(c, s, s, pid, death, regs);
    LogStepKeeps(s, EventPtraceExit(c, s, pid, death, regs));
  }

  /** An iteration that starts without a status keeps the invariant, and a `break` sets one. */
  lemma IterateKeeps(c: Config, s: State, it: Iteration)
    requires Inv(s) && s.status == Unset
    ensures var (s', broke) := Iterate(c, s, it); Inv(s') && (broke ==> s'.status != Unset)
  {
    IterateSteps(c, s, it);
    LogStepKeeps(s, Iterate(c, s, it).0);
  }

  lemma {:induction false} RunLoopSafe(c: Config, s: State, its: seq<Iteration>)
    requires Inv(s)
    ensures var (s', returned) := RunLoop(c, s, its); Inv(s') && (returned <==> s'.status != Unset)
    decreases |its|
  {
    if s.status == Unset && its != [] {
      IterateKeeps(c, s, its[0]);
      var (s', broke) := Iterate(c, s, its[0]);
      if !broke {
        RunLoopSafe(c, s', its[1..]);
      }
    }
  }

  /** For every sequence of kernel answers and requests: the CHECK in `SetExitStatusCode` never
      fires, `Run` returns exactly when a final status is set, and every report of a system call's
      return belongs to the latest decision to inspect it, with no exit stop in between. */
  lemma RunSafe(c: Config, waitForExecve: bool, signalsOk: bool, attachOk: bool, its: seq<Iteration>)
    ensures var (s, returned) := Run(c, Initial(waitForExecve), signalsOk, attachOk, its);
            !s.checkFailed && (returned <==> s.status != Unset) && WellReported(s.log, false)
  {
    RunLoopSafe(c, Initial(waitForExecve), its);
  }

  /** Between two reports of a process in a run there is a decision about it, the one that the
      later report is for: no decision is reported twice. */
  lemma ReportedAtMostOnce(c: Config, waitForExecve: bool, signalsOk: bool, attachOk: bool, its: seq<Iteration>,
                           j: nat, k: nat)
    returns (i: nat)
    requires var log := Run(c, Initial(waitForExecve), signalsOk, attachOk, its).0.log;
             j < k < |log| && log[j].SyscallReturn? && log[k].SyscallReturn? && log[j].pid == log[k].pid
    ensures j < i < k
    ensures var log := Run(c, Initial(waitForExecve), signalsOk, attachOk, its).0.log;
            log[i] == Decided(log[k].pid, log[k].syscall)
  {
    var log := Run(c, Initial(waitForExecve), signalsOk, attachOk, its).0.log;
    RunSafe(c, waitForExecve, signalsOk, attachOk, its);
    i :| 0 <= i < k && DecidedAt(log, i, k, log[k].pid, log[k].syscall, false);
    assert Concerns(log[j], log[k].pid, false);
  }

  // ----- deaths without an exit stop -----

  /** `waitpid` reports the death of a process, other than the main one, with a call in progress. */
  predicate Orphans(c: Config, s: State, it: Iteration) {
    && FailedRequest(s.flags, it).None?
    && it.wait.Reported? && (it.wait.status.Exited? || it.wait.status.KilledBy?)
    && it.wait.pid != c.mainPid && it.wait.pid in s.inProgress
  }

  /** No death orphans a call in the run from `s`. */
  predicate Orderly(c: Config, s: State, its: seq<Iteration>)
    decreases |its|
  {
    s.status != Unset || its == []
    || (!Orphans(c, s, its[0])
        && (Iterate(c, s, its[0]).1 || Orderly(c, Iterate(c, s, its[0]).0, its[1..])))
  }

  /** What holds as long as no call is orphaned. */
  ghost predicate Exact(s: State) {
    WellReported(s.log, true) && (s.status == Unset ==> s.inProgress == PendingIn(s.log, true))
  }

  /** Deaths are logged as they are reported, and the one of the main process ends the run. */
  lemma DeathIsLogged(c: Config, s: State, it: Iteration)
    requires s.status == Unset && !s.checkFailed
    requires var s' := Iterate(c, s, it).0; |s'.log| == |s.log| + 1 && s'.log[|s.log|].Died?
    ensures var s' := Iterate(c, s, it).0;
            Orphans(c, s, it) || s'.log[|s.log|].pid !in s.inProgress || s'.status != Unset
  {
    if it.wait.Reported? && it.wait.status.Stopped? {
      var f := NoteAll(s.flags, it);
      StopsLogNoDeath(c, s.(flags := f), it.wait.pid, it.wait.status.event, it);
      StopsLogNoDeath(c, s.(flags := f.(shouldDumpStack := false)), it.wait.pid, it.wait.status.event, it);
    }
  }

  lemma StopsLogNoDeath(c: Config, s: State, pid: int, event: Event, it: Iteration)
    ensures var s' := HandleEvent(c, s, pid, event, it);
            s'.log == s.log || (|s'.log| == |s.log| + 1 && !s'.log[|s.log|].Died?)
  {
  }

  /** One more iteration from an exact state reports well, and is exact if it orphans no call. */
  lemma ExactStep(c: Config, s: State, it: Iteration)
    requires Exact(s) && s.status == Unset && !s.checkFailed
    ensures var s' := Iterate(c, s, it).0;
            WellReported(s'.log, true) && (!Orphans(c, s, it) ==> Exact(s'))
  {
    var s' := Iterate(c, s, it).0;
    IterateSteps(c, s, it);
    if s'.log != s.log {
      var e := s'.log[|s.log|];
      LogMore(s.log, e, true);
      if e.Died? {
        DeathIsLogged(c, s, it);
      }
    }
  }

  lemma {:induction false} OrderlyExact(c: Config, s: State, its: seq<Iteration>, n: nat)
    requires Orderly(c, s, its) && Exact(s) && !s.checkFailed && n <= |its|
    ensures Exact(RunLoop(c, s, its[..n]).0) && !RunLoop(c, s, its[..n]).0.checkFailed
    decreases |its|
  {
    if s.status == Unset && n > 0 {
      ExactStep(c, s, its[0]);
      IterateSteps(c, s, its[0]);
      var (s', broke) := Iterate(c, s, its[0]);
      assert its[..n][1..] == its[1..][..n - 1];
      if !broke {
        OrderlyExact(c, s', its[1..], n - 1);
      }
    }
  }

  lemma {:induction false} RunLoopOneMore(c: Config, s: State, its: seq<Iteration>, it: Iteration)
    ensures var (s', returned) := RunLoop(c, s, its);
            RunLoop(c, s, its + [it]).0 == if returned then s' else Iterate(c, s', it).0
    decreases |its|
  {
    var all := its + [it];
    if s.status == Unset {
      if its == [] {
        assert all[1..] == [];
      } else {
        assert all[1..] == its[1..] + [it];
        var (s', broke) := Iterate(c, s, its[0]);
        if !broke {
          RunLoopOneMore(c, s', its[1..], it);
        }
      }
    }
  }

  /** A process leaves a system call, as far as the kernel says. */
  function SyscallExit(pid: int): Iteration {
    Iteration(false, false, false, false, true, true, true, true,
              Reported(pid, Stopped(SyscallExitStop)), MessageRead, Fetched(0, 0), Deny)
  }

  /** After a death that orphans a call, a system call exit of that number reports the call. */
  lemma OrphanReported(c: Config, s: State, it: Iteration)
    requires Orphans(c, s, it) && s.status == Unset
    ensures var s' := Iterate(c, s, it).0;
            var s'' := Iterate(c, s', SyscallExit(it.wait.pid)).0;
            && s'.status == s''.status == Unset && !Iterate(c, s, it).1
            && s''.log == s.log + [Died(it.wait.pid), SyscallReturn(it.wait.pid, s.inProgress[it.wait.pid], 0)]
            && !WellReported(s''.log, true)
  {
    var pid, s' := it.wait.pid, Iterate(c, s, it).0;
    var log := Iterate(c, s', SyscallExit(pid)).0.log;
    var j := |s.log| + 1;
    assert log == s.log + [Died(pid)] + [SyscallReturn(pid, s.inProgress[pid], 0)];
    assert log[j] == SyscallReturn(pid, s.inProgress[pid], 0) && Concerns(log[j - 1], pid, true);
  }

  lemma {:induction false} DisorderMisreports(c: Config, s: State, its: seq<Iteration>) returns (n: nat, it: Iteration)
    requires !Orderly(c, s, its)
    ensures n <= |its| && !WellReported(RunLoop(c, s, its[..n] + [it]).0.log, true)
    decreases |its|
  {
    if Orphans(c, s, its[0]) {
      n, it := 1, SyscallExit(its[0].wait.pid);
      OrphanReported(c, s, its[0]);
      assert its[..1] == [its[0]] && its[..1][1..] == [];
      RunLoopOneMore(c, s, its[..1], it);
    } else {
      var s' := Iterate(c, s, its[0]).0;
      var k;
      k, it := DisorderMisreports(c, s', its[1..]);
      n := k + 1;
      assert (its[..n] + [it])[1..] == its[1..][..k] + [it];
    }
  }

  /** Reports never come after the death of their process, whatever the kernel answers next at any
      point of the run, exactly when no death orphans a call. */
  lemma ReportsExact(c: Config, waitForExecve: bool, its: seq<Iteration>)
    ensures (forall n: nat, it | n <= |its| ::
               WellReported(RunLoop(c, Initial(waitForExecve), its[..n] + [it]).0.log, true))
            <==> Orderly(c, Initial(waitForExecve), its)
  {
    var s := Initial(waitForExecve);
    if Orderly(c, s, its) {
      forall n: nat, it | n <= |its| ensures WellReported(RunLoop(c, s, its[..n] + [it]).0.log, true) {
        OrderlyExact(c, s, its, n);
        RunLoopOneMore(c, s, its[..n], it);
        var (s', returned) := RunLoop(c, s, its[..n]);
        if !returned {
          RunLoopSafe(c, s, its[..n]);
          ExactStep(c, s', it);
        }
      }
    } else {
      var n, it := DisorderMisreports(c, s, its);
    }
  }

  lemma RunThree(c: Config, s: State, first: Iteration, second: Iteration, third: Iteration)
    requires s.status == Unset && Iterate(c, s, first).0.status == Unset && !Iterate(c, s, first).1
    requires var s1 := Iterate(c, s, first).0; Iterate(c, s1, second).0.status == Unset && !Iterate(c, s1, second).1
    ensures RunLoop(c, s, [first, second, third]).0 == Iterate(c, Iterate(c, Iterate(c, s, first).0, second).0, third).0
  {
    var s1 := Iterate(c, s, first).0;
    var s2 := Iterate(c, s1, second).0;
    assert [third][1..] == [] && [second, third][1..] == [third] && [first, second, third][1..] == [second, third];
    assert RunLoop(c, s2, [third]).0 == Iterate(c, s2, third).0;
    assert RunLoop(c, s1, [second, third]) == RunLoop(c, s2, [third]);
  }

  /** A system call of a thread is to be inspected. */
  function Inspect(c: Config, pid: int, nr: int): Iteration {
    SyscallExit(pid).(wait := Reported(pid, Stopped(SeccompEvent(c.hostArch))), regs := Fetched(nr, 0),
                      action := InspectAfterReturn)
  }

  /** A thread is killed without an exit stop. */
  function Killed(pid: int): Iteration { SyscallExit(pid).(wait := Reported(pid, KilledBy(9))) }

  lemma InspectDecides(c: Config, pid: int, nr: int)
    requires ARCH_FIRST <= c.hostArch <= ARCH_LAST
    ensures var (s, broke) := Iterate(c, Initial(false), Inspect(c, pid, nr));
            var call := Syscall(c.hostArch, nr);
            s.status == Unset && !broke && s.log == [Decided(pid, call)] && s.inProgress == map[pid := call]
            && s.flags == Initial(false).flags
  {
  }

  /** Such a run: the call of the dead thread is reported, and monitoring goes on. */
  lemma DeadThreadReported(c: Config, pid: int, nr: int)
    requires pid != c.mainPid && ARCH_FIRST <= c.hostArch <= ARCH_LAST
    ensures var call := Syscall(c.hostArch, nr);
            var s := RunLoop(c, Initial(false), [Inspect(c, pid, nr), Killed(pid), SyscallExit(pid)]).0;
            s.status == Unset && s.log == [Decided(pid, call), Died(pid), SyscallReturn(pid, call, 0)]
            && !WellReported(s.log, true)
  {
    var call, s1 := Syscall(c.hostArch, nr), Iterate(c, Initial(false), Inspect(c, pid, nr)).0;
    InspectDecides(c, pid, nr);
    OrphanReported(c, s1, Killed(pid));
    RunThree(c, Initial(false), Inspect(c, pid, nr), Killed(pid), SyscallExit(pid));
    assert s1.log + [Died(pid), SyscallReturn(pid, call, 0)]
           == [Decided(pid, call), Died(pid), SyscallReturn(pid, call, 0)];
  }

  /** The processes that have had a seccomp stop since their last exit stop. */
  function Entered(open: set<int>, it: Iteration): set<int> {
    if !(it.wait.Reported? && it.wait.status.Stopped?) then open
    else if it.wait.status.event.SeccompEvent? then With(open, it.wait.pid)
    else if it.wait.status.event.ExitEvent? && it.message.MessageRead? then open - With({}, it.wait.pid)
    else open
  }

  function With(pids: set<int>, pid: int): set<int> { pids + {pid} }

  /** Every process that dies has had an exit stop since its last seccomp stop. */
  predicate ExitStopsFirst(open: set<int>, its: seq<Iteration>)
    decreases |its|
  {
    its == []
    || ((its[0].wait.Reported? && (its[0].wait.status.Exited? || its[0].wait.status.KilledBy?) ==>
           its[0].wait.pid !in open)
        && ExitStopsFirst(Entered(open, its[0]), its[1..]))
  }

  lemma InProgressEntered(c: Config, s: State, it: Iteration, open: set<int>)
    requires s.inProgress.Keys <= open && !Iterate(c, s, it).1
    ensures Iterate(c, s, it).0.inProgress.Keys <= Entered(open, it)
  {
    if it.wait.Reported? && it.wait.status.Stopped? {
      var f := NoteAll(s.flags, it);
      EventEntered(c, s.(flags := f), it.wait.pid, it.wait.status.event, it);
      EventEntered(c, s.(flags := f.(shouldDumpStack := false)), it.wait.pid, it.wait.status.event, it);
    }
  }

  lemma EventEntered(c: Config, s: State, pid: int, event: Event, it: Iteration)
    ensures var keys := HandleEvent(c, s, pid, event, it).inProgress.Keys;
            && keys <= With(s.inProgress.Keys, pid)
            && (!event.SeccompEvent? ==> keys <= s.inProgress.Keys)
            && (event.ExitEvent? ==> pid !in keys)
  {
  }

  /** A kernel that never lets a process die without its exit stop makes orderly runs. */
  lemma {:induction false} ExitStopsKeepOrder(c: Config, s: State, open: set<int>, its: seq<Iteration>)
    requires s.inProgress.Keys <= open && ExitStopsFirst(open, its)
    ensures Orderly(c, s, its)
    decreases |its|
  {
    if s.status == Unset && its != [] {
      var (s', broke) := Iterate(c, s, its[0]);
      if !broke {
        InProgressEntered(c, s, its[0], open);
        ExitStopsKeepOrder(c, s', Entered(open, its[0]), its[1..]);
      }
    }
  }

  // ----- what the final status means -----

  predicate AnyDeadline(its: seq<Iteration>) { exists i :: 0 <= i < |its| && its[i].deadlinePassed }

  predicate AnyKill(its: seq<Iteration>) { exists i :: 0 <= i < |its| && its[i].killRequested }

  predicate AnyProxy(its: seq<Iteration>) { exists i :: 0 <= i < |its| && its[i].proxyViolation }

  /** The flags record the requests of the iterations so far. */
  ghost predicate FlagsRecord(s: State, its: seq<Iteration>) {
    && s.flags.timedOut == AnyDeadline(its)
    && s.flags.externalKill == AnyKill(its)
    && s.flags.networkViolation == AnyProxy(its)
  }

  /** A status that blames a request is given only when the request was made and none that takes
      precedence was; SIGNALED is given only when nothing was requested. */
  ghost predicate Explained(s: State, its: seq<Iteration>) {
    && (s.status == ExternalKill ==> AnyKill(its) && !AnyProxy(its))
    && (s.status == Timeout ==> AnyDeadline(its) && !AnyKill(its) && !AnyProxy(its))
    && (s.status == Signaled ==> !AnyDeadline(its) && !AnyKill(its) && !AnyProxy(its))
  }

  lemma AnyMore(its: seq<Iteration>, it: Iteration)
    ensures AnyDeadline(its + [it]) == (AnyDeadline(its) || it.deadlinePassed)
    ensures AnyKill(its + [it]) == (AnyKill(its) || it.killRequested)
    ensures AnyProxy(its + [it]) == (AnyProxy(its) || it.proxyViolation)
  {
    var all := its + [it];
    assert all[|its|] == it;
    assert forall i :: 0 <= i < |its| ==> all[i] == its[i];
  }

  lemma IterateExplains(c: Config, s: State, done: seq<Iteration>, it: Iteration)
    requires s.status == Unset && !s.checkFailed && FlagsRecord(s, done)
    ensures var (s', broke) := Iterate(c, s, it);
            !s'.checkFailed && Explained(s', done + [it]) && (!broke ==> FlagsRecord(s', done + [it]))
  {
    AnyMore(done, it);
    IterateSteps(c, s, it);
  }

  lemma {:induction false} RunLoopExplained(c: Config, s: State, done: seq<Iteration>, its: seq<Iteration>)
    returns (n: nat)
    requires s.status == Unset && !s.checkFailed && FlagsRecord(s, done)
    ensures n <= |its|
    ensures RunLoop(c, s, its[..n]).0 == RunLoop(c, s, its).0
    ensures Explained(RunLoop(c, s, its).0, done + its[..n])
    decreases |its|
  {
    if its == [] {
      n := 0;
      assert done + [] == done;
    } else {
      var (s', broke) := Iterate(c, s, its[0]);
      IterateExplains(c, s, done, its[0]);
      assert its[..1] == [its[0]] && its[..1][1..] == [];
      if broke || s'.status != Unset {
        n := 1;
      } else {
        var k := RunLoopExplained(c, s', done + [its[0]], its[1..]);
        n := k + 1;
        assert its[..n][1..] == its[1..][..k];
        assert done + [its[0]] + its[1..][..k] == done + its[..n];
      }
    }
  }

  /** The final status of a run is explained by the iterations that led to it. */
  lemma RunExplained(c: Config, waitForExecve: bool, its: seq<Iteration>) returns (n: nat)
    ensures n <= |its|
    ensures RunLoop(c, Initial(waitForExecve), its[..n]).0 == RunLoop(c, Initial(waitForExecve), its).0
    ensures Explained(RunLoop(c, Initial(waitForExecve), its).0, its[..n])
  {
    n := RunLoopExplained(c, Initial(waitForExecve), [], its);
    assert [] + its[..n] == its[..n];
  }

  // ----- OK and the first execve -----

  lemma {:induction false} OkOnlyMonitored(c: Config, s: State, its: seq<Iteration>)
    requires !s.checkFailed && (s.status == Ok ==> !s.waitForExecve)
    requires !c.collectStacktraceOnExit || !s.waitForExecve
    ensures var s' := RunLoop(c, s, its).0; s'.status == Ok ==> !s'.waitForExecve
    decreases |its|
  {
    if s.status == Unset && its != [] {
      IterateSteps(c, s, its[0]);
      var (s', broke) := Iterate(c, s, its[0]);
      if !broke {
        OkOnlyMonitored(c, s', its[1..]);
      }
    }
  }

  /** A main process that exits before its execve, seen through its exit stop. */
  function EarlyExit(c: Config): Iteration {
    Iteration(false, false, false, false, true, true, true, true,
              Reported(c.mainPid, Stopped(ExitEvent(ByExit(0)))), MessageRead, Fetched(0, 0), Deny)
  }

  lemma EarlyExitIsOk(c: Config)
    requires c.collectStacktraceOnExit
    ensures var s := RunLoop(c, Initial(true), [EarlyExit(c)]).0; s.status == Ok && s.waitForExecve
  {
    var s, it := Initial(true), EarlyExit(c);
    var s' := EventPtraceExit(c, s, c.mainPid, ByExit(0), it.regs);
    assert Iterate(c, s, it) == (s', false);
    assert RunLoop(c, s, [it]) == RunLoop(c, s', [it][1..]);
  }

  /** A normal exit is reported as OK only once the sandboxee has been executed, in every run,
      exactly when stack traces on exit are off or the monitor does not wait for an execve. */
  lemma OkMeansMonitored(c: Config, waitForExecve: bool)
    ensures (forall its :: var s := RunLoop(c, Initial(waitForExecve), its).0; s.status == Ok ==> !s.waitForExecve)
            <==> !c.collectStacktraceOnExit || !waitForExecve
  {
    if !c.collectStacktraceOnExit || !waitForExecve {
      forall its ensures var s := RunLoop(c, Initial(waitForExecve), its).0; s.status == Ok ==> !s.waitForExecve {
        OkOnlyMonitored(c, Initial(waitForExecve), its);
      }
    } else {
      EarlyExitIsOk(c);
    }
  }
}
