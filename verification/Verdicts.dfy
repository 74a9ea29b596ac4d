/** When the ptrace monitor must give which status, in terms of what the kernel answers. */
module Verdicts {
  import opened Options
  import opened MonitorModel

  // ----- what a wait brings -----

  /** A stop other than the delivery of a signal, whose message can be read. */
  predicate ReadStop(it: Iteration) {
    it.wait.Reported? && it.wait.status.Stopped? && !it.wait.status.event.SignalDelivery? && it.message.MessageRead?
  }

  /** A system call that the filter sent to the monitor, with its registers. */
  predicate Traced(it: Iteration) {
    && ReadStop(it) && it.wait.status.event.SeccompEvent? && it.regs.Fetched?
    && ARCH_FIRST <= it.wait.status.event.data <= ARCH_LAST
  }

  /** A system call made for another architecture. */
  predicate ForeignCall(c: Config, it: Iteration) { Traced(it) && it.wait.status.event.data != c.hostArch }

  /** A system call of the host that the user's `Notify` object is asked about: any but the execveat
      that starts the sandboxee. */
  predicate AskedCall(c: Config, waiting: bool, it: Iteration) {
    Traced(it) && it.wait.status.event.data == c.hostArch && !(waiting && it.regs.nr == c.execveat)
  }

  predicate DeniedCall(c: Config, waiting: bool, it: Iteration) {
    AskedCall(c, waiting, it) && it.action == Deny && !c.logFile && !c.permitAll
  }

  /** A process that seccomp has killed is about to exit. */
  predicate KilledBySeccomp(it: Iteration) {
    ReadStop(it) && it.wait.status.event == ExitEvent(BySignal(SIGSYS)) && it.regs.Fetched?
  }

  /** The main process was killed, or is about to exit in a way that is looked at: by another signal,
      or with stack traces collected. */
  predicate MainDeath(c: Config, it: Iteration) {
    && it.wait.Reported? && it.wait.pid == c.mainPid
    && match it.wait.status
       case KilledBy(_) => true
       case Stopped(ExitEvent(death)) =>
         ReadStop(it) && it.regs.Fetched? && death != BySignal(SIGSYS) && (death.ByExit? ==> c.collectStacktraceOnExit)
       case _ => false
  }

  function DeathOf(c: Config, it: Iteration): Death
    requires MainDeath(c, it)
  {
    if it.wait.status.KilledBy? then BySignal(it.wait.status.signal) else it.wait.status.event.death
  }

  // ----- internal errors -----

  /** Registers that are needed cannot be fetched. */
  predicate NoRegisters(c: Config, calls: map<int, Syscall>, it: Iteration) {
    && ReadStop(it)
    && match it.wait.status.event
       case SeccompEvent(data) => ARCH_FIRST <= data <= ARCH_LAST && it.regs.RegsFailed?
       case SyscallExitStop => it.wait.pid in calls && it.regs.RegsFailed?
       case ExitEvent(death) =>
         && !it.regs.Fetched? && (death == BySignal(SIGSYS) || it.wait.pid == c.mainPid || c.logAllStackTraces)
         && (death.ByExit? ==> c.collectStacktraceOnExit && it.wait.pid == c.mainPid)
       case _ => false
  }

  /** The call in progress is not one that the stop can belong to. */
  predicate Unexpected(c: Config, waiting: bool, calls: map<int, Syscall>, it: Iteration) {
    && ReadStop(it)
    && match it.wait.status.event
       case SyscallExitStop => it.wait.pid !in calls
       case ForkEvent(_) => it.wait.pid in calls && calls[it.wait.pid].nr !in c.forks
       case ExecEvent => !waiting && it.wait.pid in calls && calls[it.wait.pid].nr !in c.execs
       case _ => false
  }

  predicate NoMessage(it: Iteration) {
    && it.wait.Reported? && it.wait.status.Stopped? && !it.wait.status.event.SignalDelivery?
    && it.message.MessageFailed?
  }

  // ----- the status -----

  /** Handling `it` in a state without a status must give `status` with this reason. */
  predicate Due(c: Config, s: State, it: Iteration, status: Status, reason: int) {
    var f := s.flags;
    match status
    case Violation =>
      || ((ForeignCall(c, it) || DeniedCall(c, s.waitForExecve, it) || KilledBySeccomp(it)) && reason == it.regs.nr)
      || (MainDeath(c, it) && f.networkViolation && reason == VIOLATION_NETWORK)
    case ExternalKill => MainDeath(c, it) && f.externalKill && !f.networkViolation && reason == 0
    case Timeout => MainDeath(c, it) && f.timedOut && !f.externalKill && !f.networkViolation && reason == 0
    case Signaled =>
      && MainDeath(c, it) && !f.timedOut && !f.externalKill && !f.networkViolation
      && DeathOf(c, it) == BySignal(reason)
    case Ok =>
      || (it.wait == Reported(c.mainPid, Exited(reason)) && !s.waitForExecve)
      || (MainDeath(c, it) && !f.timedOut && !f.externalKill && !f.networkViolation
          && DeathOf(c, it) == ByExit(reason))
    case SetupError =>
      && it.wait.Reported? && it.wait.pid == c.mainPid && it.wait.status.Exited? && s.waitForExecve
      && reason == FAILED_MONITOR
    case InternalError =>
      || (it.wait.NoChild? && reason == FAILED_CHILD)
      || (NoMessage(it) && reason == FAILED_GETEVENT)
      || (NoRegisters(c, s.inProgress, it) && reason == FAILED_FETCH)
      || (Unexpected(c, s.waitForExecve, s.inProgress, it) && reason == FAILED_INSPECT)
    case Unset => false
  }

  /** The status is the one that is due, and none when none is. */
  ghost predicate Judged(c: Config, s: State, it: Iteration, s': State) {
    && (s'.status == Unset ==> s'.reason == s.reason)
    && forall status, reason :: Due(c, s, it, status, reason) <==> status == s'.status != Unset && reason == s'.reason
  }

  lemma ExitJudged(c: Config, s: State, it: Iteration)
    requires s.status == Unset && ReadStop(it) && it.wait.status.event.ExitEvent?
    ensures Judged(c, s, it, EventPtraceExit(c, s, it.wait.pid, it.wait.status.event.death, it.regs))
  {
  }

  lemma SeccompJudged(c: Config, s: State, it: Iteration)
    requires s.status == Unset && ReadStop(it) && it.wait.status.event.SeccompEvent?
    ensures Judged(c, s, it, EventPtraceSeccomp(c, s, it.wait.pid, it.wait.status.event.data, it.regs, it.action))
  {
  }

  lemma EventJudged(c: Config, s: State, it: Iteration)
    requires s.status == Unset && ReadStop(it)
    ensures Judged(c, s, it, HandleEvent(c, s, it.wait.pid, it.wait.status.event, it))
  {
    match it.wait.status.event
    case ExitEvent(_) => ExitJudged(c, s, it);
    case SeccompEvent(_) => SeccompJudged(c, s, it);
    case _ =>
  }

  /** Whether a stack dump was asked for makes no difference. */
  lemma DumpAside(c: Config, s: State, t: State, it: Iteration, s': State)
    requires t == s.(flags := s.flags.(shouldDumpStack := false)) && Judged(c, t, it, s')
    ensures Judged(c, s, it, s')
  {
    forall status, reason ensures Due(c, s, it, status, reason) == Due(c, t, it, status, reason) {
    }
  }

  lemma StopJudged(c: Config, s: State, it: Iteration)
    requires s.status == Unset && it.wait.Reported? && it.wait.status.Stopped?
    ensures Judged(c, s, it, StateProcessStopped(c, s, it.wait.pid, it.wait.status.event, it))
  {
    if ReadStop(it) {
      var t := s.(flags := s.flags.(shouldDumpStack := false));
      EventJudged(c, s, it);
      EventJudged(c, t, it);
      DumpAside(c, s, t, it, HandleEvent(c, t, it.wait.pid, it.wait.status.event, it));
    } else {
      NotRead(c, s, it);
    }
  }

  /** Of a stop whose message is not read, only a failure to read it has consequences. */
  lemma NotRead(c: Config, s: State, it: Iteration)
    requires it.wait.Reported? && it.wait.status.Stopped? && !ReadStop(it)
    ensures forall status, reason ::
              Due(c, s, it, status, reason) <==> NoMessage(it) && status == InternalError && reason == FAILED_GETEVENT
  {
  }

  lemma DeathJudged(c: Config, s: State, it: Iteration)
    requires s.status == Unset && it.wait.Reported? && (it.wait.status.Exited? || it.wait.status.KilledBy?)
    ensures Judged(c, s, it, HandleWait(c, s, it))
  {
  }

  /** Handling a wait gives a status exactly when one is due, and that one. */
  lemma WaitJudged(c: Config, s: State, it: Iteration)
    requires s.status == Unset
    ensures Judged(c, s, it, HandleWait(c, s, it))
  {
    if it.wait.Reported? {
      match it.wait.status
      case Stopped(_) => StopJudged(c, s, it);
      case Continued =>
      case _ => DeathJudged(c, s, it);
    }
  }

  // ----- what is recorded -----

  /** What the user's `Notify` object must be told about the return of the call in progress. */
  predicate ReturnDue(c: Config, s: State, it: Iteration, value: int) {
    && ReadStop(it) && it.wait.pid in s.inProgress
    && match it.wait.status.event
       case SyscallExitStop => it.regs.Fetched? && value == it.regs.returnValue
       case ForkEvent(child) => s.inProgress[it.wait.pid].nr in c.forks && value == child
       case ExecEvent => !s.waitForExecve && s.inProgress[it.wait.pid].nr in c.execs && value == 0
       case _ => false
  }

  /** The entry that handling `it` must log. */
  predicate EntryDue(c: Config, s: State, it: Iteration, e: Entry) {
    && it.wait.Reported? && e.pid == it.wait.pid
    && match e
       case Died(_) => it.wait.status.Exited? || it.wait.status.KilledBy?
       case ExitStop(_) => ReadStop(it) && it.wait.status.event.ExitEvent?
       case Decided(_, call) =>
         && AskedCall(c, s.waitForExecve, it) && it.action == InspectAfterReturn
         && call == Syscall(c.hostArch, it.regs.nr)
       case SyscallReturn(pid, call, value) =>
         ReturnDue(c, s, it, value) && pid in s.inProgress && call == s.inProgress[pid]
  }

  /** `e` is all that is added to the log. */
  predicate Logs(s: State, s': State, e: Entry) { |s'.log| == |s.log| + 1 && s.log <= s'.log && s'.log[|s.log|] == e }

  /** The entry that is due is logged, and nothing when none is; an exec ends the wait for it. */
  ghost predicate Recorded(c: Config, s: State, it: Iteration, s': State) {
    && (forall e :: EntryDue(c, s, it, e) <==> Logs(s, s', e))
    && (s'.log != s.log ==> exists e :: Logs(s, s', e))
    && s'.waitForExecve == (s.waitForExecve && !(ReadStop(it) && it.wait.status.event.ExecEvent?))
  }

  /** A stop of the main process at which its stack can be dumped. */
  predicate CanDump(c: Config, it: Iteration) { ReadStop(it) && it.wait.pid == c.mainPid && c.canDumpStack }

  lemma EventKeepsFlags(c: Config, s: State, pid: int, event: Event, it: Iteration)
    ensures HandleEvent(c, s, pid, event, it).flags == s.flags
  {
  }

  /** A stack dump that was asked for is done with at such a stop, and all else stays on record. */
  lemma WaitFlags(c: Config, s: State, it: Iteration)
    ensures HandleWait(c, s, it).flags
            == s.flags.(shouldDumpStack := s.flags.shouldDumpStack && !CanDump(c, it))
  {
    if it.wait.Reported? && it.wait.status.Stopped? {
      EventKeepsFlags(c, s, it.wait.pid, it.wait.status.event, it);
      EventKeepsFlags(c, s.(flags := s.flags.(shouldDumpStack := false)), it.wait.pid, it.wait.status.event, it);
    }
  }

  lemma SeccompRecorded(c: Config, s: State, it: Iteration)
    requires ReadStop(it) && it.wait.status.event.SeccompEvent?
    ensures Recorded(c, s, it, EventPtraceSeccomp(c, s, it.wait.pid, it.wait.status.event.data, it.regs, it.action))
  {
    var data := it.wait.status.event.data;
    var s' := EventPtraceSeccomp(c, s, it.wait.pid, data, it.regs, it.action);
    if it.regs.Fetched? && AskedCall(c, s.waitForExecve, it) && it.action == InspectAfterReturn {
      assert Logs(s, s', Decided(it.wait.pid, Syscall(data, it.regs.nr)));
    }
  }

  lemma ExitRecorded(c: Config, s: State, it: Iteration)
    requires ReadStop(it) && it.wait.status.event.ExitEvent?
    ensures Recorded(c, s, it, EventPtraceExit(c, s, it.wait.pid, it.wait.status.event.death, it.regs))
  {
    var s' := EventPtraceExit(c, s, it.wait.pid, it.wait.status.event.death, it.regs);
    assert Logs(s, s', ExitStop(it.wait.pid));
  }

  lemma ReturnRecorded(c: Config, s: State, it: Iteration)
    requires ReadStop(it) && !it.wait.status.event.ExitEvent? && !it.wait.status.event.SeccompEvent?
    ensures Recorded(c, s, it, HandleEvent(c, s, it.wait.pid, it.wait.status.event, it))
  {
    var s' := HandleEvent(c, s, it.wait.pid, it.wait.status.event, it);
    if s'.log != s.log {
      assert Logs(s, s', s'.log[|s.log|]);
    }
  }

  lemma EventRecorded(c: Config, s: State, it: Iteration)
    requires ReadStop(it)
    ensures Recorded(c, s, it, HandleEvent(c, s, it.wait.pid, it.wait.status.event, it))
  {
    match it.wait.status.event
    case ExitEvent(_) => ExitRecorded(c, s, it);
    case SeccompEvent(_) => SeccompRecorded(c, s, it);
    case _ => ReturnRecorded(c, s, it);
  }

  lemma DumpUnrecorded(c: Config, s: State, t: State, it: Iteration, s': State)
    requires t == s.(flags := s.flags.(shouldDumpStack := false)) && Recorded(c, t, it, s')
    ensures Recorded(c, s, it, s')
  {
    forall e ensures EntryDue(c, s, it, e) == EntryDue(c, t, it, e) && Logs(s, s', e) == Logs(t, s', e) {
    }
    if s'.log != s.log {
      var e :| Logs(t, s', e);
      assert Logs(s, s', e);
    }
  }

  lemma StopRecorded(c: Config, s: State, it: Iteration)
    requires it.wait.Reported? && it.wait.status.Stopped?
    ensures Recorded(c, s, it, StateProcessStopped(c, s, it.wait.pid, it.wait.status.event, it))
  {
    if ReadStop(it) {
      var t := s.(flags := s.flags.(shouldDumpStack := false));
      EventRecorded(c, s, it);
      EventRecorded(c, t, it);
      DumpUnrecorded(c, s, t, it, HandleEvent(c, t, it.wait.pid, it.wait.status.event, it));
    }
  }

  lemma DeathRecorded(c: Config, s: State, it: Iteration)
    requires it.wait.Reported? && (it.wait.status.Exited? || it.wait.status.KilledBy?)
    ensures Recorded(c, s, it, HandleWait(c, s, it))
  {
    assert Logs(s, HandleWait(c, s, it), Died(it.wait.pid));
  }

  /** Handling a wait logs exactly what is due. */
  lemma WaitRecorded(c: Config, s: State, it: Iteration)
    ensures Recorded(c, s, it, HandleWait(c, s, it))
  {
    if it.wait.Reported? {
      match it.wait.status
      case Stopped(_) => StopRecorded(c, s, it);
      case Continued =>
      case _ => DeathRecorded(c, s, it);
    }
  }
}
