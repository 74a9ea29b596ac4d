/** `PtraceMonitor` and `PidWaiter`: fields updated in place, proved against the state machine. */
module Monitors {
  import opened Options
  import opened MonitorModel
  import opened Verdicts
  import opened RunVerdicts

  class PtraceMonitor {
    const config: Config
    var status: Status
    var reason: int
    var timedOut: bool
    var shouldDumpStack: bool
    var externalKill: bool
    var networkViolation: bool
    var waitForExecve: bool
    var syscallsInProgress: map<int, Syscall>

    /** What the user's `Notify` object has been told, and the exits of processes. */
    ghost var log: seq<Entry>

    ghost function View(): State
      reads this
    {
      State(status, reason, false, Flags(timedOut, shouldDumpStack, externalKill, networkViolation), waitForExecve,
            syscallsInProgress, log)
    }

    /** The calls in progress are those that the log leaves pending, and reports follow decisions. */
    ghost predicate Valid()
      reads this
    {
      Inv(View())
    }

    constructor (config: Config, waitForExecve: bool)
      ensures Valid() && this.config == config && View() == Initial(waitForExecve)
    {
      this.config := config;
      status, reason := Unset, 0;
      timedOut, shouldDumpStack, externalKill, networkViolation := false, false, false, false;
      this.waitForExecve := waitForExecve;
      syscallsInProgress, log := map[], [];
    }

    /** The precondition is the CHECK of the source. */
    method SetExitStatusCode(finalStatus: Status, reasonCode: int)
      requires status == Unset
      modifies this`status, this`reason
      ensures View() == MonitorModel.SetExitStatusCode(old(View()), finalStatus, reasonCode)
    {
      status, reason := finalStatus, reasonCode;
    }

    /** `EventSyscallReturn` and the removal of the entry. */
    method ReportReturn(pid: int, value: int)
      requires pid in syscallsInProgress
      modifies this`log, this`syscallsInProgress
      ensures View() == Report(old(View()), pid, value)
    {
      log := log + [SyscallReturn(pid, syscallsInProgress[pid], value)];
      syscallsInProgress := syscallsInProgress - {pid};
    }

    method ActionProcessSyscall(pid: int, syscall: Syscall, action: TraceAction)
      requires Valid() && status == Unset
      modifies this
      ensures Valid() && GoodStep(config, old(View()), View())
      ensures View() == MonitorModel.ActionProcessSyscall(config, old(View()), pid, syscall, action)
    {
      ActionKeeps(config, View(), pid, syscall, action);
      if syscall.nr == config.execveat && waitForExecve {
        return;
      }
      if action == Allow {
        return;
      }
      if action == InspectAfterReturn {
        syscallsInProgress := syscallsInProgress[pid := syscall];
        log := log + [Decided(pid, syscall)];
        return;
      }
      if config.logFile {
        return;
      }
      if config.permitAll {
        return;
      }
      SetExitStatusCode(Violation, syscall.nr);
    }

    method EventPtraceSeccomp(pid: int, eventMsg: int, regs: Registers, action: TraceAction)
      requires Valid() && status == Unset
      modifies this
      ensures Valid() && GoodStep(config, old(View()), View())
      ensures View() == MonitorModel.EventPtraceSeccomp(config, old(View()), pid, eventMsg, regs, action)
    {
      SeccompKeeps(config, View(), pid, eventMsg, regs, action);
      if eventMsg < ARCH_FIRST || eventMsg > ARCH_LAST {
        return;
      }
      if !regs.Fetched? {
        if regs.RegsFailed? {
          SetExitStatusCode(InternalError, FAILED_FETCH);
        }
        return;
      }
      if eventMsg != config.hostArch {
        SetExitStatusCode(Violation, regs.nr);
        return;
      }
      ActionProcessSyscall(pid, Syscall(eventMsg, regs.nr), action);
    }

    method EventSyscallExit(pid: int, regs: Registers)
      requires Valid() && status == Unset
      modifies this
      ensures Valid() && GoodStep(config, old(View()), View())
      ensures View() == MonitorModel.EventSyscallExit(old(View()), pid, regs)
    {
      SyscallExitKeeps(config, View(), pid, regs);
      if pid !in syscallsInProgress {
        SetExitStatusCode(InternalError, FAILED_INSPECT);
        return;
      }
      if !regs.Fetched? {
        if regs.RegsFailed? {
          SetExitStatusCode(InternalError, FAILED_FETCH);
        }
        return;
      }
      ReportReturn(pid, regs.returnValue);
    }

    method EventPtraceNewProcess(pid: int, child: int)
      requires Valid() && status == Unset
      modifies this
      ensures Valid() && GoodStep(config, old(View()), View())
      ensures View() == MonitorModel.EventPtraceNewProcess(config, old(View()), pid, child)
    {
      NewProcessKeeps(config, View(), pid, child);
      if pid in syscallsInProgress {
        if syscallsInProgress[pid].nr !in config.forks {
          SetExitStatusCode(InternalError, FAILED_INSPECT);
          return;
        }
        ReportReturn(pid, child);
      }
    }

    method EventPtraceExec(pid: int)
      requires Valid() && status == Unset
      modifies this
      ensures Valid() && GoodStep(config, old(View()), View())
      ensures View() == MonitorModel.EventPtraceExec(config, old(View()), pid)
    {
      ExecKeeps(config, View(), pid);
      if waitForExecve {
        waitForExecve := false;
      } else if pid in syscallsInProgress {
        if syscallsInProgress[pid].nr !in config.execs {
          SetExitStatusCode(InternalError, FAILED_INSPECT);
          return;
        }
        ReportReturn(pid, 0);
      }
    }

    method SetDeathStatus(death: Death)
      requires status == Unset
      modifies this`status, this`reason
      ensures View() == MonitorModel.SetDeathStatus(old(View()), death)
    {
      if networkViolation {
        SetExitStatusCode(Violation, VIOLATION_NETWORK);
      } else if externalKill {
        SetExitStatusCode(ExternalKill, 0);
      } else if timedOut {
        SetExitStatusCode(Timeout, 0);
      } else if death.ByExit? {
        SetExitStatusCode(Ok, death.code);
      } else {
        SetExitStatusCode(Signaled, death.signal);
      }
    }

    method EventPtraceExit(pid: int, death: Death, regs: Registers)
      requires Valid() && status == Unset
      modifies this
      ensures Valid() && GoodStep(config, old(View()), View())
      ensures View() == MonitorModel.EventPtraceExit(config, old(View()), pid, death, regs)
    {
      ExitKeeps(config, View(), pid, death, regs);
      syscallsInProgress := syscallsInProgress - {pid};
      log := log + [ExitStop(pid)];
      SetExitCause(pid, death, regs);
    }

    method SetExitCause(pid: int, death: Death, regs: Registers)
      requires status == Unset
      modifies this`status, this`reason
      ensures View() == ExitCause(config, old(View()), pid, death, regs)
    {
      if death.ByExit? && (!config.collectStacktraceOnExit || pid != config.mainPid) {
        return;
      }
      var isSeccomp := death.BySignal? && death.signal == SIGSYS;
      if isSeccomp || pid == config.mainPid || config.logAllStackTraces {
        if !regs.Fetched? {
          SetExitStatusCode(InternalError, FAILED_FETCH);
          return;
        }
      }
      if isSeccomp {
        SetExitStatusCode(Violation, regs.nr);
        return;
      }
      if pid == config.mainPid {
        SetDeathStatus(death);
      }
    }

    method HandleEvent(pid: int, event: Event, it: Iteration)
      requires Valid() && status == Unset
      modifies this
      ensures Valid() && View() == MonitorModel.HandleEvent(config, old(View()), pid, event, it)
    {
      match event {
        case SyscallExitStop => EventSyscallExit(pid, it.regs);
        case ForkEvent(child) => EventPtraceNewProcess(pid, child);
        case ExecEvent => EventPtraceExec(pid);
        case ExitEvent(death) => EventPtraceExit(pid, death, it.regs);
        case SeccompEvent(data) => EventPtraceSeccomp(pid, data, it.regs, it.action);
        case _ =>
      }
    }

    method StateProcessStopped(pid: int, event: Event, it: Iteration)
      requires Valid() && status == Unset
      modifies this
      ensures Valid() && GoodStep(config, old(View()), View())
      ensures View() == MonitorModel.StateProcessStopped(config, old(View()), pid, event, it)
    {
      StoppedKeeps(config, View(), pid, event, it);
      if event.SignalDelivery? {
        return;
      }
      if !it.message.MessageRead? {
        if it.message.MessageFailed? {
          SetExitStatusCode(InternalError, FAILED_GETEVENT);
        }
        return;
      }
      if pid == config.mainPid && shouldDumpStack && config.canDumpStack {
        shouldDumpStack := false;
      }
      HandleEvent(pid, event, it);
    }

    /** A process has exited or was killed; the death of the main one sets the status. */
    method HandleDeath(pid: int, waitStatus: WaitStatus, ghost it: Iteration)
      requires status == Unset && it.wait == Reported(pid, waitStatus) && (waitStatus.Exited? || waitStatus.KilledBy?)
      modifies this`log, this`status, this`reason
      ensures View() == MonitorModel.HandleWait(config, old(View()), it)
    {
      log := log + [Died(pid)];
      if pid != config.mainPid {
        return;
      }
      if waitStatus.KilledBy? {
        SetDeathStatus(BySignal(waitStatus.signal));
      } else if !waitForExecve {
        SetExitStatusCode(Ok, waitStatus.code);
      } else {
        SetExitStatusCode(SetupError, FAILED_MONITOR);
      }
    }

    /** The body of the main loop behind the call of `PidWaiter::Wait`. */
    method HandleWait(it: Iteration)
      requires Valid() && status == Unset
      modifies this
      ensures Valid() && GoodStep(config, old(View()), View())
      ensures Judged(config, old(View()), it, View()) && Recorded(config, old(View()), it, View())
      ensures View() == MonitorModel.HandleWait(config, old(View()), it)
    {
      WaitKeeps(config, View(), it);
      WaitJudged(config, View(), it);
      WaitRecorded(config, View(), it);
      if it.wait.NoChild? {
        SetExitStatusCode(InternalError, FAILED_CHILD);
      } else if it.wait.Reported? {
        var waitStatus := it.wait.status;
        if waitStatus.Exited? || waitStatus.KilledBy? {
          HandleDeath(it.wait.pid, waitStatus, it);
        } else if waitStatus.Stopped? {
          StateProcessStopped(it.wait.pid, waitStatus.event, it);
        }
      }
    }

    /** The requests at the top of the main loop; `broke` when the loop is to be left. */
    method HandleRequests(it: Iteration) returns (broke: bool)
      requires Valid() && status == Unset
      modifies this
      ensures Valid() && (broke <==> FailedRequest(old(View()).flags, it).Some?)
      ensures broke ==> var f := FailedRequest(old(View()).flags, it).value;
                        View() == MonitorModel.SetExitStatusCode(old(View()).(flags := f.0), InternalError, f.1)
      ensures !broke ==> View() == old(View()).(flags := NoteAll(old(View()).flags, it))
    {
      if it.deadlinePassed {
        timedOut := true;
        if !it.timeoutKillOk {
          SetExitStatusCode(InternalError, FAILED_KILL);
          return true;
        }
      }
      if it.dumpRequested {
        shouldDumpStack := true;
        if !it.interruptOk {
          SetExitStatusCode(InternalError, FAILED_INTERRUPT);
          return true;
        }
      }
      if it.killRequested {
        externalKill := true;
        if !it.externalKillOk {
          SetExitStatusCode(InternalError, FAILED_KILL);
          return true;
        }
      }
      if it.proxyViolation && !networkViolation {
        networkViolation := true;
        if !it.networkKillOk {
          SetExitStatusCode(InternalError, FAILED_KILL);
          return true;
        }
      }
      return false;
    }

    method RunOnce(it: Iteration) returns (broke: bool)
      requires Valid() && status == Unset
      modifies this
      ensures Valid() && (View(), broke) == Iterate(config, old(View()), it)
      ensures broke ==> status != Unset
    {
      broke := HandleRequests(it);
      if !broke {
        HandleWait(it);
      }
    }

    /** The main loop, as long as no status is set and there are iterations. */
    method MainLoop(its: seq<Iteration>) returns (returned: bool)
      requires Valid() && status == Unset
      modifies this
      ensures Valid() && (returned <==> status != Unset) && (View(), returned) == RunLoop(config, old(View()), its)
    {
      var i := 0;
      assert its[0..] == its;
      while status == Unset && i < |its|
        invariant 0 <= i <= |its| && Valid()
        invariant RunLoop(config, old(View()), its) == RunLoop(config, View(), its[i..])
        decreases |its| - i
      {
        assert its[i..][0] == its[i] && its[i..][1..] == its[i + 1..];
        var broke := RunOnce(its[i]);
        if broke {
          return true;
        }
        i := i + 1;
      }
      return status != Unset;
    }

    /** `Run`, up to the point where a status is set or the given iterations are used up: it returns
        exactly with a status, which is a violation exactly when an iteration shows one, and is the
        run that the theorems of modules MonitorModel and RunVerdicts are about. */
    method Run(signalsOk: bool, attachOk: bool, its: seq<Iteration>) returns (returned: bool)
      requires Valid() && status == Unset
      modifies this
      ensures Valid() && (returned <==> status != Unset)
      ensures (View(), returned) == MonitorModel.Run(config, old(View()), signalsOk, attachOk, its)
      ensures !signalsOk ==> status == SetupError && reason == FAILED_SIGNALS
      ensures signalsOk && !attachOk ==> status == SetupError && reason == FAILED_PTRACE
      ensures signalsOk && attachOk && old(View()) == Initial(old(waitForExecve)) ==>
                (status == Violation <==> ShowsViolation(config, old(waitForExecve), its))
    {
      ViolationIff(config, waitForExecve, its);
      if !signalsOk {
        SetExitStatusCode(SetupError, FAILED_SIGNALS);
        return true;
      }
      if !attachOk {
        SetExitStatusCode(SetupError, FAILED_PTRACE);
        return true;
      }
      returned := MainLoop(its);
    }
  }

  // ----- Launch -----

  /** The outcomes of the steps of `MonitorBase::Launch`. */
  datatype LaunchSteps = LaunchSteps(
    shouldHaveInit: bool,
    eventStartedOk: bool,
    sendIpcOk: bool,
    sendCwdOk: bool,
    sendPolicyOk: bool,
    sandboxReady: bool,
    applyLimitsOk: bool,
    signalsOk: bool,
    attachOk: bool)

  /** The process started, by its main and its init pid. */
  datatype Pids = Pids(main: int, init: int)

  /** The steps between the start of the process and monitoring, and the reason if one fails. */
  ghost function Setup(l: LaunchSteps, pids: Pids): seq<(bool, int)> {
    [(pids.main > 0 && (l.shouldHaveInit ==> pids.init > 0), FAILED_SUBPROCESS), (l.eventStartedOk, FAILED_NOTIFY),
     (l.sendIpcOk, FAILED_IPC), (l.sendCwdOk, FAILED_CWD), (l.sendPolicyOk, FAILED_POLICY),
     (l.sandboxReady, FAILED_WAIT), (l.applyLimitsOk, FAILED_LIMITS)]
  }

  ghost predicate FirstFailure(steps: seq<(bool, int)>, i: nat) {
    i < |steps| && !steps[i].0 && forall j :: 0 <= j < i ==> steps[j].0
  }

  ghost predicate SetupOk(steps: seq<(bool, int)>) { forall i :: 0 <= i < |steps| ==> steps[i].0 }

  class MonitorBase {
    const config: Config
    const waitForExecve: bool
    var monitor: PtraceMonitor
    var finished: seq<(Status, int)>   // the calls of EventFinished
    var killed: Option<int>            // the process killed by the cleanup

    ghost predicate Fresh()
      reads this, monitor
    {
      monitor.View() == Initial(waitForExecve) && finished == [] && killed == None
    }

    constructor (config: Config, waitForExecve: bool)
      ensures this.config == config && this.waitForExecve == waitForExecve && fresh(monitor) && Fresh()
    {
      this.config, this.waitForExecve := config, waitForExecve;
      monitor := new PtraceMonitor(config, waitForExecve);
      finished, killed := [], None;
    }

    /** Notifies, but only the first time. */
    method OnDone()
      modifies this`finished
      ensures finished == if old(finished) == [] then [(monitor.status, monitor.reason)] else old(finished)
    {
      if finished != [] {
        return;
      }
      finished := finished + [(monitor.status, monitor.reason)];
    }

    /** Setting up has failed: the status says why, the process, if there is one, has been killed,
        and nothing has been monitored. */
    ghost predicate GivenUp(reason: int, pids: Pids)
      reads this, monitor
    {
      && monitor.View() == Initial(waitForExecve).(status := SetupError, reason := reason)
      && finished == [(SetupError, reason)]
      && killed == if pids.init > 0 then Some(pids.init) else if pids.main > 0 then Some(pids.main) else None
    }

    /** An early exit: the status, the cleanup that kills, and the one that finishes. */
    method GiveUp(reason: int, pids: Pids)
      requires Fresh()
      modifies this`finished, this`killed, monitor
      ensures GivenUp(reason, pids)
    {
      monitor.SetExitStatusCode(SetupError, reason);
      if pids.init > 0 {
        killed := Some(pids.init);
      } else if pids.main > 0 {
        killed := Some(pids.main);
      }
      OnDone();
    }

    /** A launch finishes exactly once, with the status that was set.  If a step fails, the first
        one that does gives the reason and the process is killed; otherwise monitoring is run. */
    method Launch(process: Option<Pids>, l: LaunchSteps, its: seq<Iteration>) returns (returned: bool)
      requires Fresh()
      modifies this, monitor
      ensures returned <==> monitor.status != Unset
      ensures finished == if returned then [(monitor.status, monitor.reason)] else []
      ensures process.None? ==> returned && GivenUp(FAILED_SUBPROCESS, Pids(0, 0))
      ensures process.Some? ==>
                || (exists i: nat :: FirstFailure(Setup(l, process.value), i)
                                     && GivenUp(Setup(l, process.value)[i].1, process.value))
                || (SetupOk(Setup(l, process.value)) && killed == None && monitor.Valid()
                    && (monitor.View(), returned)
                       == Run(config.(mainPid := process.value.main), Initial(waitForExecve),
                              l.signalsOk, l.attachOk, its))
    {
      if process.None? {
        GiveUp(FAILED_SUBPROCESS, Pids(0, 0));
        return true;
      }
      var pids := process.value;
      monitor := new PtraceMonitor(config.(mainPid := pids.main), waitForExecve);
      var reason, _ := SetUp(l, pids);
      if reason.Some? {
        GiveUp(reason.value, pids);
        return true;
      }
      returned := monitor.Run(l.signalsOk, l.attachOk, its);
      if returned {
        OnDone();
      }
    }

    /** The steps before monitoring, up to the first that fails. */
    static method SetUp(l: LaunchSteps, pids: Pids) returns (reason: Option<int>, ghost i: nat)
      ensures reason.None? ==> SetupOk(Setup(l, pids))
      ensures reason.Some? ==> FirstFailure(Setup(l, pids), i) && reason.value == Setup(l, pids)[i].1
    {
      if pids.main <= 0 || (l.shouldHaveInit && pids.init <= 0) { return Some(FAILED_SUBPROCESS), 0; }
      if !l.eventStartedOk { return Some(FAILED_NOTIFY), 1; }
      if !l.sendIpcOk { return Some(FAILED_IPC), 2; }
      if !l.sendCwdOk { return Some(FAILED_CWD), 3; }
      if !l.sendPolicyOk { return Some(FAILED_POLICY), 4; }
      if !l.sandboxReady { return Some(FAILED_WAIT), 5; }
      if !l.applyLimitsOk { return Some(FAILED_LIMITS), 6; }
      return None, 7;
    }
  }

  // ----- PidWaiter -----

  /** What `waitpid` may answer: a status, nothing at the moment, or an error. */
  datatype WaitPid = Waited(pid: int, status: int) | NoneNow | Error(errno: int)

  class PidWaiter {
    const priorityPid: int
    var statuses: seq<WaitPid>
    var lastErrno: int

    /** The calls of `waitpid`, with the pid asked for and the answer. */
    ghost var calls: seq<(int, WaitPid)>

    /** What the kernel has reported, and what `Wait` has handed out. */
    ghost var reported: seq<WaitPid>
    ghost var delivered: seq<WaitPid>

    /** What has been collected and not handed out. */
    ghost function Pending(): seq<WaitPid>
      reads this
    {
      statuses + if lastErrno == 0 then [] else [Error(lastErrno)]
    }

    /** Nothing that the kernel reported is lost, repeated or reordered. */
    ghost predicate Valid()
      reads this
    {
      delivered + Pending() == reported && forall a :: a in statuses ==> a.Waited?
    }

    constructor (priorityPid: int)
      ensures Valid() && delivered == [] && Pending() == []
    {
      this.priorityPid := priorityPid;
      statuses, lastErrno, calls, reported, delivered := [], 0, [], [], [];
    }

    /** An answer after which nothing more is to be had: an error, or nothing for any pid. */
    static predicate Final(call: (int, WaitPid)) {
      call.1.Error? || call == (-1, NoneNow)
    }

    /** One call of `waitpid` and what is done with its answer; `stop` when the loop is to be left. */
    method Ask(pid: int, answer: WaitPid) returns (stop: bool)
      requires Valid() && lastErrno == 0 && (answer.Error? ==> answer.errno != 0)
      modifies this`statuses, this`lastErrno, this`calls, this`reported
      ensures Valid() && calls == old(calls) + [(pid, answer)]
      ensures reported == old(reported) + if answer.NoneNow? then [] else [answer]
      ensures stop <==> Final((pid, answer))
      ensures lastErrno != 0 <==> answer.Error?
    {
      calls := calls + [(pid, answer)];
      if answer.NoneNow? {
        return pid == -1;
      }
      reported := reported + [answer];
      assert delivered + (statuses + [answer]) == delivered + statuses + [answer];
      if answer.Error? {
        lastErrno := answer.errno;
        return true;
      }
      statuses := statuses + [answer];
      return false;
    }

    /** What `waitpid` answers next: `kernel` in order, and then that there is nothing. */
    static function Answer(kernel: seq<WaitPid>, n: nat): WaitPid {
      if n < |kernel| then kernel[n] else NoneNow
    }

    /** New calls: for the priority pid and then for any, with the answers of the kernel in order,
        and none behind a final answer. */
    ghost predicate Asked(before: seq<(int, WaitPid)>, now: seq<(int, WaitPid)>, kernel: seq<WaitPid>) {
      && before < now
      && (forall i :: |before| <= i < |now| ==>
            now[i] == (if i == |before| then priorityPid else -1, Answer(kernel, i - |before|)))
      && forall i :: |before| <= i < |now| - 1 ==> !Final(now[i])
    }

    lemma AskedMore(before: seq<(int, WaitPid)>, now: seq<(int, WaitPid)>, kernel: seq<WaitPid>)
      requires Asked(before, now, kernel) && !Final(now[|now| - 1])
      ensures Asked(before, now + [(-1, Answer(kernel, |now| - |before|))], kernel)
    {
    }

    /** `RefillStatuses`: asks until there is an error or nothing is left for any pid, and no longer. */
    method RefillStatuses(kernel: seq<WaitPid>) returns (rest: seq<WaitPid>)
      requires Valid() && statuses == [] && lastErrno == 0
      requires forall a :: a in kernel && a.Error? ==> a.errno != 0
      modifies this`statuses, this`lastErrno, this`calls, this`reported
      ensures Valid() && |rest| <= |kernel| && rest == kernel[|kernel| - |rest|..]
      ensures Asked(old(calls), calls, kernel) && Final(calls[|calls| - 1])
      ensures lastErrno != 0 <==> calls[|calls| - 1].1.Error?
    {
      statuses := [];
      lastErrno := 0;
      ghost var before := calls;
      var n := 1;
      var stop := Ask(priorityPid, Answer(kernel, 0));
      while !stop
        invariant Valid() && Asked(before, calls, kernel) && |calls| == |before| + n
        invariant stop <==> Final(calls[|calls| - 1])
        invariant lastErrno != 0 <==> calls[|calls| - 1].1.Error?
        decreases if n < |kernel| then |kernel| - n else 0, !stop
      {
        AskedMore(before, calls, kernel);
        stop := Ask(-1, Answer(kernel, n));
        n := n + 1;
      }
      rest := if n <= |kernel| then kernel[n..] else [];
    }

    /** `Wait`: the next report in order, or `NoneNow`, and then the kernel has just been asked and
        had nothing to report for any pid. */
    method Wait(kernel: seq<WaitPid>) returns (r: WaitPid, rest: seq<WaitPid>)
      requires Valid()
      requires forall a :: a in kernel && a.Error? ==> a.errno != 0
      modifies this
      ensures Valid() && |rest| <= |kernel| && rest == kernel[|kernel| - |rest|..]
      ensures delivered == old(delivered) + if r.NoneNow? then [] else [r]
      ensures old(Pending()) != [] ==> r == old(Pending())[0] && rest == kernel && calls == old(calls)
      ensures old(Pending()) == [] ==> Asked(old(calls), calls, kernel) && Final(calls[|calls| - 1])
      ensures r.NoneNow? ==> Pending() == [] && old(calls) < calls && calls[|calls| - 1] == (-1, NoneNow)
    {
      rest := kernel;
      if statuses == [] && lastErrno == 0 {
        rest := RefillStatuses(kernel);
      }
      if statuses == [] {
        if lastErrno == 0 {
          return NoneNow, rest;
        }
        r := Error(lastErrno);
        lastErrno := 0;
        delivered := delivered + [r];
        assert delivered + [] == delivered;
        return;
      }
      r := statuses[0];
      assert r in statuses;
      assert Pending() == [r] + Pending()[1..];
      statuses := statuses[1..];
      delivered := delivered + [r];
    }
  }
}
