/** The status of a whole run, in terms of everything that the kernel and the callers did up to then. */
module RunVerdicts {
  import opened Options
  import opened MonitorModel
  import opened Verdicts

  // ----- requests -----

  /** Every request of the iteration can be acted on; the sandboxee is killed for the network only once. */
  predicate Obeyed(network: bool, it: Iteration) {
    && (it.deadlinePassed ==> it.timeoutKillOk) && (it.dumpRequested ==> it.interruptOk)
    && (it.killRequested ==> it.externalKillOk) && (it.proxyViolation && !network ==> it.networkKillOk)
  }

  /** The reason when one cannot: a stack dump fails by an interrupt, all others by a kill. */
  predicate DisobeyedBy(it: Iteration, reason: int) {
    reason == if it.dumpRequested && !it.interruptOk && (it.deadlinePassed ==> it.timeoutKillOk) then FAILED_INTERRUPT
              else FAILED_KILL
  }

  lemma RequestsJudged(f: Flags, it: Iteration)
    ensures FailedRequest(f, it).None? <==> Obeyed(f.networkViolation, it)
    ensures FailedRequest(f, it).Some? ==> DisobeyedBy(it, FailedRequest(f, it).value.1)
  {
  }

  // ----- history -----

  /** Some process has executed a program. */
  predicate Executed(its: seq<Iteration>) {
    exists i :: 0 <= i < |its| && ReadStop(its[i]) && its[i].wait.status.event.ExecEvent?
  }

  /** The state in which the wait of `it` is handled after `done`, as far as verdicts depend on it. */
  ghost function Past(calls: map<int, Syscall>, waitForExecve: bool, done: seq<Iteration>, it: Iteration): State {
    var now := done + [it];
    State(Unset, 0, false, Flags(AnyDeadline(now), false, AnyKill(now), AnyProxy(now)),
          waitForExecve && !Executed(done), calls, [])
  }

  /** A stack dump was asked for, and there has been no stop since at which it can be done. */
  ghost predicate DumpPending(c: Config, its: seq<Iteration>) {
    exists i :: 0 <= i < |its| && its[i].dumpRequested && NoDump(c, its[i..])
  }

  ghost predicate NoDump(c: Config, its: seq<Iteration>) { forall i :: 0 <= i < |its| ==> !CanDump(c, its[i]) }

  lemma DumpMore(c: Config, done: seq<Iteration>, it: Iteration)
    ensures DumpPending(c, done + [it]) <==> (DumpPending(c, done) || it.dumpRequested) && !CanDump(c, it)
  {
    var all := done + [it];
    forall i | 0 <= i <= |done| ensures NoDump(c, all[i..]) <==> NoDump(c, done[i..]) && !CanDump(c, it) {
      assert all[i..] == done[i..] + [it];
      assert (done[i..] + [it])[|done[i..]|] == it;
      if NoDump(c, all[i..]) {
        assert forall k :: 0 <= k < |done[i..]| ==> all[i..][k] == done[i..][k];
      }
    }
    assert done[|done|..] == [] && all[|done|] == it;
    if DumpPending(c, all) {
      var i :| 0 <= i < |all| && all[i].dumpRequested && NoDump(c, all[i..]);
      assert i < |done| ==> done[i].dumpRequested;
    }
    if DumpPending(c, done) && !CanDump(c, it) {
      var i :| 0 <= i < |done| && done[i].dumpRequested && NoDump(c, done[i..]);
      assert all[i].dumpRequested && NoDump(c, all[i..]);
    } else if it.dumpRequested && !CanDump(c, it) {
      assert NoDump(c, all[|done|..]);
    }
  }

  /** The flags and the wait for an exec record what has happened. */
  ghost predicate Remembers(c: Config, s: State, waitForExecve: bool, done: seq<Iteration>) {
    && s.flags.shouldDumpStack == DumpPending(c, done)
    && s.status == Unset && s.reason == 0 && !s.checkFailed && FlagsRecord(s, done)
    && s.waitForExecve == (waitForExecve && !Executed(done))
  }

  lemma ExecutedMore(done: seq<Iteration>, it: Iteration)
    ensures Executed(done + [it]) <==> Executed(done) || (ReadStop(it) && it.wait.status.event.ExecEvent?)
  {
    var all := done + [it];
    assert all[|done|] == it;
    assert forall i :: 0 <= i < |done| ==> all[i] == done[i];
  }

  lemma IterateRemembers(c: Config, s: State, waitForExecve: bool, done: seq<Iteration>, it: Iteration)
    requires Remembers(c, s, waitForExecve, done)
    ensures var s' := Iterate(c, s, it).0; s'.status == Unset ==> Remembers(c, s', waitForExecve, done + [it])
  {
    ExecutedMore(done, it);
    IterateExplains(c, s, done, it);
    var t := s.(flags := NoteAll(s.flags, it));
    WaitRecorded(c, t, it);
    WaitJudged(c, t, it);
    WaitFlags(c, t, it);
    DumpMore(c, done, it);
  }

  lemma {:induction false} RunRemembersFrom(c: Config, s: State, waitForExecve: bool, done: seq<Iteration>,
                                            its: seq<Iteration>)
    requires Remembers(c, s, waitForExecve, done) && RunLoop(c, s, its).0.status == Unset
    ensures Remembers(c, RunLoop(c, s, its).0, waitForExecve, done + its)
    decreases |its|
  {
    if its == [] {
      assert done + its == done;
    } else {
      IterateSteps(c, s, its[0]);
      IterateRemembers(c, s, waitForExecve, done, its[0]);
      RunRemembersFrom(c, Iterate(c, s, its[0]).0, waitForExecve, done + [its[0]], its[1..]);
      assert done + [its[0]] + its[1..] == done + its;
    }
  }

  /** A run that is going on remembers the requests that were made, a stack dump that is still to be
      done, and whether a program was executed. */
  lemma RunRemembers(c: Config, waitForExecve: bool, its: seq<Iteration>)
    requires RunLoop(c, Initial(waitForExecve), its).0.status == Unset
    ensures Remembers(c, RunLoop(c, Initial(waitForExecve), its).0, waitForExecve, its)
  {
    RunRemembersFrom(c, Initial(waitForExecve), waitForExecve, [], its);
    assert [] + its == its;
  }

  /** Verdicts on an iteration depend on the past only. */
  ghost predicate DueNow(c: Config, s: State, waitForExecve: bool, done: seq<Iteration>, it: Iteration, status: Status,
                         reason: int)
  {
    if Obeyed(AnyProxy(done), it) then Due(c, Past(s.inProgress, waitForExecve, done, it), it, status, reason)
    else status == InternalError && DisobeyedBy(it, reason)
  }

  lemma PastSame(c: Config, s: State, waitForExecve: bool, done: seq<Iteration>, it: Iteration, status: Status,
                 reason: int)
    requires Remembers(c, s, waitForExecve, done)
    ensures Due(c, s.(flags := NoteAll(s.flags, it)), it, status, reason)
            <==> Due(c, Past(s.inProgress, waitForExecve, done, it), it, status, reason)
  {
    AnyMore(done, it);
  }

  /** One iteration gives the status that is due, or none. */
  lemma IterateJudged(c: Config, s: State, waitForExecve: bool, done: seq<Iteration>, it: Iteration, status: Status,
                      reason: int)
    requires Remembers(c, s, waitForExecve, done) && status != Unset
    ensures var s' := Iterate(c, s, it).0;
            DueNow(c, s, waitForExecve, done, it, status, reason) <==> s'.status == status && s'.reason == reason
  {
    RequestsJudged(s.flags, it);
    PastSame(c, s, waitForExecve, done, it, status, reason);
    WaitJudged(c, s.(flags := NoteAll(s.flags, it)), it);
  }

  // ----- runs -----

  /** The run is still going on after `n` iterations, and the next one is to end it in this way. */
  ghost predicate Ends(c: Config, s: State, waitForExecve: bool, done: seq<Iteration>, its: seq<Iteration>, n: nat,
                       status: Status, reason: int)
  {
    && n < |its| && var t := RunLoop(c, s, its[..n]).0;
    && t.status == Unset && DueNow(c, t, waitForExecve, done + its[..n], its[n], status, reason)
  }

  lemma EndsNow(c: Config, s: State, waitForExecve: bool, done: seq<Iteration>, its: seq<Iteration>, status: Status,
                reason: int)
    requires Remembers(c, s, waitForExecve, done) && its != [] && status != Unset
    ensures var s' := Iterate(c, s, its[0]).0;
            Ends(c, s, waitForExecve, done, its, 0, status, reason) <==> s'.status == status && s'.reason == reason
  {
    assert its[..0] == [] && done + [] == done;
    IterateJudged(c, s, waitForExecve, done, its[0], status, reason);
  }

  lemma RunOnward(c: Config, s: State, its: seq<Iteration>, n: nat)
    requires n < |its| && s.status == Unset
    ensures var (s', broke) := Iterate(c, s, its[0]);
            RunLoop(c, s, its[..n + 1]) == if broke then (s', true) else RunLoop(c, s', its[1..][..n])
  {
    assert its[..n + 1][1..] == its[1..][..n];
  }

  lemma EndsLater(c: Config, s: State, waitForExecve: bool, done: seq<Iteration>, its: seq<Iteration>, n: nat,
                  status: Status, reason: int)
    requires s.status == Unset && its != [] && Iterate(c, s, its[0]).0.status == Unset && !Iterate(c, s, its[0]).1
    ensures Ends(c, s, waitForExecve, done, its, n + 1, status, reason)
            <==> Ends(c, Iterate(c, s, its[0]).0, waitForExecve, done + [its[0]], its[1..], n, status, reason)
  {
    if n + 1 < |its| {
      RunOnward(c, s, its, n);
      assert done + its[..n + 1] == done + [its[0]] + its[1..][..n];
    }
  }

  lemma {:induction false} RunJudged(c: Config, s: State, waitForExecve: bool, done: seq<Iteration>,
                                     its: seq<Iteration>, status: Status, reason: int)
    requires Remembers(c, s, waitForExecve, done) && status != Unset
    ensures var s' := RunLoop(c, s, its).0;
            s'.status == status && s'.reason == reason
            <==> exists n: nat :: Ends(c, s, waitForExecve, done, its, n, status, reason)
    decreases |its|
  {
    if its != [] {
      var (s', broke) := Iterate(c, s, its[0]);
      EndsNow(c, s, waitForExecve, done, its, status, reason);
      if s'.status == Unset {
        IterateSteps(c, s, its[0]);
        IterateRemembers(c, s, waitForExecve, done, its[0]);
        RunJudged(c, s', waitForExecve, done + [its[0]], its[1..], status, reason);
        forall n: nat
          ensures Ends(c, s, waitForExecve, done, its, n + 1, status, reason)
                  <==> Ends(c, s', waitForExecve, done + [its[0]], its[1..], n, status, reason)
        {
          EndsLater(c, s, waitForExecve, done, its, n, status, reason);
        }
        OnlyLater(c, s, s', waitForExecve, done, its, status, reason);
      } else {
        forall n: nat | 0 < n < |its| ensures !Ends(c, s, waitForExecve, done, its, n, status, reason) {
          RunOnward(c, s, its, n - 1);
        }
      }
    }
  }

  lemma OnlyLater(c: Config, s: State, s': State, waitForExecve: bool, done: seq<Iteration>, its: seq<Iteration>,
                  status: Status, reason: int)
    requires its != [] && !Ends(c, s, waitForExecve, done, its, 0, status, reason)
    requires forall n: nat :: Ends(c, s, waitForExecve, done, its, n + 1, status, reason)
                         <==> Ends(c, s', waitForExecve, done + [its[0]], its[1..], n, status, reason)
    ensures (exists n: nat :: Ends(c, s, waitForExecve, done, its, n, status, reason))
            <==> exists n: nat :: Ends(c, s', waitForExecve, done + [its[0]], its[1..], n, status, reason)
  {
    if n: nat :| Ends(c, s, waitForExecve, done, its, n, status, reason) {
      var m: nat := n - 1;
      assert Ends(c, s', waitForExecve, done + [its[0]], its[1..], m, status, reason)
             == Ends(c, s, waitForExecve, done, its, m + 1, status, reason);
    }
  }

  /** A run gives a status exactly when some iteration is the first to be due for one, and it is that
      one: for every run, every status and every reason. */
  lemma RunVerdict(c: Config, waitForExecve: bool, its: seq<Iteration>, status: Status, reason: int)
    requires status != Unset
    ensures var s := RunLoop(c, Initial(waitForExecve), its).0;
            s.status == status && s.reason == reason
            <==> exists n: nat :: Ends(c, Initial(waitForExecve), waitForExecve, [], its, n, status, reason)
  {
    RunJudged(c, Initial(waitForExecve), waitForExecve, [], its, status, reason);
  }

  /** The iteration number `n` of a run that is still going on shows a violation: a call for another
      architecture, a denied call, a process killed by seccomp, or the main process dead with a
      network violation on record. */
  ghost predicate Shows(c: Config, waitForExecve: bool, its: seq<Iteration>, n: nat) {
    && n < |its| && RunLoop(c, Initial(waitForExecve), its[..n]).0.status == Unset
    && Obeyed(AnyProxy(its[..n]), its[n])
    && (|| ForeignCall(c, its[n]) || DeniedCall(c, waitForExecve && !Executed(its[..n]), its[n])
        || KilledBySeccomp(its[n]) || (MainDeath(c, its[n]) && AnyProxy(its[..n] + [its[n]])))
  }

  ghost predicate ShowsViolation(c: Config, waitForExecve: bool, its: seq<Iteration>) {
    exists n: nat :: Shows(c, waitForExecve, its, n)
  }

  lemma ShownIsDue(c: Config, waitForExecve: bool, its: seq<Iteration>, n: nat)
    ensures Shows(c, waitForExecve, its, n)
            <==> exists reason :: Ends(c, Initial(waitForExecve), waitForExecve, [], its, n, Violation, reason)
  {
    var s := Initial(waitForExecve);
    if n < |its| {
      assert [] + its[..n] == its[..n];
      if Shows(c, waitForExecve, its, n) {
        var reason := if Traced(its[n]) || KilledBySeccomp(its[n]) then its[n].regs.nr else VIOLATION_NETWORK;
        assert Ends(c, s, waitForExecve, [], its, n, Violation, reason);
      }
    }
  }

  /** A run ends with a violation if and only if an iteration shows one while it is going on. */
  lemma ViolationIff(c: Config, waitForExecve: bool, its: seq<Iteration>)
    ensures RunLoop(c, Initial(waitForExecve), its).0.status == Violation <==> ShowsViolation(c, waitForExecve, its)
  {
    var s := RunLoop(c, Initial(waitForExecve), its).0;
    RunVerdict(c, waitForExecve, its, Violation, s.reason);
    if s.status == Violation {
      var n: nat :| Ends(c, Initial(waitForExecve), waitForExecve, [], its, n, Violation, s.reason);
      ShownIsDue(c, waitForExecve, its, n);
    } else if n: nat :| Shows(c, waitForExecve, its, n) {
      ShownIsDue(c, waitForExecve, its, n);
      var reason :| Ends(c, Initial(waitForExecve), waitForExecve, [], its, n, Violation, reason);
      RunVerdict(c, waitForExecve, its, Violation, reason);
    }
  }
}
