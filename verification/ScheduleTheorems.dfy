/** What whole runs of the scheduler guarantee: progress, confluence to the
    recursive verdict, halting, transitive blocking and the exit code. */
module ScheduleTheorems {
  import opened Wrappers
  import opened Status
  import opened Plans
  import opened Schedule
  import opened ScheduleInvariant

  // ------------------------------------------------------------------ progress

  /** With nothing in flight, a step whose dependencies are complete is never passed over. */
  lemma IdleVisitDispatches(c: Setup, s: State, i: nat)
    requires c.Valid() && Inv(c, s) && s.flight == map[]
    requires i < c.Size() && !s.dispatched[i] && DepsSatisfied(c, s, i)
    ensures Visit(c, s, i).dispatched[i]
  {
    assert |s.flight| == 0;
    assert !Busy(s.flight, 0) && 0 in s.idle;
    assert !s.globalRunning;
    if c.plans[i].Run? {
      assert c.plans[i].concurrency == Exclusive ==> !KeyRunning(c, s.flight, c.plans[i].resourceKey);
      assert c.plans[i].lock.Some? ==> !LockRunning(c, s.flight, c.plans[i].lock.value);
    }
  }

  lemma {:induction false} QuietStepCompleted(c: Setup, s: State, i: nat)
    requires c.Valid() && Acyclic(c.deps) && Inv(c, s) && Quiet(c, s) && i < c.Size()
    ensures s.completed[i]
    decreases RankOf(c.deps)[i]
  {
    forall d | d in c.deps[i] ensures s.completed[d] {
      QuietStepCompleted(c, s, d);
    }
    if !s.dispatched[i] {
      assert Visit(c, s, i) == s;
      IdleVisitDispatches(c, s, i);
    }
  }

  /** Progress: once nothing is in flight and no scan changes anything, every step
      has been dispatched, completed and reported. */
  lemma Progress(c: Setup, acts: seq<Action>)
    requires c.Valid() && Acyclic(c.deps) && Quiet(c, After(c, acts))
    ensures forall i :: 0 <= i < c.Size() ==>
              After(c, acts).dispatched[i] && After(c, acts).completed[i] && After(c, acts).reports[i].Some?
  {
    Reachable(c, acts);
    forall i: nat | i < c.Size() ensures After(c, acts).completed[i] {
      QuietStepCompleted(c, After(c, acts), i);
    }
  }

  // ---------------------------------------------------------------- monotonicity

  /** What was dispatched, completed, reported or halted stays so. */
  ghost predicate Extends(s: State, t: State)
  {
    && |s.reports| == |t.reports| == |s.dispatched| == |t.dispatched|
    && (forall i :: 0 <= i < |s.reports| && s.reports[i].Some? ==> t.reports[i] == s.reports[i])
    && (forall i :: 0 <= i < |s.dispatched| && s.dispatched[i] ==> t.dispatched[i])
    && (s.halted ==> t.halted)
  }

  lemma VisitExtends(c: Setup, s: State, i: nat)
    requires c.Valid() && Inv(c, s) && i < c.Size()
    ensures Extends(s, Visit(c, s, i))
    ensures s.halted ==> Visit(c, s, i).flight.Keys <= s.flight.Keys
  {
    hide Pool, KeysMirror, LocksMirror, SoloMirror, HaltReason, MayRun, Setup.LegalOutcome;
    assert !s.dispatched[i] ==> s.reports[i].None?;
  }

  lemma ReceiveExtends(c: Setup, s: State, i: nat, interrupted: bool)
    requires c.Valid() && Inv(c, s) && MayReceive(c, s, i, interrupted)
    ensures Extends(s, Receive(c, s, i, interrupted))
    ensures Receive(c, s, i, interrupted).flight.Keys <= s.flight.Keys
  {
    hide Pool, KeysMirror, LocksMirror, SoloMirror, HaltReason, Setup.LegalOutcome;
    assert s.reports[i].None?;
  }

  lemma DoExtends(c: Setup, s: State, a: Action)
    requires c.Valid() && Inv(c, s)
    ensures Extends(s, Do(c, s, a))
    ensures s.halted ==> Do(c, s, a).flight.Keys <= s.flight.Keys
  {
    hide Inv, Visit, Receive;
    match a
    case Look(i) => if i < c.Size() { VisitExtends(c, s, i); }
    case Take(i, interrupted) => if MayReceive(c, s, i, interrupted) { ReceiveExtends(c, s, i, interrupted); }
  }

  /** Reports are final, no step is dispatched twice, a halt is never undone, and
      after a halt nothing new starts. */
  lemma {:induction false} RunsExtend(c: Setup, acts: seq<Action>, more: seq<Action>)
    requires c.Valid()
    ensures Extends(After(c, acts), After(c, acts + more))
    ensures After(c, acts).halted ==> After(c, acts + more).flight.Keys <= After(c, acts).flight.Keys
  {
    if more == [] {
      assert acts + more == acts;
    } else {
      var front := acts + more[..|more| - 1];
      assert (acts + more)[..|acts + more| - 1] == front;
      RunsExtend(c, acts, more[..|more| - 1]);
      Reachable(c, front);
      DoExtends(c, After(c, front), more[|more| - 1]);
    }
  }

  lemma HaltedActionOnlyResolves(c: Setup, s: State, a: Action, i: nat)
    requires c.Valid() && Inv(c, s) && s.halted && i < c.Size() && i !in s.flight
    requires s.dispatched[i] ==> s.reports[i] == Some(NotRun)
    ensures var t := Do(c, s, a);
            t.halted && i !in t.flight && (t.dispatched[i] ==> t.reports[i] == Some(NotRun))
  {
  }

  /** A step not dispatched when the run halts ends NotRun, if it ends at all. */
  lemma {:induction false} AfterHaltNotRun(c: Setup, acts: seq<Action>, more: seq<Action>, i: nat)
    requires c.Valid() && i < c.Size()
    requires After(c, acts).halted && !After(c, acts).dispatched[i]
    ensures After(c, acts + more).halted && i !in After(c, acts + more).flight
    ensures After(c, acts + more).dispatched[i] ==> After(c, acts + more).reports[i] == Some(NotRun)
  {
    if more == [] {
      assert acts + more == acts;
      Reachable(c, acts);
    } else {
      var front := acts + more[..|more| - 1];
      assert (acts + more)[..|acts + more| - 1] == front;
      AfterHaltNotRun(c, acts, more[..|more| - 1], i);
      Reachable(c, front);
      HaltedActionOnlyResolves(c, After(c, front), more[|more| - 1], i);
    }
  }

  // ------------------------------------------------------------------ confluence

  /** Every report is the step's verdict, or NotRun under a halted run; every step
      in flight is one whose verdict is its own outcome. */
  ghost predicate Sound(c: Setup, s: State)
    requires c.Valid() && Acyclic(c.deps)
  {
    && s.Sized(c.Size())
    && (forall i: nat :: i < c.Size() && s.reports[i].Some? ==>
          s.reports[i].value == c.Verdict(i) || (s.halted && s.reports[i].value == NotRun))
    && (forall i :: i in s.flight && i < c.Size() ==> c.Verdict(i) == c.outcomes[i])
  }

  /** Before any halt, a step the scan does not block has the verdict its plan gives it. */
  lemma UnblockedVerdict(c: Setup, s: State, i: nat)
    requires c.Valid() && Acyclic(c.deps) && Inv(c, s) && Sound(c, s) && !s.halted
    requires i < c.Size() && !s.dispatched[i] && DepsSatisfied(c, s, i)
    ensures c.mode == Apply && Blocked(c, s, i) <==>
            c.mode == Apply && exists d :: d in c.deps[i] && c.Verdict(d) in {Error, NotRun}
  {
  }

  lemma VisitKeepsSound(c: Setup, s: State, i: nat)
    requires c.Valid() && Acyclic(c.deps) && Inv(c, s) && Sound(c, s) && i < c.Size()
    ensures Sound(c, Visit(c, s, i))
  {
    hide Pool, KeysMirror, LocksMirror, SoloMirror, HaltReason, MayRun;
    if !s.dispatched[i] && DepsSatisfied(c, s, i) && !s.halted {
      UnblockedVerdict(c, s, i);
      assert c.Verdict(i) == (if c.mode == Apply && Blocked(c, s, i) then NotRun else match c.plans[i]
                              case Skip => Skipped case Fail => Error case _ => c.outcomes[i]);
    }
  }

  lemma ReceiveKeepsSound(c: Setup, s: State, i: nat, interrupted: bool)
    requires c.Valid() && Acyclic(c.deps) && Inv(c, s) && Sound(c, s) && MayReceive(c, s, i, interrupted)
    ensures Sound(c, Receive(c, s, i, interrupted))
  {
    hide Pool, KeysMirror, LocksMirror, SoloMirror, HaltReason;
  }

  lemma {:induction false} ReachableSound(c: Setup, acts: seq<Action>)
    requires c.Valid() && Acyclic(c.deps)
    ensures Sound(c, After(c, acts))
  {
    if acts != [] {
      var s := After(c, acts[..|acts| - 1]);
      ReachableSound(c, acts[..|acts| - 1]);
      Reachable(c, acts[..|acts| - 1]);
      match acts[|acts| - 1]
      case Look(i) => if i < c.Size() { VisitKeepsSound(c, s, i); }
      case Take(i, interrupted) => if MayReceive(c, s, i, interrupted) { ReceiveKeepsSound(c, s, i, interrupted); }
    }
  }

  ghost predicate Finished(c: Setup, s: State, statuses: seq<StepStatus>)
  {
    |statuses| == c.Size() == |s.reports| && forall i :: 0 <= i < c.Size() ==> s.reports[i] == Some(statuses[i])
  }

  /** Whether a finished run was halted is decided by the verdicts alone: it was
      exactly when some step's verdict is a halting status. */
  lemma HaltedIffHaltingVerdict(c: Setup, acts: seq<Action>)
    requires c.Valid() && Acyclic(c.deps) && Quiet(c, After(c, acts))
    ensures After(c, acts).halted <==> exists i: nat :: i < c.Size() && c.Halting(c.Verdict(i))
  {
    var s := After(c, acts);
    Progress(c, acts);
    Reachable(c, acts);
    ReachableSound(c, acts);
    if s.halted {
      var i: nat :| i < |s.reports| && s.reports[i].Some? && c.Halting(s.reports[i].value);
      assert s.reports[i].value == c.Verdict(i);
    }
    forall i: nat | i < c.Size() && !s.halted ensures !c.Halting(c.Verdict(i)) {
      assert s.reports[i] == Some(c.Verdict(i));
    }
  }

  /** Confluence, general form: a finished run reports each step's verdict, except
      that a halted run may report NotRun instead; nothing else depends on the
      interleaving or on the number of workers. */
  lemma FinishedRunsReportVerdicts(c: Setup, acts: seq<Action>, i: nat)
    requires c.Valid() && Acyclic(c.deps) && Quiet(c, After(c, acts)) && i < c.Size()
    ensures After(c, acts).reports[i] == Some(c.Verdict(i))
            || ((exists j: nat :: j < c.Size() && c.Halting(c.Verdict(j))) && After(c, acts).reports[i] == Some(NotRun))
  {
    Progress(c, acts);
    ReachableSound(c, acts);
    HaltedIffHaltingVerdict(c, acts);
  }

  /** Two setups that differ only in the number of workers and sequential mode. */
  ghost predicate SameWork(c: Setup, c': Setup)
  {
    c' == c.(workers := c'.workers, sequential := c'.sequential)
  }

  lemma {:induction false} VerdictIgnoresWorkers(c: Setup, c': Setup, i: nat)
    requires c.Valid() && c'.Valid() && SameWork(c, c') && Acyclic(c.deps) && i < c.Size()
    ensures c.Verdict(i) == c'.Verdict(i)
    decreases RankOf(c.deps)[i]
  {
    forall d | d in c.deps[i] ensures c.Verdict(d) == c'.Verdict(d) {
      VerdictIgnoresWorkers(c, c', d);
    }
  }

  /** Confluence: with no halting verdict, any two finished runs, under any two
      worker counts, parallel or sequential, end with the same reports. */
  lemma Confluence(c: Setup, acts: seq<Action>, c': Setup, acts': seq<Action>)
    requires c.Valid() && c'.Valid() && SameWork(c, c') && Acyclic(c.deps)
    requires Quiet(c, After(c, acts)) && Quiet(c', After(c', acts'))
    requires forall i: nat :: i < c.Size() ==> !c.Halting(c.Verdict(i))
    ensures After(c, acts).reports == After(c', acts').reports
    ensures forall i: nat :: i < c.Size() ==> After(c, acts).reports[i] == Some(c.Verdict(i))
    ensures !After(c, acts).halted
  {
    forall i: nat | i < c.Size()
      ensures After(c, acts).reports[i] == Some(c.Verdict(i)) == After(c', acts').reports[i]
    {
      VerdictIgnoresWorkers(c, c', i);
      forall j: nat | j < c.Size() ensures !c'.Halting(c'.Verdict(j)) {
        VerdictIgnoresWorkers(c, c', j);
      }
      FinishedRunsReportVerdicts(c, acts, i);
      FinishedRunsReportVerdicts(c', acts', i);
    }
    HaltedIffHaltingVerdict(c, acts);
  }

  /** `--continue-on-error` with no reboot request in apply mode leaves no halting verdict. */
  lemma ContinueOnErrorNeverHalts(c: Setup)
    requires c.Valid() && Acyclic(c.deps) && c.continueOnError
    requires c.mode == Apply ==> RebootRequired !in c.outcomes
    ensures forall i: nat :: i < c.Size() ==> !c.Halting(c.Verdict(i))
  {
  }

  // ---------------------------------------------------------- transitive blocking

  /** A report that does not stop dependents in apply mode. */
  predicate Clear(report: Option<StepStatus>)
  {
    report.Some? && report.value !in {Error, NotRun, RebootRequired}
  }

  /** A step that is running, or ended other than NotRun. */
  predicate Ran(s: State, i: nat)
    requires s.Sized(|s.reports|)
  {
    i < |s.reports| && (i in s.flight || (s.completed[i] && s.reports[i] != Some(NotRun)))
  }

  /** Every step that started, or ended other than NotRun, had clear dependencies. */
  ghost predicate Cleared(c: Setup, s: State)
    requires c.Valid() && s.Sized(c.Size())
  {
    forall i: nat, d :: i < c.Size() && d in c.deps[i] && Ran(s, i) ==> Clear(s.reports[d])
  }

  /** A step that has just run was looked at before any halt, with its dependencies
      complete and none of them blocking it. */
  lemma NewlyRan(c: Setup, s: State, a: Action, i: nat)
    requires c.Valid() && c.mode == Apply && Inv(c, s) && !Ran(s, i) && Ran(Do(c, s, a), i)
    ensures i < c.Size() && !s.halted && DepsSatisfied(c, s, i) && !Blocked(c, s, i)
  {
    hide Pool, KeysMirror, LocksMirror, SoloMirror, HaltReason, MayRun;
  }

  lemma DoKeepsCleared(c: Setup, s: State, a: Action)
    requires c.Valid() && c.mode == Apply && Inv(c, s) && Cleared(c, s)
    ensures Cleared(c, Do(c, s, a))
  {
    hide Pool, KeysMirror, LocksMirror, SoloMirror, Do;
    var t := Do(c, s, a);
    DoExtends(c, s, a);
    forall i: nat, d | i < c.Size() && d in c.deps[i] && Ran(t, i) ensures Clear(t.reports[d]) {
      if !Ran(s, i) {
        NewlyRan(c, s, a, i);
        assert s.reports[d].Some? && !c.Halting(s.reports[d].value);
      }
    }
  }

  lemma {:induction false} ReachableCleared(c: Setup, acts: seq<Action>)
    requires c.Valid() && c.mode == Apply
    ensures Cleared(c, After(c, acts))
  {
    if acts != [] {
      ReachableCleared(c, acts[..|acts| - 1]);
      Reachable(c, acts[..|acts| - 1]);
      DoKeepsCleared(c, After(c, acts[..|acts| - 1]), acts[|acts| - 1]);
    }
  }

  /** `path` leads from a step along requires edges: each step requires the next. */
  ghost predicate RequiresPath(c: Setup, path: seq<nat>)
  {
    && (forall k :: 0 <= k < |path| ==> path[k] < |c.deps|)
    && (forall k :: 0 <= k < |path| - 1 ==> path[k + 1] in c.deps[path[k]])
  }

  /** In apply mode, once a step is in flight everything it transitively requires
      has completed, and none of it is Error, NotRun or RebootRequired. */
  lemma {:induction false} NoStartAfterFailedRequirement(c: Setup, acts: seq<Action>, path: seq<nat>)
    requires c.Valid() && c.mode == Apply && RequiresPath(c, path) && |path| >= 2
    requires Ran(After(c, acts), path[0])
    ensures Clear(After(c, acts).reports[path[|path| - 1]])
  {
    ReachableCleared(c, acts);
    Reachable(c, acts);
    assert path[1] in c.deps[path[0]];
    assert Clear(After(c, acts).reports[path[1]]);
    if |path| > 2 {
      NoStartAfterFailedRequirement(c, acts, path[1..]);
    }
  }

  // ------------------------------------------------------------------- exit code

  /** A NotRun report is always explained by an error or, in apply mode, a reboot. */
  ghost predicate Explained(c: Setup, s: State)
  {
    (exists i :: 0 <= i < |s.reports| && s.reports[i] == Some(NotRun)) ==>
    exists i :: 0 <= i < |s.reports| &&
        (s.reports[i] == Some(Error) || (c.mode == Apply && s.reports[i] == Some(RebootRequired)))
  }

  lemma StartedOutcome(c: Setup, s: State, i: nat)
    requires c.Valid() && Pool(c, s.flight, s.inFlight, s.idle) && i in s.flight
    ensures c.outcomes[i] != NotRun
  {
  }

  /** Before a halt, a fresh NotRun comes only from a dependency that failed or did not run. */
  lemma FreshNotRunIsBlocked(c: Setup, s: State, a: Action, i: nat)
    requires c.Valid() && Inv(c, s) && !s.halted && i < c.Size()
    requires s.reports[i] != Some(NotRun) && Do(c, s, a).reports[i] == Some(NotRun)
    ensures Blocked(c, s, i)
  {
    hide Pool, KeysMirror, LocksMirror, SoloMirror, HaltReason, MayRun;
    if a.Take? && i in s.flight {
      StartedOutcome(c, s, i);
    }
  }

  lemma DoKeepsExplained(c: Setup, s: State, a: Action)
    requires c.Valid() && Inv(c, s) && Explained(c, s)
    ensures Explained(c, Do(c, s, a))
  {
    hide Pool, KeysMirror, LocksMirror, SoloMirror, Do;
    var t := Do(c, s, a);
    DoExtends(c, s, a);
    if i :| 0 <= i < |t.reports| && t.reports[i] == Some(NotRun) {
      if s.reports[i] != Some(NotRun) && !s.halted {
        FreshNotRunIsBlocked(c, s, a, i);
        var d :| d in c.deps[i] && s.reports[d] in {Some(Error), Some(NotRun)};
        assert 0 <= d < |s.reports|;
      }
      var j :| 0 <= j < |s.reports| &&
          (s.reports[j] == Some(Error) || (c.mode == Apply && s.reports[j] == Some(RebootRequired)));
      assert t.reports[j] == s.reports[j];
    }
  }

  lemma {:induction false} ReachableExplained(c: Setup, acts: seq<Action>)
    requires c.Valid()
    ensures Explained(c, After(c, acts))
  {
    if acts != [] {
      ReachableExplained(c, acts[..|acts| - 1]);
      Reachable(c, acts[..|acts| - 1]);
      DoKeepsExplained(c, After(c, acts[..|acts| - 1]), acts[|acts| - 1]);
    }
  }

  /** Any NotRun in a finished report, a cancelled waiter's included, makes the exit code non-zero. */
  lemma NotRunFailsTheRun(c: Setup, acts: seq<Action>, statuses: seq<StepStatus>)
    requires c.Valid() && Finished(c, After(c, acts), statuses) && NotRun in statuses
    ensures ExitCode(c.mode, statuses) != 0
  {
    ReachableExplained(c, acts);
    var s := After(c, acts);
    var k :| 0 <= k < |statuses| && statuses[k] == NotRun;
    assert s.reports[k] == Some(NotRun);
    var i :| 0 <= i < |s.reports| &&
        (s.reports[i] == Some(Error) || (c.mode == Apply && s.reports[i] == Some(RebootRequired)));
    assert statuses[i] in statuses;
  }
}
