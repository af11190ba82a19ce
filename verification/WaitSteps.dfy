/** The lifecycle of one step: polling a probe, or checking and applying a resource
    (src/engine/wait.rs:45-116, 159-232; src/engine/run.rs:972-1020). Durations are nanoseconds. */
module WaitSteps {
  import opened Wrappers
  import opened Status
  import opened Plans
  import opened Sequences

  const SECOND: nat := 1_000_000_000
  const DEFAULT_INTERVAL: nat := 30 * SECOND

  // ---------------------------------------------------------------- the policy

  datatype WaitSpec = WaitSpec(interval: nat, timeout: nat, failOnError: bool)

  /** An evaluated field: an integer of nanoseconds, a bool, or something else. */
  datatype FieldValue = Nanos(n: int) | Flag(b: bool) | OtherValue

  function Duration(v: FieldValue): (r: Option<nat>)
    ensures r.Some? ==> v == Nanos(r.value) && r.value >= SECOND
  {
    if v.Nanos? && v.n >= SECOND then Some(v.n) else None
  }

  /** The policy of a step's wait fields; a missing timeout is an error. */
  function ReadSpec(interval: Option<FieldValue>, timeout: Option<FieldValue>,
                    failOnError: Option<FieldValue>): (r: Option<WaitSpec>)
    ensures r.Some? ==> r.value.interval >= SECOND && r.value.timeout >= SECOND
    ensures r.Some? ==> timeout == Some(Nanos(r.value.timeout))
    ensures r.Some? ==>
              interval == Some(Nanos(r.value.interval)) || (interval.None? && r.value.interval == DEFAULT_INTERVAL)
    ensures r.Some? ==> failOnError == Some(Flag(r.value.failOnError)) || (failOnError.None? && !r.value.failOnError)
    ensures r.None? <==> timeout.None? || Duration(timeout.value).None? ||
                         (interval.Some? && Duration(interval.value).None?) ||
                         (failOnError.Some? && !failOnError.value.Flag?)
  {
    var i := if interval.None? then Some(DEFAULT_INTERVAL) else Duration(interval.value);
    if i.None? || timeout.None? || Duration(timeout.value).None? then None
    else if failOnError.Some? && !failOnError.value.Flag? then None
    else Some(WaitSpec(i.value, Duration(timeout.value).value, failOnError.Some? && failOnError.value.b))
  }

  // -------------------------------------------------------------- the wait loop

  datatype Probe = Ready | NotReady | Failed

  /** The k-th probe, the time that passes before the k-th reading of the clock besides the
      pauses, and whether the k-th pause is cut by a halt. */
  datatype World = World(probe: nat -> Probe, delay: nat -> nat, cancelled: nat -> bool)

  datatype Ending = BecameReady | ProbeFatal | NotReadyNow | DeadlinePassed | Cancelled

  predicate FirstReady(w: World, k: nat)
  {
    w.probe(k) == Ready && forall j :: 0 <= j < k ==> w.probe(j) != Ready
  }

  method RunWait(w: World, spec: WaitSpec, mode: Mode)
    returns (status: StepStatus, ending: Ending, probes: nat, pauses: nat, now: nat)
    requires spec.interval > 0
    ensures probes >= 1 && probes <= CeilDiv(spec.timeout, spec.interval) + 1
    ensures mode == Check ==> probes == 1 && pauses == 0
    ensures status == AlreadyConfigured <==> w.probe(0) == Ready
    ensures status == Configured <==> ending.BecameReady? && probes >= 2
    ensures ending.BecameReady? <==> FirstReady(w, probes - 1)
    ensures ending.BecameReady? ==> status == AlreadyConfigured || status == Configured
    ensures forall j :: 0 <= j < probes - 1 ==> w.probe(j) != Ready && !w.cancelled(j)
    ensures ending.DeadlinePassed? ==> mode == Apply && status == Error && now >= spec.timeout
    ensures ending.ProbeFatal? ==> status == Error && spec.failOnError && w.probe(probes - 1) == Failed
    ensures ending.NotReadyNow? <==> status == NotConfigured
    ensures ending.NotReadyNow? ==> mode == Check
    ensures ending.Cancelled? <==> status == NotRun
    ensures ending.Cancelled? ==> mode == Apply && pauses >= 1 && w.cancelled(pauses - 1)
    ensures status in if mode == Check then {AlreadyConfigured, NotConfigured, Error}
                      else {AlreadyConfigured, Configured, Error, NotRun}
  {
    var attempt := 0;
    now, pauses := 0, 0;
    while true
      invariant pauses == attempt && (mode == Check ==> attempt == 0)
      invariant forall j :: 0 <= j < attempt ==> w.probe(j) != Ready && !w.cancelled(j)
      invariant attempt <= CeilDiv(spec.timeout, spec.interval)
      invariant attempt * spec.interval <= now || spec.timeout <= now
      decreases CeilDiv(spec.timeout, spec.interval) - attempt
    {
      var reply := w.probe(attempt);
      attempt := attempt + 1;
      if reply.Ready? {
        return if attempt == 1 then AlreadyConfigured else Configured, BecameReady, attempt, pauses, now;
      }
      if reply.Failed? && spec.failOnError {
        return Error, ProbeFatal, attempt, pauses, now;
      }
      if mode == Check {
        return NotConfigured, NotReadyNow, attempt, pauses, now;
      }
      now := now + w.delay(attempt - 1);
      if now >= spec.timeout {
        return Error, DeadlinePassed, attempt, pauses, now;
      }
      CeilBound(attempt - 1, spec.interval, spec.timeout);
      var pause := if spec.interval < spec.timeout - now then spec.interval else spec.timeout - now;
      pauses := pauses + 1;
      if w.cancelled(attempt - 1) {
        return NotRun, Cancelled, attempt, pauses, now;
      }
      assert (attempt - 1) * spec.interval + spec.interval == attempt * spec.interval;
      now := now + pause;
    }
  }

  // ------------------------------------------------------------- the resource loop

  datatype CheckResult = InPlace | NeedsReboot | Missing

  datatype ApplyResult = Applied | AppliedNeedsReboot

  /** The scripts of a resource: the check before, the apply, the check after; none is a script error. */
  datatype Scripts = Scripts(check: Option<CheckResult>, apply: Option<ApplyResult>, recheck: Option<CheckResult>)

  /** Check, apply only in apply mode and only when needed, then check again. */
  method RunResource(s: Scripts, mode: Mode) returns (status: StepStatus, applied: bool)
    ensures applied <==> mode == Apply && s.check == Some(Missing)
    ensures status == AlreadyConfigured <==> s.check == Some(InPlace)
    ensures status == NotConfigured <==> mode == Check && s.check == Some(Missing)
    ensures status == Configured <==> applied && s.apply == Some(Applied) && s.recheck == Some(InPlace)
    ensures status == RebootRequired <==>
            s.check == Some(NeedsReboot) || (applied && s.apply == Some(AppliedNeedsReboot))
    ensures status in if mode == Check then {AlreadyConfigured, RebootRequired, NotConfigured, Error}
                      else {AlreadyConfigured, RebootRequired, Configured, Error}
  {
    applied := false;
    if s.check.None? {
      return Error, false;
    }
    match s.check.value {
      case InPlace => status := AlreadyConfigured;
      case NeedsReboot => status := RebootRequired;
      case Missing =>
        if mode == Check {
          status := NotConfigured;
        } else {
          applied := true;
          match s.apply {
            case None => status := Error;
            case Some(AppliedNeedsReboot) => status := RebootRequired;
            case Some(Applied) => status := if s.recheck == Some(InPlace) then Configured else Error;
          }
        }
    }
  }

  // ---------------------------------------------------------- what a step reports

  /** A dispatched resource step, run to its end: what it reports is what the scheduler allows for. */
  method RunJob(c: Setup, i: nat, s: Scripts) returns (status: StepStatus)
    requires i < |c.plans| && c.plans[i].Run?
    ensures c.LegalOutcome(i, status)
  {
    if c.plans[i].resourceKey !in c.resources {
      return StepStatus.Error;
    }
    var applied;
    status, applied := RunResource(s, c.mode);
  }

  /** A dispatched wait step: its status is one the scheduler allows for, or it was cancelled in a pause,
      which only a waiter the scheduler counts as cancellable can be. */
  method RunWaiter(c: Setup, i: nat, w: World, spec: WaitSpec) returns (status: StepStatus)
    requires i < |c.plans| && c.plans[i].Wait? && spec.interval > 0
    ensures status != NotRun ==> c.LegalOutcome(i, status)
    ensures status == NotRun ==> c.Cancellable(i) && exists k: nat :: w.cancelled(k)
  {
    if c.plans[i].probeKey !in c.probes {
      return StepStatus.Error;
    }
    var ending, probes, pauses, now;
    status, ending, probes, pauses, now := RunWait(w, spec, c.mode);
  }
}
