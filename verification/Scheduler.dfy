/** The scheduler in the source's own form: an object whose fields are the local
    variables of `schedule`, updated by nested loops (src/engine/run.rs:505-868). */
module Scheduler {
  import opened Wrappers
  import opened Status
  import opened Plans
  import opened Schedule
  import opened ScheduleInvariant
  import opened ScheduleTheorems

  /** The steps whose flag is not set yet: what the loops run out of. */
  ghost function Pending(flags: seq<bool>): set<int>
  {
    set i | 0 <= i < |flags| && !flags[i]
  }

  lemma PendingShrinks(flags: seq<bool>, flags': seq<bool>)
    requires |flags| == |flags'| && forall i :: 0 <= i < |flags| && flags[i] ==> flags'[i]
    ensures |Pending(flags')| <= |Pending(flags)|
    ensures (exists i :: 0 <= i < |flags| && flags'[i] && !flags[i]) ==> |Pending(flags')| < |Pending(flags)|
  {
    var newly := Pending(flags) - Pending(flags');
    assert Pending(flags) == Pending(flags') + newly;
    if i :| 0 <= i < |flags| && flags'[i] && !flags[i] {
      assert i in newly;
    }
  }

  lemma AfterOneMore(c: Setup, acts: seq<Action>, a: Action)
    requires c.Valid()
    ensures After(c, acts + [a]) == Do(c, After(c, acts), a)
  {
  }

  class Scheduler {
    const c: Setup
    var reports: seq<Option<StepStatus>>
    var dispatched: seq<bool>
    var completed: seq<bool>
    var halted: bool
    var cancelled: bool
    var inFlight: int
    var runningExclusive: set<string>
    var heldLocks: set<(string, string)>
    var globalRunning: bool
    var idle: seq<nat>
    // The contents of the channels: jobs sent whose completion has not been received.
    var flight: map<nat, Option<nat>>
    // Every scan turn and completion so far.
    ghost var acts: seq<Action>

    ghost function Now(): State
      reads this
    {
      State(reports, dispatched, completed, halted, cancelled, inFlight, runningExclusive, heldLocks,
            globalRunning, idle, flight)
    }

    /** The object is always in the state its recorded run leads to. */
    ghost predicate Valid()
      reads this
    {
      c.Valid() && Now().Sized(c.Size()) && Now() == After(c, acts) && Inv(c, Now())
    }

    constructor (c: Setup)
      requires c.Valid()
      ensures this.c == c && Valid() && acts == []
    {
      this.c := c;
      reports := seq(c.Size(), _ => None);
      dispatched := seq(c.Size(), _ => false);
      completed := seq(c.Size(), _ => false);
      halted := false;
      cancelled := false;
      inFlight := 0;
      runningExclusive := {};
      heldLocks := {};
      globalRunning := false;
      idle := seq(c.workers, w => w);
      flight := map[];
      acts := [];
      new;
      assert Now() == Init(c);
      Reachable(c, []);
    }

    method Complete(i: nat, status: StepStatus)
      requires i < |reports| && Now().Sized(|reports|)
      modifies this`dispatched, this`completed, this`reports
      ensures Now() == Resolve(old(Now()), i, status)
    {
      dispatched := dispatched[i := true];
      completed := completed[i := true];
      reports := reports[i := Some(status)];
    }

    /** One turn of the dispatch scan. Reports whether the step moved. */
    method VisitStep(i: nat) returns (progressed: bool)
      requires Valid() && i < c.Size()
      modifies this
      ensures Valid() && acts == old(acts) + [Look(i)]
      ensures Now() == Visit(c, old(Now()), i)
      ensures progressed <==> Now() != old(Now())
      ensures progressed ==> !old(dispatched)[i] && dispatched == old(dispatched)[i := true]
      ensures forall j :: 0 <= j < c.Size() && old(completed)[j] ==> completed[j]
    {
      hide Inv, After, Setup.LegalOutcome;
      ghost var s := Now();
      progressed := false;
      if !dispatched[i] && forall d | d in c.deps[i] :: completed[d] {
        progressed := Advance(i);
      }
      acts := acts + [Look(i)];
      AfterOneMore(c, old(acts), Look(i));
      VisitKeepsInv(c, s, i);
    }

    /** What the scan does with a step that has not been dispatched and whose
        dependencies are complete. */
    method Advance(i: nat) returns (progressed: bool)
      requires c.Valid() && Now().Sized(c.Size()) && i < c.Size() && !dispatched[i] && DepsSatisfied(c, Now(), i)
      modifies this`reports, this`dispatched, this`completed, this`halted, this`cancelled, this`inFlight, this`idle,
               this`runningExclusive, this`heldLocks, this`globalRunning, this`flight
      ensures Now() == Visit(c, old(Now()), i)
      ensures dispatched == if progressed then old(dispatched)[i := true] else old(dispatched)
      ensures completed == old(completed) || completed == old(completed)[i := true]
      ensures !progressed ==> Now() == old(Now())
    {
      hide Setup.LegalOutcome;
      var blocked := exists d | d in c.deps[i] :: reports[d] in {Some(Error), Some(NotRun)};
      progressed := true;
      if halted {
        Complete(i, NotRun);
      } else if c.mode == Apply && blocked {
        Complete(i, NotRun);
      } else {
        match c.plans[i] {
          case Skip =>
            Complete(i, Skipped);
          case Fail =>
            Complete(i, Error);
            if !c.continueOnError {
              halted := true;
              cancelled := true;
            }
          case Wait(_) =>
            if globalRunning || (c.sequential && inFlight > 0) {
              return false;
            }
            dispatched := dispatched[i := true];
            inFlight := inFlight + 1;
            flight := flight[i := None];
          case Run(key, concurrency, lock) =>
            progressed := StartJob(i, key, concurrency, lock);
        }
      }
    }

    /** The concurrency gates, and the hand-over to an idle worker when they open. */
    method StartJob(i: nat, key: string, concurrency: Concurrency, lock: Option<(string, string)>)
      returns (started: bool)
      requires c.Valid() && i < c.Size() && c.plans[i] == Run(key, concurrency, lock) && i < |dispatched|
      modifies this`dispatched, this`inFlight, this`idle, this`runningExclusive, this`heldLocks, this`globalRunning,
               this`flight
      ensures started == old(MayRun(c, Now(), i))
      ensures Now() == if started then StartRun(c, old(Now()), i) else old(Now())
    {
      if globalRunning || idle == [] || (c.sequential && inFlight > 0) {
        return false;
      }
      match concurrency {
        case Parallel =>
        case Exclusive => if key in runningExclusive { return false; }
        case Global => if inFlight > 0 { return false; }
      }
      if lock.Some? && lock.value in heldLocks {
        return false;
      }
      var worker := idle[0];
      idle := idle[1..];
      dispatched := dispatched[i := true];
      inFlight := inFlight + 1;
      if concurrency == Exclusive {
        runningExclusive := runningExclusive + {key};
      }
      if lock.Some? {
        heldLocks := heldLocks + {lock.value};
      }
      if concurrency == Global {
        globalRunning := true;
      }
      flight := flight[i := Some(worker)];
      started := true;
    }

    /** The dispatch phase: scan in declaration order until a whole scan moves
        nothing, or a global step has started. */
    method Dispatch()
      requires Valid() && !globalRunning
      modifies this
      ensures Valid()
      ensures forall j :: 0 <= j < c.Size() && old(completed)[j] ==> completed[j]
      ensures globalRunning || forall i :: 0 <= i < c.Size() ==> Visit(c, Now(), i) == Now()
    {
      var progressed := true;
      while progressed
        invariant Valid() && !globalRunning
        invariant forall j :: 0 <= j < c.Size() && old(completed)[j] ==> completed[j]
        invariant !progressed ==> forall i :: 0 <= i < c.Size() ==> Visit(c, Now(), i) == Now()
        decreases |Pending(dispatched)|, progressed
      {
        progressed := Scan();
        if globalRunning {
          break;
        }
      }
    }

    /** One scan over the steps. */
    method Scan() returns (progressed: bool)
      requires Valid() && !globalRunning
      modifies this
      ensures Valid()
      ensures forall j :: 0 <= j < c.Size() && old(completed)[j] ==> completed[j]
      ensures !progressed ==> Now() == old(Now()) && forall i :: 0 <= i < c.Size() ==> Visit(c, Now(), i) == Now()
      ensures progressed ==> |Pending(dispatched)| < |Pending(old(dispatched))|
    {
      hide Inv, After, Visit;
      progressed := false;
      var i := 0;
      while i < c.Size()
        invariant 0 <= i <= c.Size() && Valid() && !globalRunning
        invariant forall j :: 0 <= j < c.Size() && old(completed)[j] ==> completed[j]
        invariant !progressed ==> Now() == old(Now()) && forall j :: 0 <= j < i ==> Visit(c, Now(), j) == Now()
        invariant progressed ==> |Pending(dispatched)| < |Pending(old(dispatched))|
      {
        ghost var before := dispatched;
        var moved := VisitStep(i);
        if moved {
          PendingShrinks(before, dispatched);
          progressed := true;
          if globalRunning {
            break;
          }
        }
        i := i + 1;
      }
    }

    /** Give back what a finished step held. */
    method ReleaseStep(i: nat)
      requires i in flight && i < c.Size()
      modifies this`inFlight, this`idle, this`runningExclusive, this`heldLocks, this`globalRunning, this`flight
      ensures Now() == Release(c, old(Now()), i)
    {
      inFlight := inFlight - 1;
      if flight[i].Some? {
        idle := idle + [flight[i].value];
      }
      flight := flight - {i};
      match c.plans[i] {
        case Run(key, concurrency, lock) =>
          if concurrency == Exclusive {
            runningExclusive := runningExclusive - {key};
          }
          if lock.Some? {
            heldLocks := heldLocks - {lock.value};
          }
          if concurrency == Global {
            globalRunning := false;
          }
        case _ =>
      }
    }

    /** Record a completion message: the report, and the halt it may cause. */
    method Absorb(i: nat, status: StepStatus)
      requires i in flight && i < c.Size() && Now().Sized(c.Size())
      modifies this`reports, this`completed, this`halted, this`cancelled, this`inFlight, this`idle,
               this`runningExclusive, this`heldLocks, this`globalRunning, this`flight
      ensures Now() == Settled(c, old(Now()), i, status)
      ensures completed == old(completed)[i := true]
    {
      hide Release;
      ReleaseStep(i);
      completed := completed[i := true];
      if status == Error && !c.continueOnError {
        halted := true;
      } else if status == RebootRequired && c.mode == Apply {
        halted := true;
      }
      if halted {
        cancelled := true;
      }
      reports := reports[i := Some(status)];
    }

    /** Take one completion off the channel: step i's, chosen by the environment. */
    method ReceiveDone(i: nat, interrupted: bool)
      requires Valid() && MayReceive(c, Now(), i, interrupted)
      modifies this
      ensures Valid() && acts == old(acts) + [Take(i, interrupted)]
      ensures Now() == Receive(c, old(Now()), i, interrupted)
      ensures completed == old(completed)[i := true]
    {
      hide Inv, After, Setup.LegalOutcome, Settled;
      ghost var s := Now();
      Absorb(i, Reported(c, i, interrupted));
      acts := acts + [Take(i, interrupted)];
      AfterOneMore(c, old(acts), Take(i, interrupted));
      ReceiveKeepsInv(c, s, i, interrupted);
    }

    /** The scheduler's loop. The environment picks, each time round, which step in
        flight reports next and whether the cancellation reached it first; the
        deadlock guard, the bare retry and the "never reported" fallback are
        unreachable, so they have no counterpart here. */
    method Execute() returns (statuses: seq<StepStatus>)
      requires Valid() && Acyclic(c.deps) && inFlight == 0
      modifies this
      ensures Valid() && Quiet(c, Now())
      ensures Finished(c, Now(), statuses)
      ensures forall i: nat :: i < c.Size() ==>
                statuses[i] == c.Verdict(i) || (halted && statuses[i] == NotRun)
      ensures halted <==> exists i: nat :: i < c.Size() && c.Halting(c.Verdict(i))
    {
      hide After, Visit, Pending, Inv, Settled, Setup.LegalOutcome;
      assert !globalRunning by {
        NothingGlobal(c, Now());
      }
      while true
        invariant Valid() && !globalRunning
        decreases |Pending(completed)|
      {
        ghost var before := completed;
        Dispatch();
        FlightCounted(c, Now());
        if inFlight == 0 {
          break;
        }
        var i :| i in flight;
        var interrupted: bool := *;
        interrupted := interrupted && cancelled && c.Cancellable(i);
        ghost var s := Now();
        ReceiveDone(i, interrupted);
        PendingShrinks(before, completed);
        ReceiveEndsGlobal(c, s, i, interrupted);
      }
      NothingGlobal(c, Now());
      FinishedRun(c, acts);
      var last := reports;
      statuses := seq(c.Size(), i requires 0 <= i < |last| && last[i].Some? => last[i].value);
    }
  }

  /** What the end of any run means, gathered for the loop's exit. */
  lemma FinishedRun(c: Setup, acts: seq<Action>)
    requires c.Valid() && Acyclic(c.deps) && Quiet(c, After(c, acts))
    ensures var s := After(c, acts);
            && (s.halted <==> exists i: nat :: i < c.Size() && c.Halting(c.Verdict(i)))
            && forall i: nat :: i < c.Size() ==>
                 s.reports[i].Some? &&
                 (s.reports[i].value == c.Verdict(i) || (s.halted && s.reports[i].value == NotRun))
  {
    Progress(c, acts);
    ReachableSound(c, acts);
    HaltedIffHaltingVerdict(c, acts);
  }

  lemma ReceiveEndsGlobal(c: Setup, s: State, i: nat, interrupted: bool)
    requires c.Valid() && Inv(c, s) && MayReceive(c, s, i, interrupted)
    ensures !Receive(c, s, i, interrupted).globalRunning
  {
    if s.globalRunning {
      OnlyOne(s.flight, i);
    }
  }

  lemma NothingGlobal(c: Setup, s: State)
    requires c.Valid() && Inv(c, s) && s.inFlight == 0
    ensures s.flight == map[] && !s.globalRunning
  {
  }

  lemma FlightCounted(c: Setup, s: State)
    requires c.Valid() && Inv(c, s)
    ensures s.inFlight == 0 <==> s.flight == map[]
    ensures forall i :: i in s.flight ==> i < c.Size() && !s.completed[i]
  {
  }
}
