/** What every reachable scheduler state keeps: the progress flags agree with the
    reports, and the bookkeeping mirrors the steps in flight exactly. */
module ScheduleInvariant {
  import opened Wrappers
  import opened Status
  import opened Plans
  import opened Schedule

  type Flight = map<nat, Option<nat>>

  /** The per-step flags and reports tell one story. */
  ghost predicate Flags(c: Setup, s: State)
    requires c.Valid()
  {
    && s.Sized(c.Size())
    && (forall i :: i in s.flight ==> i < c.Size())
    && (forall i: nat :: i < c.Size() ==> (i in s.flight <==> s.dispatched[i] && !s.completed[i]))
    && (forall i: nat :: i < c.Size() ==> (s.completed[i] <==> s.reports[i].Some?))
    && (forall i: nat :: i < c.Size() && s.completed[i] ==> s.dispatched[i])
    && (forall i: nat :: i < c.Size() && s.dispatched[i] ==> DepsSatisfied(c, s, i))
  }

  ghost predicate Busy(flight: Flight, w: nat)
  {
    exists i :: i in flight && flight[i] == Some(w)
  }

  /** The in-flight counter and the pool: every worker is idle once or busy with one step. */
  ghost predicate Pool(c: Setup, flight: Flight, inFlight: int, idle: seq<nat>)
  {
    && inFlight == |flight|
    && (forall i :: i in flight ==> i < c.Size() && (c.plans[i].Run? || c.plans[i].Wait?))
    && (forall i :: i in flight ==> (flight[i].Some? <==> c.plans[i].Run?))
    && (forall i :: i in flight && flight[i].Some? ==> flight[i].value < c.workers)
    && (forall i, j :: i in flight && j in flight && i != j && flight[i].Some? ==> flight[i] != flight[j])
    && Idle(c.workers, flight, idle)
  }

  /** The idle queue holds each worker that is not busy, once. */
  ghost predicate Idle(workers: nat, flight: Flight, idle: seq<nat>)
  {
    && (forall k, l :: 0 <= k < l < |idle| ==> idle[k] != idle[l])
    && (forall w :: w in idle ==> w < workers && !Busy(flight, w))
    && (forall w: nat :: w < workers ==> w in idle || Busy(flight, w))
  }

  ghost predicate KeyRunning(c: Setup, flight: Flight, key: string)
  {
    exists i :: i in flight && i < c.Size() && c.IsExclusive(i) && c.plans[i].resourceKey == key
  }

  ghost predicate LockRunning(c: Setup, flight: Flight, l: (string, string))
  {
    exists i :: i in flight && i < c.Size() && c.Locks(i) && c.plans[i].lock.value == l
  }

  ghost predicate GlobalRunning(c: Setup, flight: Flight)
  {
    exists i :: i in flight && i < c.Size() && c.IsGlobal(i)
  }

  /** What is marked exclusive is what is in flight, and no key is marked twice. */
  ghost predicate KeysMirror(c: Setup, flight: Flight, keys: set<string>)
  {
    && (forall key :: key in keys <==> KeyRunning(c, flight, key))
    && (forall i, j :: i in flight && j in flight && i < c.Size() && j < c.Size() && i != j
                       && c.IsExclusive(i) && c.IsExclusive(j) ==>
          c.plans[i].resourceKey != c.plans[j].resourceKey)
  }

  ghost predicate LocksMirror(c: Setup, flight: Flight, locks: set<(string, string)>)
  {
    && (forall l :: l in locks <==> LockRunning(c, flight, l))
    && (forall i, j :: i in flight && j in flight && i < c.Size() && j < c.Size() && i != j
                       && c.Locks(i) && c.Locks(j) ==>
          c.plans[i].lock != c.plans[j].lock)
  }

  /** A global step is alone, and a sequential play has one step at a time. */
  ghost predicate SoloMirror(c: Setup, flight: Flight, globalRunning: bool)
  {
    && (globalRunning <==> GlobalRunning(c, flight))
    && (globalRunning || c.sequential ==> |flight| <= 1)
  }

  /** Halting is exactly "some step ended in a halting status". */
  ghost predicate HaltReason(c: Setup, reports: seq<Option<StepStatus>>, halted: bool)
  {
    halted <==> exists i :: 0 <= i < |reports| && reports[i].Some? && c.Halting(reports[i].value)
  }

  ghost predicate Inv(c: Setup, s: State)
    requires c.Valid()
  {
    && Flags(c, s)
    && Pool(c, s.flight, s.inFlight, s.idle)
    && KeysMirror(c, s.flight, s.runningExclusive)
    && LocksMirror(c, s.flight, s.heldLocks)
    && SoloMirror(c, s.flight, s.globalRunning)
    && HaltReason(c, s.reports, s.halted)
    && s.cancelled == s.halted
  }

  // ------------------------------------------------------------------ starting

  lemma InitPool(c: Setup)
    requires c.Valid()
    ensures Pool(c, map[], 0, Init(c).idle)
  {
    var idle := Init(c).idle;
    forall w: nat | w < c.workers ensures w in idle {
      assert idle[w] == w;
    }
  }

  lemma AddBusy(flight: Flight, i: nat, w: Option<nat>, v: nat)
    requires i !in flight
    ensures Busy(flight[i := w], v) <==> Busy(flight, v) || Some(v) == w
  {
    var flight' := flight[i := w];
    if Busy(flight, v) {
      var j :| j in flight && flight[j] == Some(v);
      assert flight'[j] == Some(v);
    }
    if Some(v) == w {
      assert flight'[i] == Some(v);
    }
  }

  lemma AddToPool(c: Setup, flight: Flight, inFlight: int, idle: seq<nat>, i: nat, w: Option<nat>)
    requires Pool(c, flight, inFlight, idle) && i !in flight && i < c.Size()
    requires if w.Some? then c.plans[i].Run? && idle != [] && w.value == idle[0] else c.plans[i].Wait?
    ensures Pool(c, flight[i := w], inFlight + 1, if w.Some? then idle[1..] else idle)
  {
    var flight' := flight[i := w];
    var idle' := if w.Some? then idle[1..] else idle;
    assert |flight'| == |flight| + 1;
    if w.Some? {
      assert !Busy(flight, idle[0]);
    }
    forall v: nat | v < c.workers ensures v in idle' || Busy(flight', v) {
      AddBusy(flight, i, w, v);
      assert w.Some? ==> idle == [idle[0]] + idle';
    }
    forall v | v in idle' ensures v < c.workers && !Busy(flight', v) {
      AddBusy(flight, i, w, v);
    }
  }

  lemma AddToKeys(c: Setup, flight: Flight, keys: set<string>, i: nat, w: Option<nat>)
    requires KeysMirror(c, flight, keys) && i !in flight && i < c.Size()
    requires c.IsExclusive(i) ==> c.plans[i].resourceKey !in keys
    ensures KeysMirror(c, flight[i := w], if c.IsExclusive(i) then keys + {c.plans[i].resourceKey} else keys)
  {
  }

  lemma AddToLocks(c: Setup, flight: Flight, locks: set<(string, string)>, i: nat, w: Option<nat>)
    requires LocksMirror(c, flight, locks) && i !in flight && i < c.Size()
    requires c.Locks(i) ==> c.plans[i].lock.value !in locks
    ensures LocksMirror(c, flight[i := w], if c.Locks(i) then locks + {c.plans[i].lock.value} else locks)
  {
  }

  lemma AddSolo(c: Setup, flight: Flight, globalRunning: bool, i: nat, w: Option<nat>)
    requires SoloMirror(c, flight, globalRunning) && !globalRunning && i !in flight && i < c.Size()
    requires c.IsGlobal(i) || c.sequential ==> |flight| == 0
    ensures SoloMirror(c, flight[i := w], c.IsGlobal(i))
  {
  }

  // ----------------------------------------------------------------- finishing

  lemma RemoveBusy(c: Setup, flight: Flight, inFlight: int, idle: seq<nat>, i: nat, v: nat)
    requires Pool(c, flight, inFlight, idle) && i in flight
    ensures Busy(flight - {i}, v) <==> Busy(flight, v) && Some(v) != flight[i]
  {
    if Busy(flight, v) && Some(v) != flight[i] {
      var j :| j in flight && flight[j] == Some(v);
      assert j in flight - {i};
    }
    if Busy(flight - {i}, v) {
      var j :| j in flight - {i} && flight[j] == Some(v);
      assert flight[j] != flight[i];
    }
  }

  lemma RemoveFromIdle(workers: nat, flight: Flight, idle: seq<nat>, i: nat)
    requires i in flight && (flight[i].Some? ==> flight[i].value < workers) && Idle(workers, flight, idle)
    requires forall v: nat :: Busy(flight - {i}, v) <==> Busy(flight, v) && Some(v) != flight[i]
    ensures Idle(workers, flight - {i}, if flight[i].Some? then idle + [flight[i].value] else idle)
  {
    var idle' := if flight[i].Some? then idle + [flight[i].value] else idle;
    if flight[i].Some? {
      assert Busy(flight, flight[i].value);
    }
    hide Busy;
    assert forall v :: v in idle' <==> v in idle || flight[i] == Some(v);
  }

  lemma RemoveFromPool(c: Setup, flight: Flight, inFlight: int, idle: seq<nat>, i: nat)
    requires Pool(c, flight, inFlight, idle) && i in flight
    ensures Pool(c, flight - {i}, inFlight - 1, if flight[i].Some? then idle + [flight[i].value] else idle)
  {
    var flight' := flight - {i};
    assert flight'.Keys == flight.Keys - {i};
    forall v: nat ensures Busy(flight', v) <==> Busy(flight, v) && Some(v) != flight[i] {
      RemoveBusy(c, flight, inFlight, idle, i, v);
    }
    RemoveFromIdle(c.workers, flight, idle, i);
    hide Idle, Busy;
  }

  lemma RemoveFromKeys(c: Setup, flight: Flight, keys: set<string>, i: nat)
    requires KeysMirror(c, flight, keys) && i in flight && i < c.Size()
    ensures KeysMirror(c, flight - {i}, if c.IsExclusive(i) then keys - {c.plans[i].resourceKey} else keys)
  {
  }

  lemma RemoveFromLocks(c: Setup, flight: Flight, locks: set<(string, string)>, i: nat)
    requires LocksMirror(c, flight, locks) && i in flight && i < c.Size()
    ensures LocksMirror(c, flight - {i}, if c.Locks(i) then locks - {c.plans[i].lock.value} else locks)
  {
  }

  lemma OnlyOne(flight: Flight, i: nat)
    requires |flight| <= 1 && i in flight
    ensures flight.Keys == {i}
  {
    assert |flight.Keys - {i}| == 0;
  }

  lemma RemoveSolo(c: Setup, flight: Flight, globalRunning: bool, i: nat)
    requires SoloMirror(c, flight, globalRunning) && i in flight && i < c.Size()
    ensures SoloMirror(c, flight - {i}, globalRunning && !c.IsGlobal(i))
  {
  }

  // ---------------------------------------------------------------- one action

  lemma ReportKeepsHaltReason(c: Setup, reports: seq<Option<StepStatus>>, halted: bool, i: nat, status: StepStatus)
    requires HaltReason(c, reports, halted) && i < |reports| && reports[i].None?
    ensures HaltReason(c, reports[i := Some(status)], halted || c.Halting(status))
  {
    var reports' := reports[i := Some(status)];
    if halted {
      var j :| 0 <= j < |reports| && reports[j].Some? && c.Halting(reports[j].value);
      assert reports'[j] == reports[j];
    }
    assert reports'[i] == Some(status);
  }

  lemma ResolveKeepsFlags(c: Setup, s: State, i: nat, status: StepStatus)
    requires c.Valid() && Flags(c, s) && i < c.Size() && !s.dispatched[i] && DepsSatisfied(c, s, i)
    ensures Flags(c, Resolve(s, i, status))
  {
    assert i !in s.flight;
    var r := Resolve(s, i, status);
    forall j: nat | j < c.Size() && r.dispatched[j] ensures DepsSatisfied(c, r, j) {
      assert DepsSatisfied(c, s, j);
    }
  }

  lemma StartKeepsFlags(c: Setup, s: State, r: State, i: nat)
    requires c.Valid() && Flags(c, s) && i < c.Size() && !s.dispatched[i] && DepsSatisfied(c, s, i)
    requires r.dispatched == s.dispatched[i := true] && r.completed == s.completed && r.reports == s.reports
    requires r.flight.Keys == s.flight.Keys + {i}
    ensures Flags(c, r)
  {
    forall j: nat | j < c.Size() && r.dispatched[j] ensures DepsSatisfied(c, r, j) {
      assert DepsSatisfied(c, s, j);
    }
  }

  lemma ReceiveKeepsFlags(c: Setup, s: State, i: nat, interrupted: bool)
    requires c.Valid() && Flags(c, s) && MayReceive(c, s, i, interrupted)
    ensures Flags(c, Receive(c, s, i, interrupted))
  {
    hide Setup.LegalOutcome;
    var r := Receive(c, s, i, interrupted);
    assert r.flight.Keys == s.flight.Keys - {i};
    assert r.dispatched == s.dispatched && r.completed == s.completed[i := true];
    forall j: nat | j < c.Size() && r.dispatched[j] ensures DepsSatisfied(c, r, j) {
      assert DepsSatisfied(c, s, j);
    }
  }

  /** The bookkeeping half of starting step i, whatever thread it goes to. */
  lemma StartKeepsMirrors(c: Setup, s: State, i: nat, w: Option<nat>)
    requires c.Valid() && Inv(c, s) && i < c.Size() && i !in s.flight
    requires if w.Some? then c.plans[i].Run? && MayRun(c, s, i) && w.value == s.idle[0]
             else c.plans[i].Wait? && !s.globalRunning && !(c.sequential && s.inFlight > 0)
    ensures Pool(c, s.flight[i := w], s.inFlight + 1, if w.Some? then s.idle[1..] else s.idle)
    ensures KeysMirror(c, s.flight[i := w],
                       if c.IsExclusive(i) then s.runningExclusive + {c.plans[i].resourceKey} else s.runningExclusive)
    ensures LocksMirror(c, s.flight[i := w], if c.Locks(i) then s.heldLocks + {c.plans[i].lock.value} else s.heldLocks)
    ensures SoloMirror(c, s.flight[i := w], c.IsGlobal(i))
  {
    AddToPool(c, s.flight, s.inFlight, s.idle, i, w);
    AddToKeys(c, s.flight, s.runningExclusive, i, w);
    AddToLocks(c, s.flight, s.heldLocks, i, w);
    AddSolo(c, s.flight, s.globalRunning, i, w);
  }

  lemma StartWaitKeepsInv(c: Setup, s: State, i: nat)
    requires c.Valid() && Inv(c, s) && i < c.Size() && !s.dispatched[i] && DepsSatisfied(c, s, i)
    requires c.plans[i].Wait? && !s.globalRunning && !(c.sequential && s.inFlight > 0)
    ensures Inv(c, StartWait(s, i))
  {
    hide Pool, KeysMirror, LocksMirror, SoloMirror, HaltReason;
    StartKeepsFlags(c, s, StartWait(s, i), i);
    StartKeepsMirrors(c, s, i, None);
  }

  lemma StartRunKeepsInv(c: Setup, s: State, i: nat)
    requires c.Valid() && Inv(c, s) && i < c.Size() && !s.dispatched[i] && DepsSatisfied(c, s, i)
    requires c.plans[i].Run? && MayRun(c, s, i)
    ensures Inv(c, StartRun(c, s, i))
  {
    hide Pool, KeysMirror, LocksMirror, SoloMirror, HaltReason;
    StartKeepsFlags(c, s, StartRun(c, s, i), i);
    StartKeepsMirrors(c, s, i, Some(s.idle[0]));
  }

  lemma ResolveKeepsInv(c: Setup, s: State, i: nat, status: StepStatus)
    requires c.Valid() && Inv(c, s) && i < c.Size() && !s.dispatched[i] && DepsSatisfied(c, s, i)
    ensures var r := Resolve(s, i, status); Inv(c, if c.Halting(status) then Halt(r) else r)
  {
    ResolveKeepsFlags(c, s, i, status);
    assert s.reports[i].None?;
    ReportKeepsHaltReason(c, s.reports, s.halted, i, status);
  }

  lemma VisitKeepsInv(c: Setup, s: State, i: nat)
    requires c.Valid() && Inv(c, s) && i < c.Size()
    ensures Inv(c, Visit(c, s, i))
  {
    if s.dispatched[i] || !DepsSatisfied(c, s, i) {
    } else if s.halted || (c.mode == Apply && Blocked(c, s, i)) {
      ResolveKeepsInv(c, s, i, NotRun);
    } else {
      match c.plans[i]
      case Skip => ResolveKeepsInv(c, s, i, Skipped);
      case Fail => ResolveKeepsInv(c, s, i, Error);
      case Wait(_) =>
        if !(s.globalRunning || (c.sequential && s.inFlight > 0)) {
          StartWaitKeepsInv(c, s, i);
        }
      case Run(_, _, _) =>
        if MayRun(c, s, i) {
          StartRunKeepsInv(c, s, i);
        }
    }
  }

  lemma ReceiveKeepsInv(c: Setup, s: State, i: nat, interrupted: bool)
    requires c.Valid() && Inv(c, s) && MayReceive(c, s, i, interrupted)
    ensures Inv(c, Receive(c, s, i, interrupted))
  {
    ReceiveKeepsFlags(c, s, i, interrupted);
    RemoveFromPool(c, s.flight, s.inFlight, s.idle, i);
    RemoveFromKeys(c, s.flight, s.runningExclusive, i);
    RemoveFromLocks(c, s.flight, s.heldLocks, i);
    RemoveSolo(c, s.flight, s.globalRunning, i);
    assert s.reports[i].None?;
    ReportKeepsHaltReason(c, s.reports, s.halted, i, Reported(c, i, interrupted));
  }

  lemma DoKeepsInv(c: Setup, s: State, a: Action)
    requires c.Valid() && Inv(c, s)
    ensures Inv(c, Do(c, s, a))
  {
    match a
    case Look(i) => if i < c.Size() { VisitKeepsInv(c, s, i); }
    case Take(i, interrupted) => if MayReceive(c, s, i, interrupted) { ReceiveKeepsInv(c, s, i, interrupted); }
  }

  /** Every reachable state satisfies the invariant. */
  lemma {:induction false} Reachable(c: Setup, acts: seq<Action>)
    requires c.Valid()
    ensures Inv(c, After(c, acts))
  {
    if acts == [] {
      InitPool(c);
    } else {
      Reachable(c, acts[..|acts| - 1]);
      DoKeepsInv(c, After(c, acts[..|acts| - 1]), acts[|acts| - 1]);
    }
  }

  // ---------------------------------------------------------------- exclusion

  /** The exclusion promises of the concurrency classes, locks, sequential plays
      and the worker pool, for any two steps in flight in any state of any run. */
  lemma ExclusionInEveryRun(c: Setup, acts: seq<Action>, i: nat, j: nat)
    requires c.Valid()
    requires i in After(c, acts).flight && j in After(c, acts).flight && i != j
    ensures i < c.Size() && j < c.Size()
    ensures !c.IsGlobal(i) && !c.sequential
    ensures !(c.IsExclusive(i) && c.IsExclusive(j) && c.plans[i].resourceKey == c.plans[j].resourceKey)
    ensures !(c.Locks(i) && c.Locks(j) && c.plans[i].lock == c.plans[j].lock)
    ensures After(c, acts).flight[i].Some? ==> After(c, acts).flight[i] != After(c, acts).flight[j]
  {
    Reachable(c, acts);
    var flight := After(c, acts).flight;
    if c.IsGlobal(i) || c.sequential {
      assert c.IsGlobal(i) ==> GlobalRunning(c, flight);
      OnlyOne(flight, i);
      assert false;
    }
  }

  /** The sets, the counter and the idle queue mirror the steps in flight exactly. */
  lemma BookkeepingMirrorsFlight(c: Setup, acts: seq<Action>)
    requires c.Valid()
    ensures var s := After(c, acts);
            && (forall i :: i in s.flight ==> i < c.Size())
            && s.runningExclusive == (set i | i in s.flight && c.IsExclusive(i) :: c.plans[i].resourceKey)
            && s.heldLocks == (set i | i in s.flight && c.Locks(i) :: c.plans[i].lock.value)
            && (s.globalRunning <==> exists i :: i in s.flight && c.IsGlobal(i))
            && s.inFlight == |s.flight|
            && (forall w: nat :: w < c.workers ==> (w in s.idle <==> Some(w) !in s.flight.Values))
            && (forall k, l :: 0 <= k < l < |s.idle| ==> s.idle[k] != s.idle[l])
  {
    Reachable(c, acts);
    var s := After(c, acts);
    forall key ensures KeyRunning(c, s.flight, key) <==>
                       key in (set i | i in s.flight && c.IsExclusive(i) :: c.plans[i].resourceKey) {
    }
    forall l ensures LockRunning(c, s.flight, l) <==>
                     l in (set i | i in s.flight && c.Locks(i) :: c.plans[i].lock.value) {
    }
    forall w: nat | w < c.workers ensures w in s.idle <==> Some(w) !in s.flight.Values {
      assert Busy(s.flight, w) <==> Some(w) in s.flight.Values;
    }
  }
}
