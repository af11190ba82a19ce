/** The scheduler as a state machine on values. One `Visit` is one turn of the
    dispatch scan, one `Receive` is one completion taken from the channel; a run
    is any sequence of both (src/engine/run.rs:505-868). */
module Schedule {
  import opened Wrappers
  import opened Status
  import opened Plans

  /** The local variables of the scheduler. `flight` is what the channels hold:
      the steps sent out and not yet reported back, each with its pool worker
      (None for a wait step, which has a thread of its own). */
  datatype State = State(
    reports: seq<Option<StepStatus>>,
    dispatched: seq<bool>,
    completed: seq<bool>,
    halted: bool,
    cancelled: bool,
    inFlight: int,
    runningExclusive: set<string>,
    heldLocks: set<(string, string)>,
    globalRunning: bool,
    idle: seq<nat>,
    flight: map<nat, Option<nat>>)
  {
    predicate Sized(n: nat)
    {
      |reports| == |dispatched| == |completed| == n
    }
  }

  function Init(c: Setup): State
  {
    State(seq(c.Size(), _ => None), seq(c.Size(), _ => false), seq(c.Size(), _ => false), false, false, 0,
          {}, {}, false, seq(c.workers, w => w), map[])
  }

  predicate DepsSatisfied(c: Setup, s: State, i: nat)
    requires c.Valid() && s.Sized(c.Size()) && i < c.Size()
  {
    forall d :: d in c.deps[i] ==> s.completed[d]
  }

  predicate Blocked(c: Setup, s: State, i: nat)
    requires c.Valid() && s.Sized(c.Size()) && i < c.Size()
  {
    exists d :: d in c.deps[i] && s.reports[d] in {Some(Error), Some(NotRun)}
  }

  /** Complete a step on the spot, without running anything. */
  function Resolve(s: State, i: nat, status: StepStatus): State
    requires i < |s.reports| && s.Sized(|s.reports|)
  {
    s.(dispatched := s.dispatched[i := true], completed := s.completed[i := true],
       reports := s.reports[i := Some(status)])
  }

  function Halt(s: State): State
  {
    s.(halted := true, cancelled := true)
  }

  /** Start a wait step on a thread of its own. */
  function StartWait(s: State, i: nat): State
    requires i < |s.dispatched|
  {
    s.(dispatched := s.dispatched[i := true], inFlight := s.inFlight + 1, flight := s.flight[i := None])
  }

  /** Whether the concurrency gates let step i onto a worker now. */
  predicate MayRun(c: Setup, s: State, i: nat)
    requires i < c.Size() && c.plans[i].Run?
  {
    var Run(key, concurrency, lock) := c.plans[i];
    && !s.globalRunning
    && s.idle != []
    && !(c.sequential && s.inFlight > 0)
    && (concurrency == Exclusive ==> key !in s.runningExclusive)
    && (concurrency == Global ==> s.inFlight <= 0)
    && (lock.Some? ==> lock.value !in s.heldLocks)
  }

  /** Hand step i to the worker at the head of the idle queue. */
  function StartRun(c: Setup, s: State, i: nat): State
    requires i < c.Size() && c.plans[i].Run? && i < |s.dispatched| && s.idle != []
  {
    s.(dispatched := s.dispatched[i := true],
       inFlight := s.inFlight + 1,
       idle := s.idle[1..],
       runningExclusive := if c.IsExclusive(i) then s.runningExclusive + {c.plans[i].resourceKey}
                           else s.runningExclusive,
       heldLocks := if c.Locks(i) then s.heldLocks + {c.plans[i].lock.value} else s.heldLocks,
       globalRunning := s.globalRunning || c.IsGlobal(i),
       flight := s.flight[i := Some(s.idle[0])])
  }

  /** One turn of the dispatch scan: what looking at step i does. */
  function Visit(c: Setup, s: State, i: nat): State
    requires c.Valid() && s.Sized(c.Size()) && i < c.Size()
  {
    if s.dispatched[i] || !DepsSatisfied(c, s, i) then s
    else if s.halted || (c.mode == Apply && Blocked(c, s, i)) then Resolve(s, i, NotRun)
    else match c.plans[i]
      case Skip => Resolve(s, i, Skipped)
      case Fail =>
        var r := Resolve(s, i, Error);
        if c.continueOnError then r else Halt(r)
      case Wait(_) =>
        if s.globalRunning || (c.sequential && s.inFlight > 0) then s else StartWait(s, i)
      case Run(_, _, _) =>
        if MayRun(c, s, i) then StartRun(c, s, i) else s
  }

  /** What step i's completion message says: its own outcome, or NotRun for a
      waiter the halted run cancelled. */
  function Reported(c: Setup, i: nat, interrupted: bool): StepStatus
    requires c.Valid() && i < c.Size()
  {
    if interrupted then NotRun else c.outcomes[i]
  }

  /** Whether step i's completion message can be the next one received. */
  predicate MayReceive(c: Setup, s: State, i: nat, interrupted: bool)
    requires c.Valid()
  {
    i in s.flight && i < c.Size() && (interrupted ==> s.cancelled && c.Cancellable(i))
  }

  /** Give back what step i held: its worker, its exclusive key, its lock, the global slot. */
  function Release(c: Setup, s: State, i: nat): State
    requires i in s.flight && i < c.Size()
  {
    s.(inFlight := s.inFlight - 1,
       idle := if s.flight[i].Some? then s.idle + [s.flight[i].value] else s.idle,
       runningExclusive := if c.IsExclusive(i) then s.runningExclusive - {c.plans[i].resourceKey}
                           else s.runningExclusive,
       heldLocks := if c.Locks(i) then s.heldLocks - {c.plans[i].lock.value} else s.heldLocks,
       globalRunning := s.globalRunning && !c.IsGlobal(i),
       flight := s.flight - {i})
  }

  /** Take one completion message off the channel. */
  function Receive(c: Setup, s: State, i: nat, interrupted: bool): State
    requires c.Valid() && s.Sized(c.Size()) && MayReceive(c, s, i, interrupted)
  {
    Settled(c, s, i, Reported(c, i, interrupted))
  }

  /** The state once step i has reported `status`. */
  function Settled(c: Setup, s: State, i: nat, status: StepStatus): State
    requires s.Sized(c.Size()) && i in s.flight && i < c.Size()
  {
    var r := Release(c, s, i).(completed := s.completed[i := true], reports := s.reports[i := Some(status)]);
    if s.halted || c.Halting(status) then Halt(r) else r
  }

  datatype Action = Look(step: nat) | Take(step: nat, interrupted: bool)

  /** One action; an action the state does not allow changes nothing. */
  function Do(c: Setup, s: State, a: Action): (r: State)
    requires c.Valid() && s.Sized(c.Size())
    ensures r.Sized(c.Size())
  {
    match a
    case Look(i) => if i < c.Size() then Visit(c, s, i) else s
    case Take(i, interrupted) => if MayReceive(c, s, i, interrupted) then Receive(c, s, i, interrupted) else s
  }

  /** The state after a run: every interleaving of scans and completions is some
      sequence of actions. */
  function After(c: Setup, acts: seq<Action>): (r: State)
    requires c.Valid()
    ensures r.Sized(c.Size())
  {
    if acts == [] then Init(c) else Do(c, After(c, acts[..|acts| - 1]), acts[|acts| - 1])
  }

  /** A run is over when nothing is in flight and no scan would change anything. */
  predicate Quiet(c: Setup, s: State)
    requires c.Valid() && s.Sized(c.Size())
  {
    s.flight == map[] && forall i :: 0 <= i < c.Size() ==> Visit(c, s, i) == s
  }
}
