/** What the planner hands the scheduler for one play: a plan per step, the
    dependency lists, and the environment the steps run in
    (src/engine/run.rs:67-84, src/engine/dag.rs:20-25). */
module Plans {
  import opened Wrappers
  import opened Status

  datatype Concurrency = Parallel | Exclusive | Global

  datatype Plan =
    | Skip
    | Fail
    | Run(resourceKey: string, concurrency: Concurrency, lock: Option<(string, string)>)
    | Wait(probeKey: string)

  /** A dependency graph is acyclic when some ranking decreases along every edge. */
  ghost predicate IsRank(deps: seq<seq<nat>>, rank: seq<nat>)
  {
    && |rank| == |deps|
    && forall i, d :: 0 <= i < |deps| && d in deps[i] ==> d < |deps| && rank[d] < rank[i]
  }

  ghost predicate Acyclic(deps: seq<seq<nat>>)
  {
    exists rank :: IsRank(deps, rank)
  }

  ghost function RankOf(deps: seq<seq<nat>>): (rank: seq<nat>)
    requires Acyclic(deps)
    ensures IsRank(deps, rank)
  {
    var rank :| IsRank(deps, rank); rank
  }

  /** One scheduling problem. `outcomes[i]` is the status step i reports when it
      runs to its end; every step finishes at most once, so fixing these in
      advance describes every possible environment. `resources` and `probes`
      are the keys with a compiled script. */
  datatype Setup = Setup(
    mode: Mode,
    continueOnError: bool,
    workers: nat,
    sequential: bool,
    plans: seq<Plan>,
    deps: seq<seq<nat>>,
    resources: set<string>,
    probes: set<string>,
    outcomes: seq<StepStatus>)
  {
    ghost predicate Valid()
    {
      && |deps| == |plans| == |outcomes|
      && workers >= 1
      && (forall i, d :: 0 <= i < |deps| && d in deps[i] ==> d < |deps|)
      && (forall i :: 0 <= i < |plans| ==> LegalOutcome(i, outcomes[i]))
    }

    function Size(): nat { |plans| }

    /** The statuses a dispatched step can report of its own accord. */
    predicate LegalOutcome(i: nat, status: StepStatus)
      requires i < |plans|
    {
      match plans[i]
      case Run(key, _, _) =>
        if key !in resources then status == Error
        else if mode == Check then status in {AlreadyConfigured, RebootRequired, NotConfigured, Error}
        else status in {AlreadyConfigured, RebootRequired, Configured, Error}
      case Wait(key) =>
        if key !in probes then status == Error
        else if mode == Check then status in {AlreadyConfigured, NotConfigured, Error}
        else status in {AlreadyConfigured, Configured, Error}
      case _ => true
    }

    /** A waiter with a compiled probe that sleeps: only these can be cancelled. */
    predicate Cancellable(i: nat)
      requires i < |plans|
    {
      mode == Apply && plans[i].Wait? && plans[i].probeKey in probes
    }

    /** The statuses that stop dispatching. */
    predicate Halting(status: StepStatus)
    {
      || (status == Error && !continueOnError)
      || (status == RebootRequired && mode == Apply)
    }

    predicate IsExclusive(i: nat)
      requires i < |plans|
    {
      plans[i].Run? && plans[i].concurrency == Exclusive
    }

    predicate IsGlobal(i: nat)
      requires i < |plans|
    {
      plans[i].Run? && plans[i].concurrency == Global
    }

    predicate Locks(i: nat)
      requires i < |plans|
    {
      plans[i].Run? && plans[i].lock.Some?
    }

    /** What each step must end as when nothing halts the run: the independent
        specification the scheduler is compared with. */
    ghost function Verdict(i: nat): StepStatus
      requires Valid() && Acyclic(deps) && i < |plans|
      decreases RankOf(deps)[i]
    {
      if mode == Apply && exists d :: d in deps[i] && Verdict(d) in {Error, NotRun} then NotRun
      else match plans[i]
        case Skip => Skipped
        case Fail => Error
        case _ => outcomes[i]
    }
  }
}
