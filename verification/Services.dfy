/** Driving a service to a state, and stopping or restarting it with its dependents
    (src/hostapi/service.rs:147-333). Durations are milliseconds. */
module Services {
  import opened Wrappers
  import opened Sequences

  const STOPPED: nat := 1
  const RUNNING: nat := 4
  const PAUSED: nat := 7

  datatype Target = Running | Stopped

  datatype Action = Start | Continue | Stop

  datatype Plan = Done | Act(action: Action) | Wait

  function StateOf(t: Target): nat
  {
    if t.Running? then RUNNING else STOPPED
  }

  function PlanFor(t: Target, state: nat): Plan
  {
    if state == StateOf(t) then Done
    else if t.Running? && state == STOPPED then Act(Start)
    else if t.Running? && state == PAUSED then Act(Continue)
    else if t.Stopped? && (state == RUNNING || state == PAUSED) then Act(Stop)
    else Wait
  }

  // ---------------------------------------------------------------- one service

  /** One observation: the state and the service's hint on how long it will take. */
  datatype Observed = Observed(state: nat, waitHint: nat)

  /** The service manager and the clock: the k-th query, whether acting works, and how much time
      passes, besides the sleeps, before the k-th reading of the clock. */
  datatype Scm = Scm(query: nat -> Option<Observed>, acts: Action -> bool, delay: nat -> nat)

  datatype Outcome = Reached | QueryFailed | ActFailed | FellBack | TimedOut

  /** A tenth of the hint, between 100ms and a second. */
  function PollInterval(hint: nat): (d: nat)
    ensures 100 <= d <= 1000
  {
    if hint / 10 < 100 then 100 else if hint / 10 > 1000 then 1000 else hint / 10
  }

  /** What `drive` did: its queries, the actions it issued, and the time it stopped at. */
  datatype Trace = Trace(queries: nat, actions: seq<Action>, now: nat)

  /** Wait out pending states, act at most once, poll until the target state or the timeout. */
  method Drive(t: Target, timeout: nat, scm: Scm) returns (r: Outcome, trace: Trace)
    ensures trace.queries >= 1 && trace.queries <= CeilDiv(timeout, 100) + 2
    ensures |trace.actions| <= 1
    ensures forall a :: a in trace.actions ==>
              exists k :: 0 <= k < trace.queries && scm.query(k).Some? && PlanFor(t, scm.query(k).value.state) == Act(a)
    ensures r.Reached? <==> scm.query(trace.queries - 1).Some? && scm.query(trace.queries - 1).value.state == StateOf(t)
    ensures forall k :: 0 <= k < trace.queries - 1 ==> scm.query(k).Some? && scm.query(k).value.state != StateOf(t)
    ensures r.TimedOut? ==> trace.now >= timeout
    ensures r.FellBack? ==>
              && |trace.actions| == 1 && scm.query(trace.queries - 1).Some?
              && PlanFor(t, scm.query(trace.queries - 1).value.state).Act?
  {
    var acted, pendingSinceAct := false, false;
    var sleeps, now, queries := 0, 0, 0;
    var actions: seq<Action> := [];
    while true
      invariant queries == sleeps + |actions| && |actions| == (if acted then 1 else 0)
      invariant sleeps <= CeilDiv(timeout, 100) && (sleeps * 100 <= now || timeout <= now)
      invariant pendingSinceAct ==> acted
      invariant forall a :: a in actions ==>
                  exists k :: 0 <= k < queries && scm.query(k).Some? && PlanFor(t, scm.query(k).value.state) == Act(a)
      invariant forall k :: 0 <= k < queries ==> scm.query(k).Some? && scm.query(k).value.state != StateOf(t)
      decreases CeilDiv(timeout, 100) - sleeps, if acted then 0 else 1
    {
      var obs := scm.query(queries);
      queries := queries + 1;
      if obs.None? {
        return QueryFailed, Trace(queries, actions, now);
      }
      match PlanFor(t, obs.value.state) {
      case Done =>
        return Reached, Trace(queries, actions, now);
      case Act(action) =>
        if !acted {
          if !scm.acts(action) {
            return ActFailed, Trace(queries, actions, now);
          }
          acted, actions := true, [action];
          assert PlanFor(t, scm.query(queries - 1).value.state) == Act(action);
          continue;
        }
        if pendingSinceAct {
          return FellBack, Trace(queries, actions, now);
        }
      case Wait =>
        pendingSinceAct := pendingSinceAct || acted;
      }
      now := now + scm.delay(sleeps);
      if now >= timeout {
        return TimedOut, Trace(queries, actions, now);
      }
      CeilBound(sleeps, 100, timeout);
      var pause := PollInterval(obs.value.waitHint);
      now := now + if pause < timeout - now then pause else timeout - now;
      sleeps := sleeps + 1;
    }
  }

  // ------------------------------------------------------------ whole dependents

  datatype Call = Call(name: string, target: Target, ok: bool)

  /** What converging does on each call: whether it works, and where a service is left when it does not. */
  datatype World = World(converges: (nat, string, Target) -> bool, stuck: (nat, string) -> nat,
                         preflight: string -> bool)

  /** The services a call does not name keep their state. */
  class Manager {
    var states: map<string, nat>
    var calls: seq<Call>

    constructor (s: map<string, nat>)
      ensures states == s && calls == []
    {
      states, calls := s, [];
    }

    method Converge(w: World, name: string, t: Target) returns (ok: bool)
      modifies this
      ensures calls == old(calls) + [Call(name, t, ok)]
      ensures states.Keys == old(states).Keys + {name}
      ensures forall s :: s in old(states) && s != name ==> states[s] == old(states)[s]
      ensures ok ==> states[name] == StateOf(t)
    {
      ok := w.converges(|calls|, name, t);
      states := states[name := if ok then StateOf(t) else w.stuck(|calls|, name)];
      calls := calls + [Call(name, t, ok)];
    }

    /** Start the services again in reverse of the order they were stopped in, stopping at nothing. */
    method Restore(w: World, stopped: seq<string>) returns (all: bool)
      modifies this
      ensures old(calls) <= calls && Restarts(calls[|old(calls)|..], Reversed(stopped))
      ensures all <==> forall c :: c in calls[|old(calls)|..] ==> c.ok
      ensures states.Keys >= old(states).Keys
    {
      all := true;
      ghost var n := |calls|;
      ghost var order := Reversed(stopped);
      ghost var added: seq<Call> := [];
      for i := 0 to |stopped|
        invariant calls == old(calls) + added && Restarts(added, order[..i])
        invariant all <==> forall c :: c in added ==> c.ok
        invariant states.Keys >= old(states).Keys
      {
        var ok := Converge(w, stopped[|stopped| - 1 - i], Running);
        assert order[..i + 1] == order[..i] + [order[i]];
        added := added + [Call(order[i], Running, ok)];
        all := all && ok;
      }
      assert order[..|stopped|] == order && calls[n..] == added;
    }

    /** Stop services in order until one fails; `stopped` are those that did. */
    method StopAll(w: World, running: seq<string>) returns (stopped: seq<string>, failed: bool)
      modifies this
      ensures stopped <= running && (failed <==> |stopped| < |running|)
      ensures calls == old(calls) + StopCalls(stopped) +
              (if failed then [Call(running[|stopped|], Stopped, false)] else [])
      ensures states.Keys >= old(states).Keys
      ensures !failed ==> forall s :: s in old(states) && s !in running ==> states[s] == old(states)[s]
      ensures !failed ==> forall s :: s in running ==> s in states && states[s] == STOPPED
    {
      stopped, failed := [], false;
      for i := 0 to |running|
        invariant stopped == running[..i]
        invariant calls == old(calls) + StopCalls(stopped)
        invariant states.Keys >= old(states).Keys
        invariant forall s :: s in old(states) && s !in stopped ==> states[s] == old(states)[s]
        invariant forall s :: s in stopped ==> s in states && states[s] == STOPPED
      {
        var ok := Converge(w, running[i], Stopped);
        if !ok {
          failed := true;
          return;
        }
        assert StopCalls(stopped + [running[i]]) == StopCalls(stopped) + [Call(running[i], Stopped, true)];
        stopped := stopped + [running[i]];
      }
    }

    /** Stop a service after its dependents that are not already stopped, in the given order; when
        that fails, start again exactly the ones that were stopped, in reverse order. */
    method StopTree(w: World, name: string, deps: seq<(string, nat)>) returns (r: Option<seq<string>>)
      requires calls == []
      modifies this
      ensures states.Keys >= old(states).Keys
      ensures r.Some? ==>
                && r.value == NotStopped(deps)
                && calls == StopCalls(r.value) + [Call(name, Stopped, true)]
                && (forall s :: s in old(states) && s != name && s !in r.value ==> states[s] == old(states)[s])
                && (forall s :: s in r.value || s == name ==> s in states && states[s] == STOPPED)
      ensures r.None? ==> FailedStop(calls, NotStopped(deps), name)
    {
      hide NotStopped, StopCalls, Reversed, Restarts;
      var running := FilterRunning(deps);
      if running != [] && !w.preflight(name) {
        return None;
      }
      var stopped, failed := StopAll(w, running);
      if !failed {
        assert stopped == running;
        var ok := Converge(w, name, Stopped);
        if ok {
          return Some(stopped);
        }
      }
      ghost var failing := Call(if |stopped| < |running| then running[|stopped|] else name, Stopped, false);
      ghost var before := calls;
      assert before == StopCalls(stopped) + [failing];
      var all := Restore(w, stopped);
      RolledBack(calls, running, name, stopped, calls[|before|..]);
      r := None;
    }

    lemma RolledBack(calls: seq<Call>, running: seq<string>, name: string, stopped: seq<string>, restarts: seq<Call>)
      requires stopped <= running && Restarts(restarts, Reversed(stopped))
      requires calls == StopCalls(stopped) +
                        [Call(if |stopped| < |running| then running[|stopped|] else name, Stopped, false)] + restarts
      ensures FailedStop(calls, running, name)
    {
      assert running[..|stopped|] == stopped;
      assert FailedAfter(calls, running, name, |stopped|, restarts);
    }

    method FilterRunning(deps: seq<(string, nat)>) returns (running: seq<string>)
      ensures running == NotStopped(deps)
    {
      assert NotStopped([]) == [];
      hide NotStopped;
      running := [];
      assert deps[0..] == deps;
      ghost var goal := NotStopped(deps);
      for i := 0 to |deps|
        invariant running + NotStopped(deps[i..]) == goal
      {
        NotStoppedStep(deps, i, running);
        if deps[i].1 != STOPPED {
          running := running + [deps[i].0];
        }
      }
      assert running + [] == running;
    }

    /** Stop the tree, start the service, start its dependents again. */
    method RestartTree(w: World, name: string, deps: seq<(string, nat)>) returns (ok: bool)
      requires calls == []
      requires forall d :: d in deps ==> d.0 in states && states[d.0] == d.1 && d.0 != name
      modifies this
      ensures ok ==> name in states && states[name] == RUNNING
      ensures ok ==> forall s :: s in old(states) && s != name ==>
                s in states && (states[s] == STOPPED <==> old(states)[s] == STOPPED)
      ensures ok ==> forall s :: s in old(states) && s != name && s !in NotStopped(deps) ==> states[s] == old(states)[s]
    {
      var r := StopTree(w, name, deps);
      if r.None? {
        return false;
      }
      var stopped := r.value;
      NotStoppedStates(deps, old(states));
      hide NotStopped, StopCalls, Reversed, Restarts, FailedStop;
      ok := Converge(w, name, Running);
      if !ok {
        return;
      }
      ok := StartAll(w, stopped);
    }

    /** Start services in reverse order, giving up on the first that fails. */
    method StartAll(w: World, stopped: seq<string>) returns (ok: bool)
      modifies this
      ensures ok ==> states.Keys >= old(states).Keys
      ensures ok ==> forall s :: s in old(states) && s !in stopped ==> states[s] == old(states)[s]
      ensures ok ==> forall s :: s in stopped ==> s in states && states[s] == RUNNING
    {
      ghost var done: set<string> := {};
      for i := 0 to |stopped|
        invariant states.Keys >= old(states).Keys
        invariant done == set k | |stopped| - i <= k < |stopped| :: stopped[k]
        invariant forall s :: s in old(states) && s !in done ==> states[s] == old(states)[s]
        invariant forall s :: s in done ==> s in states && states[s] == RUNNING
      {
        var dep := stopped[|stopped| - 1 - i];
        ok := Converge(w, dep, Running);
        if !ok {
          return;
        }
        done := done + {dep};
      }
      ok := true;
      assert forall s :: s in done <==> s in stopped;
    }
  }

  /** The dependents that need stopping, in order. */
  function NotStopped(deps: seq<(string, nat)>): seq<string>
  {
    if deps == [] then []
    else (if deps[0].1 != STOPPED then [deps[0].0] else []) + NotStopped(deps[1..])
  }

  lemma NotStoppedStep(deps: seq<(string, nat)>, i: nat, done: seq<string>)
    requires i < |deps|
    ensures done + NotStopped(deps[i..]) ==
            (if deps[i].1 != STOPPED then done + [deps[i].0] else done) + NotStopped(deps[i + 1..])
  {
  }

  lemma {:induction false} NotStoppedStates(deps: seq<(string, nat)>, states: map<string, nat>)
    requires forall d :: d in deps ==> d.0 in states && states[d.0] == d.1
    ensures forall s :: s in NotStopped(deps) ==>
            s in states && states[s] != STOPPED && exists d :: d in deps && d.0 == s
  {
    if deps != [] {
      NotStoppedStates(deps[1..], states);
      assert deps == [deps[0]] + deps[1..];
    }
  }

  /** Successful stops of these services, in order. */
  function StopCalls(names: seq<string>): (r: seq<Call>)
    ensures |r| == |names| && forall k :: 0 <= k < |r| ==> r[k] == Call(names[k], Stopped, true)
  {
    seq(|names|, k requires 0 <= k < |names| => Call(names[k], Stopped, true))
  }

  /** Attempts to start these services, in order, whether or not each worked. */
  ghost predicate Restarts(calls: seq<Call>, names: seq<string>)
  {
    |calls| == |names| && forall k :: 0 <= k < |calls| ==> calls[k] == Call(names[k], Running, calls[k].ok)
  }

  /** The calls of a stop that failed after the first `n` dependents: their stops, the one that
      failed, then the restarts of exactly those, in reverse order. */
  ghost predicate FailedAfter(calls: seq<Call>, running: seq<string>, name: string, n: nat, restarts: seq<Call>)
  {
    && n <= |running|
    && calls == StopCalls(running[..n]) + [Call(if n < |running| then running[n] else name, Stopped, false)] + restarts
    && Restarts(restarts, Reversed(running[..n]))
  }

  /** A failed stop: refused before anything was touched, or rolled back. */
  ghost predicate FailedStop(calls: seq<Call>, running: seq<string>, name: string)
  {
    (running != [] && calls == []) || exists n, restarts :: FailedAfter(calls, running, name, n, restarts)
  }
}
