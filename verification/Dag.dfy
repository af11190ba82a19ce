/** Scoped name resolution and the step dependency graph (src/engine/dag.rs). */
module Dag {
  import opened Wrappers
  import opened Plans
  import opened Plays

  /** Whether a step is the single step `req` names in a scope. */
  predicate IsLeaf(s: Step, scope: seq<string>, depth: nat, req: string)
  {
    |s.frames| == depth && s.name == req && (depth == 0 || s.containerPath == scope)
  }

  /** Whether a step came out of the invocation `req` names in a scope. */
  predicate IsInGroup(s: Step, scope: seq<string>, depth: nat, req: string)
  {
    if depth == 0 then s.frames != [] && s.frames[0].step == req
    else |s.frames| > depth && scope + [req] <= s.containerPath
  }

  /** The first index from k on whose step passes the test. */
  function FindFrom(steps: seq<Step>, k: nat, test: Step -> bool): (r: Option<nat>)
    requires k <= |steps|
    ensures r.Some? ==> k <= r.value < |steps| && test(steps[r.value])
    ensures r.Some? ==> forall i :: k <= i < r.value ==> !test(steps[i])
    ensures r.None? ==> forall i :: k <= i < |steps| ==> !test(steps[i])
    decreases |steps| - k
  {
    if k == |steps| then None else if test(steps[k]) then Some(k) else FindFrom(steps, k + 1, test)
  }

  /** Every index from k on whose step passes the test, in order. */
  function FilterFrom(steps: seq<Step>, k: nat, test: Step -> bool): (r: seq<nat>)
    requires k <= |steps|
    ensures forall i: nat :: i in r <==> k <= i < |steps| && test(steps[i])
    decreases |steps| - k
  {
    if k == |steps| then []
    else (if test(steps[k]) then [k] else []) + FilterFrom(steps, k + 1, test)
  }

  /** The indices one `requires` name covers: a step of its own name first, else
      every step of the invocation of that name. */
  function Resolve(steps: seq<Step>, scope: seq<string>, depth: nat, req: string): seq<nat>
  {
    match FindFrom(steps, 0, s => IsLeaf(s, scope, depth, req))
    case Some(i) => [i]
    case None => FilterFrom(steps, 0, s => IsInGroup(s, scope, depth, req))
  }

  /** The scope in which the requires of level d of a step was written. */
  function ScopeAt(s: Step, d: nat): seq<string>
    requires d <= |s.frames| <= |s.containerPath|
  {
    s.containerPath[..|s.containerPath| - (|s.frames| - d)]
  }

  /** The requires written at level d: an enclosing invocation's, or the step's own. */
  function NeedsAt(s: Step, d: nat): seq<string>
    requires d <= |s.frames|
  {
    if d == |s.frames| then s.needs else s.frames[d].needs
  }

  /** Level d of step i requires a name that resolves to j. */
  ghost predicate NeedsAtLevel(steps: seq<Step>, i: nat, j: nat, d: nat)
    requires i < |steps| && |steps[i].frames| <= |steps[i].containerPath|
  {
    d <= |steps[i].frames| &&
    exists req :: req in NeedsAt(steps[i], d) && j in Resolve(steps, ScopeAt(steps[i], d), d, req)
  }

  ghost predicate DependsOn(steps: seq<Step>, i: nat, j: nat)
    requires i < |steps| && |steps[i].frames| <= |steps[i].containerPath|
  {
    i != j && exists d: nat :: NeedsAtLevel(steps, i, j, d)
  }

  /** The dependency lists of a play are exactly its resolved requires. */
  ghost predicate IsDag(steps: seq<Step>, deps: seq<seq<nat>>)
    requires forall s :: s in steps ==> |s.frames| <= |s.containerPath|
  {
    && |deps| == |steps|
    && forall i: nat :: i < |steps| ==> Ascending(deps[i]) && forall j: nat :: j in deps[i] <==> DependsOn(steps, i, j)
  }

  predicate Ascending(xs: seq<nat>)
  {
    forall k, l :: 0 <= k < l < |xs| ==> xs[k] < xs[l]
  }

  /** Insert into an ascending list, unless it is there. */
  function Insert(xs: seq<nat>, x: nat): seq<nat>
  {
    if xs == [] || x < xs[0] then [x] + xs
    else if x == xs[0] then xs
    else [xs[0]] + Insert(xs[1..], x)
  }

  lemma {:induction false} InsertMembers(xs: seq<nat>, x: nat)
    ensures forall y: nat :: y in Insert(xs, x) <==> y in xs || y == x
  {
    if xs != [] {
      InsertMembers(xs[1..], x);
      assert xs == [xs[0]] + xs[1..];
    }
  }

  lemma {:induction false} InsertAscending(xs: seq<nat>, x: nat)
    requires Ascending(xs)
    ensures Ascending(Insert(xs, x))
  {
    if xs == [] || x < xs[0] {
    } else if x > xs[0] {
      InsertAscending(xs[1..], x);
      InsertMembers(xs[1..], x);
      var r := Insert(xs[1..], x);
      forall k | 0 <= k < |r| ensures xs[0] < r[k] {
        assert r[k] in xs[1..] || r[k] == x;
      }
    }
  }

  /** Sort and drop repeats. */
  function SortDedup(xs: seq<nat>): seq<nat>
  {
    if xs == [] then [] else Insert(SortDedup(xs[..|xs| - 1]), xs[|xs| - 1])
  }

  lemma {:induction false} SortDedupLaw(xs: seq<nat>)
    ensures Ascending(SortDedup(xs)) && forall y: nat :: y in SortDedup(xs) <==> y in xs
  {
    hide Insert;
    if xs != [] {
      var init, last := xs[..|xs| - 1], xs[|xs| - 1];
      SortDedupLaw(init);
      InsertMembers(SortDedup(init), last);
      InsertAscending(SortDedup(init), last);
      assert xs == init + [last];
    }
  }

  /** Build the dependency lists. `cyclic` is the graph library's cycle check. */
  method Build(steps: seq<Step>, cyclic: seq<seq<nat>> -> bool) returns (dag: Result<seq<seq<nat>>, ()>)
    requires forall s :: s in steps ==> |s.frames| <= |s.containerPath|
    requires forall deps :: cyclic(deps) <==> !Acyclic(deps)
    ensures dag.Ok? ==> IsDag(steps, dag.value) && Acyclic(dag.value)
    ensures dag.Err? ==> exists deps :: IsDag(steps, deps) && !Acyclic(deps)
  {
    var deps: seq<seq<nat>> := [];
    var i := 0;
    while i < |steps|
      invariant 0 <= i <= |steps| && |deps| == i
      invariant forall k: nat :: k < i ==>
                  Ascending(deps[k]) && forall j: nat :: j in deps[k] <==> DependsOn(steps, k, j)
    {
      var found := Requirements(steps, i);
      SortDedupLaw(found);
      deps := deps + [SortDedup(found)];
      i := i + 1;
    }
    assert IsDag(steps, deps);
    if cyclic(deps) {
      dag := Err(());
    } else {
      dag := Ok(deps);
    }
  }

  /** Collect everything step i requires: its own level first, then each
      enclosing invocation's. */
  method Requirements(steps: seq<Step>, i: nat) returns (found: seq<nat>)
    requires forall s :: s in steps ==> |s.frames| <= |s.containerPath|
    requires i < |steps|
    ensures forall j: nat :: j in found <==> DependsOn(steps, i, j)
  {
    var step := steps[i];
    var n := |step.frames|;
    found := RequirementsAt(steps, i, n);
    var d := 0;
    while d < n
      invariant 0 <= d <= n
      invariant forall j: nat :: j in found <==>
                  i != j && (NeedsAtLevel(steps, i, j, n) || exists e: nat :: e < d && NeedsAtLevel(steps, i, j, e))
    {
      var more := RequirementsAt(steps, i, d);
      found := found + more;
      d := d + 1;
    }
  }

  /** Drop a step's edge to itself. */
  method Others(covered: seq<nat>, i: nat) returns (others: seq<nat>)
    ensures forall j: nat :: j in others <==> i != j && j in covered
  {
    others := [];
    var k := 0;
    while k < |covered|
      invariant 0 <= k <= |covered|
      invariant forall j: nat :: j in others <==> i != j && j in covered[..k]
    {
      if covered[k] != i {
        others := others + [covered[k]];
      }
      k := k + 1;
    }
  }

  method RequirementsAt(steps: seq<Step>, i: nat, d: nat) returns (found: seq<nat>)
    requires i < |steps| && |steps[i].frames| <= |steps[i].containerPath| && d <= |steps[i].frames|
    ensures forall j: nat :: j in found <==> i != j && NeedsAtLevel(steps, i, j, d)
  {
    hide Resolve;
    var needs, scope := NeedsAt(steps[i], d), ScopeAt(steps[i], d);
    found := [];
    var r := 0;
    while r < |needs|
      invariant 0 <= r <= |needs|
      invariant forall j: nat :: j in found <==>
                i != j && exists req :: req in needs[..r] && j in Resolve(steps, scope, d, req)
    {
      var covered := Resolve(steps, scope, d, needs[r]);
      var others := Others(covered, i);
      found := found + others;
      assert needs[..r + 1] == needs[..r] + [needs[r]];
      r := r + 1;
    }
    assert needs[..|needs|] == needs;
  }
}
