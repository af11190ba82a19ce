/** "After the whole block": what the dependency graph and the scheduler together
    make of a `requires` naming a composite invocation (src/engine/dag.rs:27-105,
    src/engine/run.rs:589-599). */
module Barrier {
  import opened Wrappers
  import opened Plans
  import opened Plays
  import opened Expansion
  import opened Dag
  import opened Schedule
  import opened ScheduleInvariant
  import opened Sequences

  /** Step s is, or came out of, what `name` declares in the given scope at level
      d: a sibling step or a whole sibling invocation, at any nesting depth. At
      level 0 the scope is the whole play. */
  ghost predicate InBlock(s: Step, d: nat, scope: seq<string>, name: string)
    requires WellShaped(s)
  {
    d <= |s.frames| && Trail(s)[d] == name && (d == 0 || ScopeAt(s, d) == scope)
  }

  /** Some requires written at level d of s names the block t belongs to. */
  ghost predicate RequiresBlock(s: Step, t: Step, d: nat)
    requires WellShaped(s) && WellShaped(t)
  {
    d <= |s.frames| && exists name :: name in NeedsAt(s, d) && InBlock(t, d, ScopeAt(s, d), name)
  }

  ghost predicate Shaped(steps: seq<Step>)
  {
    forall s :: s in steps ==> WellShaped(s)
  }

  /** The steps of a loaded play, in declaration order. */
  function LoadedSteps(comps: Composites, decls: seq<Decl>): (steps: seq<Step>)
    requires DeclaredStepsOk(comps, decls)
    ensures Shaped(steps)
  {
    LoadShaped(comps, decls);
    Flatten(Load(comps, decls, []))
  }

  /** The steps of a loaded play are well shaped, so the graph can be built from them. */
  lemma LoadShaped(comps: Composites, decls: seq<Decl>)
    requires DeclaredStepsOk(comps, decls)
    ensures Shaped(Flatten(Load(comps, decls, [])))
  {
    forall s | s in Flatten(Load(comps, decls, [])) ensures WellShaped(s) {
      LoadEmits(comps, decls, [], s);
    }
  }

  /** No playbook container shares a path with a composite invocation. */
  ghost predicate NoClash(steps: seq<Step>)
    requires Shaped(steps)
  {
    forall s, t :: s in steps && t in steps && t.frames != [] ==> !(ScopeAt(t, 1) <= PlaybookPath(s))
  }

  /** Some step is the sibling of that name in the scope, so the name means that step alone. */
  ghost predicate HasLeaf(steps: seq<Step>, scope: seq<string>, d: nat, name: string)
  {
    exists t :: t in steps && IsLeaf(t, scope, d, name)
  }

  /** A name required in a composite body never meets, under the path it spells, a step that lies
      under more or fewer playbook containers. */
  ghost predicate Sealed(steps: seq<Step>)
    requires Shaped(steps)
  {
    forall s, t, d: nat, name ::
      s in steps && t in steps && 1 <= d <= |s.frames| && name in NeedsAt(s, d) &&
      !HasLeaf(steps, ScopeAt(s, d), d, name) && IsInGroup(t, ScopeAt(s, d), d, name) ==>
        |PlaybookPath(t)| == |PlaybookPath(s)|
  }

  /** A name written at a level of step i resolves to steps of the block it names and to nothing else. */
  ghost predicate ResolvesInside(steps: seq<Step>, i: nat, d: nat, name: string)
    requires i < |steps| && WellShaped(steps[i]) && d <= |steps[i].frames|
  {
    forall j: nat :: j in Dag.Resolve(steps, ScopeAt(steps[i], d), d, name) ==>
      j < |steps| && WellShaped(steps[j]) && InBlock(steps[j], d, ScopeAt(steps[i], d), name)
  }

  /** Every required name does. */
  ghost predicate Encapsulated(steps: seq<Step>)
    requires Shaped(steps)
  {
    forall i: nat, d: nat, name ::
      i < |steps| && WellShaped(steps[i]) && d <= |steps[i].frames| && name in NeedsAt(steps[i], d) ==>
        ResolvesInside(steps, i, d, name)
  }

  // ---------------------------------------------------------------- resolution

  /** The scope at level d is the playbook path followed by the first d frame names. */
  lemma ScopeIsPrefix(s: Step, d: nat)
    requires WellShaped(s) && d <= |s.frames|
    ensures ScopeAt(s, d) == PlaybookPath(s) + FrameSteps(s.frames)[..d]
    ensures d < |s.frames| ==> s.containerPath[|ScopeAt(s, d)|] == s.frames[d].step
  {
  }

  /** A leaf in a scope is exactly a block of one step. */
  lemma LeafIsBlock(s: Step, d: nat, scope: seq<string>, name: string)
    requires WellShaped(s)
    ensures IsLeaf(s, scope, d, name) <==> |s.frames| == d && InBlock(s, d, scope, name)
  {
  }

  /** The members of an invocation block always pass the resolver's prefix test. */
  lemma BlockIsInGroup(s: Step, d: nat, scope: seq<string>, name: string)
    requires WellShaped(s) && InBlock(s, d, scope, name) && |s.frames| > d
    ensures IsInGroup(s, scope, d, name)
  {
  }

  /** What passes the prefix test belongs to the block exactly when it lies under as many playbook
      containers as the step that requires it. */
  lemma GroupIsBlock(s: Step, t: Step, d: nat, name: string)
    requires WellShaped(s) && WellShaped(t) && d <= |s.frames| && IsInGroup(t, ScopeAt(s, d), d, name)
    ensures |t.frames| > d
    ensures InBlock(t, d, ScopeAt(s, d), name) <==> d == 0 || |PlaybookPath(t)| == |PlaybookPath(s)|
  {
  }

  /** Without a container named like an invocation the play is sealed. */
  lemma NoClashSeals(steps: seq<Step>)
    requires Shaped(steps) && NoClash(steps)
    ensures Sealed(steps)
  {
    forall s, t, d: nat, name |
      s in steps && t in steps && 1 <= d <= |s.frames| && IsInGroup(t, ScopeAt(s, d), d, name)
      ensures |PlaybookPath(t)| == |PlaybookPath(s)|
    {
      assert ScopeAt(s, 1) <= t.containerPath;
      assert ScopeAt(t, 1) <= t.containerPath;
    }
  }

  lemma ResolvedIn(steps: seq<Step>, scope: seq<string>, d: nat, name: string, j: nat)
    ensures j in Dag.Resolve(steps, scope, d, name) ==>
              j < |steps| && if HasLeaf(steps, scope, d, name) then IsLeaf(steps[j], scope, d, name)
                             else IsInGroup(steps[j], scope, d, name)
    ensures j < |steps| && !HasLeaf(steps, scope, d, name) && IsInGroup(steps[j], scope, d, name) ==>
              j in Dag.Resolve(steps, scope, d, name)
  {
    var leaf := FindFrom(steps, 0, s => IsLeaf(s, scope, d, name));
    if leaf.Some? {
      assert steps[leaf.value] in steps;
    }
  }

  /** Encapsulation holds exactly of the sealed plays. */
  lemma EncapsulatedIffSealed(steps: seq<Step>)
    requires Shaped(steps)
    ensures Encapsulated(steps) <==> Sealed(steps)
  {
    hide Dag.Resolve, InBlock, IsInGroup, IsLeaf;
    if Sealed(steps) {
      forall i: nat, d: nat, name |
        i < |steps| && WellShaped(steps[i]) && d <= |steps[i].frames| && name in NeedsAt(steps[i], d)
        ensures ResolvesInside(steps, i, d, name)
      {
        forall j: nat | j in Dag.Resolve(steps, ScopeAt(steps[i], d), d, name)
          ensures j < |steps| && WellShaped(steps[j]) && InBlock(steps[j], d, ScopeAt(steps[i], d), name)
        {
          SealedResolves(steps, i, j, d, name);
        }
      }
    }
    if Encapsulated(steps) {
      forall s, t, d: nat, name |
        s in steps && t in steps && 1 <= d <= |s.frames| && name in NeedsAt(s, d) &&
        !HasLeaf(steps, ScopeAt(s, d), d, name) && IsInGroup(t, ScopeAt(s, d), d, name)
        ensures |PlaybookPath(t)| == |PlaybookPath(s)|
      {
        var i, j :| 0 <= i < |steps| && steps[i] == s && 0 <= j < |steps| && steps[j] == t;
        assert ResolvesInside(steps, i, d, name);
        ResolvedIn(steps, ScopeAt(s, d), d, name, j);
        GroupIsBlock(s, t, d, name);
      }
    }
  }

  lemma SealedResolves(steps: seq<Step>, i: nat, j: nat, d: nat, name: string)
    requires Shaped(steps) && Sealed(steps) && i < |steps| && WellShaped(steps[i])
    requires d <= |steps[i].frames| && name in NeedsAt(steps[i], d)
    requires j in Dag.Resolve(steps, ScopeAt(steps[i], d), d, name)
    ensures j < |steps| && WellShaped(steps[j]) && InBlock(steps[j], d, ScopeAt(steps[i], d), name)
  {
    hide Dag.Resolve, InBlock, IsInGroup, IsLeaf;
    var scope := ScopeAt(steps[i], d);
    ResolvedIn(steps, scope, d, name, j);
    assert steps[i] in steps && steps[j] in steps;
    if HasLeaf(steps, scope, d, name) {
      LeafIsBlock(steps[j], d, scope, name);
    } else {
      GroupIsBlock(steps[i], steps[j], d, name);
    }
  }

  /** In a play whose trails are prefix-free, a leaf shares its block with nothing. */
  lemma LeafBlockIsAlone(steps: seq<Step>, i: nat, j: nat, d: nat, scope: seq<string>, name: string)
    requires Shaped(steps) && PrefixFree(steps) && i < |steps| && j < |steps|
    requires WellShaped(steps[i]) && WellShaped(steps[j])
    requires |steps[i].frames| == d && InBlock(steps[i], d, scope, name) && InBlock(steps[j], d, scope, name)
    requires d == 0 || |PlaybookPath(steps[i])| == |PlaybookPath(steps[j])|
    ensures i == j
  {
    var s, t := steps[i], steps[j];
    if d > 0 {
      ScopeIsPrefix(s, d);
      ScopeIsPrefix(t, d);
      assert scope[|PlaybookPath(s)|..] == FrameSteps(s.frames)[..d] == FrameSteps(t.frames)[..d];
    }
    assert Trail(s) == FrameSteps(s.frames)[..d] + [name];
    assert Trail(t)[..d + 1] == FrameSteps(t.frames)[..d] + [name];
    assert Trail(s) <= Trail(t);
  }

  /** Blocks with the same scope at a level past the first start at the same depth of containers. */
  lemma SameScopeSamePath(s: Step, t: Step, d: nat)
    requires WellShaped(s) && WellShaped(t) && d <= |s.frames| && d <= |t.frames| && ScopeAt(s, d) == ScopeAt(t, d)
    ensures |PlaybookPath(s)| == |PlaybookPath(t)|
  {
  }

  /** Resolution reaches every step of the block a name means. */
  lemma ResolveReachesBlock(steps: seq<Step>, i: nat, j: nat, d: nat, name: string)
    requires Shaped(steps) && PrefixFree(steps) && i < |steps| && j < |steps|
    requires WellShaped(steps[i]) && WellShaped(steps[j]) && d <= |steps[i].frames|
    requires InBlock(steps[j], d, ScopeAt(steps[i], d), name)
    ensures j in Dag.Resolve(steps, ScopeAt(steps[i], d), d, name)
  {
    var scope := ScopeAt(steps[i], d);
    var leaf := FindFrom(steps, 0, s => IsLeaf(s, scope, d, name));
    LeafIsBlock(steps[j], d, scope, name);
    if leaf.Some? {
      var l := leaf.value;
      assert steps[l] in steps;
      LeafIsBlock(steps[l], d, scope, name);
      if d > 0 {
        SameScopeSamePath(steps[l], steps[j], d);
      }
      LeafBlockIsAlone(steps, l, j, d, scope, name);
    } else {
      BlockIsInGroup(steps[j], d, scope, name);
    }
  }

  /** Resolution is exact in a sealed play: a required name covers its block and nothing else. */
  lemma ResolveIsBlock(steps: seq<Step>, i: nat, j: nat, d: nat, name: string)
    requires Shaped(steps) && PrefixFree(steps) && i < |steps| && j < |steps|
    requires WellShaped(steps[i]) && WellShaped(steps[j]) && d <= |steps[i].frames| && name in NeedsAt(steps[i], d)
    ensures InBlock(steps[j], d, ScopeAt(steps[i], d), name) ==> j in Dag.Resolve(steps, ScopeAt(steps[i], d), d, name)
    ensures Sealed(steps) && j in Dag.Resolve(steps, ScopeAt(steps[i], d), d, name) ==>
              InBlock(steps[j], d, ScopeAt(steps[i], d), name)
  {
    hide Dag.Resolve, Sealed, InBlock, PrefixFree;
    if InBlock(steps[j], d, ScopeAt(steps[i], d), name) {
      ResolveReachesBlock(steps, i, j, d, name);
    }
    if Sealed(steps) && j in Dag.Resolve(steps, ScopeAt(steps[i], d), d, name) {
      SealedResolves(steps, i, j, d, name);
    }
  }

  // ------------------------------------------------------------------- barrier

  /** Whole-block barrier: a requires at any level makes the step depend on every
      other step of the block it names. */
  lemma BlockDependency(steps: seq<Step>, deps: seq<seq<nat>>, i: nat, j: nat, d: nat)
    requires Shaped(steps) && PrefixFree(steps) && IsDag(steps, deps)
    requires i < |steps| && j < |steps| && i != j
    requires WellShaped(steps[i]) && WellShaped(steps[j]) && RequiresBlock(steps[i], steps[j], d)
    ensures j in deps[i]
  {
    var name :| name in NeedsAt(steps[i], d) && InBlock(steps[j], d, ScopeAt(steps[i], d), name);
    ResolveIsBlock(steps, i, j, d, name);
    assert NeedsAtLevel(steps, i, j, d);
    assert DependsOn(steps, i, j);
  }

  /** Encapsulation: in a sealed play there is no other dependency, so a name written
      in a body resolves only inside that invocation. */
  lemma DependencyIsBlock(steps: seq<Step>, deps: seq<seq<nat>>, i: nat, j: nat)
    requires Shaped(steps) && Sealed(steps) && IsDag(steps, deps)
    requires i < |steps| && j in deps[i]
    ensures j < |steps| && j != i && WellShaped(steps[i]) && WellShaped(steps[j])
    ensures exists d: nat :: RequiresBlock(steps[i], steps[j], d)
  {
    assert steps[i] in steps;
    assert DependsOn(steps, i, j);
    var d: nat :| NeedsAtLevel(steps, i, j, d);
    var name :| name in NeedsAt(steps[i], d) && j in Dag.Resolve(steps, ScopeAt(steps[i], d), d, name);
    SealedResolves(steps, i, j, d, name);
    assert RequiresBlock(steps[i], steps[j], d);
  }

  /** The barrier for a loaded play, in every reachable state of its scheduler: a
      step that has started, or was decided, required only blocks that had
      completed as a whole. */
  lemma BarrierHoldsInEveryRun(comps: Composites, decls: seq<Decl>, c: Setup, acts: seq<Action>, i: nat, j: nat, d: nat)
    requires CompositesOk(comps) && DeclaredStepsOk(comps, decls) && Distinct(DeclaredNames(decls))
    requires c.Valid() && IsDag(LoadedSteps(comps, decls), c.deps)
    requires i < |c.deps| && j < |c.deps| && i != j
    requires var steps := LoadedSteps(comps, decls);
             WellShaped(steps[i]) && WellShaped(steps[j]) && RequiresBlock(steps[i], steps[j], d)
    requires After(c, acts).dispatched[i]
    ensures After(c, acts).completed[j]
  {
    LoadPrefixFree(comps, decls, []);
    BlockDependency(LoadedSteps(comps, decls), c.deps, i, j, d);
    Reachable(c, acts);
    assert DepsSatisfied(c, After(c, acts), i);
  }

  // --------------------------------------------------------------------- clash

  function Leaf(name: string, needs: seq<string>): Step
  {
    Step(name, "p", "r", ResourceStep, needs, None, [], [])
  }

  function Calls(name: string, composite: string): Step
  {
    Step(name, "", composite, ResourceStep, [], None, [], [])
  }

  /** A play whose container "a" is named like an invocation: the invocation "a" runs a step "x" after
      its sibling invocation "b", and the container holds an invocation "b" of another composite. */
  const CLASH_COMPS: Composites :=
    map[("", "inner") := [Leaf("y", [])],
        ("", "pair") := [Leaf("x", ["b"]), Calls("b", "inner")],
        ("", "outer") := [Calls("c", "inner")]]

  const CLASH_DECLS: seq<Decl> :=
    [InvokeDecl(Plays.Invocation("a", "", "pair", [], None)),
     ContainerDecl("a", [InvokeDecl(Plays.Invocation("b", "", "outer", [], None))])]

  function ClashStep(name: string, needs: seq<string>, path: seq<string>, frames: seq<Frame>): Step
  {
    Leaf(name, needs).(containerPath := path, frames := frames)
  }

  const FRAME_A := Frame("a", "", "pair", [])
  const FRAME_AB := Frame("b", "", "inner", [])
  const FRAME_B := Frame("b", "", "outer", [])
  const FRAME_BC := Frame("c", "", "inner", [])

  const CLASH_STEPS: seq<Step> :=
    [ClashStep("x", ["b"], ["a"], [FRAME_A]),
     ClashStep("y", [], ["a", "b"], [FRAME_A, FRAME_AB]),
     ClashStep("y", [], ["a", "b", "c"], [FRAME_B, FRAME_BC])]

  function InnerCall(name: string): Plays.Invocation
  {
    Plays.Invocation(name, "", "inner", [], None)
  }

  lemma InnerIs()
    ensures ("", "inner") in CLASH_COMPS && CLASH_COMPS[("", "inner")] == [Leaf("y", [])]
    ensures !IsComposite(CLASH_COMPS, Leaf("y", []))
  {
  }

  /** An invocation of "inner" expands into its one step. */
  lemma InnerExpands(name: string, containers: seq<string>, frames: seq<Frame>, chain: seq<string>)
    requires KeyOf("", "inner") !in chain && |chain| < MAX_COMPOSITE_DEPTH
    ensures Expand(CLASH_COMPS, InnerCall(name), containers, frames, chain)
            == [StepItem(ClashStep("y", [], containers + [name], frames + [Frame(name, "", "inner", [])]))]
  {
    var inv := InnerCall(name);
    var deeper := chain + [KeyOf("", "inner")];
    var path, inside := containers + [name], frames + [Frame(name, "", "inner", [])];
    InnerIs();
    OneTemplate(CLASH_COMPS, Leaf("y", []), inv, path, inside, deeper);
  }

  lemma OneTemplate(comps: Composites, t: Step, inv: Plays.Invocation, path: seq<string>, frames: seq<Frame>,
                    chain: seq<string>)
    ensures ExpandBody(comps, [t], inv, path, frames, chain) == [ExpandOne(comps, t, inv, path, frames, chain)]
  {
    hide Expand, ExpandOne;
    assert [t][1..] == [] && ExpandBody(comps, [], inv, path, frames, chain) == [];
  }

  lemma KeysDiffer()
    ensures KeyOf("", "inner") != KeyOf("", "pair") && KeyOf("", "inner") != KeyOf("", "outer")
  {
    assert KeyOf("", "inner")[1] == 'i' && KeyOf("", "pair")[1] == 'p' && KeyOf("", "outer")[1] == 'o';
  }

  lemma PairExpands()
    ensures Flatten(Expand(CLASH_COMPS, Plays.Invocation("a", "", "pair", [], None), [], [], [])) == CLASH_STEPS[..2]
  {
    var inv := Plays.Invocation("a", "", "pair", [], None);
    var path, frames, chain := ["a"], [FRAME_A], [KeyOf("", "pair")];
    KeysDiffer();
    InnerExpands("b", path, frames, chain);
    var templates := [Leaf("x", ["b"]), Calls("b", "inner")];
    assert [] + [inv.name] == path && [] + [FrameOf(inv)] == frames && [] + [KeyOf("", "pair")] == chain;
    assert Expand(CLASH_COMPS, inv, [], [], []) == ExpandBody(CLASH_COMPS, templates, inv, path, frames, chain);
    assert templates[1..] == [templates[1]] && templates[1..][1..] == [];
    assert ExpandBody(CLASH_COMPS, [], inv, path, frames, chain) == [];
    var first := StepItem(CLASH_STEPS[0]);
    var second := ContainerItem("b", [StepItem(CLASH_STEPS[1])]);
    assert path + ["b"] == ["a", "b"] && frames + [FRAME_AB] == [FRAME_A, FRAME_AB];
    assert ExpandOne(CLASH_COMPS, templates[0], inv, path, frames, chain) == first;
    assert ExpandOne(CLASH_COMPS, templates[1], inv, path, frames, chain) == second;
    assert ExpandBody(CLASH_COMPS, templates[1..], inv, path, frames, chain) == [second];
    assert Expand(CLASH_COMPS, inv, [], [], []) == [first, second];
    FlattenTwo(first, second);
  }

  lemma FlattenTwo(first: PlayItem, second: PlayItem)
    ensures Flatten([first, second]) == Flatten([first]) + Flatten([second])
    ensures first.StepItem? ==> Flatten([first]) == [first.step]
    ensures second.ContainerItem? ==> Flatten([second]) == Flatten(second.items)
    ensures second.ContainerItem? && |second.items| == 1 && second.items[0].StepItem? ==>
              Flatten([second]) == [second.items[0].step]
  {
    assert [first, second][1..] == [second] && [first][1..] == [] && [second][1..] == [];
    assert Flatten([]) == [];
    if second.ContainerItem? && |second.items| == 1 {
      assert second.items[1..] == [];
    }
  }

  lemma OuterExpands()
    ensures Flatten(Expand(CLASH_COMPS, Plays.Invocation("b", "", "outer", [], None), ["a"], [], [])) ==
            CLASH_STEPS[2..]
  {
    var inv := Plays.Invocation("b", "", "outer", [], None);
    var path, frames, chain := ["a", "b"], [FRAME_B], [KeyOf("", "outer")];
    KeysDiffer();
    InnerExpands("c", path, frames, chain);
    var templates := [Calls("c", "inner")];
    assert ["a"] + [inv.name] == path && [] + [FrameOf(inv)] == frames && [] + [KeyOf("", "outer")] == chain;
    assert Expand(CLASH_COMPS, inv, ["a"], [], []) == ExpandBody(CLASH_COMPS, templates, inv, path, frames, chain);
    assert templates[1..] == [];
    assert ExpandBody(CLASH_COMPS, [], inv, path, frames, chain) == [];
    var item := ContainerItem("c", [StepItem(CLASH_STEPS[2])]);
    assert path + ["c"] == ["a", "b", "c"] && frames + [FRAME_BC] == [FRAME_B, FRAME_BC];
    assert ExpandOne(CLASH_COMPS, templates[0], inv, path, frames, chain) == item;
    assert Expand(CLASH_COMPS, inv, ["a"], [], []) == [item];
    FlattenTwo(item, item);
  }

  /** Everything the loader checks before and after expanding a play. */
  predicate Accepted(comps: Composites, decls: seq<Decl>)
  {
    && CompositesOk(comps) && BodiesKnown(comps)
    && DeclaredStepsOk(comps, decls) && Distinct(DeclaredNames(decls)) && RequiresKnown(Declarations(decls))
  }

  lemma ClashBodies()
    ensures CompositesOk(CLASH_COMPS) && BodiesKnown(CLASH_COMPS)
  {
    assert TemplateNames(CLASH_COMPS[("", "pair")]) == ["x", "b"];
    assert TemplateNames(CLASH_COMPS[("", "pair")])[1] == "b";
  }

  lemma ClashAccepted()
    ensures Accepted(CLASH_COMPS, CLASH_DECLS)
  {
    ClashBodies();
    hide CompositesOk, BodiesKnown;
    var inner := [InvokeDecl(Plays.Invocation("b", "", "outer", [], None))];
    assert inner[1..] == [] && CLASH_DECLS[1..] == [ContainerDecl("a", inner)] && CLASH_DECLS[1..][1..] == [];
    assert DeclaredStepsOk(CLASH_COMPS, []) && DeclaredStepsOk(CLASH_COMPS, inner);
    assert DeclaredNames([]) == [] && DeclaredNames(inner) == ["b"];
    assert DeclaredNames(CLASH_DECLS[1..]) == ["b"] && DeclaredNames(CLASH_DECLS) == ["a", "b"];
    assert Declarations([]) == [] && Declarations(inner) == [Declaration("b", [])];
    assert Declarations(CLASH_DECLS[1..]) == [Declaration("b", [])];
    assert Declarations(CLASH_DECLS) == [Declaration("a", []), Declaration("b", [])];
  }

  /** The loader accepts the play and emits these three steps. */
  lemma ClashLoads()
    ensures Accepted(CLASH_COMPS, CLASH_DECLS)
    ensures LoadedSteps(CLASH_COMPS, CLASH_DECLS) == CLASH_STEPS
  {
    ClashAccepted();
    PairExpands();
    OuterExpands();
    hide Expand, CompositesOk, DeclaredStepsOk, DeclaredNames, Distinct;
    var a, b := Plays.Invocation("a", "", "pair", [], None), Plays.Invocation("b", "", "outer", [], None);
    var inside := Expand(CLASH_COMPS, b, ["a"], [], []);
    var first := ContainerItem("a", Expand(CLASH_COMPS, a, [], [], []));
    var nested := ContainerItem("b", inside);
    var second := ContainerItem("a", [nested]);
    assert [InvokeDecl(b)][1..] == [] && CLASH_DECLS[1..] == [CLASH_DECLS[1]] && CLASH_DECLS[1..][1..] == [];
    assert Load(CLASH_COMPS, [], ["a"]) == [] && Load(CLASH_COMPS, [], []) == [];
    assert [] + ["a"] == ["a"];
    assert Load(CLASH_COMPS, [InvokeDecl(b)], ["a"]) == [nested];
    assert Load(CLASH_COMPS, CLASH_DECLS[1..], []) == [second];
    assert Load(CLASH_COMPS, CLASH_DECLS, []) == [first, second];
    hide Load;
    FlattenTwo(first, second);
    FlattenTwo(nested, nested);
    assert Flatten([first]) == Flatten(first.items) + Flatten([]);
    assert CLASH_STEPS[..2] + CLASH_STEPS[2..] == CLASH_STEPS;
  }

  lemma ClashShapes()
    ensures forall k :: 0 <= k < |CLASH_STEPS| ==> WellShaped(CLASH_STEPS[k])
    ensures PlaybookPath(CLASH_STEPS[0]) == [] && PlaybookPath(CLASH_STEPS[2]) == ["a"]
    ensures ScopeAt(CLASH_STEPS[0], 1) == ["a"] && NeedsAt(CLASH_STEPS[0], 1) == ["b"] &&
            NeedsAt(CLASH_STEPS[0], 0) == []
  {
    assert FrameSteps([FRAME_A]) == ["a"] && FrameSteps([FRAME_A, FRAME_AB]) == ["a", "b"];
    assert FrameSteps([FRAME_B, FRAME_BC]) == ["b", "c"];
  }

  /** Encapsulation fails of a play the loader accepts: the step "x" inside "a" is made to wait for a
      step of another block. */
  lemma ClashBreaksEncapsulation()
    ensures Accepted(CLASH_COMPS, CLASH_DECLS)
    ensures var steps := LoadedSteps(CLASH_COMPS, CLASH_DECLS);
            && |steps| == 3 && WellShaped(steps[0]) && WellShaped(steps[2])
            && DependsOn(steps, 0, 2) && !Encapsulated(steps)
            && forall d: nat :: !RequiresBlock(steps[0], steps[2], d)
  {
    ClashLoads();
    ClashShapes();
    hide LoadedSteps, DeclaredStepsOk, DeclaredNames, CompositesOk;
    var steps := CLASH_STEPS;
    assert !IsLeaf(steps[0], ["a"], 1, "b") && !IsLeaf(steps[1], ["a"], 1, "b") && !IsLeaf(steps[2], ["a"], 1, "b");
    assert ["a"] + ["b"] <= steps[2].containerPath;
    ResolvedIn(steps, ["a"], 1, "b", 2);
    assert NeedsAtLevel(steps, 0, 2, 1);
    assert !InBlock(steps[2], 1, ["a"], "b");
    assert !ResolvesInside(steps, 0, 1, "b");
  }
}
