/** The plan phase: evaluating conditions and composite arguments once per path, with the
    same outcome as evaluating them afresh for every step (src/engine/run.rs:160-289). */
module Planner {
  import opened Wrappers
  import opened Plans
  import opened Plays
  import opened Expansion
  import opened Barrier
  import opened Sequences
  import WaitSteps

  /** A condition, or the argument scope of an invocation: ruled out, evaluated, or an error. */
  datatype Scope<+T> = Off | On(value: T) | Bad

  /** What evaluating a document gives; `Value` is whatever an argument map is. */
  datatype Documents<!V> = Documents(
    container: seq<string> -> Scope<()>,
    declared: (string, string) -> bool,
    outermost: (seq<string>, Frame) -> Scope<V>,
    nested: (Frame, V, Frame) -> Scope<V>,
    own: Step -> Plan,
    body: (Step, V) -> Plan)

  /** The cache key of a step's k-th invocation: the path down to its own segment. */
  function Key(s: Step, k: nat): seq<string>
    requires WellShaped(s) && k < |s.frames|
  {
    s.containerPath[..|s.containerPath| - (|s.frames| - k) + 1]
  }

  // ----------------------------------------------------- evaluating without caches

  function ArgsOf<V>(o: Documents<V>, s: Step, k: nat): Scope<V>
    requires WellShaped(s) && k < |s.frames|
  {
    var f := s.frames[k];
    if !o.declared(f.package, f.composite) then Bad
    else if k == 0 then o.outermost(PlaybookPath(s), f)
    else
      match ArgsOf(o, s, k - 1)
      case On(outer) => o.nested(s.frames[k - 1], outer, f)
      case Off => Off
      case Bad => Bad
  }

  /** The verdict of the first container, outermost first, whose condition is not true. */
  function Containers<V>(o: Documents<V>, path: seq<string>, depth: nat): Scope<()>
    requires depth <= |path|
    decreases |path| - depth
  {
    if depth == |path| then On(())
    else
      var r := o.container(path[..depth + 1]);
      if r.On? then Containers(o, path, depth + 1) else r
  }

  function PlanOf<V>(o: Documents<V>, s: Step): Plan
    requires WellShaped(s)
  {
    match Containers(o, PlaybookPath(s), 0)
    case Off => Skip
    case Bad => Fail
    case On(_) =>
      if s.frames == [] then o.own(s)
      else
        match ArgsOf(o, s, |s.frames| - 1)
        case Off => Skip
        case Bad => Fail
        case On(args) => o.body(s, args)
  }

  // ----------------------------------------------------- a key names one invocation

  predicate SameNames(s: Step, t: Step, n: nat)
  {
    n <= |s.frames| && n <= |t.frames| && FrameSteps(s.frames)[..n] == FrameSteps(t.frames)[..n]
  }

  /** Steps whose invocations have the same names down to a level came through the same invocations. */
  ghost predicate Coherent(steps: seq<Step>, d: nat)
  {
    forall s, t, n: nat :: s in steps && t in steps && SameNames(s, t, n) && d < n ==> s.frames[..n] == t.frames[..n]
  }

  lemma JoinCoherent(a: seq<Step>, b: seq<Step>, d: nat, an: seq<string>, bn: seq<string>)
    requires Coherent(a, d) && Coherent(b, d) && Headed(a, d, an) && Headed(b, d, bn) && Distinct(an + bn)
    ensures Coherent(a + b, d)
  {
    forall s, t, n: nat | s in a && t in b && d < n <= |s.frames| && n <= |t.frames|
      ensures !SameNames(s, t, n) && !SameNames(t, s, n)
    {
      assert FrameSteps(s.frames)[..n][d] == Trail(s)[d] && FrameSteps(t.frames)[..n][d] == Trail(t)[d];
      var k, l :| 0 <= k < |an| && an[k] == Trail(s)[d] && 0 <= l < |bn| && bn[l] == Trail(t)[d];
      assert (an + bn)[k] == an[k] && (an + bn)[|an| + l] == bn[l];
    }
  }

  lemma {:induction false} ExpandCoherent(comps: Composites, inv: Invocation, containers: seq<string>,
                                          frames: seq<Frame>, chain: seq<string>)
    requires CompositesOk(comps) && Distinct(chain)
    ensures Coherent(Flatten(Expand(comps, inv, containers, frames, chain)), |frames|)
    decreases MAX_COMPOSITE_DEPTH - |chain|, 1, 0
  {
    var key := KeyOf(inv.package, inv.composite);
    if !(key in chain || |chain| >= MAX_COMPOSITE_DEPTH || (inv.package, inv.composite) !in comps) {
      var templates := comps[(inv.package, inv.composite)];
      var inner := frames + [FrameOf(inv)];
      BodyCoherent(comps, templates, inv, containers + [inv.name], inner, chain + [key]);
      var steps := Flatten(Expand(comps, inv, containers, frames, chain));
      forall s | s in steps ensures inner <= s.frames {
        BodyEmits(comps, templates, inv, containers + [inv.name], inner, chain + [key], s);
      }
      DeeperCoherent(steps, inner);
    }
  }

  lemma DeeperCoherent(steps: seq<Step>, frames: seq<Frame>)
    requires frames != [] && Coherent(steps, |frames|) && forall s :: s in steps ==> frames <= s.frames
    ensures Coherent(steps, |frames| - 1)
  {
  }

  lemma {:induction false} BodyCoherent(comps: Composites, templates: seq<Step>, inv: Invocation, path: seq<string>,
                                        frames: seq<Frame>, chain: seq<string>)
    requires CompositesOk(comps) && Distinct(chain) && |chain| <= MAX_COMPOSITE_DEPTH
    requires Distinct(TemplateNames(templates))
    ensures Coherent(Flatten(ExpandBody(comps, templates, inv, path, frames, chain)), |frames|)
    decreases MAX_COMPOSITE_DEPTH - |chain|, 2, |templates|
  {
    if templates != [] {
      var item := ExpandOne(comps, templates[0], inv, path, frames, chain);
      var rest := ExpandBody(comps, templates[1..], inv, path, frames, chain);
      var name, names := [templates[0].name], TemplateNames(templates[1..]);
      assert ([item] + rest)[1..] == rest;
      assert TemplateNames(templates) == name + names;
      SplitDistinct(name, names);
      BodyCoherent(comps, templates[1..], inv, path, frames, chain);
      BodyPrefixFree(comps, templates[1..], inv, path, frames, chain);
      if item.ContainerItem? {
        ExpandCoherent(comps, Nested(templates[0], inv), path, frames, chain);
        ExpandPrefixFree(comps, Nested(templates[0], inv), path, frames, chain);
        JoinCoherent(Flatten(item.items), Flatten(rest), |frames|, name, names);
      } else {
        assert Trail(item.step)[|frames|] == templates[0].name;
        JoinCoherent([item.step], Flatten(rest), |frames|, name, names);
      }
    }
  }

  /** In a loaded play, invocation names determine the invocations. */
  lemma {:induction false} LoadCoherent(comps: Composites, decls: seq<Decl>, containers: seq<string>)
    requires CompositesOk(comps) && Distinct(DeclaredNames(decls))
    ensures Coherent(Flatten(Load(comps, decls, containers)), 0)
  {
    if decls != [] {
      var items := Load(comps, decls, containers);
      var rest := Load(comps, decls[1..], containers);
      assert items[0] == LoadOne(comps, decls[0], containers) && items[1..] == rest;
      var here := NamesOf(decls[0]);
      SplitDistinct(here, DeclaredNames(decls[1..]));
      LoadCoherent(comps, decls[1..], containers);
      LoadPrefixFree(comps, decls[1..], containers);
      match decls[0] {
        case StepDecl(s) =>
          assert Trail(items[0].step) == [s.name];
          JoinCoherent([items[0].step], Flatten(rest), 0, here, DeclaredNames(decls[1..]));
        case InvokeDecl(inv) =>
          ExpandCoherent(comps, inv, containers, [], []);
          ExpandPrefixFree(comps, inv, containers, [], []);
          JoinCoherent(Flatten(items[0].items), Flatten(rest), 0, here, DeclaredNames(decls[1..]));
        case ContainerDecl(name, body) =>
          LoadCoherent(comps, body, containers + [name]);
          LoadPrefixFree(comps, body, containers + [name]);
          JoinCoherent(Flatten(items[0].items), Flatten(rest), 0, here, DeclaredNames(decls[1..]));
      }
    }
  }

  lemma KeyShape(s: Step, k: nat)
    requires WellShaped(s) && k < |s.frames|
    ensures Key(s, k) == PlaybookPath(s) + FrameSteps(s.frames)[..k + 1]
  {
  }

  /** Two levels of two steps with one key are the same invocation: as deep, under the same playbook
      containers and through the same chain of invocations. */
  ghost predicate SameInvocation(s: Step, j: nat, t: Step, k: nat)
    requires WellShaped(s) && WellShaped(t) && j < |s.frames| && k < |t.frames|
  {
    j == k && PlaybookPath(s) == PlaybookPath(t) && s.frames[..j + 1] == t.frames[..k + 1]
  }

  /** No cache key stands for two invocations. */
  ghost predicate KeysExact(steps: seq<Step>)
    requires Shaped(steps)
  {
    forall s, t, j: nat, k: nat ::
      s in steps && t in steps && j < |s.frames| && k < |t.frames| && Key(s, j) == Key(t, k) ==>
        SameInvocation(s, j, t, k)
  }

  /** In a loaded play a key names one invocation if its levels lie under as many playbook containers. */
  lemma KeyNamesOneInvocation(steps: seq<Step>, s: Step, j: nat, t: Step, k: nat)
    requires Shaped(steps) && Coherent(steps, 0) && s in steps && t in steps
    requires j < |s.frames| && k < |t.frames| && Key(s, j) == Key(t, k)
    ensures SameInvocation(s, j, t, k) <==> |PlaybookPath(s)| == |PlaybookPath(t)|
  {
    hide Coherent;
    KeyShape(s, j);
    KeyShape(t, k);
    var p := |PlaybookPath(s)|;
    if p == |PlaybookPath(t)| {
      assert PlaybookPath(s) == Key(s, j)[..p] && PlaybookPath(t) == Key(t, k)[..p];
      assert FrameSteps(s.frames)[..j + 1] == Key(s, j)[p..] && FrameSteps(t.frames)[..k + 1] == Key(t, k)[p..];
      SameFrames(steps, s, t, j + 1);
    }
  }

  lemma SameFrames(steps: seq<Step>, s: Step, t: Step, n: nat)
    requires Coherent(steps, 0) && s in steps && t in steps && 0 < n <= |s.frames| && n <= |t.frames|
    requires FrameSteps(s.frames)[..n] == FrameSteps(t.frames)[..n]
    ensures s.frames[..n] == t.frames[..n]
  {
  }

  /** Which loaded plays have exact keys: those where no key is spelled under more containers and fewer. */
  lemma LoadedKeysExact(comps: Composites, decls: seq<Decl>)
    requires CompositesOk(comps) && DeclaredStepsOk(comps, decls) && Distinct(DeclaredNames(decls))
    ensures var steps := LoadedSteps(comps, decls);
            KeysExact(steps) <==>
            forall s, t, j: nat, k: nat ::
              s in steps && t in steps && j < |s.frames| && k < |t.frames| && Key(s, j) == Key(t, k) ==>
                |PlaybookPath(s)| == |PlaybookPath(t)|
  {
    LoadCoherent(comps, decls, []);
    hide Coherent, Key, SameInvocation, WellShaped, LoadedSteps;
    var steps := LoadedSteps(comps, decls);
    forall s, t, j: nat, k: nat |
      s in steps && t in steps && j < |s.frames| && k < |t.frames| && Key(s, j) == Key(t, k)
      ensures SameInvocation(s, j, t, k) <==> |PlaybookPath(s)| == |PlaybookPath(t)|
    {
      KeyNamesOneInvocation(steps, s, j, t, k);
    }
  }

  /** A play with no container named like an invocation has exact keys. */
  lemma NoClashIsExact(steps: seq<Step>)
    requires Shaped(steps) && NoClash(steps) && Coherent(steps, 0)
    ensures KeysExact(steps)
  {
    hide Coherent, SameInvocation, Key;
    forall s, t, j: nat, k: nat |
      s in steps && t in steps && j < |s.frames| && k < |t.frames| && Key(s, j) == Key(t, k)
      ensures SameInvocation(s, j, t, k)
    {
      PathsEqual(steps, s, j, t, k);
      PathsEqual(steps, t, k, s, j);
      KeyNamesOneInvocation(steps, s, j, t, k);
    }
  }

  lemma PathsEqual(steps: seq<Step>, s: Step, j: nat, t: Step, k: nat)
    requires Shaped(steps) && NoClash(steps) && s in steps && t in steps
    requires j < |s.frames| && k < |t.frames| && Key(s, j) == Key(t, k)
    ensures |PlaybookPath(s)| >= |PlaybookPath(t)|
  {
  }

  /** Evaluating arguments depends on nothing but the playbook path and the invocations so far. */
  lemma {:induction false} ArgsDependOn<V>(o: Documents<V>, s: Step, t: Step, k: nat)
    requires WellShaped(s) && WellShaped(t) && k < |s.frames| && k < |t.frames|
    requires PlaybookPath(s) == PlaybookPath(t) && s.frames[..k + 1] == t.frames[..k + 1]
    ensures ArgsOf(o, s, k) == ArgsOf(o, t, k)
  {
    assert s.frames[k] == s.frames[..k + 1][k] == t.frames[k];
    if k > 0 {
      assert s.frames[..k] == s.frames[..k + 1][..k] == t.frames[..k];
      assert s.frames[k - 1] == s.frames[..k][k - 1] == t.frames[k - 1];
      ArgsDependOn(o, s, t, k - 1);
    }
  }

  // --------------------------------------------------------- evaluating with a cache

  type ArgCache<V> = map<seq<string>, Scope<V>>

  function Ruling<V>(o: Documents<V>, outer: Scope<V>, f: Frame, g: Frame): Scope<V>
  {
    match outer
    case On(args) => o.nested(f, args, g)
    case Off => Off
    case Bad => Bad
  }

  /** The argument scope of a step's k-th invocation through the cache, and the cache afterwards. */
  function ArgsVia<V>(o: Documents<V>, cache: ArgCache<V>, s: Step, k: nat): (Scope<V>, ArgCache<V>)
    requires WellShaped(s) && k < |s.frames|
    decreases k
  {
    var key, f := Key(s, k), s.frames[k];
    if key in cache then (cache[key], cache)
    else if !o.declared(f.package, f.composite) then (Bad, cache[key := Bad])
    else if k == 0 then
      var r := o.outermost(PlaybookPath(s), f);
      (r, cache[key := r])
    else
      var (outer, after) := ArgsVia(o, cache, s, k - 1);
      var r := Ruling(o, outer, s.frames[k - 1], f);
      (r, after[key := r])
  }

  function PlanVia<V>(o: Documents<V>, cache: ArgCache<V>, s: Step): (Plan, ArgCache<V>)
    requires WellShaped(s)
  {
    match Containers(o, PlaybookPath(s), 0)
    case Off => (Plan.Skip, cache)
    case Bad => (Plan.Fail, cache)
    case On(_) =>
      if s.frames == [] then (o.own(s), cache)
      else
        var (args, after) := ArgsVia(o, cache, s, |s.frames| - 1);
        (PlanWith(o, s, args), after)
  }

  function PlanWith<V>(o: Documents<V>, s: Step, args: Scope<V>): Plan
  {
    match args
    case Off => Plan.Skip
    case Bad => Plan.Fail
    case On(a) => o.body(s, a)
  }

  /** The plans of steps one after another, each through the cache the ones before it left. */
  function PlansVia<V>(o: Documents<V>, cache: ArgCache<V>, steps: seq<Step>): (r: (seq<Plan>, ArgCache<V>))
    requires Shaped(steps)
    ensures |r.0| == |steps|
    decreases |steps|
  {
    if steps == [] then ([], cache)
    else
      assert steps[0] in steps;
      var (p, after) := PlanVia(o, cache, steps[0]);
      var (rest, last) := PlansVia(o, after, steps[1..]);
      ([p] + rest, last)
  }

  function CachedPlans<V>(o: Documents<V>, steps: seq<Step>): seq<Plan>
    requires Shaped(steps)
  {
    PlansVia(o, map[], steps).0
  }

  /** The cached plans are those of evaluating everything afresh for each step. */
  ghost predicate PlansAgree<V>(o: Documents<V>, steps: seq<Step>)
    requires Shaped(steps)
  {
    forall i: nat :: i < |steps| && WellShaped(steps[i]) ==> CachedPlans(o, steps)[i] == PlanOf(o, steps[i])
  }

  // --------------------------------------------------- exact keys make caching exact

  /** Every cached scope is that of each invocation with its key. */
  ghost predicate Faithful<V>(o: Documents<V>, steps: seq<Step>, cache: ArgCache<V>)
    requires Shaped(steps)
  {
    forall s, k: nat :: s in steps && k < |s.frames| && Key(s, k) in cache ==> cache[Key(s, k)] == ArgsOf(o, s, k)
  }

  /** Steps with one key agree on the arguments. */
  lemma ExactArgs<V>(o: Documents<V>, steps: seq<Step>, s: Step, j: nat, t: Step, k: nat)
    requires Shaped(steps) && KeysExact(steps) && s in steps && t in steps
    requires j < |s.frames| && k < |t.frames| && Key(s, j) == Key(t, k)
    ensures ArgsOf(o, s, j) == ArgsOf(o, t, k)
  {
    assert SameInvocation(s, j, t, k);
    ArgsDependOn(o, s, t, j);
  }

  lemma StaysFaithful<V>(o: Documents<V>, steps: seq<Step>, cache: ArgCache<V>, s: Step, k: nat)
    requires Shaped(steps) && KeysExact(steps) && Faithful(o, steps, cache) && s in steps && k < |s.frames|
    ensures Faithful(o, steps, cache[Key(s, k) := ArgsOf(o, s, k)])
  {
    hide KeysExact, ArgsOf, Key, WellShaped;
    forall t, j: nat | t in steps && j < |t.frames| && Key(t, j) == Key(s, k)
      ensures ArgsOf(o, t, j) == ArgsOf(o, s, k)
    {
      ExactArgs(o, steps, t, j, s, k);
    }
  }

  lemma {:induction false} ArgsViaExact<V>(o: Documents<V>, steps: seq<Step>, cache: ArgCache<V>, s: Step, k: nat)
    requires Shaped(steps) && KeysExact(steps) && Faithful(o, steps, cache) && s in steps && k < |s.frames|
    ensures ArgsVia(o, cache, s, k).0 == ArgsOf(o, s, k)
    ensures Faithful(o, steps, ArgsVia(o, cache, s, k).1)
    decreases k
  {
    hide KeysExact;
    if Key(s, k) !in cache {
      var f := s.frames[k];
      if !o.declared(f.package, f.composite) || k == 0 {
        StaysFaithful(o, steps, cache, s, k);
      } else {
        ArgsViaExact(o, steps, cache, s, k - 1);
        StaysFaithful(o, steps, ArgsVia(o, cache, s, k - 1).1, s, k);
      }
    }
  }

  lemma {:induction false} PlansViaExact<V>(o: Documents<V>, all: seq<Step>, cache: ArgCache<V>, steps: seq<Step>,
                                            i: nat)
    requires Shaped(all) && KeysExact(all) && Faithful(o, all, cache) && (forall s :: s in steps ==> s in all)
    requires i < |steps|
    ensures WellShaped(steps[i]) && PlansVia(o, cache, steps).0[i] == PlanOf(o, steps[i])
    decreases steps
  {
    hide KeysExact, Faithful, ArgsVia, Containers, ArgsOf;
    assert steps[0] in steps && steps[i] in steps;
    var s := steps[0];
    if s.frames != [] {
      ArgsViaExact(o, all, cache, s, |s.frames| - 1);
    }
    if i > 0 {
      PlansViaExact(o, all, PlanVia(o, cache, s).1, steps[1..], i - 1);
    }
  }

  /** With exact keys the caches are invisible, whatever the documents are. */
  lemma CachingIsExact<V>(o: Documents<V>, steps: seq<Step>)
    requires Shaped(steps) && KeysExact(steps)
    ensures PlansAgree(o, steps)
  {
    forall i: nat | i < |steps| ensures CachedPlans(o, steps)[i] == PlanOf(o, steps[i]) {
      PlansViaExact(o, steps, map[], steps, i);
    }
  }

  // ------------------------------------------------- and nothing less than exact keys

  /** An argument scope that is a record of where it was evaluated. */
  type Identity = (seq<string>, seq<Frame>)

  /** Documents whose bodies tell whether they were planned under their own arguments. */
  const TELLING: Documents<Identity> :=
    Documents(_ => On(()), (_, _) => true,
              (path, f) => On((path, [f])),
              (_, args: Identity, f) => On((args.0, args.1 + [f])),
              _ => Plan.Skip,
              (s: Step, args: Identity) =>
                if s.containerPath == args.0 + FrameSteps(s.frames) && args.1 == s.frames then Plan.Skip else Plan.Fail)

  lemma {:induction false} TellingArgs(s: Step, k: nat)
    requires WellShaped(s) && k < |s.frames|
    ensures ArgsOf(TELLING, s, k) == On((PlaybookPath(s), s.frames[..k + 1]))
  {
    if k == 0 {
      assert s.frames[..1] == [s.frames[0]];
    } else {
      TellingArgs(s, k - 1);
      assert s.frames[..k + 1] == s.frames[..k] + [s.frames[k]];
    }
  }

  lemma {:induction false} TellingContainers(path: seq<string>, depth: nat)
    requires depth <= |path|
    ensures Containers(TELLING, path, depth) == On(())
    decreases |path| - depth
  {
    if depth < |path| {
      TellingContainers(path, depth + 1);
    }
  }

  lemma TellingPlan(s: Step)
    requires WellShaped(s)
    ensures PlanOf(TELLING, s) == Plan.Skip
  {
    TellingContainers(PlaybookPath(s), 0);
    if s.frames != [] {
      TellingArgs(s, |s.frames| - 1);
      assert s.frames[..|s.frames|] == s.frames;
    }
    hide Containers, ArgsOf;
  }

  /** Under a cached scope lies, one segment up, the scope it was evaluated in. */
  ghost predicate Link(cache: ArgCache<Identity>, key: seq<string>)
    requires key in cache
  {
    && key != [] && cache[key].On?
    && var id := cache[key].value;
       id.1 != [] &&
       (|id.1| > 1 ==>
          var up := key[..|key| - 1];
          up in cache && cache[up] == On((id.0, id.1[..|id.1| - 1])))
  }

  ghost predicate Chained(cache: ArgCache<Identity>)
  {
    forall key :: key in cache ==> Link(cache, key)
  }

  ghost predicate Grows<V>(a: ArgCache<V>, b: ArgCache<V>)
  {
    forall key :: key in a ==> key in b && b[key] == a[key]
  }

  lemma ChainedAdd(cache: ArgCache<Identity>, key: seq<string>, id: Identity)
    requires Chained(cache) && key !in cache && key != [] && id.1 != []
    requires |id.1| > 1 ==> key[..|key| - 1] in cache && cache[key[..|key| - 1]] == On((id.0, id.1[..|id.1| - 1]))
    ensures Chained(cache[key := On(id)])
  {
    var after: ArgCache<Identity> := cache[key := On(id)];
    forall k | k in after ensures Link(after, k) {
      if k == key {
        assert after[k] == On(id);
      } else {
        assert Link(cache, k);
        LinkStays(cache, k, key, On(id));
      }
    }
  }

  lemma LinkStays(cache: ArgCache<Identity>, k: seq<string>, key: seq<string>, v: Scope<Identity>)
    requires k in cache && Link(cache, k) && key !in cache
    ensures Link(cache[key := v], k)
  {
  }

  /** The key of the invocation outside is one segment shorter. */
  lemma KeyUp(s: Step, k: nat)
    requires WellShaped(s) && 0 < k < |s.frames|
    ensures Key(s, k - 1) == Key(s, k)[..|Key(s, k)| - 1]
  {
  }

  lemma KeySome(s: Step, k: nat)
    requires WellShaped(s) && k < |s.frames|
    ensures |Key(s, k)| == |PlaybookPath(s)| + k + 1
  {
  }

  lemma {:induction false} TellingVia(cache: ArgCache<Identity>, s: Step, k: nat)
    requires Chained(cache) && WellShaped(s) && k < |s.frames|
    ensures var (r, after) := ArgsVia(TELLING, cache, s, k);
            Chained(after) && Grows(cache, after) && Key(s, k) in after && after[Key(s, k)] == r
            && forall key :: key in after && key !in cache ==> |key| <= |Key(s, k)|
    decreases k
  {
    hide Chained, Key, WellShaped;
    KeySome(s, k);
    if Key(s, k) !in cache {
      if k == 0 {
        TellingFirst(cache, s);
      } else {
        TellingVia(cache, s, k - 1);
        KeySome(s, k - 1);
        hide ArgsVia;
        TellingAdds(ArgsVia(TELLING, cache, s, k - 1).1, s, k);
        ArgsViaStep(cache, s, k);
      }
    }
  }

  lemma TellingFirst(cache: ArgCache<Identity>, s: Step)
    requires Chained(cache) && WellShaped(s) && s.frames != [] && Key(s, 0) !in cache
    ensures var r := On((PlaybookPath(s), [s.frames[0]]));
            ArgsVia(TELLING, cache, s, 0) == (r, cache[Key(s, 0) := r]) && Chained(cache[Key(s, 0) := r])
  {
    hide Chained;
    KeySome(s, 0);
    ChainedAdd(cache, Key(s, 0), (PlaybookPath(s), [s.frames[0]]));
  }

  lemma ArgsViaStep(cache: ArgCache<Identity>, s: Step, k: nat)
    requires WellShaped(s) && 0 < k < |s.frames| && Key(s, k) !in cache
    ensures var (outer, after) := ArgsVia(TELLING, cache, s, k - 1);
            outer.On? ==>
              var r := On((outer.value.0, outer.value.1 + [s.frames[k]]));
              ArgsVia(TELLING, cache, s, k) == (r, after[Key(s, k) := r])
  {
    hide Key;
  }

  lemma TellingAdds(cache: ArgCache<Identity>, s: Step, k: nat)
    requires Chained(cache) && WellShaped(s) && 0 < k < |s.frames| && Key(s, k - 1) in cache && Key(s, k) !in cache
    ensures cache[Key(s, k - 1)].On?
    ensures var outer := cache[Key(s, k - 1)].value;
            Chained(cache[Key(s, k) := On((outer.0, outer.1 + [s.frames[k]]))])
  {
    hide Chained;
    KeySome(s, k);
    KeyUp(s, k);
    LinkOf(cache, Key(s, k - 1));
    var outer := cache[Key(s, k - 1)].value;
    var id := (outer.0, outer.1 + [s.frames[k]]);
    assert id.1[..|id.1| - 1] == outer.1;
    ChainedAdd(cache, Key(s, k), id);
  }

  lemma LinkOf(cache: ArgCache<Identity>, key: seq<string>)
    requires Chained(cache) && key in cache
    ensures Link(cache, key)
  {
  }

  /** A cache that answers right for a step's innermost invocation does so for the ones around it. */
  lemma {:induction false} RightAllTheWay(cache: ArgCache<Identity>, s: Step, last: nat, k: nat)
    requires Chained(cache) && WellShaped(s) && k <= last < |s.frames|
    requires Key(s, last) in cache && cache[Key(s, last)] == On((PlaybookPath(s), s.frames[..last + 1]))
    ensures Key(s, k) in cache && cache[Key(s, k)] == On((PlaybookPath(s), s.frames[..k + 1]))
    decreases last
  {
    hide Chained;
    if k < last {
      LinkOf(cache, Key(s, last));
      KeyUp(s, last);
      hide Key;
      assert s.frames[..last + 1][..last] == s.frames[..last];
      RightAllTheWay(cache, s, last - 1, k);
    }
  }

  lemma {:induction false} TellingPlans(cache: ArgCache<Identity>, steps: seq<Step>)
    requires Chained(cache) && Shaped(steps)
    requires forall i :: 0 <= i < |steps| ==> PlansVia(TELLING, cache, steps).0[i] == Plan.Skip
    ensures var after := PlansVia(TELLING, cache, steps).1;
            && Chained(after) && Grows(cache, after)
            && forall s, k: nat :: s in steps && k < |s.frames| ==>
                 Key(s, k) in after && after[Key(s, k)] == On((PlaybookPath(s), s.frames[..k + 1]))
    decreases steps
  {
    if steps != [] {
      assert steps[0] in steps;
      var s := steps[0];
      var (plans, last) := PlansVia(TELLING, cache, steps);
      var (p, after) := PlanVia(TELLING, cache, s);
      var (rest, end) := PlansVia(TELLING, after, steps[1..]);
      assert forall i :: 0 <= i < |rest| ==> rest[i] == plans[i + 1];
      assert p == plans[0];
      TellingStep(cache, s);
      TellingPlans(after, steps[1..]);
      hide Chained, PlansVia, PlanVia, WellShaped, Key, PlaybookPath;
      forall t, k: nat | t in steps && k < |t.frames|
        ensures Key(t, k) in last && last[Key(t, k)] == On((PlaybookPath(t), t.frames[..k + 1]))
      {
        assert t == s || t in steps[1..];
      }
    }
  }

  lemma TellingStep(cache: ArgCache<Identity>, s: Step)
    requires Chained(cache) && WellShaped(s) && PlanVia(TELLING, cache, s).0 == Plan.Skip
    ensures var after := PlanVia(TELLING, cache, s).1;
            && Chained(after) && Grows(cache, after)
            && forall k: nat :: k < |s.frames| ==>
                 Key(s, k) in after && after[Key(s, k)] == On((PlaybookPath(s), s.frames[..k + 1]))
  {
    TellingContainers(PlaybookPath(s), 0);
    hide Containers, Chained, ArgsVia;
    if s.frames != [] {
      var n := |s.frames| - 1;
      TellingVia(cache, s, n);
      var (args, after) := ArgsVia(TELLING, cache, s, n);
      LinkOf(after, Key(s, n));
      TellingAnswer(s, args.value);
      hide Key, Link;
      forall k: nat | k < |s.frames|
        ensures Key(s, k) in after && after[Key(s, k)] == On((PlaybookPath(s), s.frames[..k + 1]))
      {
        RightAllTheWay(after, s, n, k);
      }
    }
  }

  /** The telling body skips exactly under the step's own arguments. */
  lemma TellingAnswer(s: Step, args: Identity)
    requires WellShaped(s) && s.frames != [] && PlanWith(TELLING, s, On(args)) == Plan.Skip
    ensures args == (PlaybookPath(s), s.frames[..|s.frames|])
  {
    SamePath(s, args.0);
    assert s.frames[..|s.frames|] == s.frames;
  }

  lemma SamePath(s: Step, path: seq<string>)
    requires WellShaped(s)
    ensures s.containerPath == path + FrameSteps(s.frames) <==> path == PlaybookPath(s)
  {
    if s.containerPath == path + FrameSteps(s.frames) {
      assert path == s.containerPath[..|path|];
    }
  }

  /** When the telling documents plan as if afresh, no key stands for two invocations. */
  lemma AgreementNeedsExactKeys(steps: seq<Step>)
    requires Shaped(steps) && PlansAgree(TELLING, steps)
    ensures KeysExact(steps)
  {
    var empty: ArgCache<Identity> := map[];
    forall i | 0 <= i < |steps| ensures PlansVia(TELLING, empty, steps).0[i] == Plan.Skip {
      assert steps[i] in steps;
      TellingPlan(steps[i]);
      hide PlanOf, PlansVia;
    }
    TellingPlans(empty, steps);
    hide PlansVia, PlansAgree, Key, WellShaped;
    var after := PlansVia(TELLING, empty, steps).1;
    forall s, t, j: nat, k: nat |
      s in steps && t in steps && j < |s.frames| && k < |t.frames| && Key(s, j) == Key(t, k)
      ensures SameInvocation(s, j, t, k)
    {
      assert |s.frames[..j + 1]| == j + 1 && |t.frames[..k + 1]| == k + 1;
    }
  }

  /** Planning through the caches gives every document the plans of evaluating it afresh if and only if
      no cache key stands for two invocations. */
  lemma CachingIsExactIff(steps: seq<Step>)
    requires Shaped(steps)
    ensures (forall o: Documents<Identity> :: PlansAgree(o, steps)) <==> KeysExact(steps)
  {
    hide KeysExact, PlansAgree;
    if KeysExact(steps) {
      forall o: Documents<Identity> ensures PlansAgree(o, steps) {
        CachingIsExact(o, steps);
      }
    }
    if forall o: Documents<Identity> :: PlansAgree(o, steps) {
      assert PlansAgree(TELLING, steps);
      AgreementNeedsExactKeys(steps);
    }
  }

  lemma NotExact(steps: seq<Step>, s: Step, j: nat, t: Step, k: nat)
    requires Shaped(steps) && s in steps && t in steps && j < |s.frames| && k < |t.frames|
    requires Key(s, j) == Key(t, k) && j != k
    ensures !KeysExact(steps)
  {
    hide Key, WellShaped;
    assert !SameInvocation(s, j, t, k);
  }

  lemma ClashSharesKey()
    ensures Shaped(CLASH_STEPS) && !KeysExact(CLASH_STEPS)
  {
    ClashShapes();
    var s := ClashStep("y", [], ["a", "b"], [FRAME_A, FRAME_AB]);
    var t := ClashStep("y", [], ["a", "b", "c"], [FRAME_B, FRAME_BC]);
    assert CLASH_STEPS[1] == s && CLASH_STEPS[2] == t;
    assert s in CLASH_STEPS && t in CLASH_STEPS;
    SharedKey(s, t);
    hide Key, KeysExact, WellShaped;
    NotExact(CLASH_STEPS, s, 1, t, 0);
  }

  lemma SharedKey(s: Step, t: Step)
    requires WellShaped(s) && WellShaped(t) && |s.frames| == 2 && |t.frames| == 2
    requires s.containerPath == ["a", "b"] && t.containerPath == ["a", "b", "c"]
    ensures Key(s, 1) == Key(t, 0)
  {
    assert Key(s, 1) == ["a", "b"] && Key(t, 0) == ["a", "b"];
  }

  /** In the play with a container named like an invocation the step "y" of the second block gets the
      arguments of another invocation, and its plan changes. */
  lemma ClashBreaksCaching()
    ensures Accepted(CLASH_COMPS, CLASH_DECLS)
    ensures !PlansAgree(TELLING, LoadedSteps(CLASH_COMPS, CLASH_DECLS))
  {
    ClashLoads();
    ClashSharesKey();
    hide KeysExact, PlansAgree, CompositesOk, DeclaredStepsOk, DeclaredNames;
    if PlansAgree(TELLING, CLASH_STEPS) {
      AgreementNeedsExactKeys(CLASH_STEPS);
    }
  }

  // ------------------------------------------------------------- the cached planner

  class Planning<!V> {
    const o: Documents<V>
    var containerCache: map<seq<string>, Scope<()>>
    var argCache: ArgCache<V>
    // How many invocations and how many container conditions were evaluated.
    var evaluated: nat
    var conditions: nat

    constructor (o: Documents<V>)
      ensures this.o == o && Valid() && argCache == map[] && evaluated == 0 && conditions == 0
    {
      this.o := o;
      containerCache, argCache, evaluated, conditions := map[], map[], 0, 0;
    }

    /** The container cache holds true evaluations, and everything cached was evaluated once. */
    ghost predicate Valid()
      reads this
    {
      && (forall p :: p in containerCache ==> containerCache[p] == o.container(p))
      && evaluated == |argCache| && conditions == |containerCache|
    }

    /** The argument scope of a step's k-th invocation, evaluated at most once per key. */
    method Args(s: Step, k: nat) returns (r: Scope<V>)
      requires Valid() && WellShaped(s) && k < |s.frames|
      modifies `argCache, `evaluated
      ensures Valid() && (r, argCache) == ArgsVia(o, old(argCache), s, k)
      ensures forall key :: key in argCache && key !in old(argCache) ==> |key| <= |Key(s, k)|
      decreases k, 1
    {
      var key := Key(s, k);
      if key in argCache {
        return argCache[key];
      }
      r := EvalArgs(s, k);
      argCache := argCache[key := r];
      evaluated := evaluated + 1;
    }

    /** Evaluating one invocation, through the cached scope of the enclosing one. */
    method EvalArgs(s: Step, k: nat) returns (r: Scope<V>)
      requires Valid() && WellShaped(s) && k < |s.frames| && Key(s, k) !in argCache
      modifies `argCache, `evaluated
      ensures Valid() && (r, argCache[Key(s, k) := r]) == ArgsVia(o, old(argCache), s, k)
      ensures forall key :: key in argCache && key !in old(argCache) ==> |key| < |Key(s, k)|
      decreases k, 0
    {
      var f := s.frames[k];
      if !o.declared(f.package, f.composite) {
        return Bad;
      }
      if k == 0 {
        return o.outermost(PlaybookPath(s), f);
      }
      KeyUp(s, k);
      var outer := Args(s, k - 1);
      match outer {
        case Off => r := Off;
        case Bad => r := Bad;
        case On(scope) => r := o.nested(s.frames[k - 1], scope, f);
      }
    }

    /** The plan of one step: its containers from the outermost in, then its own block or its invocations. */
    method PlanStep(s: Step) returns (p: Plan)
      requires Valid() && WellShaped(s)
      modifies this
      ensures Valid() && (p, argCache) == PlanVia(o, old(argCache), s)
    {
      hide ArgsVia, Containers;
      var inherited := CheckContainers(PlaybookPath(s));
      match inherited {
        case Off => return Skip;
        case Bad => return Fail;
        case On(_) =>
      }
      if s.frames == [] {
        return o.own(s);
      }
      var args := Args(s, |s.frames| - 1);
      match args {
        case Off => p := Skip;
        case Bad => p := Fail;
        case On(a) => p := o.body(s, a);
      }
    }

    method Condition(path: seq<string>) returns (r: Scope<()>)
      requires Valid()
      modifies `containerCache, `conditions
      ensures Valid() && r == o.container(path)
    {
      if path !in containerCache {
        containerCache := containerCache[path := o.container(path)];
        conditions := conditions + 1;
      }
      r := containerCache[path];
    }

    /** The conditions a step inherits, each container evaluated at most once. */
    method CheckContainers(path: seq<string>) returns (r: Scope<()>)
      requires Valid()
      modifies `containerCache, `conditions
      ensures Valid() && r == Containers(o, path, 0)
    {
      ghost var goal := Containers(o, path, 0);
      for depth := 0 to |path|
        invariant Valid() && Containers(o, path, depth) == goal
      {
        var prefix := path[..depth + 1];
        var condition := Condition(prefix);
        if !condition.On? {
          return condition;
        }
      }
      r := On(());
    }

    method PlanAll(steps: seq<Step>) returns (plans: seq<Plan>)
      requires Valid() && Shaped(steps)
      modifies this
      ensures Valid() && (plans, argCache) == PlansVia(o, old(argCache), steps)
    {
      hide PlanVia, PlansVia, WellShaped;
      plans := [];
      ghost var goal := PlansVia(o, argCache, steps);
      assert steps[0..] == steps && [] + goal.0 == goal.0;
      for i := 0 to |steps|
        invariant Valid() && |plans| == i
        invariant Shaped(steps[i..])
        invariant (plans + PlansVia(o, argCache, steps[i..]).0, PlansVia(o, argCache, steps[i..]).1) == goal
      {
        assert steps[i] in steps;
        PlansFrom(o, argCache, steps, i, plans);
        var p := PlanStep(steps[i]);
        plans := plans + [p];
      }
      NoPlans(o, argCache);
      assert steps[|steps|..] == [] && plans + [] == plans;
    }
  }

  lemma NoPlans<V>(o: Documents<V>, cache: ArgCache<V>)
    ensures PlansVia(o, cache, []) == ([], cache)
  {
  }

  /** Planning the next step moves its plan from what is to come to what is there. */
  lemma PlansFrom<V>(o: Documents<V>, cache: ArgCache<V>, steps: seq<Step>, i: nat, plans: seq<Plan>)
    requires i < |steps| && Shaped(steps) && Shaped(steps[i..]) && WellShaped(steps[i])
    ensures Shaped(steps[i + 1..])
    ensures var (p, after) := PlanVia(o, cache, steps[i]);
            var rest := PlansVia(o, after, steps[i + 1..]);
            && plans + PlansVia(o, cache, steps[i..]).0 == plans + [p] + rest.0
            && PlansVia(o, cache, steps[i..]).1 == rest.1
  {
    hide PlanVia, WellShaped;
    assert steps[i..][1..] == steps[i + 1..] && steps[i..][0] == steps[i];
    var (p, after) := PlanVia(o, cache, steps[i]);
    assert plans + ([p] + PlansVia(o, after, steps[i + 1..]).0) == plans + [p] + PlansVia(o, after, steps[i + 1..]).0;
  }

  /** Planning a loaded play: the plans of the caching evaluation, and with exact keys every step's plan
      is the one that evaluating everything afresh for it would give. */
  method PlanPlay<V>(o: Documents<V>, comps: Composites, decls: seq<Decl>) returns (plans: seq<Plan>)
    requires CompositesOk(comps) && DeclaredStepsOk(comps, decls) && Distinct(DeclaredNames(decls))
    ensures var steps := LoadedSteps(comps, decls);
            && plans == CachedPlans(o, steps) && |plans| == |steps|
            && (KeysExact(steps) ==>
                  forall i :: 0 <= i < |steps| ==> WellShaped(steps[i]) && plans[i] == PlanOf(o, steps[i]))
  {
    hide KeysExact, PlanOf, PlansVia, LoadedSteps;
    var steps := LoadedSteps(comps, decls);
    var planning := new Planning(o);
    plans := planning.PlanAll(steps);
    if KeysExact(steps) {
      CachingIsExact(o, steps);
      assert forall i :: 0 <= i < |steps| ==> steps[i] in steps;
    }
  }

  // ------------------------------------------------------------------- one block

  datatype ResourceDecl = ResourceDecl(concurrency: Concurrency, lock: Option<string>)

  /** The plan of a step from its own block: `params` is none when a property or a default fails. */
  function PlanFromBlock(condition: Scope<()>, s: Step, resource: Option<ResourceDecl>, probe: bool, params: Option<()>,
                         spec: Option<WaitSteps.WaitSpec>): Plan
  {
    if condition.Off? then Plan.Skip
    else if condition.Bad? then Plan.Fail
    else if s.kind == WaitStep then
      if probe && params.Some? && spec.Some? then Plan.Wait(KeyOf(s.package, s.resource)) else Plan.Fail
    else if resource.None? || params.None? then Plan.Fail
    else
      var decl := resource.value;
      Plan.Run(KeyOf(s.package, s.resource), MaxOpt(s.concurrency, Some(decl.concurrency)).value,
               if decl.lock.None? then None else Some((s.package, decl.lock.value)))
  }

  /** A step may tighten its resource's class but never loosens it, and holds its resource's lock
      under its own package. Skipped, failed and waiting steps hold nothing. */
  lemma ClassIsNeverLoosened(condition: Scope<()>, s: Step, resource: Option<ResourceDecl>, probe: bool,
                             params: Option<()>, spec: Option<WaitSteps.WaitSpec>)
    ensures var p := PlanFromBlock(condition, s, resource, probe, params, spec);
            && (p.Run? <==> condition.On? && s.kind == ResourceStep && resource.Some? && params.Some?)
            && (p.Wait? <==> condition.On? && s.kind == WaitStep && probe && params.Some? && spec.Some?)
            && (p.Skip? <==> condition.Off?)
            && (p.Run? ==>
                  && Plays.Rank(p.concurrency) >= Plays.Rank(resource.value.concurrency)
                  && (s.concurrency.Some? ==> Plays.Rank(p.concurrency) >= Plays.Rank(s.concurrency.value))
                  && (p.concurrency == resource.value.concurrency || Some(p.concurrency) == s.concurrency)
                  && (p.lock.Some? <==> resource.value.lock.Some?)
                  && (p.lock.Some? ==> p.lock.value == (s.package, resource.value.lock.value)))
  {
  }
}
