/** Composite expansion as the loader performs it, and what it guarantees of the
    steps it emits (src/model/load.rs:488-577). */
module Expansion {
  import opened Wrappers
  import opened Plans
  import opened Plays
  import opened Sequences

  /** The loader's working state: the invocation chain, pushed and popped around
      each body, and the number of diagnostics. */
  class Loader {
    const comps: Composites
    var chain: seq<string>
    var errors: nat

    constructor (comps: Composites)
      ensures this.comps == comps && chain == [] && errors == 0
    {
      this.comps := comps;
      chain := [];
      errors := 0;
    }

    /** Expand one invocation. Terminates for every set of declarations, cyclic
        ones included, and leaves the chain as it found it. */
    method ExpandComposite(inv: Invocation, containers: seq<string>, frames: seq<Frame>) returns (items: seq<PlayItem>)
      modifies this
      ensures chain == old(chain)
      ensures items == Expand(comps, inv, containers, frames, chain)
      ensures errors >= old(errors)
      ensures KeyOf(inv.package, inv.composite) in chain || |chain| >= MAX_COMPOSITE_DEPTH ==>
                items == [] && errors == old(errors) + 1
      decreases MAX_COMPOSITE_DEPTH - |chain|
    {
      var key := KeyOf(inv.package, inv.composite);
      items := [];
      if key in chain {
        errors := errors + 1;
        return;
      }
      if |chain| >= MAX_COMPOSITE_DEPTH {
        errors := errors + 1;
        return;
      }
      if (inv.package, inv.composite) !in comps {
        return;
      }
      var path := containers + [inv.name];
      var childFrames := frames + [FrameOf(inv)];
      ghost var before := chain;
      chain := chain + [key];
      var templates := comps[(inv.package, inv.composite)];
      var i := 0;
      while i < |templates|
        invariant 0 <= i <= |templates| && chain == before + [key] && errors >= old(errors)
        invariant items + ExpandBody(comps, templates[i..], inv, path, childFrames, chain)
               == ExpandBody(comps, templates, inv, path, childFrames, chain)
      {
        var t := templates[i];
        if IsComposite(comps, t) {
          var inner := ExpandComposite(Nested(t, inv), path, childFrames);
          items := items + [ContainerItem(t.name, inner)];
        } else {
          items := items + [StepItem(Instance(t, inv, path, childFrames))];
        }
        i := i + 1;
      }
      chain := chain[..|chain| - 1];
      assert chain == before;
    }

    /** Load a play's declarations into items, collecting what the playbook itself
        declares: an invocation once, under its own name. */
    method LoadItems(decls: seq<Decl>, containers: seq<string>)
      returns (items: seq<PlayItem>, declared: seq<Declaration>)
      requires chain == []
      modifies this
      ensures chain == [] && errors >= old(errors)
      ensures items == Load(comps, decls, containers)
      ensures declared == Declarations(decls)
      decreases decls, 0
    {
      items, declared := [], [];
      var i := 0;
      while i < |decls|
        invariant 0 <= i <= |decls| && chain == [] && errors >= old(errors)
        invariant items + Load(comps, decls[i..], containers) == Load(comps, decls, containers)
        invariant declared + Declarations(decls[i..]) == Declarations(decls)
      {
        var item, more := LoadItem(decls[i], containers);
        items := items + [item];
        declared := declared + more;
        i := i + 1;
      }
    }

    method LoadItem(decl: Decl, containers: seq<string>) returns (item: PlayItem, declared: seq<Declaration>)
      requires chain == []
      modifies this
      ensures chain == [] && errors >= old(errors)
      ensures item == LoadOne(comps, decl, containers)
      ensures declared == DeclarationsOf(decl)
      decreases decl, 0
    {
      match decl {
        case StepDecl(s) =>
          declared := [Declaration(s.name, s.needs)];
          item := StepItem(s.(containerPath := containers, frames := []));
        case InvokeDecl(inv) =>
          declared := [Declaration(inv.name, inv.needs)];
          var inner := ExpandComposite(inv, containers, []);
          item := ContainerItem(inv.name, inner);
        case ContainerDecl(name, body) =>
          var inner;
          inner, declared := LoadItems(body, containers + [name]);
          item := ContainerItem(name, inner);
      }
    }

    /** Load one play, then check what the playbook declares in it. */
    method LoadPlay(decls: seq<Decl>) returns (items: seq<PlayItem>)
      requires chain == []
      modifies this
      ensures chain == [] && items == Load(comps, decls, [])
      ensures errors == old(errors) ==> Distinct(DeclaredNames(decls)) && RequiresKnown(Declarations(decls))
    {
      var declared;
      items, declared := LoadItems(decls, []);
      DeclarationNames(decls);
      CheckNames(declared);
      CheckRequires(declared);
    }

    /** One diagnostic for every repeated name. */
    method CheckNames(declared: seq<Declaration>)
      modifies `errors
      ensures errors >= old(errors) && (errors == old(errors) <==> Distinct(NamesIn(declared)))
    {
      ghost var all := NamesIn(declared);
      var names: set<string> := {};
      for i := 0 to |declared|
        invariant errors >= old(errors)
        invariant names == set k | 0 <= k < i :: declared[k].name
        invariant errors == old(errors) <==> Distinct(all[..i])
      {
        assert all[..i + 1] == all[..i] + [declared[i].name];
        if declared[i].name in names {
          var k :| 0 <= k < i && declared[k].name == declared[i].name;
          assert all[..i + 1][k] == all[..i + 1][i];
          errors := errors + 1;
        } else {
          assert forall k :: 0 <= k < i ==> all[..i + 1][k] == declared[k].name && declared[k].name in names;
        }
        assert Distinct(all[..i + 1]) ==> Distinct(all[..i]);
        names := names + {declared[i].name};
      }
      assert all[..|declared|] == all;
    }

    /** One diagnostic for every step requiring itself or a name nobody declares. */
    method CheckRequires(declared: seq<Declaration>)
      modifies `errors
      ensures errors >= old(errors) && (errors == old(errors) <==> RequiresKnown(declared))
    {
      var names := NamesIn(declared);
      for i := 0 to |declared|
        invariant errors >= old(errors)
        invariant errors == old(errors) <==> forall k :: 0 <= k < i ==> NeedsKnown(declared[k], names)
      {
        var d := declared[i];
        ghost var before := errors;
        for r := 0 to |d.needs|
          invariant errors >= before
          invariant errors == before <==> forall q :: 0 <= q < r ==> d.needs[q] != d.name && d.needs[q] in names
        {
          if d.needs[r] == d.name || d.needs[r] !in names {
            errors := errors + 1;
          }
        }
      }
    }
  }

  // ------------------------------------------------------------- emitted steps

  /** What every step emitted under the given path, frames and chain looks like. */
  ghost predicate Emitted(comps: Composites, s: Step, path: seq<string>, frames: seq<Frame>, chain: seq<string>)
  {
    && frames <= s.frames
    && s.containerPath == path + FrameSteps(s.frames[|frames|..])
    && |chain| + |s.frames| - |frames| <= MAX_COMPOSITE_DEPTH
    && Distinct(chain + FrameKeys(s.frames[|frames|..]))
    && !IsComposite(comps, s)
  }

  lemma UnderInvocation(comps: Composites, s: Step, inv: Invocation, containers: seq<string>, frames: seq<Frame>,
                        chain: seq<string>)
    requires Emitted(comps, s, containers + [inv.name], frames + [FrameOf(inv)],
                     chain + [KeyOf(inv.package, inv.composite)])
    ensures Emitted(comps, s, containers, frames, chain)
  {
    var n := |frames|;
    var rest := s.frames[n + 1..];
    assert s.frames[n] == (frames + [FrameOf(inv)])[n];
    assert s.frames[n..] == [FrameOf(inv)] + rest;
    assert FrameSteps(s.frames[n..]) == [inv.name] + FrameSteps(rest);
    assert FrameKeys(s.frames[n..]) == [KeyOf(inv.package, inv.composite)] + FrameKeys(rest);
    assert s.containerPath == containers + FrameSteps(s.frames[n..]);
    assert chain + FrameKeys(s.frames[n..]) == (chain + [KeyOf(inv.package, inv.composite)]) + FrameKeys(rest);
  }

  /** Every step an invocation expands into is a resource or probe step under that
      invocation: the chain of composites never repeats, at most eight nest, and its
      path is the containers followed by its frames' step names. */
  lemma {:induction false} ExpandEmits(comps: Composites, inv: Invocation, containers: seq<string>, frames: seq<Frame>,
                                       chain: seq<string>, s: Step)
    requires Distinct(chain) && s in Flatten(Expand(comps, inv, containers, frames, chain))
    ensures Emitted(comps, s, containers, frames, chain)
    ensures |frames| < |s.frames| && s.frames[|frames|] == FrameOf(inv)
    decreases MAX_COMPOSITE_DEPTH - |chain|, 1, 0
  {
    var key := KeyOf(inv.package, inv.composite);
    BodyEmits(comps, comps[(inv.package, inv.composite)], inv, containers + [inv.name], frames + [FrameOf(inv)],
              chain + [key], s);
    assert (frames + [FrameOf(inv)])[|frames|] == FrameOf(inv);
    UnderInvocation(comps, s, inv, containers, frames, chain);
  }

  lemma {:induction false} BodyEmits(comps: Composites, templates: seq<Step>, inv: Invocation, path: seq<string>,
                                     frames: seq<Frame>, chain: seq<string>, s: Step)
    requires Distinct(chain) && |chain| <= MAX_COMPOSITE_DEPTH
    requires s in Flatten(ExpandBody(comps, templates, inv, path, frames, chain))
    ensures Emitted(comps, s, path, frames, chain)
    decreases MAX_COMPOSITE_DEPTH - |chain|, 2, |templates|
  {
    var item := ExpandOne(comps, templates[0], inv, path, frames, chain);
    var rest := ExpandBody(comps, templates[1..], inv, path, frames, chain);
    assert ([item] + rest)[1..] == rest;
    if s in Flatten(rest) {
      BodyEmits(comps, templates[1..], inv, path, frames, chain, s);
    } else if item.ContainerItem? {
      ExpandEmits(comps, Nested(templates[0], inv), path, frames, chain, s);
    } else {
      assert s.frames[|frames|..] == [];
      assert path + FrameSteps([]) == path && chain + FrameKeys([]) == chain;
    }
  }

  /** Every step of a loaded play, composite or not, has a well-shaped path, at most
      eight frames, no composite repeated among them, and is itself no composite. */
  lemma {:induction false} LoadEmits(comps: Composites, decls: seq<Decl>, containers: seq<string>, s: Step)
    requires s in Flatten(Load(comps, decls, containers))
    requires DeclaredStepsOk(comps, decls)
    ensures WellShaped(s) && containers <= PlaybookPath(s)
    ensures |s.frames| <= MAX_COMPOSITE_DEPTH && Distinct(FrameKeys(s.frames)) && !IsComposite(comps, s)
  {
    var items := Load(comps, decls, containers);
    var rest := Load(comps, decls[1..], containers);
    assert items[1..] == rest;
    if s in Flatten(rest) {
      LoadEmits(comps, decls[1..], containers, s);
    } else {
      match decls[0]
      case StepDecl(_) =>
        assert PlaybookPath(s) == containers && containers + FrameSteps([]) == containers;
      case InvokeDecl(inv) =>
        ExpandEmits(comps, inv, containers, [], [], s);
        assert s.frames[0..] == s.frames && [] + FrameKeys(s.frames) == FrameKeys(s.frames);
        assert PlaybookPath(s) == containers;
      case ContainerDecl(name, body) =>
        LoadEmits(comps, body, containers + [name], s);
        assert containers + [name] <= PlaybookPath(s);
    }
  }

  /** A step the loader keeps as a step names no composite: load_step turns those
      into invocations. */
  predicate DeclaredStepsOk(comps: Composites, decls: seq<Decl>)
  {
    decls == [] ||
    ((match decls[0]
      case StepDecl(s) => !IsComposite(comps, s)
      case InvokeDecl(_) => true
      case ContainerDecl(_, body) => DeclaredStepsOk(comps, body)) && DeclaredStepsOk(comps, decls[1..]))
  }

  // ------------------------------------------------------------------ provenance

  /** A step is a template of a composite but for its class, its path and its frames. */
  ghost predicate FromTemplate(templates: seq<Step>, s: Step)
  {
    exists t :: t in templates && t.name == s.name && t.package == s.package && t.resource == s.resource &&
      t.kind == s.kind && t.needs == s.needs
  }

  /** An invocation is a template step of a composite that names another composite. */
  ghost predicate FromNesting(templates: seq<Step>, f: Frame)
  {
    exists t :: t in templates && f == Frame(t.name, t.package, t.resource, t.needs)
  }

  /** From level d on every frame was declared by the composite of the one before, and the step
      itself by the last. */
  ghost predicate Declared(comps: Composites, s: Step, d: nat)
  {
    && (forall k :: d <= k < |s.frames| ==> (s.frames[k].package, s.frames[k].composite) in comps)
    && (forall k :: d <= k < |s.frames| - 1 ==>
          FromNesting(comps[(s.frames[k].package, s.frames[k].composite)], s.frames[k + 1]))
    && (d < |s.frames| ==>
          FromTemplate(comps[(s.frames[|s.frames| - 1].package, s.frames[|s.frames| - 1].composite)], s))
  }

  /** Expansion invents nothing: every emitted step and every frame of it is declared where its
      chain says, with the requires written there. */
  lemma {:induction false} ExpandDeclared(comps: Composites, inv: Invocation, containers: seq<string>,
                                          frames: seq<Frame>, chain: seq<string>, s: Step)
    requires Distinct(chain) && s in Flatten(Expand(comps, inv, containers, frames, chain))
    ensures Declared(comps, s, |frames|)
    ensures |frames| < |s.frames| && s.frames[|frames|] == FrameOf(inv)
    decreases MAX_COMPOSITE_DEPTH - |chain|, 1, 0
  {
    var templates := comps[(inv.package, inv.composite)];
    var inner := frames + [FrameOf(inv)];
    ExpandEmits(comps, inv, containers, frames, chain, s);
    BodyDeclared(comps, templates, templates, inv, containers + [inv.name], inner,
                 chain + [KeyOf(inv.package, inv.composite)], s);
  }

  lemma {:induction false} BodyDeclared(comps: Composites, all: seq<Step>, templates: seq<Step>, inv: Invocation,
                                        path: seq<string>, frames: seq<Frame>, chain: seq<string>, s: Step)
    requires Distinct(chain) && |chain| <= MAX_COMPOSITE_DEPTH && forall t :: t in templates ==> t in all
    requires s in Flatten(ExpandBody(comps, templates, inv, path, frames, chain))
    ensures Declared(comps, s, |frames|) && frames <= s.frames
    ensures if |s.frames| == |frames| then FromTemplate(all, s) else FromNesting(all, s.frames[|frames|])
    decreases MAX_COMPOSITE_DEPTH - |chain|, 2, |templates|
  {
    BodyEmits(comps, templates, inv, path, frames, chain, s);
    var t := templates[0];
    var item := ExpandOne(comps, t, inv, path, frames, chain);
    var rest := ExpandBody(comps, templates[1..], inv, path, frames, chain);
    assert t in templates && ([item] + rest)[1..] == rest;
    if s in Flatten(rest) {
      BodyDeclared(comps, all, templates[1..], inv, path, frames, chain, s);
    } else if item.ContainerItem? {
      ExpandDeclared(comps, Nested(t, inv), path, frames, chain, s);
    } else {
      assert s == Instance(t, inv, path, frames);
    }
  }

  /** The same for every step of a loaded play. */
  lemma {:induction false} LoadDeclared(comps: Composites, decls: seq<Decl>, containers: seq<string>, s: Step)
    requires s in Flatten(Load(comps, decls, containers))
    ensures Declared(comps, s, 0)
  {
    var items := Load(comps, decls, containers);
    var rest := Load(comps, decls[1..], containers);
    assert items[0] == LoadOne(comps, decls[0], containers) && items[1..] == rest;
    if s in Flatten(rest) {
      LoadDeclared(comps, decls[1..], containers, s);
    } else {
      match decls[0]
      case StepDecl(_) =>
      case InvokeDecl(inv) => ExpandDeclared(comps, inv, containers, [], [], s);
      case ContainerDecl(name, body) => LoadDeclared(comps, body, containers + [name], s);
    }
  }

  // -------------------------------------------------------- names stay unique

  /** No step's trail is a prefix of another's: every step and every invocation
      block has a name of its own in the scope that declares it. */
  ghost predicate PrefixFree(steps: seq<Step>)
  {
    forall i, j :: 0 <= i < |steps| && 0 <= j < |steps| && i != j ==> !(Trail(steps[i]) <= Trail(steps[j]))
  }

  /** At depth d every step's trail carries one of the given names. */
  ghost predicate Headed(steps: seq<Step>, d: nat, names: seq<string>)
  {
    forall s :: s in steps ==> d < |Trail(s)| && Trail(s)[d] in names
  }

  lemma JoinPrefixFree(a: seq<Step>, b: seq<Step>, d: nat, an: seq<string>, bn: seq<string>)
    requires PrefixFree(a) && PrefixFree(b) && Headed(a, d, an) && Headed(b, d, bn)
    requires Distinct(an + bn)
    ensures PrefixFree(a + b) && Headed(a + b, d, an + bn)
  {
    forall i, j | 0 <= i < |a| && 0 <= j < |b|
      ensures !(Trail(a[i]) <= Trail(b[j])) && !(Trail(b[j]) <= Trail(a[i]))
    {
      assert a[i] in a && b[j] in b;
      var x, y := Trail(a[i])[d], Trail(b[j])[d];
      var k, l :| 0 <= k < |an| && an[k] == x && 0 <= l < |bn| && bn[l] == y;
      assert (an + bn)[k] == x && (an + bn)[|an| + l] == y;
    }
    forall i, j | 0 <= i < |a + b| && 0 <= j < |a + b| && i != j ensures !(Trail((a + b)[i]) <= Trail((a + b)[j])) {
    }
  }

  lemma SplitDistinct<T>(a: seq<T>, b: seq<T>)
    requires Distinct(a + b)
    ensures Distinct(a) && Distinct(b)
  {
    forall i, j | 0 <= i < j < |a| ensures a[i] != a[j] {
      assert (a + b)[i] == a[i] && (a + b)[j] == a[j];
    }
    forall i, j | 0 <= i < j < |b| ensures b[i] != b[j] {
      assert (a + b)[|a| + i] == b[i] && (a + b)[|a| + j] == b[j];
    }
  }

  lemma {:induction false} ExpandPrefixFree(comps: Composites, inv: Invocation, containers: seq<string>,
                                            frames: seq<Frame>, chain: seq<string>)
    requires CompositesOk(comps) && Distinct(chain)
    ensures PrefixFree(Flatten(Expand(comps, inv, containers, frames, chain)))
    ensures Headed(Flatten(Expand(comps, inv, containers, frames, chain)), |frames|, [inv.name])
    decreases MAX_COMPOSITE_DEPTH - |chain|, 1, 0
  {
    var key := KeyOf(inv.package, inv.composite);
    if !(key in chain || |chain| >= MAX_COMPOSITE_DEPTH || (inv.package, inv.composite) !in comps) {
      var templates := comps[(inv.package, inv.composite)];
      BodyPrefixFree(comps, templates, inv, containers + [inv.name], frames + [FrameOf(inv)], chain + [key]);
    }
    forall s | s in Flatten(Expand(comps, inv, containers, frames, chain))
      ensures |frames| < |Trail(s)| && Trail(s)[|frames|] in [inv.name]
    {
      ExpandEmits(comps, inv, containers, frames, chain, s);
    }
  }

  lemma {:induction false} BodyPrefixFree(comps: Composites, templates: seq<Step>, inv: Invocation, path: seq<string>,
                                          frames: seq<Frame>, chain: seq<string>)
    requires CompositesOk(comps) && Distinct(chain) && |chain| <= MAX_COMPOSITE_DEPTH
    requires Distinct(TemplateNames(templates))
    ensures PrefixFree(Flatten(ExpandBody(comps, templates, inv, path, frames, chain)))
    ensures Headed(Flatten(ExpandBody(comps, templates, inv, path, frames, chain)), |frames|, TemplateNames(templates))
    decreases MAX_COMPOSITE_DEPTH - |chain|, 2, |templates|
  {
    if templates != [] {
      var item := ExpandOne(comps, templates[0], inv, path, frames, chain);
      var rest := ExpandBody(comps, templates[1..], inv, path, frames, chain);
      var name, names := [templates[0].name], TemplateNames(templates[1..]);
      assert ([item] + rest)[1..] == rest;
      assert TemplateNames(templates) == name + names;
      SplitDistinct(name, names);
      BodyPrefixFree(comps, templates[1..], inv, path, frames, chain);
      if item.ContainerItem? {
        ExpandPrefixFree(comps, Nested(templates[0], inv), path, frames, chain);
        JoinPrefixFree(Flatten(item.items), Flatten(rest), |frames|, name, names);
      } else {
        assert Trail(item.step)[|frames|] == templates[0].name;
        JoinPrefixFree([item.step], Flatten(rest), |frames|, name, names);
      }
    }
  }

  /** A play whose declared names are distinct loads to steps with prefix-free trails. */
  lemma {:induction false} LoadPrefixFree(comps: Composites, decls: seq<Decl>, containers: seq<string>)
    requires CompositesOk(comps) && Distinct(DeclaredNames(decls))
    ensures PrefixFree(Flatten(Load(comps, decls, containers)))
    ensures Headed(Flatten(Load(comps, decls, containers)), 0, DeclaredNames(decls))
  {
    if decls != [] {
      var items := Load(comps, decls, containers);
      var rest := Load(comps, decls[1..], containers);
      assert items[1..] == rest;
      var here := NamesOf(decls[0]);
      SplitDistinct(here, DeclaredNames(decls[1..]));
      LoadPrefixFree(comps, decls[1..], containers);
      match decls[0] {
        case StepDecl(s) =>
          assert Trail(items[0].step) == [s.name];
          JoinPrefixFree([items[0].step], Flatten(rest), 0, here, DeclaredNames(decls[1..]));
        case InvokeDecl(inv) =>
          ExpandPrefixFree(comps, inv, containers, [], []);
          JoinPrefixFree(Flatten(items[0].items), Flatten(rest), 0, here, DeclaredNames(decls[1..]));
        case ContainerDecl(name, body) =>
          LoadPrefixFree(comps, body, containers + [name]);
          JoinPrefixFree(Flatten(items[0].items), Flatten(rest), 0, here, DeclaredNames(decls[1..]));
      }
    }
  }

  // ------------------------------------------------------------- inherited class

  /** The template of that name. */
  function TemplateNamed(templates: seq<Step>, name: string): Option<Step>
  {
    if templates == [] then None
    else if templates[0].name == name then Some(templates[0])
    else TemplateNamed(templates[1..], name)
  }

  lemma {:induction false} NamesFind(templates: seq<Step>, k: nat)
    requires Distinct(TemplateNames(templates)) && k < |templates|
    ensures TemplateNamed(templates, templates[k].name) == Some(templates[k])
  {
    if k > 0 {
      assert TemplateNames(templates)[0] != TemplateNames(templates)[k];
      assert TemplateNames(templates) == [templates[0].name] + TemplateNames(templates[1..]);
      SplitDistinct([templates[0].name], TemplateNames(templates[1..]));
      NamesFind(templates[1..], k - 1);
    }
  }

  /** The class that a template of the frame's composite declares. */
  function ClassIn(comps: Composites, f: Frame, name: string): Option<Concurrency>
  {
    if (f.package, f.composite) !in comps then None
    else
      var t := TemplateNamed(comps[(f.package, f.composite)], name);
      if t.None? then None else t.value.concurrency
  }

  /** What the invocations of a chain declare, from the outermost in; `outer` is the first one's class. */
  function DeclaredClasses(comps: Composites, outer: Option<Concurrency>, frames: seq<Frame>)
    : (cs: seq<Option<Concurrency>>)
    ensures |cs| == |frames|
    decreases |frames|
  {
    if |frames| <= 1 then (if frames == [] then [] else [outer])
    else [outer] + DeclaredClasses(comps, ClassIn(comps, frames[0], frames[1].step), frames[1..])
  }

  /** The innermost declared class of a chain. */
  function Innermost(cs: seq<Option<Concurrency>>): Option<Concurrency>
  {
    if cs == [] then None
    else if cs[|cs| - 1].Some? then cs[|cs| - 1]
    else Innermost(cs[..|cs| - 1])
  }

  /** Passing a class inwards unless the next invocation declares its own does not change the innermost one. */
  lemma {:induction false} InnermostShift(c: Option<Concurrency>, d: Option<Concurrency>,
                                          rest: seq<Option<Concurrency>>)
    ensures Innermost([c] + ([d] + rest)) == Innermost([if d.Some? then d else c] + rest)
  {
    var a, b := [c] + ([d] + rest), [if d.Some? then d else c] + rest;
    if rest == [] {
      assert a[..1] == [c] && a[..1][..0] == [] && b[..0] == [];
    } else {
      var init := rest[..|rest| - 1];
      assert a[..|a| - 1] == [c] + ([d] + init) && b[..|b| - 1] == [if d.Some? then d else c] + init;
      InnermostShift(c, d, init);
    }
  }

  /** From level d on, with `outer` the class of the invocation there, a step has the tighter of its own
      declared class and the innermost class declared around it; a wait step has none. */
  ghost predicate ClassFrom(comps: Composites, s: Step, outer: Option<Concurrency>, d: nat)
  {
    && d < |s.frames|
    && s.concurrency ==
         if s.kind == WaitStep then None
         else MaxOpt(ClassIn(comps, s.frames[|s.frames| - 1], s.name),
                     Innermost(DeclaredClasses(comps, outer, s.frames[d..])))
  }

  /** The class every emitted step has: expansion hands down the innermost declared class and no other. */
  lemma {:induction false} ExpandClass(comps: Composites, inv: Invocation, containers: seq<string>, frames: seq<Frame>,
                                       chain: seq<string>, s: Step)
    requires CompositesOk(comps) && Distinct(chain) && s in Flatten(Expand(comps, inv, containers, frames, chain))
    ensures ClassFrom(comps, s, inv.concurrency, |frames|)
    decreases MAX_COMPOSITE_DEPTH - |chain|, 1, 0
  {
    var templates := comps[(inv.package, inv.composite)];
    var inner := frames + [FrameOf(inv)];
    var n := |frames|;
    ExpandEmits(comps, inv, containers, frames, chain, s);
    forall k | 0 <= k < |templates| ensures TemplateNamed(templates, templates[k].name) == Some(templates[k]) {
      NamesFind(templates, k);
    }
    BodyClass(comps, templates, templates, inv, containers + [inv.name], inner,
              chain + [KeyOf(inv.package, inv.composite)], s);
    hide Expand, ExpandBody, Flatten, CompositesOk, Distinct, MaxOpt, DeclaredClasses, ClassIn, Innermost, ClassFrom;
    if |s.frames| == n + 1 {
      OneFrameClass(comps, s, inv, n);
    } else {
      DeeperClass(comps, s, inv, n);
    }
  }

  lemma OneFrameClass(comps: Composites, s: Step, inv: Invocation, n: nat)
    requires |s.frames| == n + 1 && s.frames[n] == FrameOf(inv) && (inv.package, inv.composite) in comps
    requires var t := TemplateNamed(comps[(inv.package, inv.composite)], s.name);
             t.Some? &&
             s.concurrency == if s.kind == WaitStep then None else MaxOpt(t.value.concurrency, inv.concurrency)
    ensures ClassFrom(comps, s, inv.concurrency, n)
  {
    assert s.frames[n..] == [FrameOf(inv)];
    assert [inv.concurrency][..0] == [];
    assert Innermost([inv.concurrency]) == inv.concurrency;
  }

  lemma DeeperClass(comps: Composites, s: Step, inv: Invocation, n: nat)
    requires |s.frames| > n + 1 && s.frames[n] == FrameOf(inv) && (inv.package, inv.composite) in comps
    requires var t := TemplateNamed(comps[(inv.package, inv.composite)], s.frames[n + 1].step);
             t.Some? && ClassFrom(comps, s, Nested(t.value, inv).concurrency, n + 1)
    ensures ClassFrom(comps, s, inv.concurrency, n)
  {
    var t := TemplateNamed(comps[(inv.package, inv.composite)], s.frames[n + 1].step).value;
    var deeper := s.frames[n + 1..];
    assert s.frames[n..][1..] == deeper && s.frames[n..][1] == deeper[0] && s.frames[n..][0] == FrameOf(inv);
    ClassesShift(comps, inv.concurrency, t.concurrency, deeper);
    hide Innermost, TemplateNamed;
    assert ClassIn(comps, FrameOf(inv), deeper[0].step) == t.concurrency;
    assert DeclaredClasses(comps, inv.concurrency, s.frames[n..]) ==
           [inv.concurrency] + DeclaredClasses(comps, t.concurrency, deeper);
  }

  lemma ClassesShift(comps: Composites, c: Option<Concurrency>, d: Option<Concurrency>, frames: seq<Frame>)
    requires frames != []
    ensures Innermost([c] + DeclaredClasses(comps, d, frames)) ==
            Innermost(DeclaredClasses(comps, if d.Some? then d else c, frames))
  {
    var rest := DeclaredClasses(comps, d, frames)[1..];
    var e := if d.Some? then d else c;
    assert DeclaredClasses(comps, d, frames) == [d] + rest;
    assert DeclaredClasses(comps, e, frames) == [e] + rest;
    InnermostShift(c, d, rest);
  }

  lemma {:induction false} BodyClass(comps: Composites, all: seq<Step>, templates: seq<Step>, inv: Invocation,
                                     path: seq<string>, frames: seq<Frame>, chain: seq<string>, s: Step)
    requires CompositesOk(comps) && Distinct(chain) && |chain| <= MAX_COMPOSITE_DEPTH
    requires forall k :: 0 <= k < |templates| ==> TemplateNamed(all, templates[k].name) == Some(templates[k])
    requires s in Flatten(ExpandBody(comps, templates, inv, path, frames, chain))
    ensures frames <= s.frames
    ensures if |s.frames| == |frames| then
              var t := TemplateNamed(all, s.name);
              t.Some? &&
              s.concurrency == if s.kind == WaitStep then None else MaxOpt(t.value.concurrency, inv.concurrency)
            else
              var t := TemplateNamed(all, s.frames[|frames|].step);
              t.Some? && ClassFrom(comps, s, Nested(t.value, inv).concurrency, |frames|)
    decreases MAX_COMPOSITE_DEPTH - |chain|, 2, |templates|
  {
    BodyEmits(comps, templates, inv, path, frames, chain, s);
    var t := templates[0];
    var item := ExpandOne(comps, t, inv, path, frames, chain);
    var rest := ExpandBody(comps, templates[1..], inv, path, frames, chain);
    assert ([item] + rest)[1..] == rest;
    assert TemplateNamed(all, templates[0].name) == Some(t);
    hide TemplateNamed, CompositesOk, Distinct, ClassFrom, MaxOpt;
    if s in Flatten(rest) {
      BodyClass(comps, all, templates[1..], inv, path, frames, chain, s);
    } else if item.ContainerItem? {
      ExpandEmits(comps, Nested(t, inv), path, frames, chain, s);
      ExpandClass(comps, Nested(t, inv), path, frames, chain, s);
    } else {
      assert s == Instance(t, inv, path, frames);
    }
  }

  /** The invocations a play declares. */
  function Invocations(decls: seq<Decl>): seq<Invocation>
  {
    if decls == [] then []
    else
      (match decls[0]
       case StepDecl(_) => []
       case InvokeDecl(inv) => [inv]
       case ContainerDecl(_, body) => Invocations(body)) + Invocations(decls[1..])
  }

  /** The same for every step of a loaded play that came out of an invocation. */
  lemma {:induction false} LoadClass(comps: Composites, decls: seq<Decl>, containers: seq<string>, s: Step)
    requires CompositesOk(comps) && s in Flatten(Load(comps, decls, containers)) && s.frames != []
    ensures exists inv ::
              inv in Invocations(decls) && s.frames[0] == FrameOf(inv) && ClassFrom(comps, s, inv.concurrency, 0)
  {
    var items := Load(comps, decls, containers);
    var rest := Load(comps, decls[1..], containers);
    assert items[0] == LoadOne(comps, decls[0], containers) && items[1..] == rest;
    hide ClassFrom, CompositesOk;
    if s in Flatten(rest) {
      LoadClass(comps, decls[1..], containers, s);
    } else {
      match decls[0]
      case StepDecl(_) =>
      case InvokeDecl(inv) =>
        ExpandEmits(comps, inv, containers, [], [], s);
        ExpandClass(comps, inv, containers, [], [], s);
        assert inv in Invocations(decls);
      case ContainerDecl(name, body) =>
        LoadClass(comps, body, containers + [name], s);
    }
  }

  /** As tight as a class that may be undeclared. */
  predicate Covers(c: Option<Concurrency>, d: Option<Concurrency>)
  {
    d.None? || (c.Some? && Plays.Rank(c.value) >= Plays.Rank(d.value))
  }

  /** No invocation further out than the innermost declaring one is tighter than both that one and the step. */
  predicate NoneLoosened(cs: seq<Option<Concurrency>>, own: Option<Concurrency>)
  {
    forall k, m :: 0 <= k < m < |cs| && cs[m].Some? ==> Covers(own, cs[k]) || Covers(Innermost(cs), cs[k])
  }

  lemma {:induction false} InnermostIs(cs: seq<Option<Concurrency>>)
    ensures Innermost(cs).None? ==> forall k :: 0 <= k < |cs| ==> cs[k].None?
    ensures Innermost(cs).Some? ==>
              exists m :: 0 <= m < |cs| && cs[m] == Innermost(cs) && forall k :: m < k < |cs| ==> cs[k].None?
  {
    if cs != [] && cs[|cs| - 1].None? {
      InnermostIs(cs[..|cs| - 1]);
      if Innermost(cs).Some? {
        var init := cs[..|cs| - 1];
        var m :| 0 <= m < |init| && init[m] == Innermost(init) && forall k :: m < k < |init| ==> init[k].None?;
        assert cs[m] == Innermost(cs);
      }
    }
  }

  /** A step gets the tightest class along its whole chain if and only if no invocation on it is loosened
      by one inside. */
  lemma ClassIsTightestIff(comps: Composites, s: Step, outer: Option<Concurrency>)
    requires ClassFrom(comps, s, outer, 0) && s.kind == ResourceStep
    ensures var cs := DeclaredClasses(comps, outer, s.frames);
            var own := ClassIn(comps, s.frames[|s.frames| - 1], s.name);
            && Covers(s.concurrency, own)
            && (s.concurrency.Some? ==> s.concurrency == own || s.concurrency in cs)
            && ((forall k :: 0 <= k < |cs| ==> Covers(s.concurrency, cs[k])) <==> NoneLoosened(cs, own))
  {
    assert s.frames[0..] == s.frames;
    var cs := DeclaredClasses(comps, outer, s.frames);
    var own := ClassIn(comps, s.frames[|s.frames| - 1], s.name);
    InnermostIs(cs);
    hide DeclaredClasses, ClassIn, Innermost;
    var inner := Innermost(cs);
    assert s.concurrency == MaxOpt(own, inner);
    assert forall k :: 0 <= k < |cs| ==> (Covers(s.concurrency, cs[k]) <==> Covers(own, cs[k]) || Covers(inner, cs[k]));
  }

  /** A nested invocation that declares a class hides its enclosing invocation's, even a tighter
      one, so a step does not always get the tightest class along its chain. */
  lemma OuterClassCanBeLost() returns (comps: Composites, inv: Invocation, s: Step)
    ensures inv.concurrency == Some(Global)
    ensures s in Flatten(Expand(comps, inv, [], [], [])) && s.concurrency == Some(Parallel)
  {
    var leaf := Step("x", "p", "r", ResourceStep, [], None, [], []);
    var nested := Step("n", "", "inner", ResourceStep, [], Some(Parallel), [], []);
    comps := map[("", "outer") := [nested], ("", "inner") := [leaf]];
    inv := Invocation("a", "", "outer", [], Some(Global));
    var frames := [FrameOf(inv)];
    var inner := Nested(nested, inv);
    var path, chain := [inv.name], [KeyOf("", "outer")];
    var deep := frames + [FrameOf(inner)];
    var innerChain := chain + [KeyOf("", "inner")];
    s := Instance(leaf, inner, path + ["n"], deep);
    assert KeyOf("", "inner")[1] == 'i' && KeyOf("", "outer")[1] == 'o';
    assert ExpandBody(comps, [], inner, path + ["n"], deep, innerChain) == [];
    assert ExpandBody(comps, [leaf], inner, path + ["n"], deep, innerChain) == [StepItem(s)];
    assert Expand(comps, inner, path, frames, chain) == [StepItem(s)];
    assert ExpandBody(comps, [], inv, path, frames, chain) == [];
    assert ExpandBody(comps, [nested], inv, path, frames, chain) == [ContainerItem("n", [StepItem(s)])];
    assert [] + [inv.name] == path && [] + [FrameOf(inv)] == frames && [] + [KeyOf("", "outer")] == chain;
    assert Expand(comps, inv, [], [], []) == [ContainerItem("n", [StepItem(s)])];
    assert Flatten([StepItem(s)]) == [s];
  }
}
