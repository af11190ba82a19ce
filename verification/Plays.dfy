/** The static model of one play (src/model/types.rs:94-227) and its composite
    expansion (src/model/load.rs:420-577): what the loader builds from the
    declarations, and the shape every emitted step has. */
module Plays {
  import opened Wrappers
  import opened Plans
  import opened Sequences

  datatype StepKind = ResourceStep | WaitStep

  /** One composite invocation in a step's provenance; `needs` is its `requires` list. */
  datatype Frame = Frame(step: string, package: string, composite: string, needs: seq<string>)

  datatype Step = Step(
    name: string,
    package: string,
    resource: string,
    kind: StepKind,
    needs: seq<string>,
    concurrency: Option<Concurrency>,
    containerPath: seq<string>,
    frames: seq<Frame>)

  datatype PlayItem = StepItem(step: Step) | ContainerItem(name: string, items: seq<PlayItem>)

  datatype Invocation = Invocation(
    name: string,
    package: string,
    composite: string,
    needs: seq<string>,
    concurrency: Option<Concurrency>)

  /** What a play block declares, before expansion. */
  datatype Decl =
    | StepDecl(step: Step)
    | InvokeDecl(inv: Invocation)
    | ContainerDecl(name: string, body: seq<Decl>)

  /** The composites in reach, by package (empty for playbook-local) and name. */
  type Composites = map<(string, string), seq<Step>>

  /** All steps in declaration order, flattened through containers. */
  function Flatten(items: seq<PlayItem>): seq<Step>
  {
    if items == [] then []
    else
      (match items[0]
       case StepItem(s) => [s]
       case ContainerItem(_, inner) => Flatten(inner)) + Flatten(items[1..])
  }

  const MAX_COMPOSITE_DEPTH := 8

  function FrameOf(inv: Invocation): Frame
  {
    Frame(inv.name, inv.package, inv.composite, inv.needs)
  }

  function KeyOf(package: string, composite: string): string
  {
    package + "." + composite
  }

  function FrameKey(f: Frame): string
  {
    KeyOf(f.package, f.composite)
  }

  predicate IsComposite(comps: Composites, s: Step)
  {
    s.kind == ResourceStep && (s.package, s.resource) in comps
  }

  function Rank(c: Concurrency): nat
  {
    match c case Parallel => 0 case Exclusive => 1 case Global => 2
  }

  /** The tighter of two optional concurrency classes. */
  function MaxOpt(a: Option<Concurrency>, b: Option<Concurrency>): Option<Concurrency>
  {
    if a.Some? && b.Some? then (if Rank(a.value) >= Rank(b.value) then a else b)
    else if a.Some? then a
    else b
  }

  /** The invocation a template step naming another composite stands for. */
  function Nested(t: Step, inv: Invocation): Invocation
  {
    Invocation(t.name, t.package, t.resource, t.needs,
               if t.concurrency.Some? then t.concurrency else inv.concurrency)
  }

  /** A template step instantiated inside an invocation. */
  function Instance(t: Step, inv: Invocation, path: seq<string>, frames: seq<Frame>): Step
  {
    t.(concurrency := if t.kind == ResourceStep then MaxOpt(t.concurrency, inv.concurrency) else None,
       containerPath := path,
       frames := frames)
  }

  /** What expanding one invocation yields: its container's items. */
  function Expand(comps: Composites, inv: Invocation, containers: seq<string>, frames: seq<Frame>, chain: seq<string>)
    : seq<PlayItem>
    decreases MAX_COMPOSITE_DEPTH - |chain|, 1, 0
  {
    var key := KeyOf(inv.package, inv.composite);
    if key in chain || |chain| >= MAX_COMPOSITE_DEPTH || (inv.package, inv.composite) !in comps then []
    else ExpandBody(comps, comps[(inv.package, inv.composite)], inv, containers + [inv.name], frames + [FrameOf(inv)],
                    chain + [key])
  }

  function ExpandBody(comps: Composites, templates: seq<Step>, inv: Invocation, path: seq<string>, frames: seq<Frame>,
                      chain: seq<string>): seq<PlayItem>
    decreases MAX_COMPOSITE_DEPTH - |chain|, 2, |templates|
  {
    if templates == [] then []
    else [ExpandOne(comps, templates[0], inv, path, frames, chain)]
         + ExpandBody(comps, templates[1..], inv, path, frames, chain)
  }

  function ExpandOne(comps: Composites, t: Step, inv: Invocation, path: seq<string>, frames: seq<Frame>,
                     chain: seq<string>): PlayItem
    decreases MAX_COMPOSITE_DEPTH - |chain|, 2, 0
  {
    if IsComposite(comps, t) then ContainerItem(t.name, Expand(comps, Nested(t, inv), path, frames, chain))
    else StepItem(Instance(t, inv, path, frames))
  }

  /** The items a play loads to. */
  function Load(comps: Composites, decls: seq<Decl>, containers: seq<string>): seq<PlayItem>
  {
    if decls == [] then [] else [LoadOne(comps, decls[0], containers)] + Load(comps, decls[1..], containers)
  }

  function LoadOne(comps: Composites, decl: Decl, containers: seq<string>): PlayItem
  {
    match decl
    case StepDecl(s) => StepItem(s.(containerPath := containers, frames := []))
    case InvokeDecl(inv) => ContainerItem(inv.name, Expand(comps, inv, containers, [], []))
    case ContainerDecl(name, body) => ContainerItem(name, Load(comps, body, containers + [name]))
  }

  /** The names the playbook itself declares in a play: an invocation counts once. */
  function DeclaredNames(decls: seq<Decl>): seq<string>
  {
    if decls == [] then [] else NamesOf(decls[0]) + DeclaredNames(decls[1..])
  }

  function NamesOf(decl: Decl): seq<string>
  {
    match decl
    case StepDecl(s) => [s.name]
    case InvokeDecl(inv) => [inv.name]
    case ContainerDecl(_, body) => DeclaredNames(body)
  }

  /** A name the playbook declares, with its requires. */
  datatype Declaration = Declaration(name: string, needs: seq<string>)

  function Declarations(decls: seq<Decl>): seq<Declaration>
  {
    if decls == [] then [] else DeclarationsOf(decls[0]) + Declarations(decls[1..])
  }

  function DeclarationsOf(decl: Decl): seq<Declaration>
  {
    match decl
    case StepDecl(s) => [Declaration(s.name, s.needs)]
    case InvokeDecl(inv) => [Declaration(inv.name, inv.needs)]
    case ContainerDecl(_, body) => Declarations(body)
  }

  function NamesIn(declared: seq<Declaration>): seq<string>
  {
    seq(|declared|, i requires 0 <= i < |declared| => declared[i].name)
  }

  lemma NamesInAppend(a: seq<Declaration>, b: seq<Declaration>)
    ensures NamesIn(a + b) == NamesIn(a) + NamesIn(b)
  {
  }

  lemma {:induction false} DeclarationNames(decls: seq<Decl>)
    ensures NamesIn(Declarations(decls)) == DeclaredNames(decls)
  {
    if decls != [] {
      DeclarationNames(decls[1..]);
      if decls[0].ContainerDecl? {
        DeclarationNames(decls[0].body);
      }
      NamesInAppend(DeclarationsOf(decls[0]), Declarations(decls[1..]));
    }
  }

  /** Every requires names another declaration. */
  predicate RequiresKnown(declared: seq<Declaration>)
  {
    forall d :: d in declared ==> NeedsKnown(d, NamesIn(declared))
  }

  predicate NeedsKnown(d: Declaration, names: seq<string>)
  {
    forall k :: 0 <= k < |d.needs| ==> d.needs[k] != d.name && d.needs[k] in names
  }

  function TemplateNames(templates: seq<Step>): seq<string>
  {
    seq(|templates|, i requires 0 <= i < |templates| => templates[i].name)
  }

  /** What loading guarantees of composite declarations: sibling names are distinct
      (src/model/load.rs:2018-2025). */
  predicate CompositesOk(comps: Composites)
  {
    forall k :: k in comps ==> Distinct(TemplateNames(comps[k]))
  }

  /** A composite body's requires name siblings and nothing else (src/model/load.rs:2028-2047). */
  predicate BodiesKnown(comps: Composites)
  {
    forall k, t :: k in comps && t in comps[k] ==> NeedsKnown(Declaration(t.name, t.needs), TemplateNames(comps[k]))
  }

  function FrameSteps(frames: seq<Frame>): seq<string>
  {
    seq(|frames|, i requires 0 <= i < |frames| => frames[i].step)
  }

  function FrameKeys(frames: seq<Frame>): seq<string>
  {
    seq(|frames|, i requires 0 <= i < |frames| => FrameKey(frames[i]))
  }

  /** A step's name within its whole chain of invocations. */
  function Trail(s: Step): seq<string>
  {
    FrameSteps(s.frames) + [s.name]
  }

  /** `container_path` without the frame segments. */
  function PlaybookPath(s: Step): seq<string>
    requires |s.frames| <= |s.containerPath|
  {
    s.containerPath[..|s.containerPath| - |s.frames|]
  }

  /** The path of a step is its playbook containers followed by its frames' step names. */
  predicate WellShaped(s: Step)
  {
    |s.frames| <= |s.containerPath| && s.containerPath == PlaybookPath(s) + FrameSteps(s.frames)
  }
}
