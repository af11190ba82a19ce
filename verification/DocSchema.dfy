/** The documents of the graphical editors and how each part of one is written
    into a block (docjson/src/docjson.rs, docjson/src/emit.rs): one table of
    fields and children per document kind, in the order the sync writes them. */
module DocSchema {
  import opened Wrappers
  import opened DocAst
  import opened Sequences

  /** One shape per document struct; composite steps have the fields of a step. */
  datatype Shape =
    | Playbook | Gather | Vars | Probe | Play | Step | Container
    | Package | Gatherer | Resource | Param | Composite | Arg
    | TestCase | TestStep | TestGather | Scenario

  /** A literal as JSON, or raw expression source. */
  datatype Val =
    | Source(text: string)
    | LitString(s: string)
    | LitBool(b: bool)
    | LitInt(n: int)
    | LitFloat(token: string)
    | LitNull
    | LitOther

  datatype Kv = Kv(key: string, value: Val)

  datatype FieldVal =
    | Absent
    | Text(s: string)
    | Flag(b: bool)
    | Number(n: int)
    | Texts(ss: seq<string>)
    | Value(v: Val)

  datatype FieldKind = ReqString | OptString | OptExpr | OptBool | OptInt | StrList | OptVal

  datatype FieldSpec = FieldSpec(name: string, kind: FieldKind)

  /** A document node: its fields in schema order, its key-value children, its
      parameter declarations and its other child documents. */
  datatype Doc = Doc(shape: Shape, orig: Option<string>, name: string, fields: seq<FieldVal>,
                     kvs: seq<seq<Kv>>, params: seq<Doc>, children: seq<Doc>)

  /** A reading, or a diagnostic (their wording is not modelled). */
  datatype Checked<+T> = Read(value: T) | Diagnosed

  /** The parser and printer of expressions, and the widening of an integer no `i64` holds. */
  datatype Syntax = Syntax(parse: string -> Option<Expr>, render: Expr -> string, widen: int -> string)

  function KindOf(s: Shape): string
  {
    match s
    case Playbook => "playbook"
    case Gather => "gather"
    case Vars => "vars"
    case Probe => "probe"
    case Play => "play"
    case Step => "step"
    case Container => "container"
    case Package => "package"
    case Gatherer => "gatherer"
    case Resource => "resource"
    case Param => "param"
    case Composite => "composite"
    case Arg => "arg"
    case TestCase => "test"
    case TestStep => "step"
    case TestGather => "gather"
    case Scenario => "scenario"
  }

  function Required(name: string): FieldSpec { FieldSpec(name, ReqString) }

  function Optional(name: string): FieldSpec { FieldSpec(name, OptString) }

  function Fields(s: Shape): seq<FieldSpec>
  {
    match s
    case Playbook => [Required("description"), Optional("version")]
    case Gather => [Optional("description"), Required("from")]
    case Vars => []
    case Probe => [Required("description"), Required("script")]
    case Play => [Required("description"), FieldSpec("parallel", OptBool)]
    case Step =>
      [Required("description"), Optional("resource"), Optional("wait_for"), FieldSpec("interval", OptExpr),
       FieldSpec("timeout", OptExpr), FieldSpec("fail_on_error", OptVal), FieldSpec("condition", OptExpr),
       FieldSpec("requires", StrList), Optional("concurrency")]
    case Container => [Required("description"), FieldSpec("condition", OptExpr)]
    case Package => [Required("description")]
    case Gatherer => [Required("description"), Required("script")]
    case Resource => [Required("description"), Required("script"), Optional("concurrency"), Optional("lock")]
    case Param =>
      [Required("description"), Required("type"), FieldSpec("required", OptBool), FieldSpec("default", OptVal)]
    case Composite => [Required("description")]
    case Arg =>
      [Required("description"), Required("type"), FieldSpec("required", OptBool), FieldSpec("default", OptVal)]
    case TestCase =>
      [Required("description"), Optional("image"), Optional("template"), Optional("memory"), Optional("group"),
       FieldSpec("jobs", OptInt), Optional("ready"), FieldSpec("ready_timeout", OptInt), Optional("setup"),
       Optional("verify")]
    case TestStep =>
      [Required("description"), Required("resource"), Optional("expect"), FieldSpec("condition", OptExpr),
       FieldSpec("requires", StrList)]
    case TestGather => [Required("description"), Required("from")]
    case Scenario => [Required("description"), Required("lab"), Required("script")]
  }

  /** Key-value child blocks of a shape, in write order. */
  function KvKinds(s: Shape): seq<string>
  {
    match s
    case Gather => ["params"]
    case Step => ["properties"]
    case TestStep => ["properties"]
    case TestGather => ["params", "expect"]
    case _ => []
  }

  function ParamShapes(s: Shape): seq<Shape>
  {
    match s
    case Probe => [Param]
    case Gatherer => [Param]
    case Resource => [Param]
    case Composite => [Arg]
    case _ => []
  }

  function ChildShapes(s: Shape): seq<Shape>
  {
    match s
    case Playbook => [Gather, Vars, Probe, Play]
    case Play => [Step, Container]
    case Container => [Step, Container]
    case Package => [Gatherer, Resource, Probe, Composite, TestCase, Scenario]
    case Composite => [Step]
    case TestCase => [TestStep, TestGather]
    case _ => []
  }

  /** Whether the children are kept section by section rather than in item order. */
  predicate Sectioned(s: Shape)
  {
    s != Play && s != Container
  }

  /** Whether the document remembers the name it was read under. */
  predicate HasOrig(s: Shape)
  {
    s != Playbook && s != Package && s != Vars
  }

  function KindsOf(shapes: seq<Shape>): set<string>
  {
    set s | s in shapes :: KindOf(s)
  }

  function Names(specs: seq<FieldSpec>): set<string>
  {
    set spec | spec in specs :: spec.name
  }

  function AllOf(kinds: seq<string>): set<string>
  {
    set kind | kind in kinds
  }

  /** Every child block kind a sync of this shape may write. */
  function ManagedKinds(s: Shape): set<string>
  {
    AllOf(KvKinds(s)) + KindsOf(ParamShapes(s)) + KindsOf(ChildShapes(s))
  }

  ghost predicate DistinctNames(specs: seq<FieldSpec>)
  {
    forall i, j :: 0 <= i < j < |specs| ==> specs[i].name != specs[j].name
  }

  ghost predicate DistinctKinds(shapes: seq<Shape>)
  {
    forall i, j :: 0 <= i < j < |shapes| ==> KindOf(shapes[i]) != KindOf(shapes[j])
  }

  lemma FieldsDistinct(s: Shape)
    ensures DistinctNames(Fields(s))
  {
    match s
    case Step => StepFieldsDistinct();
    case TestCase => TestFieldsDistinct();
    case TestStep =>
    case Resource =>
    case _ =>
  }

  lemma StepFieldsDistinct()
    ensures DistinctNames(Fields(Step))
  {
  }

  lemma TestFieldsDistinct()
    ensures DistinctNames(Fields(TestCase))
  {
  }

  lemma KindsDistinct(s: Shape)
    ensures Distinct(KvKinds(s)) && DistinctKinds(ParamShapes(s)) && DistinctKinds(ChildShapes(s))
  {
  }

  lemma KindsApart(s: Shape)
    ensures AllOf(KvKinds(s)) !! KindsOf(ParamShapes(s))
    ensures AllOf(KvKinds(s)) !! KindsOf(ChildShapes(s))
    ensures KindsOf(ParamShapes(s)) !! KindsOf(ChildShapes(s))
  {
  }

  /** What keeps the parts of one sync out of each other's way. */
  lemma SchemaSound(s: Shape)
    ensures DistinctNames(Fields(s)) && Distinct(KvKinds(s))
    ensures DistinctKinds(ParamShapes(s)) && DistinctKinds(ChildShapes(s))
    ensures AllOf(KvKinds(s)) !! KindsOf(ParamShapes(s)) && AllOf(KvKinds(s)) !! KindsOf(ChildShapes(s))
    ensures KindsOf(ParamShapes(s)) !! KindsOf(ChildShapes(s))
    ensures ParamShapes(s) != [] || ChildShapes(s) != [] ==> Fields(s) != [] && Fields(s)[0] == Required("description")
  {
    hide DistinctNames, Distinct, DistinctKinds, AllOf, KindsOf;
    FieldsDistinct(s);
    KindsDistinct(s);
    KindsApart(s);
  }
}
