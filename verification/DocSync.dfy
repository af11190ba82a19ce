/** What a sync writes and what an extraction reads, as functions on the syntax
    tree (docjson/src/emit.rs, docjson/src/inspect_ast.rs). */
module DocSync {
  import opened Wrappers
  import opened DocAst
  import opened DocSchema

  /** The edited value, and whether the sync reported no diagnostic. */
  datatype Edit<T> = Edit(after: T, ok: bool)

  // ------------------------------------------------------------------- values

  function ToExpr(syn: Syntax, v: Val): Option<Expr>
  {
    match v
    case Source(text) => syn.parse(text)
    case LitString(s) => Some(Utf8(s))
    case LitBool(b) => Some(BoolLit(b))
    case LitInt(n) =>
      if -0x8000_0000_0000_0000 <= n < 0x8000_0000_0000_0000 then Some(I64(n)) else Some(Float(syn.widen(n)))
    case LitFloat(token) => Some(Float(token))
    case LitNull => None
    case LitOther => None
  }

  function ValOf(syn: Syntax, e: Expr): Val
  {
    match e
    case Utf8(s) => LitString(s)
    case Ascii(s) => LitString(s)
    case BoolLit(b) => LitBool(b)
    case I64(n) => LitInt(n)
    case OtherInt(n) => LitInt(n)
    case Float(token) => LitFloat(token)
    case NotFinite => LitNull
    case _ => Source(syn.render(e))
  }

  function LitText(e: Expr): Option<string>
  {
    match e
    case Utf8(s) => Some(s)
    case Ascii(s) => Some(s)
    case _ => None
  }

  function Literals(ss: seq<string>): (r: seq<Expr>)
  {
    seq(|ss|, k requires 0 <= k < |ss| => Utf8(ss[k]))
  }

  function LitTexts(es: seq<Expr>): Option<seq<string>>
  {
    if es == [] then Some([])
    else match LitText(es[0])
      case None => None
      case Some(s) =>
        match LitTexts(es[1..])
        case None => None
        case Some(rest) => Some([s] + rest)
  }

  // ------------------------------------------------------------------- fields

  /** The values a document field of each kind can hold. */
  predicate Fits(v: FieldVal, kind: FieldKind)
  {
    match kind
    case ReqString => v.Text?
    case OptString => v.Absent? || v.Text?
    case OptExpr => v.Absent? || v.Text?
    case OptBool => v.Absent? || v.Flag?
    case OptInt => v.Absent? || v.Number?
    case StrList => v.Texts?
    case OptVal => v.Absent? || v.Value?
  }

  /** The expression a field should end up with, `None` for no field; `Diagnosed` when it does not parse. */
  function Target(syn: Syntax, v: FieldVal, kind: FieldKind): Checked<Option<Expr>>
    requires Fits(v, kind)
  {
    match v
    case Absent => Read(None)
    case Text(s) =>
      if kind.OptExpr? then
        match syn.parse(s)
        case Some(e) => Read(Some(e))
        case None => Diagnosed
      else Read(Some(Utf8(s)))
    case Flag(b) => Read(Some(BoolLit(b)))
    case Number(n) => Read(Some(I64(n)))
    case Texts(ss) => Read(if ss == [] then None else Some(ListLit(Literals(ss))))
    case Value(w) =>
      match ToExpr(syn, w)
      case Some(e) => Read(Some(e))
      case None => Diagnosed
  }

  function SyncField(syn: Syntax, items: seq<Item>, spec: FieldSpec, v: FieldVal): Edit<seq<Item>>
    requires Fits(v, spec.kind)
  {
    match Target(syn, v, spec.kind)
    case Read(None) => Edit(DropField(items, spec.name), true)
    case Read(Some(e)) => Edit(SetField(items, spec.name, e), true)
    case Diagnosed => Edit(items, false)
  }

  predicate AllFit(vals: seq<FieldVal>, specs: seq<FieldSpec>)
  {
    |vals| == |specs| && forall k :: 0 <= k < |vals| ==> Fits(vals[k], specs[k].kind)
  }

  function SyncFields(syn: Syntax, items: seq<Item>, specs: seq<FieldSpec>, vals: seq<FieldVal>): Edit<seq<Item>>
    requires AllFit(vals, specs)
    decreases specs
  {
    if specs == [] then Edit(items, true) else
      var first := SyncField(syn, items, specs[0], vals[0]);
      var rest := SyncFields(syn, first.after, specs[1..], vals[1..]);
      Edit(rest.after, first.ok && rest.ok)
  }

  /** Reading a field back; `Diagnosed` when the form cannot show what the file holds. */
  function ReadField(syn: Syntax, e: Option<Expr>, kind: FieldKind): Checked<FieldVal>
  {
    match kind
    case ReqString =>
      if e == None then Read(Text(""))
      else if LitText(e.value) == None then Diagnosed
      else Read(Text(LitText(e.value).value))
    case OptString =>
      if e == None then Read(Absent)
      else if LitText(e.value) == None then Diagnosed
      else Read(Text(LitText(e.value).value))
    case OptExpr => if e == None then Read(Absent) else Read(Text(syn.render(e.value)))
    case OptBool => if e == None then Read(Absent) else if e.value.BoolLit? then Read(Flag(e.value.b)) else Diagnosed
    case OptInt => if e == None then Read(Absent) else if e.value.I64? then Read(Number(e.value.n)) else Diagnosed
    case StrList =>
      if e == None then Read(Texts([]))
      else if !e.value.ListLit? || LitTexts(e.value.elements) == None then Diagnosed
      else Read(Texts(LitTexts(e.value.elements).value))
    case OptVal => if e == None then Read(Absent) else Read(Value(ValOf(syn, e.value)))
  }

  function ReadFields(syn: Syntax, items: seq<Item>, specs: seq<FieldSpec>): Checked<seq<FieldVal>>
  {
    if specs == [] then Read([]) else
      match ReadField(syn, FindField(items, specs[0].name), specs[0].kind)
      case Diagnosed => Diagnosed
      case Read(v) =>
        match ReadFields(syn, items, specs[1..])
        case Diagnosed => Diagnosed
        case Read(rest) => Read([v] + rest)
  }

  // -------------------------------------------------------- key-value children

  function FieldsIn(items: seq<Item>): (r: seq<Field>)
    ensures |r| <= |items|
  {
    if items == [] then []
    else (if items[0].FieldItem? then [items[0].field] else []) + FieldsIn(items[1..])
  }

  /** The index of the first field of that name, or the length. */
  function FieldAt(pool: seq<Field>, name: string): (i: nat)
    ensures i <= |pool|
    ensures i < |pool| ==> pool[i].name == name
    ensures forall k :: 0 <= k < i ==> pool[k].name != name
  {
    if pool == [] || pool[0].name == name then 0 else 1 + FieldAt(pool[1..], name)
  }

  /** The pooled field of that key with a new expression, or a fresh one. */
  function Reused(pool: seq<Field>, name: string, e: Expr): (f: Field)
    ensures f.name == name && f.expr == e
  {
    var i := FieldAt(pool, name);
    if i < |pool| then pool[i].(expr := e) else SynthField(name, e)
  }

  function Remaining(pool: seq<Field>, name: string): seq<Field>
  {
    var i := FieldAt(pool, name);
    if i < |pool| then pool[..i] + pool[i + 1..] else pool
  }

  /** Rebuild the entries in document order, reusing the pooled field of each key. */
  function SyncEntries(syn: Syntax, pool: seq<Field>, kvs: seq<Kv>): Edit<seq<Item>>
    decreases kvs
  {
    if kvs == [] then Edit([], true) else
      match ToExpr(syn, kvs[0].value)
      case None => Edit(SyncEntries(syn, pool, kvs[1..]).after, false)
      case Some(e) =>
        var rest := SyncEntries(syn, Remaining(pool, kvs[0].key), kvs[1..]);
        Edit([FieldItem(Reused(pool, kvs[0].key, e))] + rest.after, rest.ok)
  }

  function SyncKvs(syn: Syntax, map_: Block, kvs: seq<Kv>): Edit<Block>
  {
    var entries := SyncEntries(syn, FieldsIn(map_.items), kvs);
    Edit(map_.(items := entries.after), entries.ok)
  }

  function Fresh(kind: string, labels: seq<Expr>): Block
  {
    Block(kind, labels, [], [], "")
  }

  function SyncKvChild(syn: Syntax, items: seq<Item>, kind: string, kvs: seq<Kv>): Edit<seq<Item>>
  {
    var existing := FirstBlock(items, kind);
    if kvs == [] then Edit(RemoveFirstBlock(items, kind), true)
    else if existing.Some? then
      var m := SyncKvs(syn, existing.value, kvs);
      Edit(ReplaceFirstBlock(items, kind, m.after), m.ok)
    else
      var m := SyncKvs(syn, Fresh(kind, []), kvs);
      Edit(items + [BlockItem(m.after)], m.ok)
  }

  function SyncKvChildren(syn: Syntax, items: seq<Item>, kinds: seq<string>, kvss: seq<seq<Kv>>): Edit<seq<Item>>
    requires |kinds| == |kvss|
    decreases kinds
  {
    if kinds == [] then Edit(items, true) else
      var first := SyncKvChild(syn, items, kinds[0], kvss[0]);
      var rest := SyncKvChildren(syn, first.after, kinds[1..], kvss[1..]);
      Edit(rest.after, first.ok && rest.ok)
  }

  /** The entries of a map block; anything but plain fields fails closed. */
  function ReadEntries(syn: Syntax, items: seq<Item>): Checked<seq<Kv>>
  {
    if items == [] then Read([])
    else if !items[0].FieldItem? then Diagnosed
    else match ReadEntries(syn, items[1..])
      case Diagnosed => Diagnosed
      case Read(rest) => Read([Kv(items[0].field.name, ValOf(syn, items[0].field.expr))] + rest)
  }

  function ReadKvChild(syn: Syntax, items: seq<Item>, kind: string): Checked<seq<Kv>>
  {
    match FirstBlock(items, kind)
    case None => Read([])
    case Some(m) => ReadEntries(syn, m.items)
  }

  function ReadKvChildren(syn: Syntax, items: seq<Item>, kinds: seq<string>): Checked<seq<seq<Kv>>>
  {
    if kinds == [] then Read([]) else
      match ReadKvChild(syn, items, kinds[0])
      case Diagnosed => Diagnosed
      case Read(kvs) =>
        match ReadKvChildren(syn, items, kinds[1..])
        case Diagnosed => Diagnosed
        case Read(rest) => Read([kvs] + rest)
  }

  // ------------------------------------------------------------ managed blocks

  /** The name a document's block is looked for under: `_orig`, or its own name. */
  function MatchKey(doc: Doc): string
  {
    if doc.orig.Some? then doc.orig.value else doc.name
  }

  predicate Matches(b: Block, doc: Doc)
  {
    && b.kind == KindOf(doc.shape)
    && (doc.shape.Vars? || (b.labels != [] && LitText(b.labels[0]) == Some(MatchKey(doc))))
  }

  /** The first pooled block for the document, or the pool's length. */
  function MatchAt(pool: seq<Block>, doc: Doc): (i: nat)
    ensures i <= |pool|
    ensures i < |pool| ==> Matches(pool[i], doc)
    ensures forall k :: 0 <= k < i ==> !Matches(pool[k], doc)
  {
    if pool == [] || Matches(pool[0], doc) then 0 else 1 + MatchAt(pool[1..], doc)
  }

  function Taken(pool: seq<Block>, doc: Doc): (b: Block)
    ensures b.kind == KindOf(doc.shape)
  {
    var i := MatchAt(pool, doc);
    if i < |pool| then pool[i]
    else Fresh(KindOf(doc.shape), if doc.shape.Vars? then [] else [Utf8(MatchKey(doc))])
  }

  function Left(pool: seq<Block>, doc: Doc): seq<Block>
  {
    var i := MatchAt(pool, doc);
    if i < |pool| then pool[..i] + pool[i + 1..] else pool
  }

  function SetLabel(labels: seq<Expr>, e: Expr): seq<Expr>
  {
    if labels == [] then [e] else labels[0 := e]
  }

  // ------------------------------------------------------------ whole documents

  /** Children that a shape's section loops write in this order. */
  predicate InSections(shapes: seq<Shape>, docs: seq<Doc>)
  {
    if shapes == [] then docs == []
    else docs == [] || (if docs[0].shape == shapes[0] then
                          InSections(if shapes[0].Vars? then shapes[1..] else shapes, docs[1..])
                        else InSections(shapes[1..], docs))
  }

  predicate Arranged(docs: seq<Doc>, shapes: seq<Shape>, sectioned: bool)
  {
    && (forall k :: 0 <= k < |docs| ==> docs[k].shape in shapes)
    && (sectioned ==> InSections(shapes, docs))
  }

  /** A document a form can hold: the right fields, sections and children throughout. */
  predicate Typed(doc: Doc)
  {
    && AllFit(doc.fields, Fields(doc.shape))
    && |doc.kvs| == (if doc.shape.Vars? then 1 else |KvKinds(doc.shape)|)
    && (doc.shape.Vars? ==> doc.kvs[0] != [] && doc.name == "")
    && (!HasOrig(doc.shape) ==> doc.orig == None)
    && Arranged(doc.params, ParamShapes(doc.shape), true)
    && Arranged(doc.children, ChildShapes(doc.shape), Sectioned(doc.shape))
    && (forall k :: 0 <= k < |doc.params| ==> Typed(doc.params[k]))
    && (forall k :: 0 <= k < |doc.children| ==> Typed(doc.children[k]))
  }

  /** Write a document onto its block. */
  function SyncNode(syn: Syntax, b: Block, doc: Doc): (r: Edit<Block>)
    requires Typed(doc)
    ensures r.after.kind == b.kind && r.after.trivia == b.trivia && r.after.meta == b.meta
    decreases doc, 2
  {
    if doc.shape.Vars? then SyncKvs(syn, b, doc.kvs[0]) else
      var fields := SyncFields(syn, b.items, Fields(doc.shape), doc.fields);
      var kvs := SyncKvChildren(syn, fields.after, KvKinds(doc.shape), doc.kvs);
      var params := SyncRegion(syn, kvs.after, ParamShapes(doc.shape), doc.params);
      var children := SyncRegion(syn, params.after, ChildShapes(doc.shape), doc.children);
      Edit(b.(labels := SetLabel(b.labels, Utf8(doc.name)), items := children.after),
           fields.ok && kvs.ok && params.ok && children.ok)
  }

  /** Pull out the managed blocks, write the documents, put the region back. */
  function SyncRegion(syn: Syntax, items: seq<Item>, shapes: seq<Shape>, docs: seq<Doc>): Edit<seq<Item>>
    requires forall k :: 0 <= k < |docs| ==> Typed(docs[k])
    decreases docs, 1
  {
    if shapes == [] then Edit(items, true) else
      var kinds := KindsOf(shapes);
      var blocks := SyncBlocks(syn, Managed(items, kinds), docs);
      Edit(Splice(Kept(items, kinds), InsertAt(items, kinds), blocks.after), blocks.ok)
  }

  function SyncBlocks(syn: Syntax, pool: seq<Block>, docs: seq<Doc>): (r: Edit<seq<Block>>)
    requires forall k :: 0 <= k < |docs| ==> Typed(docs[k])
    ensures |r.after| == |docs|
    ensures forall k :: 0 <= k < |docs| ==> r.after[k].kind == KindOf(docs[k].shape)
    decreases docs, 0
  {
    if docs == [] then Edit([], true) else
      var first := SyncNode(syn, Taken(pool, docs[0]), docs[0]);
      var rest := SyncBlocks(syn, Left(pool, docs[0]), docs[1..]);
      Edit([first.after] + rest.after, first.ok && rest.ok)
  }

  // --------------------------------------------------------------- extraction

  /** The documents of one shape; of the map blocks only the last, and only when it has entries. */
  function Section(s: Shape, docs: seq<Doc>): seq<Doc>
  {
    if docs == [] then [] else
      var rest := Section(s, docs[1..]);
      if docs[0].shape != s then rest
      else if !s.Vars? then [docs[0]] + rest
      else if (exists k :: 1 <= k < |docs| && docs[k].shape == s) || docs[0].kvs == [[]] then rest
      else [docs[0]]
  }

  function Sections(shapes: seq<Shape>, docs: seq<Doc>): seq<Doc>
  {
    if shapes == [] then [] else Section(shapes[0], docs) + Sections(shapes[1..], docs)
  }

  function ShapeFor(kind: string, shapes: seq<Shape>): Option<Shape>
  {
    if shapes == [] then None
    else if KindOf(shapes[0]) == kind then Some(shapes[0])
    else ShapeFor(kind, shapes[1..])
  }

  function Extract(syn: Syntax, b: Block, shape: Shape): Checked<Doc>
    decreases b, 1
  {
    if shape.Vars? then
      match ReadEntries(syn, b.items)
      case Diagnosed => Diagnosed
      case Read(kvs) => Read(Doc(Vars, None, "", [], [kvs], [], []))
    else if b.labels == [] || LitText(b.labels[0]) == None then Diagnosed
    else
      var name := LitText(b.labels[0]).value;
      var fields := ReadFields(syn, b.items, Fields(shape));
      var kvs := ReadKvChildren(syn, b.items, KvKinds(shape));
      var params := ExtractAll(syn, b.items, ParamShapes(shape));
      var children := ExtractAll(syn, b.items, ChildShapes(shape));
      if fields.Diagnosed? || kvs.Diagnosed? || params.Diagnosed? || children.Diagnosed? then Diagnosed
      else
        Read(Doc(shape, if HasOrig(shape) then Some(name) else None, name, fields.value, kvs.value, params.value,
               if Sectioned(shape) then Sections(ChildShapes(shape), children.value) else children.value))
  }

  /** The child documents in item order. */
  function ExtractAll(syn: Syntax, items: seq<Item>, shapes: seq<Shape>): Checked<seq<Doc>>
    decreases items, 0
  {
    if items == [] then Read([]) else
      var rest := ExtractAll(syn, items[1..], shapes);
      match items[0]
      case FieldItem(_) => rest
      case OtherItem(_) => rest
      case BlockItem(b) =>
        match ShapeFor(b.kind, shapes)
        case None => rest
        case Some(shape) =>
          assert items[0] decreases to b;
          var first := Extract(syn, b, shape);
          if first.Diagnosed? || rest.Diagnosed? then Diagnosed else Read([first.value] + rest.value)
  }
}
