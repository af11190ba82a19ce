/** A whole file: find or append the top block, then sync or extract it
    (docjson/src/emit.rs:22-134, docjson/src/inspect_ast.rs:19-98). */
module DocFile {
  import opened DocAst
  import opened DocSchema
  import opened DocSync
  import opened DocTheorems
  import opened DocRoundTrip
  import opened DocConservation
  import opened DocExact
  import opened DocStable
  import opened DocEditor

  function Appended(items: seq<Item>, b: Block): seq<Item>
  {
    items + [BlockItem(if items == [] then b else b.(trivia := [BlankLine] + b.trivia))]
  }

  function EnsureTop(items: seq<Item>, kind: string, name: string): seq<Item>
  {
    if FirstBlock(items, kind).Some? then items else Appended(items, Fresh(kind, [Utf8(name)]))
  }

  lemma TopEnsured(items: seq<Item>, kind: string, name: string)
    ensures var base := EnsureTop(items, kind, name);
            && FirstBlock(base, kind).Some?
            && FirstBlock(base, kind).value.kind == kind
            && Agree(items, base, {}, {kind})
            && (FirstBlock(items, kind).None? ==> OneMapPerKind(FirstBlock(base, kind).value))
  {
    hide Filter;
    if FirstBlock(items, kind).Some? {
      AgreeSelf(items, {kind});
    } else {
      var made := Fresh(kind, [Utf8(name)]);
      var b := if items == [] then made else made.(trivia := [BlankLine] + made.trivia);
      AppendBlockLaw(items, b);
      FreshOk(kind, [Utf8(name)]);
      SameItemsOk(made, b);
    }
  }

  lemma SameItemsOk(a: Block, b: Block)
    requires OneMapPerKind(a) && a.items == b.items
    ensures OneMapPerKind(b)
  {
  }

  function SyncFile(syn: Syntax, items: seq<Item>, doc: Doc): Edit<seq<Item>>
    requires Typed(doc)
  {
    TopEnsured(items, KindOf(doc.shape), doc.name);
    var base := EnsureTop(items, KindOf(doc.shape), doc.name);
    var node := SyncNode(syn, FirstBlock(base, KindOf(doc.shape)).value, doc);
    Edit(ReplaceFirstBlock(base, KindOf(doc.shape), node.after), node.ok)
  }

  function ExtractFile(syn: Syntax, items: seq<Item>, shape: Shape): Checked<Doc>
  {
    match FirstBlock(items, KindOf(shape))
    case None => Diagnosed
    case Some(b) => Extract(syn, b, shape)
  }

  /** The file has no two key-value blocks of one kind in any block of its top block. */
  ghost predicate FileOk(items: seq<Item>, kind: string)
  {
    FirstBlock(items, kind).Some? ==> OneMapPerKind(FirstBlock(items, kind).value)
  }

  /** The file can be read, and saving what was read changes nothing. */
  ghost predicate FileStable(syn: Syntax, items: seq<Item>, shape: Shape)
  {
    var seen := ExtractFile(syn, items, shape);
    seen.Read? && Typed(seen.value) && SyncFile(syn, items, seen.value) == Edit(items, true)
  }

  lemma FileStableIff(syn: Syntax, items: seq<Item>, shape: Shape)
    requires FirstBlock(items, KindOf(shape)).Some?
    ensures FileStable(syn, items, shape) <==> Stable(syn, FirstBlock(items, KindOf(shape)).value, shape)
  {
    hide Filter, Typed, SyncNode, Extract, KindOf;
    var kind := KindOf(shape);
    var b := FirstBlock(items, kind).value;
    ExtractShape(syn, b, shape);
    var seen := Extract(syn, b, shape);
    if seen.Read? && Typed(seen.value) {
      NothingToEnsure(items, kind, seen.value.name);
      ReplaceFirstBlockLaw(items, kind, SyncNode(syn, b, seen.value).after);
    }
  }

  /** Saving a document and opening the file again gives the document back if and only if nothing was
      uncovered at the top block, and saving again changes nothing if and only if nothing was lost
      there. New files meet both conditions; the other top-level items always stay. */
  lemma SaveAndReopen(syn: Syntax, items: seq<Item>, doc: Doc)
    requires Typed(doc) && Canonical(syn, doc) && Writable(syn, doc) && !doc.shape.Vars?
    ensures var kind := KindOf(doc.shape);
            var saved := SyncFile(syn, items, doc);
            var top := FirstBlock(EnsureTop(items, kind, doc.name), kind);
            && saved.ok && top.Some?
            && (ExtractFile(syn, saved.after, doc.shape) == Read(Canon(doc)) <==> ReadsBack(top.value, doc))
            && (FileStable(syn, saved.after, doc.shape) <==> Resyncs(syn, top.value, doc))
            && (FileOk(items, kind) ==> ReadsBack(top.value, doc) && Resyncs(syn, top.value, doc))
            && Agree(items, saved.after, {}, {kind})
  {
    hide Filter, Typed, Canonical, Writable, SyncNode, Extract, OneMapPerKind, Canon, KindOf, EnsureTop, ReadsBack,
      Resyncs, FileStable, Stable;
    var kind := KindOf(doc.shape);
    TopEnsured(items, kind, doc.name);
    var base := EnsureTop(items, kind, doc.name);
    var b := FirstBlock(base, kind).value;
    var after := SyncNode(syn, b, doc).after;
    SyncSucceedsIffWritable(syn, b, doc);
    PutGetIff(syn, b, doc);
    SecondSyncIff(syn, b, doc);
    ReplaceFirstBlockLaw(base, kind, after);
    var saved := ReplaceFirstBlock(base, kind, after);
    AgreeChain(items, base, saved, {}, {kind}, {}, {kind}, {}, {kind});
    FileStableIff(syn, saved, doc.shape);
    if FileOk(items, kind) {
      BaseOk(items, kind, doc.name);
      OneMapIsEnough(syn, b, doc);
    }
  }

  lemma BaseOk(items: seq<Item>, kind: string, name: string)
    requires FileOk(items, kind)
    ensures FileOk(EnsureTop(items, kind, name), kind)
  {
    hide OneMapPerKind, Filter;
    TopEnsured(items, kind, name);
  }

  lemma NothingToEnsure(items: seq<Item>, kind: string, name: string)
    requires FirstBlock(items, kind).Some?
    ensures EnsureTop(items, kind, name) == items
  {
  }

  /** The in-place form: append a top block when there is none, then edit the first one. */
  method Save(syn: Syntax, items: seq<Item>, doc: Doc) returns (saved: seq<Item>, ok: bool)
    requires Typed(doc) && !doc.shape.Vars?
    ensures Edit(saved, ok) == SyncFile(syn, items, doc)
  {
    var kind := KindOf(doc.shape);
    saved := items;
    TopEnsured(items, kind, doc.name);
    if FirstBlock(items, kind).None? {
      saved := Appended(items, Fresh(kind, [Utf8(doc.name)]));
    }
    hide Filter, SyncNode, Typed;
    var editor := new Editor(FirstBlock(saved, kind).value);
    ok := editor.Write(syn, doc);
    saved := ReplaceFirstBlock(saved, kind, editor.block);
  }
}
