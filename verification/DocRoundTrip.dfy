/** Reading back what a sync wrote, and syncing it again. */
module DocRoundTrip {
  import opened Wrappers
  import opened DocAst
  import opened DocSchema
  import opened Sequences
  import opened DocSync
  import opened DocLens
  import opened DocTheorems

  /** The document as a form would show it after a save: `_orig` is the name. */
  function Canon(doc: Doc): (r: Doc)
    ensures r.shape == doc.shape && r.name == doc.name && r.fields == doc.fields && r.kvs == doc.kvs
    decreases doc
  {
    doc.(orig := if HasOrig(doc.shape) then Some(doc.name) else None,
         params := CanonAll(doc.params), children := CanonAll(doc.children))
  }

  function CanonAll(docs: seq<Doc>): (r: seq<Doc>)
    ensures |r| == |docs| && forall k :: 0 <= k < |r| ==> r[k] == Canon(docs[k])
    decreases docs
  {
    if docs == [] then [] else [Canon(docs[0])] + CanonAll(docs[1..])
  }

  /** Values that survive the trip to an expression and back. */
  predicate CanonicalVal(syn: Syntax, v: Val)
  {
    var e := ToExpr(syn, v);
    e.Some? ==> ValOf(syn, e.value) == v
  }

  predicate CanonicalField(syn: Syntax, v: FieldVal, kind: FieldKind)
  {
    match v
    case Text(s) => kind.OptExpr? && syn.parse(s).Some? ==> syn.render(syn.parse(s).value) == s
    case Value(w) => CanonicalVal(syn, w)
    case _ => true
  }

  predicate CanonicalEntries(syn: Syntax, kvs: seq<Kv>)
  {
    forall k :: 0 <= k < |kvs| ==> CanonicalVal(syn, kvs[k].value)
  }

  predicate CanonicalFields(syn: Syntax, vals: seq<FieldVal>, specs: seq<FieldSpec>)
    requires |vals| == |specs|
  {
    forall k :: 0 <= k < |vals| ==> CanonicalField(syn, vals[k], specs[k].kind)
  }

  predicate Canonical(syn: Syntax, doc: Doc)
    requires Typed(doc)
  {
    && CanonicalFields(syn, doc.fields, Fields(doc.shape))
    && (forall k :: 0 <= k < |doc.kvs| ==> CanonicalEntries(syn, doc.kvs[k]))
    && (forall k :: 0 <= k < |doc.params| ==> Canonical(syn, doc.params[k]))
    && (forall k :: 0 <= k < |doc.children| ==> Canonical(syn, doc.children[k]))
  }

  // -------------------------------------------------------- reading the parts

  lemma {:induction false} LiteralsRead(ss: seq<string>)
    ensures LitTexts(Literals(ss)) == Some(ss)
  {
    if ss != [] {
      LiteralsRead(ss[1..]);
      assert Literals(ss)[1..] == Literals(ss[1..]);
      assert [ss[0]] + ss[1..] == ss;
    }
  }

  lemma FieldReads(syn: Syntax, items: seq<Item>, spec: FieldSpec, v: FieldVal)
    requires Fits(v, spec.kind) && FieldSettled(syn, items, spec, v) && CanonicalField(syn, v, spec.kind)
    ensures ReadField(syn, FindField(items, spec.name), spec.kind) == Read(v)
  {
    hide FindField;
    if v.Texts? {
      LiteralsRead(v.ss);
    }
  }

  lemma {:induction false} FieldsRead(syn: Syntax, items: seq<Item>, specs: seq<FieldSpec>, vals: seq<FieldVal>)
    requires AllFit(vals, specs) && FieldsSettled(syn, items, specs, vals) && CanonicalFields(syn, vals, specs)
    ensures ReadFields(syn, items, specs) == Read(vals)
    decreases specs
  {
    hide FieldSettled, ReadField, FindField, CanonicalField;
    if specs != [] {
      FieldReads(syn, items, specs[0], vals[0]);
      FieldsRead(syn, items, specs[1..], vals[1..]);
      assert [vals[0]] + vals[1..] == vals;
    }
  }

  lemma {:induction false} EntriesRead(syn: Syntax, items: seq<Item>, kvs: seq<Kv>)
    requires EntriesSettled(syn, items, kvs) && CanonicalEntries(syn, kvs)
    ensures ReadEntries(syn, items) == Read(kvs)
    decreases kvs
  {
    hide ToExpr, ValOf;
    if kvs != [] {
      assert CanonicalVal(syn, kvs[0].value);
      EntriesRead(syn, items[1..], kvs[1..]);
      assert [kvs[0]] + kvs[1..] == kvs;
    }
  }

  lemma {:induction false} KvsRead(syn: Syntax, items: seq<Item>, kinds: seq<string>, kvss: seq<seq<Kv>>)
    requires |kinds| == |kvss| && KvsSettled(syn, items, kinds, kvss)
    requires forall k :: 0 <= k < |kvss| ==> CanonicalEntries(syn, kvss[k])
    ensures ReadKvChildren(syn, items, kinds) == Read(kvss)
    decreases kinds
  {
    hide FirstBlock, EntriesSettled, CanonicalEntries, ReadEntries;
    if kinds != [] {
      assert KvSettled(syn, items, kinds[0], kvss[0]);
      if FirstBlock(items, kinds[0]).Some? {
        EntriesRead(syn, FirstBlock(items, kinds[0]).value.items, kvss[0]);
      }
      KvsRead(syn, items, kinds[1..], kvss[1..]);
      assert [kvss[0]] + kvss[1..] == kvss;
    }
  }

  // ------------------------------------------------------------------ sections

  lemma {:induction false} InSectionsMap(shapes: seq<Shape>, docs: seq<Doc>)
    requires InSections(shapes, docs)
    ensures InSections(shapes, CanonAll(docs))
    decreases |shapes| + |docs|
  {
    if shapes != [] && docs != [] {
      assert CanonAll(docs)[1..] == CanonAll(docs[1..]);
      if docs[0].shape == shapes[0] {
        InSectionsMap(if shapes[0].Vars? then shapes[1..] else shapes, docs[1..]);
      } else {
        InSectionsMap(shapes[1..], docs);
      }
    }
  }

  lemma {:induction false} InSectionsShapes(shapes: seq<Shape>, docs: seq<Doc>)
    requires InSections(shapes, docs)
    ensures forall k :: 0 <= k < |docs| ==> docs[k].shape in shapes
    decreases |shapes| + |docs|
  {
    if shapes != [] && docs != [] {
      if docs[0].shape == shapes[0] {
        InSectionsShapes(if shapes[0].Vars? then shapes[1..] else shapes, docs[1..]);
      } else {
        InSectionsShapes(shapes[1..], docs);
      }
    }
  }

  lemma {:induction false} SectionNone(s: Shape, docs: seq<Doc>)
    requires forall k :: 0 <= k < |docs| ==> docs[k].shape != s
    ensures Section(s, docs) == []
  {
    if docs != [] {
      SectionNone(s, docs[1..]);
    }
  }

  lemma {:induction false} SectionsSkip(shapes: seq<Shape>, docs: seq<Doc>)
    requires docs != [] && docs[0].shape !in shapes
    ensures Sections(shapes, docs) == Sections(shapes, docs[1..])
  {
    if shapes != [] {
      SectionsSkip(shapes[1..], docs);
    }
  }

  /** Sectioned documents come back in the order they were written. */
  lemma {:induction false} SectionsKeep(shapes: seq<Shape>, docs: seq<Doc>)
    requires InSections(shapes, docs) && Distinct(shapes)
    requires forall k :: 0 <= k < |docs| && docs[k].shape.Vars? ==> docs[k].kvs != [[]]
    ensures Sections(shapes, docs) == docs
    decreases |shapes| + |docs|
  {
    InSectionsShapes(shapes, docs);
    if shapes == [] {
    } else if docs != [] && docs[0].shape == shapes[0] {
      assert [docs[0]] + docs[1..] == docs;
      SectionsSkip(shapes[1..], docs);
      if shapes[0].Vars? {
        SectionsKeep(shapes[1..], docs[1..]);
        InSectionsShapes(shapes[1..], docs[1..]);
        SectionNone(shapes[0], docs[1..]);
      } else {
        SectionsKeep(shapes, docs[1..]);
      }
    } else {
      if docs == [] {
        SectionsKeep(shapes[1..], docs);
      } else {
        InSectionsShapes(shapes[1..], docs);
        SectionsKeep(shapes[1..], docs);
      }
      SectionNone(shapes[0], docs);
    }
  }

  lemma {:induction false} ShapeFound(s: Shape, shapes: seq<Shape>)
    requires s in shapes && DistinctKinds(shapes)
    ensures ShapeFor(KindOf(s), shapes) == Some(s)
  {
    hide KindOf;
    if shapes[0] != s {
      var k :| 0 <= k < |shapes| && shapes[k] == s;
      assert KindOf(shapes[0]) != KindOf(shapes[k]);
      ShapeFound(s, shapes[1..]);
    }
  }

  lemma {:induction false} ShapeNotFound(kind: string, shapes: seq<Shape>)
    requires kind !in KindsOf(shapes)
    ensures ShapeFor(kind, shapes) == None
  {
    hide KindOf;
    if shapes != [] {
      assert shapes[0] in shapes;
      forall s | s in shapes[1..] ensures KindOf(s) in KindsOf(shapes) {
        assert s in shapes;
      }
      ShapeNotFound(kind, shapes[1..]);
    }
  }

  lemma TypedCanon(doc: Doc)
    requires Typed(doc)
    ensures Typed(Canon(doc))
    decreases doc
  {
    hide AllFit, InSections, Canon, CanonAll;
    forall k | 0 <= k < |doc.params| ensures Typed(Canon(doc.params[k])) {
      TypedCanon(doc.params[k]);
    }
    forall k | 0 <= k < |doc.children| ensures Typed(Canon(doc.children[k])) {
      TypedCanon(doc.children[k]);
    }
    CanonParts(doc);
    InSectionsMap(ParamShapes(doc.shape), doc.params);
    if Sectioned(doc.shape) {
      InSectionsMap(ChildShapes(doc.shape), doc.children);
    }
  }

  lemma CanonParts(doc: Doc)
    ensures Canon(doc).params == CanonAll(doc.params) && Canon(doc).children == CanonAll(doc.children)
    ensures Canon(doc).orig == if HasOrig(doc.shape) then Some(doc.name) else None
  {
  }

  // ------------------------------------------------------------------- put-get

  /** A settled block reads back as the document it is settled on. */
  lemma SettledExtracts(syn: Syntax, b: Block, doc: Doc)
    requires Typed(doc) && Settled(syn, b, doc) && Canonical(syn, doc)
    ensures Extract(syn, b, doc.shape) == Read(Canon(doc))
    decreases doc, 0
  {
    hide AllFit, InSections, FieldsSettled, KvsSettled, EntriesSettled, CanonicalFields, CanonicalEntries,
      BlocksSettled, InPlace, Sections, ReadFields, ReadEntries, ReadKvChildren, Canon, CanonAll, KindsOf,
      DistinctKinds, Distinct, DistinctNames, AllOf, Managed;
    CanonParts(doc);
    var s := doc.shape;
    if s.Vars? {
      EntriesRead(syn, b.items, doc.kvs[0]);
      VarsCanon(doc);
    } else {
      SchemaSound(s);
      FieldsRead(syn, b.items, Fields(s), doc.fields);
      KvsRead(syn, b.items, KvKinds(s), doc.kvs);
      BlocksExtract(syn, b.items, ParamShapes(s), doc.params);
      BlocksExtract(syn, b.items, ChildShapes(s), doc.children);
      ChildrenArranged(doc);
    }
  }

  lemma VarsCanon(doc: Doc)
    requires Typed(doc) && doc.shape.Vars?
    ensures Canon(doc) == Doc(Vars, None, "", [], [doc.kvs[0]], [], [])
  {
  }

  lemma ChildrenArranged(doc: Doc)
    requires Typed(doc)
    ensures Sectioned(doc.shape) ==> Sections(ChildShapes(doc.shape), CanonAll(doc.children)) == CanonAll(doc.children)
  {
    hide AllFit;
    if Sectioned(doc.shape) {
      ShapesDistinct(doc.shape);
      InSectionsMap(ChildShapes(doc.shape), doc.children);
      forall k | 0 <= k < |doc.children| && CanonAll(doc.children)[k].shape.Vars?
        ensures CanonAll(doc.children)[k].kvs != [[]]
      {
        assert Typed(doc.children[k]);
      }
      SectionsKeep(ChildShapes(doc.shape), CanonAll(doc.children));
    }
  }

  lemma ShapesDistinct(s: Shape)
    ensures Distinct(ChildShapes(s))
  {
  }

  lemma BlocksExtract(syn: Syntax, items: seq<Item>, shapes: seq<Shape>, docs: seq<Doc>)
    requires forall k :: 0 <= k < |docs| ==> Typed(docs[k]) && docs[k].shape in shapes && Canonical(syn, docs[k])
    requires DistinctKinds(shapes) && BlocksSettled(syn, Managed(items, KindsOf(shapes)), docs)
    ensures ExtractAll(syn, items, shapes) == Read(CanonAll(docs))
    decreases docs, |items|
  {
    hide Typed, Canonical, Settled, DistinctKinds, KindOf, Canon, Extract;
    if items != [] {
      var kinds, item := KindsOf(shapes), items[0];
      var managed := Managed(items, kinds);
      if Passes(item, BlockOf(kinds)) {
        assert managed == [item.block] + Managed(items[1..], kinds);
        HeadSettled(syn, managed, docs);
        ShapeFound(docs[0].shape, shapes);
        SettledExtracts(syn, item.block, docs[0]);
        BlocksExtract(syn, items[1..], shapes, docs[1..]);
      } else {
        assert managed == Managed(items[1..], kinds);
        if item.BlockItem? {
          ShapeNotFound(item.block.kind, shapes);
        }
        BlocksExtract(syn, items[1..], shapes, docs);
      }
    }
  }

  lemma HeadSettled(syn: Syntax, blocks: seq<Block>, docs: seq<Doc>)
    requires forall k :: 0 <= k < |docs| ==> Typed(docs[k])
    requires blocks != [] && BlocksSettled(syn, blocks, docs)
    ensures docs != [] && Settled(syn, blocks[0], docs[0]) && blocks[0].kind == KindOf(docs[0].shape)
    ensures BlocksSettled(syn, blocks[1..], docs[1..])
  {
    hide Typed, FieldsSettled, KvsSettled, EntriesSettled, RegionSettled;
  }

  /** A sync without diagnostics reads back as exactly the document, every `_orig` set to its name. */
  lemma PutGet(syn: Syntax, b: Block, doc: Doc)
    requires Typed(doc) && Canonical(syn, doc) && OneMapPerKind(b) && b.kind == KindOf(doc.shape)
    requires SyncNode(syn, b, doc).ok
    ensures Extract(syn, SyncNode(syn, b, doc).after, doc.shape) == Read(Canon(doc))
  {
    SyncSettles(syn, b, doc);
    SettledExtracts(syn, SyncNode(syn, b, doc).after, doc);
  }

  // --------------------------------------------------------------- idempotence

  lemma SettledFixed(syn: Syntax, b: Block, doc: Doc)
    requires Typed(doc) && Typed(Canon(doc)) && Settled(syn, b, doc)
    ensures SyncNode(syn, b, Canon(doc)) == Edit(b, true)
    decreases doc, 0
  {
    hide AllFit, InSections, FieldsSettled, KvsSettled, EntriesSettled, BlocksSettled, InPlace, Canon, CanonAll,
      KindsOf, SyncFields, SyncKvChildren, SyncBlocks, Managed, Kept, InsertAt;
    var s, d := doc.shape, Canon(doc);
    CanonParts(doc);
    if s.Vars? {
      SettledEntriesFixed(syn, b.items, doc.kvs[0]);
    } else {
      SettledFieldsFixed(syn, b.items, Fields(s), doc.fields);
      SettledKvsFixed(syn, b.items, KvKinds(s), doc.kvs);
      BlocksFixed(syn, Managed(b.items, KindsOf(ParamShapes(s))), doc.params);
      BlocksFixed(syn, Managed(b.items, KindsOf(ChildShapes(s))), doc.children);
      RegionFixed(syn, b.items, ParamShapes(s), d.params);
      RegionFixed(syn, b.items, ChildShapes(s), d.children);
      assert SetLabel(b.labels, Utf8(d.name)) == b.labels;
    }
  }

  lemma RegionFixed(syn: Syntax, items: seq<Item>, shapes: seq<Shape>, docs: seq<Doc>)
    requires forall k :: 0 <= k < |docs| ==> Typed(docs[k])
    requires InPlace(items, KindsOf(shapes))
    requires SyncBlocks(syn, Managed(items, KindsOf(shapes)), docs) == Edit(Managed(items, KindsOf(shapes)), true)
    ensures SyncRegion(syn, items, shapes, docs) == Edit(items, true)
  {
    hide Typed, SyncBlocks, Filter;
  }

  lemma BlocksFixed(syn: Syntax, blocks: seq<Block>, docs: seq<Doc>)
    requires forall k :: 0 <= k < |docs| ==> Typed(docs[k]) && Typed(Canon(docs[k]))
    requires BlocksSettled(syn, blocks, docs)
    ensures SyncBlocks(syn, blocks, CanonAll(docs)) == Edit(blocks, true)
    decreases docs
  {
    hide Typed, Settled, Canon, SyncNode, Taken, Left;
    if docs != [] {
      HeadSettled(syn, blocks, docs);
      HeadTaken(syn, blocks, docs[0]);
      SettledFixed(syn, blocks[0], docs[0]);
      BlocksFixed(syn, blocks[1..], docs[1..]);
      assert CanonAll(docs)[1..] == CanonAll(docs[1..]);
      assert [blocks[0]] + blocks[1..] == blocks;
    }
  }

  lemma HeadTaken(syn: Syntax, blocks: seq<Block>, doc: Doc)
    requires Typed(doc) && Typed(Canon(doc)) && blocks != [] && Settled(syn, blocks[0], doc)
    ensures Taken(blocks, Canon(doc)) == blocks[0] && Left(blocks, Canon(doc)) == blocks[1..]
  {
    hide Typed, FieldsSettled, KvsSettled, EntriesSettled, RegionSettled, Canon;
    CanonParts(doc);
    TypedNames(doc);
    assert Matches(blocks[0], Canon(doc));
    assert MatchAt(blocks, Canon(doc)) == 0;
    assert blocks[..0] + blocks[1..] == blocks[1..];
  }

  lemma TypedNames(doc: Doc)
    requires Typed(doc)
    ensures MatchKey(Canon(doc)) == doc.name
  {
  }

  /** Syncing again with the document read back from the first sync changes nothing. */
  lemma SecondSyncChangesNothing(syn: Syntax, b: Block, doc: Doc)
    requires Typed(doc) && Canonical(syn, doc) && OneMapPerKind(b) && b.kind == KindOf(doc.shape)
    requires SyncNode(syn, b, doc).ok
    ensures var once := SyncNode(syn, b, doc).after;
            && Extract(syn, once, doc.shape).Read?
            && var again := Extract(syn, once, doc.shape).value;
            && Typed(again) && SyncNode(syn, once, again) == Edit(once, true)
  {
    PutGet(syn, b, doc);
    SyncSettles(syn, b, doc);
    TypedCanon(doc);
    SettledFixed(syn, SyncNode(syn, b, doc).after, doc);
  }
}
