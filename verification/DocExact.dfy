/** Exactly when a sync reads back as the document: the condition on the file, checkable before
    the sync (docjson/src/emit.rs:503-527, docjson/src/inspect_ast.rs:505-532). */
module DocExact {
  import opened DocAst
  import opened DocSchema
  import opened Sequences
  import opened DocSync
  import opened DocLens
  import opened DocTheorems
  import opened DocRoundTrip
  import opened DocConservation

  /** Clearing a key-value child uncovers no second block of its kind with entries. */
  predicate NothingUncovered(items: seq<Item>, kind: string, kvs: seq<Kv>)
  {
    var maps := Managed(items, {kind});
    kvs != [] || |maps| <= 1 || maps[1].items == []
  }

  /** The condition for a whole document: it holds at every block that will be written. */
  ghost predicate ReadsBack(b: Block, doc: Doc)
    requires Typed(doc)
    decreases doc, 1
  {
    doc.shape.Vars? ||
    (&& (forall k :: 0 <= k < |doc.kvs| ==> NothingUncovered(b.items, KvKinds(doc.shape)[k], doc.kvs[k]))
     && AllReadBack(Managed(b.items, KindsOf(ParamShapes(doc.shape))), doc.params)
     && AllReadBack(Managed(b.items, KindsOf(ChildShapes(doc.shape))), doc.children))
  }

  ghost predicate AllReadBack(pool: seq<Block>, docs: seq<Doc>)
    requires forall k :: 0 <= k < |docs| ==> Typed(docs[k])
    decreases docs, 0
  {
    forall k :: 0 <= k < |docs| ==> ReadsBack(Bases(pool, docs)[k], docs[k])
  }

  // -------------------------------------------------------- key-value children

  lemma KvChildFrame(syn: Syntax, a: seq<Item>, b: seq<Item>, kind: string, kvs: seq<Kv>, names: set<string>,
                     kinds: set<string>)
    requires Agree(a, b, names, kinds) && kind !in kinds
    ensures ReadKvChild(syn, b, kind) == ReadKvChild(syn, a, kind)
    ensures NothingUncovered(b, kind, kvs) == NothingUncovered(a, kind, kvs)
  {
    hide Filter, ReadEntries;
    assert Ignores(BlockOf({kind}), names, kinds);
  }

  lemma {:induction false} KvChildrenIff(syn: Syntax, items: seq<Item>, kinds: seq<string>, kvss: seq<seq<Kv>>, k: nat)
    requires |kinds| == |kvss| && Distinct(kinds) && k < |kinds|
    requires forall j :: 0 <= j < |kvss| ==> WritableEntries(syn, kvss[j]) && CanonicalEntries(syn, kvss[j])
    ensures ReadKvChild(syn, SyncKvChildren(syn, items, kinds, kvss).after, kinds[k]) == Read(kvss[k]) <==>
            NothingUncovered(items, kinds[k], kvss[k])
    decreases kinds
  {
    hide ReadKvChild, SyncKvChild, NothingUncovered, WritableEntries, CanonicalEntries, Agree;
    var first := SyncKvChild(syn, items, kinds[0], kvss[0]).after;
    SyncKvChildLaw(syn, items, kinds[0], kvss[0]);
    SyncKvChildrenLaw(syn, first, kinds[1..], kvss[1..]);
    var r := SyncKvChildren(syn, items, kinds, kvss).after;
    if k == 0 {
      KvChildFrame(syn, first, r, kinds[0], kvss[0], {}, AllOf(kinds[1..]));
      OneKvChildIff(syn, items, kinds[0], kvss[0]);
    } else {
      KvChildrenIff(syn, first, kinds[1..], kvss[1..], k - 1);
      KvChildFrame(syn, items, first, kinds[k], kvss[k], {}, {kinds[0]});
    }
  }

  lemma OneKvChildIff(syn: Syntax, items: seq<Item>, kind: string, kvs: seq<Kv>)
    requires WritableEntries(syn, kvs) && CanonicalEntries(syn, kvs)
    ensures ReadKvChild(syn, SyncKvChild(syn, items, kind, kvs).after, kind) == Read(kvs) <==>
            NothingUncovered(items, kind, kvs)
  {
    hide ReadKvChild, SyncKvChild, WritableEntries, CanonicalEntries, Managed;
    KvChildReadsBackIff(syn, items, kind, kvs);
  }

  lemma {:induction false} ReadKvsIff(syn: Syntax, items: seq<Item>, kinds: seq<string>, kvss: seq<seq<Kv>>)
    requires |kinds| == |kvss|
    ensures ReadKvChildren(syn, items, kinds) == Read(kvss) <==>
            forall k :: 0 <= k < |kinds| ==> ReadKvChild(syn, items, kinds[k]) == Read(kvss[k])
    decreases kinds
  {
    hide ReadKvChild;
    if kinds != [] {
      ReadKvsIff(syn, items, kinds[1..], kvss[1..]);
      assert kvss == [kvss[0]] + kvss[1..];
      assert forall k :: 1 <= k < |kinds| ==> kinds[k] == kinds[1..][k - 1] && kvss[k] == kvss[1..][k - 1];
    }
  }

  // ------------------------------------------------------------- child documents

  lemma ExtractIgnoresTrivia(syn: Syntax, b: Block, shape: Shape)
    ensures Extract(syn, Mark(b), shape) == Extract(syn, b, shape)
  {
    hide ReadFields, ReadKvChildren, ExtractAll, Sections, ReadEntries;
  }

  lemma ExtractShape(syn: Syntax, b: Block, shape: Shape)
    ensures Extract(syn, b, shape).Read? ==> Extract(syn, b, shape).value.shape == shape
  {
    hide ReadFields, ReadKvChildren, ExtractAll, Sections, ReadEntries;
  }

  /** The managed blocks, one by one. */
  ghost function ExtractEach(syn: Syntax, blocks: seq<Block>, docs: seq<Doc>): Checked<seq<Doc>>
    requires |blocks| == |docs|
  {
    if blocks == [] then Read([])
    else
      var first, rest := Extract(syn, blocks[0], docs[0].shape), ExtractEach(syn, blocks[1..], docs[1..]);
      if first.Diagnosed? || rest.Diagnosed? then Diagnosed else Read([first.value] + rest.value)
  }

  lemma {:induction false} ExtractAllIsEach(syn: Syntax, items: seq<Item>, shapes: seq<Shape>, docs: seq<Doc>)
    requires DistinctKinds(shapes) && |Managed(items, KindsOf(shapes))| == |docs|
    requires forall k :: 0 <= k < |docs| ==>
               docs[k].shape in shapes && Managed(items, KindsOf(shapes))[k].kind == KindOf(docs[k].shape)
    ensures ExtractAll(syn, items, shapes) == ExtractEach(syn, Managed(items, KindsOf(shapes)), docs)
    decreases items
  {
    hide DistinctKinds, KindOf, Extract;
    if items != [] {
      var kinds, item := KindsOf(shapes), items[0];
      var managed := Managed(items, kinds);
      if Passes(item, BlockOf(kinds)) {
        assert managed == [item.block] + Managed(items[1..], kinds);
        ShapeFound(docs[0].shape, shapes);
        ExtractAllIsEach(syn, items[1..], shapes, docs[1..]);
      } else {
        assert managed == Managed(items[1..], kinds);
        if item.BlockItem? {
          ShapeNotFound(item.block.kind, shapes);
        }
        ExtractAllIsEach(syn, items[1..], shapes, docs);
      }
    }
  }

  lemma {:induction false} EachIff(syn: Syntax, blocks: seq<Block>, docs: seq<Doc>, goal: seq<Doc>)
    requires |blocks| == |docs| == |goal|
    ensures ExtractEach(syn, blocks, docs) == Read(goal) <==>
            forall k :: 0 <= k < |docs| ==> Extract(syn, blocks[k], docs[k].shape) == Read(goal[k])
  {
    hide Extract;
    if blocks != [] {
      EachIff(syn, blocks[1..], docs[1..], goal[1..]);
      assert goal == [goal[0]] + goal[1..];
      assert forall k :: 1 <= k < |docs| ==>
          blocks[k] == blocks[1..][k - 1] && docs[k] == docs[1..][k - 1] && goal[k] == goal[1..][k - 1];
    }
  }

  lemma {:induction false} EachShapes(syn: Syntax, blocks: seq<Block>, docs: seq<Doc>)
    requires |blocks| == |docs| && ExtractEach(syn, blocks, docs).Read?
    ensures var got := ExtractEach(syn, blocks, docs).value;
            && |got| == |docs|
            && forall k :: 0 <= k < |docs| ==>
                 got[k].shape == docs[k].shape && Extract(syn, blocks[k], docs[k].shape) == Read(got[k])
  {
    hide Extract;
    if blocks != [] {
      ExtractShape(syn, blocks[0], docs[0].shape);
      EachShapes(syn, blocks[1..], docs[1..]);
    }
  }

  lemma {:induction false} SectionsByShape(shapes: seq<Shape>, a: seq<Doc>, b: seq<Doc>)
    requires |a| == |b| && forall k :: 0 <= k < |a| ==> a[k].shape == b[k].shape
    ensures InSections(shapes, a) == InSections(shapes, b)
    decreases |shapes| + |a|
  {
    if shapes != [] && a != [] {
      if a[0].shape == shapes[0] {
        SectionsByShape(if shapes[0].Vars? then shapes[1..] else shapes, a[1..], b[1..]);
      } else {
        SectionsByShape(shapes[1..], a, b);
      }
    }
  }

  /** Children read in the order they were written are in the order of their sections. */
  lemma ChildrenInOrder(syn: Syntax, blocks: seq<Block>, doc: Doc)
    requires Typed(doc) && |blocks| == |doc.children| && ExtractEach(syn, blocks, doc.children).Read?
    requires forall k :: 0 <= k < |blocks| && doc.children[k].shape.Vars? ==>
               Extract(syn, blocks[k], Vars) == Read(Canon(doc.children[k]))
    ensures var got := ExtractEach(syn, blocks, doc.children).value;
            && |got| == |doc.children|
            && (forall k :: 0 <= k < |got| ==> got[k].shape == doc.children[k].shape)
            && (Sectioned(doc.shape) ==> Sections(ChildShapes(doc.shape), got) == got)
  {
    var got := ExtractEach(syn, blocks, doc.children).value;
    EachShapes(syn, blocks, doc.children);
    if Sectioned(doc.shape) {
      ShapesDistinct(doc.shape);
      SectionsByShape(ChildShapes(doc.shape), doc.children, got);
      hide Extract, ExtractEach, Sections, InSections, Canon;
      forall k | 0 <= k < |got| && got[k].shape.Vars? ensures got[k].kvs != [[]] {
        assert Typed(doc.children[k]);
      }
      SectionsKeep(ChildShapes(doc.shape), got);
    }
  }

  /** Reading the children as written is reading the document's children: sections add nothing. */
  lemma ChildrenIff(syn: Syntax, blocks: seq<Block>, doc: Doc)
    requires Typed(doc) && |blocks| == |doc.children|
    requires forall k :: 0 <= k < |blocks| && doc.children[k].shape.Vars? ==>
               Extract(syn, blocks[k], Vars) == Read(Canon(doc.children[k]))
    ensures var got, goal := ExtractEach(syn, blocks, doc.children), CanonAll(doc.children);
            got == Read(goal) <==>
            got.Read? && goal == if Sectioned(doc.shape) then Sections(ChildShapes(doc.shape), got.value) else got.value
  {
    ChildrenArranged(doc);
    if ExtractEach(syn, blocks, doc.children).Read? {
      ChildrenInOrder(syn, blocks, doc);
    }
  }

  // ------------------------------------------------------------- the parts of a node

  /** The fields of a written block read back as written, whatever the file held. */
  lemma FieldsAlwaysRead(syn: Syntax, b: Block, doc: Doc)
    requires Typed(doc) && Canonical(syn, doc) && !doc.shape.Vars? && Writable(syn, doc)
    ensures ReadFields(syn, SyncNode(syn, b, doc).after.items, Fields(doc.shape)) == Read(doc.fields)
    ensures FieldsSettled(syn, SyncNode(syn, b, doc).after.items, Fields(doc.shape), doc.fields)
  {
    hide Filter, Agree, FieldsSettled, SyncRegion, SyncKvChildren, Names, KindsOf, AllOf, Managed, DistinctNames,
      Distinct, DistinctKinds, Target, CanonicalFields, WritableEntries;
    var s := doc.shape;
    SchemaSound(s);
    StagesAgree(syn, b, doc);
    var (i1, i2, i3, i4) := Stages(syn, b, doc);
    var kvs, ps, cs := AllOf(KvKinds(s)), KindsOf(ParamShapes(s)), KindsOf(ChildShapes(s));
    FieldsOk(syn, b.items, Fields(s), doc.fields);
    SyncFieldsLaw(syn, b.items, Fields(s), doc.fields);
    AgreeChain(i1, i2, i3, {}, kvs + ps, {}, kvs, {}, ps);
    AgreeChain(i1, i3, i4, {}, kvs + ps + cs, {}, kvs + ps, {}, cs);
    FieldsFrame(syn, i1, i4, Fields(s), doc.fields, kvs + ps + cs);
    FieldsRead(syn, i4, Fields(s), doc.fields);
  }

  lemma KvsIff(syn: Syntax, b: Block, doc: Doc)
    requires Typed(doc) && Canonical(syn, doc) && !doc.shape.Vars? && Writable(syn, doc)
    ensures ReadKvChildren(syn, SyncNode(syn, b, doc).after.items, KvKinds(doc.shape)) == Read(doc.kvs) <==>
            forall k :: 0 <= k < |doc.kvs| ==> NothingUncovered(b.items, KvKinds(doc.shape)[k], doc.kvs[k])
  {
    hide Filter, Agree, SyncRegion, SyncFields, SyncKvChildren, Names, KindsOf, Managed, DistinctNames, ReadKvChild,
      ReadKvChildren, DistinctKinds, Target, CanonicalFields, CanonicalEntries, WritableEntries, NothingUncovered;
    var s := doc.shape;
    SchemaSound(s);
    StagesAgree(syn, b, doc);
    var (i1, i2, i3, i4) := Stages(syn, b, doc);
    var names, ps, cs := Names(Fields(s)), KindsOf(ParamShapes(s)), KindsOf(ChildShapes(s));
    AgreeChain(i2, i3, i4, {}, ps + cs, {}, ps, {}, cs);
    ReadKvsIff(syn, i4, KvKinds(s), doc.kvs);
    forall k | 0 <= k < |doc.kvs|
      ensures ReadKvChild(syn, i4, KvKinds(s)[k]) == Read(doc.kvs[k]) <==>
              NothingUncovered(b.items, KvKinds(s)[k], doc.kvs[k])
    {
      var kind := KvKinds(s)[k];
      assert kind in AllOf(KvKinds(s));
      KvChildrenIff(syn, i1, KvKinds(s), doc.kvs, k);
      KvChildFrame(syn, i2, i4, kind, doc.kvs[k], {}, ps + cs);
      KvChildFrame(syn, b.items, i1, kind, doc.kvs[k], names, {});
    }
  }

  /** The managed blocks after a region is written are the written ones, up to blank lines. */
  lemma WrittenRegion(syn: Syntax, items: seq<Item>, shapes: seq<Shape>, docs: seq<Doc>, k: nat)
    requires forall j :: 0 <= j < |docs| ==> Typed(docs[j]) && docs[j].shape in shapes
    requires shapes == [] ==> docs == []
    ensures var kinds := KindsOf(shapes);
            var after := Managed(SyncRegion(syn, items, shapes, docs).after, kinds);
            && |after| == |docs|
            && (k < |docs| ==>
                  && after[k].kind == KindOf(docs[k].shape)
                  && Extract(syn, after[k], docs[k].shape) ==
                     Extract(syn, SyncNode(syn, Bases(Managed(items, kinds), docs)[k], docs[k]).after, docs[k].shape))
  {
    hide Filter, Extract, SyncNode, Taken, Left, Bases, InsertAt, Mark, Typed;
    var kinds := KindsOf(shapes);
    if shapes == [] {
      assert kinds == {};
      SpliceNothing(items);
    } else {
      var pool := Managed(items, kinds);
      var blocks := SyncBlocks(syn, pool, docs).after;
      BlockKinds(syn, pool, shapes, docs);
      SpliceLaw(items, kinds, blocks);
      if k < |docs| {
        SyncedFromBases(syn, pool, docs, k);
        ExtractIgnoresTrivia(syn, blocks[k], docs[k].shape);
        MarkKeepsKind(blocks[k]);
      }
    }
  }

  lemma MarkKeepsKind(b: Block)
    ensures Mark(b).kind == b.kind
  {
  }

  // ----------------------------------------------------------------- the whole tree

  /** A sync reads back as exactly the document if and only if nothing is uncovered at any of
      the blocks it writes. */
  lemma PutGetIff(syn: Syntax, b: Block, doc: Doc)
    requires Typed(doc) && Canonical(syn, doc) && Writable(syn, doc) && b.kind == KindOf(doc.shape)
    ensures Extract(syn, SyncNode(syn, b, doc).after, doc.shape) == Read(Canon(doc)) <==> ReadsBack(b, doc)
    decreases doc, 1
  {
    hide AllFit, InSections, SyncFields, SyncKvChildren, SyncBlocks, SyncRegion, SyncEntries, ReadFields,
      ReadKvChildren, ExtractAll, Sections, Managed, KindsOf, Canon, CanonAll, Target, WritableEntries,
      CanonicalFields, CanonicalEntries, NothingUncovered, AllReadBack;
    CanonParts(doc);
    if doc.shape.Vars? {
      VarsReadBack(syn, b, doc);
    } else {
      FieldsAlwaysRead(syn, b, doc);
      KvsIff(syn, b, doc);
      RegionsIff(syn, b, doc);
    }
  }

  lemma VarsReadBack(syn: Syntax, b: Block, doc: Doc)
    requires Typed(doc) && Canonical(syn, doc) && Writable(syn, doc) && doc.shape.Vars?
    ensures Extract(syn, SyncNode(syn, b, doc).after, doc.shape) == Read(Canon(doc))
  {
    hide SyncEntries, ReadEntries, CanonicalEntries, WritableEntries;
    VarsCanon(doc);
    VarsOnly(syn, doc);
    EntriesOk(syn, FieldsIn(b.items), doc.kvs[0]);
    SyncEntriesLaw(syn, FieldsIn(b.items), doc.kvs[0]);
    EntriesRead(syn, SyncEntries(syn, FieldsIn(b.items), doc.kvs[0]).after, doc.kvs[0]);
  }

  /** The two child regions of a node. */
  lemma RegionsIff(syn: Syntax, b: Block, doc: Doc)
    requires Typed(doc) && Canonical(syn, doc) && Writable(syn, doc) && !doc.shape.Vars?
    ensures var after := SyncNode(syn, b, doc).after.items;
            var params := ExtractAll(syn, after, ParamShapes(doc.shape));
            var children := ExtractAll(syn, after, ChildShapes(doc.shape));
            && (params == Read(CanonAll(doc.params)) <==>
                  AllReadBack(Managed(b.items, KindsOf(ParamShapes(doc.shape))), doc.params))
            && (children.Read? && CanonAll(doc.children) ==
                  (if Sectioned(doc.shape) then Sections(ChildShapes(doc.shape), children.value)
                   else children.value) <==>
                AllReadBack(Managed(b.items, KindsOf(ChildShapes(doc.shape))), doc.children))
    decreases doc, 0
  {
    hide AllFit, InSections, Filter, Extract, SyncFields, SyncKvChildren, SyncBlocks, SyncRegion, ExtractAll,
      Sections, Agree, Managed, KindsOf, Names, AllOf, AllReadBack, ExtractEach, Distinct, DistinctNames, Target,
      WritableEntries, CanonicalFields, CanonicalEntries, Canon;
    var s := doc.shape;
    SchemaSound(s);
    NoDocs(syn, b, doc);
    StagesAgree(syn, b, doc);
    var (i1, i2, i3, i4) := Stages(syn, b, doc);
    var ps, cs := KindsOf(ParamShapes(s)), KindsOf(ChildShapes(s));
    ManagedFrame(i3, i4, ps, {}, cs);
    BlocksIff(syn, i2, i4, ParamShapes(s), doc.params);
    BlocksIff(syn, i3, i4, ChildShapes(s), doc.children);
    ExtractAllIsEach(syn, i4, ChildShapes(s), doc.children);
    forall k | 0 <= k < |doc.children| && doc.children[k].shape.Vars?
      ensures Extract(syn, Managed(i4, cs)[k], Vars) == Read(Canon(doc.children[k]))
    {
      WrittenRegion(syn, i3, ChildShapes(s), doc.children, k);
      VarsReadBack(syn, Bases(Managed(i3, cs), doc.children)[k], doc.children[k]);
    }
    ChildrenIff(syn, Managed(i4, cs), doc);
  }

  lemma BlocksIff(syn: Syntax, items: seq<Item>, after: seq<Item>, shapes: seq<Shape>, docs: seq<Doc>)
    requires forall k :: 0 <= k < |docs| ==>
               Typed(docs[k]) && docs[k].shape in shapes && Canonical(syn, docs[k]) && Writable(syn, docs[k])
    requires (shapes == [] ==> docs == []) && DistinctKinds(shapes)
    requires Managed(after, KindsOf(shapes)) == Managed(SyncRegion(syn, items, shapes, docs).after, KindsOf(shapes))
    ensures |Managed(after, KindsOf(shapes))| == |docs|
    ensures forall k :: 0 <= k < |docs| ==> Managed(after, KindsOf(shapes))[k].kind == KindOf(docs[k].shape)
    ensures ExtractAll(syn, after, shapes) == Read(CanonAll(docs)) <==>
            AllReadBack(Managed(items, KindsOf(shapes)), docs)
    decreases docs
  {
    hide Typed, Canonical, Writable, Extract, ReadsBack, SyncNode, SyncRegion, Canon, Managed, KindsOf, KindOf,
      DistinctKinds, ExtractAll, ExtractEach, Bases;
    var managed, pool := Managed(after, KindsOf(shapes)), Managed(items, KindsOf(shapes));
    WrittenRegion(syn, items, shapes, docs, |docs|);
    forall k | 0 <= k < |docs|
      ensures managed[k].kind == KindOf(docs[k].shape)
      ensures Extract(syn, managed[k], docs[k].shape) == Read(Canon(docs[k])) <==>
              ReadsBack(Bases(pool, docs)[k], docs[k])
    {
      WrittenRegion(syn, items, shapes, docs, k);
      BaseKind(pool, docs, k);
      PutGetIff(syn, Bases(pool, docs)[k], docs[k]);
    }
    ExtractAllIsEach(syn, after, shapes, docs);
    EachIff(syn, managed, docs, CanonAll(docs));
  }

  lemma {:induction false} BaseKind(pool: seq<Block>, docs: seq<Doc>, k: nat)
    requires k < |docs|
    ensures Bases(pool, docs)[k].kind == KindOf(docs[k].shape)
    decreases docs
  {
    hide Taken, Left, KindOf;
    if k > 0 {
      BaseKind(Left(pool, docs[0]), docs[1..], k - 1);
    }
  }
}
