/** Put-get, idempotence and conservation for whole documents (docjson/src/emit.rs
    and its tests): whatever the file held, at any depth of nesting. */
module DocTheorems {
  import opened DocAst
  import opened DocSchema
  import opened Sequences
  import opened DocSync
  import opened DocLens

  const MAP_KINDS: seq<string> := ["params", "properties", "expect"]

  /** No block, at any depth, holds two key-value blocks of one kind. */
  ghost predicate OneMapPerKind(b: Block)
  {
    && AtMostOne(b.items, MAP_KINDS)
    && forall k :: 0 <= k < |b.items| && b.items[k].BlockItem? ==> OneMapPerKind(b.items[k].block)
  }

  lemma MapKindsCover(b: Block, shape: Shape)
    requires OneMapPerKind(b)
    ensures AtMostOne(b.items, KvKinds(shape))
  {
    hide Filter;
    assert MAP_KINDS[0] == "params" && MAP_KINDS[1] == "properties" && MAP_KINDS[2] == "expect";
  }

  lemma PoolOk(b: Block, kinds: set<string>)
    requires OneMapPerKind(b)
    ensures forall k :: 0 <= k < |Managed(b.items, kinds)| ==> OneMapPerKind(Managed(b.items, kinds)[k])
  {
    hide Filter, AtMostOne;
    FilterFrom(b.items, BlockOf(kinds));
    var pool := Managed(b.items, kinds);
    forall k | 0 <= k < |pool| ensures OneMapPerKind(pool[k]) {
      var item := Filter(b.items, BlockOf(kinds))[k];
      assert item in b.items;
    }
  }

  lemma FreshOk(kind: string, labels: seq<Expr>)
    ensures OneMapPerKind(Fresh(kind, labels))
  {
  }

  // ------------------------------------------------------------ a sync settles

  lemma MarkSettled(syn: Syntax, b: Block, doc: Doc)
    requires Typed(doc) && Settled(syn, b, doc)
    ensures Settled(syn, Mark(b), doc)
  {
  }

  lemma BlockKinds(syn: Syntax, pool: seq<Block>, shapes: seq<Shape>, docs: seq<Doc>)
    requires forall k :: 0 <= k < |docs| ==> Typed(docs[k]) && docs[k].shape in shapes
    ensures forall k :: 0 <= k < |docs| ==> SyncBlocks(syn, pool, docs).after[k].kind in KindsOf(shapes)
  {
  }

  lemma RegionAgrees(syn: Syntax, items: seq<Item>, shapes: seq<Shape>, docs: seq<Doc>)
    requires forall k :: 0 <= k < |docs| ==> Typed(docs[k]) && docs[k].shape in shapes
    ensures Agree(items, SyncRegion(syn, items, shapes, docs).after, {}, KindsOf(shapes))
  {
    hide Typed, Agree, Filter, SyncBlocks;
    var kinds := KindsOf(shapes);
    if shapes == [] {
      AgreeSelf(items, kinds);
    } else {
      BlockKinds(syn, Managed(items, kinds), shapes, docs);
      SpliceAgrees(items, kinds, SyncBlocks(syn, Managed(items, kinds), docs).after);
    }
  }

  lemma RegionSettles(syn: Syntax, items: seq<Item>, shapes: seq<Shape>, docs: seq<Doc>)
    requires forall k :: 0 <= k < |docs| ==> Typed(docs[k]) && docs[k].shape in shapes
    requires shapes == [] ==> docs == []
    requires BlocksSettled(syn, SyncBlocks(syn, Managed(items, KindsOf(shapes)), docs).after, docs)
    ensures RegionSettled(syn, SyncRegion(syn, items, shapes, docs).after, shapes, docs)
  {
    hide Typed, Settled, InPlace, Filter, SyncBlocks;
    var kinds := KindsOf(shapes);
    if shapes == [] {
      assert kinds == {};
      SpliceNothing(items);
    } else {
      var blocks := SyncBlocks(syn, Managed(items, kinds), docs).after;
      BlockKinds(syn, Managed(items, kinds), shapes, docs);
      SpliceLaw(items, kinds, blocks);
      SpliceInPlace(items, kinds, blocks);
      forall k | 0 <= k < |docs| ensures Settled(syn, Mark(blocks[k]), docs[k]) {
        MarkSettled(syn, blocks[k], docs[k]);
      }
    }
  }

  lemma AgreeSelf(items: seq<Item>, kinds: set<string>)
    ensures Agree(items, items, {}, kinds)
  {
  }

  lemma AtMostOneFrame(a: seq<Item>, b: seq<Item>, kinds: seq<string>, names: set<string>)
    requires Agree(a, b, names, {}) && AtMostOne(a, kinds)
    ensures AtMostOne(b, kinds)
  {
  }

  lemma ManagedFrame(a: seq<Item>, b: seq<Item>, kinds: set<string>, names: set<string>, others: set<string>)
    requires Agree(a, b, names, others) && kinds !! others
    ensures Managed(b, kinds) == Managed(a, kinds)
  {
  }

  lemma HasDescription(syn: Syntax, items: seq<Item>, s: Shape, doc: Doc)
    requires Typed(doc) && doc.shape == s && FieldsSettled(syn, items, Fields(s), doc.fields)
    requires Fields(s) != [] && Fields(s)[0] == Required("description")
    ensures FindField(items, "description").Some?
  {
  }

  /** Writing the children leaves the parameter region where it is. */
  lemma ParamsInPlace(syn: Syntax, items: seq<Item>, doc: Doc)
    requires Typed(doc) && FieldsSettled(syn, items, Fields(doc.shape), doc.fields)
    requires InPlace(items, KindsOf(ParamShapes(doc.shape)))
    ensures InPlace(SyncRegion(syn, items, ChildShapes(doc.shape), doc.children).after, KindsOf(ParamShapes(doc.shape)))
  {
    var s := doc.shape;
    var after := SyncRegion(syn, items, ChildShapes(s), doc.children).after;
    var ps, cs := KindsOf(ParamShapes(s)), KindsOf(ChildShapes(s));
    SchemaSound(s);
    if ParamShapes(s) == [] {
      assert ps == {};
      SpliceNothing(after);
    } else if ChildShapes(s) != [] {
      HasDescription(syn, items, s, doc);
      var blocks := SyncBlocks(syn, Managed(items, cs), doc.children).after;
      hide Typed, InPlace, Filter, SyncBlocks, FieldsSettled;
      forall k | 0 <= k < |blocks| ensures blocks[k].kind in cs {
        assert doc.children[k].shape in ChildShapes(s);
      }
      OtherRegionKept(items, ps, cs, blocks, "description");
    }
  }

  /** Writing the children leaves the parameter region settled. */
  lemma ParamsStay(syn: Syntax, items: seq<Item>, doc: Doc)
    requires Typed(doc) && FieldsSettled(syn, items, Fields(doc.shape), doc.fields)
    requires RegionSettled(syn, items, ParamShapes(doc.shape), doc.params)
    requires Agree(items, SyncRegion(syn, items, ChildShapes(doc.shape), doc.children).after, {},
                   KindsOf(ChildShapes(doc.shape)))
    ensures RegionSettled(syn, SyncRegion(syn, items, ChildShapes(doc.shape), doc.children).after,
                          ParamShapes(doc.shape), doc.params)
  {
    SchemaSound(doc.shape);
    ParamsInPlace(syn, items, doc);
    ManagedFrame(items, SyncRegion(syn, items, ChildShapes(doc.shape), doc.children).after,
                 KindsOf(ParamShapes(doc.shape)), {}, KindsOf(ChildShapes(doc.shape)));
  }

  /** The item list after each stage of a node's sync: fields, key-value children, parameters, children. */
  function Stages(syn: Syntax, b: Block, doc: Doc): (seq<Item>, seq<Item>, seq<Item>, seq<Item>)
    requires Typed(doc)
  {
    var i1 := SyncFields(syn, b.items, Fields(doc.shape), doc.fields).after;
    var i2 := SyncKvChildren(syn, i1, if doc.shape.Vars? then ["vars"] else KvKinds(doc.shape), doc.kvs).after;
    var i3 := SyncRegion(syn, i2, ParamShapes(doc.shape), doc.params).after;
    var i4 := SyncRegion(syn, i3, ChildShapes(doc.shape), doc.children).after;
    (i1, i2, i3, i4)
  }

  /** Each stage leaves alone what the other stages manage. */
  lemma StagesAgree(syn: Syntax, b: Block, doc: Doc)
    requires Typed(doc) && !doc.shape.Vars?
    ensures var (i1, i2, i3, i4) := Stages(syn, b, doc);
            var names, kvs := Names(Fields(doc.shape)), AllOf(KvKinds(doc.shape));
            var ps, cs := KindsOf(ParamShapes(doc.shape)), KindsOf(ChildShapes(doc.shape));
            && Agree(b.items, i1, names, {}) && Agree(i1, i2, {}, kvs) && Agree(i2, i3, {}, ps) && Agree(i3, i4, {}, cs)
            && Managed(i2, ps) == Managed(b.items, ps) && Managed(i3, cs) == Managed(b.items, cs)
  {
    hide Filter, Agree, SyncRegion, SyncFields, SyncKvChildren, Names, KindsOf, AllOf, Managed, DistinctNames,
      Distinct, DistinctKinds;
    var s := doc.shape;
    SchemaSound(s);
    var (i1, i2, i3, i4) := Stages(syn, b, doc);
    var names, kvs, ps, cs := Names(Fields(s)), AllOf(KvKinds(s)), KindsOf(ParamShapes(s)), KindsOf(ChildShapes(s));
    SyncFieldsLaw(syn, b.items, Fields(s), doc.fields);
    SyncKvChildrenLaw(syn, i1, KvKinds(s), doc.kvs);
    RegionAgrees(syn, i2, ParamShapes(s), doc.params);
    RegionAgrees(syn, i3, ChildShapes(s), doc.children);
    AgreeChain(b.items, i1, i2, names, kvs, names, {}, {}, kvs);
    ManagedFrame(b.items, i2, ps, names, kvs);
    AgreeChain(b.items, i2, i3, names, kvs + ps, names, kvs, {}, ps);
    ManagedFrame(b.items, i3, cs, names, kvs + ps);
  }

  /** One block: given that its child blocks settle, so does the whole block. */
  lemma NodeSettles(syn: Syntax, b: Block, doc: Doc)
    requires Typed(doc) && !doc.shape.Vars? && b.kind == KindOf(doc.shape) && SyncNode(syn, b, doc).ok
    requires AtMostOne(b.items, KvKinds(doc.shape))
    requires BlocksSettled(syn, SyncBlocks(syn, Managed(b.items, KindsOf(ParamShapes(doc.shape))), doc.params).after,
                           doc.params)
    requires BlocksSettled(syn,
                           SyncBlocks(syn, Managed(b.items, KindsOf(ChildShapes(doc.shape))), doc.children).after,
                           doc.children)
    ensures Settled(syn, SyncNode(syn, b, doc).after, doc)
  {
    hide Filter, Agree, FieldsSettled, KvsSettled, BlocksSettled, RegionSettled, SyncBlocks, SyncRegion, SyncFields,
      SyncKvChildren, Names, KindsOf, AllOf, Managed, AtMostOne, DistinctNames, Distinct, DistinctKinds;
    var s := doc.shape;
    SchemaSound(s);
    StagesAgree(syn, b, doc);
    var (i1, i2, i3, i4) := Stages(syn, b, doc);
    var names, kvs, ps, cs := Names(Fields(s)), AllOf(KvKinds(s)), KindsOf(ParamShapes(s)), KindsOf(ChildShapes(s));
    SyncFieldsLaw(syn, b.items, Fields(s), doc.fields);
    AtMostOneFrame(b.items, i1, KvKinds(s), names);
    SyncKvChildrenLaw(syn, i1, KvKinds(s), doc.kvs);
    RegionSettles(syn, i2, ParamShapes(s), doc.params);
    RegionSettles(syn, i3, ChildShapes(s), doc.children);
    AgreeChain(i1, i2, i3, {}, kvs + ps, {}, kvs, {}, ps);
    AgreeChain(i2, i3, i4, {}, ps + cs, {}, ps, {}, cs);
    FieldsFrame(syn, i1, i3, Fields(s), doc.fields, kvs + ps);
    FieldsFrame(syn, i3, i4, Fields(s), doc.fields, cs);
    KvsFrame(syn, i2, i4, KvKinds(s), doc.kvs, ps + cs);
    ParamsStay(syn, i3, doc);
  }

  /** Whatever the block held, a sync without diagnostics leaves it settled on the document. */
  lemma SyncSettles(syn: Syntax, b: Block, doc: Doc)
    requires Typed(doc) && OneMapPerKind(b) && b.kind == KindOf(doc.shape) && SyncNode(syn, b, doc).ok
    ensures Settled(syn, SyncNode(syn, b, doc).after, doc)
    decreases doc
  {
    hide Managed, SyncBlocks, SyncFields, SyncKvChildren, OneMapPerKind, AtMostOne, AllFit, InSections;
    if doc.shape.Vars? {
      SyncEntriesLaw(syn, FieldsIn(b.items), doc.kvs[0]);
    } else {
      var ps, cs := KindsOf(ParamShapes(doc.shape)), KindsOf(ChildShapes(doc.shape));
      MapKindsCover(b, doc.shape);
      PoolOk(b, ps);
      PoolOk(b, cs);
      StagesOk(syn, b, doc);
      BlocksSettle(syn, Managed(b.items, ps), doc.params);
      BlocksSettle(syn, Managed(b.items, cs), doc.children);
      NodeSettles(syn, b, doc);
    }
  }

  lemma BlocksSettle(syn: Syntax, pool: seq<Block>, docs: seq<Doc>)
    requires forall k :: 0 <= k < |docs| ==> Typed(docs[k])
    requires forall k :: 0 <= k < |pool| ==> OneMapPerKind(pool[k])
    requires SyncBlocks(syn, pool, docs).ok
    ensures BlocksSettled(syn, SyncBlocks(syn, pool, docs).after, docs)
    decreases docs
  {
    hide Typed, Settled, OneMapPerKind, SyncNode, Taken, Left;
    if docs != [] {
      TakenOk(pool, docs[0]);
      SyncSettles(syn, Taken(pool, docs[0]), docs[0]);
      BlocksSettle(syn, Left(pool, docs[0]), docs[1..]);
    }
  }

  lemma TakenOk(pool: seq<Block>, doc: Doc)
    requires forall k :: 0 <= k < |pool| ==> OneMapPerKind(pool[k])
    ensures OneMapPerKind(Taken(pool, doc))
    ensures forall k :: 0 <= k < |Left(pool, doc)| ==> OneMapPerKind(Left(pool, doc)[k])
  {
  }

  /** The regions of a node draw on the blocks the file held before the sync. */
  lemma StagesOk(syn: Syntax, b: Block, doc: Doc)
    requires Typed(doc) && !doc.shape.Vars? && SyncNode(syn, b, doc).ok
    ensures SyncBlocks(syn, Managed(b.items, KindsOf(ParamShapes(doc.shape))), doc.params).ok
    ensures SyncBlocks(syn, Managed(b.items, KindsOf(ChildShapes(doc.shape))), doc.children).ok
  {
    hide Agree, SyncFields, SyncKvChildren, SyncBlocks, Managed, KindsOf, AllOf, Names, Typed;
    StagesAgree(syn, b, doc);
    if ParamShapes(doc.shape) == [] {
      NoDocs(syn, b, doc);
    }
    if ChildShapes(doc.shape) == [] {
      NoDocs(syn, b, doc);
    }
  }

  lemma NoDocs(syn: Syntax, b: Block, doc: Doc)
    requires Typed(doc)
    ensures ParamShapes(doc.shape) == [] ==> doc.params == []
    ensures ChildShapes(doc.shape) == [] ==> doc.children == []
    ensures forall pool :: SyncBlocks(syn, pool, []).ok
  {
  }
}
