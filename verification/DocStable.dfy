/** Exactly when saving again what was read back changes nothing: the condition on the file,
    checkable before the first save (docjson/src/emit.rs:503-558, docjson/src/inspect_ast.rs:505-532). */
module DocStable {
  import opened Wrappers
  import opened DocAst
  import opened DocSchema
  import opened Sequences
  import opened DocSync
  import opened DocLens
  import opened DocTheorems
  import opened DocRoundTrip
  import opened DocConservation
  import opened DocExact

  /** The block can be read, and writing back what was read changes nothing. */
  ghost predicate Stable(syn: Syntax, b: Block, shape: Shape)
  {
    var seen := Extract(syn, b, shape);
    seen.Read? && Typed(seen.value) && SyncNode(syn, b, seen.value) == Edit(b, true)
  }

  // ------------------------------------------------------------- key-value blocks

  /** Plain fields only, and every expression comes back from the value it is shown as. */
  predicate Renewable(syn: Syntax, items: seq<Item>)
  {
    forall k :: 0 <= k < |items| ==>
      items[k].FieldItem? && ToExpr(syn, ValOf(syn, items[k].field.expr)) == Some(items[k].field.expr)
  }

  lemma {:induction false} EntriesRenew(syn: Syntax, items: seq<Item>)
    ensures var kvs := ReadEntries(syn, items);
            && (Renewable(syn, items) <==> kvs.Read? && EntriesSettled(syn, items, kvs.value))
            && (kvs.Read? ==> |kvs.value| == |items|)
  {
    hide ToExpr, ValOf;
    if items != [] {
      EntriesRenew(syn, items[1..]);
      var kvs, rest := ReadEntries(syn, items), ReadEntries(syn, items[1..]);
      assert Renewable(syn, items) ==> Renewable(syn, items[1..]);
      if kvs.Read? {
        assert kvs.value[1..] == rest.value;
        if EntriesSettled(syn, items, kvs.value) {
          EntriesTail(syn, items, kvs.value);
        }
        if Renewable(syn, items) {
          EntriesCons(syn, items[0].field, items[1..], kvs.value);
          assert [items[0]] + items[1..] == items;
        } else if Renewable(syn, items[1..]) {
          assert ToExpr(syn, kvs.value[0].value) != Some(items[0].field.expr);
        }
      }
    }
  }

  lemma EntriesTail(syn: Syntax, items: seq<Item>, kvs: seq<Kv>)
    requires items != [] && EntriesSettled(syn, items, kvs)
    ensures EntriesSettled(syn, items[1..], kvs[1..])
  {
  }

  /** What the first block of the kind shows is what it is settled on. */
  ghost predicate KvStable(syn: Syntax, items: seq<Item>, kind: string)
  {
    var kvs := ReadKvChild(syn, items, kind);
    kvs.Read? && KvSettled(syn, items, kind, kvs.value)
  }

  lemma KvStableIff(syn: Syntax, items: seq<Item>, kind: string)
    ensures var m := FirstBlock(items, kind);
            KvStable(syn, items, kind) <==> m.None? || (m.value.items != [] && Renewable(syn, m.value.items))
  {
    hide FirstBlock, EntriesSettled, ReadEntries, Renewable;
    var m := FirstBlock(items, kind);
    if m.Some? {
      EntriesRenew(syn, m.value.items);
    }
  }

  /** Clearing a key-value child uncovers no second block of its kind, or one with entries that renew. */
  predicate NothingLost(syn: Syntax, items: seq<Item>, kind: string, kvs: seq<Kv>)
  {
    var maps := Managed(items, {kind});
    kvs != [] || |maps| <= 1 || (maps[1].items != [] && Renewable(syn, maps[1].items))
  }

  lemma OneKvChildStable(syn: Syntax, items: seq<Item>, kind: string, kvs: seq<Kv>)
    requires WritableEntries(syn, kvs) && CanonicalEntries(syn, kvs)
    ensures KvStable(syn, SyncKvChild(syn, items, kind, kvs).after, kind) <==> NothingLost(syn, items, kind, kvs)
  {
    hide ToExpr, ValOf, SyncEntries, ReplaceFirstBlock, RemoveFirstBlock, Filter, EntriesSettled, WritableEntries,
      CanonicalEntries, Renewable, ReadEntries;
    var existing := FirstBlock(items, kind);
    var after := SyncKvChild(syn, items, kind, kvs).after;
    if kvs == [] {
      RemoveFirstBlockLaw(items, kind);
      if existing.Some? {
        RemoveFirstShows(items, kind);
      }
      KvStableIff(syn, after, kind);
    } else {
      var base := if existing.Some? then existing.value else Fresh(kind, []);
      var m := SyncKvs(syn, base, kvs);
      EntriesOk(syn, FieldsIn(base.items), kvs);
      SyncEntriesLaw(syn, FieldsIn(base.items), kvs);
      EntriesRead(syn, m.after.items, kvs);
      if existing.Some? {
        ReplaceFirstBlockLaw(items, kind, m.after);
      } else {
        AppendBlockLaw(items, m.after);
      }
      assert FirstBlock(after, kind) == Some(m.after);
    }
  }

  lemma KvStableFrame(syn: Syntax, a: seq<Item>, b: seq<Item>, kind: string, kvs: seq<Kv>, names: set<string>,
                      kinds: set<string>)
    requires Agree(a, b, names, kinds) && kind !in kinds
    ensures KvStable(syn, b, kind) == KvStable(syn, a, kind)
    ensures NothingLost(syn, b, kind, kvs) == NothingLost(syn, a, kind, kvs)
  {
    hide Filter, ReadEntries, EntriesSettled, Renewable;
    assert Ignores(BlockOf({kind}), names, kinds);
  }

  lemma {:induction false} KvChildrenStable(syn: Syntax, items: seq<Item>, kinds: seq<string>, kvss: seq<seq<Kv>>,
                                            k: nat)
    requires |kinds| == |kvss| && Distinct(kinds) && k < |kinds|
    requires forall j :: 0 <= j < |kvss| ==> WritableEntries(syn, kvss[j]) && CanonicalEntries(syn, kvss[j])
    ensures KvStable(syn, SyncKvChildren(syn, items, kinds, kvss).after, kinds[k]) <==>
            NothingLost(syn, items, kinds[k], kvss[k])
    decreases kinds
  {
    hide KvStable, SyncKvChild, NothingLost, WritableEntries, CanonicalEntries, Agree;
    var first := SyncKvChild(syn, items, kinds[0], kvss[0]).after;
    SyncKvChildLaw(syn, items, kinds[0], kvss[0]);
    SyncKvChildrenLaw(syn, first, kinds[1..], kvss[1..]);
    var r := SyncKvChildren(syn, items, kinds, kvss).after;
    if k == 0 {
      KvStableFrame(syn, first, r, kinds[0], kvss[0], {}, AllOf(kinds[1..]));
      OneKvChildStable(syn, items, kinds[0], kvss[0]);
    } else {
      KvChildrenStable(syn, first, kinds[1..], kvss[1..], k - 1);
      KvStableFrame(syn, items, first, kinds[k], kvss[k], {}, {kinds[0]});
    }
  }

  /** A key-value child that a sync leaves as it was is settled. */
  lemma OneKvFixed(syn: Syntax, items: seq<Item>, kind: string, kvs: seq<Kv>)
    requires var r := SyncKvChild(syn, items, kind, kvs);
             r.ok && Filter(r.after, BlockOf({kind})) == Filter(items, BlockOf({kind}))
    ensures KvSettled(syn, items, kind, kvs)
  {
    hide SyncEntries, ReplaceFirstBlock, RemoveFirstBlock, Filter, EntriesSettled;
    var existing := FirstBlock(items, kind);
    if kvs == [] {
      if existing.Some? {
        RemoveFirstShows(items, kind);
        assert false;
      }
    } else {
      var base := if existing.Some? then existing.value else Fresh(kind, []);
      var m := SyncKvs(syn, base, kvs);
      SyncEntriesLaw(syn, FieldsIn(base.items), kvs);
      if existing.Some? {
        ReplaceFirstBlockLaw(items, kind, m.after);
      } else {
        AppendBlockLaw(items, m.after);
      }
    }
  }

  lemma {:induction false} KvsFixed(syn: Syntax, items: seq<Item>, kinds: seq<string>, kvss: seq<seq<Kv>>, k: nat)
    requires |kinds| == |kvss| && Distinct(kinds) && k < |kinds|
    requires var r := SyncKvChildren(syn, items, kinds, kvss);
             r.ok && Filter(r.after, BlockOf({kinds[k]})) == Filter(items, BlockOf({kinds[k]}))
    ensures KvSettled(syn, items, kinds[k], kvss[k])
    decreases kinds
  {
    hide SyncKvChild, KvSettled, Filter;
    var first := SyncKvChild(syn, items, kinds[0], kvss[0]).after;
    SyncKvChildLaw(syn, items, kinds[0], kvss[0]);
    SyncKvChildrenLaw(syn, first, kinds[1..], kvss[1..]);
    if k == 0 {
      assert Ignores(BlockOf({kinds[0]}), {}, AllOf(kinds[1..]));
      OneKvFixed(syn, items, kinds[0], kvss[0]);
    } else {
      assert Ignores(BlockOf({kinds[k]}), {}, {kinds[0]});
      KvsFixed(syn, first, kinds[1..], kvss[1..], k - 1);
      KvFrame(syn, items, first, kinds[k], kvss[k], {}, {kinds[0]});
    }
  }

  // ---------------------------------------------------------------- child blocks

  lemma ExtractMatches(syn: Syntax, b: Block, shape: Shape)
    requires b.kind == KindOf(shape) && Extract(syn, b, shape).Read?
    ensures Matches(b, Extract(syn, b, shape).value)
  {
    hide ReadFields, ReadKvChildren, ExtractAll, Sections, ReadEntries;
  }

  lemma StableIgnoresTrivia(syn: Syntax, b: Block, shape: Shape)
    ensures Stable(syn, Mark(b), shape) <==> Stable(syn, b, shape)
  {
    hide Typed, Extract, SyncFields, SyncKvChildren, SyncRegion, SyncEntries;
    ExtractIgnoresTrivia(syn, b, shape);
  }

  /** A block at the head of the pool that matches the first document is taken for it. */
  lemma HeadOntoItself(syn: Syntax, blocks: seq<Block>, got: seq<Doc>)
    requires blocks != [] && got != [] && Matches(blocks[0], got[0])
    requires forall k :: 0 <= k < |got| ==> Typed(got[k])
    ensures var first, rest := SyncNode(syn, blocks[0], got[0]), SyncBlocks(syn, blocks[1..], got[1..]);
            SyncBlocks(syn, blocks, got) == Edit([first.after] + rest.after, first.ok && rest.ok)
  {
    hide Typed, SyncNode, Matches;
    assert MatchAt(blocks, got[0]) == 0;
    assert blocks[..0] + blocks[1..] == blocks[1..];
  }

  lemma ExtractEachStep(syn: Syntax, blocks: seq<Block>, docs: seq<Doc>)
    requires |blocks| == |docs| > 0 && ExtractEach(syn, blocks, docs).Read?
    ensures var got := ExtractEach(syn, blocks, docs).value;
            && got != [] && Extract(syn, blocks[0], docs[0].shape) == Read(got[0])
            && ExtractEach(syn, blocks[1..], docs[1..]) == Read(got[1..])
  {
    hide Extract;
  }

  lemma EachLength(syn: Syntax, blocks: seq<Block>, docs: seq<Doc>)
    requires |blocks| == |docs| && ExtractEach(syn, blocks, docs).Read?
    ensures |ExtractEach(syn, blocks, docs).value| == |docs|
  {
    EachShapes(syn, blocks, docs);
  }

  /** Blocks read in order are written back each onto itself. */
  lemma {:induction false} EachOntoItself(syn: Syntax, blocks: seq<Block>, docs: seq<Doc>, got: seq<Doc>, k: nat)
    requires |blocks| == |docs| && ExtractEach(syn, blocks, docs) == Read(got)
    requires forall k :: 0 <= k < |docs| ==> blocks[k].kind == KindOf(docs[k].shape)
    requires forall k :: 0 <= k < |got| ==> Typed(got[k])
    ensures |got| == |docs|
    ensures k < |docs| ==> SyncBlocks(syn, blocks, got).after[k] == SyncNode(syn, blocks[k], got[k]).after
    ensures SyncBlocks(syn, blocks, got).ok && k < |docs| ==> SyncNode(syn, blocks[k], got[k]).ok
    decreases blocks
  {
    EachLength(syn, blocks, docs);
    hide Typed, Extract, SyncNode, Matches, SyncBlocks, ExtractEach, KindOf;
    if blocks != [] {
      ExtractEachStep(syn, blocks, docs);
      ExtractMatches(syn, blocks[0], docs[0].shape);
      HeadOntoItself(syn, blocks, got);
      if 0 < k < |docs| {
        EachOntoItself(syn, blocks[1..], docs[1..], got[1..], k - 1);
      }
    }
  }

  lemma HeadUnchanged(syn: Syntax, blocks: seq<Block>, got: seq<Doc>)
    requires blocks != [] && got != [] && Matches(blocks[0], got[0]) && Typed(got[0])
    requires SyncNode(syn, blocks[0], got[0]) == Edit(blocks[0], true)
    requires forall k :: 0 <= k < |got[1..]| ==> Typed(got[1..][k])
    requires SyncBlocks(syn, blocks[1..], got[1..]) == Edit(blocks[1..], true)
    ensures forall k :: 0 <= k < |got| ==> Typed(got[k])
    ensures SyncBlocks(syn, blocks, got) == Edit(blocks, true)
  {
    hide Typed, SyncNode, Matches, SyncBlocks;
    forall k | 0 <= k < |got| ensures Typed(got[k]) {
      if k > 0 {
        assert got[k] == got[1..][k - 1];
      }
    }
    HeadOntoItself(syn, blocks, got);
    assert [blocks[0]] + blocks[1..] == blocks;
  }

  /** Stable blocks come back unchanged. */
  lemma {:induction false} StableOntoItself(syn: Syntax, blocks: seq<Block>, docs: seq<Doc>, got: seq<Doc>)
    requires |blocks| == |docs| && ExtractEach(syn, blocks, docs) == Read(got) && AllStable(syn, blocks, docs)
    requires forall k :: 0 <= k < |docs| ==> blocks[k].kind == KindOf(docs[k].shape)
    ensures |got| == |docs| && forall k :: 0 <= k < |got| ==> Typed(got[k])
    ensures SyncBlocks(syn, blocks, got) == Edit(blocks, true)
    decreases blocks
  {
    EachLength(syn, blocks, docs);
    hide Typed, Extract, SyncNode, Matches, SyncBlocks, ExtractEach, KindOf, Stable;
    if blocks == [] {
      NoBlocks(syn);
    } else {
      ExtractEachStep(syn, blocks, docs);
      ExtractMatches(syn, blocks[0], docs[0].shape);
      StableGives(syn, blocks[0], docs[0].shape, got[0]);
      StableOntoItself(syn, blocks[1..], docs[1..], got[1..]);
      HeadUnchanged(syn, blocks, got);
    }
  }

  lemma NoBlocks(syn: Syntax)
    ensures SyncBlocks(syn, [], []) == Edit([], true)
  {
  }

  ghost predicate AllStable(syn: Syntax, blocks: seq<Block>, docs: seq<Doc>)
    requires |blocks| == |docs|
  {
    forall k :: 0 <= k < |docs| ==> Stable(syn, blocks[k], docs[k].shape)
  }

  lemma {:induction false} StableRead(syn: Syntax, blocks: seq<Block>, docs: seq<Doc>)
    requires |blocks| == |docs| && AllStable(syn, blocks, docs)
    ensures ExtractEach(syn, blocks, docs).Read?
  {
    hide Extract, Typed, SyncNode;
    if blocks != [] {
      assert Stable(syn, blocks[0], docs[0].shape);
      StableRead(syn, blocks[1..], docs[1..]);
    }
  }

  /** Blocks that writing back what they show leaves as they are, are stable. */
  lemma UnchangedIsStable(syn: Syntax, blocks: seq<Block>, docs: seq<Doc>, got: seq<Doc>, first: bool)
    requires |blocks| == |docs| && ExtractEach(syn, blocks, docs) == Read(got)
    requires forall k :: 0 <= k < |docs| ==> blocks[k].kind == KindOf(docs[k].shape)
    requires forall k :: 0 <= k < |got| ==> Typed(got[k])
    requires var r := SyncBlocks(syn, blocks, got); r.ok && MarkAll(r.after, first) == blocks
    ensures AllStable(syn, blocks, docs)
  {
    EachShapes(syn, blocks, docs);
    hide Typed, Extract, SyncNode, ExtractEach, SyncBlocks, Mark, Stable, KindOf;
    forall k | 0 <= k < |docs| ensures Stable(syn, blocks[k], docs[k].shape) {
      UnchangedOne(syn, blocks, docs, got, first, k);
    }
  }

  lemma UnchangedOne(syn: Syntax, blocks: seq<Block>, docs: seq<Doc>, got: seq<Doc>, first: bool, k: nat)
    requires |blocks| == |docs| && ExtractEach(syn, blocks, docs) == Read(got) && k < |docs|
    requires forall j :: 0 <= j < |docs| ==> blocks[j].kind == KindOf(docs[j].shape)
    requires forall j :: 0 <= j < |got| ==> Typed(got[j])
    requires var r := SyncBlocks(syn, blocks, got); r.ok && MarkAll(r.after, first) == blocks
    ensures Stable(syn, blocks[k], docs[k].shape)
  {
    EachShapes(syn, blocks, docs);
    EachOntoItself(syn, blocks, docs, got, k);
    hide Typed, Extract, SyncNode, ExtractEach, SyncBlocks, Mark, KindOf;
    var r := SyncBlocks(syn, blocks, got);
    var d := got[k];
    var node := SyncNode(syn, blocks[k], d);
    assert blocks[k] == MarkAll(r.after, first)[k];
    MarkedIsSame(node.after, blocks[k]);
    assert node == Edit(blocks[k], true);
    StableBy(syn, blocks[k], docs[k].shape, d);
  }

  lemma StableBy(syn: Syntax, b: Block, shape: Shape, seen: Doc)
    requires Extract(syn, b, shape) == Read(seen) && Typed(seen) && SyncNode(syn, b, seen) == Edit(b, true)
    ensures Stable(syn, b, shape)
  {
    hide Typed, Extract, SyncNode;
  }

  lemma StableGives(syn: Syntax, b: Block, shape: Shape, seen: Doc)
    requires Stable(syn, b, shape) && Extract(syn, b, shape) == Read(seen)
    ensures Typed(seen) && SyncNode(syn, b, seen) == Edit(b, true)
  {
    hide Typed, Extract, SyncNode;
  }

  lemma MarkedIsSame(a: Block, b: Block)
    requires a.trivia == b.trivia && (a == b || Mark(a) == b)
    ensures a == b
  {
  }

  // ------------------------------------------------------------- a written block

  /** A region as a sync leaves it. */
  ghost predicate RegionWritten(syn: Syntax, items: seq<Item>, shapes: seq<Shape>, docs: seq<Doc>)
  {
    var pool := Managed(items, KindsOf(shapes));
    && InPlace(items, KindsOf(shapes))
    && |pool| == |docs|
    && forall k :: 0 <= k < |docs| ==>
         && pool[k].kind == KindOf(docs[k].shape)
         && (docs[k].shape.Vars? ==> Extract(syn, pool[k], Vars) == Read(Canon(docs[k])))
  }

  /** Every block of a region is stable exactly when the region is read and written back unchanged. */
  lemma StableRegion(syn: Syntax, items: seq<Item>, shapes: seq<Shape>, docs: seq<Doc>)
    requires RegionWritten(syn, items, shapes, docs) && DistinctKinds(shapes)
    requires forall k :: 0 <= k < |docs| ==> docs[k].shape in shapes
    requires AllStable(syn, Managed(items, KindsOf(shapes)), docs)
    ensures var got := ExtractEach(syn, Managed(items, KindsOf(shapes)), docs);
            && ExtractAll(syn, items, shapes) == got && got.Read?
            && (forall k :: 0 <= k < |got.value| ==> Typed(got.value[k]))
            && SyncRegion(syn, items, shapes, got.value) == Edit(items, true)
  {
    hide Filter, Extract, ExtractEach, ExtractAll, SyncBlocks, Typed, KindsOf, KindOf, Managed, Stable, InPlace,
      DistinctKinds, SyncRegion;
    var pool := Managed(items, KindsOf(shapes));
    ExtractAllIsEach(syn, items, shapes, docs);
    StableRead(syn, pool, docs);
    var got := ExtractEach(syn, pool, docs).value;
    StableOntoItself(syn, pool, docs, got);
    RegionFixed(syn, items, shapes, got);
  }

  lemma RegionStable(syn: Syntax, items: seq<Item>, shapes: seq<Shape>, docs: seq<Doc>, got: seq<Doc>)
    requires RegionWritten(syn, items, shapes, docs) && DistinctKinds(shapes) && (shapes == [] ==> docs == [])
    requires forall k :: 0 <= k < |docs| ==> docs[k].shape in shapes
    requires ExtractAll(syn, items, shapes) == Read(got) && forall k :: 0 <= k < |got| ==> Typed(got[k])
    requires var r := SyncRegion(syn, items, shapes, got);
             r.ok && Managed(r.after, KindsOf(shapes)) == Managed(items, KindsOf(shapes))
    requires forall k :: 0 <= k < |got| ==> got[k].shape in shapes
    ensures AllStable(syn, Managed(items, KindsOf(shapes)), docs)
  {
    hide Filter, Extract, ExtractEach, ExtractAll, SyncBlocks, Typed, KindsOf, KindOf, Managed, Stable, InPlace,
      DistinctKinds;
    var kinds := KindsOf(shapes);
    var pool := Managed(items, kinds);
    if shapes != [] {
      ExtractAllIsEach(syn, items, shapes, docs);
      var blocks := SyncBlocks(syn, pool, got).after;
      BlockKinds(syn, pool, shapes, got);
      SpliceLaw(items, kinds, blocks);
      UnchangedIsStable(syn, pool, docs, got, Kept(items, kinds) == []);
    }
  }

  /** A block as a sync leaves it, whatever the file held: only its key-value children are open. */
  ghost predicate NodeWritten(syn: Syntax, c: Block, doc: Doc)
    requires Typed(doc)
  {
    var s := doc.shape;
    && c.kind == KindOf(s) && c.labels != [] && c.labels[0] == Utf8(doc.name)
    && ReadFields(syn, c.items, Fields(s)) == Read(doc.fields)
    && FieldsSettled(syn, c.items, Fields(s), doc.fields)
    && RegionWritten(syn, c.items, ParamShapes(s), doc.params)
    && RegionWritten(syn, c.items, ChildShapes(s), doc.children)
  }

  ghost predicate KvsStable(syn: Syntax, items: seq<Item>, kinds: seq<string>)
  {
    forall k :: 0 <= k < |kinds| ==> KvStable(syn, items, kinds[k])
  }

  lemma {:induction false} StableKvsRead(syn: Syntax, items: seq<Item>, kinds: seq<string>)
    requires KvsStable(syn, items, kinds)
    ensures ReadKvChildren(syn, items, kinds).Read?
    ensures |ReadKvChildren(syn, items, kinds).value| == |kinds|
    ensures KvsSettled(syn, items, kinds, ReadKvChildren(syn, items, kinds).value)
    decreases kinds
  {
    hide ReadKvChild, KvSettled;
    if kinds != [] {
      assert KvStable(syn, items, kinds[0]);
      forall k | 0 <= k < |kinds[1..]| ensures KvStable(syn, items, kinds[1..][k]) {
        assert kinds[1..][k] == kinds[k + 1];
      }
      StableKvsRead(syn, items, kinds[1..]);
      var all, rest := ReadKvChildren(syn, items, kinds).value, ReadKvChildren(syn, items, kinds[1..]).value;
      forall k | 0 <= k < |kinds| ensures KvSettled(syn, items, kinds[k], all[k]) {
        if k > 0 {
          assert kinds[k] == kinds[1..][k - 1] && all[k] == rest[k - 1];
        }
      }
    }
  }

  lemma {:induction false} ReadKvsLength(syn: Syntax, items: seq<Item>, kinds: seq<string>, k: nat)
    requires ReadKvChildren(syn, items, kinds).Read?
    ensures |ReadKvChildren(syn, items, kinds).value| == |kinds|
    ensures k < |kinds| ==> ReadKvChild(syn, items, kinds[k]) == Read(ReadKvChildren(syn, items, kinds).value[k])
    decreases kinds
  {
    hide ReadKvChild;
    if kinds != [] {
      ReadKvsLength(syn, items, kinds[1..], if k > 0 then k - 1 else 0);
    }
  }

  /** The document a written block shows, part by part. */
  function Shown(doc: Doc, kvs: seq<seq<Kv>>, params: seq<Doc>, children: seq<Doc>): Doc
  {
    Doc(doc.shape, if HasOrig(doc.shape) then Some(doc.name) else None, doc.name, doc.fields, kvs, params, children)
  }

  lemma ShownIsRead(syn: Syntax, c: Block, doc: Doc)
    requires Typed(doc) && NodeWritten(syn, c, doc) && !doc.shape.Vars?
    ensures var kvs := ReadKvChildren(syn, c.items, KvKinds(doc.shape));
            var params := ExtractAll(syn, c.items, ParamShapes(doc.shape));
            var children := ExtractAll(syn, c.items, ChildShapes(doc.shape));
            var seen := Extract(syn, c, doc.shape);
            && (seen.Read? <==> kvs.Read? && params.Read? && children.Read?)
            && (seen.Read? ==> |children.value| == |doc.children| &&
                               seen.value == Shown(doc, kvs.value, params.value, children.value))
  {
    hide ReadFields, ReadKvChildren, ExtractAll, ExtractEach, Sections, InPlace, FieldsSettled, Managed, KindsOf,
      DistinctKinds, Canon, AllFit, InSections;
    var s := doc.shape;
    SchemaSound(s);
    var pool := Managed(c.items, KindsOf(ChildShapes(s)));
    ExtractAllIsEach(syn, c.items, ChildShapes(s), doc.children);
    if ExtractAll(syn, c.items, ChildShapes(s)).Read? {
      ChildrenInOrder(syn, pool, doc);
    }
  }

  /** Each part of the block is stable. */
  ghost predicate PartsStable(syn: Syntax, c: Block, doc: Doc)
    requires Typed(doc) && NodeWritten(syn, c, doc)
  {
    && KvsStable(syn, c.items, KvKinds(doc.shape))
    && AllStable(syn, Managed(c.items, KindsOf(ParamShapes(doc.shape))), doc.params)
    && AllStable(syn, Managed(c.items, KindsOf(ChildShapes(doc.shape))), doc.children)
  }

  lemma {:induction false} InSectionsAs(shapes: seq<Shape>, docs: seq<Doc>, got: seq<Doc>)
    requires InSections(shapes, docs) && |got| == |docs| && forall k :: 0 <= k < |got| ==> got[k].shape == docs[k].shape
    ensures InSections(shapes, got)
  {
    SectionsByShape(shapes, docs, got);
  }

  lemma ShownTyped(doc: Doc, kvs: seq<seq<Kv>>, params: seq<Doc>, children: seq<Doc>)
    requires Typed(doc) && !doc.shape.Vars? && |kvs| == |doc.kvs|
    requires |params| == |doc.params| && |children| == |doc.children|
    requires forall k :: 0 <= k < |params| ==> params[k].shape == doc.params[k].shape && Typed(params[k])
    requires forall k :: 0 <= k < |children| ==> children[k].shape == doc.children[k].shape && Typed(children[k])
    ensures Typed(Shown(doc, kvs, params, children))
  {
    hide InSections, AllFit;
    InSectionsAs(ParamShapes(doc.shape), doc.params, params);
    if Sectioned(doc.shape) {
      InSectionsAs(ChildShapes(doc.shape), doc.children, children);
    }
  }

  /** Writing the parts back one after another changes nothing. */
  lemma PartsUnchanged(syn: Syntax, c: Block, seen: Doc)
    requires Typed(seen) && !seen.shape.Vars? && c.labels != [] && c.labels[0] == Utf8(seen.name)
    requires SyncFields(syn, c.items, Fields(seen.shape), seen.fields) == Edit(c.items, true)
    requires SyncKvChildren(syn, c.items, KvKinds(seen.shape), seen.kvs) == Edit(c.items, true)
    requires SyncRegion(syn, c.items, ParamShapes(seen.shape), seen.params) == Edit(c.items, true)
    requires SyncRegion(syn, c.items, ChildShapes(seen.shape), seen.children) == Edit(c.items, true)
    ensures SyncNode(syn, c, seen) == Edit(c, true)
  {
    hide AllFit, InSections, SyncFields, SyncKvChildren, SyncRegion;
    assert SetLabel(c.labels, Utf8(seen.name)) == c.labels;
  }

  lemma NodeIsStable(syn: Syntax, c: Block, doc: Doc)
    requires Typed(doc) && !doc.shape.Vars? && NodeWritten(syn, c, doc) && PartsStable(syn, c, doc)
    ensures Stable(syn, c, doc.shape)
  {
    hide Typed, Extract, SyncNode, ReadFields, ReadKvChildren, ExtractAll, ExtractEach, Sections, InPlace,
      FieldsSettled, KvsSettled, Managed, KindsOf, DistinctKinds, SyncFields, SyncKvChildren, SyncRegion, KvStable,
      Stable, Target;
    var s := doc.shape;
    TypedParts(doc);
    SchemaSound(s);
    ShownIsRead(syn, c, doc);
    StableKvsRead(syn, c.items, KvKinds(s));
    StableRegion(syn, c.items, ParamShapes(s), doc.params);
    StableRegion(syn, c.items, ChildShapes(s), doc.children);
    var kvs := ReadKvChildren(syn, c.items, KvKinds(s)).value;
    var params := ExtractAll(syn, c.items, ParamShapes(s)).value;
    var children := ExtractAll(syn, c.items, ChildShapes(s)).value;
    EachShapes(syn, Managed(c.items, KindsOf(ParamShapes(s))), doc.params);
    EachShapes(syn, Managed(c.items, KindsOf(ChildShapes(s))), doc.children);
    ShownTyped(doc, kvs, params, children);
    var seen := Shown(doc, kvs, params, children);
    SettledFieldsFixed(syn, c.items, Fields(s), doc.fields);
    SettledKvsFixed(syn, c.items, KvKinds(s), kvs);
    PartsUnchanged(syn, c, seen);
    StableBy(syn, c, s, seen);
  }

  lemma TypedParts(doc: Doc)
    requires Typed(doc) && !doc.shape.Vars?
    ensures AllFit(doc.fields, Fields(doc.shape)) && |doc.kvs| == |KvKinds(doc.shape)|
    ensures forall k :: 0 <= k < |doc.params| ==> doc.params[k].shape in ParamShapes(doc.shape) && Typed(doc.params[k])
    ensures forall k :: 0 <= k < |doc.children| ==>
            doc.children[k].shape in ChildShapes(doc.shape) && Typed(doc.children[k])
    ensures (ParamShapes(doc.shape) == [] ==> doc.params == []) && (ChildShapes(doc.shape) == [] ==> doc.children == [])
  {
    hide AllFit, InSections;
    assert doc.params != [] ==> doc.params[0].shape in ParamShapes(doc.shape);
    assert doc.children != [] ==> doc.children[0].shape in ChildShapes(doc.shape);
  }

  lemma FixedKvsStable(syn: Syntax, c: Block, seen: Doc)
    requires Typed(seen) && !seen.shape.Vars? && SyncNode(syn, c, seen) == Edit(c, true)
    requires SyncFields(syn, c.items, Fields(seen.shape), seen.fields) == Edit(c.items, true)
    requires ReadKvChildren(syn, c.items, KvKinds(seen.shape)) == Read(seen.kvs)
    ensures KvsStable(syn, c.items, KvKinds(seen.shape))
    ensures KvsSettled(syn, c.items, KvKinds(seen.shape), seen.kvs)
  {
    hide Typed, Filter, Agree, SyncRegion, SyncFields, SyncKvChildren, KindsOf, Managed, DistinctNames, ReadKvChild,
      ReadKvChildren, DistinctKinds, KvSettled;
    var s := seen.shape;
    TypedParts(seen);
    SchemaSound(s);
    StagesAgree(syn, c, seen);
    var (j1, j2, j3, j4) := Stages(syn, c, seen);
    var ps, cs := KindsOf(ParamShapes(s)), KindsOf(ChildShapes(s));
    AgreeChain(j2, j3, j4, {}, ps + cs, {}, ps, {}, cs);
    forall k | 0 <= k < |KvKinds(s)| ensures KvSettled(syn, c.items, KvKinds(s)[k], seen.kvs[k])
      ensures KvStable(syn, c.items, KvKinds(s)[k])
    {
      assert KvKinds(s)[k] in AllOf(KvKinds(s));
      KvFixedThrough(syn, c.items, j2, j4, KvKinds(s), seen.kvs, k, ps + cs);
      ReadKvsLength(syn, c.items, KvKinds(s), k);
    }
  }

  lemma KvFixedThrough(syn: Syntax, items: seq<Item>, j2: seq<Item>, j4: seq<Item>, kinds: seq<string>,
                       kvss: seq<seq<Kv>>, k: nat, others: set<string>)
    requires |kinds| == |kvss| && Distinct(kinds) && k < |kinds| && kinds[k] !in others
    requires SyncKvChildren(syn, items, kinds, kvss) == Edit(j2, true) && Agree(j2, j4, {}, others) && j4 == items
    ensures KvSettled(syn, items, kinds[k], kvss[k])
  {
    hide Filter, SyncKvChildren, KvSettled;
    assert Ignores(BlockOf({kinds[k]}), {}, others);
    KvsFixed(syn, items, kinds, kvss, k);
  }

  lemma StableNodeParts(syn: Syntax, c: Block, doc: Doc)
    requires Typed(doc) && !doc.shape.Vars? && NodeWritten(syn, c, doc) && Stable(syn, c, doc.shape)
    ensures PartsStable(syn, c, doc)
  {
    hide Typed, Extract, ReadFields, ReadKvChildren, ExtractAll, ExtractEach, Sections, InPlace, FieldsSettled,
      Filter, Agree, KvsSettled, Managed, KindsOf, DistinctKinds, SyncFields, SyncKvChildren, SyncRegion, KvsStable,
      Target, AllStable, Names;
    var s := doc.shape;
    TypedParts(doc);
    SchemaSound(s);
    ShownIsRead(syn, c, doc);
    var seen := Extract(syn, c, s).value;
    StableGives(syn, c, s, seen);
    hide Stable;
    TypedParts(seen);
    SettledFieldsFixed(syn, c.items, Fields(s), doc.fields);
    FixedKvsStable(syn, c, seen);
    SettledKvsFixed(syn, c.items, KvKinds(s), seen.kvs);
    FixedRegions(syn, c, doc, seen);
  }

  lemma FixedRegions(syn: Syntax, c: Block, doc: Doc, seen: Doc)
    requires Typed(doc) && !doc.shape.Vars? && NodeWritten(syn, c, doc)
    requires Typed(seen) && seen.shape == doc.shape && SyncNode(syn, c, seen) == Edit(c, true)
    requires SyncFields(syn, c.items, Fields(seen.shape), seen.fields) == Edit(c.items, true)
    requires SyncKvChildren(syn, c.items, KvKinds(seen.shape), seen.kvs) == Edit(c.items, true)
    requires ExtractAll(syn, c.items, ParamShapes(seen.shape)) == Read(seen.params)
    requires ExtractAll(syn, c.items, ChildShapes(seen.shape)) == Read(seen.children)
    ensures AllStable(syn, Managed(c.items, KindsOf(ParamShapes(doc.shape))), doc.params)
    ensures AllStable(syn, Managed(c.items, KindsOf(ChildShapes(doc.shape))), doc.children)
  {
    hide Typed, Extract, ReadFields, ReadKvChildren, ExtractAll, ExtractEach, Sections, InPlace, FieldsSettled,
      Filter, Agree, Managed, KindsOf, DistinctKinds, SyncFields, SyncKvChildren, SyncRegion, AllStable, Names;
    var s := doc.shape;
    var ps, cs := KindsOf(ParamShapes(s)), KindsOf(ChildShapes(s));
    TypedParts(doc);
    TypedParts(seen);
    SchemaSound(s);
    StagesAgree(syn, c, seen);
    var (j1, j2, j3, j4) := Stages(syn, c, seen);
    ManagedFrame(j3, j4, ps, {}, cs);
    RegionStable(syn, c.items, ParamShapes(s), doc.params, seen.params);
    StableRegion(syn, c.items, ParamShapes(s), doc.params);
    RegionStable(syn, c.items, ChildShapes(s), doc.children, seen.children);
  }

  // ----------------------------------------------------------------- the whole tree

  /** The condition for a whole document: nothing is lost at any block that will be written. */
  ghost predicate Resyncs(syn: Syntax, b: Block, doc: Doc)
    requires Typed(doc)
    decreases doc, 1
  {
    doc.shape.Vars? ||
    (&& (forall k :: 0 <= k < |doc.kvs| ==> NothingLost(syn, b.items, KvKinds(doc.shape)[k], doc.kvs[k]))
     && AllResync(syn, Managed(b.items, KindsOf(ParamShapes(doc.shape))), doc.params)
     && AllResync(syn, Managed(b.items, KindsOf(ChildShapes(doc.shape))), doc.children))
  }

  ghost predicate AllResync(syn: Syntax, pool: seq<Block>, docs: seq<Doc>)
    requires forall k :: 0 <= k < |docs| ==> Typed(docs[k])
    decreases docs, 0
  {
    forall k :: 0 <= k < |docs| ==> Resyncs(syn, Bases(pool, docs)[k], docs[k])
  }

  lemma RegionInPlace(syn: Syntax, items: seq<Item>, shapes: seq<Shape>, docs: seq<Doc>)
    requires forall k :: 0 <= k < |docs| ==> Typed(docs[k]) && docs[k].shape in shapes
    ensures InPlace(SyncRegion(syn, items, shapes, docs).after, KindsOf(shapes))
  {
    hide Typed, InPlace, Filter, SyncBlocks;
    var kinds := KindsOf(shapes);
    if shapes == [] {
      assert kinds == {};
      SpliceNothing(items);
    } else {
      var blocks := SyncBlocks(syn, Managed(items, kinds), docs).after;
      BlockKinds(syn, Managed(items, kinds), shapes, docs);
      SpliceInPlace(items, kinds, blocks);
    }
  }

  /** The written blocks of a region, and that marking them makes no difference. */
  lemma WrittenStable(syn: Syntax, items: seq<Item>, shapes: seq<Shape>, docs: seq<Doc>, k: nat)
    requires k < |docs| && forall j :: 0 <= j < |docs| ==> Typed(docs[j]) && docs[j].shape in shapes
    ensures var kinds := KindsOf(shapes);
            var after := Managed(SyncRegion(syn, items, shapes, docs).after, kinds);
            && |after| == |docs|
            && (Stable(syn, after[k], docs[k].shape) <==>
                Stable(syn, SyncNode(syn, Bases(Managed(items, kinds), docs)[k], docs[k]).after, docs[k].shape))
  {
    hide Filter, Stable, SyncNode, Taken, Left, Bases, InsertAt, Mark, Typed;
    var kinds := KindsOf(shapes);
    var pool := Managed(items, kinds);
    var blocks := SyncBlocks(syn, pool, docs).after;
    BlockKinds(syn, pool, shapes, docs);
    SpliceLaw(items, kinds, blocks);
    SyncedFromBases(syn, pool, docs, k);
    StableIgnoresTrivia(syn, blocks[k], docs[k].shape);
  }

  lemma ChildrenWritten(syn: Syntax, items: seq<Item>, after: seq<Item>, shapes: seq<Shape>, docs: seq<Doc>)
    requires forall k :: 0 <= k < |docs| ==>
               Typed(docs[k]) && docs[k].shape in shapes && Canonical(syn, docs[k]) && Writable(syn, docs[k])
    requires shapes == [] ==> docs == []
    requires InPlace(after, KindsOf(shapes))
    requires Managed(after, KindsOf(shapes)) == Managed(SyncRegion(syn, items, shapes, docs).after, KindsOf(shapes))
    ensures RegionWritten(syn, after, shapes, docs)
  {
    hide Typed, Canonical, Writable, Extract, SyncNode, SyncRegion, Canon, Managed, KindsOf, KindOf, Bases, InPlace;
    var pool := Managed(after, KindsOf(shapes));
    WrittenRegion(syn, items, shapes, docs, |docs|);
    forall k | 0 <= k < |docs|
      ensures pool[k].kind == KindOf(docs[k].shape)
      ensures docs[k].shape.Vars? ==> Extract(syn, pool[k], Vars) == Read(Canon(docs[k]))
    {
      WrittenRegion(syn, items, shapes, docs, k);
      if docs[k].shape.Vars? {
        VarsReadBack(syn, Bases(Managed(items, KindsOf(shapes)), docs)[k], docs[k]);
      }
    }
  }

  lemma PartsGood(syn: Syntax, doc: Doc)
    requires Typed(doc) && Canonical(syn, doc) && Writable(syn, doc) && !doc.shape.Vars?
    ensures forall k :: 0 <= k < |doc.params| ==> Canonical(syn, doc.params[k]) && Writable(syn, doc.params[k])
    ensures forall k :: 0 <= k < |doc.children| ==> Canonical(syn, doc.children[k]) && Writable(syn, doc.children[k])
    ensures forall k :: 0 <= k < |doc.kvs| ==> CanonicalEntries(syn, doc.kvs[k]) && WritableEntries(syn, doc.kvs[k])
  {
    hide AllFit, InSections, Target, CanonicalFields, CanonicalEntries, WritableEntries;
  }

  lemma OnceWritten(syn: Syntax, b: Block, doc: Doc)
    requires Typed(doc) && Canonical(syn, doc) && Writable(syn, doc) && !doc.shape.Vars? && b.kind == KindOf(doc.shape)
    ensures NodeWritten(syn, SyncNode(syn, b, doc).after, doc)
  {
    FieldsAlwaysRead(syn, b, doc);
    TypedParts(doc);
    PartsGood(syn, doc);
    StagesAgree(syn, b, doc);
    SchemaSound(doc.shape);
    FieldsStaySettled(syn, b, doc);
    hide Typed, Canonical, Writable, Filter, Agree, FieldsSettled, SyncRegion, SyncFields, SyncKvChildren, Names,
      KindsOf, AllOf, Managed, DistinctNames, DistinctKinds, InPlace, RegionWritten, ReadFields;
    var s := doc.shape;
    var (i1, i2, i3, i4) := Stages(syn, b, doc);
    var ps, cs := KindsOf(ParamShapes(s)), KindsOf(ChildShapes(s));
    ManagedFrame(i3, i4, ps, {}, cs);
    RegionInPlace(syn, i2, ParamShapes(s), doc.params);
    ParamsInPlace(syn, i3, doc);
    RegionInPlace(syn, i3, ChildShapes(s), doc.children);
    ChildrenWritten(syn, i2, i4, ParamShapes(s), doc.params);
    ChildrenWritten(syn, i3, i4, ChildShapes(s), doc.children);
    NodeHead(syn, b, doc);
  }

  lemma NodeHead(syn: Syntax, b: Block, doc: Doc)
    requires Typed(doc) && !doc.shape.Vars?
    ensures var after := SyncNode(syn, b, doc).after;
            after.labels != [] && after.labels[0] == Utf8(doc.name) && after.items == Stages(syn, b, doc).3
  {
    hide AllFit, InSections, SyncRegion, SyncFields, SyncKvChildren;
  }

  /** The fields are settled before the children are written. */
  lemma FieldsStaySettled(syn: Syntax, b: Block, doc: Doc)
    requires Typed(doc) && !doc.shape.Vars? && Writable(syn, doc)
    ensures FieldsSettled(syn, Stages(syn, b, doc).2, Fields(doc.shape), doc.fields)
  {
    hide Filter, Agree, FieldsSettled, SyncRegion, SyncKvChildren, Names, KindsOf, AllOf, DistinctNames,
      DistinctKinds, Target, WritableEntries, AllFit, InSections;
    TypedParts(doc);
    SchemaSound(doc.shape);
    StagesAgree(syn, b, doc);
    var (i1, i2, i3, i4) := Stages(syn, b, doc);
    var kvs, ps := AllOf(KvKinds(doc.shape)), KindsOf(ParamShapes(doc.shape));
    FieldsOk(syn, b.items, Fields(doc.shape), doc.fields);
    SyncFieldsLaw(syn, b.items, Fields(doc.shape), doc.fields);
    AgreeChain(i1, i2, i3, {}, kvs + ps, {}, kvs, {}, ps);
    FieldsFrame(syn, i1, i3, Fields(doc.shape), doc.fields, kvs + ps);
  }

  lemma KvsStableIff(syn: Syntax, b: Block, doc: Doc)
    requires Typed(doc) && Canonical(syn, doc) && !doc.shape.Vars? && Writable(syn, doc)
    ensures KvsStable(syn, SyncNode(syn, b, doc).after.items, KvKinds(doc.shape)) <==>
            forall k :: 0 <= k < |doc.kvs| ==> NothingLost(syn, b.items, KvKinds(doc.shape)[k], doc.kvs[k])
  {
    hide Filter, Agree, SyncRegion, SyncFields, SyncKvChildren, Names, KindsOf, Managed, DistinctNames, KvStable,
      DistinctKinds, Target, CanonicalFields, CanonicalEntries, WritableEntries, NothingLost;
    var s := doc.shape;
    SchemaSound(s);
    StagesAgree(syn, b, doc);
    var (i1, i2, i3, i4) := Stages(syn, b, doc);
    var names, ps, cs := Names(Fields(s)), KindsOf(ParamShapes(s)), KindsOf(ChildShapes(s));
    AgreeChain(i2, i3, i4, {}, ps + cs, {}, ps, {}, cs);
    forall k | 0 <= k < |doc.kvs|
      ensures KvStable(syn, i4, KvKinds(s)[k]) <==> NothingLost(syn, b.items, KvKinds(s)[k], doc.kvs[k])
    {
      var kind := KvKinds(s)[k];
      assert kind in AllOf(KvKinds(s));
      KvChildrenStable(syn, i1, KvKinds(s), doc.kvs, k);
      KvStableFrame(syn, i2, i4, kind, doc.kvs[k], {}, ps + cs);
      KvStableFrame(syn, b.items, i1, kind, doc.kvs[k], names, {});
    }
  }

  /** Saving again what was read back from the first save changes nothing if and only if nothing was
      lost at any of the blocks the first save wrote. */
  lemma SecondSyncIff(syn: Syntax, b: Block, doc: Doc)
    requires Typed(doc) && Canonical(syn, doc) && Writable(syn, doc) && b.kind == KindOf(doc.shape)
    ensures Stable(syn, SyncNode(syn, b, doc).after, doc.shape) <==> Resyncs(syn, b, doc)
    decreases doc, 1
  {
    var c := SyncNode(syn, b, doc).after;
    if doc.shape.Vars? {
      VarsStable(syn, b, doc);
    } else {
      OnceWritten(syn, b, doc);
      KvsStableIff(syn, b, doc);
      RegionsStable(syn, b, doc);
      if Stable(syn, c, doc.shape) {
        StableNodeParts(syn, c, doc);
      }
      if PartsStable(syn, c, doc) {
        NodeIsStable(syn, c, doc);
      }
      hide Typed, Canonical, Writable, SyncNode, Stable, NodeWritten, AllStable, KvsStable, AllResync, NothingLost;
    }
  }

  lemma VarsStable(syn: Syntax, b: Block, doc: Doc)
    requires Typed(doc) && Canonical(syn, doc) && Writable(syn, doc) && doc.shape.Vars?
    ensures Stable(syn, SyncNode(syn, b, doc).after, doc.shape)
  {
    hide SyncEntries, ReadEntries, CanonicalEntries, WritableEntries;
    VarsReadBack(syn, b, doc);
    VarsCanon(doc);
    VarsOnly(syn, doc);
    TypedCanon(doc);
    var c := SyncNode(syn, b, doc).after;
    EntriesOk(syn, FieldsIn(b.items), doc.kvs[0]);
    SyncEntriesLaw(syn, FieldsIn(b.items), doc.kvs[0]);
    SettledEntriesFixed(syn, c.items, doc.kvs[0]);
  }

  lemma RegionsStable(syn: Syntax, b: Block, doc: Doc)
    requires Typed(doc) && Canonical(syn, doc) && Writable(syn, doc) && !doc.shape.Vars?
    requires NodeWritten(syn, SyncNode(syn, b, doc).after, doc)
    ensures var after := SyncNode(syn, b, doc).after.items;
            var ps, cs := KindsOf(ParamShapes(doc.shape)), KindsOf(ChildShapes(doc.shape));
            && (AllStable(syn, Managed(after, ps), doc.params) <==> AllResync(syn, Managed(b.items, ps), doc.params))
            && (AllStable(syn, Managed(after, cs), doc.children) <==>
                AllResync(syn, Managed(b.items, cs), doc.children))
    decreases doc, 0
  {
    TypedParts(doc);
    PartsGood(syn, doc);
    NodeHead(syn, b, doc);
    SchemaSound(doc.shape);
    StagesAgree(syn, b, doc);
    var (i1, i2, i3, i4) := Stages(syn, b, doc);
    var ps, cs := KindsOf(ParamShapes(doc.shape)), KindsOf(ChildShapes(doc.shape));
    ManagedFrame(i3, i4, ps, {}, cs);
    BlocksStableIff(syn, i2, i4, ParamShapes(doc.shape), doc.params);
    BlocksStableIff(syn, i3, i4, ChildShapes(doc.shape), doc.children);
  }

  lemma BlocksStableIff(syn: Syntax, items: seq<Item>, after: seq<Item>, shapes: seq<Shape>, docs: seq<Doc>)
    requires forall k :: 0 <= k < |docs| ==>
               Typed(docs[k]) && docs[k].shape in shapes && Canonical(syn, docs[k]) && Writable(syn, docs[k])
    requires Managed(after, KindsOf(shapes)) == Managed(SyncRegion(syn, items, shapes, docs).after, KindsOf(shapes))
    requires |Managed(after, KindsOf(shapes))| == |docs|
    ensures AllStable(syn, Managed(after, KindsOf(shapes)), docs) <==>
            AllResync(syn, Managed(items, KindsOf(shapes)), docs)
    decreases docs
  {
    hide Typed, Canonical, Writable, Stable, Resyncs, SyncNode, SyncRegion, Managed, KindsOf, KindOf, Bases;
    var managed, pool := Managed(after, KindsOf(shapes)), Managed(items, KindsOf(shapes));
    forall k | 0 <= k < |docs|
      ensures Stable(syn, managed[k], docs[k].shape) <==> Resyncs(syn, Bases(pool, docs)[k], docs[k])
    {
      WrittenStable(syn, items, shapes, docs, k);
      BaseKind(pool, docs, k);
      SecondSyncIff(syn, Bases(pool, docs)[k], docs[k]);
    }
  }

  // -------------------------------------------------------------------- corollaries

  /** In a file with no two key-value blocks of one kind in a block, saves read back and settle. */
  lemma OneMapIsEnough(syn: Syntax, b: Block, doc: Doc)
    requires Typed(doc) && Canonical(syn, doc) && Writable(syn, doc) && b.kind == KindOf(doc.shape) && OneMapPerKind(b)
    ensures ReadsBack(b, doc) && Resyncs(syn, b, doc)
  {
    hide Typed, Canonical, Writable, OneMapPerKind, Extract, SyncNode, ReadsBack, Resyncs, Canon;
    SyncSucceedsIffWritable(syn, b, doc);
    PutGet(syn, b, doc);
    PutGetIff(syn, b, doc);
    SecondSyncChangesNothing(syn, b, doc);
    SecondSyncIff(syn, b, doc);
  }

  /** A gather without parameters. */
  const BARE_GATHER := Doc(Gather, Some("g"), "g", [Absent, Text("p.g")], [[]], [], [])

  function ParamsBlock(entries: seq<Item>): Block
  {
    Block("params", [], entries, [], "")
  }

  /** Its block in a file that holds two blocks of parameters. */
  function TwoMaps(first: seq<Item>, second: seq<Item>): Block
  {
    Block("gather", [Utf8("g")], [BlockItem(ParamsBlock(first)), BlockItem(ParamsBlock(second))], [], "")
  }

  lemma BareGatherGood(syn: Syntax)
    ensures Typed(BARE_GATHER) && Canonical(syn, BARE_GATHER) && Writable(syn, BARE_GATHER)
  {
  }

  lemma TwoMapsManaged(first: seq<Item>, second: seq<Item>)
    ensures Managed(TwoMaps(first, second).items, {"params"}) == [ParamsBlock(first), ParamsBlock(second)]
  {
    var items := TwoMaps(first, second).items;
    assert items[1..] == [items[1]] && items[1..][1..] == [];
    assert Filter(items[1..], BlockOf({"params"})) == [items[1]];
    assert Filter(items, BlockOf({"params"})) == items;
  }

  /** For the bare gather the two conditions look at the second block alone. */
  lemma BareConditions(syn: Syntax, first: seq<Item>, second: seq<Item>)
    requires Typed(BARE_GATHER)
    ensures ReadsBack(TwoMaps(first, second), BARE_GATHER) <==> second == []
    ensures Resyncs(syn, TwoMaps(first, second), BARE_GATHER) <==> second != [] && Renewable(syn, second)
  {
    hide Managed, Typed, Renewable;
    TwoMapsManaged(first, second);
    var b := TwoMaps(first, second);
    assert KvKinds(BARE_GATHER.shape)[0] == "params";
    assert NothingUncovered(b.items, KvKinds(BARE_GATHER.shape)[0], BARE_GATHER.kvs[0]) <==> second == [];
    assert NothingLost(syn, b.items, KvKinds(BARE_GATHER.shape)[0], BARE_GATHER.kvs[0]) <==>
           second != [] && Renewable(syn, second);
  }

  /** Clearing the parameters of a gather whose file holds a second block of them uncovers its entries:
      the document does not come back. */
  lemma ClearedMapUncovers(syn: Syntax)
    ensures var b := TwoMaps([], [FieldItem(SynthField("k", BoolLit(true)))]);
            Extract(syn, SyncNode(syn, b, BARE_GATHER).after, Gather) != Read(Canon(BARE_GATHER))
  {
    var second := [FieldItem(SynthField("k", BoolLit(true)))];
    BareGatherGood(syn);
    hide Typed, Canonical, Writable, Extract, SyncNode, Canon, ReadsBack, Resyncs;
    PutGetIff(syn, TwoMaps([], second), BARE_GATHER);
    BareConditions(syn, [], second);
  }

  /** With both blocks empty the first save reads back, and yet the second save removes a block. */
  lemma EmptyMapsDwindle(syn: Syntax)
    ensures var once := SyncNode(syn, TwoMaps([], []), BARE_GATHER).after;
            Extract(syn, once, Gather) == Read(Canon(BARE_GATHER)) && !Stable(syn, once, Gather)
  {
    BareGatherGood(syn);
    hide Typed, Canonical, Writable, Extract, SyncNode, Canon, Stable, ReadsBack, Resyncs;
    PutGetIff(syn, TwoMaps([], []), BARE_GATHER);
    SecondSyncIff(syn, TwoMaps([], []), BARE_GATHER);
    BareConditions(syn, [], []);
  }
}
