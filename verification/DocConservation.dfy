/** What a sync does not touch, when it succeeds, and which block each document lands on. */
module DocConservation {
  import opened DocAst
  import opened DocSchema
  import opened DocSync
  import opened DocLens
  import opened DocTheorems
  import opened DocRoundTrip

  // -------------------------------------------------------- unmanaged neighbours

  /** Everything that is neither a managed field nor a managed block keeps its
      content and its order, whether or not the sync reports diagnostics. */
  lemma UnmanagedItemsStay(syn: Syntax, b: Block, doc: Doc)
    requires Typed(doc) && !doc.shape.Vars?
    ensures var outside := Outside(Names(Fields(doc.shape)), ManagedKinds(doc.shape));
            Filter(SyncNode(syn, b, doc).after.items, outside) == Filter(b.items, outside)
    ensures b.labels != [] ==> SyncNode(syn, b, doc).after.labels[1..] == b.labels[1..]
  {
    hide Filter, SyncRegion, SyncFields, SyncKvChildren, Names, KindsOf, AllOf, Managed, Typed;
    StagesAgree(syn, b, doc);
    var (i1, i2, i3, i4) := Stages(syn, b, doc);
    var names, kvs := Names(Fields(doc.shape)), AllOf(KvKinds(doc.shape));
    var ps, cs := KindsOf(ParamShapes(doc.shape)), KindsOf(ChildShapes(doc.shape));
    var all := kvs + ps + cs;
    AgreeChain(b.items, i1, i2, names, all, names, {}, {}, kvs);
    AgreeChain(b.items, i2, i3, names, all, names, all, {}, ps);
    AgreeChain(b.items, i3, i4, names, all, names, all, {}, cs);
    assert Ignores(Outside(names, all), names, all);
  }

  // ---------------------------------------------------------- blocks and comments

  /** The block each document is written onto. */
  function Bases(pool: seq<Block>, docs: seq<Doc>): (r: seq<Block>)
    ensures |r| == |docs|
    decreases docs
  {
    if docs == [] then [] else [Taken(pool, docs[0])] + Bases(Left(pool, docs[0]), docs[1..])
  }

  lemma {:induction false} SyncedFromBases(syn: Syntax, pool: seq<Block>, docs: seq<Doc>, k: nat)
    requires k < |docs| && forall j :: 0 <= j < |docs| ==> Typed(docs[j])
    ensures SyncBlocks(syn, pool, docs).after[k] == SyncNode(syn, Bases(pool, docs)[k], docs[k]).after
    decreases docs
  {
    hide Typed, SyncNode, Taken, Left;
    if k > 0 {
      SyncedFromBases(syn, Left(pool, docs[0]), docs[1..], k - 1);
    }
  }

  ghost predicate SameKey(c: Doc, d: Doc)
  {
    KindOf(c.shape) == KindOf(d.shape) && (c.shape.Vars? || d.shape.Vars? || MatchKey(c) == MatchKey(d))
  }

  /** Taking a block for one document leaves the first match of any other key where it was. */
  lemma OtherKeyUnaffected(pool: seq<Block>, c: Doc, d: Doc)
    requires !SameKey(c, d)
    ensures Taken(Left(pool, c), d) == Taken(pool, d)
  {
    hide MatchAt, Matches;
    var i, j := MatchAt(pool, c), MatchAt(pool, d);
    if i < |pool| {
      var rest := pool[..i] + pool[i + 1..];
      MatchesOne(pool[i], c, d);
      var j' := if j < i then j else if j < |pool| then j - 1 else |rest|;
      assert j < |pool| ==> rest[j'] == pool[j];
      forall k | 0 <= k < j' ensures !Matches(rest[k], d) {
        assert rest[k] == if k < i then pool[k] else pool[k + 1];
      }
      MatchUnique(rest, d, j');
    }
  }

  lemma MatchesOne(b: Block, c: Doc, d: Doc)
    requires !SameKey(c, d)
    ensures !(Matches(b, c) && Matches(b, d))
  {
  }

  lemma MatchUnique(pool: seq<Block>, d: Doc, j: nat)
    requires j <= |pool| && (j < |pool| ==> Matches(pool[j], d)) && forall k :: 0 <= k < j ==> !Matches(pool[k], d)
    ensures MatchAt(pool, d) == j
  {
  }

  /** However the documents were reordered or renamed, each lands on the first block of its
      own key, so that block's comments, unknown items and decorators travel with it. */
  lemma {:induction false} BlocksTravel(syn: Syntax, pool: seq<Block>, docs: seq<Doc>, k: nat)
    requires k < |docs|
    requires forall i, j :: 0 <= i < j < |docs| ==> !SameKey(docs[i], docs[j])
    ensures Bases(pool, docs)[k] == Taken(pool, docs[k])
    decreases docs
  {
    hide SameKey, Taken, Left;
    if k > 0 {
      BlocksTravel(syn, Left(pool, docs[0]), docs[1..], k - 1);
      OtherKeyUnaffected(pool, docs[0], docs[k]);
    }
  }

  /** After a region is written, the k-th managed block has the comments of the block it was written onto. */
  lemma CommentsRide(syn: Syntax, items: seq<Item>, shapes: seq<Shape>, docs: seq<Doc>, k: nat)
    requires shapes != [] && k < |docs|
    requires forall j :: 0 <= j < |docs| ==> Typed(docs[j]) && docs[j].shape in shapes
    ensures var kinds := KindsOf(shapes);
            var after := Managed(SyncRegion(syn, items, shapes, docs).after, kinds);
            var base := Bases(Managed(items, kinds), docs)[k];
            && |after| == |docs|
            && Comments(after[k].trivia) == Comments(base.trivia)
            && after[k].meta == base.meta
            && after[k].items == SyncNode(syn, base, docs[k]).after.items
  {
    hide Typed, Filter, SyncNode, Taken, Left, Bases, InsertAt, Comments;
    var kinds := KindsOf(shapes);
    var pool := Managed(items, kinds);
    var blocks := SyncBlocks(syn, pool, docs).after;
    BlockKinds(syn, pool, shapes, docs);
    SpliceLaw(items, kinds, blocks);
    SyncedFromBases(syn, pool, docs, k);
    MarkKeepsComments(blocks[k]);
  }

  /** The pooled blocks no document asked for. */
  function Dropped(pool: seq<Block>, docs: seq<Doc>): seq<Block>
    decreases docs
  {
    if docs == [] then pool else Dropped(Left(pool, docs[0]), docs[1..])
  }

  /** The pooled blocks some document was written onto. */
  function Claimed(pool: seq<Block>, docs: seq<Doc>): seq<Block>
    decreases docs
  {
    if docs == [] then [] else
      (if MatchAt(pool, docs[0]) < |pool| then [Taken(pool, docs[0])] else []) + Claimed(Left(pool, docs[0]), docs[1..])
  }

  /** No pooled block is written twice, and only the unclaimed ones disappear. */
  lemma {:induction false} PoolIsConserved(pool: seq<Block>, docs: seq<Doc>)
    ensures multiset(Claimed(pool, docs)) + multiset(Dropped(pool, docs)) == multiset(pool)
    decreases docs
  {
    hide MatchAt;
    if docs != [] {
      TakeOne(pool, docs[0]);
      hide Taken, Left;
      PoolIsConserved(Left(pool, docs[0]), docs[1..]);
    }
  }

  lemma TakeOne(pool: seq<Block>, doc: Doc)
    ensures MatchAt(pool, doc) < |pool| ==> multiset([Taken(pool, doc)]) + multiset(Left(pool, doc)) == multiset(pool)
    ensures MatchAt(pool, doc) >= |pool| ==> Left(pool, doc) == pool
  {
    hide MatchAt;
    var i := MatchAt(pool, doc);
    if i < |pool| {
      assert pool == pool[..i] + [pool[i]] + pool[i + 1..];
    }
  }

  // ------------------------------------------- two key-value blocks of one kind

  lemma {:induction false} RemoveFirstShows(items: seq<Item>, kind: string)
    requires FirstBlock(items, kind).Some?
    ensures Filter(RemoveFirstBlock(items, kind), BlockOf({kind})) == Filter(items, BlockOf({kind}))[1..]
  {
    if !Passes(items[0], BlockOf({kind})) {
      RemoveFirstShows(items[1..], kind);
    }
  }

  /** A key-value child reads back as written, except that clearing it uncovers a second block of its kind. */
  lemma KvChildReadsBackIff(syn: Syntax, items: seq<Item>, kind: string, kvs: seq<Kv>)
    requires WritableEntries(syn, kvs) && CanonicalEntries(syn, kvs)
    ensures var maps := Managed(items, {kind});
            ReadKvChild(syn, SyncKvChild(syn, items, kind, kvs).after, kind) == Read(kvs)
            <==> (kvs != [] || |maps| <= 1 || maps[1].items == [])
  {
    hide ToExpr, ValOf, SyncEntries, ReplaceFirstBlock, RemoveFirstBlock, Filter, EntriesSettled, WritableEntries,
      CanonicalEntries;
    var existing := FirstBlock(items, kind);
    if kvs == [] {
      RemoveFirstBlockLaw(items, kind);
      if existing.Some? {
        RemoveFirstShows(items, kind);
      }
    } else {
      var base := if existing.Some? then existing.value else Fresh(kind, []);
      var m := SyncKvs(syn, base, kvs);
      EntriesOk(syn, FieldsIn(base.items), kvs);
      SyncEntriesLaw(syn, FieldsIn(base.items), kvs);
      EntriesRead(syn, m.after.items, kvs);
      if existing.Some? {
        ReplaceFirstBlockLaw(items, kind, m.after);
      } else {
        AppendBlockLaw(items, m.after);
      }
    }
  }

  // ------------------------------------------------------------------- success

  /** Every expression the document holds parses, and every literal is representable. */
  predicate Writable(syn: Syntax, doc: Doc)
    requires Typed(doc)
  {
    && (forall k :: 0 <= k < |doc.fields| ==> Target(syn, doc.fields[k], Fields(doc.shape)[k].kind).Read?)
    && (forall k :: 0 <= k < |doc.kvs| ==> WritableEntries(syn, doc.kvs[k]))
    && (forall k :: 0 <= k < |doc.params| ==> Writable(syn, doc.params[k]))
    && (forall k :: 0 <= k < |doc.children| ==> Writable(syn, doc.children[k]))
  }

  predicate WritableEntries(syn: Syntax, kvs: seq<Kv>)
  {
    forall j :: 0 <= j < |kvs| ==> ToExpr(syn, kvs[j].value).Some?
  }

  lemma {:induction false} FieldsOk(syn: Syntax, items: seq<Item>, specs: seq<FieldSpec>, vals: seq<FieldVal>)
    requires AllFit(vals, specs)
    ensures SyncFields(syn, items, specs, vals).ok <==>
            forall k :: 0 <= k < |vals| ==> Target(syn, vals[k], specs[k].kind).Read?
    decreases specs
  {
    hide Target, SetField, DropField;
    if specs != [] {
      FieldsOk(syn, SyncField(syn, items, specs[0], vals[0]).after, specs[1..], vals[1..]);
    }
  }

  lemma {:induction false} EntriesOk(syn: Syntax, pool: seq<Field>, kvs: seq<Kv>)
    ensures SyncEntries(syn, pool, kvs).ok <==> WritableEntries(syn, kvs)
    decreases kvs
  {
    hide ToExpr, Reused, Remaining;
    if kvs != [] {
      EntriesOk(syn, Remaining(pool, kvs[0].key), kvs[1..]);
    }
  }

  lemma {:induction false} KvsOk(syn: Syntax, items: seq<Item>, kinds: seq<string>, kvss: seq<seq<Kv>>)
    requires |kinds| == |kvss|
    ensures SyncKvChildren(syn, items, kinds, kvss).ok <==>
            forall k :: 0 <= k < |kvss| ==> WritableEntries(syn, kvss[k])
    decreases kinds
  {
    hide FirstBlock, WritableEntries, RemoveFirstBlock, ReplaceFirstBlock, SyncEntries;
    if kinds != [] {
      var existing := FirstBlock(items, kinds[0]);
      EntriesOk(syn, if existing.Some? then FieldsIn(existing.value.items) else [], kvss[0]);
      NothingWritable(syn);
      KvsOk(syn, SyncKvChild(syn, items, kinds[0], kvss[0]).after, kinds[1..], kvss[1..]);
    }
  }

  lemma NothingWritable(syn: Syntax)
    ensures WritableEntries(syn, [])
  {
  }

  /** A sync reports no diagnostic exactly when the document is writable: the file plays no part. */
  lemma SyncSucceedsIffWritable(syn: Syntax, b: Block, doc: Doc)
    requires Typed(doc)
    ensures SyncNode(syn, b, doc).ok <==> Writable(syn, doc)
    decreases doc, 0
  {
    hide AllFit, InSections, SyncFields, SyncKvChildren, SyncBlocks, SyncEntries, WritableEntries, Target, Managed;
    if doc.shape.Vars? {
      EntriesOk(syn, FieldsIn(b.items), doc.kvs[0]);
      VarsOnly(syn, doc);
    } else {
      var (i1, i2, i3, i4) := Stages(syn, b, doc);
      FieldsOk(syn, b.items, Fields(doc.shape), doc.fields);
      KvsOk(syn, i1, KvKinds(doc.shape), doc.kvs);
      BlocksOk(syn, Managed(i2, KindsOf(ParamShapes(doc.shape))), doc.params);
      BlocksOk(syn, Managed(i3, KindsOf(ChildShapes(doc.shape))), doc.children);
      NoDocs(syn, b, doc);
    }
  }

  lemma VarsOnly(syn: Syntax, doc: Doc)
    requires Typed(doc) && doc.shape.Vars?
    ensures Writable(syn, doc) <==> WritableEntries(syn, doc.kvs[0])
  {
  }

  lemma BlocksOk(syn: Syntax, pool: seq<Block>, docs: seq<Doc>)
    requires forall k :: 0 <= k < |docs| ==> Typed(docs[k])
    ensures SyncBlocks(syn, pool, docs).ok <==> forall k :: 0 <= k < |docs| ==> Writable(syn, docs[k])
    decreases docs
  {
    hide Typed, Writable, SyncNode, Taken, Left;
    if docs != [] {
      SyncSucceedsIffWritable(syn, Taken(pool, docs[0]), docs[0]);
      BlocksOk(syn, Left(pool, docs[0]), docs[1..]);
    }
  }
}
