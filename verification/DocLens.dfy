/** The lens laws of the document sync (docjson/src/emit.rs:52-134 and its tests). */
module DocLens {
  import opened Wrappers
  import opened DocAst
  import opened DocSchema
  import opened Sequences
  import opened DocSync

  // --------------------------------------------------------- what a sync settles

  /** Every field holds exactly what the document asks for. */
  ghost predicate FieldsSettled(syn: Syntax, items: seq<Item>, specs: seq<FieldSpec>, vals: seq<FieldVal>)
    requires AllFit(vals, specs)
  {
    forall k :: 0 <= k < |specs| ==> FieldSettled(syn, items, specs[k], vals[k])
  }

  ghost predicate FieldSettled(syn: Syntax, items: seq<Item>, spec: FieldSpec, v: FieldVal)
    requires Fits(v, spec.kind)
  {
    Target(syn, v, spec.kind) == Read(FindField(items, spec.name))
  }

  ghost predicate EntriesSettled(syn: Syntax, items: seq<Item>, kvs: seq<Kv>)
  {
    && |items| == |kvs|
    && forall k :: 0 <= k < |items| ==>
         && items[k].FieldItem?
         && items[k].field.name == kvs[k].key
         && ToExpr(syn, kvs[k].value) == Some(items[k].field.expr)
  }

  ghost predicate KvSettled(syn: Syntax, items: seq<Item>, kind: string, kvs: seq<Kv>)
  {
    match FirstBlock(items, kind)
    case None => kvs == []
    case Some(m) => kvs != [] && EntriesSettled(syn, m.items, kvs)
  }

  ghost predicate KvsSettled(syn: Syntax, items: seq<Item>, kinds: seq<string>, kvss: seq<seq<Kv>>)
    requires |kinds| == |kvss|
  {
    forall k :: 0 <= k < |kinds| ==> KvSettled(syn, items, kinds[k], kvss[k])
  }

  /** The block shows the document, the whole document and nothing else. */
  ghost predicate Settled(syn: Syntax, b: Block, doc: Doc)
    requires Typed(doc)
    decreases doc, 2
  {
    && b.kind == KindOf(doc.shape)
    && if doc.shape.Vars? then EntriesSettled(syn, b.items, doc.kvs[0])
       else
         && b.labels != [] && b.labels[0] == Utf8(doc.name)
         && FieldsSettled(syn, b.items, Fields(doc.shape), doc.fields)
         && KvsSettled(syn, b.items, KvKinds(doc.shape), doc.kvs)
         && RegionSettled(syn, b.items, ParamShapes(doc.shape), doc.params)
         && RegionSettled(syn, b.items, ChildShapes(doc.shape), doc.children)
  }

  ghost predicate RegionSettled(syn: Syntax, items: seq<Item>, shapes: seq<Shape>, docs: seq<Doc>)
    requires forall k :: 0 <= k < |docs| ==> Typed(docs[k])
    decreases docs, 1
  {
    InPlace(items, KindsOf(shapes)) && BlocksSettled(syn, Managed(items, KindsOf(shapes)), docs)
  }

  ghost predicate BlocksSettled(syn: Syntax, blocks: seq<Block>, docs: seq<Doc>)
    requires forall k :: 0 <= k < |docs| ==> Typed(docs[k])
    decreases docs, 0
  {
    |blocks| == |docs| && forall k :: 0 <= k < |docs| ==> Settled(syn, blocks[k], docs[k])
  }

  // ------------------------------------------------------------- fields settle

  lemma SyncFieldLaw(syn: Syntax, items: seq<Item>, spec: FieldSpec, v: FieldVal)
    requires Fits(v, spec.kind)
    ensures var r := SyncField(syn, items, spec, v);
            && (r.ok ==> FieldSettled(syn, r.after, spec, v))
            && (FieldSettled(syn, items, spec, v) ==> r == Edit(items, true))
            && Agree(items, r.after, {spec.name}, {})
  {
    match Target(syn, v, spec.kind)
    case Read(None) => DropFieldLaw(items, spec.name);
    case Read(Some(e)) => SetFieldLaw(items, spec.name, e);
    case Diagnosed =>
  }

  lemma FieldFrame(syn: Syntax, a: seq<Item>, b: seq<Item>, spec: FieldSpec, v: FieldVal,
                   names: set<string>, kinds: set<string>)
    requires Fits(v, spec.kind) && Agree(a, b, names, kinds) && spec.name !in names
    ensures FieldSettled(syn, b, spec, v) == FieldSettled(syn, a, spec, v)
  {
  }

  lemma {:induction false} SyncFieldsLaw(syn: Syntax, items: seq<Item>, specs: seq<FieldSpec>, vals: seq<FieldVal>)
    requires AllFit(vals, specs) && DistinctNames(specs)
    ensures var r := SyncFields(syn, items, specs, vals);
            && (r.ok ==> FieldsSettled(syn, r.after, specs, vals))
            && Agree(items, r.after, Names(specs), {})
    decreases specs
  {
    if specs != [] {
      hide FieldSettled, SyncField, Agree;
      var first := SyncField(syn, items, specs[0], vals[0]);
      SyncFieldLaw(syn, items, specs[0], vals[0]);
      SyncFieldsLaw(syn, first.after, specs[1..], vals[1..]);
      var r := SyncFields(syn, items, specs, vals);
      AgreeChain(items, first.after, r.after, Names(specs), {}, {specs[0].name}, {}, Names(specs[1..]), {});
      FieldFrame(syn, first.after, r.after, specs[0], vals[0], Names(specs[1..]), {});
      if r.ok {
        forall k | 0 <= k < |specs| ensures FieldSettled(syn, r.after, specs[k], vals[k]) {
          if k > 0 {
            assert specs[k] == specs[1..][k - 1] && vals[k] == vals[1..][k - 1];
          }
        }
      }
    }
  }

  lemma {:induction false} SettledFieldsFixed(syn: Syntax, items: seq<Item>, specs: seq<FieldSpec>, vals: seq<FieldVal>)
    requires AllFit(vals, specs) && FieldsSettled(syn, items, specs, vals)
    ensures SyncFields(syn, items, specs, vals) == Edit(items, true)
    decreases specs
  {
    hide FieldSettled, SyncField;
    if specs != [] {
      SyncFieldLaw(syn, items, specs[0], vals[0]);
      SettledFieldsFixed(syn, items, specs[1..], vals[1..]);
    }
  }

  lemma FieldsFrame(syn: Syntax, a: seq<Item>, b: seq<Item>, specs: seq<FieldSpec>, vals: seq<FieldVal>,
                    kinds: set<string>)
    requires AllFit(vals, specs) && FieldsSettled(syn, a, specs, vals) && Agree(a, b, {}, kinds)
    ensures FieldsSettled(syn, b, specs, vals)
  {
  }

  // -------------------------------------------------- key-value children settle

  lemma EntriesCons(syn: Syntax, f: Field, rest: seq<Item>, kvs: seq<Kv>)
    requires kvs != [] && EntriesSettled(syn, rest, kvs[1..])
    requires f.name == kvs[0].key && ToExpr(syn, kvs[0].value) == Some(f.expr)
    ensures EntriesSettled(syn, [FieldItem(f)] + rest, kvs)
  {
  }

  lemma {:induction false} SyncEntriesLaw(syn: Syntax, pool: seq<Field>, kvs: seq<Kv>)
    ensures var r := SyncEntries(syn, pool, kvs); r.ok ==> EntriesSettled(syn, r.after, kvs)
    decreases kvs
  {
    hide ToExpr, Reused, Remaining, EntriesSettled;
    if kvs == [] {
      EntriesNone(syn);
    } else if ToExpr(syn, kvs[0].value).Some? {
      var rest := Remaining(pool, kvs[0].key);
      SyncEntriesLaw(syn, rest, kvs[1..]);
      var tail := SyncEntries(syn, rest, kvs[1..]);
      if tail.ok {
        EntriesCons(syn, Reused(pool, kvs[0].key, ToExpr(syn, kvs[0].value).value), tail.after, kvs);
      }
    }
  }

  lemma EntriesNone(syn: Syntax)
    ensures EntriesSettled(syn, [], [])
  {
  }

  lemma {:induction false} SettledEntriesFixed(syn: Syntax, items: seq<Item>, kvs: seq<Kv>)
    requires EntriesSettled(syn, items, kvs)
    ensures SyncEntries(syn, FieldsIn(items), kvs) == Edit(items, true)
    decreases kvs
  {
    hide ToExpr;
    if kvs != [] {
      SettledEntriesFixed(syn, items[1..], kvs[1..]);
      var pool := FieldsIn(items);
      assert pool == [items[0].field] + FieldsIn(items[1..]);
      assert FieldAt(pool, kvs[0].key) == 0;
      assert pool[..0] + pool[1..] == FieldsIn(items[1..]);
      var f := items[0].field;
      assert f.(expr := f.expr) == f && items[0] == FieldItem(f);
      assert [items[0]] + items[1..] == items;
    }
  }

  lemma SyncKvChildLaw(syn: Syntax, items: seq<Item>, kind: string, kvs: seq<Kv>)
    ensures var r := SyncKvChild(syn, items, kind, kvs);
            && (r.ok && |Filter(items, BlockOf({kind}))| <= 1 ==> KvSettled(syn, r.after, kind, kvs))
            && Agree(items, r.after, {}, {kind})
  {
    hide Agree, EntriesSettled, SyncEntries;
    var existing := FirstBlock(items, kind);
    if kvs == [] {
      RemoveFirstBlockLaw(items, kind);
    } else if existing.Some? {
      var m := SyncKvs(syn, existing.value, kvs);
      SyncEntriesLaw(syn, FieldsIn(existing.value.items), kvs);
      ReplaceFirstBlockLaw(items, kind, m.after);
    } else {
      var m := SyncKvs(syn, Fresh(kind, []), kvs);
      SyncEntriesLaw(syn, [], kvs);
      AppendBlockLaw(items, m.after);
    }
  }

  lemma SettledKvFixed(syn: Syntax, items: seq<Item>, kind: string, kvs: seq<Kv>)
    requires KvSettled(syn, items, kind, kvs)
    ensures SyncKvChild(syn, items, kind, kvs) == Edit(items, true)
  {
    hide Agree, EntriesSettled, SyncEntries;
    match FirstBlock(items, kind)
    case None => RemoveFirstBlockLaw(items, kind);
    case Some(m) =>
      SettledEntriesFixed(syn, m.items, kvs);
      ReplaceFirstBlockLaw(items, kind, m);
  }

  lemma KvFrame(syn: Syntax, a: seq<Item>, b: seq<Item>, kind: string, kvs: seq<Kv>, names: set<string>,
                kinds: set<string>)
    requires Agree(a, b, names, kinds) && kind !in kinds
    ensures KvSettled(syn, b, kind, kvs) == KvSettled(syn, a, kind, kvs)
    ensures |Filter(b, BlockOf({kind}))| == |Filter(a, BlockOf({kind}))|
  {
  }

  /** At most one child block of each of the given kinds. */
  ghost predicate AtMostOne(items: seq<Item>, kinds: seq<string>)
  {
    forall k :: 0 <= k < |kinds| ==> |Filter(items, BlockOf({kinds[k]}))| <= 1
  }

  lemma {:induction false} SyncKvChildrenLaw(syn: Syntax, items: seq<Item>, kinds: seq<string>, kvss: seq<seq<Kv>>)
    requires |kinds| == |kvss| && Distinct(kinds)
    ensures var r := SyncKvChildren(syn, items, kinds, kvss);
            && (r.ok && AtMostOne(items, kinds) ==> KvsSettled(syn, r.after, kinds, kvss))
            && Agree(items, r.after, {}, AllOf(kinds))
    decreases kinds
  {
    if kinds != [] {
      hide KvSettled, SyncKvChild, Agree, Filter;
      var first := SyncKvChild(syn, items, kinds[0], kvss[0]);
      SyncKvChildLaw(syn, items, kinds[0], kvss[0]);
      SyncKvChildrenLaw(syn, first.after, kinds[1..], kvss[1..]);
      var r := SyncKvChildren(syn, items, kinds, kvss);
      AgreeChain(items, first.after, r.after, {}, AllOf(kinds), {}, {kinds[0]}, {}, AllOf(kinds[1..]));
      KvFrame(syn, first.after, r.after, kinds[0], kvss[0], {}, AllOf(kinds[1..]));
      if AtMostOne(items, kinds) && r.ok {
        forall k | 1 <= k < |kinds| ensures |Filter(first.after, BlockOf({kinds[k]}))| <= 1 {
          KvFrame(syn, items, first.after, kinds[k], kvss[k], {}, {kinds[0]});
        }
        forall k | 0 <= k < |kinds| ensures KvSettled(syn, r.after, kinds[k], kvss[k]) {
          if k > 0 {
            assert kinds[k] == kinds[1..][k - 1] && kvss[k] == kvss[1..][k - 1];
          }
        }
      }
    }
  }

  lemma {:induction false} SettledKvsFixed(syn: Syntax, items: seq<Item>, kinds: seq<string>, kvss: seq<seq<Kv>>)
    requires |kinds| == |kvss| && KvsSettled(syn, items, kinds, kvss)
    ensures SyncKvChildren(syn, items, kinds, kvss) == Edit(items, true)
    decreases kinds
  {
    hide KvSettled, SyncKvChild;
    if kinds != [] {
      SettledKvFixed(syn, items, kinds[0], kvss[0]);
      SettledKvsFixed(syn, items, kinds[1..], kvss[1..]);
    }
  }

  lemma KvsFrame(syn: Syntax, a: seq<Item>, b: seq<Item>, kinds: seq<string>, kvss: seq<seq<Kv>>, others: set<string>)
    requires |kinds| == |kvss| && KvsSettled(syn, a, kinds, kvss) && Agree(a, b, {}, others) && AllOf(kinds) !! others
    ensures KvsSettled(syn, b, kinds, kvss)
  {
  }
}
