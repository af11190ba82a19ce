/** The in-place sync: one editor per block being edited, as the `&mut Block`
    the sync functions pass down (docjson/src/emit.rs, docjson/src/wcl_edit.rs). */
module DocEditor {
  import opened Wrappers
  import opened DocAst
  import opened DocSchema
  import opened DocSync

  lemma FilterSnoc(items: seq<Item>, i: nat, t: Test)
    requires i < |items|
    ensures Filter(items[..i + 1], t) == Filter(items[..i], t) + (if Passes(items[i], t) then [items[i]] else [])
  {
    assert items[..i + 1] == items[..i] + [items[i]];
    FilterAppend(items[..i], [items[i]], t);
    assert Filter([items[i]], t) == if Passes(items[i], t) then [items[i]] else [];
  }

  lemma FieldsInSnoc(items: seq<Item>, i: nat)
    requires i < |items|
    ensures FieldsIn(items[..i + 1]) == FieldsIn(items[..i]) + (if items[i].FieldItem? then [items[i].field] else [])
  {
    if i > 0 {
      FieldsInSnoc(items[1..], i - 1);
      assert items[1..][..i] == items[..i + 1][1..] && items[1..][..i - 1] == items[..i][1..];
    }
  }

  lemma {:induction false} SetFieldSkips(items: seq<Item>, i: nat, name: string, e: Expr)
    requires i <= |items| && (forall k :: 0 <= k < i ==> !Passes(items[k], FieldNamed(name)))
    requires i < |items| ==> Passes(items[i], FieldNamed(name))
    ensures SetField(items, name, e) ==
            if i < |items| then items[i := FieldItem(items[i].field.(expr := e))]
            else items + [FieldItem(SynthField(name, e))]
  {
    if i > 0 {
      var rest := items[1..];
      SetFieldSkips(rest, i - 1, name, e);
      if i < |items| {
        var item := FieldItem(items[i].field.(expr := e));
        assert items[i := item] == [items[0]] + rest[i - 1 := item];
      } else {
        assert items + [FieldItem(SynthField(name, e))] == [items[0]] + (rest + [FieldItem(SynthField(name, e))]);
      }
    }
  }

  lemma {:induction false} FirstBlockAt(items: seq<Item>, i: nat, kind: string, b: Block)
    requires i < |items| && Passes(items[i], BlockOf({kind}))
    requires forall k :: 0 <= k < i ==> !Passes(items[k], BlockOf({kind}))
    ensures FirstBlock(items, kind) == Some(items[i].block)
    ensures ReplaceFirstBlock(items, kind, b) == items[i := BlockItem(b)]
    ensures RemoveFirstBlock(items, kind) == items[..i] + items[i + 1..]
  {
    if i > 0 {
      var rest := items[1..];
      FirstBlockAt(rest, i - 1, kind, b);
      assert items[i := BlockItem(b)] == [items[0]] + rest[i - 1 := BlockItem(b)];
      assert items[..i] + items[i + 1..] == [items[0]] + (rest[..i - 1] + rest[i..]);
    }
  }

  lemma RegionSoFar(items: seq<Item>, i: nat, kinds: set<string>)
    requires i < |items|
    ensures Kept(items[..i + 1], kinds) ==
            Kept(items[..i], kinds) + (if Passes(items[i], BlockOf(kinds)) then [] else [items[i]])
    ensures Managed(items[..i + 1], kinds) ==
            Managed(items[..i], kinds) + (if Passes(items[i], BlockOf(kinds)) then [items[i].block] else [])
    ensures Managed(items[..i], kinds) != [] ==> InsertAt(items[..i + 1], kinds) == InsertAt(items[..i], kinds)
    ensures Managed(items[..i], kinds) == [] && Passes(items[i], BlockOf(kinds)) ==>
              InsertAt(items[..i + 1], kinds) == |Kept(items[..i], kinds)|
  {
    FilterSnoc(items, i, NotBlockOf(kinds));
    FilterSnoc(items, i, BlockOf(kinds));
    assert items[..i + 1] == items[..i] + [items[i]];
    InsertAtAppend(items[..i], [items[i]], kinds);
    if Managed(items[..i], kinds) == [] {
      NoneOf(items[..i], kinds);
    }
  }

  lemma InsertStep(p: seq<Item>, blocks: seq<Block>, k: nat, s: seq<Item>)
    requires k < |blocks|
    ensures var items := p + Wrap(blocks[..k]) + s;
            items[..|p| + k] + [BlockItem(blocks[k])] + items[|p| + k..] == p + Wrap(blocks[..k + 1]) + s
  {
  }

  /** The first block of the pool for the document is removed and handed out, or a fresh one built. */
  method TakeOrNew(pool: seq<Block>, doc: Doc) returns (b: Block, rest: seq<Block>)
    ensures b == Taken(pool, doc) && rest == Left(pool, doc)
  {
    var i := 0;
    while i < |pool| && !Matches(pool[i], doc)
      invariant i <= |pool| && forall k :: 0 <= k < i ==> !Matches(pool[k], doc)
    {
      i := i + 1;
    }
    assert MatchAt(pool, doc) == i;
    if i < |pool| {
      b, rest := pool[i], pool[..i] + pool[i + 1..];
    } else {
      b, rest := Fresh(KindOf(doc.shape), if doc.shape.Vars? then [] else [Utf8(MatchKey(doc))]), pool;
    }
  }

  lemma EntriesStep(syn: Syntax, pool: seq<Field>, kvs: seq<Kv>, i: nat, done: seq<Item>)
    requires i < |kvs|
    ensures var e, now := ToExpr(syn, kvs[i].value), SyncEntries(syn, pool, kvs[i..]);
            if e.None? then
              !now.ok && now.after == SyncEntries(syn, pool, kvs[i + 1..]).after
            else
              var rest := SyncEntries(syn, Remaining(pool, kvs[i].key), kvs[i + 1..]);
              && done + now.after == (done + [FieldItem(Reused(pool, kvs[i].key, e.value))]) + rest.after
              && now.ok == rest.ok
  {
  }

  lemma NoEntriesLeft(syn: Syntax, pool: seq<Field>, kvs: seq<Kv>, done: seq<Item>)
    ensures done + SyncEntries(syn, pool, kvs[|kvs|..]).after == done && SyncEntries(syn, pool, kvs[|kvs|..]).ok
  {
  }

  method DrainFields(items: seq<Item>) returns (pool: seq<Field>)
    ensures pool == FieldsIn(items)
  {
    pool := [];
    for i := 0 to |items|
      invariant pool == FieldsIn(items[..i])
    {
      FieldsInSnoc(items, i);
      if items[i].FieldItem? {
        pool := pool + [items[i].field];
      }
    }
    assert items[..|items|] == items;
  }

  class Editor {
    var block: Block

    constructor (b: Block)
      ensures block == b
    {
      block := b;
    }

    method SetName(name: string)
      modifies this
      ensures block == old(block).(labels := SetLabel(old(block).labels, Utf8(name)))
    {
      if 0 < |block.labels| {
        block := block.(labels := block.labels[0 := Utf8(name)]);
      } else {
        block := block.(labels := block.labels + [Utf8(name)]);
      }
    }

    method SetOrInsertField(name: string, e: Expr)
      modifies this
      ensures block == old(block).(items := SetField(old(block).items, name, e))
    {
      var i := 0;
      while i < |block.items| && !(block.items[i].FieldItem? && block.items[i].field.name == name)
        invariant i <= |block.items| && block == old(block)
        invariant forall k :: 0 <= k < i ==> !Passes(block.items[k], FieldNamed(name))
      {
        i := i + 1;
      }
      SetFieldSkips(block.items, i, name, e);
      if i < |block.items| {
        block := block.(items := block.items[i := FieldItem(block.items[i].field.(expr := e))]);
      } else {
        block := block.(items := block.items + [FieldItem(SynthField(name, e))]);
      }
    }

    method RemoveField(name: string)
      modifies this
      ensures block == old(block).(items := DropField(old(block).items, name))
    {
      var items, kept := block.items, [];
      for i := 0 to |items|
        invariant block == old(block) && kept == Filter(items[..i], NotField(name))
      {
        FilterSnoc(items, i, NotField(name));
        if !(items[i].FieldItem? && items[i].field.name == name) {
          kept := kept + [items[i]];
        }
      }
      assert items[..|items|] == items;
      block := block.(items := kept);
    }

    method WriteField(syn: Syntax, spec: FieldSpec, v: FieldVal) returns (ok: bool)
      requires Fits(v, spec.kind)
      modifies this
      ensures Edit(block, ok) == Edit(old(block).(items := SyncField(syn, old(block).items, spec, v).after),
                                      SyncField(syn, old(block).items, spec, v).ok)
    {
      ok := true;
      match Target(syn, v, spec.kind)
      case Read(None) => RemoveField(spec.name);
      case Read(Some(e)) => SetOrInsertField(spec.name, e);
      case Diagnosed => ok := false;
    }

    method WriteFields(syn: Syntax, specs: seq<FieldSpec>, vals: seq<FieldVal>) returns (ok: bool)
      requires AllFit(vals, specs)
      modifies this
      ensures block == old(block).(items := SyncFields(syn, old(block).items, specs, vals).after)
      ensures ok == SyncFields(syn, old(block).items, specs, vals).ok
    {
      ghost var goal := SyncFields(syn, block.items, specs, vals);
      ok := true;
      for i := 0 to |specs|
        invariant block == old(block).(items := block.items)
        invariant SyncFields(syn, block.items, specs[i..], vals[i..]).after == goal.after
        invariant (ok && SyncFields(syn, block.items, specs[i..], vals[i..]).ok) == goal.ok
      {
        assert specs[i..][1..] == specs[i + 1..] && vals[i..][1..] == vals[i + 1..];
        var one := WriteField(syn, specs[i], vals[i]);
        ok := ok && one;
      }
    }

    /** Drain the entries into a pool and rebuild them in document order. */
    method WriteKvs(syn: Syntax, kvs: seq<Kv>) returns (ok: bool)
      modifies this
      ensures Edit(block, ok) == SyncKvs(syn, old(block), kvs)
    {
      var pool := DrainFields(block.items);
      hide SyncEntries, ToExpr;
      ghost var goal := SyncEntries(syn, pool, kvs);
      assert kvs[0..] == kvs && [] + goal.after == goal.after;
      var out := [];
      ok := true;
      for i := 0 to |kvs|
        invariant block == old(block) && out + SyncEntries(syn, pool, kvs[i..]).after == goal.after
        invariant (ok && SyncEntries(syn, pool, kvs[i..]).ok) == goal.ok
      {
        EntriesStep(syn, pool, kvs, i, out);
        var e := ToExpr(syn, kvs[i].value);
        if e.None? {
          ok := false;
        } else {
          var at := FieldAt(pool, kvs[i].key);
          if at < |pool| {
            out := out + [FieldItem(pool[at].(expr := e.value))];
            pool := pool[..at] + pool[at + 1..];
          } else {
            out := out + [FieldItem(SynthField(kvs[i].key, e.value))];
          }
        }
      }
      NoEntriesLeft(syn, pool, kvs, out);
      block := block.(items := out);
    }

    /** Rewrite, create or remove the key-value child block of a kind. */
    method WriteKvChild(syn: Syntax, kind: string, kvs: seq<Kv>) returns (ok: bool)
      modifies this
      ensures block == old(block).(items := SyncKvChild(syn, old(block).items, kind, kvs).after)
      ensures ok == SyncKvChild(syn, old(block).items, kind, kvs).ok
    {
      var i := 0;
      while i < |block.items| && !(block.items[i].BlockItem? && block.items[i].block.kind == kind)
        invariant i <= |block.items| && forall k :: 0 <= k < i ==> !Passes(block.items[k], BlockOf({kind}))
      {
        i := i + 1;
      }
      ok := true;
      if i < |block.items| {
        var map_ := new Editor(block.items[i].block);
        if kvs == [] {
          FirstBlockAt(block.items, i, kind, map_.block);
          block := block.(items := block.items[..i] + block.items[i + 1..]);
        } else {
          ok := map_.WriteKvs(syn, kvs);
          FirstBlockAt(block.items, i, kind, map_.block);
          block := block.(items := block.items[i := BlockItem(map_.block)]);
        }
      } else {
        FilterNone(block.items, BlockOf({kind}));
        RemoveFirstBlockLaw(block.items, kind);
        if kvs != [] {
          var map_ := new Editor(Fresh(kind, []));
          ok := map_.WriteKvs(syn, kvs);
          block := block.(items := block.items + [BlockItem(map_.block)]);
        }
      }
    }

    method WriteKvChildren(syn: Syntax, kinds: seq<string>, kvss: seq<seq<Kv>>) returns (ok: bool)
      requires |kinds| == |kvss|
      modifies this
      ensures block == old(block).(items := SyncKvChildren(syn, old(block).items, kinds, kvss).after)
      ensures ok == SyncKvChildren(syn, old(block).items, kinds, kvss).ok
    {
      ghost var goal := SyncKvChildren(syn, block.items, kinds, kvss);
      ok := true;
      for i := 0 to |kinds|
        invariant block == old(block).(items := block.items)
        invariant SyncKvChildren(syn, block.items, kinds[i..], kvss[i..]).after == goal.after
        invariant (ok && SyncKvChildren(syn, block.items, kinds[i..], kvss[i..]).ok) == goal.ok
      {
        assert kinds[i..][1..] == kinds[i + 1..] && kvss[i..][1..] == kvss[i + 1..];
        var one := WriteKvChild(syn, kinds[i], kvss[i]);
        ok := ok && one;
      }
    }

    /** Pull the managed child blocks out, remembering where the region started. */
    method ExtractManaged(kinds: set<string>) returns (pool: seq<Block>, insertAt: nat)
      modifies this
      ensures block == old(block).(items := Kept(old(block).items, kinds))
      ensures pool == Managed(old(block).items, kinds) && insertAt == InsertAt(old(block).items, kinds)
    {
      var items, kept := block.items, [];
      var start: Option<nat> := None;
      pool := [];
      for i := 0 to |items|
        invariant block == old(block) && kept == Kept(items[..i], kinds) && pool == Managed(items[..i], kinds)
        invariant start.None? <==> pool == []
        invariant start.Some? ==> start.value == InsertAt(items[..i], kinds)
      {
        RegionSoFar(items, i, kinds);
        if items[i].BlockItem? && items[i].block.kind in kinds {
          start := if start.None? then Some(|kept|) else start;
          pool := pool + [items[i].block];
        } else {
          kept := kept + [items[i]];
        }
      }
      assert items[..|items|] == items;
      insertAt := if start.None? then |kept| else start.value;
      if start.None? {
        NoneOf(items, kinds);
        assert items + [] == items && InsertAt([], kinds) == 0;
      }
      block := block.(items := kept);
    }

    /** Insert the ordered blocks one by one where the region started. */
    method SpliceIn(insertAt: nat, blocks: seq<Block>)
      requires insertAt <= |block.items|
      modifies this
      ensures block == old(block).(items := Splice(old(block).items, insertAt, blocks))
    {
      ghost var kept := block.items;
      ghost var marked := MarkAll(blocks, kept == []);
      for offset := 0 to |blocks|
        invariant block == old(block).(items := block.items)
        invariant block.items == kept[..insertAt] + Wrap(marked[..offset]) + kept[insertAt..]
      {
        var veryFirst := insertAt == 0 && offset == 0 && block.items == [];
        var b := blocks[offset];
        if !veryFirst && BlankLine !in b.trivia {
          b := b.(trivia := [BlankLine] + b.trivia);
        }
        InsertStep(kept[..insertAt], marked, offset, kept[insertAt..]);
        block := block.(items := block.items[..insertAt + offset] + [BlockItem(b)] + block.items[insertAt + offset..]);
      }
      assert marked[..|blocks|] == marked;
    }

    /** Write a whole document onto the block. */
    method Write(syn: Syntax, doc: Doc) returns (ok: bool)
      requires Typed(doc)
      modifies this
      ensures Edit(block, ok) == SyncNode(syn, old(block), doc)
      decreases doc, 2
    {
      if doc.shape.Vars? {
        ok := WriteKvs(syn, doc.kvs[0]);
        return;
      }
      SetName(doc.name);
      var fields := WriteFields(syn, Fields(doc.shape), doc.fields);
      var kvs := WriteKvChildren(syn, KvKinds(doc.shape), doc.kvs);
      var params := WriteRegion(syn, ParamShapes(doc.shape), doc.params);
      var children := WriteRegion(syn, ChildShapes(doc.shape), doc.children);
      ok := fields && kvs && params && children;
    }

    method WriteRegion(syn: Syntax, shapes: seq<Shape>, docs: seq<Doc>) returns (ok: bool)
      requires forall k :: 0 <= k < |docs| ==> Typed(docs[k])
      modifies this
      ensures block == old(block).(items := SyncRegion(syn, old(block).items, shapes, docs).after)
      ensures ok == SyncRegion(syn, old(block).items, shapes, docs).ok
      decreases docs, 1
    {
      ok := true;
      if shapes != [] {
        var pool, insertAt := ExtractManaged(KindsOf(shapes));
        var ordered: seq<Block>;
        ordered, ok := WriteBlocks(syn, pool, docs);
        SpliceIn(insertAt, ordered);
      }
    }
  }

  lemma BlocksStep(syn: Syntax, pool: seq<Block>, docs: seq<Doc>, i: nat, done: seq<Block>)
    requires i < |docs| && forall k :: 0 <= k < |docs| ==> Typed(docs[k])
    ensures var first := SyncNode(syn, Taken(pool, docs[i]), docs[i]);
            var rest := SyncBlocks(syn, Left(pool, docs[i]), docs[i + 1..]);
            && done + SyncBlocks(syn, pool, docs[i..]).after == (done + [first.after]) + rest.after
            && SyncBlocks(syn, pool, docs[i..]).ok == (first.ok && rest.ok)
  {
    hide Typed, SyncNode, Taken, Left, KindOf;
    assert docs[i..][1..] == docs[i + 1..];
  }

  /** Write the documents in order, each onto the block it takes from the pool. */
  method WriteBlocks(syn: Syntax, pool0: seq<Block>, docs: seq<Doc>) returns (ordered: seq<Block>, ok: bool)
    requires forall k :: 0 <= k < |docs| ==> Typed(docs[k])
    ensures Edit(ordered, ok) == SyncBlocks(syn, pool0, docs)
    decreases docs, 0
  {
    hide Typed, SyncNode, SyncBlocks, Taken, Left, KindOf;
    ghost var goal := SyncBlocks(syn, pool0, docs);
    var pool := pool0;
    ordered, ok := [], true;
    assert docs[0..] == docs && [] + goal.after == goal.after;
    for i := 0 to |docs|
      invariant ordered + SyncBlocks(syn, pool, docs[i..]).after == goal.after
      invariant (ok && SyncBlocks(syn, pool, docs[i..]).ok) == goal.ok
    {
      BlocksStep(syn, pool, docs, i, ordered);
      var b;
      b, pool := TakeOrNew(pool, docs[i]);
      var editor := new Editor(b);
      var one := editor.Write(syn, docs[i]);
      ordered := ordered + [editor.block];
      ok := ok && one;
    }
    NothingLeft(syn, pool, docs, ordered);
  }

  lemma NothingLeft(syn: Syntax, pool: seq<Block>, docs: seq<Doc>, done: seq<Block>)
    requires forall k :: 0 <= k < |docs| ==> Typed(docs[k])
    ensures done + SyncBlocks(syn, pool, docs[|docs|..]).after == done && SyncBlocks(syn, pool, docs[|docs|..]).ok
  {
  }
}
