/** The editable syntax tree and its mutation helpers (docjson/src/wcl_edit.rs;
    the shared helpers of docjson/src/emit.rs:237-396), with the laws that say
    which observation of an item list each helper changes. */
module DocAst {
  import opened Wrappers

  datatype Expr =
    | Utf8(text: string)
    | Ascii(text: string)
    | BoolLit(b: bool)
    | I64(n: int)
    | OtherInt(n: int)
    | Float(token: string)
    | NotFinite
    | ListLit(elements: seq<Expr>)
    | Other(source: string)

  datatype Trivia = BlankLine | Comment(text: string)

  /** `meta` stands for decorators and the other parts no operation touches. */
  datatype Field = Field(name: string, expr: Expr, trivia: seq<Trivia>, meta: string)

  datatype Block = Block(kind: string, labels: seq<Expr>, items: seq<Item>, trivia: seq<Trivia>, meta: string)

  datatype Item = FieldItem(field: Field) | BlockItem(block: Block) | OtherItem(text: string)

  /** Which items a filter keeps. */
  datatype Test =
    | FieldNamed(name: string)
    | NotField(name: string)
    | BlockOf(kinds: set<string>)
    | NotBlockOf(kinds: set<string>)
    | Outside(names: set<string>, kinds: set<string>)

  predicate Passes(item: Item, t: Test)
  {
    match t
    case FieldNamed(name) => item.FieldItem? && item.field.name == name
    case NotField(name) => !(item.FieldItem? && item.field.name == name)
    case BlockOf(kinds) => item.BlockItem? && item.block.kind in kinds
    case NotBlockOf(kinds) => !(item.BlockItem? && item.block.kind in kinds)
    case Outside(names, kinds) =>
      !(item.FieldItem? && item.field.name in names) && !(item.BlockItem? && item.block.kind in kinds)
  }

  function Filter(items: seq<Item>, t: Test): (r: seq<Item>)
    ensures forall k :: 0 <= k < |r| ==> Passes(r[k], t)
  {
    if items == [] then [] else
      var rest := Filter(items[1..], t);
      if Passes(items[0], t) then [items[0]] + rest else rest
  }

  /** A test that no field of the given names and no block of the given kinds passes. */
  predicate Ignores(t: Test, names: set<string>, kinds: set<string>)
  {
    match t
    case FieldNamed(n) => n !in names
    case BlockOf(ks) => ks !! kinds
    case Outside(ns, ks) => names <= ns && kinds <= ks
    case _ => false
  }

  /** Two lists that differ at most in fields of the given names and blocks of the given kinds. */
  ghost predicate Agree(a: seq<Item>, b: seq<Item>, names: set<string>, kinds: set<string>)
  {
    forall t: Test {:trigger Filter(b, t)} :: Ignores(t, names, kinds) ==> Filter(b, t) == Filter(a, t)
  }

  // ------------------------------------------------------------------- fields

  function FindField(items: seq<Item>, name: string): Option<Expr>
  {
    var f := Filter(items, FieldNamed(name));
    if f == [] then None else Some(f[0].field.expr)
  }

  function SynthField(name: string, e: Expr): Field
  {
    Field(name, e, [], "")
  }

  /** Set the first field of that name in place, or append a new one. */
  function SetField(items: seq<Item>, name: string, e: Expr): seq<Item>
  {
    if items == [] then [FieldItem(SynthField(name, e))]
    else if Passes(items[0], FieldNamed(name)) then [FieldItem(items[0].field.(expr := e))] + items[1..]
    else [items[0]] + SetField(items[1..], name, e)
  }

  function DropField(items: seq<Item>, name: string): seq<Item>
  {
    Filter(items, NotField(name))
  }

  // ------------------------------------------------------------------- blocks

  function FirstBlock(items: seq<Item>, kind: string): Option<Block>
  {
    var f := Filter(items, BlockOf({kind}));
    if f == [] then None else Some(f[0].block)
  }

  function ReplaceFirstBlock(items: seq<Item>, kind: string, b: Block): seq<Item>
  {
    if items == [] then []
    else if Passes(items[0], BlockOf({kind})) then [BlockItem(b)] + items[1..]
    else [items[0]] + ReplaceFirstBlock(items[1..], kind, b)
  }

  function RemoveFirstBlock(items: seq<Item>, kind: string): seq<Item>
  {
    if items == [] then []
    else if Passes(items[0], BlockOf({kind})) then items[1..]
    else [items[0]] + RemoveFirstBlock(items[1..], kind)
  }

  /** The child blocks of the given kinds, in order. */
  function Managed(items: seq<Item>, kinds: set<string>): (r: seq<Block>)
    ensures forall k :: 0 <= k < |r| ==> r[k].kind in kinds
  {
    Unwrap(Filter(items, BlockOf(kinds)))
  }

  function Unwrap(items: seq<Item>): (r: seq<Block>)
    requires forall k :: 0 <= k < |items| ==> items[k].BlockItem?
    ensures |r| == |items| && forall k :: 0 <= k < |r| ==> r[k] == items[k].block
  {
    seq(|items|, k requires 0 <= k < |items| => items[k].block)
  }

  function Wrap(blocks: seq<Block>): seq<Item>
  {
    seq(|blocks|, k requires 0 <= k < |blocks| => BlockItem(blocks[k]))
  }

  /** What is left when the managed blocks are pulled out. */
  function Kept(items: seq<Item>, kinds: set<string>): seq<Item>
  {
    Filter(items, NotBlockOf(kinds))
  }

  /** Where among the kept items the managed region started; the end if nowhere. */
  function InsertAt(items: seq<Item>, kinds: set<string>): (at: nat)
    ensures at <= |Kept(items, kinds)|
  {
    if items == [] || Passes(items[0], BlockOf(kinds)) then 0 else 1 + InsertAt(items[1..], kinds)
  }

  function Mark(b: Block): Block
  {
    if BlankLine in b.trivia then b else b.(trivia := [BlankLine] + b.trivia)
  }

  /** Blank-line marks for a spliced region: every block but the very first item of an empty parent. */
  function MarkAll(blocks: seq<Block>, first: bool): (r: seq<Block>)
    ensures |r| == |blocks|
    ensures forall k :: 0 <= k < |r| ==> r[k] == if first && k == 0 then blocks[k] else Mark(blocks[k])
  {
    seq(|blocks|, k requires 0 <= k < |blocks| => if first && k == 0 then blocks[k] else Mark(blocks[k]))
  }

  /** Insert the doc-ordered blocks where the managed region started. */
  function Splice(kept: seq<Item>, at: nat, blocks: seq<Block>): seq<Item>
    requires at <= |kept|
  {
    kept[..at] + Wrap(MarkAll(blocks, kept == [])) + kept[at..]
  }

  /** The comments of a block: its leading trivia without blank-line markers. */
  function Comments(trivia: seq<Trivia>): seq<Trivia>
  {
    if trivia == [] then [] else (if trivia[0] == BlankLine then [] else [trivia[0]]) + Comments(trivia[1..])
  }

  /** Marking a block adds at most a blank line: its comments stay. */
  lemma MarkKeepsComments(b: Block)
    ensures Comments(Mark(b).trivia) == Comments(b.trivia)
    ensures Mark(b) == b.(trivia := Mark(b).trivia)
  {
  }

  // ------------------------------------------------------- laws of the helpers

  lemma {:induction false} FilterAppend(a: seq<Item>, b: seq<Item>, t: Test)
    ensures Filter(a + b, t) == Filter(a, t) + Filter(b, t)
  {
    if a == [] {
      assert a + b == b;
    } else {
      FilterAppend(a[1..], b, t);
      assert (a + b)[1..] == a[1..] + b;
    }
  }

  /** Filtering by one test and then another that never passes what the first dropped. */
  lemma {:induction false} FilterFilter(items: seq<Item>, s: Test, t: Test)
    requires forall i :: Passes(i, t) ==> Passes(i, s)
    ensures Filter(Filter(items, s), t) == Filter(items, t)
  {
    if items != [] {
      FilterFilter(items[1..], s, t);
    }
  }

  lemma {:induction false} FilterAll(items: seq<Item>, t: Test)
    requires forall k :: 0 <= k < |items| ==> Passes(items[k], t)
    ensures Filter(items, t) == items
  {
    if items != [] {
      FilterAll(items[1..], t);
    }
  }

  lemma {:induction false} FilterNone(items: seq<Item>, t: Test)
    requires forall k :: 0 <= k < |items| ==> !Passes(items[k], t)
    ensures Filter(items, t) == []
  {
    if items != [] {
      FilterNone(items[1..], t);
    }
  }

  lemma {:induction false} SetFieldLaw(items: seq<Item>, name: string, e: Expr)
    ensures FindField(SetField(items, name, e), name) == Some(e)
    ensures FindField(items, name) == Some(e) ==> SetField(items, name, e) == items
    ensures Agree(items, SetField(items, name, e), {name}, {})
  {
    if items != [] && !Passes(items[0], FieldNamed(name)) {
      SetFieldLaw(items[1..], name, e);
    }
  }

  lemma {:induction false} DropFieldLaw(items: seq<Item>, name: string)
    ensures FindField(DropField(items, name), name) == None
    ensures FindField(items, name) == None ==> DropField(items, name) == items
    ensures Agree(items, DropField(items, name), {name}, {})
  {
    FilterNone(DropField(items, name), FieldNamed(name));
    forall t: Test | Ignores(t, {name}, {}) ensures Filter(DropField(items, name), t) == Filter(items, t) {
      FilterFilter(items, NotField(name), t);
    }
    if FindField(items, name) == None {
      FilterEmpty(items, FieldNamed(name));
      FilterAll(items, NotField(name));
    }
  }

  lemma {:induction false} FilterEmpty(items: seq<Item>, t: Test)
    requires Filter(items, t) == []
    ensures forall k :: 0 <= k < |items| ==> !Passes(items[k], t)
  {
    if items != [] {
      FilterEmpty(items[1..], t);
    }
  }

  /** Writing a child block of a kind changes only what is seen of that kind. */
  lemma {:induction false} ReplaceFirstBlockLaw(items: seq<Item>, kind: string, b: Block)
    requires FirstBlock(items, kind).Some? && b.kind == kind
    ensures FirstBlock(ReplaceFirstBlock(items, kind, b), kind) == Some(b)
    ensures FirstBlock(items, kind) == Some(b) ==> ReplaceFirstBlock(items, kind, b) == items
    ensures Agree(items, ReplaceFirstBlock(items, kind, b), {}, {kind})
  {
    if !Passes(items[0], BlockOf({kind})) {
      ReplaceFirstBlockLaw(items[1..], kind, b);
    }
  }

  lemma {:induction false} RemoveFirstBlockLaw(items: seq<Item>, kind: string)
    ensures |Filter(items, BlockOf({kind}))| <= 1 ==> FirstBlock(RemoveFirstBlock(items, kind), kind) == None
    ensures FirstBlock(items, kind) == None ==> RemoveFirstBlock(items, kind) == items
    ensures Agree(items, RemoveFirstBlock(items, kind), {}, {kind})
  {
    if items != [] && !Passes(items[0], BlockOf({kind})) {
      RemoveFirstBlockLaw(items[1..], kind);
    }
  }

  lemma AppendBlockLaw(items: seq<Item>, b: Block)
    requires FirstBlock(items, b.kind) == None
    ensures FirstBlock(items + [BlockItem(b)], b.kind) == Some(b)
    ensures Agree(items, items + [BlockItem(b)], {}, {b.kind})
  {
    FilterAppend(items, [BlockItem(b)], BlockOf({b.kind}));
    forall t: Test | Ignores(t, {}, {b.kind})
      ensures Filter(items + [BlockItem(b)], t) == Filter(items, t)
    {
      FilterAppend(items, [BlockItem(b)], t);
    }
  }

  // -------------------------------------------------------- laws of the splice

  lemma {:induction false} InsertAtAppend(a: seq<Item>, b: seq<Item>, kinds: set<string>)
    ensures Managed(a, kinds) == [] ==> InsertAt(a + b, kinds) == |a| + InsertAt(b, kinds)
    ensures Managed(a, kinds) != [] ==> InsertAt(a + b, kinds) == InsertAt(a, kinds)
  {
    if a == [] {
      assert a + b == b;
    } else {
      assert (a + b)[1..] == a[1..] + b;
      InsertAtAppend(a[1..], b, kinds);
    }
  }

  lemma WrapFilters(blocks: seq<Block>, kinds: set<string>)
    requires forall k :: 0 <= k < |blocks| ==> blocks[k].kind in kinds
    ensures Filter(Wrap(blocks), BlockOf(kinds)) == Wrap(blocks)
    ensures Filter(Wrap(blocks), NotBlockOf(kinds)) == []
    ensures Unwrap(Wrap(blocks)) == blocks
    ensures forall t: Test :: Ignores(t, {}, kinds) ==> Filter(Wrap(blocks), t) == []
  {
    FilterAll(Wrap(blocks), BlockOf(kinds));
    FilterNone(Wrap(blocks), NotBlockOf(kinds));
    forall t: Test | Ignores(t, {}, kinds) ensures Filter(Wrap(blocks), t) == [] {
      FilterNone(Wrap(blocks), t);
    }
  }

  lemma FilterThree(p: seq<Item>, q: seq<Item>, s: seq<Item>, t: Test)
    ensures Filter(p + q + s, t) == Filter(p, t) + Filter(q, t) + Filter(s, t)
  {
    FilterAppend(p + q, s, t);
    FilterAppend(p, q, t);
  }

  ghost predicate NoneManaged(items: seq<Item>, kinds: set<string>)
  {
    forall k :: 0 <= k < |items| ==> !Passes(items[k], BlockOf(kinds))
  }

  lemma NoneManagedFilters(items: seq<Item>, kinds: set<string>)
    requires NoneManaged(items, kinds)
    ensures Filter(items, NotBlockOf(kinds)) == items && Filter(items, BlockOf(kinds)) == [] &&
            Managed(items, kinds) == []
  {
  }

  lemma RegionFilters(p: seq<Item>, blocks: seq<Block>, s: seq<Item>, kinds: set<string>)
    requires NoneManaged(p, kinds) && NoneManaged(s, kinds)
    requires forall k :: 0 <= k < |blocks| ==> blocks[k].kind in kinds
    ensures Filter(p + Wrap(blocks) + s, NotBlockOf(kinds)) == p + s
    ensures Filter(p + Wrap(blocks) + s, BlockOf(kinds)) == Wrap(blocks)
  {
    hide Filter, NoneManaged;
    NoneManagedFilters(p, kinds);
    NoneManagedFilters(s, kinds);
    WrapFilters(blocks, kinds);
    FilterThree(p, Wrap(blocks), s, NotBlockOf(kinds));
    FilterThree(p, Wrap(blocks), s, BlockOf(kinds));
    assert p + [] + s == p + s && [] + Wrap(blocks) + [] == Wrap(blocks);
  }

  lemma RegionStart(p: seq<Item>, blocks: seq<Block>, s: seq<Item>, kinds: set<string>)
    requires NoneManaged(p, kinds) && blocks != [] && blocks[0].kind in kinds
    ensures InsertAt(p + Wrap(blocks) + s, kinds) == |p|
  {
    hide Filter;
    NoneManagedFilters(p, kinds);
    hide NoneManaged;
    assert p + Wrap(blocks) + s == p + (Wrap(blocks) + s);
    InsertAtAppend(p, Wrap(blocks) + s, kinds);
    assert (Wrap(blocks) + s)[0] == BlockItem(blocks[0]);
  }

  /** A list laid out as unmanaged items around one contiguous managed region. */
  lemma RegionLaw(p: seq<Item>, blocks: seq<Block>, s: seq<Item>, kinds: set<string>)
    requires NoneManaged(p, kinds) && NoneManaged(s, kinds)
    requires forall k :: 0 <= k < |blocks| ==> blocks[k].kind in kinds
    ensures Kept(p + Wrap(blocks) + s, kinds) == p + s
    ensures Managed(p + Wrap(blocks) + s, kinds) == blocks
    ensures blocks != [] ==> InsertAt(p + Wrap(blocks) + s, kinds) == |p|
  {
    hide Filter, InsertAt;
    RegionFilters(p, blocks, s, kinds);
    if blocks != [] {
      RegionStart(p, blocks, s, kinds);
    }
    hide NoneManaged;
    WrapFilters(blocks, kinds);
  }

  /** What a splice shows: the marked blocks of the managed kinds, and nothing else changed. */
  lemma SpliceLaw(items: seq<Item>, kinds: set<string>, blocks: seq<Block>)
    requires forall k :: 0 <= k < |blocks| ==> blocks[k].kind in kinds
    ensures var kept := Kept(items, kinds);
            var r := Splice(kept, InsertAt(items, kinds), blocks);
            && Kept(r, kinds) == kept
            && Managed(r, kinds) == MarkAll(blocks, kept == [])
            && (blocks != [] ==> InsertAt(r, kinds) == InsertAt(items, kinds))
  {
    var kept, at := Kept(items, kinds), InsertAt(items, kinds);
    assert kept[..at] + kept[at..] == kept;
    RegionLaw(kept[..at], MarkAll(blocks, kept == []), kept[at..], kinds);
  }

  lemma SpliceAgrees(items: seq<Item>, kinds: set<string>, blocks: seq<Block>)
    requires forall k :: 0 <= k < |blocks| ==> blocks[k].kind in kinds
    ensures Agree(items, Splice(Kept(items, kinds), InsertAt(items, kinds), blocks), {}, kinds)
  {
    hide Filter, InsertAt;
    var kept, at := Kept(items, kinds), InsertAt(items, kinds);
    var marked := MarkAll(blocks, kept == []);
    WrapFilters(marked, kinds);
    assert kept[..at] + kept[at..] == kept;
    forall t: Test | Ignores(t, {}, kinds) ensures Filter(Splice(kept, at, blocks), t) == Filter(items, t) {
      FilterThree(kept[..at], Wrap(marked), kept[at..], t);
      FilterAppend(kept[..at], kept[at..], t);
      FilterFilter(items, NotBlockOf(kinds), t);
    }
  }

  // ---------------------------------------------------- regions left in place

  /** A contiguous, marked region that a re-splice of its own blocks leaves alone. */
  ghost predicate InPlace(items: seq<Item>, kinds: set<string>)
  {
    Splice(Kept(items, kinds), InsertAt(items, kinds), Managed(items, kinds)) == items
  }

  lemma AgreeChain(a: seq<Item>, b: seq<Item>, c: seq<Item>, names: set<string>, kinds: set<string>,
                   names1: set<string>, kinds1: set<string>, names2: set<string>, kinds2: set<string>)
    requires Agree(a, b, names1, kinds1) && Agree(b, c, names2, kinds2)
    requires names1 <= names && names2 <= names && kinds1 <= kinds && kinds2 <= kinds
    ensures Agree(a, c, names, kinds)
  {
  }

  lemma SpliceNothing(items: seq<Item>)
    ensures InPlace(items, {}) && Managed(items, {}) == []
  {
    FilterAll(items, NotBlockOf({}));
    FilterNone(items, BlockOf({}));
    hide Filter;
    var at := InsertAt(items, {});
    assert items[..at] + Wrap(MarkAll([], items == [])) + items[at..] == items;
  }

  lemma SpliceEmpty(kept: seq<Item>, at: nat)
    requires at <= |kept|
    ensures Splice(kept, at, []) == kept
  {
  }

  lemma SpliceInPlace(items: seq<Item>, kinds: set<string>, blocks: seq<Block>)
    requires forall k :: 0 <= k < |blocks| ==> blocks[k].kind in kinds
    ensures InPlace(Splice(Kept(items, kinds), InsertAt(items, kinds), blocks), kinds)
  {
    var kept, at := Kept(items, kinds), InsertAt(items, kinds);
    SpliceLaw(items, kinds, blocks);
    assert MarkAll(MarkAll(blocks, kept == []), kept == []) == MarkAll(blocks, kept == []);
    hide Filter, InsertAt, Kept, Managed;
    if blocks == [] {
      SpliceEmpty(kept, at);
      assert MarkAll([], kept == []) == [];
      SpliceEmpty(kept, InsertAt(kept, kinds));
    } else {
      hide Splice, MarkAll;
      SpliceMarked(kept, at, blocks);
    }
  }

  lemma SpliceMarked(kept: seq<Item>, at: nat, blocks: seq<Block>)
    requires at <= |kept|
    ensures Splice(kept, at, MarkAll(blocks, kept == [])) == Splice(kept, at, blocks)
  {
  }

  lemma {:induction false} FieldKeeps(items: seq<Item>, kinds: set<string>, name: string)
    requires FindField(items, name).Some?
    ensures Kept(items, kinds) != []
  {
    if !Passes(items[0], FieldNamed(name)) {
      FieldKeeps(items[1..], kinds, name);
    }
  }

  lemma CutLeft(p: seq<Item>, w: seq<Item>, s: seq<Item>, at: nat, m: seq<Item>)
    requires at <= |p|
    ensures (p + w + s)[..at] + m + (p + w + s)[at..] == (p[..at] + m + p[at..]) + w + s
  {
  }

  lemma CutRight(p: seq<Item>, w: seq<Item>, s: seq<Item>, j: nat, m: seq<Item>)
    requires j <= |s|
    ensures var at := |p| + |w| + j;
            (p + w + s)[..at] + m + (p + w + s)[at..] == p + w + (s[..j] + m + s[j..])
  {
  }

  lemma NoneAround(items: seq<Item>, at: nat, more: seq<Block>, kinds: set<string>, others: set<string>)
    requires NoneManaged(items, kinds) && at <= |items| && kinds !! others
    requires forall k :: 0 <= k < |more| ==> more[k].kind in others
    ensures NoneManaged(items[..at] + Wrap(more) + items[at..], kinds)
  {
  }

  /** Where a second region starts relative to the first: wholly before it or wholly after. */
  lemma SecondStart(p: seq<Item>, blocks: seq<Block>, s: seq<Item>, kinds: set<string>, others: set<string>)
    requires kinds !! others
    requires forall k :: 0 <= k < |blocks| ==> blocks[k].kind in kinds
    ensures var items := p + Wrap(blocks) + s;
            && Kept(items, others) == Kept(p, others) + Wrap(blocks) + Kept(s, others)
            && (InsertAt(items, others) <= |Kept(p, others)|
                || InsertAt(items, others) == |Kept(p, others)| + |blocks| + InsertAt(s, others))
  {
    hide Filter, InsertAt;
    FilterThree(p, Wrap(blocks), s, NotBlockOf(others));
    OthersStay(blocks, kinds, others);
    assert p + Wrap(blocks) + s == p + (Wrap(blocks) + s);
    InsertAtAppend(p, Wrap(blocks) + s, others);
    if Managed(p, others) == [] {
      NoneOf(p, others);
      NoneOf(Wrap(blocks), others);
    }
  }

  lemma SecondRegion(p: seq<Item>, blocks: seq<Block>, s: seq<Item>, kinds: set<string>, others: set<string>,
                     more: seq<Block>)
    returns (p': seq<Item>, s': seq<Item>)
    requires kinds !! others && NoneManaged(p, kinds) && NoneManaged(s, kinds)
    requires forall k :: 0 <= k < |blocks| ==> blocks[k].kind in kinds
    requires forall k :: 0 <= k < |more| ==> more[k].kind in others
    ensures NoneManaged(p', kinds) && NoneManaged(s', kinds)
    ensures var items := p + Wrap(blocks) + s;
            Splice(Kept(items, others), InsertAt(items, others), more) == p' + Wrap(blocks) + s'
  {
    hide Filter, InsertAt;
    NoneManagedKept(p, kinds, others);
    NoneManagedKept(s, kinds, others);
    hide NoneManaged;
    var items := p + Wrap(blocks) + s;
    SecondStart(p, blocks, s, kinds, others);
    var kp, ks := Kept(p, others), Kept(s, others);
    var marked := MarkAll(more, Kept(items, others) == []);
    var at := InsertAt(items, others);
    hide Managed;
    if at <= |kp| {
      p', s' := kp[..at] + Wrap(marked) + kp[at..], ks;
      CutLeft(kp, Wrap(blocks), ks, at, Wrap(marked));
      NoneAround(kp, at, marked, kinds, others);
    } else {
      var j := InsertAt(s, others);
      p', s' := kp, ks[..j] + Wrap(marked) + ks[j..];
      CutRight(kp, Wrap(blocks), ks, j, Wrap(marked));
      NoneAround(ks, j, marked, kinds, others);
    }
  }

  lemma NoneOf(items: seq<Item>, kinds: set<string>)
    requires Managed(items, kinds) == []
    ensures Kept(items, kinds) == items &&
            (forall more :: InsertAt(items + more, kinds) == |items| + InsertAt(more, kinds))
  {
    FilterEmpty(items, BlockOf(kinds));
    FilterAll(items, NotBlockOf(kinds));
    forall more ensures InsertAt(items + more, kinds) == |items| + InsertAt(more, kinds) {
      InsertAtAppend(items, more, kinds);
    }
  }

  lemma OthersStay(blocks: seq<Block>, kinds: set<string>, others: set<string>)
    requires kinds !! others
    requires forall k :: 0 <= k < |blocks| ==> blocks[k].kind in kinds
    ensures Filter(Wrap(blocks), NotBlockOf(others)) == Wrap(blocks) && Managed(Wrap(blocks), others) == []
  {
    FilterAll(Wrap(blocks), NotBlockOf(others));
    FilterNone(Wrap(blocks), BlockOf(others));
  }

  lemma {:induction false} FilterFrom(items: seq<Item>, t: Test)
    ensures forall k :: 0 <= k < |Filter(items, t)| ==> Filter(items, t)[k] in items
  {
    if items != [] {
      FilterFrom(items[1..], t);
    }
  }

  lemma NoneManagedKept(items: seq<Item>, kinds: set<string>, others: set<string>)
    requires NoneManaged(items, kinds)
    ensures NoneManaged(Kept(items, others), kinds)
  {
    FilterFrom(items, NotBlockOf(others));
  }

  /** A settled region stays settled when a region of other kinds is spliced into the same block. */
  lemma OtherRegionKept(items: seq<Item>, kinds: set<string>, others: set<string>, more: seq<Block>, name: string)
    requires kinds !! others && InPlace(items, kinds) && FindField(items, name).Some?
    requires forall k :: 0 <= k < |more| ==> more[k].kind in others
    ensures InPlace(Splice(Kept(items, others), InsertAt(items, others), more), kinds)
  {
    hide Filter, InsertAt;
    var kept, at, blocks := Kept(items, kinds), InsertAt(items, kinds), Managed(items, kinds);
    FieldKeeps(items, kinds, name);
    var marked := MarkAll(blocks, false);
    SpliceLaw(items, kinds, blocks);
    assert marked == blocks;
    KeptNone(items, kinds);
    var p, s := kept[..at], kept[at..];
    assert items == p + Wrap(blocks) + s;
    var p', s' := SecondRegion(p, blocks, s, kinds, others, more);
    var r := p' + Wrap(blocks) + s';
    RegionLaw(p', blocks, s', kinds);
    SpliceAgrees(items, others, more);
    assert Filter(r, FieldNamed(name)) == Filter(items, FieldNamed(name));
    FieldKeeps(r, kinds, name);
    if blocks == [] {
      var at' := InsertAt(r, kinds);
      var k := p' + s';
      assert k[..at'] + [] + k[at'..] == k;
    } else {
      assert (p' + s')[..|p'|] == p' && (p' + s')[|p'|..] == s';
    }
  }

  lemma KeptNone(items: seq<Item>, kinds: set<string>)
    ensures NoneManaged(Kept(items, kinds), kinds)
  {
  }
}
