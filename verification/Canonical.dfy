/** The canonical text of a script value (src/convert.rs:242-285). */
module Canonical {
  import opened VersionOrder
  import Texts

  /** A script value; a float is known by the text its debug form prints. */
  datatype Value =
    | Null
    | Bool(b: bool)
    | Int(n: int)
    | Float(token: string)
    | Str(s: string)
    | List(items: seq<Value>)
    | Map(m: map<string, Value>)

  // ---------------------------------------------------------------------- tokens

  function IntText(n: int): string
  {
    if n < 0 then "-" + Texts.Decimal(-n) else Texts.Decimal(n)
  }

  predicate Delimiter(c: char)
  {
    c == ',' || c == ']' || c == '}'
  }

  predicate NumberStart(c: char)
  {
    '0' <= c <= '9' || c == '-' || c == 'i' || c == 'N'
  }

  /** What float debug texts are like: they start like a number, `inf` or `NaN`, hold no
      delimiter and are never the text of an integer. */
  ghost predicate FloatText(t: string)
  {
    && t != [] && NumberStart(t[0])
    && (forall k :: 0 <= k < |t| ==> !Delimiter(t[k]))
    && (forall n :: IntText(n) != t)
  }

  ghost predicate FloatsOk(v: Value)
  {
    match v
    case Float(t) => FloatText(t)
    case List(items) => forall k :: 0 <= k < |items| ==> FloatsOk(items[k])
    case Map(m) => forall k :: k in m ==> FloatsOk(m[k])
    case _ => true
  }

  /** The quoted debug form of keys: self-delimiting, so no key's text continues into another's. */
  ghost predicate KeyText(dbg: string -> string)
  {
    && (forall k :: dbg(k) != [] && dbg(k)[0] == '"')
    && (forall k, l, r, s :: dbg(k) + r == dbg(l) + s ==> k == l)
  }

  // --------------------------------------------------------------- string escapes

  /** Every occurrence of a character replaced by a text. */
  function Replace(s: string, c: char, sub: string): string
  {
    if s == [] then [] else (if s[0] == c then sub else [s[0]]) + Replace(s[1..], c, sub)
  }

  const BACKSLASH := '\\'
  const QUOTE := '\"'

  function Escaped(s: string): string
  {
    Replace(Replace(s, BACKSLASH, [BACKSLASH, BACKSLASH]), QUOTE, [BACKSLASH, QUOTE])
  }

  function EscapedChar(c: char): string
  {
    if c == BACKSLASH || c == QUOTE then [BACKSLASH, c] else [c]
  }

  lemma {:induction false} ReplaceAppend(a: string, b: string, c: char, sub: string)
    ensures Replace(a + b, c, sub) == Replace(a, c, sub) + Replace(b, c, sub)
  {
    if a == [] {
      assert a + b == b;
    } else {
      assert (a + b)[1..] == a[1..] + b;
      ReplaceAppend(a[1..], b, c, sub);
    }
  }

  /** The two replacements together escape character by character. */
  lemma EscapedCons(s: string)
    requires s != []
    ensures Escaped(s) == EscapedChar(s[0]) + Escaped(s[1..])
  {
    var first := if s[0] == BACKSLASH then [BACKSLASH, BACKSLASH] else [s[0]];
    ReplaceAppend(first, Replace(s[1..], BACKSLASH, [BACKSLASH, BACKSLASH]), QUOTE, [BACKSLASH, QUOTE]);
    EscapeOne(s[0]);
  }

  lemma EscapeOne(c: char)
    ensures Replace(if c == BACKSLASH then [BACKSLASH, BACKSLASH] else [c], QUOTE, [BACKSLASH, QUOTE]) == EscapedChar(c)
  {
    var sub := [BACKSLASH, QUOTE];
    assert Replace([], QUOTE, sub) == [];
    if c == BACKSLASH {
      assert [c, c][1..] == [c] && [c][1..] == [];
      assert Replace([c], QUOTE, sub) == [c];
    } else {
      assert [c][1..] == [];
    }
  }

  lemma CharDecodes(c: char, r: string, d: char, s: string)
    requires EscapedChar(c) + r == EscapedChar(d) + s
    ensures c == d && r == s
  {
    var x, y, n := EscapedChar(c) + r, EscapedChar(d) + s, |EscapedChar(c)|;
    assert x[0] == EscapedChar(c)[0] && y[0] == EscapedChar(d)[0];
    assert n == 2 ==> x[1] == c;
    assert |EscapedChar(d)| == 2 ==> y[1] == d;
    assert c == d;
    assert x[n..] == r && y[n..] == s;
  }

  lemma Cancel(p: string, r: string, s: string)
    requires p + r == p + s
    ensures r == s
  {
    assert (p + r)[|p|..] == r && (p + s)[|p|..] == s;
  }

  /** The escaped string, its closing quote, and what follows. */
  function Quoted(s: string, tail: string): string
  {
    if s == [] then [QUOTE] + tail else EscapedChar(s[0]) + Quoted(s[1..], tail)
  }

  lemma {:induction false} QuotedIsEscaped(s: string, tail: string)
    ensures Quoted(s, tail) == Escaped(s) + [QUOTE] + tail
  {
    if s == [] {
      assert Escaped(s) == [];
    } else {
      EscapedCons(s);
      QuotedIsEscaped(s[1..], tail);
      hide Escaped, EscapedChar;
    }
  }

  lemma QuotedHead(a: string, tail: string)
    ensures Quoted(a, tail)[0] == QUOTE <==> a == []
  {
  }

  /** A quoted string ends at its own closing quote, so its text decides it. */
  lemma {:induction false} QuotedDecodes(a: string, r: string, b: string, s: string)
    requires Quoted(a, r) == Quoted(b, s)
    ensures a == b && r == s
  {
    QuotedHead(a, r);
    QuotedHead(b, s);
    hide EscapedChar;
    if a == [] {
      Cancel([QUOTE], r, s);
    } else {
      CharDecodes(a[0], Quoted(a[1..], r), b[0], Quoted(b[1..], s));
      QuotedDecodes(a[1..], r, b[1..], s);
      assert a == [a[0]] + a[1..] && b == [b[0]] + b[1..];
    }
  }

  // ------------------------------------------------------------------ sorted keys

  predicate Least(k: string, s: set<string>)
  {
    k in s && forall j :: j in s ==> CmpText(k, j) != Greater
  }

  lemma HasLeast(s: set<string>) returns (k: string)
    requires s != {}
    ensures Least(k, s)
    decreases |s|
  {
    hide CmpText;
    var j :| j in s;
    TextOrder(j, j, j);
    if s == {j} {
      k := j;
    } else {
      var rest := s - {j};
      assert s == rest + {j};
      var l := HasLeast(rest);
      TextOrder(j, l, j);
      TextOrder(l, j, l);
      k := if CmpText(j, l) == Greater then l else j;
      forall i | i in s ensures CmpText(k, i) != Greater {
        if i != j {
          TextOrder(k, l, i);
        }
      }
    }
  }

  /** The keys of a map in sorted order. */
  ghost function SortedKeys(s: set<string>): (r: seq<string>)
    ensures forall k :: k in r <==> k in s
    decreases |s|
  {
    if s == {} then [] else
      assert exists k :: Least(k, s) by {
        var k := HasLeast(s);
      }
      var k :| Least(k, s);
      assert s == {k} + (s - {k});
      [k] + SortedKeys(s - {k})
  }

  // ------------------------------------------------------------------- the writer

  /** A value's text followed by what is written after it. */
  ghost function Canon(dbg: string -> string, v: Value, tail: string): string
    decreases v, 1, 0
  {
    match v
    case Null => "null" + tail
    case Bool(b) => (if b then "true" else "false") + tail
    case Int(n) => IntText(n) + tail
    case Float(t) => t + tail
    case Str(s) => [QUOTE] + Quoted(s, tail)
    case List(items) => "[" + Items(dbg, items, tail)
    case Map(m) => "{" + Entries(dbg, v, SortedKeys(m.Keys), tail)
  }

  ghost function Items(dbg: string -> string, items: seq<Value>, tail: string): string
    decreases items, 0, 1
  {
    if items == [] then "]" + tail
    else Canon(dbg, items[0], AfterItem(dbg, items, tail))
  }

  /** What follows the first item: the closing bracket, or a comma and the other items. */
  ghost function AfterItem(dbg: string -> string, items: seq<Value>, tail: string): string
    requires items != []
    decreases items, 0, 0
  {
    if |items| == 1 then "]" + tail else "," + Items(dbg, items[1..], tail)
  }

  ghost function Entries(dbg: string -> string, v: Value, keys: seq<string>, tail: string): string
    requires v.Map? && forall k :: k in keys ==> k in v.m
    decreases v, 0, |keys|, 1
  {
    if keys == [] then "}" + tail
    else
      assert keys[0] in keys;
      dbg(keys[0]) + (":" + Canon(dbg, v.m[keys[0]], AfterEntry(dbg, v, keys, tail)))
  }

  ghost function AfterEntry(dbg: string -> string, v: Value, keys: seq<string>, tail: string): string
    requires v.Map? && keys != [] && forall k :: k in keys ==> k in v.m
    decreases v, 0, |keys|, 0
  {
    if |keys| == 1 then "}" + tail else "," + Entries(dbg, v, keys[1..], tail)
  }

  ghost function Canonicalise(dbg: string -> string, v: Value): string
  {
    Canon(dbg, v, "")
  }

  // ------------------------------------------------------------------- injectivity

  function TagOf(c: char): nat
  {
    if c == 'n' then 0 else if c == 't' then 1 else if c == 'f' then 2 else if NumberStart(c) then 3
    else if c == QUOTE then 4 else if c == '[' then 5 else if c == '{' then 6 else 7
  }

  function Tag(v: Value): nat
  {
    match v
    case Null => 0
    case Bool(b) => if b then 1 else 2
    case Int(_) => 3
    case Float(_) => 3
    case Str(_) => 4
    case List(_) => 5
    case Map(_) => 6
  }

  ghost predicate Ends(r: string)
  {
    r == [] || Delimiter(r[0])
  }

  lemma IntHead(n: int)
    ensures IntText(n) != [] && NumberStart(IntText(n)[0])
    ensures forall k :: 0 <= k < |IntText(n)| ==> !Delimiter(IntText(n)[k])
  {
    Texts.DecimalReads(if n < 0 then -n else n);
  }

  lemma IntTextInjective(m: int, n: int)
    requires IntText(m) == IntText(n)
    ensures m == n
  {
    var a, b := if m < 0 then -m else m, if n < 0 then -n else n;
    Texts.DecimalReads(a);
    Texts.DecimalReads(b);
    hide Texts.Decimal, Texts.Numeral;
    assert m < 0 <==> IntText(m)[0] == '-';
    assert n < 0 <==> IntText(n)[0] == '-';
    if m < 0 {
      Cancel("-", Texts.Decimal(a), Texts.Decimal(b));
    }
  }

  lemma HeadTag(dbg: string -> string, v: Value, tail: string)
    requires FloatsOk(v)
    ensures Canon(dbg, v, tail) != [] && TagOf(Canon(dbg, v, tail)[0]) == Tag(v)
  {
    if v.Int? {
      IntHead(v.n);
    }
    hide IntText, Quoted, Items, Entries;
  }

  lemma TokenDecodes(t: string, r: string, u: string, s: string)
    requires forall k :: 0 <= k < |t| ==> !Delimiter(t[k])
    requires forall k :: 0 <= k < |u| ==> !Delimiter(u[k])
    requires Ends(r) && Ends(s) && t + r == u + s
    ensures t == u && r == s
  {
    NotShorter(t, r, u, s);
    NotShorter(u, s, t, r);
    assert (t + r)[..|t|] == t && (u + s)[..|t|] == u;
    Cancel(t, r, s);
  }

  lemma NotShorter(t: string, r: string, u: string, s: string)
    requires forall k :: 0 <= k < |u| ==> !Delimiter(u[k])
    requires Ends(r) && t + r == u + s
    ensures |t| >= |u|
  {
    if |t| < |u| {
      Overlap(t, r, u, s);
    }
  }

  lemma Overlap(t: string, r: string, u: string, s: string)
    requires t + r == u + s && |t| < |u|
    ensures r != [] && r[0] == u[|t|]
  {
    assert (t + r)[|t|] == (u + s)[|t|] == u[|t|];
  }

  /** The text of a value, followed by anything a value can be followed by, decides the value. */
  lemma Decodes(dbg: string -> string, a: Value, r: string, b: Value, s: string)
    requires KeyText(dbg) && FloatsOk(a) && FloatsOk(b) && Ends(r) && Ends(s)
    requires Canon(dbg, a, r) == Canon(dbg, b, s)
    ensures a == b && r == s
    decreases a, 1, 0
  {
    HeadTag(dbg, a, r);
    HeadTag(dbg, b, s);
    hide IntText, Quoted, Items, Entries, KeyText, FloatText;
    match Tag(a)
    case 3 => NumberDecodes(dbg, a, r, b, s);
    case 4 =>
      Cancel([QUOTE], Quoted(a.s, r), Quoted(b.s, s));
      QuotedDecodes(a.s, r, b.s, s);
    case 5 =>
      Cancel("[", Items(dbg, a.items, r), Items(dbg, b.items, s));
      ItemsDecode(dbg, a.items, r, b.items, s);
    case 6 =>
      var ks, ls := SortedKeys(a.m.Keys), SortedKeys(b.m.Keys);
      Cancel("{", Entries(dbg, a, ks, r), Entries(dbg, b, ls, s));
      EntriesDecode(dbg, a, ks, r, b, ls, s);
      SameMap(a.m, b.m);
    case 0 => Cancel("null", r, s);
    case 1 => Cancel("true", r, s);
    case 2 => Cancel("false", r, s);
  }

  lemma SameMap(m: map<string, Value>, n: map<string, Value>)
    requires SortedKeys(m.Keys) == SortedKeys(n.Keys)
    requires forall k :: k in SortedKeys(m.Keys) && k in m && k in n ==> m[k] == n[k]
    ensures m == n
  {
  }

  lemma NumberDecodes(dbg: string -> string, a: Value, r: string, b: Value, s: string)
    requires Tag(a) == 3 && Tag(b) == 3 && FloatsOk(a) && FloatsOk(b) && Ends(r) && Ends(s)
    requires Canon(dbg, a, r) == Canon(dbg, b, s)
    ensures a == b && r == s
  {
    if a.Int? {
      IntHead(a.n);
    }
    if b.Int? {
      IntHead(b.n);
    }
    TokenDecodes(if a.Int? then IntText(a.n) else a.token, r, if b.Int? then IntText(b.n) else b.token, s);
    if a.Int? && b.Int? {
      IntTextInjective(a.n, b.n);
    }
  }

  lemma ItemsHead(dbg: string -> string, xs: seq<Value>, r: string)
    requires forall k :: 0 <= k < |xs| ==> FloatsOk(xs[k])
    ensures Items(dbg, xs, r) != [] && (TagOf(Items(dbg, xs, r)[0]) == 7 <==> xs == [])
    ensures xs != [] ==> AfterItem(dbg, xs, r) != [] && Ends(AfterItem(dbg, xs, r))
    ensures xs != [] ==> (AfterItem(dbg, xs, r)[0] == ']' <==> |xs| == 1)
  {
    if xs != [] {
      HeadTag(dbg, xs[0], AfterItem(dbg, xs, r));
      hide Canon;
    }
  }

  lemma ItemsDecode(dbg: string -> string, xs: seq<Value>, r: string, ys: seq<Value>, s: string)
    requires KeyText(dbg)
    requires forall k :: 0 <= k < |xs| ==> FloatsOk(xs[k])
    requires forall k :: 0 <= k < |ys| ==> FloatsOk(ys[k])
    requires Items(dbg, xs, r) == Items(dbg, ys, s)
    ensures xs == ys && r == s
    decreases xs, 0, 0
  {
    ItemsHead(dbg, xs, r);
    ItemsHead(dbg, ys, s);
    hide Canon, FloatsOk, KeyText;
    if xs == [] {
      Cancel("]", r, s);
    } else {
      Decodes(dbg, xs[0], AfterItem(dbg, xs, r), ys[0], AfterItem(dbg, ys, s));
      hide Items;
      assert xs == [xs[0]] + xs[1..] && ys == [ys[0]] + ys[1..];
      if |xs| == 1 {
        Cancel("]", r, s);
      } else {
        Cancel(",", Items(dbg, xs[1..], r), Items(dbg, ys[1..], s));
        ItemsDecode(dbg, xs[1..], r, ys[1..], s);
      }
    }
  }

  lemma EntriesHead(dbg: string -> string, a: Value, ks: seq<string>, r: string)
    requires KeyText(dbg) && a.Map? && forall k :: k in ks ==> k in a.m
    ensures Entries(dbg, a, ks, r) != [] && (Entries(dbg, a, ks, r)[0] == '}' <==> ks == [])
    ensures ks != [] ==> ks[0] in a.m && AfterEntry(dbg, a, ks, r) != [] && Ends(AfterEntry(dbg, a, ks, r))
    ensures ks != [] ==> (AfterEntry(dbg, a, ks, r)[0] == '}' <==> |ks| == 1)
  {
  }

  lemma EntriesDecode(dbg: string -> string, a: Value, ks: seq<string>, r: string, b: Value, ls: seq<string>, s: string)
    requires KeyText(dbg) && FloatsOk(a) && FloatsOk(b) && a.Map? && b.Map?
    requires (forall k :: k in ks ==> k in a.m) && (forall k :: k in ls ==> k in b.m)
    requires Entries(dbg, a, ks, r) == Entries(dbg, b, ls, s)
    ensures ks == ls && r == s && forall k :: k in ks ==> a.m[k] == b.m[k]
    decreases a, 0, |ks|
  {
    EntriesHead(dbg, a, ks, r);
    EntriesHead(dbg, b, ls, s);
    hide Canon;
    if ks == [] {
      Cancel("}", r, s);
    } else {
      var p, q := AfterEntry(dbg, a, ks, r), AfterEntry(dbg, b, ls, s);
      KeyDecodes(dbg, ks[0], ":" + Canon(dbg, a.m[ks[0]], p), ls[0], ":" + Canon(dbg, b.m[ls[0]], q));
      Cancel(":", Canon(dbg, a.m[ks[0]], p), Canon(dbg, b.m[ls[0]], q));
      hide Entries, KeyText;
      Decodes(dbg, a.m[ks[0]], p, b.m[ls[0]], q);
      assert ks == [ks[0]] + ks[1..] && ls == [ls[0]] + ls[1..];
      if |ks| == 1 {
        Cancel("}", r, s);
      } else {
        Cancel(",", Entries(dbg, a, ks[1..], r), Entries(dbg, b, ls[1..], s));
        EntriesDecode(dbg, a, ks[1..], r, b, ls[1..], s);
      }
    }
  }

  lemma KeyDecodes(dbg: string -> string, k: string, r: string, l: string, s: string)
    requires KeyText(dbg) && dbg(k) + r == dbg(l) + s
    ensures k == l && r == s
  {
    assert k == l;
    Cancel(dbg(k), r, s);
  }

  /** Two values have the same canonical text exactly when they are the same value. */
  lemma CanonicaliseIsInjective(dbg: string -> string, a: Value, b: Value)
    requires KeyText(dbg) && FloatsOk(a) && FloatsOk(b)
    ensures Canonicalise(dbg, a) == Canonicalise(dbg, b) <==> a == b
  {
    if Canonicalise(dbg, a) == Canonicalise(dbg, b) {
      Decodes(dbg, a, [], b, []);
    }
  }

  // ------------------------------------------------------------ writing in place

  /** What follows a value is written after its own text, whatever it is. */
  lemma {:induction false} CanonTail(dbg: string -> string, v: Value, tail: string)
    ensures Canon(dbg, v, tail) == Canon(dbg, v, []) + tail
    decreases v, 1, 0
  {
    hide IntText, Items, Entries, Escaped;
    match v
    case Str(s) =>
      QuotedIsEscaped(s, tail);
      QuotedIsEscaped(s, []);
    case List(items) => ItemsTail(dbg, items, tail);
    case Map(m) => EntriesTail(dbg, v, SortedKeys(m.Keys), tail);
    case _ =>
  }

  lemma {:induction false} ItemsTail(dbg: string -> string, items: seq<Value>, tail: string)
    ensures Items(dbg, items, tail) == Items(dbg, items, []) + tail
    ensures items != [] ==> AfterItem(dbg, items, tail) == AfterItem(dbg, items, []) + tail
    decreases items, 0, 1
  {
    hide Canon;
    if items != [] {
      if |items| > 1 {
        ItemsTail(dbg, items[1..], tail);
      }
      hide Items;
      var after := AfterItem(dbg, items, []);
      CanonTail(dbg, items[0], AfterItem(dbg, items, tail));
      CanonTail(dbg, items[0], after);
      ItemsOf(dbg, items, tail);
      ItemsOf(dbg, items, []);
      assert Canon(dbg, items[0], []) + (after + tail) == Canon(dbg, items[0], []) + after + tail;
    }
  }

  lemma ItemsOf(dbg: string -> string, items: seq<Value>, tail: string)
    requires items != []
    ensures Items(dbg, items, tail) == Canon(dbg, items[0], AfterItem(dbg, items, tail))
  {
  }

  lemma {:induction false} EntriesTail(dbg: string -> string, v: Value, keys: seq<string>, tail: string)
    requires v.Map? && forall k :: k in keys ==> k in v.m
    ensures Entries(dbg, v, keys, tail) == Entries(dbg, v, keys, []) + tail
    ensures keys != [] ==> AfterEntry(dbg, v, keys, tail) == AfterEntry(dbg, v, keys, []) + tail
    decreases v, 0, |keys|
  {
    hide Canon;
    if keys != [] {
      if |keys| > 1 {
        EntriesTail(dbg, v, keys[1..], tail);
      }
      EntriesOf(dbg, v, keys, tail);
      EntriesOf(dbg, v, keys, []);
      hide Entries;
      var value, after := v.m[keys[0]], AfterEntry(dbg, v, keys, []);
      CanonTail(dbg, value, AfterEntry(dbg, v, keys, tail));
      CanonTail(dbg, value, after);
      var front := dbg(keys[0]) + (":" + Canon(dbg, value, []));
      assert dbg(keys[0]) + (":" + (Canon(dbg, value, []) + (after + tail))) == front + after + tail;
    }
  }

  lemma EntriesOf(dbg: string -> string, v: Value, keys: seq<string>, tail: string)
    requires v.Map? && keys != [] && forall k :: k in keys ==> k in v.m
    ensures keys[0] in v.m
    ensures Entries(dbg, v, keys, tail) ==
            dbg(keys[0]) + (":" + Canon(dbg, v.m[keys[0]], AfterEntry(dbg, v, keys, tail)))
  {
  }

  lemma SortedFrom(k: string, s: set<string>)
    requires Least(k, s)
    ensures SortedKeys(s) == [k] + SortedKeys(s - {k})
  {
    hide CmpText;
    forall l | Least(l, s) ensures l == k {
      TextOrder(k, l, k);
    }
  }

  /** The keys of a map, sorted. */
  method SortKeys(s: set<string>) returns (keys: seq<string>)
    ensures keys == SortedKeys(s)
  {
    hide SortedKeys;
    keys := [];
    var rest := s;
    while rest != {}
      invariant keys + SortedKeys(rest) == SortedKeys(s)
      decreases |rest|
    {
      assert exists k :: k in rest && Least(k, rest) by {
        var k := HasLeast(rest);
      }
      var k :| k in rest && Least(k, rest);
      SortedFrom(k, rest);
      assert keys + ([k] + SortedKeys(rest - {k})) == keys + [k] + SortedKeys(rest - {k});
      keys := keys + [k];
      rest := rest - {k};
    }
    NoKeys();
  }

  lemma NoKeys()
    ensures SortedKeys({}) == []
  {
  }

  /** What is still to be written of a list once `i` of its items are there. */
  ghost function ItemsAfter(dbg: string -> string, items: seq<Value>, i: nat): string
    requires i <= |items|
  {
    if i == 0 then Items(dbg, items, []) else AfterItem(dbg, items[i - 1..], [])
  }

  lemma ItemStep(dbg: string -> string, items: seq<Value>, i: nat)
    requires i < |items|
    ensures ItemsAfter(dbg, items, i) ==
            (if i > 0 then "," else "") + Canon(dbg, items[i], []) + ItemsAfter(dbg, items, i + 1)
  {
    hide Canon;
    assert items[0..] == items;
    assert i > 0 ==> items[i - 1..][1..] == items[i..];
    ItemsOf(dbg, items[i..], []);
    CanonTail(dbg, items[i], AfterItem(dbg, items[i..], []));
  }

  ghost function EntriesAfter(dbg: string -> string, v: Value, keys: seq<string>, i: nat): string
    requires i <= |keys| && v.Map? && forall k :: k in keys ==> k in v.m
  {
    if i == 0 then Entries(dbg, v, keys, []) else AfterEntry(dbg, v, keys[i - 1..], [])
  }

  lemma EntryStep(dbg: string -> string, v: Value, keys: seq<string>, i: nat)
    requires i < |keys| && v.Map? && forall k :: k in keys ==> k in v.m
    ensures keys[i] in v.m
    ensures EntriesAfter(dbg, v, keys, i) ==
            (if i > 0 then "," else "") + dbg(keys[i]) + ":" + Canon(dbg, v.m[keys[i]], []) +
            EntriesAfter(dbg, v, keys, i + 1)
  {
    hide Canon;
    assert keys[0..] == keys;
    assert i > 0 ==> keys[i - 1..][1..] == keys[i..];
    EntriesOf(dbg, v, keys[i..], []);
    CanonTail(dbg, v.m[keys[i]], AfterEntry(dbg, v, keys[i..], []));
  }

  /** The text a canonical form is appended to. */
  class Writer {
    var out: string

    constructor ()
      ensures out == []
    {
      out := [];
    }

    /** Appends the value's canonical text. */
    method WriteCanonical(dbg: string -> string, v: Value)
      modifies this
      ensures out == old(out) + Canon(dbg, v, [])
      decreases v, 1
    {
      hide IntText, Items, Entries, Escaped;
      match v
      case Null => out := out + "null";
      case Bool(b) => out := out + (if b then "true" else "false");
      case Int(n) => out := out + IntText(n);
      case Float(t) => out := out + t;
      case Str(s) =>
        QuotedIsEscaped(s, []);
        out := out + [QUOTE];
        out := out + Escaped(s);
        out := out + [QUOTE];
      case List(items) => WriteItems(dbg, v);
      case Map(m) => WriteEntries(dbg, v);
    }

    method WriteItems(dbg: string -> string, v: Value)
      requires v.List?
      modifies this
      ensures out == old(out) + "[" + Items(dbg, v.items, [])
      decreases v, 0
    {
      hide Canon, Items, AfterItem;
      out := out + "[";
      for i := 0 to |v.items|
        invariant old(out) + "[" + Items(dbg, v.items, []) == out + ItemsAfter(dbg, v.items, i)
      {
        ItemStep(dbg, v.items, i);
        if i > 0 {
          out := out + ",";
        }
        WriteCanonical(dbg, v.items[i]);
      }
      LastItem(dbg, v.items);
      out := out + "]";
    }

    /** One entry of a map, with the comma before it. */
    method WriteEntry(dbg: string -> string, v: Value, keys: seq<string>, i: nat)
      requires v.Map? && i < |keys| && forall k :: k in keys ==> k in v.m
      modifies this
      ensures out + EntriesAfter(dbg, v, keys, i + 1) == old(out) + EntriesAfter(dbg, v, keys, i)
      decreases v, 0, 0
    {
      hide Canon, EntriesAfter;
      EntryStep(dbg, v, keys, i);
      if i > 0 {
        out := out + ",";
      }
      out := out + dbg(keys[i]) + ":";
      WriteCanonical(dbg, v.m[keys[i]]);
    }

    method WriteEntries(dbg: string -> string, v: Value)
      requires v.Map?
      modifies this
      ensures out == old(out) + "{" + Entries(dbg, v, SortedKeys(v.m.Keys), [])
      decreases v, 0
    {
      var keys := SortKeys(v.m.Keys);
      hide Canon, Entries, AfterEntry, SortedKeys, EntriesAfter;
      out := out + "{";
      NoneWritten(dbg, v, keys);
      for i := 0 to |keys|
        invariant old(out) + "{" + Entries(dbg, v, keys, []) == out + EntriesAfter(dbg, v, keys, i)
      {
        WriteEntry(dbg, v, keys, i);
      }
      LastEntry(dbg, v, keys);
      out := out + "}";
    }
  }

  lemma LastItem(dbg: string -> string, items: seq<Value>)
    ensures ItemsAfter(dbg, items, |items|) == "]"
  {
  }

  lemma NoneWritten(dbg: string -> string, v: Value, keys: seq<string>)
    requires v.Map? && forall k :: k in keys ==> k in v.m
    ensures EntriesAfter(dbg, v, keys, 0) == Entries(dbg, v, keys, [])
  {
  }

  lemma LastEntry(dbg: string -> string, v: Value, keys: seq<string>)
    requires v.Map? && forall k :: k in keys ==> k in v.m
    ensures EntriesAfter(dbg, v, keys, |keys|) == "}"
  {
  }

  /** The canonical text of a value, written from nothing. */
  method WriteText(dbg: string -> string, v: Value) returns (text: string)
    ensures text == Canonicalise(dbg, v)
  {
    var w := new Writer();
    w.WriteCanonical(dbg, v);
    text := w.out;
  }
}
