/** Reading a version or a range partial from its text (src/hostapi/version.rs:84-184). */
module VersionText {
  import opened Wrappers
  import opened Texts
  import opened VersionOrder
  import opened VersionRange

  const U64_LIMIT: nat := 0x1_0000_0000_0000_0000

  predicate IdentChar(c: char)
  {
    '0' <= c <= '9' || 'a' <= c <= 'z' || 'A' <= c <= 'Z' || c == '-'
  }

  predicate IdentText(s: string)
  {
    s != [] && forall k :: 0 <= k < |s| ==> IdentChar(s[k])
  }

  predicate IsWildcard(part: string)
  {
    part == "x" || part == "X" || part == "*"
  }

  function PartNumber(s: string): Option<nat>
  {
    if !IsDigits(s) then None
    else
      var n := Numeral(s, 10);
      if n.None? || n.value >= U64_LIMIT then None else n
  }

  /** The numeric parts up to the first wildcard, after which only wildcards may follow. */
  function ReadParts(texts: seq<string>, allowWild: bool, wild: bool): Option<(seq<nat>, bool)>
  {
    if texts == [] then Some(([], wild))
    else if allowWild && IsWildcard(texts[0]) then ReadParts(texts[1..], allowWild, true)
    else if wild then None
    else
      var n, rest := PartNumber(texts[0]), ReadParts(texts[1..], allowWild, false);
      if n.None? || rest.None? then None else Some(([n.value] + rest.value.0, rest.value.1))
  }

  function ReadIdent(s: string): Option<Ident>
  {
    if !IdentText(s) then None
    else if IsDigits(s) then
      var n := PartNumber(s);
      if n.None? then None else Some(Num(n.value))
    else Some(Alpha(s))
  }

  function ReadIdents(texts: seq<string>): Option<seq<Ident>>
  {
    if texts == [] then Some([])
    else
      var first, rest := ReadIdent(texts[0]), ReadIdents(texts[1..]);
      if first.None? || rest.None? then None else Some([first.value] + rest.value)
  }

  predicate BuildText(s: string)
  {
    forall k :: 0 <= k < |Split(s, '.')| ==> IdentText(Split(s, '.')[k])
  }

  /** The text before the separator and the part after it, if any. */
  function Cut(s: string, c: char): (string, Option<string>)
  {
    var cut := SplitOnce(s, c);
    if cut.None? then (s, None) else (cut.value.0, Some(cut.value.1))
  }

  function ParseBody(body: string, allowWild: bool): Option<Partial>
  {
    var (main, build) := Cut(body, '+');
    var (core, pre) := Cut(main, '-');
    var parts := ReadParts(Split(core, '.'), allowWild, false);
    if parts.None? || (pre.Some? && parts.value.1) then None
    else
      var idents := if pre.None? then Some([]) else ReadIdents(Split(pre.value, '.'));
      if idents.None? || (build.Some? && !BuildText(build.value)) then None
      else Some(Partial(parts.value.0, parts.value.1, idents.value, if build.None? then "" else build.value))
  }

  /** The text may start with a `v`, and must hold more than that. */
  function ParsePartial(s: string, allowWild: bool): Option<Partial>
  {
    var body := if s != [] && (s[0] == 'v' || s[0] == 'V') then s[1..] else s;
    if body == [] then None else ParseBody(body, allowWild)
  }

  // ------------------------------------------------------------------ well-formed

  predicate WellFormedIdent(i: Ident)
  {
    match i
    case Num(n) => n < U64_LIMIT
    case Alpha(t) => IdentText(t) && !IsDigits(t)
  }

  /** What a parsed partial is like: some part or a wildcard, no pre-release beside a wildcard. */
  ghost predicate WellFormed(p: Partial, allowWild: bool)
  {
    && (forall k :: 0 <= k < |p.parts| ==> p.parts[k] < U64_LIMIT)
    && (p.parts != [] || p.wild)
    && (p.wild ==> allowWild && p.pre == [])
    && (forall k :: 0 <= k < |p.pre| ==> WellFormedIdent(p.pre[k]))
    && (p.build == "" || BuildText(p.build))
  }

  lemma {:induction false} PartsWellFormed(texts: seq<string>, allowWild: bool, wild: bool)
    requires ReadParts(texts, allowWild, wild).Some? && (wild ==> allowWild)
    ensures var (parts, w) := ReadParts(texts, allowWild, wild).value;
            && (forall k :: 0 <= k < |parts| ==> parts[k] < U64_LIMIT)
            && (texts != [] ==> parts != [] || w) && (w ==> allowWild)
  {
    if texts != [] {
      if allowWild && IsWildcard(texts[0]) {
        PartsWellFormed(texts[1..], allowWild, true);
        StaysWild(texts[1..], allowWild);
      } else {
        PartsWellFormed(texts[1..], allowWild, false);
      }
    }
  }

  lemma {:induction false} StaysWild(texts: seq<string>, allowWild: bool)
    requires ReadParts(texts, allowWild, true).Some?
    ensures ReadParts(texts, allowWild, true).value == ([], true)
  {
    if texts != [] {
      StaysWild(texts[1..], allowWild);
    }
  }

  lemma {:induction false} IdentsWellFormed(texts: seq<string>)
    requires ReadIdents(texts).Some?
    ensures forall k :: 0 <= k < |ReadIdents(texts).value| ==> WellFormedIdent(ReadIdents(texts).value[k])
  {
    if texts != [] {
      IdentsWellFormed(texts[1..]);
    }
  }

  /** Everything that parses is well formed. */
  lemma ParsedIsWellFormed(s: string, allowWild: bool)
    requires ParsePartial(s, allowWild).Some?
    ensures WellFormed(ParsePartial(s, allowWild).value, allowWild)
  {
    hide ReadParts, ReadIdents, WellFormedIdent, BuildText;
    var body := if s != [] && (s[0] == 'v' || s[0] == 'V') then s[1..] else s;
    var (main, build) := Cut(body, '+');
    var (core, pre) := Cut(main, '-');
    PartsWellFormed(Split(core, '.'), allowWild, false);
    if pre.Some? {
      IdentsWellFormed(Split(pre.value, '.'));
    }
  }

  // -------------------------------------------------------------------- rendering

  function PartTexts(parts: seq<nat>): seq<string>
  {
    if parts == [] then [] else [Decimal(parts[0])] + PartTexts(parts[1..])
  }

  function IdentShown(i: Ident): string
  {
    match i
    case Num(n) => Decimal(n)
    case Alpha(t) => t
  }

  function IdentTexts(pre: seq<Ident>): (r: seq<string>)
    ensures |r| == |pre|
  {
    if pre == [] then [] else [IdentShown(pre[0])] + IdentTexts(pre[1..])
  }

  /** The text of a partial. */
  function Show(p: Partial): string
    requires p.parts != [] || p.wild
  {
    Join(PartTexts(p.parts) + (if p.wild then ["*"] else []), '.') +
    (if p.pre == [] then "" else "-" + Join(IdentTexts(p.pre), '.')) +
    (if p.build == "" then "" else "+" + p.build)
  }

  predicate PlainPart(s: string)
  {
    IsDigits(s) || s == "*"
  }

  lemma NumberReads(n: nat)
    requires n < U64_LIMIT
    ensures PartNumber(Decimal(n)) == Some(n) && IsDigits(Decimal(n)) && !IsWildcard(Decimal(n))
  {
    DecimalReads(n);
    hide Decimal, Numeral;
    assert '0' <= Decimal(n)[0] <= '9';
  }

  lemma {:induction false} PartsRead(parts: seq<nat>, wild: bool, allowWild: bool)
    requires (wild ==> allowWild) && forall k :: 0 <= k < |parts| ==> parts[k] < U64_LIMIT
    ensures var texts := PartTexts(parts) + (if wild then ["*"] else []);
            && ReadParts(texts, allowWild, false) == Some((parts, wild))
            && (forall k :: 0 <= k < |texts| ==> PlainPart(texts[k]))
            && |texts| == |parts| + (if wild then 1 else 0)
  {
    var texts := PartTexts(parts) + (if wild then ["*"] else []);
    if parts == [] {
      assert texts == if wild then ["*"] else [];
      assert wild ==> texts[1..] == [];
    } else {
      hide PartNumber, Decimal, IsDigits, IsWildcard;
      PartsRead(parts[1..], wild, allowWild);
      NumberReads(parts[0]);
      assert texts[0] == Decimal(parts[0]);
      assert texts[1..] == PartTexts(parts[1..]) + (if wild then ["*"] else []);
      assert [parts[0]] + parts[1..] == parts;
    }
  }

  lemma IdentReads(i: Ident)
    requires WellFormedIdent(i)
    ensures ReadIdent(IdentShown(i)) == Some(i) && IdentText(IdentShown(i))
  {
    if i.Num? {
      NumberReads(i.n);
      hide Decimal, PartNumber;
    }
  }

  lemma {:induction false} IdentsRead(pre: seq<Ident>)
    requires forall k :: 0 <= k < |pre| ==> WellFormedIdent(pre[k])
    ensures ReadIdents(IdentTexts(pre)) == Some(pre)
    ensures forall k :: 0 <= k < |pre| ==> IdentText(IdentTexts(pre)[k])
  {
    hide IdentShown, ReadIdent, IdentText, WellFormedIdent;
    if pre != [] {
      IdentsRead(pre[1..]);
      IdentReads(pre[0]);
      assert [pre[0]] + pre[1..] == pre;
      assert IdentTexts(pre)[1..] == IdentTexts(pre[1..]);
    }
  }

  lemma PlainLacks(s: string, c: char)
    requires PlainPart(s) && (c == '.' || c == '-' || c == '+')
    ensures c !in s
  {
  }

  lemma IdentLacks(s: string, c: char)
    requires IdentText(s) && (c == '.' || c == '+')
    ensures c !in s
  {
  }

  lemma CutsAt(a: string, c: char, tail: Option<string>)
    requires c !in a
    ensures Cut(a + (if tail.None? then [] else [c] + tail.value), c) == (a, tail)
  {
    if tail.None? {
      assert a + [] == a;
      NoSplit(a, c);
    } else {
      SplitAt(a, c, tail.value);
      assert a + ([c] + tail.value) == a + [c] + tail.value;
    }
  }

  lemma BodyReads(p: Partial, allowWild: bool)
    requires WellFormed(p, allowWild)
    ensures ParseBody(Show(p), allowWild) == Some(p)
    ensures Show(p) != [] && Show(p)[0] != 'v' && Show(p)[0] != 'V'
  {
    hide ReadParts, ReadIdents, PartTexts, WellFormedIdent, BuildText, IdentText, PlainPart, Decimal, IdentTexts;
    var texts := PartTexts(p.parts) + (if p.wild then ["*"] else []);
    PartsRead(p.parts, p.wild, allowWild);
    IdentsRead(p.pre);
    var core := Join(texts, '.');
    CoreText(texts);
    var preText := if p.pre == [] then None else Some(Join(IdentTexts(p.pre), '.'));
    var build := if p.build == "" then None else Some(p.build);
    if p.pre != [] {
      PreText(IdentTexts(p.pre));
    }
    hide Join, Split, Cut;
    var main := core + (if preText.None? then [] else ['-'] + preText.value);
    CutsAt(core, '-', preText);
    CutsAt(main, '+', build);
    assert Show(p) == main + (if build.None? then [] else ['+'] + build.value);
  }

  /** A well-formed partial, rendered with or without a leading `v`, reads back as itself. */
  lemma ParseReadsShow(p: Partial, allowWild: bool)
    requires WellFormed(p, allowWild)
    ensures ParsePartial(Show(p), allowWild) == Some(p)
    ensures ParsePartial("v" + Show(p), allowWild) == Some(p)
  {
    BodyReads(p, allowWild);
    hide ParseBody, Show, WellFormed;
    assert ("v" + Show(p))[1..] == Show(p);
  }

  lemma CoreText(texts: seq<string>)
    requires texts != [] && forall k :: 0 <= k < |texts| ==> PlainPart(texts[k])
    ensures var core := Join(texts, '.');
            && Split(core, '.') == texts && '-' !in core && '+' !in core
            && core != [] && core[0] != 'v' && core[0] != 'V'
  {
    forall k | 0 <= k < |texts| ensures '.' !in texts[k] && '-' !in texts[k] && '+' !in texts[k] {
      PlainLacks(texts[k], '.');
      PlainLacks(texts[k], '-');
      PlainLacks(texts[k], '+');
    }
    SplitJoins(texts, '.');
    JoinLacks(texts, '.', '-');
    JoinLacks(texts, '.', '+');
    assert PlainPart(texts[0]);
  }

  lemma PreText(texts: seq<string>)
    requires texts != [] && forall k :: 0 <= k < |texts| ==> IdentText(texts[k])
    ensures Split(Join(texts, '.'), '.') == texts && '+' !in Join(texts, '.')
  {
    forall k | 0 <= k < |texts| ensures '.' !in texts[k] && '+' !in texts[k] {
      IdentLacks(texts[k], '.');
      IdentLacks(texts[k], '+');
    }
    SplitJoins(texts, '.');
    JoinLacks(texts, '.', '+');
  }
}
