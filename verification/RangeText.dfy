/** Ranges read from their text: words, operator terms, hyphen ranges and alternatives, and the
    newest version a range admits (src/hostapi/version.rs:199-209, 326-399, 466-553). */
module RangeText {
  import opened Wrappers
  import opened VersionOrder
  import opened VersionRange
  import opened VersionText
  import opened Texts

  // ------------------------------------------------------------------------ words

  predicate Blank(s: string)
  {
    forall k :: 0 <= k < |s| ==> White(s[k])
  }

  predicate Solid(s: string)
  {
    forall k :: 0 <= k < |s| ==> !White(s[k])
  }

  /** The length of the longest start of a text without white space. */
  function SolidLength(s: string): (n: nat)
    ensures n <= |s| && Solid(s[..n]) && (n < |s| ==> White(s[n]))
  {
    if s == [] || White(s[0]) then 0 else 1 + SolidLength(s[1..])
  }

  function Words(s: string): seq<string>
  {
    if s == [] then []
    else if White(s[0]) then Words(s[1..])
    else [s[..SolidLength(s)]] + Words(s[SolidLength(s)..])
  }

  lemma {:induction false} SolidStart(a: string, b: string)
    requires Solid(a) && (b == [] || White(b[0]))
    ensures SolidLength(a + b) == |a|
  {
    if a == [] {
      assert a + b == b;
    } else {
      SolidStart(a[1..], b);
      assert (a + b)[1..] == a[1..] + b;
    }
  }

  /** A word at the start of a text is read off it. */
  lemma FirstWord(w: string, b: string)
    requires w != [] && Solid(w) && (b == [] || White(b[0]))
    ensures Words(w + b) == [w] + Words(b)
  {
    SolidStart(w, b);
    assert (w + b)[..|w|] == w && (w + b)[|w|..] == b;
  }

  /** The word from `st` up to `i`, where white space or the end follows. */
  lemma WordAt(s: string, st: nat, i: nat)
    requires st < i <= |s| && Solid(s[st..i]) && (i < |s| ==> White(s[i]))
    ensures Words(s[st..]) == [s[st..i]] + Words(s[i..])
  {
    FirstWord(s[st..i], s[i..]);
    assert s[st..] == s[st..i] + s[i..];
  }

  lemma BlankAt(s: string, i: nat)
    requires i < |s| && White(s[i])
    ensures Words(s[i..]) == Words(s[i + 1..])
  {
    assert s[i..][1..] == s[i + 1..];
  }

  method SplitWords(s: string) returns (out: seq<string>)
    ensures out == Words(s)
  {
    hide Words, White;
    out := [];
    assert s[0..] == s;
    var start: Option<nat> := None;
    for i := 0 to |s|
      invariant start.Some? ==> start.value < i && Solid(s[start.value..i])
      invariant out + Words(s[if start.Some? then start.value else i..]) == Words(s)
    {
      if White(s[i]) {
        BlankAt(s, i);
        if start.Some? {
          WordAt(s, start.value, i);
          out := out + [s[start.value..i]];
          start := None;
        }
      } else {
        ghost var st := if start.Some? then start.value else i;
        assert s[st..i + 1] == s[st..i] + [s[i]];
        if start.None? {
          start := Some(i);
        }
      }
    }
    NoWords();
    assert s[|s|..] == [];
    if start.Some? {
      WordAt(s, start.value, |s|);
      assert s[start.value..] == s[start.value..|s|];
      out := out + [s[start.value..]];
    }
  }

  lemma NoWords()
    ensures Words([]) == []
  {
  }

  /** Words written with white space of any kind and length around and between them. */
  function Spread(words: seq<string>, gaps: seq<string>): string
    requires |gaps| == |words| + 1
  {
    if words == [] then gaps[0] else gaps[0] + (words[0] + Spread(words[1..], gaps[1..]))
  }

  lemma {:induction false} SkipsBlank(gap: string, s: string)
    requires Blank(gap)
    ensures Words(gap + s) == Words(s)
  {
    if gap == [] {
      assert gap + s == s;
    } else {
      SkipsBlank(gap[1..], s);
      assert (gap + s)[1..] == gap[1..] + s;
    }
  }

  /** However they are spaced, the words are read back. */
  lemma {:induction false} SpreadReads(words: seq<string>, gaps: seq<string>)
    requires |gaps| == |words| + 1 && forall k :: 0 <= k < |gaps| ==> Blank(gaps[k])
    requires forall k :: 0 < k < |words| ==> gaps[k] != []
    requires forall k :: 0 <= k < |words| ==> words[k] != [] && Solid(words[k])
    ensures Words(Spread(words, gaps)) == words
  {
    if words == [] {
      SkipsBlank(gaps[0], []);
      assert gaps[0] + [] == gaps[0];
    } else {
      var rest := Spread(words[1..], gaps[1..]);
      SpreadReads(words[1..], gaps[1..]);
      SkipsBlank(gaps[0], words[0] + rest);
      assert rest == [] || White(rest[0]) by {
        assert rest != [] && gaps[1] != [] ==> rest[0] == gaps[1][0];
        assert gaps[1] == [] ==> |words| == 1;
      }
      FirstWord(words[0], rest);
    }
  }

  // ------------------------------------------------------------------------ terms

  predicate OpChar(c: char)
  {
    c == '<' || c == '>' || c == '=' || c == '~' || c == '^'
  }

  function OpLength(w: string): (n: nat)
    ensures n <= |w| && (forall k :: 0 <= k < n ==> OpChar(w[k])) && (n < |w| ==> !OpChar(w[n]))
  {
    if w == [] || !OpChar(w[0]) then 0 else 1 + OpLength(w[1..])
  }

  function OpText(op: Operator): (s: string)
    ensures forall k :: 0 <= k < |s| ==> OpChar(s[k])
    ensures s == [] <==> op.Bare?
  {
    match op
    case Bare => ""
    case Below => "<"
    case BelowOrAt => "<="
    case Above => ">"
    case AboveOrAt => ">="
    case Equals => "="
    case Tilde => "~"
    case TildeGt => "~>"
    case Caret => "^"
  }

  function ReadOp(s: string): Option<Operator>
  {
    if s == "" then Some(Bare)
    else if s == "<" then Some(Below)
    else if s == "<=" then Some(BelowOrAt)
    else if s == ">" then Some(Above)
    else if s == ">=" then Some(AboveOrAt)
    else if s == "=" then Some(Equals)
    else if s == "~" then Some(Tilde)
    else if s == "~>" then Some(TildeGt)
    else if s == "^" then Some(Caret)
    else None
  }

  /** Exactly the texts of the operators are read, each as its operator. */
  lemma OpReads(op: Operator, s: string)
    ensures ReadOp(s) == Some(op) <==> s == OpText(op)
  {
  }

  /** An operator and the version text after it. */
  datatype Written = Written(op: Operator, text: string)

  /** Words grouped into terms; an operator on its own joins the word after it. */
  function Terms(words: seq<string>): Option<seq<Written>>
  {
    if words == [] then Some([])
    else
      var n := OpLength(words[0]);
      var op := ReadOp(words[0][..n]);
      if op.None? then None
      else if n < |words[0]| then Then(Written(op.value, words[0][n..]), Terms(words[1..]))
      else if |words| == 1 || OpLength(words[1]) > 0 then None
      else Then(Written(op.value, words[1]), Terms(words[2..]))
  }

  function Then<T>(first: T, rest: Option<seq<T>>): Option<seq<T>>
  {
    if rest.None? then None else Some([first] + rest.value)
  }

  function Onto<T>(front: seq<T>, rest: Option<seq<T>>): Option<seq<T>>
  {
    if rest.None? then None else Some(front + rest.value)
  }

  /** Moving an element from what is still to come onto what is there changes nothing. */
  lemma OntoLaws<T>(front: seq<T>, x: T, rest: Option<seq<T>>)
    ensures Onto([], rest) == rest
    ensures Onto(front, Then(x, rest)) == Onto(front + [x], rest)
    ensures Onto(front, Some([])) == Some(front)
  {
    if rest.Some? {
      assert [] + rest.value == rest.value;
      assert front + ([x] + rest.value) == front + [x] + rest.value;
    }
    assert front + [] == front;
  }

  lemma TermsFrom(words: seq<string>, i: nat)
    requires i <= |words|
    ensures i == |words| ==> Terms(words[i..]) == Some([])
    ensures i < |words| ==>
              var n := OpLength(words[i]);
              var op := ReadOp(words[i][..n]);
              Terms(words[i..]) ==
              if op.None? then None
              else if n < |words[i]| then Then(Written(op.value, words[i][n..]), Terms(words[i + 1..]))
              else if i + 1 == |words| || OpLength(words[i + 1]) > 0 then None
              else Then(Written(op.value, words[i + 1]), Terms(words[i + 2..]))
  {
    hide ReadOp, OpLength;
    var rest := words[i..];
    if i < |words| {
      assert rest[0] == words[i] && rest[1..] == words[i + 1..];
      assert i + 1 < |words| ==> rest[1] == words[i + 1] && rest[2..] == words[i + 2..];
    }
  }

  method GroupTerms(words: seq<string>) returns (r: Option<seq<Written>>)
    ensures r == Terms(words)
  {
    hide Terms, ReadOp;
    var out: seq<Written> := [];
    var i := 0;
    assert words[0..] == words;
    OntoLaws([], Written(Bare, ""), Terms(words));
    while i < |words|
      invariant 0 <= i <= |words|
      invariant Onto(out, Terms(words[i..])) == Terms(words)
    {
      TermsFrom(words, i);
      var w := words[i];
      var n := OpLength(w);
      var op := ReadOp(w[..n]);
      if op.None? {
        return None;
      }
      if n == |w| {
        if i + 1 == |words| || OpLength(words[i + 1]) > 0 {
          return None;
        }
        OntoLaws(out, Written(op.value, words[i + 1]), Terms(words[i + 2..]));
        out := out + [Written(op.value, words[i + 1])];
        i := i + 2;
      } else {
        OntoLaws(out, Written(op.value, w[n..]), Terms(words[i + 1..]));
        out := out + [Written(op.value, w[n..])];
        i := i + 1;
      }
    }
    TermsFrom(words, i);
    OntoLaws(out, Written(Bare, ""), None);
    r := Some(out);
  }

  // ----------------------------------------------------------------- alternatives

  /** A version under an operator, as a range writes it. */
  datatype Bound = Bound(op: Operator, p: Partial)

  /** One alternative: bounds that must all hold, or a hyphen range. */
  datatype Alternative = Bounds(bounds: seq<Bound>) | Through(lo: Partial, hi: Partial)

  predicate IsHyphen(t: Written)
  {
    t == Written(Bare, "-")
  }

  function ReadBounds(terms: seq<Written>): Option<seq<Bound>>
  {
    if terms == [] then Some([])
    else
      var p := ParsePartial(terms[0].text, true);
      if p.None? then None else Then(Bound(terms[0].op, p.value), ReadBounds(terms[1..]))
  }

  function ReadThrough(a: Written, b: Written): Option<Alternative>
  {
    var lo, hi := ParsePartial(a.text, true), ParsePartial(b.text, true);
    if !a.op.Bare? || !b.op.Bare? || lo.None? || hi.None? then None else Some(Through(lo.value, hi.value))
  }

  /** A hyphen range is three terms with the hyphen in the middle; anything else with one is an error. */
  function ReadTerms(terms: seq<Written>): Option<Alternative>
  {
    if forall k :: 0 <= k < |terms| ==> !IsHyphen(terms[k]) then
      var bounds := ReadBounds(terms);
      if bounds.None? then None else Some(Bounds(bounds.value))
    else if |terms| == 3 && !IsHyphen(terms[0]) && IsHyphen(terms[1]) then ReadThrough(terms[0], terms[2])
    else None
  }

  function ReadAlternative(s: string): Option<Alternative>
  {
    var terms := Terms(Words(s));
    if terms.None? then None else ReadTerms(terms.value)
  }

  /** Bounds added to a set one after another; none when an upper bound overflows. */
  function AddBounds(s: ComparatorSet, bounds: seq<Bound>): Option<ComparatorSet>
    decreases |bounds|
  {
    if bounds == [] then Some(s)
    else
      var next := AddTerm(s, bounds[0].op, bounds[0].p);
      if next.None? then None else AddBounds(next.value, bounds[1..])
  }

  function SetOf(a: Alternative): Option<ComparatorSet>
  {
    match a
    case Bounds(bounds) => AddBounds(EMPTY, bounds)
    case Through(lo, hi) => Hyphen(lo, hi)
  }

  function SetOfText(s: string): Option<ComparatorSet>
  {
    var a := ReadAlternative(s);
    if a.None? then None else SetOf(a.value)
  }

  /** Reading and adding the terms one by one, as the parser does. */
  method AddTerms(terms: seq<Written>) returns (r: Option<ComparatorSet>)
    ensures r == var bounds := ReadBounds(terms); if bounds.None? then None else AddBounds(EMPTY, bounds.value)
  {
    hide AddTerm, ParsePartial;
    var sum := EMPTY;
    for i := 0 to |terms|
      invariant ReadBounds(terms).Some? <==> ReadBounds(terms[i..]).Some?
      invariant ReadBounds(terms).Some? ==>
                  AddBounds(EMPTY, ReadBounds(terms).value) == AddBounds(sum, ReadBounds(terms[i..]).value)
    {
      var rest := terms[i..];
      assert rest[1..] == terms[i + 1..];
      var p := ParsePartial(terms[i].text, true);
      if p.None? {
        return None;
      }
      var next := AddTerm(sum, terms[i].op, p.value);
      if ReadBounds(rest).Some? {
        assert ReadBounds(rest).value[1..] == ReadBounds(rest[1..]).value;
      }
      if next.None? {
        return None;
      }
      sum := next.value;
    }
    r := Some(sum);
  }

  method ParseSet(s: string) returns (r: Option<ComparatorSet>)
    ensures r == SetOfText(s)
  {
    hide Words, Terms, AddTerm, ReadBounds, Hyphen, ParsePartial, AddBounds;
    var words := SplitWords(s);
    var grouped := GroupTerms(words);
    if grouped.None? {
      return None;
    }
    var terms := grouped.value;
    var i := 0;
    while i < |terms| && !IsHyphen(terms[i])
      invariant 0 <= i <= |terms| && forall k :: 0 <= k < i ==> !IsHyphen(terms[k])
    {
      i := i + 1;
    }
    if i == |terms| {
      r := AddTerms(terms);
    } else if i == 0 || i + 1 == |terms| || |terms| != 3 {
      r := None;
    } else {
      var a := ReadThrough(terms[0], terms[2]);
      r := if a.None? then None else SetOf(a.value);
    }
  }

  // ----------------------------------------------------------------------- ranges

  /** The texts between occurrences of `||`, found from the left without overlap. */
  function Alternatives(s: string): (r: seq<string>)
    ensures r != []
  {
    if |s| < 2 then [s]
    else if s[0] == '|' && s[1] == '|' then [[]] + Alternatives(s[2..])
    else
      var rest := Alternatives(s[1..]);
      [[s[0]] + rest[0]] + rest[1..]
  }

  /** Several alternatives must each hold more than white space; a single one need not. */
  predicate Dangling(texts: seq<string>)
  {
    |texts| > 1 && exists k :: 0 <= k < |texts| && Blank(texts[k])
  }

  function SetsOfTexts(texts: seq<string>): Option<seq<ComparatorSet>>
  {
    if texts == [] then Some([])
    else
      var first := SetOfText(texts[0]);
      if first.None? then None else Then(first.value, SetsOfTexts(texts[1..]))
  }

  function SetsOf(s: string): Option<seq<ComparatorSet>>
  {
    if Dangling(Alternatives(s)) then None else SetsOfTexts(Alternatives(s))
  }

  method ParseRange(s: string) returns (r: Option<seq<ComparatorSet>>)
    ensures r == SetsOf(s)
  {
    var texts := Alternatives(s);
    hide Alternatives, SetOfText;
    assert texts[0..] == texts;
    OntoLaws([], EMPTY, SetsOfTexts(texts));
    var sets: seq<ComparatorSet> := [];
    for i := 0 to |texts|
      invariant |texts| > 1 ==> forall k :: 0 <= k < i ==> !Blank(texts[k])
      invariant Onto(sets, SetsOfTexts(texts[i..])) == SetsOfTexts(texts)
    {
      if |texts| > 1 && Blank(texts[i]) {
        return None;
      }
      assert texts[i..][1..] == texts[i + 1..];
      var parsed := ParseSet(texts[i]);
      if parsed.None? {
        return None;
      }
      OntoLaws(sets, parsed.value, SetsOfTexts(texts[i + 1..]));
      sets := sets + [parsed.value];
    }
    OntoLaws(sets, EMPTY, None);
    assert texts[|texts|..] == [];
    r := Some(sets);
  }

  // ---------------------------------------------------------------------- meaning

  predicate Desugars(a: Alternative)
  {
    match a
    case Bounds(bounds) => forall k :: 0 <= k < |bounds| ==> Term(bounds[k].op, bounds[k].p).Some?
    case Through(_, hi) => Term(BelowOrAt, hi).Some?
  }

  /** The versions an alternative is written with. */
  predicate TidyAlternative(a: Alternative)
  {
    match a
    case Bounds(bounds) => forall k :: 0 <= k < |bounds| ==> Tidy(bounds[k].p)
    case Through(lo, hi) => Tidy(lo) && Tidy(hi)
  }

  /** What an alternative says of a version: it is within every bound, and a pre-release must be at home
      with one of them. */
  predicate Holds(a: Alternative, v: Version)
    requires Desugars(a)
  {
    match a
    case Bounds(bounds) =>
      && (forall k :: 0 <= k < |bounds| ==> Within(bounds[k].op, bounds[k].p, v))
      && (Release(v) || exists k :: 0 <= k < |bounds| && Home(bounds[k].p, v))
    case Through(lo, hi) =>
      && Term(AboveOrAt, lo).Some? && Within(AboveOrAt, lo, v) && Within(BelowOrAt, hi, v)
      && (Release(v) || Home(lo, v) || Home(hi, v))
  }

  /** For a release that means every bound admits it on its own. */
  lemma ReleaseHolds(a: Alternative, v: Version)
    requires Release(v) && TidyAlternative(a) && Desugars(a)
    ensures Holds(a, v) <==>
              match a
              case Bounds(bounds) => forall k :: 0 <= k < |bounds| ==> Admits(bounds[k].op, bounds[k].p, v)
              case Through(lo, hi) => Term(AboveOrAt, lo).Some? && Admits(AboveOrAt, lo, v) && Admits(BelowOrAt, hi, v)
  {
    hide Admits, Within, Term;
    match a
    case Bounds(bounds) =>
      forall k | 0 <= k < |bounds|
        ensures Admits(bounds[k].op, bounds[k].p, v) <==> Within(bounds[k].op, bounds[k].p, v)
      {
        AdmitsAnyVersion(bounds[k].op, bounds[k].p, v);
      }
    case Through(lo, hi) =>
      if Term(AboveOrAt, lo).Some? {
        AdmitsAnyVersion(AboveOrAt, lo, v);
      }
      AdmitsAnyVersion(BelowOrAt, hi, v);
  }

  lemma AddsIffDesugars(s: ComparatorSet, op: Operator, p: Partial)
    ensures AddTerm(s, op, p).Some? <==> Term(op, p).Some?
  {
  }

  lemma {:induction false} BoundsMean(s: ComparatorSet, bounds: seq<Bound>, v: Version)
    requires TidyAlternative(Bounds(bounds))
    ensures AddBounds(s, bounds).Some? <==> Desugars(Bounds(bounds))
    ensures AddBounds(s, bounds).Some? ==>
              var r := AddBounds(s, bounds).value;
              && (Fits(r, v) <==> Fits(s, v) && forall k :: 0 <= k < |bounds| ==> Within(bounds[k].op, bounds[k].p, v))
              && (Named(r.comparators, v) <==>
                    Named(s.comparators, v) || exists k :: 0 <= k < |bounds| && Home(bounds[k].p, v))
    decreases |bounds|
  {
    if bounds != [] {
      var b, rest := bounds[0], bounds[1..];
      AddsIffDesugars(s, b.op, b.p);
      var next := AddTerm(s, b.op, b.p);
      if next.Some? {
        BoundsMean(next.value, rest, v);
        TermsIntersect(s, b.op, b.p, v);
        hide AddTerm, Fits, Named, Within, Term, Home;
        assert bounds == [b] + rest;
        if k :| 0 <= k < |rest| && Home(rest[k].p, v) {
          assert bounds[k + 1] == rest[k];
        }
      }
    }
  }

  lemma AlternativeMeans(a: Alternative, v: Version)
    requires TidyAlternative(a)
    ensures SetOf(a).Some? <==> Desugars(a)
    ensures SetOf(a).Some? ==> (Matches(SetOf(a).value, v) <==> Holds(a, v))
  {
    if SetOf(a).Some? {
      MatchesParts(SetOf(a).value, v);
    }
    if a.Bounds? {
      NothingInside(v);
      BoundsMean(EMPTY, a.bounds, v);
      hide Matches, Within, Home, AddBounds;
    } else {
      HyphenIsBothBounds(a.lo, a.hi, v);
      hide Matches, Within, Home, Hyphen;
    }
  }

  /** What is read from a text never has a pre-release beside a wildcard. */
  lemma {:induction false} BoundsTidy(terms: seq<Written>)
    requires ReadBounds(terms).Some?
    ensures TidyAlternative(Bounds(ReadBounds(terms).value))
  {
    hide ParsePartial, WellFormedIdent, BuildText;
    if terms != [] {
      ParsedIsWellFormed(terms[0].text, true);
      BoundsTidy(terms[1..]);
    }
  }

  lemma ReadIsTidy(s: string)
    requires ReadAlternative(s).Some?
    ensures TidyAlternative(ReadAlternative(s).value)
  {
    hide ParsePartial, WellFormedIdent, BuildText, Terms, Words, ReadBounds;
    var terms := Terms(Words(s)).value;
    if ReadAlternative(s).value.Bounds? {
      BoundsTidy(terms);
    } else {
      ParsedIsWellFormed(terms[0].text, true);
      ParsedIsWellFormed(terms[2].text, true);
    }
  }

  lemma InOneMore(s: ComparatorSet, rest: seq<ComparatorSet>, v: Version)
    ensures InRange([s] + rest, v) <==> Matches(s, v) || InRange(rest, v)
  {
    hide Matches;
    var sets := [s] + rest;
    assert sets[0] == s;
    if InRange(rest, v) {
      var k :| 0 <= k < |rest| && Matches(rest[k], v);
      assert sets[k + 1] == rest[k];
    }
  }

  lemma {:induction false} TextsMean(texts: seq<string>, v: Version)
    ensures SetsOfTexts(texts).Some? <==> forall k :: 0 <= k < |texts| ==> SetOfText(texts[k]).Some?
    ensures SetsOfTexts(texts).Some? ==>
              (InRange(SetsOfTexts(texts).value, v) <==>
                  exists k :: 0 <= k < |texts| && Matches(SetOfText(texts[k]).value, v))
  {
    hide SetOfText, Matches;
    if texts != [] {
      TextsMean(texts[1..], v);
      assert texts == [texts[0]] + texts[1..];
      if SetsOfTexts(texts).Some? {
        var sets, rest := SetsOfTexts(texts).value, SetsOfTexts(texts[1..]).value;
        assert sets == [SetOfText(texts[0]).value] + rest;
        InOneMore(sets[0], rest, v);
      }
    }
  }

  /** The alternative a text stands for, as far as it is accepted. */
  predicate Accepted(s: string)
  {
    ReadAlternative(s).Some? && Desugars(ReadAlternative(s).value)
  }

  predicate TextHolds(s: string, v: Version)
  {
    Accepted(s) && Holds(ReadAlternative(s).value, v)
  }

  /** What any range text means: it parses exactly when no alternative of several is blank and each reads
      and desugars, and then it admits exactly the versions of which some alternative holds. */
  lemma RangeMeans(s: string, v: Version)
    ensures SetsOf(s).Some? <==>
            !Dangling(Alternatives(s)) && forall k :: 0 <= k < |Alternatives(s)| ==> Accepted(Alternatives(s)[k])
    ensures SetsOf(s).Some? ==>
              (InRange(SetsOf(s).value, v) <==>
                  exists k :: 0 <= k < |Alternatives(s)| && TextHolds(Alternatives(s)[k], v))
  {
    var texts := Alternatives(s);
    hide Alternatives, ReadAlternative, Matches, Holds, Desugars, SetOf, Dangling, InRange, SetsOfTexts;
    TextsMean(texts, v);
    forall k | 0 <= k < |texts|
      ensures SetOfText(texts[k]).Some? <==> Accepted(texts[k])
      ensures SetOfText(texts[k]).Some? ==> (Matches(SetOfText(texts[k]).value, v) <==> TextHolds(texts[k], v))
    {
      if ReadAlternative(texts[k]).Some? {
        ReadIsTidy(texts[k]);
        AlternativeMeans(ReadAlternative(texts[k]).value, v);
      }
    }
  }

  // --------------------------------------------------------------- writing a range

  ghost predicate Writable(a: Alternative)
  {
    match a
    case Bounds(bounds) => forall k :: 0 <= k < |bounds| ==> WellFormed(bounds[k].p, true)
    case Through(lo, hi) => WellFormed(lo, true) && WellFormed(hi, true)
  }

  /** The words of a bound: the operator joined to its version, or written apart from it. */
  ghost function BoundWords(b: Bound, apart: bool): seq<string>
    requires WellFormed(b.p, true)
  {
    if apart && !b.op.Bare? then [OpText(b.op), Show(b.p)] else [OpText(b.op) + Show(b.p)]
  }

  ghost function BoundsWords(bounds: seq<Bound>, apart: seq<bool>): seq<string>
    requires |apart| == |bounds| && Writable(Bounds(bounds))
  {
    if bounds == [] then [] else BoundWords(bounds[0], apart[0]) + BoundsWords(bounds[1..], apart[1..])
  }

  /** The text has exactly the words of the alternative, in whatever white space. */
  ghost predicate IsTextOf(a: Alternative, s: string)
  {
    && Writable(a)
    && match a
       case Bounds(bounds) => exists apart :: |apart| == |bounds| && Words(s) == BoundsWords(bounds, apart)
       case Through(lo, hi) => Words(s) == [Show(lo), "-", Show(hi)]
  }

  function Bars(texts: seq<string>): string
    requires texts != []
  {
    if |texts| == 1 then texts[0] else texts[0] + ("||" + Bars(texts[1..]))
  }

  lemma {:induction false} SplitHolds(s: string, sep: char, c: char)
    requires c != sep && forall k :: 0 <= k < |Split(s, sep)| ==> c !in Split(s, sep)[k]
    ensures c !in s
  {
    if s != [] {
      var rest, parts := Split(s[1..], sep), Split(s, sep);
      if s[0] == sep {
        assert forall k :: 0 <= k < |rest| ==> rest[k] == parts[k + 1];
      } else {
        assert forall k :: 0 < k < |rest| ==> rest[k] == parts[k];
        assert c !in parts[0];
        assert rest[0] == parts[0][1..];
      }
      SplitHolds(s[1..], sep, c);
      assert s == [s[0]] + s[1..];
      assert s[0] != sep ==> parts[0][0] == s[0];
    }
  }

  lemma ShownLacks(p: Partial, c: char)
    requires WellFormed(p, true) && !IdentChar(c) && c != '.' && c != '+' && c != '*'
    ensures c !in Show(p)
  {
    hide PartTexts, IdentTexts, WellFormedIdent, ReadIdents, ReadParts, Split, Decimal;
    var texts := PartTexts(p.parts) + (if p.wild then ["*"] else []);
    PartsRead(p.parts, p.wild, true);
    IdentsRead(p.pre);
    JoinLacks(texts, '.', c);
    if p.pre != [] {
      JoinLacks(IdentTexts(p.pre), '.', c);
    }
    hide Join;
    if p.build != "" {
      SplitHolds(p.build, '.', c);
    }
  }

  /** A version is written without white space, bars and operator characters, and starts with no hyphen. */
  lemma ShownChars(p: Partial)
    requires WellFormed(p, true)
    ensures Solid(Show(p)) && '|' !in Show(p)
    ensures Show(p) != [] && Show(p)[0] != '-' && !OpChar(Show(p)[0])
  {
    var texts := PartTexts(p.parts) + (if p.wild then ["*"] else []);
    PartsRead(p.parts, p.wild, true);
    CoreText(texts);
    BodyReads(p, true);
    hide ParseBody, Split, Join, PartTexts, IdentTexts, WellFormedIdent, BuildText, ReadParts, PlainPart;
    var core := Join(texts, '.');
    assert core[0] == Show(p)[0] && core[0] in core && core[0] in Show(p);
    hide Show;
    forall c | White(c) || OpChar(c) || c == '|' ensures c !in Show(p) {
      ShownLacks(p, c);
    }
    forall k | 0 <= k < |Show(p)| ensures !White(Show(p)[k]) {
      assert Show(p)[k] in Show(p);
    }
  }

  lemma {:induction false} OpStart(a: string, b: string)
    requires forall k :: 0 <= k < |a| ==> OpChar(a[k])
    requires b == [] || !OpChar(b[0])
    ensures OpLength(a + b) == |a|
  {
    if a == [] {
      assert a + b == b;
    } else {
      OpStart(a[1..], b);
      assert (a + b)[1..] == a[1..] + b;
    }
  }

  lemma OwnedWords(b: Bound)
    requires WellFormed(b.p, true)
    ensures OpLength(OpText(b.op) + Show(b.p)) == |OpText(b.op)| && OpLength(Show(b.p)) == 0
    ensures OpLength(OpText(b.op)) == |OpText(b.op)|
  {
    hide Show, WellFormedIdent, BuildText;
    ShownChars(b.p);
    OpStart(OpText(b.op), Show(b.p));
    OpStart([], Show(b.p));
    OpStart(OpText(b.op), []);
    assert OpText(b.op) + [] == OpText(b.op) && [] + Show(b.p) == Show(b.p);
  }

  ghost function WrittenBounds(bounds: seq<Bound>): seq<Written>
    requires Writable(Bounds(bounds))
  {
    if bounds == [] then [] else [Written(bounds[0].op, Show(bounds[0].p))] + WrittenBounds(bounds[1..])
  }

  /** Written joined or apart, a bound at the front is read. */
  lemma FirstTerm(b: Bound, apart: bool, rest: seq<string>)
    requires WellFormed(b.p, true)
    ensures Terms(BoundWords(b, apart) + rest) == Then(Written(b.op, Show(b.p)), Terms(rest))
  {
    OwnedWords(b);
    OpReads(b.op, OpText(b.op));
    ShownChars(b.p);
    var words, o, t := BoundWords(b, apart) + rest, OpText(b.op), Show(b.p);
    TermsFrom(words, 0);
    hide Show, WellFormedIdent, BuildText, OpText, ReadOp, Terms, OpLength;
    assert words[0..] == words;
    if apart && !b.op.Bare? {
      assert words == [o, t] + rest;
      assert words[2..] == rest && o[..|o|] == o;
    } else {
      assert words == [o + t] + rest;
      assert words[1..] == rest && (o + t)[..|o|] == o && (o + t)[|o|..] == t;
    }
  }

  lemma {:induction false} TermsRead(bounds: seq<Bound>, apart: seq<bool>)
    requires |apart| == |bounds| && Writable(Bounds(bounds))
    ensures Terms(BoundsWords(bounds, apart)) == Some(WrittenBounds(bounds))
  {
    hide Show, WellFormedIdent, BuildText, BoundWords;
    if bounds != [] {
      TermsRead(bounds[1..], apart[1..]);
      FirstTerm(bounds[0], apart[0], BoundsWords(bounds[1..], apart[1..]));
      hide Terms;
    }
  }

  lemma FirstBound(b: Bound, rest: seq<Written>)
    requires WellFormed(b.p, true)
    ensures var terms := [Written(b.op, Show(b.p))] + rest;
            ReadBounds(terms) == Then(b, ReadBounds(rest)) && !IsHyphen(terms[0])
  {
    ParseReadsShow(b.p, true);
    ShownChars(b.p);
    hide Show, WellFormedIdent, BuildText, ParsePartial, White, OpChar;
    assert ([Written(b.op, Show(b.p))] + rest)[1..] == rest;
  }

  lemma {:induction false} BoundsRead(bounds: seq<Bound>)
    requires Writable(Bounds(bounds))
    ensures ReadBounds(WrittenBounds(bounds)) == Some(bounds)
    ensures forall k :: 0 <= k < |WrittenBounds(bounds)| ==> !IsHyphen(WrittenBounds(bounds)[k])
  {
    hide Show, WellFormedIdent, BuildText, IsHyphen;
    if bounds != [] {
      BoundsRead(bounds[1..]);
      FirstBound(bounds[0], WrittenBounds(bounds[1..]));
      hide ReadBounds;
      assert WrittenBounds(bounds)[1..] == WrittenBounds(bounds[1..]);
      assert bounds == [bounds[0]] + bounds[1..];
    }
  }

  /** Any text of an alternative reads as that alternative. */
  lemma TextReads(a: Alternative, s: string)
    requires IsTextOf(a, s)
    ensures ReadAlternative(s) == Some(a)
  {
    hide Words, Terms, WellFormedIdent, BuildText, Show, ParsePartial, ReadBounds;
    match a
    case Bounds(bounds) =>
      var apart :| |apart| == |bounds| && Words(s) == BoundsWords(bounds, apart);
      TermsRead(bounds, apart);
      BoundsRead(bounds);
    case Through(lo, hi) =>
      HyphenTerms(lo, hi);
      ShownChars(lo);
      ParseReadsShow(lo, true);
      ParseReadsShow(hi, true);
      var terms := [Written(Bare, Show(lo)), Written(Bare, "-"), Written(Bare, Show(hi))];
      assert IsHyphen(terms[1]);
  }

  lemma HyphenTerms(lo: Partial, hi: Partial)
    requires WellFormed(lo, true) && WellFormed(hi, true)
    ensures Terms([Show(lo), "-", Show(hi)]) ==
            Some([Written(Bare, Show(lo)), Written(Bare, "-"), Written(Bare, Show(hi))])
  {
    hide Show, WellFormedIdent, BuildText, Terms, BoundWords;
    NoTerms();
    var last := [Show(hi)];
    JustShown(lo);
    JustShown(hi);
    FirstTerm(Bound(Bare, lo), false, ["-"] + last);
    FirstTerm(Bound(Bare, hi), false, []);
    HyphenTerm(last);
    assert last + [] == last;
    assert [Written(Bare, Show(hi))] + [] == [Written(Bare, Show(hi))];
    assert Terms(last) == Some([Written(Bare, Show(hi))]);
    assert [Written(Bare, "-")] + [Written(Bare, Show(hi))] == [Written(Bare, "-"), Written(Bare, Show(hi))];
    assert [Written(Bare, Show(lo))] + [Written(Bare, "-"), Written(Bare, Show(hi))] ==
           [Written(Bare, Show(lo)), Written(Bare, "-"), Written(Bare, Show(hi))];
    assert [Show(lo)] + (["-"] + last) == [Show(lo), "-", Show(hi)];
  }

  lemma NoTerms()
    ensures Terms([]) == Some([])
  {
  }

  lemma JustShown(p: Partial)
    requires WellFormed(p, true)
    ensures BoundWords(Bound(Bare, p), false) == [Show(p)]
  {
    assert [] + Show(p) == Show(p);
  }

  lemma HyphenTerm(rest: seq<string>)
    ensures Terms(["-"] + rest) == Then(Written(Bare, "-"), Terms(rest))
  {
    assert (["-"] + rest)[1..] == rest;
    assert "-"[..OpLength("-")] == "" && "-"[0..] == "-";
  }

  lemma {:induction false} WordsHold(s: string, c: char)
    requires !White(c) && forall k :: 0 <= k < |Words(s)| ==> c !in Words(s)[k]
    ensures c !in s
    decreases |s|
  {
    if s != [] {
      var n := SolidLength(s);
      if White(s[0]) {
        assert Words(s) == Words(s[1..]);
        WordsHold(s[1..], c);
        assert s == [s[0]] + s[1..];
      } else {
        var rest := Words(s[n..]);
        assert forall k :: 0 <= k < |rest| ==> rest[k] == Words(s)[k + 1];
        WordsHold(s[n..], c);
        assert c !in Words(s)[0];
        assert s == s[..n] + s[n..];
      }
    }
  }

  lemma {:induction false} BlankHasNoWords(s: string)
    ensures Blank(s) <==> Words(s) == []
  {
    if s != [] {
      BlankHasNoWords(s[1..]);
      assert s == [s[0]] + s[1..];
    }
  }

  lemma FirstWords(b: Bound, apart: bool)
    requires WellFormed(b.p, true)
    ensures forall w :: w in BoundWords(b, apart) ==> w != [] && Solid(w) && '|' !in w
    ensures BoundWords(b, apart) != []
  {
    hide Show, WellFormedIdent, BuildText;
    ShownChars(b.p);
  }

  lemma {:induction false} BoundsWordsChars(bounds: seq<Bound>, apart: seq<bool>)
    requires |apart| == |bounds| && Writable(Bounds(bounds))
    ensures forall w :: w in BoundsWords(bounds, apart) ==> w != [] && Solid(w) && '|' !in w
    ensures BoundsWords(bounds, apart) == [] <==> bounds == []
  {
    hide Show, WellFormedIdent, BuildText, BoundWords, Solid;
    if bounds != [] {
      BoundsWordsChars(bounds[1..], apart[1..]);
      FirstWords(bounds[0], apart[0]);
    }
  }

  /** Bounds written with any operators apart and any white space are a text of them. */
  lemma LayoutIsText(bounds: seq<Bound>, apart: seq<bool>, gaps: seq<string>)
    requires |apart| == |bounds| && Writable(Bounds(bounds))
    requires |gaps| == |BoundsWords(bounds, apart)| + 1 && forall k :: 0 <= k < |gaps| ==> Blank(gaps[k])
    requires forall k :: 0 < k < |gaps| - 1 ==> gaps[k] != []
    ensures IsTextOf(Bounds(bounds), Spread(BoundsWords(bounds, apart), gaps))
  {
    hide Words, Spread, WellFormed, BoundsWords, Blank, Solid;
    BoundsWordsChars(bounds, apart);
    var words := BoundsWords(bounds, apart);
    forall k | 0 <= k < |words| ensures words[k] != [] && Solid(words[k]) {
      assert words[k] in words;
    }
    SpreadReads(words, gaps);
    assert |apart| == |bounds| && Words(Spread(words, gaps)) == BoundsWords(bounds, apart);
  }

  /** No text of an alternative holds a bar, and only that of no bounds at all is blank. */
  lemma TextHasNoBar(a: Alternative, s: string)
    requires IsTextOf(a, s)
    ensures '|' !in s && (Blank(s) <==> a == Bounds([]))
  {
    hide Words, WellFormedIdent, BuildText, Show;
    match a {
      case Bounds(bounds) =>
        var apart :| |apart| == |bounds| && Words(s) == BoundsWords(bounds, apart);
        BoundsWordsChars(bounds, apart);
      case Through(lo, hi) =>
        ShownChars(lo);
        ShownChars(hi);
    }
    WordsHold(s, '|');
    BlankHasNoWords(s);
  }

  lemma {:induction false} BarFree(a: string, rest: string)
    requires '|' !in a
    ensures Alternatives(a + ("||" + rest)) == [a] + Alternatives(rest)
    ensures Alternatives(a) == [a]
  {
    var s := a + ("||" + rest);
    if a == [] {
      assert s[2..] == rest;
    } else {
      BarFree(a[1..], rest);
      assert s[1..] == a[1..] + ("||" + rest);
      assert [a[0]] + a[1..] == a;
    }
  }

  lemma {:induction false} BarsRead(texts: seq<string>)
    requires texts != [] && forall k :: 0 <= k < |texts| ==> '|' !in texts[k]
    ensures Alternatives(Bars(texts)) == texts
  {
    if |texts| == 1 {
      BarFree(texts[0], []);
    } else {
      BarsRead(texts[1..]);
      BarFree(texts[0], Bars(texts[1..]));
    }
  }

  /** A range written down in any layout means what it was written for. */
  lemma WrittenRangeMeans(alternatives: seq<Alternative>, texts: seq<string>, v: Version)
    requires |texts| == |alternatives| > 0
    requires forall k :: 0 <= k < |texts| ==> IsTextOf(alternatives[k], texts[k])
    requires |texts| > 1 ==> Bounds([]) !in alternatives
    ensures SetsOf(Bars(texts)).Some? <==> forall k :: 0 <= k < |texts| ==> Desugars(alternatives[k])
    ensures SetsOf(Bars(texts)).Some? ==>
              (InRange(SetsOf(Bars(texts)).value, v) <==> exists k :: 0 <= k < |texts| && Holds(alternatives[k], v))
  {
    hide IsTextOf, Blank, SetsOf, InRange, ReadAlternative, Holds, Desugars;
    forall k | 0 <= k < |texts|
      ensures ReadAlternative(texts[k]) == Some(alternatives[k]) && '|' !in texts[k]
      ensures |texts| > 1 ==> !Blank(texts[k])
    {
      TextReads(alternatives[k], texts[k]);
      TextHasNoBar(alternatives[k], texts[k]);
    }
    BarsRead(texts);
    RangeMeans(Bars(texts), v);
  }

  // ------------------------------------------------------------- the newest match

  /** A version on its own: trimmed, and without wildcards. */
  function ParseVersion(s: string): Option<Version>
  {
    var p := ParsePartial(Trim(s), false);
    if p.None? then None else Some(Lower(p.value))
  }

  lemma {:induction false} TrimsStart(gap: string, s: string)
    requires Blank(gap) && s != [] && !White(s[0])
    ensures TrimStart(gap + s) == s
  {
    if gap == [] {
      assert gap + s == s;
    } else {
      TrimsStart(gap[1..], s);
      assert (gap + s)[1..] == gap[1..] + s;
    }
  }

  lemma {:induction false} TrimsEnd(s: string, gap: string)
    requires Blank(gap) && s != [] && !White(s[|s| - 1])
    ensures TrimEnd(s + gap) == s
  {
    if gap == [] {
      assert s + gap == s;
    } else {
      var all := s + gap;
      TrimsEnd(s, gap[..|gap| - 1]);
      assert all[..|all| - 1] == s + gap[..|gap| - 1] && all[|all| - 1] == gap[|gap| - 1];
    }
  }

  /** A version reads back from its text with white space on either side. */
  lemma VersionReads(p: Partial, before: string, after: string)
    requires WellFormed(p, false) && Blank(before) && Blank(after)
    ensures ParseVersion(before + (Show(p) + after)) == Some(Lower(p))
  {
    assert WellFormed(p, true);
    ShownChars(p);
    ParseReadsShow(p, false);
    hide Show, WellFormedIdent, BuildText, ParsePartial, White, OpChar;
    var s := Show(p);
    assert (s + after)[0] == s[0];
    TrimsStart(before, s + after);
    TrimsEnd(s, after);
  }

  /** An entry that the range admits. */
  predicate Candidate(range: string, s: string)
    requires SetsOf(range).Some?
  {
    ParseVersion(s).Some? && InRange(SetsOf(range).value, ParseVersion(s).value)
  }

  /** The earliest of the greatest matching entries; an entry that does not parse fails the call. */
  method MaxMatching(vs: seq<string>, range: string) returns (r: Option<Option<nat>>)
    ensures r.Some? <==> SetsOf(range).Some? && forall k :: 0 <= k < |vs| ==> ParseVersion(vs[k]).Some?
    ensures r.Some? && r.value.None? ==> forall k :: 0 <= k < |vs| ==> !Candidate(range, vs[k])
    ensures r.Some? && r.value.Some? ==>
              var at := r.value.value;
              && at < |vs| && Candidate(range, vs[at])
              && (forall k :: 0 <= k < |vs| && Candidate(range, vs[k]) ==>
                    Compare(ParseVersion(vs[k]).value, ParseVersion(vs[at]).value) != Greater)
              && (forall k :: 0 <= k < at && Candidate(range, vs[k]) ==>
                    Compare(ParseVersion(vs[k]).value, ParseVersion(vs[at]).value) == Less)
  {
    hide Compare, InRange, SetsOf, ParseVersion;
    var sets := ParseRange(range);
    if sets.None? {
      return None;
    }
    var best: Option<nat> := None;
    for i := 0 to |vs|
      invariant forall k :: 0 <= k < i ==> ParseVersion(vs[k]).Some?
      invariant best.None? ==> forall k :: 0 <= k < i ==> !Candidate(range, vs[k])
      invariant best.Some? ==>
                  && best.value < i && Candidate(range, vs[best.value])
                  && (forall k :: 0 <= k < i && Candidate(range, vs[k]) ==>
                        Compare(ParseVersion(vs[k]).value, ParseVersion(vs[best.value]).value) != Greater)
                  && (forall k :: 0 <= k < best.value && Candidate(range, vs[k]) ==>
                        Compare(ParseVersion(vs[k]).value, ParseVersion(vs[best.value]).value) == Less)
    {
      var v := ParseVersion(vs[i]);
      if v.None? {
        return None;
      }
      if InRange(sets.value, v.value) {
        CompareIsTotalPreorder(v.value, v.value, v.value);
        if best.None? {
          best := Some(i);
        } else if Compare(v.value, ParseVersion(vs[best.value]).value) == Greater {
          var beaten := ParseVersion(vs[best.value]).value;
          forall k | 0 <= k < i && Candidate(range, vs[k])
            ensures Compare(ParseVersion(vs[k]).value, v.value) == Less
          {
            StrictlyAbove(ParseVersion(vs[k]).value, beaten, v.value);
          }
          best := Some(i);
        }
      }
    }
    r := Some(best);
  }

  lemma StrictlyAbove(a: Version, b: Version, c: Version)
    requires Compare(a, b) != Greater && Compare(c, b) == Greater
    ensures Compare(a, c) == Less
  {
    hide Compare;
    CompareIsTotalPreorder(c, b, a);
    CompareIsTotalPreorder(a, b, c);
    CompareIsTotalPreorder(c, a, b);
  }
}
