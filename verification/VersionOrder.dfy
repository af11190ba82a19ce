/** Precedence of versions with any number of parts (src/hostapi/version.rs:28-63, 187-225;
    section 11 of Semantic Versioning 2.0.0). */
module VersionOrder {
  datatype Ordering = Less | Equal | Greater

  /** A dot-separated pre-release identifier. */
  datatype Ident = Num(n: nat) | Alpha(text: string)

  /** Numeric parts as written, pre-release identifiers, build metadata. */
  datatype Version = Version(parts: seq<nat>, pre: seq<Ident>, build: string)

  function Flip(o: Ordering): Ordering
  {
    match o
    case Less => Greater
    case Equal => Equal
    case Greater => Less
  }

  function CmpInt(a: int, b: int): Ordering
  {
    if a < b then Less else if a == b then Equal else Greater
  }

  // --------------------------------------------------------------- numeric parts

  /** The part at an index, a missing one being zero. */
  function Part(parts: seq<nat>, i: nat): nat
  {
    if i < |parts| then parts[i] else 0
  }

  function CmpFrom(a: seq<nat>, b: seq<nat>, i: nat): Ordering
    decreases |a| + |b| - i
  {
    if i >= |a| && i >= |b| then Equal
    else
      var o := CmpInt(Part(a, i), Part(b, i));
      if o != Equal then o else CmpFrom(a, b, i + 1)
  }

  /** The first difference of the zero-padded parts decides. */
  function CmpParts(a: seq<nat>, b: seq<nat>): Ordering
  {
    CmpFrom(a, b, 0)
  }

  /** The two agree, zero-padded, on every part before `n`. */
  ghost predicate Agree(a: seq<nat>, b: seq<nat>, n: nat)
  {
    forall j: nat :: j < n ==> Part(a, j) == Part(b, j)
  }

  ghost predicate Same(a: seq<nat>, b: seq<nat>)
  {
    forall j: nat :: Part(a, j) == Part(b, j)
  }

  /** Strictly below in the lexicographic order of zero-padded parts. */
  ghost predicate Below(a: seq<nat>, b: seq<nat>)
  {
    exists i: nat :: Agree(a, b, i) && Part(a, i) < Part(b, i)
  }

  lemma {:induction false} CmpFromMeans(a: seq<nat>, b: seq<nat>, i: nat)
    requires Agree(a, b, i)
    ensures CmpFrom(a, b, i) == Equal ==> Same(a, b)
    ensures CmpFrom(a, b, i) == Less ==> Below(a, b)
    ensures CmpFrom(a, b, i) == Greater ==> Below(b, a)
    decreases |a| + |b| - i
  {
    if !(i >= |a| && i >= |b|) {
      if Part(a, i) == Part(b, i) {
        CmpFromMeans(a, b, i + 1);
      } else if Part(a, i) > Part(b, i) {
        assert Agree(b, a, i);
      }
    }
  }

  lemma Exclusive(a: seq<nat>, b: seq<nat>)
    ensures !(Same(a, b) && Below(a, b)) && !(Below(a, b) && Below(b, a))
  {
  }

  /** The comparison decides the zero-padded lexicographic order. */
  lemma CmpPartsMeans(a: seq<nat>, b: seq<nat>)
    ensures CmpParts(a, b) == Equal <==> Same(a, b)
    ensures CmpParts(a, b) == Less <==> Below(a, b)
    ensures CmpParts(a, b) == Greater <==> Below(b, a)
  {
    CmpFromMeans(a, b, 0);
    hide CmpFrom;
    Exclusive(a, b);
    Exclusive(b, a);
  }

  lemma BelowTransitive(a: seq<nat>, b: seq<nat>, c: seq<nat>)
    requires Below(a, b) && Below(b, c)
    ensures Below(a, c)
  {
  }

  lemma BelowSame(a: seq<nat>, b: seq<nat>, c: seq<nat>)
    requires Same(a, b)
    ensures Below(a, c) <==> Below(b, c)
    ensures Below(c, a) <==> Below(c, b)
  {
  }

  // ------------------------------------------------------------------ identifiers

  function CmpText(a: string, b: string): Ordering
  {
    if a == [] || b == [] then CmpInt(|a|, |b|)
    else
      var o := CmpInt(a[0] as int, b[0] as int);
      if o != Equal then o else CmpText(a[1..], b[1..])
  }

  /** Numeric identifiers numerically and before alphanumeric ones, those in ASCII order. */
  function CmpIdent(a: Ident, b: Ident): Ordering
  {
    match (a, b)
    case (Num(m), Num(n)) => CmpInt(m, n)
    case (Num(_), Alpha(_)) => Less
    case (Alpha(_), Num(_)) => Greater
    case (Alpha(s), Alpha(t)) => CmpText(s, t)
  }

  function CmpPre(a: seq<Ident>, b: seq<Ident>): Ordering
  {
    if a == [] || b == [] then CmpInt(|a|, |b|)
    else
      var o := CmpIdent(a[0], b[0]);
      if o != Equal then o else CmpPre(a[1..], b[1..])
  }

  /** At most: not `Greater`. */
  predicate Le(o: Ordering)
  {
    o != Greater
  }

  lemma {:induction false} TextOrder(a: string, b: string, c: string)
    ensures CmpText(a, a) == Equal && CmpText(b, a) == Flip(CmpText(a, b))
    ensures CmpText(a, b) == Equal ==> a == b
    ensures Le(CmpText(a, b)) && Le(CmpText(b, c)) ==> Le(CmpText(a, c))
  {
    if a == [] {
    } else if b == [] || c == [] {
      TextOrder(a[1..], if b == [] then [] else b[1..], if c == [] then [] else c[1..]);
    } else {
      TextOrder(a[1..], b[1..], c[1..]);
    }
  }

  lemma IdentOrder(a: Ident, b: Ident, c: Ident)
    ensures CmpIdent(a, a) == Equal && CmpIdent(b, a) == Flip(CmpIdent(a, b))
    ensures CmpIdent(a, b) == Equal ==> a == b
    ensures Le(CmpIdent(a, b)) && Le(CmpIdent(b, c)) ==> Le(CmpIdent(a, c))
  {
    hide CmpText;
    if a.Alpha? && b.Alpha? && c.Alpha? {
      TextOrder(a.text, b.text, c.text);
    } else if a.Alpha? && b.Alpha? {
      TextOrder(a.text, b.text, b.text);
    } else if a.Alpha? {
      TextOrder(a.text, a.text, a.text);
    }
  }

  lemma {:induction false} PreOrder(a: seq<Ident>, b: seq<Ident>, c: seq<Ident>)
    ensures CmpPre(a, a) == Equal && CmpPre(b, a) == Flip(CmpPre(a, b))
    ensures CmpPre(a, b) == Equal ==> a == b
    ensures Le(CmpPre(a, b)) && Le(CmpPre(b, c)) ==> Le(CmpPre(a, c))
  {
    hide CmpIdent;
    if a == [] {
    } else if b == [] || c == [] {
      PreOrder(a[1..], if b == [] then [] else b[1..], if c == [] then [] else c[1..]);
      IdentOrder(a[0], if b == [] then a[0] else b[0], a[0]);
    } else {
      PreOrder(a[1..], b[1..], c[1..]);
      IdentOrder(a[0], b[0], c[0]);
      IdentOrder(a[0], c[0], b[0]);
      IdentOrder(b[0], c[0], a[0]);
    }
  }

  // --------------------------------------------------------------------- versions

  function Compare(a: Version, b: Version): Ordering
  {
    var o := CmpParts(a.parts, b.parts);
    if o != Equal then o
    else if a.pre == [] && b.pre == [] then Equal
    else if a.pre == [] then Greater
    else if b.pre == [] then Less
    else CmpPre(a.pre, b.pre)
  }

  /** Precedence is a total preorder over any number of parts. */
  lemma CompareIsTotalPreorder(a: Version, b: Version, c: Version)
    ensures Compare(a, a) == Equal
    ensures Compare(b, a) == Flip(Compare(a, b))
    ensures Le(Compare(a, b)) && Le(Compare(b, c)) ==> Le(Compare(a, c))
  {
    hide CmpParts, CmpPre, Same, Below;
    PartsOrder(a.parts, b.parts, c.parts);
    PreOrder(a.pre, b.pre, c.pre);
  }

  lemma PartsOrder(a: seq<nat>, b: seq<nat>, c: seq<nat>)
    ensures CmpParts(a, a) == Equal && CmpParts(b, a) == Flip(CmpParts(a, b))
    ensures CmpParts(a, b) == Less && CmpParts(b, c) == Less ==> CmpParts(a, c) == Less
    ensures CmpParts(a, b) == Equal ==> CmpParts(a, c) == CmpParts(b, c)
    ensures CmpParts(b, c) == Equal ==> CmpParts(a, b) == CmpParts(a, c)
  {
    CmpPartsMeans(a, a);
    CmpPartsMeans(a, b);
    CmpPartsMeans(b, a);
    CmpPartsMeans(b, c);
    CmpPartsMeans(a, c);
    hide CmpParts;
    SameReflexive(a, b);
    hide Same, Below;
    if Below(a, b) && Below(b, c) {
      BelowTransitive(a, b, c);
    }
    if Same(a, b) {
      BelowSame(a, b, c);
    }
    if Same(b, c) {
      BelowSame(b, c, a);
      SameChain(a, b, c);
    }
    if Same(a, b) {
      SameChain(c, a, b);
      SameReflexive(a, c);
      SameReflexive(b, c);
    }
  }

  lemma SameReflexive(a: seq<nat>, b: seq<nat>)
    ensures Same(a, a) && Same(a, b) == Same(b, a)
  {
  }

  lemma SameChain(a: seq<nat>, b: seq<nat>, c: seq<nat>)
    requires Same(b, c)
    ensures Same(a, b) <==> Same(a, c)
  {
  }

  /** Trailing zero parts and build metadata make no difference. */
  lemma ZerosAndBuildIgnored(a: Version, b: Version, zeros: seq<nat>, build: string)
    requires forall k :: 0 <= k < |zeros| ==> zeros[k] == 0
    ensures Compare(a.(parts := a.parts + zeros, build := build), b) == Compare(a, b)
    ensures Compare(b, a.(parts := a.parts + zeros, build := build)) == Compare(b, a)
  {
    var padded := a.parts + zeros;
    CmpPartsMeans(a.parts, padded);
    assert Same(a.parts, padded) by {
      forall j: nat ensures Part(a.parts, j) == Part(padded, j) {
      }
    }
    hide CmpParts, Same, Below;
    PartsOrder(a.parts, padded, b.parts);
    PartsOrder(b.parts, a.parts, padded);
  }
}
