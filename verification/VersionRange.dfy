/** Range operators desugared into comparators (src/hostapi/version.rs:244-324, 401-464). */
module VersionRange {
  import opened Wrappers
  import opened VersionOrder

  const MAX_PART: nat := 0xFFFF_FFFF_FFFF_FFFF
  const FULL_PARTS: nat := 3

  datatype Op = Lt | AtMost | Gt | Ge | Eq

  datatype Comparator = Comparator(op: Op, version: Version)

  /** One alternative; `never` matches nothing. */
  datatype ComparatorSet = ComparatorSet(comparators: seq<Comparator>, never: bool)

  /** A version as a range writes it: the parts before the first wildcard. */
  datatype Partial = Partial(parts: seq<nat>, wild: bool, pre: seq<Ident>, build: string)

  /** The operator written before a version; `Bare` when none is. */
  datatype Operator = Bare | Below | BelowOrAt | Above | AboveOrAt | Equals | Tilde | TildeGt | Caret

  function Lower(p: Partial): Version
  {
    Version(p.parts, p.pre, p.build)
  }

  predicate SatisfiedBy(c: Comparator, v: Version)
  {
    var o := Compare(v, c.version);
    match c.op
    case Lt => o == Less
    case AtMost => o != Greater
    case Gt => o == Greater
    case Ge => o != Less
    case Eq => o == Equal
  }

  predicate Matches(s: ComparatorSet, v: Version)
  {
    && !s.never
    && (forall k :: 0 <= k < |s.comparators| ==> SatisfiedBy(s.comparators[k], v))
    && (v.pre == [] || exists k :: 0 <= k < |s.comparators| && NamesPreRelease(s.comparators[k], v))
  }

  predicate NamesPreRelease(c: Comparator, v: Version)
  {
    c.version.pre != [] && CmpParts(c.version.parts, v.parts) == Equal
  }

  /** The exclusive upper bound: truncated after `idx`, that part incremented; none on overflow. */
  function Bump(parts: seq<nat>, idx: nat): Option<Version>
    requires idx < |parts|
  {
    if parts[idx] >= MAX_PART then None else Some(Version(parts[..idx] + [parts[idx] + 1], [], ""))
  }

  /** A partial names the range of its prefix under every operator. */
  predicate IsPrefix(p: Partial)
  {
    p.wild || (|p.parts| < FULL_PARTS && p.pre == [])
  }

  /** The first non-zero part, or the last one. */
  function CaretIndex(parts: seq<nat>): (i: nat)
    requires parts != []
    ensures i < |parts| && (forall j :: 0 <= j < i ==> parts[j] == 0) && (parts[i] != 0 || i == |parts| - 1)
  {
    if |parts| == 1 || parts[0] != 0 then 0
    else
      var rest := CaretIndex(parts[1..]);
      if parts[1..][rest] != 0 then rest + 1 else |parts| - 1
  }

  function TildeIndex(parts: seq<nat>): (i: nat)
    requires parts != []
    ensures i < |parts|
  {
    if |parts| >= 2 then 1 else 0
  }

  function Between(lower: Version, upper: Option<Version>): Option<seq<Comparator>>
  {
    if upper.None? then None else Some([Comparator(Ge, lower), Comparator(Lt, upper.value)])
  }

  function Single(op: Op, v: Option<Version>): Option<seq<Comparator>>
  {
    if v.None? then None else Some([Comparator(op, v.value)])
  }

  /** The comparators of one term with at least one numeric part. */
  function Desugar(op: Operator, p: Partial): Option<seq<Comparator>>
    requires p.parts != []
  {
    var last, lower := |p.parts| - 1, Lower(p);
    match op
    case Bare => if IsPrefix(p) then Between(lower, Bump(p.parts, last)) else Single(Eq, Some(lower))
    case Equals => if IsPrefix(p) then Between(lower, Bump(p.parts, last)) else Single(Eq, Some(lower))
    case Caret => Between(lower, Bump(p.parts, CaretIndex(p.parts)))
    case Tilde => Between(lower, Bump(p.parts, TildeIndex(p.parts)))
    case TildeGt => Between(lower, Bump(p.parts, TildeIndex(p.parts)))
    case AboveOrAt => Single(Ge, Some(lower))
    case Above => if IsPrefix(p) then Single(Ge, Bump(p.parts, last)) else Single(Gt, Some(lower))
    case Below => Single(Lt, Some(lower))
    case BelowOrAt => if IsPrefix(p) then Single(Lt, Bump(p.parts, last)) else Single(AtMost, Some(lower))
  }

  /** Adding a term to a set; none when a bound overflows. */
  function AddTerm(s: ComparatorSet, op: Operator, p: Partial): Option<ComparatorSet>
  {
    if p.parts == [] then Some(s.(never := s.never || op.Below? || op.Above?))
    else
      var cs := Desugar(op, p);
      if cs.None? then None else Some(s.(comparators := s.comparators + cs.value))
  }

  const EMPTY := ComparatorSet([], false)

  /** The set a single term stands for. */
  function Term(op: Operator, p: Partial): Option<ComparatorSet>
  {
    AddTerm(EMPTY, op, p)
  }

  predicate Admits(op: Operator, p: Partial, v: Version)
    requires Term(op, p).Some?
  {
    Matches(Term(op, p).value, v)
  }

  predicate Release(v: Version)
  {
    v.pre == []
  }

  // -------------------------------------------------------------- upper bounds

  /** Below the bumped bound and not below the parts: exactly the agreement up to the bumped part. */
  lemma BelowBump(parts: seq<nat>, idx: nat, v: seq<nat>)
    requires idx < |parts|
    ensures var bound := parts[..idx] + [parts[idx] + 1];
            VersionOrder.Below(v, bound) && !VersionOrder.Below(v, parts) <==>
                Agree(v, parts, idx + 1) && !VersionOrder.Below(v, parts)
    ensures var bound := parts[..idx] + [parts[idx] + 1];
            VersionOrder.Below(v, parts) ==> VersionOrder.Below(v, bound)
  {
    var bound := parts[..idx] + [parts[idx] + 1];
    assert forall j: nat :: j < idx ==> Part(bound, j) == Part(parts, j);
    assert Part(bound, idx) == Part(parts, idx) + 1;
    assert forall j: nat :: j > idx ==> Part(bound, j) == 0;
    if VersionOrder.Below(v, bound) && !VersionOrder.Below(v, parts) {
      var i: nat :| Agree(v, bound, i) && Part(v, i) < Part(bound, i);
      assert i <= idx;
      if i < idx {
        assert Agree(v, parts, i);
      } else {
        assert Agree(v, parts, idx);
      }
    }
    if Agree(v, parts, idx + 1) {
      assert Agree(v, bound, idx);
    }
    if VersionOrder.Below(v, parts) {
      var i: nat :| Agree(v, parts, i) && Part(v, i) < Part(parts, i);
      var k := if i < idx then i else idx;
      assert Agree(v, bound, k);
    }
  }

  // ------------------------------------------------------- releases and operators

  /** What each comparison with a written version says of a release. */
  lemma ReleaseAgainst(v: Version, w: Version)
    requires Release(v)
    ensures SatisfiedBy(Comparator(Lt, w), v) <==> VersionOrder.Below(v.parts, w.parts)
    ensures SatisfiedBy(Comparator(Ge, w), v) <==> !VersionOrder.Below(v.parts, w.parts)
    ensures SatisfiedBy(Comparator(Gt, w), v) <==>
            VersionOrder.Below(w.parts, v.parts) || (Same(v.parts, w.parts) && w.pre != [])
    ensures SatisfiedBy(Comparator(Eq, w), v) <==> Same(v.parts, w.parts) && w.pre == []
    ensures SatisfiedBy(Comparator(AtMost, w), v) <==>
            VersionOrder.Below(v.parts, w.parts) || (Same(v.parts, w.parts) && w.pre == [])
  {
    CmpPartsMeans(v.parts, w.parts);
    hide CmpParts, Same, VersionOrder.Below;
  }

  lemma SetOfOne(c: Comparator, v: Version)
    requires Release(v)
    ensures Matches(ComparatorSet([c], false), v) <==> SatisfiedBy(c, v)
  {
    hide SatisfiedBy;
    assert [c][0] == c;
  }

  lemma SetOfTwo(c: Comparator, d: Comparator, v: Version)
    requires Release(v)
    ensures Matches(ComparatorSet([c, d], false), v) <==> SatisfiedBy(c, v) && SatisfiedBy(d, v)
  {
    hide SatisfiedBy;
    assert [c, d][0] == c && [c, d][1] == d;
  }

  lemma RangeUpTo(p: Partial, idx: nat, v: Version)
    requires Release(v) && idx < |p.parts| && Bump(p.parts, idx).Some?
    ensures Matches(ComparatorSet(Between(Lower(p), Bump(p.parts, idx)).value, false), v) <==>
            !VersionOrder.Below(v.parts, p.parts) && Agree(v.parts, p.parts, idx + 1)
  {
    hide SatisfiedBy, Matches, Agree, VersionOrder.Below, Same;
    var upper := Bump(p.parts, idx).value;
    SetOfTwo(Comparator(Ge, Lower(p)), Comparator(Lt, upper), v);
    ReleaseAgainst(v, Lower(p));
    ReleaseAgainst(v, upper);
    BelowBump(p.parts, idx, v.parts);
  }

  lemma TermIs(op: Operator, p: Partial)
    requires p.parts != []
    ensures Term(op, p).Some? <==> Desugar(op, p).Some?
    ensures Term(op, p).Some? ==> Term(op, p).value == ComparatorSet(Desugar(op, p).value, false)
  {
  }

  /** `^p` admits exactly the releases from p on that agree with it up to its first non-zero part. */
  lemma CaretMeans(p: Partial, v: Version)
    requires Release(v) && p.parts != [] && Term(Caret, p).Some?
    ensures Admits(Caret, p, v) <==>
            !VersionOrder.Below(v.parts, p.parts) && Agree(v.parts, p.parts, CaretIndex(p.parts) + 1)
  {
    hide Matches, Agree, VersionOrder.Below, CaretIndex;
    TermIs(Caret, p);
    RangeUpTo(p, CaretIndex(p.parts), v);
  }

  /** `~p` admits exactly the releases from p on that agree with it on its first two parts, or its only one. */
  lemma TildeMeans(p: Partial, op: Operator, v: Version)
    requires Release(v) && p.parts != [] && (op.Tilde? || op.TildeGt?) && Term(op, p).Some?
    ensures Admits(op, p, v) <==>
            !VersionOrder.Below(v.parts, p.parts) && Agree(v.parts, p.parts, if |p.parts| >= 2 then 2 else 1)
  {
    hide Matches, Agree, VersionOrder.Below;
    TermIs(op, p);
    RangeUpTo(p, TildeIndex(p.parts), v);
  }

  /** A partial version admits exactly the releases that continue its prefix; a full one only itself. */
  lemma EqualsMeans(p: Partial, op: Operator, v: Version)
    requires Release(v) && p.parts != [] && (op.Bare? || op.Equals?) && Term(op, p).Some?
    ensures IsPrefix(p) ==> (Admits(op, p, v) <==> Agree(v.parts, p.parts, |p.parts|))
    ensures !IsPrefix(p) ==> (Admits(op, p, v) <==> Same(v.parts, p.parts) && p.pre == [])
  {
    hide Matches, VersionOrder.Below;
    TermIs(op, p);
    if IsPrefix(p) {
      RangeUpTo(p, |p.parts| - 1, v);
      if Agree(v.parts, p.parts, |p.parts|) {
        ContinuesIsNotBelow(v.parts, p.parts);
      }
    } else {
      hide SatisfiedBy;
      SetOfOne(Comparator(Eq, Lower(p)), v);
      ReleaseAgainst(v, Lower(p));
    }
  }

  lemma ContinuesIsNotBelow(v: seq<nat>, parts: seq<nat>)
    requires Agree(v, parts, |parts|)
    ensures !VersionOrder.Below(v, parts)
  {
  }

  /** Above a prefix means past all its continuations; above a full version, after it. */
  lemma AboveMeans(p: Partial, v: Version)
    requires Release(v) && p.parts != [] && Term(Above, p).Some?
    ensures IsPrefix(p) ==>
              (Admits(Above, p, v) <==> !VersionOrder.Below(v.parts, Bump(p.parts, |p.parts| - 1).value.parts))
    ensures !IsPrefix(p) ==>
              (Admits(Above, p, v) <==> VersionOrder.Below(p.parts, v.parts) || (Same(v.parts, p.parts) && p.pre != []))
  {
    hide Matches, VersionOrder.Below, Same, SatisfiedBy;
    TermIs(Above, p);
    if IsPrefix(p) {
      var upper := Bump(p.parts, |p.parts| - 1).value;
      SetOfOne(Comparator(Ge, upper), v);
      ReleaseAgainst(v, upper);
    } else {
      SetOfOne(Comparator(Gt, Lower(p)), v);
      ReleaseAgainst(v, Lower(p));
    }
  }

  lemma BelowMeans(p: Partial, v: Version)
    requires Release(v) && p.parts != []
    ensures Term(Below, p).Some? && (Admits(Below, p, v) <==> VersionOrder.Below(v.parts, p.parts))
    ensures Term(AboveOrAt, p).Some? && (Admits(AboveOrAt, p, v) <==> !VersionOrder.Below(v.parts, p.parts))
  {
    hide Matches, VersionOrder.Below, Same, SatisfiedBy;
    TermIs(Below, p);
    TermIs(AboveOrAt, p);
    SetOfOne(Comparator(Lt, Lower(p)), v);
    SetOfOne(Comparator(Ge, Lower(p)), v);
    ReleaseAgainst(v, Lower(p));
  }

  lemma BelowOrAtMeans(p: Partial, v: Version)
    requires Release(v) && p.parts != [] && Term(BelowOrAt, p).Some?
    ensures IsPrefix(p) ==>
              (Admits(BelowOrAt, p, v) <==> VersionOrder.Below(v.parts, Bump(p.parts, |p.parts| - 1).value.parts))
    ensures !IsPrefix(p) ==>
              (Admits(BelowOrAt, p, v) <==>
               VersionOrder.Below(v.parts, p.parts) || (Same(v.parts, p.parts) && p.pre == []))
  {
    hide Matches, VersionOrder.Below, Same, SatisfiedBy;
    TermIs(BelowOrAt, p);
    if IsPrefix(p) {
      var upper := Bump(p.parts, |p.parts| - 1).value;
      SetOfOne(Comparator(Lt, upper), v);
      ReleaseAgainst(v, upper);
    } else {
      SetOfOne(Comparator(AtMost, Lower(p)), v);
      ReleaseAgainst(v, Lower(p));
    }
  }

  /** A bare wildcard: nothing is below or above it, everything else admits every release. */
  lemma WildcardMeans(op: Operator, p: Partial, v: Version)
    requires Release(v) && p.parts == []
    ensures Term(op, p).Some? && (Admits(op, p, v) <==> !op.Below? && !op.Above?)
  {
  }

  /** For every version or partial whose bounds do not overflow, exactly one of `<p`, `=p`, `>p`
      admits a release, and `<=p`, `>=p` admit the matching unions. */
  lemma Trichotomy(p: Partial, v: Version)
    requires Release(v)
    requires Term(Below, p).Some? && Term(Equals, p).Some? && Term(Above, p).Some?
    ensures Admits(Below, p, v) || Admits(Equals, p, v) || Admits(Above, p, v)
    ensures !(Admits(Below, p, v) && Admits(Equals, p, v)) && !(Admits(Below, p, v) && Admits(Above, p, v))
    ensures !(Admits(Equals, p, v) && Admits(Above, p, v))
    ensures Term(BelowOrAt, p).Some? && (Admits(BelowOrAt, p, v) <==> Admits(Below, p, v) || Admits(Equals, p, v))
    ensures Term(AboveOrAt, p).Some? && (Admits(AboveOrAt, p, v) <==> Admits(Above, p, v) || Admits(Equals, p, v))
  {
    if p.parts == [] {
      WildcardMeans(Below, p, v);
      WildcardMeans(Equals, p, v);
      WildcardMeans(Above, p, v);
      WildcardMeans(BelowOrAt, p, v);
      WildcardMeans(AboveOrAt, p, v);
    } else {
      OthersDesugar(p);
      BelowMeans(p, v);
      EqualsMeans(p, Equals, v);
      AboveMeans(p, v);
      BelowOrAtMeans(p, v);
      hide Matches, Term, Admits, VersionOrder.Below, Same, Agree, CmpParts, Bump;
      if IsPrefix(p) {
        PrefixCases(p, v);
      } else {
        PartsCases(v.parts, p.parts);
      }
    }
  }

  lemma PrefixCases(p: Partial, v: Version)
    requires p.parts != [] && Bump(p.parts, |p.parts| - 1).Some?
    ensures var below := VersionOrder.Below(v.parts, p.parts);
            var belowBump := VersionOrder.Below(v.parts, Bump(p.parts, |p.parts| - 1).value.parts);
            var continues := Agree(v.parts, p.parts, |p.parts|);
            (belowBump <==> below || continues) && !(below && continues)
  {
    BelowBump(p.parts, |p.parts| - 1, v.parts);
    if Agree(v.parts, p.parts, |p.parts|) {
      ContinuesIsNotBelow(v.parts, p.parts);
    }
    hide VersionOrder.Below, Agree;
  }

  lemma PartsCases(a: seq<nat>, b: seq<nat>)
    ensures VersionOrder.Below(a, b) || Same(a, b) || VersionOrder.Below(b, a)
    ensures !(VersionOrder.Below(a, b) && Same(a, b)) && !(VersionOrder.Below(a, b) && VersionOrder.Below(b, a))
    ensures !(Same(a, b) && VersionOrder.Below(b, a))
  {
    CmpPartsMeans(a, b);
    hide CmpParts, Same, VersionOrder.Below;
  }

  lemma OthersDesugar(p: Partial)
    requires p.parts != [] && Term(Equals, p).Some?
    ensures Term(BelowOrAt, p).Some? && Term(AboveOrAt, p).Some?
    ensures IsPrefix(p) ==> Bump(p.parts, |p.parts| - 1).Some?
  {
  }

  // ----------------------------------------------------------------- pre-releases

  /** Every comparator holds of the version, whether or not it is a pre-release. */
  predicate Fits(s: ComparatorSet, v: Version)
  {
    !s.never && Inside(s.comparators, v)
  }

  predicate Inside(cs: seq<Comparator>, v: Version)
  {
    forall k :: 0 <= k < |cs| ==> SatisfiedBy(cs[k], v)
  }

  /** Some comparator names a pre-release on the version's own parts. */
  predicate Named(cs: seq<Comparator>, v: Version)
  {
    exists k :: 0 <= k < |cs| && NamesPreRelease(cs[k], v)
  }

  lemma MatchesParts(s: ComparatorSet, v: Version)
    ensures Matches(s, v) <==> Fits(s, v) && (Release(v) || Named(s.comparators, v))
  {
    hide SatisfiedBy, NamesPreRelease;
  }

  predicate Within(op: Operator, p: Partial, v: Version)
    requires Term(op, p).Some?
  {
    Fits(Term(op, p).value, v)
  }

  /** What every parsed partial is: no pre-release beside a wildcard. */
  predicate Tidy(p: Partial)
  {
    p.wild ==> p.pre == []
  }

  /** The written version is a pre-release on the same parts. */
  predicate Home(p: Partial, v: Version)
  {
    p.parts != [] && p.pre != [] && CmpParts(p.parts, v.parts) == Equal
  }

  lemma PartsJoin(a: seq<Comparator>, b: seq<Comparator>, v: Version)
    ensures Inside(a + b, v) <==> Inside(a, v) && Inside(b, v)
    ensures Named(a + b, v) <==> Named(a, v) || Named(b, v)
  {
    hide SatisfiedBy, NamesPreRelease;
    var c := a + b;
    assert forall k :: 0 <= k < |a| ==> c[k] == a[k];
    assert forall k :: 0 <= k < |b| ==> c[|a| + k] == b[k];
    if Named(b, v) {
      var k :| 0 <= k < |b| && NamesPreRelease(b[k], v);
      assert NamesPreRelease(c[|a| + k], v);
    }
    if Inside(c, v) {
      forall k | 0 <= k < |b| ensures SatisfiedBy(b[k], v) {
        assert SatisfiedBy(c[|a| + k], v);
      }
    }
  }

  lemma NamesOne(c: Comparator, v: Version)
    ensures Named([c], v) <==> NamesPreRelease(c, v)
    ensures Inside([c], v) <==> SatisfiedBy(c, v)
  {
    hide SatisfiedBy, NamesPreRelease;
    assert [c][0] == c;
  }

  lemma NamesTwo(c: Comparator, d: Comparator, v: Version)
    ensures Named([c, d], v) <==> NamesPreRelease(c, v) || NamesPreRelease(d, v)
    ensures Inside([c, d], v) <==> SatisfiedBy(c, v) && SatisfiedBy(d, v)
  {
    hide SatisfiedBy, NamesPreRelease;
    assert [c, d][0] == c && [c, d][1] == d;
  }

  /** Whatever the operator, a term names a pre-release exactly when its version is one. */
  lemma TermNames(op: Operator, p: Partial, v: Version)
    requires p.parts != [] && Tidy(p) && Desugar(op, p).Some?
    ensures Named(Desugar(op, p).value, v) <==> Home(p, v)
  {
    hide CmpParts;
    var cs := Desugar(op, p).value;
    if |cs| == 1 {
      NamesOne(cs[0], v);
      assert cs == [cs[0]];
    } else {
      NamesTwo(cs[0], cs[1], v);
      assert cs == [cs[0], cs[1]];
    }
  }

  /** Terms of one set intersect, for releases and pre-releases alike: adding a term keeps the versions
      that fit it too, and names the pre-releases that it names. */
  lemma TermsIntersect(s: ComparatorSet, op: Operator, p: Partial, v: Version)
    requires Tidy(p) && AddTerm(s, op, p).Some?
    ensures Term(op, p).Some?
    ensures Fits(AddTerm(s, op, p).value, v) <==> Fits(s, v) && Within(op, p, v)
    ensures Named(AddTerm(s, op, p).value.comparators, v) <==> Named(s.comparators, v) || Home(p, v)
  {
    hide SatisfiedBy, NamesPreRelease, Desugar, Inside, Named, CmpParts;
    if p.parts == [] {
      NothingInside(v);
    } else {
      TermIs(op, p);
      PartsJoin(s.comparators, Desugar(op, p).value, v);
      TermNames(op, p, v);
    }
  }

  lemma NothingInside(v: Version)
    ensures Inside([], v) && !Named([], v)
  {
  }

  /** What a single term admits of any version. */
  lemma AdmitsAnyVersion(op: Operator, p: Partial, v: Version)
    requires Tidy(p) && Term(op, p).Some?
    ensures Admits(op, p, v) <==> Within(op, p, v) && (Release(v) || Home(p, v))
  {
    hide Fits, Named, Matches, AddTerm;
    NothingInside(v);
    TermsIntersect(EMPTY, op, p, v);
    MatchesParts(Term(op, p).value, v);
  }

  /** How a pre-release must compare with the pre-release an operator is written with. */
  predicate PreHolds(op: Operator, o: Ordering)
  {
    match op
    case Bare => o == Equal
    case Equals => o == Equal
    case Below => o == Less
    case BelowOrAt => o != Greater
    case Above => o == Greater
    case AboveOrAt => o != Less
    case Caret => o != Less
    case Tilde => o != Less
    case TildeGt => o != Less
  }

  /** A pre-release matches a term only when the term is written with a pre-release of the same parts,
      and then exactly when it compares with that one as the operator says. */
  lemma PreReleasesStayHome(p: Partial, op: Operator, v: Version)
    requires v.pre != [] && Tidy(p) && Term(op, p).Some?
    ensures Admits(op, p, v) <==> Home(p, v) && PreHolds(op, CmpPre(v.pre, p.pre))
  {
    AdmitsAnyVersion(op, p, v);
    if Home(p, v) {
      TermIs(op, p);
      var cs := Desugar(op, p).value;
      CmpPartsMeans(p.parts, v.parts);
      CmpPartsMeans(v.parts, p.parts);
      PartsOrder(v.parts, p.parts, p.parts);
      hide CmpPre, CmpParts, Same, VersionOrder.Below, Named, Inside, Admits;
      if op.Caret? || op.Tilde? || op.TildeGt? {
        var idx := if op.Caret? then CaretIndex(p.parts) else TildeIndex(p.parts);
        HomeIsBelowBump(p, idx, v);
        assert cs == [Comparator(Ge, Lower(p)), Comparator(Lt, Bump(p.parts, idx).value)];
        NamesTwo(cs[0], cs[1], v);
      } else {
        assert cs == [cs[0]];
        NamesOne(cs[0], v);
      }
    }
  }

  lemma HomeIsBelowBump(p: Partial, idx: nat, v: Version)
    requires idx < |p.parts| && Bump(p.parts, idx).Some? && Same(p.parts, v.parts)
    ensures SatisfiedBy(Comparator(Lt, Bump(p.parts, idx).value), v)
  {
    var bound := Bump(p.parts, idx).value.parts;
    assert Agree(v.parts, bound, idx);
    assert Part(v.parts, idx) < Part(bound, idx);
    CmpPartsMeans(v.parts, bound);
  }

  // -------------------------------------------------------------- hyphen ranges

  /** `a - b`: both bounds inclusive, a partial upper bound covering its prefix. */
  function Hyphen(lo: Partial, hi: Partial): Option<ComparatorSet>
  {
    var low := if lo.parts == [] then [] else [Comparator(Ge, Lower(lo))];
    if hi.parts == [] then Some(ComparatorSet(low, false))
    else if IsPrefix(hi) then
      var upper := Bump(hi.parts, |hi.parts| - 1);
      if upper.None? then None else Some(ComparatorSet(low + [Comparator(Lt, upper.value)], false))
    else Some(ComparatorSet(low + [Comparator(AtMost, Lower(hi))], false))
  }

  /** A hyphen range needs no more to desugar than `<=b`, fits the versions that `>=a` and `<=b` both fit,
      and names the pre-releases of either bound. */
  lemma HyphenIsBothBounds(lo: Partial, hi: Partial, v: Version)
    requires Tidy(lo) && Tidy(hi)
    ensures Hyphen(lo, hi).Some? <==> Term(BelowOrAt, hi).Some?
    ensures Term(AboveOrAt, lo).Some?
    ensures Hyphen(lo, hi).Some? ==>
              var s := Hyphen(lo, hi).value;
              && (Fits(s, v) <==> Within(AboveOrAt, lo, v) && Within(BelowOrAt, hi, v))
              && (Named(s.comparators, v) <==> Home(lo, v) || Home(hi, v))
  {
    hide SatisfiedBy, Bump, Compare, NamesPreRelease, Inside, Named, CmpParts;
    NothingInside(v);
    if lo.parts != [] {
      TermIs(AboveOrAt, lo);
      TermNames(AboveOrAt, lo, v);
    }
    if hi.parts != [] {
      TermIs(BelowOrAt, hi);
    }
    if Hyphen(lo, hi).Some? {
      if hi.parts != [] {
        TermNames(BelowOrAt, hi, v);
      }
      var low := if lo.parts == [] then [] else [Comparator(Ge, Lower(lo))];
      var cs := Hyphen(lo, hi).value.comparators;
      var high := cs[|low|..];
      assert cs == low + high;
      PartsJoin(low, high, v);
    }
  }

  /** A range: alternatives, any of which may match. */
  predicate InRange(sets: seq<ComparatorSet>, v: Version)
  {
    exists k :: 0 <= k < |sets| && Matches(sets[k], v)
  }
}
