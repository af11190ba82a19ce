/** What a spec asks for, what `set` writes, and the comparison that must find
    nothing left to do afterwards (src/hostapi/acl.rs:560-910, 1443-1453). */
module AclDiff {
  import opened Wrappers
  import opened Bytes
  import opened Sids
  import opened AclCodec
  import opened AclRights

  datatype Entry<P> = Entry(principal: P, kind: Kind, mask: bv32, flags: bv8)

  datatype Spec<P> = Spec(owner: Option<P>, protected: Option<bool>, entries: seq<Entry<P>>)

  /** A looked-up principal and the name messages call it by. */
  datatype Principal = Principal(sid: Sid, called: string)

  /** An owner and an access list; none stands for a NULL list. */
  datatype Descriptor = Descriptor(owner: Option<Sid>, protected: bool, dacl: Option<seq<Ace>>)

  // ------------------------------------------------------------- reading a spec

  // Every flag bit that is not an inherit flag, INHERITED among them.
  const FOREIGN_FLAGS: bv8 := 0xF0
  const SCOPE_MASK: bv8 := 0x03
  const LIMIT_MASK: bv8 := 0x0C

  datatype InheritName = ObjectInherit | ContainerInherit | NoPropagate | InheritOnly | UnknownInherit(text: string)

  function InheritBit(n: InheritName): Option<bv8>
  {
    match n
    case ObjectInherit => Some(0x01)
    case ContainerInherit => Some(0x02)
    case NoPropagate => Some(0x04)
    case InheritOnly => Some(0x08)
    case UnknownInherit(_) => None
  }

  /** One key of an entry's map with its value; `Malformed` is an unknown key or a value of the wrong type. */
  datatype Clause =
    | PrincipalIs(text: string)
    | KindIs(kind: Option<Kind>)
    | RightsAre(names: seq<RightName>)
    | MaskIs(n: int)
    | InheritsAre(inherits: seq<InheritName>)
    | Malformed

  /** What the clauses read so far say. */
  datatype Draft = Draft(principal: Option<string>, kind: Option<Kind>, mask: bv32, hasRights: bool, flags: bv8)

  function AllInheritBits(names: seq<InheritName>): Option<bv8>
  {
    if names == [] then Some(0)
    else
      var first, rest := InheritBit(names[0]), AllInheritBits(names[1..]);
      if first.None? || rest.None? then None else Some(first.value | rest.value)
  }

  function RawMask(n: int): Option<bv32>
  {
    if 0 <= n < 0x1_0000_0000 then Some(n as bv32) else None
  }

  function ReadClause(r: Rights, d: Draft, c: Clause): Option<Draft>
  {
    match c
    case PrincipalIs(text) => Some(d.(principal := Some(text)))
    case KindIs(kind) => if kind.None? || kind.value.Other? then None else Some(d.(kind := kind))
    case RightsAre(names) =>
      var bits := Spelled(r, names);
      if bits.None? then None else Some(d.(hasRights := true, mask := Both(d.mask, bits.value)))
    case MaskIs(n) =>
      var bits := RawMask(n);
      if bits.None? then None else Some(d.(hasRights := true, mask := Both(d.mask, bits.value)))
    case InheritsAre(names) =>
      var bits := AllInheritBits(names);
      if bits.None? then None else Some(d.(flags := d.flags | bits.value))
    case Malformed => None
  }

  function ReadClauses(r: Rights, d: Draft, clauses: seq<Clause>): Option<Draft>
    decreases clauses
  {
    if clauses == [] then Some(d)
    else
      var next := ReadClause(r, d, clauses[0]);
      if next.None? then None else ReadClauses(r, next.value, clauses[1..])
  }

  function ParseEntry(t: Target, clauses: seq<Clause>): Option<Entry<string>>
  {
    var d := ReadClauses(RightsOf(t), Draft(None, None, 0, false, 0), clauses);
    if d.None? || d.value.principal.None? || d.value.kind.None? || !d.value.hasRights then None
    else
      var mask := MapGeneric(RightsOf(t), d.value.mask);
      if mask == 0 || (d.value.flags & LIMIT_MASK != 0 && d.value.flags & SCOPE_MASK == 0) then None
      else Some(Entry(d.value.principal.value, d.value.kind.value, mask, d.value.flags))
  }

  function ParseEntries(t: Target, raw: seq<seq<Clause>>): Option<seq<Entry<string>>>
  {
    if raw == [] then Some([])
    else
      var first, rest := ParseEntry(t, raw[0]), ParseEntries(t, raw[1..]);
      if first.None? || rest.None? then None else Some([first.value] + rest.value)
  }

  function ParseSpec(t: Target, owner: Option<string>, protected: Option<bool>,
                     raw: Option<seq<seq<Clause>>>): Option<Spec<string>>
  {
    if raw.None? then None
    else
      var entries := ParseEntries(t, raw.value);
      if entries.None? then None else Some(Spec(owner, protected, entries.value))
  }

  predicate SameKey(a: Clause, b: Clause)
  {
    || (a.PrincipalIs? && b.PrincipalIs?)
    || (a.KindIs? && b.KindIs?)
    || (a.RightsAre? && b.RightsAre?)
    || (a.MaskIs? && b.MaskIs?)
    || (a.InheritsAre? && b.InheritsAre?)
  }

  lemma BothSwaps(m: bv32, x: bv32, y: bv32)
    ensures Both(Both(m, x), y) == Both(Both(m, y), x)
  {
    BothLaws(m, x, y);
    BothLaws(m, y, x);
    BothCommutes(x, y);
    hide Both;
  }

  lemma BothCommutes(x: bv32, y: bv32)
    ensures Both(x, y) == Both(y, x)
  {
  }

  lemma ClausesCommute(r: Rights, d: Draft, a: Clause, b: Clause)
    requires !SameKey(a, b)
    ensures ReadClauses(r, d, [a, b]) == ReadClauses(r, d, [b, a])
  {
    if a.RightsAre? && b.MaskIs? && Spelled(r, a.names).Some? && RawMask(b.n).Some? {
      BothSwaps(d.mask, Spelled(r, a.names).value, RawMask(b.n).value);
    }
    if b.RightsAre? && a.MaskIs? && Spelled(r, b.names).Some? && RawMask(a.n).Some? {
      BothSwaps(d.mask, Spelled(r, b.names).value, RawMask(a.n).value);
    }
    hide Spelled, AllInheritBits, RawMask, Both;
    TwoClauses(r, d, a, b);
    TwoClauses(r, d, b, a);
    hide ReadClauses;
  }

  lemma TwoClauses(r: Rights, d: Draft, a: Clause, b: Clause)
    ensures var first := ReadClause(r, d, a);
            ReadClauses(r, d, [a, b]) == if first.None? then None else ReadClause(r, first.value, b)
  {
    hide ReadClause;
    assert [a, b][1..] == [b] && [b][1..] == [];
    assert forall e: Draft :: ReadClauses(r, e, [b]) == ReadClause(r, e, b);
  }

  lemma {:induction false} ClausesSplit(r: Rights, d: Draft, a: seq<Clause>, b: seq<Clause>)
    ensures var first := ReadClauses(r, d, a);
            ReadClauses(r, d, a + b) == if first.None? then None else ReadClauses(r, first.value, b)
    decreases a
  {
    hide ReadClause;
    if a == [] {
      assert a + b == b;
    } else {
      var next := ReadClause(r, d, a[0]);
      assert (a + b)[1..] == a[1..] + b;
      if next.Some? {
        ClausesSplit(r, next.value, a[1..], b);
      }
    }
  }

  lemma SwapFront(r: Rights, d: Draft, a: Clause, b: Clause, after: seq<Clause>)
    requires !SameKey(a, b)
    ensures ReadClauses(r, d, [a, b] + after) == ReadClauses(r, d, [b, a] + after)
  {
    ClausesSplit(r, d, [a, b], after);
    ClausesSplit(r, d, [b, a], after);
    ClausesCommute(r, d, a, b);
  }

  /** A clause can be read before any clauses of other keys. */
  lemma {:induction false} MoveToFront(r: Rights, d: Draft, before: seq<Clause>, c: Clause)
    requires forall k :: 0 <= k < |before| ==> !SameKey(before[k], c)
    ensures ReadClauses(r, d, before + [c]) == ReadClauses(r, d, [c] + before)
    decreases before
  {
    hide ReadClause, SameKey;
    if before == [] {
      assert [] + [c] == [c] + [];
    } else {
      var b, rest := before[0], before[1..];
      var next := ReadClause(r, d, b);
      assert (before + [c])[1..] == rest + [c] && (before + [c])[0] == b;
      assert ([b] + ([c] + rest))[1..] == [c] + rest && [b] + ([c] + rest) == [b, c] + rest;
      if next.Some? {
        MoveToFront(r, next.value, rest, c);
      }
      SwapFront(r, d, b, c, rest);
      assert [c, b] + rest == [c] + before;
    }
  }

  predicate DistinctKeys(clauses: seq<Clause>)
  {
    forall i, j :: 0 <= i < |clauses| && 0 <= j < |clauses| && i != j ==> !SameKey(clauses[i], clauses[j])
  }

  function Without(b: seq<Clause>, i: nat): seq<Clause>
    requires i < |b|
  {
    b[..i] + b[i + 1..]
  }

  lemma CancelOne<T>(x: T, rest: multiset<T>, front: multiset<T>, back: multiset<T>)
    requires multiset{x} + rest == front + multiset{x} + back
    ensures rest == front + back
  {
    assert rest == (multiset{x} + rest) - multiset{x};
  }

  lemma FindFirst(a: seq<Clause>, b: seq<Clause>) returns (i: nat)
    requires a != [] && multiset(a) == multiset(b)
    ensures i < |b| && b[i] == a[0] && multiset(a[1..]) == multiset(Without(b, i))
  {
    assert a[0] in multiset(a);
    i :| 0 <= i < |b| && b[i] == a[0];
    var front, back := b[..i], b[i + 1..];
    assert b == front + [a[0]] + back && a == [a[0]] + a[1..];
    CancelOne(a[0], multiset(a[1..]), multiset(front), multiset(back));
  }

  lemma BringToFront(r: Rights, d: Draft, b: seq<Clause>, i: nat)
    requires DistinctKeys(b) && i < |b|
    ensures ReadClauses(r, d, b) == ReadClauses(r, d, [b[i]] + Without(b, i))
  {
    hide ReadClause, SameKey, ReadClauses;
    var front, back := b[..i], b[i + 1..];
    forall k | 0 <= k < |front| ensures !SameKey(front[k], b[i]) {
      assert front[k] == b[k];
    }
    MoveToFront(r, d, front, b[i]);
    ClausesSplit(r, d, front + [b[i]], back);
    ClausesSplit(r, d, [b[i]] + front, back);
    assert b == front + [b[i]] + back;
    assert ([b[i]] + front) + back == [b[i]] + (front + back);
  }

  lemma {:induction false} PermutedClauses(r: Rights, d: Draft, a: seq<Clause>, b: seq<Clause>)
    requires DistinctKeys(b) && multiset(a) == multiset(b)
    ensures ReadClauses(r, d, a) == ReadClauses(r, d, b)
    decreases |a|
  {
    hide ReadClause, SameKey, DistinctKeys, Without;
    if a == [] {
      assert |multiset(b)| == 0;
    } else {
      var i := FindFirst(a, b);
      DropKey(b, i);
      BringToFront(r, d, b, i);
      var rest := Without(b, i);
      assert ([b[i]] + rest)[1..] == rest;
      var next := ReadClause(r, d, a[0]);
      if next.Some? {
        PermutedClauses(r, next.value, a[1..], rest);
      }
    }
  }

  lemma DropKey(b: seq<Clause>, i: nat)
    requires DistinctKeys(b) && i < |b|
    ensures DistinctKeys(Without(b, i))
  {
    hide SameKey;
    var c := Without(b, i);
    forall k, l | 0 <= k < |c| && 0 <= l < |c| && k != l ensures !SameKey(c[k], c[l]) {
      assert c[k] == b[if k < i then k else k + 1] && c[l] == b[if l < i then l else l + 1];
    }
  }

  /** An entry is a hash map, walked in any order: every order of its keys parses alike. */
  lemma KeyOrderIrrelevant(t: Target, a: seq<Clause>, b: seq<Clause>)
    requires DistinctKeys(b) && multiset(a) == multiset(b)
    ensures ParseEntry(t, a) == ParseEntry(t, b)
  {
    PermutedClauses(RightsOf(t), Draft(None, None, 0, false, 0), a, b);
    hide RightsOf, MapGeneric, ReadClauses;
  }

  /** What the comparison relies on: specific bits only, allow or deny, and only inherit flags. */
  predicate NormalEntry<P>(e: Entry<P>)
  {
    e.mask & GENERIC_BITS == 0 && !e.kind.Other? && e.flags & FOREIGN_FLAGS == 0
  }

  ghost predicate Normal<P>(spec: Spec<P>)
  {
    forall k :: 0 <= k < |spec.entries| ==> NormalEntry(spec.entries[k])
  }

  lemma {:induction false} InheritBitsStay(names: seq<InheritName>)
    requires AllInheritBits(names).Some?
    ensures AllInheritBits(names).value & FOREIGN_FLAGS == 0
  {
    if names != [] {
      InheritBitsStay(names[1..]);
      FlagsUnion(InheritBit(names[0]).value, AllInheritBits(names[1..]).value);
    }
  }

  lemma FlagsUnion(a: bv8, b: bv8)
    requires a & FOREIGN_FLAGS == 0 && b & FOREIGN_FLAGS == 0
    ensures (a | b) & FOREIGN_FLAGS == 0
  {
  }

  ghost predicate DraftOk(d: Draft)
  {
    d.flags & FOREIGN_FLAGS == 0 && (d.kind.Some? ==> !d.kind.value.Other?)
  }

  lemma ClauseKeepsDraft(r: Rights, d: Draft, c: Clause)
    requires DraftOk(d) && ReadClause(r, d, c).Some?
    ensures DraftOk(ReadClause(r, d, c).value)
  {
    if c.InheritsAre? {
      InheritBitsStay(c.inherits);
      FlagsUnion(d.flags, AllInheritBits(c.inherits).value);
    }
  }

  lemma {:induction false} ClausesKeepDraft(r: Rights, d: Draft, clauses: seq<Clause>)
    requires DraftOk(d) && ReadClauses(r, d, clauses).Some?
    ensures DraftOk(ReadClauses(r, d, clauses).value)
    decreases clauses
  {
    hide DraftOk, ReadClause;
    if clauses != [] {
      ClauseKeepsDraft(r, d, clauses[0]);
      ClausesKeepDraft(r, ReadClause(r, d, clauses[0]).value, clauses[1..]);
    }
  }

  /** Every accepted entry is normal and grants something. */
  lemma ParsedEntryNormal(t: Target, clauses: seq<Clause>)
    requires ParseEntry(t, clauses).Some?
    ensures NormalEntry(ParseEntry(t, clauses).value) && ParseEntry(t, clauses).value.mask != 0
  {
    var start := Draft(None, None, 0, false, 0);
    assert DraftOk(start);
    hide ReadClauses, RightsOf, MapGeneric;
    ClausesKeepDraft(RightsOf(t), start, clauses);
    MapGenericClears(t, ReadClauses(RightsOf(t), start, clauses).value.mask);
  }

  lemma {:induction false} ParsedSpecNormal(t: Target, raw: seq<seq<Clause>>)
    requires ParseEntries(t, raw).Some?
    ensures forall k :: 0 <= k < |ParseEntries(t, raw).value| ==> NormalEntry(ParseEntries(t, raw).value[k])
  {
    hide ParseEntry, NormalEntry;
    if raw != [] {
      ParsedEntryNormal(t, raw[0]);
      ParsedSpecNormal(t, raw[1..]);
    }
  }

  // ------------------------------------------------------------------ resolving

  function ResolveEntries<P, Q>(entries: seq<Entry<P>>, f: P -> Option<Q>): (r: Option<seq<Entry<Q>>>)
    ensures r.Some? ==> |r.value| == |entries| && forall k :: 0 <= k < |entries| ==>
              f(entries[k].principal) == Some(r.value[k].principal) && r.value[k].kind == entries[k].kind &&
              r.value[k].mask == entries[k].mask && r.value[k].flags == entries[k].flags
  {
    if entries == [] then Some([])
    else
      var p, rest := f(entries[0].principal), ResolveEntries(entries[1..], f);
      if p.None? || rest.None? then None
      else Some([Entry(p.value, entries[0].kind, entries[0].mask, entries[0].flags)] + rest.value)
  }

  function Resolve<P, Q>(spec: Spec<P>, f: P -> Option<Q>): Option<Spec<Q>>
  {
    var owner := if spec.owner.None? then Some(None) else
                   var o := f(spec.owner.value); if o.None? then None else Some(Some(o.value));
    var entries := ResolveEntries(spec.entries, f);
    if owner.None? || entries.None? then None else Some(Spec(owner.value, spec.protected, entries.value))
  }

  lemma ResolvedNormal<P, Q>(spec: Spec<P>, f: P -> Option<Q>)
    requires Normal(spec) && Resolve(spec, f).Some?
    ensures Normal(Resolve(spec, f).value)
  {
  }

  // ------------------------------------------------------------- what set writes

  function AceOf(e: Entry<Principal>): Ace
  {
    Ace(e.kind, e.flags, e.mask, Some(e.principal.sid))
  }

  /** The entries' aces of one group, each the first time it is asked for. */
  function Group(entries: seq<Entry<Principal>>, seen: set<Ace>, deny: bool): seq<Ace>
  {
    if entries == [] then []
    else
      var ace := AceOf(entries[0]);
      (if ace !in seen && entries[0].kind.Deny? == deny then [ace] else []) + Group(entries[1..], seen + {ace}, deny)
  }

  function ExplicitAces(spec: Spec<Principal>): seq<Ace>
  {
    Group(spec.entries, {}, true) + Group(spec.entries, {}, false)
  }

  function Wanted(spec: Spec<Principal>): set<Ace>
  {
    set e | e in spec.entries :: AceOf(e)
  }

  lemma {:induction false} GroupLaw(entries: seq<Entry<Principal>>, seen: set<Ace>, deny: bool)
    ensures var g := Group(entries, seen, deny);
            && (forall a :: a in g <==> a !in seen && a.kind.Deny? == deny && exists e :: e in entries && AceOf(e) == a)
            && (forall i, j :: 0 <= i < j < |g| ==> g[i] != g[j])
  {
    hide AceOf;
    if entries != [] {
      var ace := AceOf(entries[0]);
      GroupLaw(entries[1..], seen + {ace}, deny);
      AceKind(entries[0]);
      assert entries == [entries[0]] + entries[1..];
      assert forall e :: e in entries <==> e == entries[0] || e in entries[1..];
    }
  }

  lemma AceKind(e: Entry<Principal>)
    ensures AceOf(e).kind == e.kind
  {
  }

  /** What is written is the spec's entries as a set, each once, the denials before the grants. */
  lemma ExplicitAcesLaw(spec: Spec<Principal>)
    ensures var w := ExplicitAces(spec);
            && (set a | a in w) == Wanted(spec)
            && (forall i, j :: 0 <= i < j < |w| ==> w[i] != w[j])
            && (forall i, j :: 0 <= i < j < |w| && w[j].kind.Deny? ==> w[i].kind.Deny?)
  {
    hide AceOf, Group;
    var d, g := Group(spec.entries, {}, true), Group(spec.entries, {}, false);
    GroupLaw(spec.entries, {}, true);
    GroupLaw(spec.entries, {}, false);
    var w := d + g;
    forall i | 0 <= i < |w| ensures w[i].kind.Deny? == (i < |d|) {
      assert if i < |d| then w[i] in d else w[i] in g;
    }
    forall a ensures a in w <==> a in Wanted(spec) {
      assert a in w <==> a in d || a in g;
    }
  }

  lemma GroupStep(entries: seq<Entry<Principal>>, i: nat, seen: set<Ace>, deny: bool, done: seq<Ace>)
    requires i < |entries|
    ensures var ace := AceOf(entries[i]);
            done + Group(entries[i..], seen, deny) ==
            (if ace !in seen && entries[i].kind.Deny? == deny then done + [ace] else done) +
            Group(entries[i + 1..], seen + {ace}, deny)
  {
  }

  method WriteOrder(spec: Spec<Principal>) returns (aces: seq<Ace>)
    ensures aces == ExplicitAces(spec)
  {
    var seen: set<Ace> := {};
    var deny, allow := [], [];
    assert spec.entries[0..] == spec.entries;
    for i := 0 to |spec.entries|
      invariant deny + Group(spec.entries[i..], seen, true) == Group(spec.entries, {}, true)
      invariant allow + Group(spec.entries[i..], seen, false) == Group(spec.entries, {}, false)
    {
      var e := spec.entries[i];
      var ace := AceOf(e);
      GroupStep(spec.entries, i, seen, true, deny);
      GroupStep(spec.entries, i, seen, false, allow);
      hide Group, AceOf;
      if ace !in seen {
        if e.kind.Deny? {
          deny := deny + [ace];
        } else {
          allow := allow + [ace];
        }
      }
      seen := seen + {ace};
    }
    assert deny + [] == deny && allow + [] == allow;
    aces := deny + allow;
  }

  // ------------------------------------------------------------------ comparing

  /** One line of the report; the wording is not modelled. */
  datatype Finding =
    | OwnerDiffers
    | ProtectionDiffers
    | NullDacl
    | Missing(ace: Ace)
    | Unexpected(ace: Ace)
    | UnexpectedInherited(ace: Ace)

  function Normalised(t: Target, ace: Ace): Ace
  {
    ace.(mask := MapGeneric(RightsOf(t), ace.mask))
  }

  /** The explicit entries of a list, normalised. */
  function Have(t: Target, dacl: seq<Ace>): set<Ace>
  {
    set a | a in dacl && !Inherited(a) :: Normalised(t, a)
  }

  function MissingFrom(want: seq<Ace>, have: set<Ace>): seq<Finding>
  {
    if want == [] then []
    else (if want[0] in have then [] else [Missing(want[0])]) + MissingFrom(want[1..], have)
  }

  function UnexpectedIn(t: Target, dacl: seq<Ace>, want: set<Ace>, reported: set<Ace>): seq<Finding>
  {
    if dacl == [] then []
    else
      var n := Normalised(t, dacl[0]);
      if Inherited(dacl[0]) || n in want || n in reported then UnexpectedIn(t, dacl[1..], want, reported)
      else [Unexpected(dacl[0])] + UnexpectedIn(t, dacl[1..], want, reported + {n})
  }

  function InheritedIn(dacl: seq<Ace>): seq<Finding>
  {
    if dacl == [] then []
    else (if Inherited(dacl[0]) then [UnexpectedInherited(dacl[0])] else []) + InheritedIn(dacl[1..])
  }

  function Heading(current: Descriptor, spec: Spec<Principal>): seq<Finding>
  {
    (if spec.owner.Some? && current.owner != Some(spec.owner.value.sid) then [OwnerDiffers] else []) +
    (if spec.protected.Some? && current.protected != spec.protected.value then [ProtectionDiffers] else [])
  }

  function Diff(current: Descriptor, spec: Spec<Principal>, t: Target): seq<Finding>
  {
    if current.dacl.None? then Heading(current, spec) + [NullDacl]
    else
      var dacl := current.dacl.value;
      Heading(current, spec) +
      MissingFrom(ExplicitAces(spec), Have(t, dacl)) +
      UnexpectedIn(t, dacl, set a | a in ExplicitAces(spec), {}) +
      (if spec.protected == Some(true) && current.protected then InheritedIn(dacl) else [])
  }

  lemma {:induction false} NothingMissing(want: seq<Ace>, have: set<Ace>)
    ensures MissingFrom(want, have) == [] <==> forall a :: a in want ==> a in have
  {
    if want != [] {
      NothingMissing(want[1..], have);
      assert want == [want[0]] + want[1..];
    }
  }

  lemma {:induction false} NothingUnexpected(t: Target, dacl: seq<Ace>, want: set<Ace>)
    ensures UnexpectedIn(t, dacl, want, {}) == [] <==>
            forall a :: a in dacl && !Inherited(a) ==> Normalised(t, a) in want
  {
    hide Inherited, Normalised;
    if dacl != [] {
      NothingUnexpected(t, dacl[1..], want);
      assert dacl == [dacl[0]] + dacl[1..];
    }
  }

  lemma {:induction false} NothingInherited(dacl: seq<Ace>)
    ensures InheritedIn(dacl) == [] <==> forall a :: a in dacl ==> !Inherited(a)
  {
    hide Inherited;
    if dacl != [] {
      NothingInherited(dacl[1..]);
      assert dacl == [dacl[0]] + dacl[1..];
    }
  }

  /** What it means for a descriptor to be as the spec asks. */
  ghost predicate Converged(current: Descriptor, spec: Spec<Principal>, t: Target)
  {
    && (spec.owner.Some? ==> current.owner == Some(spec.owner.value.sid))
    && (spec.protected.Some? ==> current.protected == spec.protected.value)
    && current.dacl.Some?
    && Have(t, current.dacl.value) == Wanted(spec)
    && (spec.protected == Some(true) ==> forall a :: a in current.dacl.value ==> !Inherited(a))
  }

  /** The comparison is empty exactly when the descriptor is as the spec asks. */
  lemma DiffEmptyIffConverged(current: Descriptor, spec: Spec<Principal>, t: Target)
    ensures Diff(current, spec, t) == [] <==> Converged(current, spec, t)
  {
    hide Inherited, Normalised, MissingFrom, UnexpectedIn, InheritedIn, ExplicitAces, Group, AceOf, Wanted, Have;
    if current.dacl.Some? {
      var dacl, w := current.dacl.value, ExplicitAces(spec);
      ExplicitAcesLaw(spec);
      NothingMissing(w, Have(t, dacl));
      NothingUnexpected(t, dacl, set a | a in w);
      NothingInherited(dacl);
      HaveWithin(t, dacl, set a | a in w);
    }
  }

  lemma HaveWithin(t: Target, dacl: seq<Ace>, want: set<Ace>)
    ensures (forall a :: a in dacl && !Inherited(a) ==> Normalised(t, a) in want) <==> Have(t, dacl) <= want
  {
  }

  // -------------------------------------------------------------- set, then diff

  /** What is on disk after `set`: the written list read back, followed by what the parent
      supplies unless the spec protects the list; owner and protection where the spec gives them. */
  function AfterSet(spec: Spec<Principal>, written: seq<Ace>, parent: seq<Ace>, owner: Option<Sid>,
                    protected: bool): Descriptor
  {
    Descriptor(if spec.owner.Some? then Some(spec.owner.value.sid) else owner,
               if spec.protected.Some? then spec.protected.value else protected,
               Some(written + if spec.protected == Some(true) then [] else parent))
  }

  lemma NormalAce(e: Entry<Principal>, t: Target)
    requires NormalEntry(e)
    ensures Normalised(t, AceOf(e)) == AceOf(e) && !Inherited(AceOf(e))
  {
  }

  lemma WrittenIsWanted(spec: Spec<Principal>, t: Target)
    requires Normal(spec)
    ensures forall a :: a in ExplicitAces(spec) ==> Normalised(t, a) == a && !Inherited(a)
  {
    hide NormalEntry, Normalised, Inherited, ExplicitAces, AceOf;
    ExplicitAcesLaw(spec);
    forall a | a in ExplicitAces(spec) ensures Normalised(t, a) == a && !Inherited(a) {
      assert a in (set b | b in ExplicitAces(spec));
      assert a in Wanted(spec);
      var e :| e in spec.entries && AceOf(e) == a;
      NormalAce(e, t);
    }
  }

  lemma HaveWritten(t: Target, written: seq<Ace>, parent: seq<Ace>, wanted: set<Ace>)
    requires (set a | a in written) == wanted
    requires forall a :: a in written ==> Normalised(t, a) == a && !Inherited(a)
    requires forall a :: a in parent ==> Inherited(a)
    ensures Have(t, written + parent) == wanted
  {
  }

  /** Writing a normal spec's entries through the binary form and comparing again finds nothing to do. */
  lemma SetConverges(spec: Spec<Principal>, t: Target, parent: seq<Ace>, owner: Option<Sid>, protected: bool)
    requires Normal(spec)
    requires forall k :: 0 <= k < |spec.entries| ==> WellFormed(spec.entries[k].principal.sid)
    requires forall a :: a in parent ==> Inherited(a)
    requires Build(ExplicitAces(spec)).Some?
    ensures var read := AclCodec.Parse(Build(ExplicitAces(spec)).value);
            read.Some? && Diff(AfterSet(spec, read.value, parent, owner, protected), spec, t) == []
  {
    hide NormalEntry, Normalised, Inherited, ExplicitAces, AceOf, Build, AclCodec.Parse, Diff, Wanted, Have, WellFormed;
    var w := ExplicitAces(spec);
    WrittenWellFormed(spec);
    ParseReadsBuild(w);
    ExplicitAcesLaw(spec);
    WrittenIsWanted(spec, t);
    HaveWritten(t, w, parent, Wanted(spec));
    HaveWritten(t, w, [], Wanted(spec));
    var current := AfterSet(spec, w, parent, owner, protected);
    DiffEmptyIffConverged(current, spec, t);
  }

  lemma WrittenWellFormed(spec: Spec<Principal>)
    requires forall k :: 0 <= k < |spec.entries| ==> WellFormed(spec.entries[k].principal.sid)
    ensures forall k :: 0 <= k < |ExplicitAces(spec)| && ExplicitAces(spec)[k].sid.Some? ==>
              WellFormed(ExplicitAces(spec)[k].sid.value)
  {
    hide ExplicitAces, WellFormed;
    ExplicitAcesLaw(spec);
    forall k | 0 <= k < |ExplicitAces(spec)| && ExplicitAces(spec)[k].sid.Some?
      ensures WellFormed(ExplicitAces(spec)[k].sid.value)
    {
      assert ExplicitAces(spec)[k] in (set b | b in ExplicitAces(spec));
      assert ExplicitAces(spec)[k] in Wanted(spec);
      var e :| e in spec.entries && AceOf(e) == ExplicitAces(spec)[k];
    }
  }

  /** For every spec text that parses and whose principals resolve to well-formed SIDs: if its
      list fits the binary form, setting it converges. */
  lemma EveryParsedSpecConverges(t: Target, owner: Option<string>, protected: Option<bool>, raw: seq<seq<Clause>>,
                                 f: string -> Option<Principal>, parent: seq<Ace>, was: Descriptor)
    requires forall p :: f(p).Some? ==> WellFormed(f(p).value.sid)
    requires forall a :: a in parent ==> Inherited(a)
    requires ParseSpec(t, owner, protected, Some(raw)).Some?
    requires Resolve(ParseSpec(t, owner, protected, Some(raw)).value, f).Some?
    ensures var spec := Resolve(ParseSpec(t, owner, protected, Some(raw)).value, f).value;
            Build(ExplicitAces(spec)).Some? ==>
              var read := AclCodec.Parse(Build(ExplicitAces(spec)).value);
              read.Some? && Diff(AfterSet(spec, read.value, parent, was.owner, was.protected), spec, t) == []
  {
    hide NormalEntry, ParseEntries, Inherited, ExplicitAces, Build, AclCodec.Parse, Diff, AfterSet, WellFormed;
    ParsedSpecNormal(t, raw);
    var parsed := ParseSpec(t, owner, protected, Some(raw)).value;
    ResolvedNormal(parsed, f);
    var spec := Resolve(parsed, f).value;
    if Build(ExplicitAces(spec)).Some? {
      SetConverges(spec, t, parent, was.owner, was.protected);
    }
  }

  // ------------------------------------------------------------------- the loops

  method CollectHave(t: Target, dacl: seq<Ace>) returns (have: set<Ace>)
    ensures have == Have(t, dacl)
  {
    hide Inherited, Normalised;
    have := {};
    for i := 0 to |dacl|
      invariant have == Have(t, dacl[..i])
    {
      assert dacl[..i + 1] == dacl[..i] + [dacl[i]];
      if !Inherited(dacl[i]) {
        have := have + {Normalised(t, dacl[i])};
      }
    }
    assert dacl[..|dacl|] == dacl;
  }

  method Compare(current: Descriptor, spec: Spec<Principal>, t: Target) returns (out: seq<Finding>)
    ensures out == Diff(current, spec, t)
  {
    hide Normalised, Inherited, ExplicitAces, Have, MissingFrom, UnexpectedIn, InheritedIn;
    out := [];
    if spec.owner.Some? && current.owner != Some(spec.owner.value.sid) {
      out := out + [OwnerDiffers];
    }
    if spec.protected.Some? && current.protected != spec.protected.value {
      out := out + [ProtectionDiffers];
    }
    assert out == Heading(current, spec);
    hide Heading;
    if current.dacl.None? {
      out := out + [NullDacl];
    } else {
      var dacl := current.dacl.value;
      var have := CollectHave(t, dacl);
      var want := WriteOrder(spec);
      var missing := ReportMissing(want, have);
      var unexpected := ReportUnexpected(t, dacl, set a | a in want);
      var inherited := [];
      if spec.protected == Some(true) && current.protected {
        inherited := ReportInherited(dacl);
      }
      out := out + missing + unexpected + inherited;
    }
  }

  method ReportMissing(want: seq<Ace>, have: set<Ace>) returns (out: seq<Finding>)
    ensures out == MissingFrom(want, have)
  {
    out := [];
    for i := 0 to |want|
      invariant out + MissingFrom(want[i..], have) == MissingFrom(want, have)
    {
      assert want[i..][1..] == want[i + 1..];
      if want[i] !in have {
        out := out + [Missing(want[i])];
      }
    }
    assert out + [] == out;
  }

  method ReportUnexpected(t: Target, dacl: seq<Ace>, want: set<Ace>) returns (out: seq<Finding>)
    ensures out == UnexpectedIn(t, dacl, want, {})
  {
    hide Normalised, Inherited;
    out := [];
    var reported: set<Ace> := {};
    for i := 0 to |dacl|
      invariant out + UnexpectedIn(t, dacl[i..], want, reported) == UnexpectedIn(t, dacl, want, {})
    {
      assert dacl[i..][1..] == dacl[i + 1..];
      if !Inherited(dacl[i]) {
        var n := Normalised(t, dacl[i]);
        if n !in want && n !in reported {
          out, reported := out + [Unexpected(dacl[i])], reported + {n};
        }
      }
    }
    assert out + [] == out;
  }

  method ReportInherited(dacl: seq<Ace>) returns (out: seq<Finding>)
    ensures out == InheritedIn(dacl)
  {
    hide Inherited;
    out := [];
    for i := 0 to |dacl|
      invariant out + InheritedIn(dacl[i..]) == InheritedIn(dacl)
    {
      assert dacl[i..][1..] == dacl[i + 1..];
      if Inherited(dacl[i]) {
        out := out + [UnexpectedInherited(dacl[i])];
      }
    }
    assert out + [] == out;
  }
}
