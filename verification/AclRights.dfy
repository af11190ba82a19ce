/** The rights vocabulary of files and registry keys (src/hostapi/acl.rs:215-346). */
module AclRights {
  import opened Wrappers

  /** The right names; every other spelling is `Unknown`. */
  datatype RightName =
    | FullControl | Modify | ReadAndExecute | Read | Write
    | ReadData | WriteData | AppendData | ReadExtendedAttributes | WriteExtendedAttributes | ExecuteFile
    | DeleteSubdirectoriesAndFiles | ReadAttributes | WriteAttributes
    | Delete | ReadPermissions | ChangePermissions | TakeOwnership | Synchronize
    | ListDirectory | CreateFiles | CreateDirectories | Traverse
    | ReadKey | WriteKey | QueryValues | SetValue | CreateSubkey | EnumerateSubkeys | Notify | CreateLink | ExecuteKey
    | Unknown(text: string)

  datatype Right = Right(name: RightName, bits: bv32)

  datatype Rights = Rights(composites: seq<Right>, singles: seq<Right>, aliases: seq<Right>, generic: seq<bv32>)

  datatype Target = File | Registry

  const FILE_RIGHTS := Rights(
    [Right(FullControl, 0x001F_01FF), Right(Modify, 0x0003_01BF), Right(ReadAndExecute, 0x0002_00A9),
     Right(Read, 0x0002_0089), Right(Write, 0x0000_0116)],
    [Right(ReadData, 0x0001), Right(WriteData, 0x0002), Right(AppendData, 0x0004),
     Right(ReadExtendedAttributes, 0x0008), Right(WriteExtendedAttributes, 0x0010), Right(ExecuteFile, 0x0020),
     Right(DeleteSubdirectoriesAndFiles, 0x0040), Right(ReadAttributes, 0x0080), Right(WriteAttributes, 0x0100),
     Right(Delete, 0x0001_0000), Right(ReadPermissions, 0x0002_0000), Right(ChangePermissions, 0x0004_0000),
     Right(TakeOwnership, 0x0008_0000), Right(Synchronize, 0x0010_0000)],
    [Right(ListDirectory, 0x0001), Right(CreateFiles, 0x0002), Right(CreateDirectories, 0x0004),
     Right(Traverse, 0x0020)],
    [0x0012_0089, 0x0012_0116, 0x0012_00A0, 0x001F_01FF])

  const REGISTRY_RIGHTS := Rights(
    [Right(FullControl, 0x000F_003F), Right(ReadKey, 0x0002_0019), Right(WriteKey, 0x0002_0006)],
    [Right(QueryValues, 0x0001), Right(SetValue, 0x0002), Right(CreateSubkey, 0x0004),
     Right(EnumerateSubkeys, 0x0008), Right(Notify, 0x0010), Right(CreateLink, 0x0020),
     Right(Delete, 0x0001_0000), Right(ReadPermissions, 0x0002_0000), Right(ChangePermissions, 0x0004_0000),
     Right(TakeOwnership, 0x0008_0000)],
    [Right(ExecuteKey, 0x0002_0019)],
    [0x0002_0019, 0x0002_0006, 0x0002_0019, 0x000F_003F])

  function RightsOf(t: Target): (r: Rights)
    ensures |r.generic| == 4
  {
    if t.File? then FILE_RIGHTS else REGISTRY_RIGHTS
  }

  // -------------------------------------------------------------- generic bits

  const GENERIC_READ: bv32 := 0x8000_0000
  const GENERIC_WRITE: bv32 := 0x4000_0000
  const GENERIC_EXECUTE: bv32 := 0x2000_0000
  const GENERIC_ALL: bv32 := 0x1000_0000
  const GENERIC_BITS: bv32 := 0xF000_0000
  const SPECIFIC_BITS: bv32 := 0x0FFF_FFFF

  function Granted(mask: bv32, bit: bv32, specific: bv32): bv32
  {
    if mask & bit != 0 then specific else 0
  }

  function Specific(mask: bv32): bv32
  {
    mask & SPECIFIC_BITS
  }

  function Or(x: bv32, a: bv32, b: bv32, c: bv32, d: bv32): bv32
  {
    x | a | b | c | d
  }

  /** What a stored mask grants on the target. */
  function MapGeneric(r: Rights, mask: bv32): bv32
    requires |r.generic| == 4
  {
    Or(Specific(mask), Granted(mask, GENERIC_READ, r.generic[0]), Granted(mask, GENERIC_WRITE, r.generic[1]),
       Granted(mask, GENERIC_EXECUTE, r.generic[2]), Granted(mask, GENERIC_ALL, r.generic[3]))
  }

  lemma GrantedUnion(a: bv32, b: bv32, bit: bv32, specific: bv32)
    ensures Granted(a | b, bit, specific) == Granted(a, bit, specific) | Granted(b, bit, specific)
  {
    AndOr(a, b, bit);
    BothZero(a & bit, b & bit);
    OrUnits(specific);
  }

  lemma AndOr(a: bv32, b: bv32, m: bv32)
    ensures (a | b) & m == (a & m) | (b & m)
  {
  }

  lemma OrUnits(x: bv32)
    ensures x | 0 == x && 0 | x == x && x | x == x
  {
  }

  lemma BothZero(x: bv32, y: bv32)
    ensures x | y == 0 <==> x == 0 && y == 0
  {
  }

  lemma Regroup(a: bv32, a0: bv32, a1: bv32, a2: bv32, a3: bv32, b: bv32, b0: bv32, b1: bv32, b2: bv32, b3: bv32)
    ensures Or(a | b, a0 | b0, a1 | b1, a2 | b2, a3 | b3) == Or(a, a0, a1, a2, a3) | Or(b, b0, b1, b2, b3)
  {
  }

  /** Mapping leaves no generic bit. */
  lemma MapGenericClears(t: Target, mask: bv32)
    ensures MapGeneric(RightsOf(t), mask) & GENERIC_BITS == 0
  {
  }

  /** A mask of specific bits is left alone, so mapping twice is mapping once. */
  lemma MapGenericFixed(t: Target, mask: bv32)
    ensures mask & GENERIC_BITS == 0 ==> MapGeneric(RightsOf(t), mask) == mask
    ensures MapGeneric(RightsOf(t), MapGeneric(RightsOf(t), mask)) == MapGeneric(RightsOf(t), mask)
  {
    MapGenericClears(t, mask);
    SpecificFixed(t, mask);
    SpecificFixed(t, MapGeneric(RightsOf(t), mask));
    hide MapGeneric, RightsOf;
  }

  lemma SpecificFixed(t: Target, mask: bv32)
    ensures mask & GENERIC_BITS == 0 ==> MapGeneric(RightsOf(t), mask) == mask
  {
  }

  function Both(a: bv32, b: bv32): bv32
  {
    a | b
  }

  lemma GrantedBoth(a: bv32, b: bv32, bit: bv32, specific: bv32)
    ensures Granted(Both(a, b), bit, specific) == Both(Granted(a, bit, specific), Granted(b, bit, specific))
  {
    GrantedUnion(a, b, bit, specific);
    hide Granted;
  }

  lemma SpecificBoth(a: bv32, b: bv32)
    ensures Specific(Both(a, b)) == Both(Specific(a), Specific(b))
  {
    Distribute(a, b, SPECIFIC_BITS);
    hide Both;
  }

  lemma Distribute(a: bv32, b: bv32, m: bv32)
    ensures Both(a, b) & m == Both(a & m, b & m)
  {
  }

  lemma RegroupBoth(a: bv32, a0: bv32, a1: bv32, a2: bv32, a3: bv32, b: bv32, b0: bv32, b1: bv32, b2: bv32, b3: bv32)
    ensures Or(Both(a, b), Both(a0, b0), Both(a1, b1), Both(a2, b2), Both(a3, b3)) ==
            Both(Or(a, a0, a1, a2, a3), Or(b, b0, b1, b2, b3))
  {
    Regroup(a, a0, a1, a2, a3, b, b0, b1, b2, b3);
  }

  /** Naming rights one by one or in one mask grants the same. */
  lemma MapGenericUnion(t: Target, a: bv32, b: bv32)
    ensures MapGeneric(RightsOf(t), Both(a, b)) == Both(MapGeneric(RightsOf(t), a), MapGeneric(RightsOf(t), b))
  {
    var g := RightsOf(t).generic;
    hide RightsOf, Granted, Or, Both, Specific;
    SpecificBoth(a, b);
    GrantedBoth(a, b, GENERIC_READ, g[0]);
    GrantedBoth(a, b, GENERIC_WRITE, g[1]);
    GrantedBoth(a, b, GENERIC_EXECUTE, g[2]);
    GrantedBoth(a, b, GENERIC_ALL, g[3]);
    RegroupBoth(Specific(a), Granted(a, GENERIC_READ, g[0]), Granted(a, GENERIC_WRITE, g[1]),
                Granted(a, GENERIC_EXECUTE, g[2]), Granted(a, GENERIC_ALL, g[3]),
                Specific(b), Granted(b, GENERIC_READ, g[0]), Granted(b, GENERIC_WRITE, g[1]),
                Granted(b, GENERIC_EXECUTE, g[2]), Granted(b, GENERIC_ALL, g[3]));
  }

  /** What each generic bit grants on each target: with the union law this fixes the whole mapping. */
  lemma GenericRightsAre()
    ensures MapGeneric(FILE_RIGHTS, GENERIC_READ) == 0x0012_0089 &&
            MapGeneric(FILE_RIGHTS, GENERIC_WRITE) == 0x0012_0116
    ensures MapGeneric(FILE_RIGHTS, GENERIC_EXECUTE) == 0x0012_00A0 &&
            MapGeneric(FILE_RIGHTS, GENERIC_ALL) == FILE_NAMED
    ensures MapGeneric(REGISTRY_RIGHTS, GENERIC_READ) == 0x0002_0019 &&
            MapGeneric(REGISTRY_RIGHTS, GENERIC_WRITE) == 0x0002_0006
    ensures MapGeneric(REGISTRY_RIGHTS, GENERIC_EXECUTE) == 0x0002_0019 &&
            MapGeneric(REGISTRY_RIGHTS, GENERIC_ALL) == REGISTRY_NAMED
  {
  }

  // --------------------------------------------------------------------- names

  function Minus(a: bv32, b: bv32): bv32
  {
    a & !b
  }

  predicate Within(a: bv32, b: bv32)
  {
    a & b == a
  }

  predicate Meets(a: bv32, b: bv32)
  {
    a & b != 0
  }

  function Union(rights: seq<Right>): bv32
  {
    if rights == [] then 0 else Both(rights[0].bits, Union(rights[1..]))
  }

  /** The composites reported for a mask, given the bits no earlier name covered. */
  function PickComposites(rights: seq<Right>, mask: bv32, left: bv32): (seq<Right>, bv32)
  {
    if rights == [] then ([], left)
    else if Within(rights[0].bits, mask) && Meets(left, rights[0].bits) then
      var (picked, rest) := PickComposites(rights[1..], mask, Minus(left, rights[0].bits));
      ([rights[0]] + picked, rest)
    else PickComposites(rights[1..], mask, left)
  }

  function PickSingles(rights: seq<Right>, left: bv32): (seq<Right>, bv32)
  {
    if rights == [] then ([], left)
    else if Meets(left, rights[0].bits) then
      var (picked, rest) := PickSingles(rights[1..], Minus(left, rights[0].bits));
      ([rights[0]] + picked, rest)
    else PickSingles(rights[1..], left)
  }

  function Picked(r: Rights, mask: bv32): seq<Right>
  {
    var (composites, left) := PickComposites(r.composites, mask, mask);
    composites + PickSingles(r.singles, left).0
  }

  function NamesOf(rights: seq<Right>): (names: seq<RightName>)
    ensures |names| == |rights| && forall k :: 0 <= k < |rights| ==> names[k] == rights[k].name
  {
    seq(|rights|, k requires 0 <= k < |rights| => rights[k].name)
  }

  function Names(r: Rights, mask: bv32): seq<RightName>
  {
    NamesOf(Picked(r, mask))
  }

  function Find(rights: seq<Right>, name: RightName): Option<bv32>
  {
    if rights == [] then None
    else if rights[0].name == name then Some(rights[0].bits)
    else Find(rights[1..], name)
  }

  function Lookup(r: Rights, name: RightName): Option<bv32>
  {
    Find(r.composites + r.singles + r.aliases, name)
  }

  /** The mask a list of names spells, none when one is unknown. */
  function Spelled(r: Rights, names: seq<RightName>): Option<bv32>
  {
    if names == [] then Some(0)
    else
      var first, rest := Lookup(r, names[0]), Spelled(r, names[1..]);
      if first.None? || rest.None? then None else Some(Both(first.value, rest.value))
  }

  // --------------------------------------------------------- facts about tables

  predicate OneBit(b: bv32)
  {
    b & (b - 1) == 0
  }

  /** What the two tables guarantee: singles are single bits, composites consist of named
      bits, and a name means one thing. */
  ghost predicate Table(r: Rights)
  {
    && (forall k :: 0 <= k < |r.singles| ==> OneBit(r.singles[k].bits))
    && (forall k :: 0 <= k < |r.composites| ==> Within(r.composites[k].bits, Union(r.singles)))
    && (forall i, j :: 0 <= i < j < |r.composites + r.singles| ==>
          (r.composites + r.singles)[i].name != (r.composites + r.singles)[j].name)
  }

  lemma WithinBoth(a: bv32, b: bv32, m: bv32)
    requires Within(a, m) && Within(b, m)
    ensures Within(Both(a, b), m)
  {
  }

  lemma WithinTrans(a: bv32, b: bv32, c: bv32)
    requires Within(a, b) && Within(b, c)
    ensures Within(a, c)
  {
  }

  lemma WithinLeft(a: bv32, b: bv32)
    ensures Within(a, Both(a, b)) && Within(b, Both(a, b))
  {
  }

  lemma MinusTwice(x: bv32, a: bv32, b: bv32)
    ensures Minus(Minus(x, a), b) == Minus(x, Both(a, b)) && Within(Minus(x, a), x)
  {
  }

  lemma MinusNone(x: bv32)
    ensures Minus(x, 0) == x && Within(0, x) && !Meets(x, 0) && Both(x, 0) == x
  {
  }

  lemma MinusClears(x: bv32, y: bv32, a: bv32)
    requires Within(y, Minus(x, a))
    ensures !Meets(y, a)
  {
  }

  lemma MeetsWithin(y: bv32, x: bv32, a: bv32)
    requires Within(y, x) && !Meets(x, a)
    ensures !Meets(y, a)
  {
  }

  lemma MeetsBoth(x: bv32, a: bv32, b: bv32)
    ensures Meets(x, Both(a, b)) <==> Meets(x, a) || Meets(x, b)
  {
    hide Meets, Both;
    if !Meets(x, Both(a, b)) {
      MeetsApart(x, a, b);
    } else if !Meets(x, a) && !Meets(x, b) {
      MeetsJoined(x, a, b);
    }
  }

  lemma MeetsApart(x: bv32, a: bv32, b: bv32)
    requires !Meets(x, Both(a, b))
    ensures !Meets(x, a) && !Meets(x, b)
  {
  }

  lemma MeetsJoined(x: bv32, a: bv32, b: bv32)
    requires !Meets(x, a) && !Meets(x, b)
    ensures !Meets(x, Both(a, b))
  {
  }

  lemma SingleTaken(left: bv32, bit: bv32)
    requires OneBit(bit) && Meets(left, bit)
    ensures Within(bit, left)
  {
  }

  lemma CoverExactly(mask: bv32, covered: bv32, named: bv32)
    requires Within(covered, mask) && Within(covered, named) && !Meets(Minus(mask, covered), named)
    ensures covered == mask & named
  {
  }

  lemma {:induction false} CompositesLaw(rights: seq<Right>, mask: bv32, left: bv32, named: bv32)
    requires forall k :: 0 <= k < |rights| ==> Within(rights[k].bits, named)
    ensures var (picked, rest) := PickComposites(rights, mask, left);
            && Within(Union(picked), mask) && Within(Union(picked), named) && rest == Minus(left, Union(picked))
            && forall k :: 0 <= k < |picked| ==> picked[k] in rights
  {
    hide Within, Both, Minus, Meets;
    MinusNone(left);
    MinusNone(mask);
    MinusNone(named);
    if rights != [] {
      var b := rights[0].bits;
      if Within(b, mask) && Meets(left, b) {
        var (picked, rest) := PickComposites(rights[1..], mask, Minus(left, b));
        CompositesLaw(rights[1..], mask, Minus(left, b), named);
        assert ([rights[0]] + picked)[1..] == picked;
        WithinBoth(b, Union(picked), mask);
        WithinBoth(b, Union(picked), named);
        MinusTwice(left, b, Union(picked));
      } else {
        CompositesLaw(rights[1..], mask, left, named);
      }
    }
  }

  lemma {:induction false} SinglesLaw(rights: seq<Right>, left: bv32)
    requires forall k :: 0 <= k < |rights| ==> OneBit(rights[k].bits)
    ensures var (picked, rest) := PickSingles(rights, left);
            && Within(Union(picked), left) && rest == Minus(left, Union(picked))
            && Within(Union(picked), Union(rights)) && !Meets(rest, Union(rights))
            && forall k :: 0 <= k < |picked| ==> picked[k] in rights
  {
    hide Within, Both, Minus, Meets, OneBit;
    MinusNone(left);
    MinusNone(Union(rights));
    if rights != [] {
      var b, others := rights[0].bits, Union(rights[1..]);
      WithinLeft(b, others);
      if Meets(left, b) {
        var after := Minus(left, b);
        var (picked, rest) := PickSingles(rights[1..], after);
        SinglesLaw(rights[1..], after);
        assert ([rights[0]] + picked)[1..] == picked;
        SingleTaken(left, b);
        MinusTwice(left, b, Union(picked));
        WithinTrans(Union(picked), after, left);
        WithinBoth(b, Union(picked), left);
        WithinTrans(Union(picked), others, Both(b, others));
        WithinBoth(b, Union(picked), Both(b, others));
        MinusTwice(after, Union(picked), 0);
        MinusNone(rest);
        WithinMinus(after, Union(picked));
        MinusClears(left, rest, b);
        MeetsBoth(rest, b, others);
      } else {
        var (picked, rest) := PickSingles(rights[1..], left);
        SinglesLaw(rights[1..], left);
        WithinTrans(Union(picked), others, Both(b, others));
        WithinMinus(left, Union(picked));
        MeetsWithin(rest, left, b);
        MeetsBoth(rest, b, others);
      }
    }
  }

  lemma WithinMinus(x: bv32, a: bv32)
    ensures Within(Minus(x, a), x)
  {
  }

  lemma {:induction false} UnionAppend(a: seq<Right>, b: seq<Right>)
    ensures Union(a + b) == Both(Union(a), Union(b))
  {
    hide Both;
    if a == [] {
      assert a + b == b;
      BothLaws(0, 0, Union(b));
    } else {
      UnionAppend(a[1..], b);
      assert (a + b)[1..] == a[1..] + b;
      BothLaws(a[0].bits, Union(a[1..]), Union(b));
    }
  }

  lemma BothLaws(a: bv32, b: bv32, c: bv32)
    ensures Both(a, Both(b, c)) == Both(Both(a, b), c) && Both(0, c) == c
  {
  }

  /** The names reported for a mask cover exactly its named bits. */
  lemma NamesCover(r: Rights, mask: bv32)
    requires Table(r)
    ensures Union(Picked(r, mask)) == mask & Union(r.singles)
    ensures forall k :: 0 <= k < |Picked(r, mask)| ==> Picked(r, mask)[k] in r.composites + r.singles
  {
    hide Within, Both, Minus, Meets, OneBit, Union, PickComposites, PickSingles;
    var named := Union(r.singles);
    var (composites, left) := PickComposites(r.composites, mask, mask);
    CompositesLaw(r.composites, mask, mask, named);
    var (singles, rest) := PickSingles(r.singles, left);
    SinglesLaw(r.singles, left);
    UnionAppend(composites, singles);
    var c, s := Union(composites), Union(singles);
    WithinMinus(mask, c);
    WithinTrans(s, left, mask);
    WithinBoth(c, s, mask);
    WithinBoth(c, s, named);
    MinusTwice(mask, c, s);
    CoverExactly(mask, Both(c, s), named);
  }

  lemma {:induction false} FindIn(rights: seq<Right>, more: seq<Right>, i: nat)
    requires i < |rights| && forall j :: 0 <= j < i ==> rights[j].name != rights[i].name
    ensures Find(rights + more, rights[i].name) == Some(rights[i].bits)
  {
    assert (rights + more)[0] == rights[0];
    if i > 0 {
      assert (rights + more)[1..] == rights[1..] + more;
      FindIn(rights[1..], more, i - 1);
    }
  }

  lemma {:induction false} PickedSpell(r: Rights, picked: seq<Right>)
    requires Table(r) && forall k :: 0 <= k < |picked| ==> picked[k] in r.composites + r.singles
    ensures Spelled(r, NamesOf(picked)) == Some(Union(picked))
  {
    hide Both, OneBit, Within;
    if picked != [] {
      var all := r.composites + r.singles;
      var i :| 0 <= i < |all| && all[i] == picked[0];
      FindIn(all, r.aliases, i);
      PickedSpell(r, picked[1..]);
      assert NamesOf(picked)[1..] == NamesOf(picked[1..]);
    }
  }

  /** Looking the reported names up again spells the named part of the mask, so a mask of
      named bits reads back from its names. */
  lemma NamesReadBack(r: Rights, mask: bv32)
    requires Table(r)
    ensures Spelled(r, Names(r, mask)) == Some(mask & Union(r.singles))
    ensures mask & Union(r.singles) == mask ==> Spelled(r, Names(r, mask)) == Some(mask)
  {
    hide Union, Picked;
    NamesCover(r, mask);
    PickedSpell(r, Picked(r, mask));
  }

  const FILE_NAMED: bv32 := 0x001F_01FF
  const REGISTRY_NAMED: bv32 := 0x000F_003F

  lemma UnionNone()
    ensures Union([]) == 0
  {
  }

  lemma UnionCons(first: Right, rest: seq<Right>, known: bv32, sum: bv32) returns (all: seq<Right>)
    requires Union(rest) == known && Both(first.bits, known) == sum
    requires OneBit(first.bits) && forall k :: 0 <= k < |rest| ==> OneBit(rest[k].bits)
    ensures all == [first] + rest && Union(all) == sum
    ensures forall k :: 0 <= k < |all| ==> OneBit(all[k].bits)
  {
    hide OneBit, Both;
    all := [first] + rest;
    assert all[1..] == rest;
  }

  lemma FileSingles()
    ensures Union(FILE_RIGHTS.singles) == FILE_NAMED
    ensures forall k :: 0 <= k < |FILE_RIGHTS.singles| ==> OneBit(FILE_RIGHTS.singles[k].bits)
  {
    hide Union;
    UnionNone();
    var s13 := UnionCons(Right(Synchronize, 0x100000), [], 0x0, 0x100000);
    var s12 := UnionCons(Right(TakeOwnership, 0x80000), s13, 0x100000, 0x180000);
    var s11 := UnionCons(Right(ChangePermissions, 0x40000), s12, 0x180000, 0x1C0000);
    var s10 := UnionCons(Right(ReadPermissions, 0x20000), s11, 0x1C0000, 0x1E0000);
    var s9 := UnionCons(Right(Delete, 0x10000), s10, 0x1E0000, 0x1F0000);
    var s8 := UnionCons(Right(WriteAttributes, 0x100), s9, 0x1F0000, 0x1F0100);
    var s7 := UnionCons(Right(ReadAttributes, 0x80), s8, 0x1F0100, 0x1F0180);
    var s6 := UnionCons(Right(DeleteSubdirectoriesAndFiles, 0x40), s7, 0x1F0180, 0x1F01C0);
    var s5 := UnionCons(Right(ExecuteFile, 0x20), s6, 0x1F01C0, 0x1F01E0);
    var s4 := UnionCons(Right(WriteExtendedAttributes, 0x10), s5, 0x1F01E0, 0x1F01F0);
    var s3 := UnionCons(Right(ReadExtendedAttributes, 0x8), s4, 0x1F01F0, 0x1F01F8);
    var s2 := UnionCons(Right(AppendData, 0x4), s3, 0x1F01F8, 0x1F01FC);
    var s1 := UnionCons(Right(WriteData, 0x2), s2, 0x1F01FC, 0x1F01FE);
    var s0 := UnionCons(Right(ReadData, 0x1), s1, 0x1F01FE, 0x1F01FF);
    assert s0 == FILE_RIGHTS.singles;
  }

  lemma RegistrySingles()
    ensures Union(REGISTRY_RIGHTS.singles) == REGISTRY_NAMED
    ensures forall k :: 0 <= k < |REGISTRY_RIGHTS.singles| ==> OneBit(REGISTRY_RIGHTS.singles[k].bits)
  {
    hide Union;
    UnionNone();
    var s9 := UnionCons(Right(TakeOwnership, 0x80000), [], 0x0, 0x80000);
    var s8 := UnionCons(Right(ChangePermissions, 0x40000), s9, 0x80000, 0xC0000);
    var s7 := UnionCons(Right(ReadPermissions, 0x20000), s8, 0xC0000, 0xE0000);
    var s6 := UnionCons(Right(Delete, 0x10000), s7, 0xE0000, 0xF0000);
    var s5 := UnionCons(Right(CreateLink, 0x20), s6, 0xF0000, 0xF0020);
    var s4 := UnionCons(Right(Notify, 0x10), s5, 0xF0020, 0xF0030);
    var s3 := UnionCons(Right(EnumerateSubkeys, 0x8), s4, 0xF0030, 0xF0038);
    var s2 := UnionCons(Right(CreateSubkey, 0x4), s3, 0xF0038, 0xF003C);
    var s1 := UnionCons(Right(SetValue, 0x2), s2, 0xF003C, 0xF003E);
    var s0 := UnionCons(Right(QueryValues, 0x1), s1, 0xF003E, 0xF003F);
    assert s0 == REGISTRY_RIGHTS.singles;
  }

  /** The place of each name in a target's table, composites first. */
  function Place(t: Target, name: RightName): nat
  {
    match name
    case FullControl => 0
    case Modify => 1
    case ReadAndExecute => 2
    case Read => 3
    case Write => 4
    case ReadKey => 1
    case WriteKey => 2
    case ReadData => 5
    case WriteData => 6
    case AppendData => 7
    case ReadExtendedAttributes => 8
    case WriteExtendedAttributes => 9
    case ExecuteFile => 10
    case DeleteSubdirectoriesAndFiles => 11
    case ReadAttributes => 12
    case WriteAttributes => 13
    case QueryValues => 3
    case SetValue => 4
    case CreateSubkey => 5
    case EnumerateSubkeys => 6
    case Notify => 7
    case CreateLink => 8
    case Delete => if t.File? then 14 else 9
    case ReadPermissions => if t.File? then 15 else 10
    case ChangePermissions => if t.File? then 16 else 11
    case TakeOwnership => if t.File? then 17 else 12
    case Synchronize => 18
    case _ => 19
  }

  lemma FilePlaces(k: nat)
    requires k < |FILE_RIGHTS.composites + FILE_RIGHTS.singles|
    ensures Place(File, (FILE_RIGHTS.composites + FILE_RIGHTS.singles)[k].name) == k
  {
  }

  lemma RegistryPlaces(k: nat)
    requires k < |REGISTRY_RIGHTS.composites + REGISTRY_RIGHTS.singles|
    ensures Place(Registry, (REGISTRY_RIGHTS.composites + REGISTRY_RIGHTS.singles)[k].name) == k
  {
  }

  lemma NamesDiffer(t: Target, i: nat, j: nat)
    requires i < j < |RightsOf(t).composites + RightsOf(t).singles|
    ensures (RightsOf(t).composites + RightsOf(t).singles)[i].name !=
            (RightsOf(t).composites + RightsOf(t).singles)[j].name
  {
    hide Place;
    if t.File? {
      FilePlaces(i);
      FilePlaces(j);
    } else {
      RegistryPlaces(i);
      RegistryPlaces(j);
    }
  }

  lemma TableFrom(r: Rights, named: bv32)
    requires Union(r.singles) == named
    requires forall k :: 0 <= k < |r.singles| ==> OneBit(r.singles[k].bits)
    requires forall k :: 0 <= k < |r.composites| ==> Within(r.composites[k].bits, named)
    requires forall i, j :: 0 <= i < j < |r.composites + r.singles| ==>
               (r.composites + r.singles)[i].name != (r.composites + r.singles)[j].name
    ensures Table(r)
  {
  }

  lemma AllNamesDiffer(t: Target)
    ensures var r := RightsOf(t);
            forall i, j :: 0 <= i < j < |r.composites + r.singles| ==>
              (r.composites + r.singles)[i].name != (r.composites + r.singles)[j].name
  {
    hide RightsOf;
    var r := RightsOf(t);
    forall i, j | 0 <= i < j < |r.composites + r.singles|
      ensures (r.composites + r.singles)[i].name != (r.composites + r.singles)[j].name
    {
      NamesDiffer(t, i, j);
    }
  }

  function NamedBits(t: Target): bv32
  {
    if t.File? then FILE_NAMED else REGISTRY_NAMED
  }

  lemma SinglesHold(t: Target)
    ensures Union(RightsOf(t).singles) == NamedBits(t)
    ensures forall k :: 0 <= k < |RightsOf(t).singles| ==> OneBit(RightsOf(t).singles[k].bits)
  {
    hide Union, OneBit;
    if t.File? {
      FileSingles();
    } else {
      RegistrySingles();
    }
  }

  lemma CompositesHold(t: Target)
    ensures forall k :: 0 <= k < |RightsOf(t).composites| ==> Within(RightsOf(t).composites[k].bits, NamedBits(t))
  {
  }

  lemma TablesHold(t: Target)
    ensures Table(RightsOf(t)) && Union(RightsOf(t).singles) == NamedBits(t)
  {
    SinglesHold(t);
    CompositesHold(t);
    AllNamesDiffer(t);
    hide Union, OneBit, Within, RightsOf, Table, NamedBits;
    TableFrom(RightsOf(t), NamedBits(t));
  }

  /** Both targets: the names shown for a mask spell exactly its named bits. */
  lemma ShownNamesSpellTheMask(t: Target, mask: bv32)
    ensures Spelled(RightsOf(t), Names(RightsOf(t), mask)) ==
            Some(mask & NamedBits(t))
  {
    TablesHold(t);
    NamesReadBack(RightsOf(t), mask);
    hide Table, Spelled, Names, RightsOf, Union, NamedBits;
  }

  // ----------------------------------------------------------------- the loops

  method MapMask(r: Rights, mask: bv32) returns (out: bv32)
    requires |r.generic| == 4
    ensures out == MapGeneric(r, mask)
  {
    var bits := [GENERIC_READ, GENERIC_WRITE, GENERIC_EXECUTE, GENERIC_ALL];
    ghost var g := seq(4, k requires 0 <= k < 4 => Granted(mask, bits[k], r.generic[k]));
    out := Specific(mask);
    for k := 0 to 4
      invariant out == SoFar(Specific(mask), g[..k])
    {
      SoFarSnoc(Specific(mask), g, k);
      if Meets(mask, bits[k]) {
        out := out | r.generic[k];
      }
    }
    SoFarIsOr(Specific(mask), g);
  }

  function SoFar(x: bv32, granted: seq<bv32>): bv32
  {
    if granted == [] then x else SoFar(x, granted[..|granted| - 1]) | granted[|granted| - 1]
  }

  lemma SoFarSnoc(x: bv32, granted: seq<bv32>, k: nat)
    requires k < |granted|
    ensures SoFar(x, granted[..k + 1]) == SoFar(x, granted[..k]) | granted[k]
    ensures granted[k] == 0 ==> SoFar(x, granted[..k + 1]) == SoFar(x, granted[..k])
  {
    assert granted[..k + 1][..k] == granted[..k];
    OrUnits(SoFar(x, granted[..k]));
  }

  lemma SoFarIsOr(x: bv32, g: seq<bv32>)
    requires |g| == 4
    ensures SoFar(x, g[..4]) == Or(x, g[0], g[1], g[2], g[3])
  {
    SoFarSnoc(x, g, 0);
    SoFarSnoc(x, g, 1);
    SoFarSnoc(x, g, 2);
    SoFarSnoc(x, g, 3);
    assert SoFar(x, g[..0]) == x;
    hide SoFar;
  }

  method ReportNames(r: Rights, mask: bv32) returns (names: seq<RightName>)
    ensures names == Names(r, mask)
  {
    hide Within, Minus, Meets, PickComposites, PickSingles;
    ghost var picked: seq<Right> := [];
    var left := mask;
    names := [];
    ghost var all := PickComposites(r.composites, mask, mask);
    assert r.composites[0..] == r.composites && [] + all.0 == all.0;
    for i := 0 to |r.composites|
      invariant names == NamesOf(picked)
      invariant all.0 == picked + PickComposites(r.composites[i..], mask, left).0
      invariant all.1 == PickComposites(r.composites[i..], mask, left).1
    {
      var right := r.composites[i];
      CompositesStep(r.composites, mask, left, i, picked);
      if Within(right.bits, mask) && Meets(left, right.bits) {
        names, left := names + [right.name], Minus(left, right.bits);
        picked := picked + [right];
      }
    }
    CompositesEnd(r.composites, mask, left, picked);
    names := ReportSingles(r, mask, left, names, picked);
  }

  lemma CompositesStep(rights: seq<Right>, mask: bv32, left: bv32, i: nat, done: seq<Right>)
    requires i < |rights|
    ensures var b, now := rights[i].bits, PickComposites(rights[i..], mask, left);
            if Within(b, mask) && Meets(left, b) then
              var next := PickComposites(rights[i + 1..], mask, Minus(left, b));
              done + now.0 == (done + [rights[i]]) + next.0 && now.1 == next.1
            else now == PickComposites(rights[i + 1..], mask, left)
  {
  }

  lemma CompositesEnd(rights: seq<Right>, mask: bv32, left: bv32, done: seq<Right>)
    ensures done + PickComposites(rights[|rights|..], mask, left).0 == done
    ensures PickComposites(rights[|rights|..], mask, left).1 == left
  {
  }

  method ReportSingles(r: Rights, mask: bv32, left0: bv32, names0: seq<RightName>, ghost picked0: seq<Right>)
    returns (names: seq<RightName>)
    requires names0 == NamesOf(picked0)
    ensures names == NamesOf(picked0 + PickSingles(r.singles, left0).0)
  {
    hide Minus, Meets;
    ghost var picked := picked0;
    var left := left0;
    names := names0;
    for i := 0 to |r.singles|
      invariant names == NamesOf(picked)
      invariant picked0 + PickSingles(r.singles, left0).0 == picked + PickSingles(r.singles[i..], left).0
    {
      var right := r.singles[i];
      assert r.singles[i..][1..] == r.singles[i + 1..];
      if Meets(left, right.bits) {
        names, left := names + [right.name], Minus(left, right.bits);
        picked := picked + [right];
      }
    }
    assert picked + [] == picked;
  }
}
