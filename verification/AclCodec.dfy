/** Binary ACLs (src/hostapi/acl.rs:372-490; MS-DTYP section 2.4.5). */
module AclCodec {
  import opened Wrappers
  import opened Bytes
  import opened Sids

  datatype Kind = Allow | Deny | Other(code: Byte)

  datatype Ace = Ace(kind: Kind, flags: bv8, mask: bv32, sid: Option<Sid>)

  const INHERITED: bv8 := 0x10

  predicate Inherited(ace: Ace)
  {
    ace.flags & INHERITED != 0
  }

  /** The entries a writer can encode. */
  predicate Encodable(ace: Ace)
  {
    !ace.kind.Other? && ace.sid.Some?
  }

  /** Entries as the readers build them: only other kinds lack a SID, and every SID is well formed. */
  predicate Proper(ace: Ace)
  {
    if ace.kind.Other? then ace.sid == None && ace.kind.code >= 2
    else ace.sid.Some? && WellFormed(ace.sid.value)
  }

  // ------------------------------------------------------------------- encoding

  function AceSize(ace: Ace): nat
    requires Encodable(ace)
  {
    8 + |ace.sid.value|
  }

  function AceBytes(ace: Ace): (r: seq<Byte>)
    requires Encodable(ace)
    ensures |r| == AceSize(ace)
  {
    [if ace.kind.Allow? then 0 else 1, FlagByte(ace.flags)] + Little(AceSize(ace) % 0x1_0000, 2) +
    MaskBytes(ace.mask) + ace.sid.value
  }

  function BodyBytes(aces: seq<Ace>): seq<Byte>
    requires forall k :: 0 <= k < |aces| ==> Encodable(aces[k])
  {
    if aces == [] then [] else AceBytes(aces[0]) + BodyBytes(aces[1..])
  }

  /** Building fails on an entry that cannot be encoded and past 65535 bytes; the entry count is
      truncated to sixteen bits. */
  function Build(aces: seq<Ace>): Option<seq<Byte>>
  {
    if exists k :: 0 <= k < |aces| && !Encodable(aces[k]) then None
    else
      var body := BodyBytes(aces);
      var size := 8 + |body|;
      if size > 0xFFFF then None
      else Some(Header(size, |aces| % 0x1_0000) + body)
  }

  // ------------------------------------------------------------------- decoding

  /** The entry at an offset and the offset after it. */
  function ReadAce(buf: seq<Byte>, at: nat): (r: Option<(Ace, nat)>)
    ensures r.Some? ==> Proper(r.value.0) && at + 8 <= r.value.1 <= |buf|
  {
    if at + 4 > |buf| then None
    else
      var size := FromLittle(buf[at + 2..at + 4]);
      if at + size > |buf| || size < 8 then None
      else
        var flags, mask := FlagsOf(buf[at + 1]), MaskOf(buf[at + 4..at + 8]);
        if buf[at] < 2 then
          var sid := FromBytes(buf[at + 8..at + size]);
          if sid.None? then None
          else Some((Ace(if buf[at] == 0 then Allow else Deny, flags, mask, sid), at + size))
        else Some((Ace(Other(buf[at]), flags, mask, None), at + size))
  }

  function ReadAces(buf: seq<Byte>, at: nat, count: nat): (r: Option<seq<Ace>>)
    ensures r.Some? ==> |r.value| == count && forall k :: 0 <= k < count ==> Proper(r.value[k])
    decreases count
  {
    if count == 0 then Some([])
    else
      var first := ReadAce(buf, at);
      if first.None? then None
      else
        var rest := ReadAces(buf, first.value.1, count - 1);
        if rest.None? then None else Some([first.value.0] + rest.value)
  }

  function Parse(buf: seq<Byte>): Option<seq<Ace>>
  {
    if |buf| < 8 then None
    else
      var size, count := FromLittle(buf[2..4]), FromLittle(buf[4..6]);
      if size > |buf| then None else ReadAces(buf[..size], 8, count)
  }

  // ---------------------------------------------------------------- round trips

  lemma AceReads(p: seq<Byte>, ace: Ace, q: seq<Byte>)
    requires Encodable(ace) && WellFormed(ace.sid.value)
    ensures ReadAce(p + AceBytes(ace) + q, |p|) == Some((ace, |p| + AceSize(ace)))
  {
    var buf, at, size := p + AceBytes(ace) + q, |p|, AceSize(ace);
    Limits();
    LittleRoundTrip(size, 2);
    FlagsRoundTrip(ace.flags);
    MaskRoundTrip(ace.mask);
    AceLayout(p, ace, q);
    FromBytesReads(ace.sid.value, []);
    assert ace.sid.value + [] == ace.sid.value;
    hide FlagByte, FlagsOf, MaskOf, MaskBytes, Little, FromLittle, WellFormed, FromBytes, AceBytes;
  }

  lemma AceLayout(p: seq<Byte>, ace: Ace, q: seq<Byte>)
    requires Encodable(ace) && WellFormed(ace.sid.value)
    ensures var buf, at, size := p + AceBytes(ace) + q, |p|, AceSize(ace);
            && at + size <= |buf| && size < 0x1_0000
            && buf[at] == (if ace.kind.Allow? then 0 else 1)
            && buf[at + 1] == FlagByte(ace.flags)
            && buf[at + 2..at + 4] == Little(size, 2)
            && buf[at + 4..at + 8] == MaskBytes(ace.mask)
            && buf[at + 8..at + size] == ace.sid.value
  {
  }

  lemma {:induction false} AcesRead(p: seq<Byte>, aces: seq<Ace>, q: seq<Byte>)
    requires forall k :: 0 <= k < |aces| ==> Encodable(aces[k]) && WellFormed(aces[k].sid.value)
    ensures ReadAces(p + BodyBytes(aces) + q, |p|, |aces|) == Some(aces)
    decreases aces
  {
    hide ReadAce, AceBytes, WellFormed;
    if aces != [] {
      var first, rest := AceBytes(aces[0]), BodyBytes(aces[1..]);
      AceReads(p, aces[0], rest + q);
      AcesRead(p + first, aces[1..], q);
      assert p + BodyBytes(aces) + q == p + first + (rest + q) == (p + first) + rest + q;
      assert [aces[0]] + aces[1..] == aces;
    }
  }

  /** Every entry takes at least sixteen bytes, so a buildable list never overflows the count. */
  lemma {:induction false} BodySize(aces: seq<Ace>)
    requires forall k :: 0 <= k < |aces| ==> Encodable(aces[k]) && WellFormed(aces[k].sid.value)
    ensures |BodyBytes(aces)| >= 16 * |aces|
  {
    hide AceBytes;
    if aces != [] {
      BodySize(aces[1..]);
    }
  }

  /** Reading a built list back gives exactly the entries that were written: neither the size
      nor the sixteen-bit count is ever truncated. */
  lemma ParseReadsBuild(aces: seq<Ace>)
    requires forall k :: 0 <= k < |aces| && aces[k].sid.Some? ==> WellFormed(aces[k].sid.value)
    requires Build(aces).Some?
    ensures Parse(Build(aces).value) == Some(aces) && |aces| < 0x1_0000
  {
    var body := BodyBytes(aces);
    BodySize(aces);
    hide ReadAces, WellFormed, AceBytes, BodyBytes, Little, FromLittle, Header;
    var size, count := 8 + |body|, |aces|;
    var header := Header(size, count);
    var buf := header + body;
    assert Build(aces) == Some(buf);
    HeaderReads(size, count, body);
    AcesRead(header, aces, []);
    assert buf + [] == buf;
  }

  function Header(size: nat, count: nat): (r: seq<Byte>)
    ensures |r| == 8
  {
    [2, 0] + Little(size, 2) + Little(count, 2) + [0, 0]
  }

  lemma HeaderReads(size: nat, count: nat, body: seq<Byte>)
    requires size == 8 + |body| < 0x1_0000 && count < 0x1_0000
    ensures var buf := Header(size, count) + body;
            FromLittle(buf[2..4]) == size && FromLittle(buf[4..6]) == count && buf[..size] == buf
  {
    Limits();
    LittleRoundTrip(size, 2);
    LittleRoundTrip(count, 2);
    hide Little, FromLittle;
    var buf := Header(size, count) + body;
    assert buf[2..4] == Little(size, 2) && buf[4..6] == Little(count, 2);
  }

  /** Building succeeds exactly for lists of allow and deny entries with SIDs that fit 64 KiB. */
  lemma BuildSucceedsIff(aces: seq<Ace>)
    ensures Build(aces).Some? <==>
            (forall k :: 0 <= k < |aces| ==> Encodable(aces[k])) && 8 + TotalSize(aces) <= 0xFFFF
  {
    if forall k :: 0 <= k < |aces| ==> Encodable(aces[k]) {
      BodyLength(aces);
    }
  }

  function TotalSize(aces: seq<Ace>): nat
  {
    if aces == [] then 0
    else (if Encodable(aces[0]) then 8 + |aces[0].sid.value| else 0) + TotalSize(aces[1..])
  }

  lemma {:induction false} BodyLength(aces: seq<Ace>)
    requires forall k :: 0 <= k < |aces| ==> Encodable(aces[k])
    ensures |BodyBytes(aces)| == TotalSize(aces)
  {
    hide AceBytes;
    if aces != [] {
      BodyLength(aces[1..]);
    }
  }

  // ---------------------------------------------------------------- the loops

  lemma {:induction false} BodySnoc(aces: seq<Ace>, i: nat)
    requires i < |aces| && forall k :: 0 <= k <= i ==> Encodable(aces[k])
    ensures BodyBytes(aces[..i + 1]) == BodyBytes(aces[..i]) + AceBytes(aces[i])
  {
    hide AceBytes;
    if i > 0 {
      BodySnoc(aces[1..], i - 1);
      assert aces[1..][..i] == aces[..i + 1][1..] && aces[1..][..i - 1] == aces[..i][1..];
    } else {
      assert aces[..1] == [aces[0]];
    }
  }

  method BuildAcl(aces: seq<Ace>) returns (r: Option<seq<Byte>>)
    ensures r == Build(aces)
  {
    hide AceBytes;
    var body := [];
    for i := 0 to |aces|
      invariant forall k :: 0 <= k < i ==> Encodable(aces[k])
      invariant body == BodyBytes(aces[..i])
    {
      var ace := aces[i];
      if ace.kind.Other? || ace.sid.None? {
        return None;
      }
      BodySnoc(aces, i);
      body := body + AceBytes(ace);
    }
    assert aces[..|aces|] == aces;
    var size := 8 + |body|;
    if size > 0xFFFF {
      return None;
    }
    r := Some(Header(size, |aces| % 0x1_0000) + body);
  }

  method ParseAcl(buf: seq<Byte>) returns (r: Option<seq<Ace>>)
    ensures r == Parse(buf)
  {
    hide ReadAce;
    if |buf| < 8 {
      return None;
    }
    var size, count := FromLittle(buf[2..4]), FromLittle(buf[4..6]);
    if size > |buf| {
      return None;
    }
    var body := buf[..size];
    var aces, at := [], 8;
    ghost var all := ReadAces(body, 8, count);
    assert all.Some? ==> [] + all.value == all.value;
    for i := 0 to count
      invariant var rest := ReadAces(body, at, count - i);
                ReadAces(body, 8, count) == if rest.None? then None else Some(aces + rest.value)
    {
      var next := ReadAce(body, at);
      if next.None? {
        return None;
      }
      AppendOne(aces, next.value.0, ReadAces(body, next.value.1, count - i - 1));
      aces, at := aces + [next.value.0], next.value.1;
    }
    assert aces + [] == aces;
    r := Some(aces);
  }

  lemma AppendOne(done: seq<Ace>, ace: Ace, rest: Option<seq<Ace>>)
    ensures rest.Some? ==> done + ([ace] + rest.value) == (done + [ace]) + rest.value
  {
  }
}
