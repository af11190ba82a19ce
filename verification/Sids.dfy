/** Security identifiers: the binary layout and the string form
    (src/hostapi/acl.rs:54-132; MS-DTYP sections 2.4.2.1 and 2.4.2.2). */
module Sids {
  import opened Wrappers
  import opened Bytes
  import opened Texts

  type Sid = seq<Byte>

  /** Revision 1, at most fifteen subauthorities, and exactly the bytes the count asks for. */
  predicate WellFormed(sid: Sid)
  {
    8 <= |sid| && sid[0] == 1 && sid[1] <= 15 && |sid| == 8 + 4 * sid[1]
  }

  /** The SID at the start of a buffer that may run past it. */
  function FromBytes(buf: seq<Byte>): (r: Option<Sid>)
    ensures r.Some? ==> WellFormed(r.value) && r.value <= buf
  {
    if |buf| < 8 || buf[0] != 1 then None
    else
      var len: int := 8 + 4 * (buf[1] as int);
      if buf[1] > 15 || |buf| < len then None else Some(buf[..len])
  }

  lemma FromBytesReads(sid: Sid, more: seq<Byte>)
    requires WellFormed(sid)
    ensures FromBytes(sid + more) == Some(sid)
  {
  }

  function SubBytes(subs: seq<nat>): (r: seq<Byte>)
    ensures |r| == 4 * |subs|
  {
    if subs == [] then [] else Little(subs[0], 4) + SubBytes(subs[1..])
  }

  function SubsOf(bytes: seq<Byte>): seq<nat>
    requires |bytes| % 4 == 0
  {
    if bytes == [] then [] else [FromLittle(bytes[..4])] + SubsOf(bytes[4..])
  }

  // --------------------------------------------------------------- the text form

  function AuthorityText(authority: nat): string
  {
    if authority < 0x1_0000_0000 then Decimal(authority) else "0x" + Hex(authority, 12)
  }

  function SubTexts(subs: seq<nat>): (r: seq<string>)
    ensures |r| == |subs| && forall k :: 0 <= k < |r| ==> r[k] == Decimal(subs[k])
  {
    seq(|subs|, k requires 0 <= k < |subs| => Decimal(subs[k]))
  }

  /** The form ConvertSidToStringSidW produces. */
  function Show(sid: Sid): string
    requires WellFormed(sid)
  {
    Join(["S", "1", AuthorityText(FromBig(sid[2..8]))] + SubTexts(SubsOf(sid[8..])), '-')
  }

  function ReadAuthority(text: string): Option<nat>
  {
    var n := if |text| >= 2 && text[0] == '0' && (text[1] == 'x' || text[1] == 'X') then ReadUnsigned(text[2..], 16)
             else ReadUnsigned(text, 10);
    if n.Some? && n.value < 0x1_0000_0000_0000 then n else None
  }

  function ReadSubs(texts: seq<string>): (r: Option<seq<nat>>)
    ensures r.Some? ==> |r.value| == |texts| && forall k :: 0 <= k < |texts| ==> r.value[k] < 0x1_0000_0000
  {
    if texts == [] then Some([])
    else if !IsDigits(texts[0]) then None
    else
      var n, rest := Numeral(texts[0], 10), ReadSubs(texts[1..]);
      if n.None? || n.value >= 0x1_0000_0000 || rest.None? then None else Some([n.value] + rest.value)
  }

  function Parse(text: string): (r: Option<Sid>)
    ensures r.Some? ==> WellFormed(r.value)
  {
    var parts := Split(text, '-');
    if (parts[0] != "S" && parts[0] != "s") || |parts| < 3 || parts[1] != "1" then None
    else
      var authority, subs := ReadAuthority(parts[2]), ReadSubs(parts[3..]);
      if authority.None? || subs.None? || |subs.value| > 15 then None
      else Some([1, |subs.value|] + Big(authority.value, 6) + SubBytes(subs.value))
  }

  lemma AuthorityReads(authority: nat)
    requires authority < 0x1_0000_0000_0000
    ensures ReadAuthority(AuthorityText(authority)) == Some(authority) && '-' !in AuthorityText(authority)
  {
    if authority < 0x1_0000_0000 {
      DecimalReads(authority);
    } else {
      assert Power16(12) == 0x1_0000_0000_0000 by {
        assert Power16(2) == 0x100 && Power16(4) == 0x1_0000 && Power16(6) == 0x100_0000;
        assert Power16(8) == 0x1_0000_0000 && Power16(10) == 0x100_0000_0000;
      }
      HexReads(authority, 12);
      assert ("0x" + Hex(authority, 12))[2..] == Hex(authority, 12);
    }
  }

  lemma {:induction false} SubsRead(subs: seq<nat>)
    requires forall k :: 0 <= k < |subs| ==> subs[k] < 0x1_0000_0000
    ensures ReadSubs(SubTexts(subs)) == Some(subs)
    ensures forall k :: 0 <= k < |subs| ==> '-' !in SubTexts(subs)[k]
  {
    if subs != [] {
      SubsRead(subs[1..]);
      DecimalReads(subs[0]);
      assert SubTexts(subs)[1..] == SubTexts(subs[1..]);
      assert [subs[0]] + subs[1..] == subs;
      forall k | 0 <= k < |subs| ensures '-' !in SubTexts(subs)[k] {
        DecimalReads(subs[k]);
      }
    }
  }

  lemma {:induction false} SubsRoundTrip(bytes: seq<Byte>)
    requires |bytes| % 4 == 0
    ensures SubBytes(SubsOf(bytes)) == bytes && 4 * |SubsOf(bytes)| == |bytes|
    ensures forall k :: 0 <= k < |SubsOf(bytes)| ==> SubsOf(bytes)[k] < 0x1_0000_0000
  {
    if bytes != [] {
      SubsRoundTrip(bytes[4..]);
      FromLittleRoundTrip(bytes[..4]);
      Limits();
      assert bytes[..4] + bytes[4..] == bytes;
      assert SubsOf(bytes)[1..] == SubsOf(bytes[4..]);
    }
  }

  /** Reading a SID's display text gives that SID back. */
  lemma ParseReadsShow(sid: Sid)
    requires WellFormed(sid)
    ensures Parse(Show(sid)) == Some(sid)
  {
    var authority, subs := FromBig(sid[2..8]), SubsOf(sid[8..]);
    FromBigRoundTrip(sid[2..8]);
    Limits();
    AuthorityReads(authority);
    SubsRoundTrip(sid[8..]);
    SubsRead(subs);
    hide FromBig, SubsOf, SubBytes, Big, AuthorityText, SubTexts, ReadAuthority, ReadSubs, Limit;
    var parts := ["S", "1", AuthorityText(authority)] + SubTexts(subs);
    SplitJoins(parts, '-');
    hide Split, Join;
    assert parts[3..] == SubTexts(subs);
    assert sid == [1, |subs|] + sid[2..8] + sid[8..];
  }

  /** No two SIDs are shown alike. */
  lemma ShowIsInjective(a: Sid, b: Sid)
    requires WellFormed(a) && WellFormed(b) && Show(a) == Show(b)
    ensures a == b
  {
    ParseReadsShow(a);
    ParseReadsShow(b);
  }
}
