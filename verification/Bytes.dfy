/** Bytes and the fixed-width integers of the Windows security structures. */
module Bytes {
  import opened Sequences

  type Byte = n: int | 0 <= n < 0x100

  /** `width` bytes of a number, least significant first. */
  function Little(n: nat, width: nat): (r: seq<Byte>)
    ensures |r| == width
  {
    if width == 0 then [] else [n % 0x100] + Little(n / 0x100, width - 1)
  }

  function FromLittle(bytes: seq<Byte>): nat
  {
    if bytes == [] then 0 else bytes[0] + 0x100 * FromLittle(bytes[1..])
  }

  /** `width` bytes of a number, most significant first. */
  function Big(n: nat, width: nat): (r: seq<Byte>)
    ensures |r| == width
  {
    Reversed(Little(n, width))
  }

  function FromBig(bytes: seq<Byte>): nat
  {
    FromLittle(Reversed(bytes))
  }

  /** The numbers that fit the width. */
  function Limit(width: nat): (r: nat)
    ensures r > 0
  {
    if width == 0 then 1 else 0x100 * Limit(width - 1)
  }

  lemma Limits()
    ensures Limit(2) == 0x1_0000 && Limit(4) == 0x1_0000_0000 && Limit(6) == 0x1_0000_0000_0000
  {
  }

  lemma {:induction false} LittleRoundTrip(n: nat, width: nat)
    requires n < Limit(width)
    ensures FromLittle(Little(n, width)) == n
  {
    if width > 0 {
      LittleRoundTrip(n / 0x100, width - 1);
    }
  }

  lemma {:induction false} FromLittleRoundTrip(bytes: seq<Byte>)
    ensures FromLittle(bytes) < Limit(|bytes|) && Little(FromLittle(bytes), |bytes|) == bytes
  {
    if bytes != [] {
      FromLittleRoundTrip(bytes[1..]);
      var rest := FromLittle(bytes[1..]);
      assert (bytes[0] + 0x100 * rest) % 0x100 == bytes[0] && (bytes[0] + 0x100 * rest) / 0x100 == rest;
      assert [bytes[0]] + bytes[1..] == bytes;
    }
  }

  lemma FromBigRoundTrip(bytes: seq<Byte>)
    ensures FromBig(bytes) < Limit(|bytes|) && Big(FromBig(bytes), |bytes|) == bytes
  {
    FromLittleRoundTrip(Reversed(bytes));
    assert Reversed(Reversed(bytes)) == bytes;
  }

  // -------------------------------------------------------- flags, access masks

  function FlagByte(f: bv8): Byte
  {
    f as int
  }

  function FlagsOf(b: Byte): bv8
  {
    b as bv8
  }

  lemma FlagsRoundTrip(f: bv8)
    ensures FlagsOf(FlagByte(f)) == f
  {
  }

  function MaskBytes(m: bv32): (r: seq<Byte>)
    ensures |r| == 4
  {
    [FlagByte((m & 0xFF) as bv8), FlagByte(((m >> 8) & 0xFF) as bv8),
     FlagByte(((m >> 16) & 0xFF) as bv8), FlagByte((m >> 24) as bv8)]
  }

  function MaskOf(bytes: seq<Byte>): bv32
    requires |bytes| == 4
  {
    (FlagsOf(bytes[0]) as bv32) | ((FlagsOf(bytes[1]) as bv32) << 8) |
    ((FlagsOf(bytes[2]) as bv32) << 16) | ((FlagsOf(bytes[3]) as bv32) << 24)
  }

  lemma MaskRoundTrip(m: bv32)
    ensures MaskOf(MaskBytes(m)) == m
  {
    FlagsRoundTrip((m & 0xFF) as bv8);
    FlagsRoundTrip(((m >> 8) & 0xFF) as bv8);
    FlagsRoundTrip(((m >> 16) & 0xFF) as bv8);
    FlagsRoundTrip((m >> 24) as bv8);
    hide FlagByte, FlagsOf;
  }

  // ---------------------------------------------------------------- byte orders

  /** A 32-bit word is stored least significant byte first. */
  lemma WordIsLittleEndian(a: Byte, b: Byte, c: Byte, d: Byte)
    ensures FromLittle([a, b, c, d]) == a + 0x100 * b + 0x1_0000 * c + 0x100_0000 * d
  {
    assert [a, b, c, d][1..] == [b, c, d] && [b, c, d][1..] == [c, d] && [c, d][1..] == [d] && [d][1..] == [];
    assert FromLittle([]) == 0 && FromLittle([d]) == d + 0x100 * FromLittle([]);
    assert FromLittle([c, d]) == c + 0x100 * FromLittle([d]);
    assert FromLittle([b, c, d]) == b + 0x100 * FromLittle([c, d]);
  }

  /** An identifier authority is stored most significant byte first. */
  lemma AuthorityIsBigEndian(high: Byte, mid: Byte, a: Byte, b: Byte, c: Byte, d: Byte)
    ensures FromBig([high, mid, a, b, c, d]) ==
            0x100_0000_0000 * high + 0x1_0000_0000 * mid + 0x100_0000 * a + 0x1_0000 * b + 0x100 * c + d
  {
    var r := [d, c, b, a, mid, high];
    assert Reversed([high, mid, a, b, c, d]) == r;
    assert r[1..] == [c, b, a, mid, high] && r[1..][1..] == [b, a, mid, high];
    WordIsLittleEndian(b, a, mid, high);
    assert FromLittle(r[1..]) == c + 0x100 * FromLittle([b, a, mid, high]);
  }
}
