/** Numerals and separators: how numbers and lists are written in texts and read back. */
module Texts {
  import opened Wrappers

  // ------------------------------------------------------------------ numerals

  function DigitChar(d: nat): char
    requires d < 16
  {
    if d < 10 then '0' + d as char else 'A' + (d - 10) as char
  }

  function DigitOf(c: char, radix: nat): Option<nat>
  {
    if '0' <= c <= '9' then Some((c - '0') as int)
    else if radix == 16 && 'A' <= c <= 'F' then Some(10 + (c - 'A') as int)
    else if radix == 16 && 'a' <= c <= 'f' then Some(10 + (c - 'a') as int)
    else None
  }

  /** The value of a string of digits, none when empty or when a character is no digit. */
  function Numeral(s: string, radix: nat): Option<nat>
  {
    if s == [] then None
    else
      var d := DigitOf(s[|s| - 1], radix);
      if d.None? then None
      else if |s| == 1 then d
      else
        var high := Numeral(s[..|s| - 1], radix);
        if high.None? then None else Some(high.value * radix + d.value)
  }

  /** An unsigned number as the standard library reads it: a leading plus is allowed. */
  function ReadUnsigned(s: string, radix: nat): Option<nat>
  {
    Numeral(if s != [] && s[0] == '+' then s[1..] else s, radix)
  }

  function Decimal(n: nat): string
  {
    if n < 10 then [DigitChar(n)] else Decimal(n / 10) + [DigitChar(n % 10)]
  }

  /** Upper-case hexadecimal, zero-padded to a width. */
  function Hex(n: nat, width: nat): (r: string)
    ensures |r| == width
  {
    if width == 0 then [] else Hex(n / 16, width - 1) + [DigitChar(n % 16)]
  }

  predicate IsDigits(s: string)
  {
    s != [] && forall k :: 0 <= k < |s| ==> '0' <= s[k] <= '9'
  }

  lemma {:induction false} DecimalReads(n: nat)
    ensures Numeral(Decimal(n), 10) == Some(n) && IsDigits(Decimal(n))
  {
    if n >= 10 {
      DecimalReads(n / 10);
      var s := Decimal(n);
      assert s[..|s| - 1] == Decimal(n / 10);
    }
  }

  function Power16(w: nat): (r: nat)
    ensures r > 0
  {
    if w == 0 then 1 else 16 * Power16(w - 1)
  }

  lemma DigitReads(d: nat)
    requires d < 16
    ensures DigitOf(DigitChar(d), 16) == Some(d) && DigitChar(d) != '-' && DigitChar(d) != '+'
  {
  }

  lemma {:induction false} HexReads(n: nat, width: nat)
    requires width > 0 && n < Power16(width)
    ensures Numeral(Hex(n, width), 16) == Some(n)
    ensures forall k :: 0 <= k < width ==> Hex(n, width)[k] != '-' && Hex(n, width)[k] != '+'
  {
    hide DigitChar, DigitOf;
    var s := Hex(n, width);
    DigitReads(n % 16);
    assert s[..|s| - 1] == Hex(n / 16, width - 1);
    if width > 1 {
      HexReads(n / 16, width - 1);
    }
  }

  // ----------------------------------------------------------------- separators

  /** The parts of a text between occurrences of a character. */
  function Split(s: string, c: char): (r: seq<string>)
    ensures r != []
  {
    if s == [] then [[]]
    else
      var rest := Split(s[1..], c);
      if s[0] == c then [[]] + rest else [[s[0]] + rest[0]] + rest[1..]
  }

  function Join(parts: seq<string>, c: char): string
    requires parts != []
  {
    if |parts| == 1 then parts[0] else parts[0] + [c] + Join(parts[1..], c)
  }

  lemma {:induction false} SplitPart(a: string, c: char, rest: string)
    requires c !in a
    ensures Split(a + [c] + rest, c) == [a] + Split(rest, c)
    ensures Split(a, c) == [a]
  {
    var s := a + [c] + rest;
    if a == [] {
      assert s[1..] == rest;
    } else {
      SplitPart(a[1..], c, rest);
      assert s[1..] == a[1..] + [c] + rest;
      assert [a[0]] + a[1..] == a;
    }
  }

  /** Parts free of the separator come back from their join. */
  lemma {:induction false} SplitJoins(parts: seq<string>, c: char)
    requires parts != [] && forall k :: 0 <= k < |parts| ==> c !in parts[k]
    ensures Split(Join(parts, c), c) == parts
  {
    if |parts| == 1 {
      SplitPart(parts[0], c, []);
    } else {
      SplitJoins(parts[1..], c);
      SplitPart(parts[0], c, Join(parts[1..], c));
    }
  }

  /** The text before and after the first occurrence of a character. */
  function SplitOnce(s: string, c: char): Option<(string, string)>
  {
    if s == [] then None
    else if s[0] == c then Some(([], s[1..]))
    else
      var rest := SplitOnce(s[1..], c);
      if rest.None? then None else Some(([s[0]] + rest.value.0, rest.value.1))
  }

  lemma {:induction false} SplitAt(a: string, c: char, b: string)
    requires c !in a
    ensures SplitOnce(a + [c] + b, c) == Some((a, b))
  {
    var s := a + [c] + b;
    if a != [] {
      SplitAt(a[1..], c, b);
      assert s[1..] == a[1..] + [c] + b;
      assert [a[0]] + a[1..] == a;
    }
  }

  lemma {:induction false} NoSplit(s: string, c: char)
    requires c !in s
    ensures SplitOnce(s, c) == None
  {
    if s != [] {
      NoSplit(s[1..], c);
    }
  }

  lemma {:induction false} JoinLacks(parts: seq<string>, sep: char, c: char)
    requires parts != [] && c != sep && forall k :: 0 <= k < |parts| ==> c !in parts[k]
    ensures c !in Join(parts, sep)
  {
    if |parts| > 1 {
      JoinLacks(parts[1..], sep, c);
    }
  }

  // ----------------------------------------------------------------- white space

  /** The characters Unicode calls white space. */
  predicate White(c: char)
  {
    var n := c as int;
    9 <= n <= 13 || n == 32 || n == 0x85 || n == 0xA0 || n == 0x1680 || 0x2000 <= n <= 0x200A ||
    n == 0x2028 || n == 0x2029 || n == 0x202F || n == 0x205F || n == 0x3000
  }

  function TrimStart(s: string): string
  {
    if s != [] && White(s[0]) then TrimStart(s[1..]) else s
  }

  function TrimEnd(s: string): string
  {
    if s != [] && White(s[|s| - 1]) then TrimEnd(s[..|s| - 1]) else s
  }

  function Trim(s: string): string
  {
    TrimEnd(TrimStart(s))
  }
}
