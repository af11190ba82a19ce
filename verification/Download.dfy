/** The resumable download (src/hostapi/http.rs:151-413; sections 14.2, 14.4 and
    15.3.7 of RFC 9110). */
module Download {
  import opened Wrappers
  import opened Bytes
  import opened Texts

  type Content = seq<Byte>

  // -------------------------------------------------------------------- headers

  function ReadU64(s: string): Option<nat>
  {
    var n := ReadUnsigned(Trim(s), 10);
    if n.Some? && n.value < 0x1_0000_0000_0000_0000 then n else None
  }

  const UNIT := "bytes "

  /** The first position and the total, when the server names one. */
  function ParseContentRange(v: string): Option<(nat, Option<nat>)>
  {
    var t := Trim(v);
    if |t| < |UNIT| || t[..|UNIT|] != UNIT then None
    else
      var slash := SplitOnce(t[|UNIT|..], '/');
      if slash.None? then None
      else
        var dash := SplitOnce(slash.value.0, '-');
        if dash.None? then None
        else
          var first, total := ReadU64(dash.value.0), Trim(slash.value.1);
          if first.None? then None
          else if total == "*" then Some((first.value, None))
          else
            var n := ReadU64(slash.value.1);
            if n.None? then None else Some((first.value, n))
  }

  /** The header text a server sends for positions `first` to `last` of a known total. */
  function ContentRange(first: nat, last: nat, total: nat): string
  {
    UNIT + Decimal(first) + "-" + Decimal(last) + "/" + Decimal(total)
  }

  lemma DigitsReadU64(n: nat)
    requires n < 0x1_0000_0000_0000_0000
    ensures ReadU64(Decimal(n)) == Some(n)
    ensures '/' !in Decimal(n) && '-' !in Decimal(n)
  {
    DecimalReads(n);
  }

  /** A well-formed header reads back as its first position and total. */
  lemma ContentRangeReads(first: nat, last: nat, total: nat)
    requires first < 0x1_0000_0000_0000_0000 && last < 0x1_0000_0000_0000_0000 && total < 0x1_0000_0000_0000_0000
    ensures ParseContentRange(ContentRange(first, last, total)) == Some((first, Some(total)))
  {
    var f, l, t := Decimal(first), Decimal(last), Decimal(total);
    DigitsReadU64(first);
    DigitsReadU64(last);
    DigitsReadU64(total);
    DecimalReads(total);
    hide Decimal, Numeral, ReadUnsigned, ReadU64, Trim, SplitOnce;
    var v := ContentRange(first, last, total);
    var range := f + ['-'] + l;
    Shape(range, t);
    assert v == UNIT + range + ['/'] + t;
    SplitAt(range, '/', t);
    SplitAt(f, '-', l);
  }

  lemma Shape(range: string, t: string)
    requires IsDigits(t)
    ensures var v := UNIT + range + ['/'] + t;
            Trim(v) == v && v[..|UNIT|] == UNIT && v[|UNIT|..] == range + ['/'] + t
    ensures Trim(t) == t && t != "*"
  {
  }

  // -------------------------------------------------------------------- backoff

  const RETRY_CAP: nat := 30_000

  function Power2(n: nat): (r: nat)
    ensures r >= 1
  {
    if n == 0 then 1 else 2 * Power2(n - 1)
  }

  function Min(a: nat, b: nat): nat
  {
    if a < b then a else b
  }

  function Product(base: nat, doublings: nat): nat
  {
    base * Power2(doublings)
  }

  /** The pause before a retry, in milliseconds. */
  function Backoff(base: nat, retry: nat): nat
  {
    Min(Product(base, Min(if retry == 0 then 0 else retry - 1, 16)), RETRY_CAP)
  }

  /** The first pause is the base, each later one twice the one before until the cap, where they stay;
      from the seventeenth retry on the multiplier no longer grows. */
  lemma BackoffDoubles(base: nat, retry: nat)
    requires retry >= 1
    ensures Backoff(base, 1) == Min(base, RETRY_CAP)
    ensures retry <= 16 ==> Backoff(base, retry + 1) == Min(2 * Backoff(base, retry), RETRY_CAP)
    ensures retry > 16 ==> Backoff(base, retry + 1) == Backoff(base, retry)
    ensures Backoff(base, retry) <= Backoff(base, retry + 1) <= RETRY_CAP
  {
    var now, next := Product(base, Min(retry - 1, 16)), Product(base, Min(retry, 16));
    assert Product(base, 0) == base;
    if retry <= 16 {
      ProductDoubles(base, retry - 1);
    }
    hide Product;
    assert Backoff(base, retry) == Min(now, RETRY_CAP) && Backoff(base, retry + 1) == Min(next, RETRY_CAP);
  }

  lemma ProductDoubles(base: nat, n: nat)
    ensures Product(base, n + 1) == 2 * Product(base, n)
  {
  }
}
