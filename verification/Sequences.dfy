/** Small facts about sequences and quotients that several parts of the model share. */
module Sequences {
  predicate Distinct<T(==)>(xs: seq<T>)
  {
    forall i, j :: 0 <= i < j < |xs| ==> xs[i] != xs[j]
  }

  function Reversed<T>(xs: seq<T>): (r: seq<T>)
    ensures |r| == |xs|
    ensures forall k :: 0 <= k < |r| ==> r[k] == xs[|xs| - 1 - k]
  {
    seq(|xs|, k requires 0 <= k < |xs| => xs[|xs| - 1 - k])
  }

  /** The number of units that cover a span. */
  function CeilDiv(a: nat, b: nat): nat
    requires b > 0
  {
    (a + b - 1) / b
  }

  lemma CeilBound(units: nat, unit: nat, span: nat)
    requires unit > 0 && units * unit < span
    ensures units + 1 <= CeilDiv(span, unit)
  {
  }
}
