/** Numbers written as digit sequences. */
module Positional {
  /** The value of a digit sequence, most significant digit first. */
  function Value(base: nat, ds: seq<nat>): nat {
    if ds == [] then 0 else Value(base, ds[..|ds| - 1]) * base + ds[|ds| - 1]
  }

  /** The value of a digit sequence, least significant digit first. */
  function LeValue(base: nat, ds: seq<nat>): nat {
    if ds == [] then 0 else ds[0] + base * LeValue(base, ds[1..])
  }

  function Reverse(s: seq<nat>): (r: seq<nat>)
    ensures |r| == |s|
    ensures forall i :: 0 <= i < |s| ==> r[i] == s[|s| - 1 - i]
  {
    if s == [] then [] else Reverse(s[1..]) + [s[0]]
  }

  ghost predicate Digits(base: nat, ds: seq<nat>) {
    forall i :: 0 <= i < |ds| ==> ds[i] < base
  }

  lemma {:induction false} LeValueReverses(base: nat, ds: seq<nat>)
    ensures LeValue(base, ds) == Value(base, Reverse(ds))
  {
    if ds != [] {
      var r := Reverse(ds[1..]) + [ds[0]];
      assert r[..|r| - 1] == Reverse(ds[1..]);
      LeValueReverses(base, ds[1..]);
    }
  }

  lemma ValueSnoc(base: nat, ds: seq<nat>, d: nat)
    ensures Value(base, ds + [d]) == Value(base, ds) * base + d
  {
    assert (ds + [d])[..|ds|] == ds;
  }

  /** One more digit decides the order only when the prefixes are equal. */
  lemma CompareDigit(base: nat, x: nat, y: nat, a: nat, b: nat)
    requires a < base && b < base
    ensures x * base + a < y * base + b <==> x < y || (x == y && a < b)
  {
    if x < y {
      assert x * base + base <= y * base by { assert (x + 1) * base <= y * base; }
    } else if y < x {
      assert y * base + base <= x * base by { assert (y + 1) * base <= x * base; }
    }
  }
}
