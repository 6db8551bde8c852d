/** The decimal numerals that a pool may send as a difficulty, apart from how the firmware scans them. */
module DecimalNumeral {
  import opened Options
  import opened Arithmetic

  datatype Exponent = Exponent(marker: char, sign: Option<char>, digits: string)

  datatype Numeral = Numeral(whole: string, fraction: Option<string>, exponent: Option<Exponent>)

  predicate IsDigit(c: char) {
    '0' <= c <= '9'
  }

  predicate AllDigits(s: string) {
    forall i :: 0 <= i < |s| ==> IsDigit(s[i])
  }

  function DigitValue(c: char): nat
    requires IsDigit(c)
  {
    c as int - '0' as int
  }

  /** The number that a digit string denotes. */
  function Decimal(s: string): nat
    requires AllDigits(s)
  {
    if s == [] then 0 else 10 * Decimal(s[..|s| - 1]) + DigitValue(s[|s| - 1])
  }

  function Fraction(n: Numeral): string {
    if n.fraction.Some? then n.fraction.value else []
  }

  /** The text of a numeral. */
  function Spell(n: Numeral): string {
    n.whole
    + (if n.fraction.Some? then ['.'] + n.fraction.value else [])
    + (if n.exponent.Some? then SpellExponent(n.exponent.value) else [])
  }

  function SpellExponent(e: Exponent): string {
    [e.marker] + (if e.sign.Some? then [e.sign.value] else []) + e.digits
  }

  predicate IsMarker(c: char) {
    c == 'e' || c == 'E'
  }

  predicate IsSign(c: char) {
    c == '+' || c == '-'
  }

  predicate WellFormed(n: Numeral) {
    && n.whole != [] && AllDigits(n.whole)
    && (n.fraction.Some? ==> n.fraction.value != [] && AllDigits(n.fraction.value))
    && (n.exponent.Some? ==>
          var e := n.exponent.value;
          IsMarker(e.marker) && e.digits != [] && AllDigits(e.digits) && (e.sign.Some? ==> IsSign(e.sign.value)))
  }

  /** All digits without the point. */
  function Mantissa(n: Numeral): nat
    requires WellFormed(n)
  {
    Decimal(n.whole + Fraction(n))
  }

  /** The signed exponent, zero if there is none. */
  function ExponentOf(n: Numeral): int
    requires n.exponent.Some? ==> AllDigits(n.exponent.value.digits)
  {
    if n.exponent.None? then 0
    else if n.exponent.value.sign == Some('-') then -(Decimal(n.exponent.value.digits) as int)
    else Decimal(n.exponent.value.digits)
  }

  /** The power of ten that scales the mantissa. */
  function Scale(n: Numeral): int
    requires WellFormed(n)
  {
    ExponentOf(n) - |Fraction(n)|
  }

  // ----- splitting a text -----

  /** The first position from i on that satisfies f, or the length. */
  function Find(s: string, f: char -> bool, i: nat): (k: nat)
    requires i <= |s|
    ensures i <= k <= |s| && (k < |s| ==> f(s[k])) && forall j :: i <= j < k ==> !f(s[j])
    decreases |s| - i
  {
    if i == |s| || f(s[i]) then i else Find(s, f, i + 1)
  }

  function MarkerAt(s: string): (k: nat)
    ensures k <= |s| && (k < |s| ==> IsMarker(s[k])) && forall j :: 0 <= j < k ==> !IsMarker(s[j])
  {
    Find(s, IsMarker, 0)
  }

  function PointAt(s: string): (d: nat)
    ensures d <= MarkerAt(s) && (d < MarkerAt(s) ==> s[d] == '.') && forall j :: 0 <= j < d ==> s[j] != '.'
  {
    Find(s[..MarkerAt(s)], c => c == '.', 0)
  }

  function SplitExponent(s: string): Exponent
    requires s != []
  {
    if |s| > 1 && IsSign(s[1]) then Exponent(s[0], Some(s[1]), s[2..]) else Exponent(s[0], None, s[1..])
  }

  /** The only numeral that a text could be the spelling of. */
  function Split(s: string): Numeral {
    var k, d := MarkerAt(s), PointAt(s);
    Numeral(s[..d],
            if d < k then Some(s[d + 1..k]) else None,
            if k < |s| then Some(SplitExponent(s[k..])) else None)
  }

  lemma SplitSpells(s: string)
    ensures Spell(Split(s)) == s
  {
    hide Find;
    var k, d := MarkerAt(s), PointAt(s);
    if k < |s| {
      ExponentSpells(s[k..]);
    }
    assert s == s[..d] + s[d..k] + s[k..];
    if d < k {
      assert s[d..k] == ['.'] + s[d + 1..k];
    }
  }

  lemma ExponentSpells(s: string)
    requires s != []
    ensures SpellExponent(SplitExponent(s)) == s
  {
  }

  lemma FindIs(s: string, f: char -> bool, i: nat, k: nat)
    requires i <= k <= |s| && (k < |s| ==> f(s[k])) && forall j :: i <= j < k ==> !f(s[j])
    ensures Find(s, f, i) == k
  {
  }

  /** Splitting undoes spelling, so a text has at most one reading. */
  lemma SpellSplits(n: Numeral)
    requires WellFormed(n)
    ensures Split(Spell(n)) == n
  {
    hide Find;
    var s, d := Spell(n), |n.whole|;
    var k := d + if n.fraction.Some? then 1 + |n.fraction.value| else 0;
    SpelledParts(n, s, d, k);
    FindIs(s, IsMarker, 0, k);
    FindIs(s[..k], c => c == '.', 0, d);
    if n.exponent.Some? {
      ExponentSplits(n.exponent.value);
    }
  }

  /** Where the parts of a spelled numeral lie. */
  lemma SpelledParts(n: Numeral, s: string, d: nat, k: nat)
    requires WellFormed(n) && s == Spell(n) && d == |n.whole|
    requires k == d + if n.fraction.Some? then 1 + |n.fraction.value| else 0
    ensures k <= |s| && s[..d] == n.whole && s[k..] == if n.exponent.Some? then SpellExponent(n.exponent.value) else []
    ensures n.fraction.Some? ==> s[d] == '.' && s[d + 1..k] == n.fraction.value
    ensures forall j :: 0 <= j < k && j != d ==> IsDigit(s[j])
    ensures k < |s| ==> IsMarker(s[k])
  {
    assert s[..d] == n.whole;
    assert n.fraction.Some? ==> s[d] == '.' && s[d + 1..k] == n.fraction.value;
    assert forall j :: 0 <= j < d ==> IsDigit(s[j]) by { assert forall j :: 0 <= j < d ==> s[j] == n.whole[j]; }
    assert forall j :: d < j < k ==> IsDigit(s[j]) by {
      assert forall j :: d < j < k ==> s[j] == s[d + 1..k][j - d - 1];
    }
    assert s[k..] == if n.exponent.Some? then SpellExponent(n.exponent.value) else [];
    assert k < |s| ==> s[k] == s[k..][0];
  }

  lemma ExponentSplits(e: Exponent)
    requires e.digits != [] && AllDigits(e.digits) && (e.sign.Some? ==> IsSign(e.sign.value))
    ensures SplitExponent(SpellExponent(e)) == e
  {
    var s := SpellExponent(e);
    if e.sign.Some? {
      assert s[1] == e.sign.value && s[2..] == e.digits;
    } else {
      assert s[1] == e.digits[0] && s[1..] == e.digits;
    }
  }

  lemma DecimalSnoc(s: string, c: char)
    requires AllDigits(s) && IsDigit(c)
    ensures AllDigits(s + [c]) && Decimal(s + [c]) == 10 * Decimal(s) + DigitValue(c)
  {
    assert (s + [c])[..|s|] == s;
  }

  lemma {:induction false} DecimalBound(s: string)
    requires AllDigits(s)
    ensures Decimal(s) < Pow10(|s|)
  {
    if s != [] {
      DecimalBound(s[..|s| - 1]);
    }
  }
}
