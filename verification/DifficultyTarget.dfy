/** `bitcoin_target` of software/common/bitcoin.c: exact conversion of a decimal difficulty into a 256-bit target. */
module DifficultyTarget {
  import opened Options
  import opened Words
  import opened Positional
  import opened Arithmetic
  import opened Bignum
  import opened LongDivision
  import opened DecimalNumeral

  /** The difficulty-one target, 0xffff * 2^208. */
  const DIFFICULTY_ONE: nat := 0xffff_0000_0000_0000_0000_0000_0000_0000_0000_0000_0000_0000_0000_0000

  /** No proper prefix of the exponent exceeds 128, so the scan of the exponent never gives up. */
  predicate ExponentScans(digits: string)
    requires AllDigits(digits)
  {
    forall i :: 0 <= i < |digits| ==> Decimal(digits[..i]) <= 128
  }

  /** The numerals that the firmware accepts. */
  predicate Admissible(n: Numeral) {
    && WellFormed(n) && 0 < |Spell(n)| <= 80 && |n.whole + Fraction(n)| <= 64 && Mantissa(n) > 0
    && (n.exponent.Some? ==> ExponentScans(n.exponent.value.digits))
    && -128 <= Scale(n) <= 128
  }

  function Numerator(n: Numeral): nat
    requires WellFormed(n)
  {
    DIFFICULTY_ONE * Pow10(if Scale(n) < 0 then -Scale(n) else 0)
  }

  function Denominator(n: Numeral): (d: nat)
    requires WellFormed(n)
    ensures Mantissa(n) > 0 ==> d > 0
  {
    Scaled(Mantissa(n), if Scale(n) > 0 then Scale(n) else 0)
  }

  function Scaled(m: nat, e: nat): (d: nat)
    ensures m > 0 ==> d > 0
  {
    m * Pow10(e)
  }

  /** The target of a difficulty: the difficulty-one target divided by it, rounded down and saturated. */
  function TargetOf(n: Numeral): nat
    requires Admissible(n)
  {
    Saturated(Numerator(n), Denominator(n))
  }

  lemma ProductPositive(x: nat, y: nat)
    requires x > 0 && y > 0
    ensures x * y > 0
  {
  }

  /** A text is accepted exactly when it spells an admissible numeral. */
  lemma AcceptedTexts(s: string)
    ensures Admissible(Split(s)) <==> exists n :: Admissible(n) && Spell(n) == s
  {
    hide Find;
    SplitSpells(s);
    forall n | Admissible(n) && Spell(n) == s
      ensures n == Split(s)
    {
      SpellSplits(n);
    }
  }

  // ----- scanning -----

  predicate MantissaScans(n: Numeral) {
    && n.whole != [] && AllDigits(n.whole)
    && (n.fraction.Some? ==> n.fraction.value != [] && AllDigits(n.fraction.value))
    && |n.whole + Fraction(n)| <= 64 && AllDigits(n.whole + Fraction(n)) && Decimal(n.whole + Fraction(n)) > 0
  }

  /** The digits among the first p characters of the mantissa, whose point is at d. */
  function DigitsBefore(s: string, d: nat, p: nat): string
    requires p <= |s|
  {
    if p <= d then s[..p] else s[..d] + s[d + 1..p]
  }

  lemma DigitsNext(s: string, d: nat, p: nat)
    requires p < |s| && p != d && AllDigits(DigitsBefore(s, d, p)) && IsDigit(s[p])
    ensures AllDigits(DigitsBefore(s, d, p + 1))
    ensures Decimal(DigitsBefore(s, d, p + 1)) == 10 * Decimal(DigitsBefore(s, d, p)) + DigitValue(s[p])
  {
    DecimalSnoc(DigitsBefore(s, d, p), s[p]);
    assert DigitsBefore(s, d, p + 1) == DigitsBefore(s, d, p) + [s[p]];
  }

  lemma DigitsAll(s: string)
    ensures var n := Split(s);
            DigitsBefore(s, PointAt(s), MarkerAt(s)) == n.whole + Fraction(n)
  {
  }

  lemma MantissaFails(s: string, p: nat)
    requires p < MarkerAt(s) && p != PointAt(s) && !IsDigit(s[p])
    ensures !MantissaScans(Split(s))
  {
    var n, d, k := Split(s), PointAt(s), MarkerAt(s);
    if p < d {
      assert n.whole[p] == s[p];
    } else {
      assert n.fraction.value[p - d - 1] == s[p];
    }
  }

  /** The first loop of `bitcoin_target` and the test after it. */
  method ScanMantissa(s: string, denominator: array<Word>) returns (ok: bool, p: nat, fractional: nat)
    requires Num(denominator[..]) == 0 && denominator.Length == 32
    modifies denominator
    ensures ok <==> MantissaScans(Split(s))
    ensures ok ==> p == MarkerAt(s) && fractional == |Fraction(Split(s))|
    ensures ok ==> Num(denominator[..]) == Decimal(Split(s).whole + Fraction(Split(s)))
  {
    hide Num, Capacity, Pow10, MantissaScans, Find;
    ghost var k, d, n := MarkerAt(s), PointAt(s), Split(s);
    var digits, point, nonzero := 0, false, false;
    p, fractional := 0, 0;
    while p < |s| && !IsMarker(s[p])
      invariant p <= k && (point <==> d < p)
      invariant AllDigits(DigitsBefore(s, d, p)) && digits == |DigitsBefore(s, d, p)| <= 64
      invariant fractional == if point then p - d - 1 else 0
      invariant Num(denominator[..]) == Decimal(DigitsBefore(s, d, p)) && (nonzero <==> Num(denominator[..]) > 0)
      invariant point ==> d > 0
    {
      var c := s[p];
      if c == '.' {
        if point || digits == 0 {
          PointFails(s, p);
          return false, p, fractional;
        }
        assert p == d && DigitsBefore(s, d, d + 1) == DigitsBefore(s, d, d);
        point := true;
      } else {
        if !IsDigit(c) {
          MantissaFails(s, p);
          return false, p, fractional;
        }
        DigitsNext(s, d, p);
        digits := digits + 1;
        if digits > 64 {
          TooManyDigits(s, p + 1);
          return false, p, fractional;
        }
        if point {
          fractional := fractional + 1;
        }
        nonzero := nonzero || c != '0';
        DigitsFit(DigitsBefore(s, d, p + 1), denominator.Length);
        var fits := Multiply10(denominator, DigitValue(c));
        assert fits;
      }
      p := p + 1;
    }
    assert p == k;
    DigitsAll(s);
    ok := nonzero && !(point && fractional == 0);
    ScanVerdict(s);
  }

  lemma PointFails(s: string, p: nat)
    requires p < MarkerAt(s) && s[p] == '.' && (PointAt(s) < p || p == 0)
    ensures !MantissaScans(Split(s))
  {
    hide Find;
    if p > PointAt(s) {
      MantissaFails(s, p);
    }
  }

  lemma TooManyDigits(s: string, p: nat)
    requires p <= MarkerAt(s) && |DigitsBefore(s, PointAt(s), p)| > 64
    ensures !MantissaScans(Split(s))
  {
    hide Find;
  }

  /** At most 64 digits stay far below 1024 bits. */
  lemma DigitsFit(t: string, n: nat)
    requires AllDigits(t) && |t| <= 64 && n == 32
    ensures Decimal(t) < Capacity(n)
  {
    hide Pow2, Pow10;
    DecimalBound(t);
    Pow10BelowPow2(|t|);
    Pow2Monotone(4 * |t|, 32 * n);
  }

  lemma ScanVerdict(s: string)
    ensures var n, d, k := Split(s), PointAt(s), MarkerAt(s);
            var t := DigitsBefore(s, d, k);
            AllDigits(t) && |t| <= 64 && (d < k ==> d > 0) ==>
              (MantissaScans(n) <==> Decimal(t) > 0 && !(d < k && k - d - 1 == 0))
  {
    hide Find;
    var n, d, k := Split(s), PointAt(s), MarkerAt(s);
    DigitsAll(s);
    var t := DigitsBefore(s, d, k);
    if AllDigits(t) {
      assert AllDigits(n.whole) by { assert forall i :: 0 <= i < |n.whole| ==> n.whole[i] == t[i]; }
      if d < k {
        var f := n.fraction.value;
        assert AllDigits(f) by { assert forall i :: 0 <= i < |f| ==> f[i] == t[d + i]; }
      }
    }
  }

  predicate ExponentAccepted(n: Numeral) {
    n.exponent.Some? ==>
      var t := n.exponent.value.digits; t != [] && AllDigits(t) && ExponentScans(t)
  }

  /** The exponent part of `bitcoin_target`, which starts at the marker if there is one. */
  method ScanExponent(s: string, marker: nat) returns (ok: bool, exponent: int)
    requires marker == MarkerAt(s)
    ensures ok <==> ExponentAccepted(Split(s))
    ensures ok ==> exponent == ExponentOf(Split(s))
  {
    hide Find, ExponentScans, Decimal, AllDigits;
    if marker == |s| {
      return true, 0;
    }
    var p, negative := marker + 1, false;
    if p < |s| && IsSign(s[p]) {
      negative := s[p] == '-';
      p := p + 1;
    }
    assert Split(s).exponent.value.digits == s[p..];
    ok, exponent := ReadDigits(s[p..]);
    exponent := if negative then -exponent else exponent;
  }

  method ReadDigits(t: string) returns (ok: bool, exponent: int)
    ensures ok <==> t != [] && AllDigits(t) && ExponentScans(t)
    ensures ok ==> exponent == Decimal(t)
  {
    exponent := 0;
    if t == [] {
      return false, 0;
    }
    for i := 0 to |t|
      invariant ScannedTo(t, i) && exponent == Decimal(t[..i])
    {
      var c := t[i];
      if !IsDigit(c) || exponent > 128 {
        return false, 0;
      }
      DecimalSnoc(t[..i], c);
      assert t[..i + 1] == t[..i] + [c];
      exponent := exponent * 10 + DigitValue(c);
    }
    assert t[..|t|] == t;
    ok := true;
  }

  /** The first i digits of an exponent have been read without giving up. */
  ghost predicate ScannedTo(t: string, i: nat) {
    && i <= |t| && AllDigits(t[..i])
    && forall j :: 0 <= j < i ==> AllDigits(t[..j]) && Decimal(t[..j]) <= 128
  }

  /** One of the two scaling loops. */
  method ScaleUp(a: array<Word>, k: nat) returns (ok: bool)
    requires Num(a[..]) * Pow10(k) < Capacity(a.Length)
    modifies a
    ensures ok && Num(a[..]) == Num(old(a[..])) * Pow10(k)
  {
    hide Num, Capacity, Pow10;
    ghost var n := Num(a[..]);
    PowerOfZero();
    for i := 0 to k
      invariant Num(a[..]) == n * Pow10(i)
    {
      ScaleStep(n, i, k);
      var fits := Multiply10(a, 0);
      assert fits;
    }
    ok := true;
  }

  lemma PowerOfZero()
    ensures Pow10(0) == 1
  {
  }

  lemma Pow10Step(i: nat)
    ensures Pow10(i + 1) == 10 * Pow10(i)
  {
  }

  lemma ScaleStep(n: nat, i: nat, k: nat)
    requires i < k
    ensures n * Pow10(i + 1) == 10 * (n * Pow10(i))
    ensures n * Pow10(i + 1) <= n * Pow10(k)
  {
    hide Pow10;
    Pow10Step(i);
    MulAssociates(10, n, Pow10(i));
    Pow10Split(i + 1, k - i - 1);
    MulAssociates(n, Pow10(i + 1), Pow10(k - i - 1));
    CarryCounts(Pow10(k - i - 1), n * Pow10(i + 1));
  }

  /** The whole function: accepted are exactly the admissible numerals, a rejection leaves `out` untouched, and an
      accepted difficulty yields the exact target. */
  method BitcoinTarget(s: string, out: array<Word>) returns (ok: bool)
    requires out.Length == 8
    modifies out
    ensures ok <==> Admissible(Split(s))
    ensures !ok ==> out[..] == old(out[..])
    ensures ok ==> Value(TWO32, out[..]) == TargetOf(Split(s))
  {
    hide Num, Capacity, Pow10, MantissaScans, ExponentAccepted, Find, Decimal, Split, Saturated, Value;
    ghost var n := Split(s);
    AdmissibleParts(s);
    if s == [] || |s| > 80 {
      return false;
    }
    var denominator := new Word[32](_ => 0);
    ZeroNum(denominator[..]);
    var scanned, marker, fractional := ScanMantissa(s, denominator);
    if !scanned {
      return false;
    }
    var read, exponent := ScanExponent(s, marker);
    if !read {
      return false;
    }
    exponent := exponent - fractional;
    if exponent > 128 || exponent < -128 {
      return false;
    }
    var numerator := new Word[32](_ => 0);
    numerator[6] := 0xffff_0000;
    DifficultyOne(numerator[..]);
    ghost var e, m := if exponent > 0 then exponent else 0, if exponent < 0 then -exponent else 0;
    DenominatorFits(n.whole + Fraction(n), e, 32);
    NumeratorFits(m, 32);
    var up := ScaleUp(denominator, if exponent > 0 then exponent else 0);
    var down := ScaleUp(numerator, if exponent < 0 then -exponent else 0);
    assert up && down;
    assert HasRoom(denominator[..]);
    Divide(numerator[..], denominator[..], out);
    ok := true;
  }

  /** The difficulty that every session starts with. */
  lemma TextOne()
    ensures Admissible(Split("1")) && TargetOf(Split("1")) == DIFFICULTY_ONE
  {
    var n := Numeral("1", None, None);
    assert Spell(n) == "1";
    SpellSplits(n);
  }

  lemma AdmissibleParts(s: string)
    ensures var n := Split(s);
            Admissible(n) <==>
              && 0 < |s| <= 80 && MantissaScans(n) && ExponentAccepted(n)
              && -128 <= ExponentOf(n) - |Fraction(n)| <= 128
    ensures Admissible(Split(s)) ==>
              var n := Split(s);
              && Scale(n) == ExponentOf(n) - |Fraction(n)| && Mantissa(n) == Decimal(n.whole + Fraction(n))
  {
    hide Find;
    SplitSpells(s);
  }

  lemma DenominatorFits(t: string, e: nat, n: nat)
    requires AllDigits(t) && |t| <= 64 && Decimal(t) > 0 && e <= 128 && n == 32
    ensures 0 < Decimal(t) * Pow10(e) && 2 * (Decimal(t) * Pow10(e)) <= Capacity(n)
  {
    hide Pow2, Pow10, Decimal;
    DecimalBound(t);
    ProductPositive(Decimal(t), Pow10(e));
    MulLess(Decimal(t), Pow10(|t|), Pow10(e));
    Pow10Split(|t|, e);
    Pow10BelowPow2(|t| + e);
    Pow2Monotone(4 * (|t| + e), 32 * n - 1);
    PowerStep(32 * n - 1);
  }

  lemma NumeratorFits(m: nat, n: nat)
    requires m <= 128 && n == 32
    ensures DIFFICULTY_ONE * Pow10(m) < Capacity(n)
  {
    hide Pow2, Pow10;
    Capacity256();
    Pow10BelowPow2(m);
    MulLess(DIFFICULTY_ONE, Pow2(32 * 8), Pow10(m));
    assert Pow2(32 * 8) * Pow10(m) <= Pow2(32 * 8) * Pow2(4 * m);
    Pow2Split(32 * 8, 4 * m);
    Pow2Monotone(32 * 8 + 4 * m, 32 * n);
  }

  lemma DifficultyOne(limbs: seq<Word>)
    requires |limbs| == 32 && limbs[6] == 0xffff_0000 && forall i :: 0 <= i < 32 && i != 6 ==> limbs[i] == 0
    ensures Num(limbs) == DIFFICULTY_ONE
  {
    hide Num, Pow2;
    ZeroNum(limbs[..6]);
    NumNext(limbs, 6);
    TrailingZeros(limbs, 7, 32);
    assert limbs[..32] == limbs;
    Pow2Of32();
    Pow2Double(32, 0x1_0000_0000);
    Pow2Double(64, 0x1_0000_0000_0000_0000);
    Pow2Split(128, 64);
  }

  lemma {:induction false} TrailingZeros(limbs: seq<Word>, i: nat, n: nat)
    requires i <= n <= |limbs| && forall j :: i <= j < n ==> limbs[j] == 0
    ensures Num(limbs[..n]) == Num(limbs[..i])
    decreases n - i
  {
    hide Num, Capacity;
    if i < n {
      TrailingZeros(limbs, i, n - 1);
      NumNext(limbs, n - 1);
    }
  }
}
