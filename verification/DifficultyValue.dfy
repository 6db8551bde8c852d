/** The target of a difficulty text against the real number that the text denotes. */
module DifficultyValue {
  import opened Options
  import opened Arithmetic
  import opened LongDivision
  import opened DecimalNumeral
  import opened DifficultyTarget

  /** Ten to any whole power. */
  function Ten(k: int): (p: real)
    ensures p > 0.0
  {
    if k >= 0 then Pow10(k) as real else 1.0 / Pow10(-k) as real
  }

  /** Whole part plus fraction, times the power of ten: what decimal notation means. */
  function Difficulty(n: Numeral): real
    requires WellFormed(n)
  {
    (Decimal(n.whole) as real + Decimal(Fraction(n)) as real / Pow10(|Fraction(n)|) as real) * Ten(ExponentOf(n))
  }

  lemma {:induction false} DecimalConcat(s: string, t: string)
    requires AllDigits(s) && AllDigits(t)
    ensures AllDigits(s + t) && Decimal(s + t) == Decimal(s) * Pow10(|t|) + Decimal(t)
  {
    hide Decimal, Pow10, AllDigits;
    EmptyDecimal();
    if t == [] {
      assert s + t == s;
    } else {
      var k := |t| - 1;
      SplitDigits(t);
      DecimalConcat(s, t[..k]);
      DecimalSnoc(s + t[..k], t[k]);
      assert s + t == (s + t[..k]) + [t[k]];
      DecimalSnoc(t[..k], t[k]);
      Pow10Step(k);
      TimesTen(Decimal(s), Pow10(k));
    }
  }

  lemma TimesTen(x: nat, p: nat)
    ensures x * (10 * p) == 10 * (x * p)
  {
  }

  lemma EmptyDecimal()
    ensures Decimal("") == 0 && Pow10(0) == 1
  {
  }

  lemma SplitDigits(t: string)
    requires t != [] && AllDigits(t)
    ensures AllDigits(t[..|t| - 1]) && IsDigit(t[|t| - 1]) && t == t[..|t| - 1] + [t[|t| - 1]]
  {
  }

  lemma QuotientReal(a: real, b: real, c: real)
    requires b > 0.0 && c > 0.0 && a == c * b
    ensures a / b == c
  {
  }

  /** Moving the decimal point: Ten(k) is Ten(k - j) times 10^j. */
  lemma TenShift(k: int, j: nat)
    ensures Ten(k) == Ten(k - j) * Pow10(j) as real
  {
    hide Pow10, Ten;
    TenIs(k);
    TenIs(k - j);
    if k >= j {
      PowerProduct(k - j, j);
    } else if k >= 0 {
      TenShiftDown(j - k, k);
    } else {
      TenShiftBelow(j, -k);
    }
  }

  lemma TenIs(k: int)
    ensures Ten(k) == if k >= 0 then Pow10(k) as real else 1.0 / Pow10(-k) as real
  {
  }

  lemma TenShiftDown(i: nat, k: nat)
    ensures 1.0 / Pow10(i) as real * Pow10(i + k) as real == Pow10(k) as real
  {
    hide Pow10;
    PowerProduct(i, k);
    CancelLeft(Pow10(i) as real, Pow10(k) as real);
  }

  lemma TenShiftBelow(j: nat, i: nat)
    ensures 1.0 / Pow10(i) as real == 1.0 / Pow10(j + i) as real * Pow10(j) as real
  {
    hide Pow10;
    PowerProduct(j, i);
    CancelProduct(Pow10(j) as real, Pow10(i) as real);
  }

  lemma PowerProduct(i: nat, j: nat)
    ensures Pow10(i) as real * Pow10(j) as real == Pow10(i + j) as real
  {
    hide Pow10;
    Pow10Split(i, j);
    RealProduct(Pow10(i), Pow10(j));
  }

  lemma RealProduct(a: nat, b: nat)
    ensures a as real * b as real == (a * b) as real
  {
  }

  lemma CancelLeft(p: real, q: real)
    requires p > 0.0
    ensures 1.0 / p * (p * q) == q
  {
    assert 1.0 / p * (p * q) == (1.0 / p * p) * q;
  }

  lemma CancelProduct(p: real, q: real)
    requires p > 0.0 && q > 0.0
    ensures p * q > 0.0 && 1.0 / (p * q) * p == 1.0 / q
  {
    assert p * q > 0.0;
    assert (1.0 / (p * q) * p) * q == 1.0 / (p * q) * (p * q) == 1.0;
    QuotientReal(1.0, q, 1.0 / (p * q) * p);
  }

  /** All digits as one number, scaled, are the difficulty. */
  lemma DifficultyIsScaled(n: Numeral)
    requires WellFormed(n)
    ensures Difficulty(n) == Mantissa(n) as real * Ten(Scale(n))
  {
    hide Decimal, Pow10, Ten, AllDigits;
    FractionDigits(n);
    var w, f, x := Decimal(n.whole), Decimal(Fraction(n)), ExponentOf(n);
    var k := |Fraction(n)|;
    DecimalConcat(n.whole, Fraction(n));
    TenShift(x, k);
    Regroup(w as real, f as real, Pow10(k) as real, Ten(x - k));
    RealProduct(w, Pow10(k));
  }

  lemma FractionDigits(n: Numeral)
    requires WellFormed(n)
    ensures AllDigits(n.whole) && AllDigits(Fraction(n))
  {
  }

  lemma Regroup(w: real, f: real, p: real, t: real)
    requires p > 0.0
    ensures (w + f / p) * (t * p) == (w * p + f) * t
  {
    assert f / p * p == f;
    assert (w + f / p) * p == w * p + f;
    assert (w + f / p) * (t * p) == ((w + f / p) * p) * t;
  }

  lemma FloorIsDivision(a: nat, b: nat)
    requires b > 0
    ensures (a as real / b as real).Floor == a / b
  {
    var q, r := a / b, a % b;
    assert a == q * b + r;
    assert a as real == q as real * b as real + r as real;
    RemainderBelow(a as real, b as real, q as real, r as real);
  }

  lemma RealMulLess(x: real, y: real, b: real)
    requires x <= y && b > 0.0
    ensures x * b <= y * b && (x < y ==> x * b < y * b)
  {
  }

  lemma RemainderBelow(a: real, b: real, q: real, r: real)
    requires b > 0.0 && 0.0 <= r < b && a == q * b + r
    ensures q <= a / b < q + 1.0
  {
    var x := a / b;
    assert x * b == a;
    assert (q + 1.0) * b == q * b + b;
    if x < q {
      RealMulLess(x, q, b);
    }
    if x >= q + 1.0 {
      RealMulLess(q + 1.0, x, b);
    }
  }

  /** The words are the difficulty-one target divided by the real difficulty, rounded down and saturated. */
  lemma TargetIsFloor(n: Numeral)
    requires Admissible(n)
    ensures Difficulty(n) > 0.0
    ensures TargetOf(n) == Min((DIFFICULTY_ONE as real / Difficulty(n)).Floor, MAX256)
  {
    hide Numerator, Denominator, Difficulty;
    ScaledQuotient(n);
    FloorIsDivision(Numerator(n), Denominator(n));
  }

  lemma ScaledQuotient(n: Numeral)
    requires Admissible(n)
    ensures Difficulty(n) > 0.0 && Denominator(n) > 0
    ensures Numerator(n) as real / Denominator(n) as real == DIFFICULTY_ONE as real / Difficulty(n)
  {
    hide Pow10, Mantissa, Scale, Difficulty, Ten, Scaled;
    DifficultyIsScaled(n);
    var c := Scale(n);
    var p, q := Pow10(if c < 0 then -c else 0), Pow10(if c > 0 then c else 0);
    ScaledReal(Mantissa(n), if c > 0 then c else 0);
    RealProduct(DIFFICULTY_ONE, p);
    SameQuotient(DIFFICULTY_ONE as real, Mantissa(n) as real, c);
  }

  lemma ScaledReal(m: nat, e: nat)
    ensures Scaled(m, e) as real == m as real * Pow10(e) as real
  {
    hide Pow10;
    RealProduct(m, Pow10(e));
  }

  /** Scaling the numerator for a negative power, or the denominator for a positive one, is dividing by the power. */
  lemma SameQuotient(d: real, x: real, c: int)
    requires x > 0.0
    ensures var p, q := Pow10(if c < 0 then -c else 0) as real, Pow10(if c > 0 then c else 0) as real;
            x * Ten(c) > 0.0 && x * q > 0.0 && d * p / (x * q) == d / (x * Ten(c))
  {
    hide Pow10, Ten;
    TenIs(c);
    PowerZeroReal();
    PositiveProduct(x, Ten(c));
    if c < 0 {
      MoveFactor(d, x, Pow10(-c) as real);
    }
  }

  lemma PowerZeroReal()
    ensures Pow10(0) == 1
  {
  }

  lemma PositiveProduct(x: real, y: real)
    requires x > 0.0 && y > 0.0
    ensures x * y > 0.0
  {
  }

  lemma MoveFactor(d: real, x: real, p: real)
    requires x > 0.0 && p > 0.0
    ensures x * (1.0 / p) > 0.0 && d / (x * (1.0 / p)) == d * p / x
  {
    var u := x * (1.0 / p);
    assert u * p == x;
    PositiveProduct(x, 1.0 / p);
    var v := d * p / x;
    assert v * x == d * p;
    assert v * u * p == d * p;
    assert v * u == d;
    assert d / u == v by { assert d == v * u; }
  }

  /** A larger difficulty never gives a larger target, and equal difficulties give equal targets however they are
      spelt. */
  lemma LargerDifficultySmallerTarget(m: Numeral, n: Numeral)
    requires Admissible(m) && Admissible(n) && Difficulty(m) <= Difficulty(n)
    ensures TargetOf(n) <= TargetOf(m)
    ensures Difficulty(m) == Difficulty(n) ==> TargetOf(m) == TargetOf(n)
  {
    hide TargetOf, Difficulty;
    TargetIsFloor(m);
    TargetIsFloor(n);
    QuotientAntitone(DIFFICULTY_ONE as real, Difficulty(m), Difficulty(n));
  }

  lemma QuotientAntitone(d: real, x: real, y: real)
    requires d > 0.0 && 0.0 < x <= y
    ensures d / y <= d / x
  {
    var p, q := d / x, d / y;
    assert p * x == d && q * y == d;
    if x < y {
      RealMulLess(x, y, q);
    }
    if q > p {
      RealMulLess(p, q, x);
    }
  }

  // ----- what an exponent does -----

  lemma PlainTen()
    ensures Ten(0) == 1.0
  {
  }

  /** A negative exponent divides by its power of ten. */
  lemma NegativeExponent(n: Numeral)
    requires WellFormed(n) && n.exponent.Some? && n.exponent.value.sign == Some('-')
    ensures Difficulty(n) * Pow10(Decimal(n.exponent.value.digits)) as real == Difficulty(n.(exponent := None))
  {
    hide Pow10, Decimal, Ten;
    var t: int := Decimal(n.exponent.value.digits);
    PlainTen();
    TenShift(0, t);
    Moved(Decimal(n.whole) as real + Decimal(Fraction(n)) as real / Pow10(|Fraction(n)|) as real, Ten(-t),
          Pow10(t) as real);
  }

  /** A positive exponent, with or without its sign, multiplies. */
  lemma PositiveExponent(n: Numeral)
    requires WellFormed(n) && n.exponent.Some?
    requires n.exponent.value.sign == Some('+') || n.exponent.value.sign == None
    ensures Difficulty(n) == Difficulty(n.(exponent := None)) * Pow10(Decimal(n.exponent.value.digits)) as real
  {
    hide Pow10, Decimal;
    PlainTen();
  }

  lemma Moved(x: real, y: real, z: real)
    requires y * z == 1.0
    ensures x * y * z == x * 1.0
  {
    assert x * y * z == x * (y * z);
  }

  lemma {:induction false} PowerAtLeastTen(t: nat)
    requires t > 0
    ensures Pow10(t) >= 10
  {
    if t > 1 {
      PowerAtLeastTen(t - 1);
    }
  }

  /** So with a positive number behind the marker, "xe-t" is less than "x", and "xe+t" and "xet" are more. */
  lemma ExponentOrder(n: Numeral)
    requires WellFormed(n) && n.exponent.Some? && Decimal(n.exponent.value.digits) > 0
    requires Difficulty(n.(exponent := None)) > 0.0
    ensures if n.exponent.value.sign == Some('-') then Difficulty(n) < Difficulty(n.(exponent := None))
            else Difficulty(n) > Difficulty(n.(exponent := None))
  {
    hide Pow10, Decimal, Difficulty;
    var t := Decimal(n.exponent.value.digits);
    PowerAtLeastTen(t);
    assert Pow10(t) as real >= 10.0;
    if n.exponent.value.sign == Some('-') {
      NegativeExponent(n);
      var x, p := Difficulty(n), Pow10(t) as real;
      Larger(x, p);
      assert x * p == Difficulty(n.(exponent := None)) && x > 0.0;
      assert x * p > x;
    } else {
      PositiveExponent(n);
      Larger(Difficulty(n.(exponent := None)), Pow10(t) as real);
    }
  }

  lemma Larger(x: real, p: real)
    requires p >= 10.0
    ensures x > 0.0 ==> x * p > x
    ensures x * p > 0.0 ==> x > 0.0
  {
    if x <= 0.0 {
      RealMulLess(x, 0.0, p);
    } else {
      RealMulLess(1.0, p, x);
      assert p * x == x * p && 1.0 * x == x;
    }
  }

  // ----- what the point does -----

  /** A numeral without point and exponent is the number of its digits. */
  lemma WholeNumber(n: Numeral)
    requires WellFormed(n) && n.fraction.None? && n.exponent.None?
    ensures Difficulty(n) == Decimal(n.whole) as real
  {
    PlainTen();
  }

  /** The numeral with its point moved one digit to the right. */
  function PointMoved(n: Numeral): Numeral
    requires n.fraction.Some? && n.fraction.value != []
  {
    var f := n.fraction.value;
    n.(whole := n.whole + [f[0]], fraction := if |f| == 1 then None else Some(f[1..]))
  }

  /** Moving the point one digit to the right multiplies by ten. */
  lemma PointMoves(n: Numeral)
    requires WellFormed(n) && n.fraction.Some?
    ensures WellFormed(PointMoved(n)) && Difficulty(PointMoved(n)) == 10.0 * Difficulty(n)
  {
    hide Decimal, Ten, Difficulty, Pow10, ExponentOf;
    var m := PointMoved(n);
    assert m.whole + Fraction(m) == n.whole + Fraction(n);
    DifficultyIsScaled(n);
    DifficultyIsScaled(m);
    SameExponent(n);
    TenShift(Scale(m), 1);
    OneTen();
    Tenfold(Mantissa(n) as real, Ten(Scale(n)));
  }

  lemma SameExponent(n: Numeral)
    requires WellFormed(n) && n.fraction.Some? && WellFormed(PointMoved(n))
    ensures ExponentOf(PointMoved(n)) == ExponentOf(n)
  {
  }

  lemma OneTen()
    ensures Pow10(1) == 10
  {
    assert Pow10(0) == 1;
  }

  lemma Tenfold(x: real, y: real)
    ensures x * (y * 10.0) == 10.0 * (x * y)
  {
  }

  // ----- literal values -----

  /** Every digit, and the order of the digits. */
  lemma AllTenDigits()
    ensures Decimal("9876543210") == 9876543210
  {
    assert "9876543210"[..9] == "987654321" && "987654321"[..8] == "98765432" && "98765432"[..7] == "9876543";
    assert "9876543"[..6] == "987654" && "987654"[..5] == "98765" && "98765"[..4] == "9876" && "9876"[..3] == "987";
    assert "987"[..2] == "98" && "98"[..1] == "9" && "9"[..0] == "";
    assert Decimal("9") == 9 && Decimal("98") == 98 && Decimal("987") == 987;
  }

  /** The difficulty-one target of Bitcoin. */
  lemma DifficultyOneTarget()
    ensures DIFFICULTY_ONE == 0xffff * Pow2(208)
  {
    hide Pow2;
    Pow2Of32();
    Pow2Double(32, 0x1_0000_0000);
    Pow2Double(64, 0x1_0000_0000_0000_0000);
    Pow2Split(128, 64);
    Pow2Split(192, 16);
  }
}
