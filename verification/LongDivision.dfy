/** The bit-serial restoring division of software/common/bitcoin.c:75-84, with saturation to 256 bits. */
module LongDivision {
  import opened Words
  import opened Positional
  import opened Arithmetic
  import opened Bignum

  /** 2^256 - 1. */
  const MAX256: nat := 0xffff_ffff_ffff_ffff_ffff_ffff_ffff_ffff_ffff_ffff_ffff_ffff_ffff_ffff_ffff_ffff

  /** Bit number i of a limb number, as a shift and a mask extract it. */
  function BitAt(limbs: seq<Word>, i: nat): (b: nat)
    requires i < 32 * |limbs|
    ensures b < 2
  {
    limbs[i / 32] / Pow2(i % 32) % 2
  }

  /** The number formed by the bits from i upwards. */
  function TopBits(limbs: seq<Word>, i: nat): nat
    requires i <= 32 * |limbs|
    decreases 32 * |limbs| - i
  {
    if i == 32 * |limbs| then 0 else 2 * TopBits(limbs, i + 1) + BitAt(limbs, i)
  }

  lemma HalvePower(x: nat, r: nat)
    ensures x / Pow2(r + 1) == x / Pow2(r) / 2
  {
    var p := Pow2(r);
    var q := x / p / 2;
    assert x == p * (x / p) + x % p;
    assert x / p == 2 * q + x / p % 2;
    MulTwo(p, q);
    MulDistributes(2 * q, x / p % 2, p);
    assert x == 2 * p * q + (p * (x / p % 2) + x % p);
    assert p * (x / p % 2) + x % p < 2 * p;
    DivModIs(x, 2 * p, q, p * (x / p % 2) + x % p);
  }

  lemma {:induction false} TopBitsAt(limbs: seq<Word>, q: nat, r: nat)
    requires q < |limbs| && r <= 32
    ensures TopBits(limbs, 32 * q + r) == Num(limbs[q + 1..]) * Pow2(32 - r) + limbs[q] / Pow2(r)
    decreases |limbs| - q, 32 - r
  {
    hide Num;
    if r == 32 {
      Pow2Of32();
      if q + 1 < |limbs| {
        TopBitsAt(limbs, q + 1, 0);
        NumHead(limbs, q + 1);
      } else {
        EmptyNum();
        assert limbs[q + 1..] == [];
      }
    } else {
      TopBitsAt(limbs, q, r + 1);
      HalvePower(limbs[q], r);
      var hi, p := Num(limbs[q + 1..]), Pow2(31 - r);
      MulTwo(hi, p);
      assert (32 * q + r) / 32 == q && (32 * q + r) % 32 == r;
    }
  }

  lemma NumHead(limbs: seq<Word>, q: nat)
    requires q < |limbs|
    ensures Num(limbs[q..]) == limbs[q] + Num(limbs[q + 1..]) * TWO32
  {
    assert limbs[q..][1..] == limbs[q + 1..];
  }

  lemma TopBitsAll(limbs: seq<Word>)
    requires limbs != []
    ensures TopBits(limbs, 0) == Num(limbs)
  {
    hide Num, TopBits;
    TopBitsAt(limbs, 0, 0);
    Pow2Of32();
    assert limbs[0..] == limbs;
    NumHead(limbs, 0);
    assert Pow2(0) == 1;
  }

  // ----- storing quotient bits -----

  /** `x | 1 << r`. */
  function SetBit(x: Word, r: nat): (y: Word)
    requires r < 32
  {
    if x / Pow2(r) % 2 == 0 then SetBitFits(x, r); x + Pow2(r) else x
  }

  lemma SetBitFits(x: Word, r: nat)
    requires r < 32 && x / Pow2(r) % 2 == 0
    ensures x + Pow2(r) < TWO32
  {
    Pow2Split(r, 31 - r);
    Pow2Of32();
    EvenFits(x, Pow2(r), Pow2(31 - r));
  }

  lemma EvenFits(x: Word, p: nat, m: nat)
    requires p > 0 && m > 0 && p * m == 0x8000_0000 && x / p % 2 == 0
    ensures x + p < TWO32
  {
    var h := x / p / 2;
    assert x == p * (2 * h) + x % p;
    MulTwo(p, h);
    assert p * h < p * m;
    MulLessInverse(h, m, p);
    MulLess(h, m, p);
  }

  /** The output words once quotient bits i and above, which form the number q, have been stored. */
  ghost predicate OutAt(out: seq<Word>, i: nat, q: nat)
    requires |out| == 8 && i <= 256
  {
    if i == 0 then q == Value(TWO32, out)
    else
      var k, r := 7 - (i - 1) / 32, (i - 1) % 32;
      && q == Value(TWO32, out[..k]) * Pow2(31 - r) + out[k] / Pow2(r + 1) && out[k] % Pow2(r + 1) == 0
      && forall j :: k < j < 8 ==> out[j] == 0
  }

  /** Storing bit r of the word with digits y above it. */
  lemma WordStep(x: Word, r: nat, b: nat)
    requires r < 32 && b < 2 && x % Pow2(r + 1) == 0
    ensures var x' := if b == 1 then SetBit(x, r) else x;
            x' / Pow2(r) == 2 * (x / Pow2(r + 1)) + b && x' % Pow2(r) == 0
  {
    var p := Pow2(r);
    var y := x / (2 * p);
    assert x == 2 * p * y + x % (2 * p);
    MulTwo(p, y);
    DivModIs(x, p, 2 * y, 0);
    if b == 1 {
      MulDistributes(2 * y, 1, p);
      DivModIs(x + p, p, 2 * y + 1, 0);
    }
  }

  lemma OutStep(out: seq<Word>, i: nat, q: nat, b: nat)
    requires |out| == 8 && i < 256 && b < 2 && OutAt(out, i + 1, q)
    ensures var k := 7 - i / 32;
            OutAt(if b == 1 then out[k := SetBit(out[k], i % 32)] else out, i, 2 * q + b)
  {
    hide SetBit, Value, Pow2;
    var k, r := 7 - i / 32, i % 32;
    var x' := if b == 1 then SetBit(out[k], r) else out[k];
    var out' := out[k := x'];
    WordStep(out[k], r, b);
    assert out'[..k] == out[..k];
    var v := Value(TWO32, out[..k]);
    MulTwo(v, Pow2(31 - r));
    PowerStep(31 - r);
    assert 2 * q + b == v * Pow2(32 - r) + x' / Pow2(r);
    if r > 0 {
      assert (i - 1) / 32 == i / 32 && (i - 1) % 32 == r - 1;
    } else {
      WordComplete(out', i, k, 2 * q + b);
    }
    assert b == 0 ==> out' == out;
  }

  lemma PowerStep(n: nat)
    ensures Pow2(n + 1) == 2 * Pow2(n)
  {
  }

  lemma WordComplete(out: seq<Word>, i: nat, k: nat, q: nat)
    requires |out| == 8 && i < 256 && i % 32 == 0 && k == 7 - i / 32
    requires q == Value(TWO32, out[..k]) * Pow2(32) + out[k] / Pow2(0) && forall j :: k < j < 8 ==> out[j] == 0
    ensures OutAt(out, i, q)
  {
    hide Value;
    Pow2Of32();
    assert Pow2(0) == 1;
    assert out[..k + 1] == out[..k] + [out[k]];
    ValueSnoc(TWO32, out[..k], out[k]);
    if k == 7 {
      assert out[..8] == out;
    } else {
      assert (i - 1) / 32 == 6 - k && (i - 1) % 32 == 31;
    }
  }

  // ----- the division loop -----

  /** Restoring division: bring down a bit, subtract the divisor if it fits. */
  lemma QuotientStep(q: nat, d: nat, r: nat, top: nat, b: nat)
    requires b < 2 && r < d && q * d + r == top
    ensures var r2 := 2 * r + b;
            if r2 >= d then (2 * q + 1) * d + (r2 - d) == 2 * top + b && r2 - d < d
            else (2 * q) * d + r2 == 2 * top + b
  {
    MulAssociates(2, q, d);
    MulDistributes(2 * q, 1, d);
  }

  /** The quotient as bits 256 and above, hi, and the bits stored so far, lo. */
  ghost predicate QuotientAt(out: seq<Word>, bit: nat, q: nat, hi: nat, lo: nat, overflow: bool)
    requires |out| == 8
  {
    && (overflow <==> hi > 0)
    && (bit >= 256 ==> q == hi && lo == 0 && OutAt(out, 256, 0))
    && (bit < 256 ==> OutAt(out, bit, lo) && q == hi * Pow2(256 - bit) + lo)
  }

  /** The divisor is not zero and leaves the top bit free for the shifted remainder. */
  ghost predicate HasRoom(limbs: seq<Word>) {
    0 < Num(limbs) && 2 * Num(limbs) <= Capacity(|limbs|)
  }

  /** The quotient rounded down, at most 2^256 - 1. */
  function Saturated(n: nat, d: nat): nat {
    if d == 0 then 0 else Min(n / d, MAX256)
  }

  method Divide(numerator: seq<Word>, denominator: seq<Word>, out: array<Word>)
    requires out.Length == 8 && |numerator| == |denominator| >= 8
    requires HasRoom(denominator)
    modifies out
    ensures Value(TWO32, out[..]) == Saturated(Num(numerator), Num(denominator))
  {
    hide Num, Capacity, TopBits, OutAt, Value, BitAt, SetBit, Pow2;
    Fill(out, 0);
    var remainder := new Word[|denominator|](_ => 0);
    ghost var d: nat := Num(denominator);
    ghost var q: nat, hi: nat, lo: nat := 0, 0, 0;
    var overflow := false;
    ZeroNum(remainder[..]);
    ZeroOut(out[..]);
    TopBitsStart(numerator);
    for bit := 32 * |numerator| downto 0
      invariant Num(remainder[..]) < d && q * d + Num(remainder[..]) == TopBits(numerator, bit)
      invariant QuotientAt(out[..], bit, q, hi, lo, overflow)
    {
      var b := BitAt(numerator, bit);
      TopBitsNext(numerator, bit);
      QuotientStep(q, d, Num(remainder[..]), TopBits(numerator, bit + 1), b);
      ghost var before := out[..];
      ShiftIn(remainder, b);
      var sign := Compare(remainder[..], denominator);
      ghost var one := if sign >= 0 then 1 else 0;
      if sign >= 0 {
        Subtract(remainder, denominator);
        if bit >= 256 {
          overflow := true;
        } else {
          out[7 - bit / 32] := SetBit(out[7 - bit / 32], bit % 32);
        }
      }
      QuotientNext(before, bit, q, hi, lo, one);
      q := 2 * q + one;
      if bit >= 256 {
        hi := 2 * hi + one;
      } else {
        lo := 2 * lo + one;
      }
      assert bit < 256 ==>
          out[..] == if one == 1 then before[7 - bit / 32 := SetBit(before[7 - bit / 32], bit % 32)] else before;
    }
    TopBitsAll(numerator);
    MulCommutes(q, d);
    DivModIs(Num(numerator), d, q, Num(remainder[..]));
    Saturation(out[..], q, hi, lo, overflow);
    if overflow {
      Fill(out, 0xffff_ffff);
      AllOnes(out[..]);
    }
  }

  method Fill(out: array<Word>, w: Word)
    modifies out
    ensures forall j :: 0 <= j < out.Length ==> out[j] == w
  {
    for i := 0 to out.Length
      invariant forall j :: 0 <= j < i ==> out[j] == w
    {
      out[i] := w;
    }
  }

  lemma MulCommutes(x: int, y: int)
    ensures x * y == y * x
  {
  }

  lemma {:induction false} ZeroNum(limbs: seq<Word>)
    requires forall j :: 0 <= j < |limbs| ==> limbs[j] == 0
    ensures Num(limbs) == 0
  {
    if limbs != [] {
      ZeroNum(limbs[1..]);
    }
  }

  lemma ZeroOut(out: seq<Word>)
    requires |out| == 8 && forall j :: 0 <= j < 8 ==> out[j] == 0
    ensures OutAt(out, 256, 0)
  {
    assert out[..0] == [];
    assert 0 / Pow2(32) == 0 && 0 % Pow2(32) == 0;
  }

  lemma TopBitsStart(limbs: seq<Word>)
    ensures TopBits(limbs, 32 * |limbs|) == 0
  {
  }

  lemma TopBitsNext(limbs: seq<Word>, i: nat)
    requires i < 32 * |limbs|
    ensures TopBits(limbs, i) == 2 * TopBits(limbs, i + 1) + BitAt(limbs, i)
  {
  }

  lemma QuotientNext(out: seq<Word>, bit: nat, q: nat, hi: nat, lo: nat, one: nat)
    requires |out| == 8 && one < 2 && (bit + 1 >= 256 ==> q == hi && lo == 0 && OutAt(out, 256, 0))
    requires bit + 1 < 256 ==> OutAt(out, bit + 1, lo) && q == hi * Pow2(256 - (bit + 1)) + lo
    ensures bit < 256 ==>
              && 2 * q + one == hi * Pow2(256 - bit) + (2 * lo + one)
              && OutAt(if one == 1 then out[7 - bit / 32 := SetBit(out[7 - bit / 32], bit % 32)]
                  else out, bit, 2 * lo + one)
  {
    hide OutAt, SetBit, Pow2;
    if bit < 256 {
      OutStep(out, bit, lo, one);
      PowerStep(255 - bit);
      if bit == 255 {
        PowerZero();
        MulTwo(hi, 1);
      } else {
        MulTwo(hi, Pow2(255 - bit));
      }
    }
  }

  lemma PowerZero()
    ensures Pow2(0) == 1
  {
  }

  lemma {:induction false} ValueBound(ds: seq<Word>)
    ensures Value(TWO32, ds) < Capacity(|ds|)
    ensures (forall j :: 0 <= j < |ds| ==> ds[j] == 0xffff_ffff) ==> Value(TWO32, ds) == Capacity(|ds|) - 1
  {
    hide Capacity;
    if ds == [] {
      EmptyNum();
    } else {
      ValueBound(ds[..|ds| - 1]);
      CapacityGrows(|ds| - 1);
    }
  }

  lemma Capacity256()
    ensures Capacity(8) == MAX256 + 1
  {
    hide Pow2;
    Pow2Of32();
    Pow2Double(32, 0x1_0000_0000);
    Pow2Double(64, 0x1_0000_0000_0000_0000);
    Pow2Double(128, 0x1_0000_0000_0000_0000_0000_0000_0000_0000);
  }

  lemma AllOnes(out: seq<Word>)
    requires |out| == 8 && forall j :: 0 <= j < 8 ==> out[j] == 0xffff_ffff
    ensures Value(TWO32, out) == MAX256
  {
    hide Capacity;
    ValueBound(out);
    Capacity256();
  }

  lemma Saturation(out: seq<Word>, q: nat, hi: nat, lo: nat, overflow: bool)
    requires |out| == 8 && QuotientAt(out, 0, q, hi, lo, overflow)
    ensures overflow ==> Min(q, MAX256) == MAX256
    ensures !overflow ==> Value(TWO32, out) == Min(q, MAX256)
  {
    hide Value;
    ValueBound(out);
    Capacity256();
    if overflow {
      assert hi * Pow2(256) >= Pow2(256);
    }
  }
}
