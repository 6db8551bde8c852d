/** The 1024-bit limb arithmetic of software/common/bitcoin.c: multiply by ten, compare, subtract, shift. */
module Bignum {
  import opened Words
  import opened Positional
  import opened Arithmetic

  /** The number in a limb array, least significant limb first. */
  function Num(limbs: seq<Word>): nat {
    LeValue(TWO32, limbs)
  }

  function Capacity(n: nat): nat {
    Pow2(32 * n)
  }

  lemma CapacityGrows(n: nat)
    ensures Capacity(n + 1) == Capacity(n) * TWO32
  {
    Pow2Split(32 * n, 32);
    Pow2Of32();
  }

  lemma {:induction false} NumSnoc(limbs: seq<Word>, d: Word)
    ensures Num(limbs + [d]) == Num(limbs) + d * Capacity(|limbs|)
  {
    if limbs == [] {
      assert LeValue(TWO32, [d]) == d + TWO32 * LeValue(TWO32, []);
    } else {
      var rest := limbs[1..];
      NumSnoc(rest, d);
      assert (limbs + [d])[1..] == rest + [d];
      CapacityGrows(|rest|);
      assert TWO32 * (d * Capacity(|rest|)) == d * (Capacity(|rest|) * TWO32);
    }
  }

  lemma NumNext(limbs: seq<Word>, i: nat)
    requires i < |limbs|
    ensures Num(limbs[..i + 1]) == Num(limbs[..i]) + limbs[i] * Capacity(i)
  {
    assert limbs[..i + 1] == limbs[..i] + [limbs[i]];
    NumSnoc(limbs[..i], limbs[i]);
  }

  lemma {:induction false} NumBound(limbs: seq<Word>)
    ensures Num(limbs) < Capacity(|limbs|)
  {
    if limbs == [] {
      assert Pow2(0) == 1;
    } else {
      NumBound(limbs[1..]);
      CapacityGrows(|limbs| - 1);
    }
  }

  lemma EmptyNum()
    ensures Num([]) == 0 && Capacity(0) == 1
  {
  }

  /** One limb of a carry chain: low limbs and carry stand for x before and for x + y * B^i after. */
  lemma CarryStep(low: int, limb: int, carry: int, carry': int, y: int, x: int, i: nat)
    requires low + carry * Capacity(i) == x
    requires carry' * TWO32 + limb == carry + y
    ensures low + limb * Capacity(i) + carry' * Capacity(i + 1) == x + y * Capacity(i)
  {
    hide Capacity;
    var p := Capacity(i);
    CapacityGrows(i);
    assert carry' * (p * TWO32) == carry' * TWO32 * p;
    MulDistributes(limb, carry' * TWO32, p);
    MulDistributes(carry, y, p);
  }

  lemma CarryCounts(carry: nat, p: nat)
    ensures carry > 0 ==> carry * p >= p
  {
    if carry > 0 {
      MulDistributes(carry - 1, 1, p);
    }
  }

  /** `multiply10`: a := 10 * a + add, refusing exactly when the result needs more limbs. */
  method Multiply10(a: array<Word>, add: nat) returns (ok: bool)
    requires add < 10
    modifies a
    ensures ok <==> 10 * Num(old(a[..])) + add < Capacity(a.Length)
    ensures ok ==> Num(a[..]) == 10 * Num(old(a[..])) + add
  {
    hide Num, Capacity;
    ghost var before := a[..];
    var carry := add;
    assert a[..0] == [] && before[..0] == [];
    EmptyNum();
    for i := 0 to a.Length
      invariant carry < 10
      invariant a[i..] == before[i..]
      invariant Num(a[..i]) + carry * Capacity(i) == 10 * Num(before[..i]) + add
    {
      var limb: nat := a[i];
      assert limb == before[i];
      var c := carry + 10 * limb;
      ghost var low := a[..i];
      a[i] := c % 0x1_0000_0000;
      CarryStep(Num(low), c % 0x1_0000_0000, carry, c / 0x1_0000_0000, 10 * limb, 10 * Num(before[..i]) + add, i);
      carry := c / 0x1_0000_0000;
      NumNext(before, i);
      NumSnoc(low, a[i]);
      assert a[..i + 1] == low + [a[i]];
      MulAssociates(10, limb, Capacity(i));
    }
    assert a[..a.Length] == a[..] && before[..a.Length] == before;
    NumBound(a[..]);
    ok := carry == 0;
    CarryCounts(carry, Capacity(a.Length));
  }

  /** The shift of the division loop: r := 2 * r + bit. */
  method ShiftIn(r: array<Word>, bit: nat)
    requires bit < 2 && 2 * Num(r[..]) + bit < Capacity(r.Length)
    modifies r
    ensures Num(r[..]) == 2 * Num(old(r[..])) + bit
  {
    hide Num, Capacity;
    ghost var before := r[..];
    var carry := bit;
    assert r[..0] == [] && before[..0] == [];
    EmptyNum();
    for i := 0 to r.Length
      invariant 0 <= carry < 2
      invariant r[i..] == before[i..]
      invariant Num(r[..i]) + carry * Capacity(i) == 2 * Num(before[..i]) + bit
    {
      var limb: nat := r[i];
      assert limb == before[i];
      var next := limb / 0x8000_0000;
      var shifted := 2 * (limb % 0x8000_0000) + carry;
      ghost var low := r[..i];
      r[i] := shifted;
      CarryStep(Num(low), shifted, carry, next, 2 * limb, 2 * Num(before[..i]) + bit, i);
      carry := next;
      NumNext(before, i);
      NumSnoc(low, r[i]);
      assert r[..i + 1] == low + [r[i]];
      MulAssociates(2, limb, Capacity(i));
    }
    assert r[..r.Length] == r[..] && before[..r.Length] == before;
    CarryCounts(carry, Capacity(r.Length));
  }

  /** `subtract`: a := a - b for a >= b. */
  method Subtract(a: array<Word>, b: seq<Word>)
    requires a.Length == |b| && Num(b) <= Num(a[..])
    modifies a
    ensures Num(a[..]) == Num(old(a[..])) - Num(b)
  {
    hide Num, Capacity;
    ghost var before := a[..];
    var borrow := 0;
    assert a[..0] == [] && before[..0] == [] && b[..0] == [];
    EmptyNum();
    for i := 0 to a.Length
      invariant 0 <= borrow < 2
      invariant a[i..] == before[i..]
      invariant Num(a[..i]) - borrow * Capacity(i) == Num(before[..i]) - Num(b[..i])
    {
      var sub: nat := b[i] as int + borrow;
      var limb: nat := a[i];
      assert limb == before[i];
      ghost var low := a[..i];
      var next := if limb < sub then 1 else 0;
      a[i] := (limb - sub) % 0x1_0000_0000;
      ghost var y: int := limb - b[i] as int;
      CarryStep(Num(low), a[i], -borrow, -next, y, Num(before[..i]) - Num(b[..i]), i);
      borrow := next;
      NumNext(before, i);
      NumNext(b, i);
      NumSnoc(low, a[i]);
      assert a[..i + 1] == low + [a[i]];
      MulDistributes(y, b[i], Capacity(i));
    }
    assert a[..a.Length] == a[..] && before[..a.Length] == before && b[..a.Length] == b;
    NumBound(a[..]);
    CarryCounts(borrow, Capacity(a.Length));
  }

  /** `compare`: the sign of a - b, from the most significant limb that differs. */
  method Compare(a: seq<Word>, b: seq<Word>) returns (sign: int)
    requires |a| == |b|
    ensures sign == if Num(a) > Num(b) then 1 else if Num(a) < Num(b) then -1 else 0
  {
    hide Num;
    for i := |a| downto 0
      invariant a[i..] == b[i..]
    {
      if a[i] != b[i] {
        if a[i] > b[i] {
          HigherLimbDecides(a, b, i, |a|);
        } else {
          HigherLimbDecides(b, a, i, |a|);
        }
        assert a[..|a|] == a && b[..|a|] == b;
        return if a[i] > b[i] then 1 else -1;
      }
    }
    assert a[0..] == a && b[0..] == b;
    return 0;
  }

  lemma {:induction false} HigherLimbDecides(a: seq<Word>, b: seq<Word>, i: nat, n: nat)
    requires i < n <= |a| == |b| && a[i] > b[i] && a[i + 1..] == b[i + 1..]
    ensures Num(a[..n]) > Num(b[..n])
  {
    hide Num, Capacity;
    NumNext(a, n - 1);
    NumNext(b, n - 1);
    if n == i + 1 {
      NumBound(b[..i]);
      MulLess(b[i], a[i], Capacity(i));
    } else {
      HigherLimbDecides(a, b, i, n - 1);
      assert a[n - 1] == a[i + 1..][n - 2 - i] == b[n - 1];
    }
  }
}
