/** One round and one step of the schedule on bit vectors, where the solver can compute. */
module Sha256Bits {
  import opened Words
  import opened Sha256Spec
  import opened Sha256Logic

  datatype Vars = Vars(a: bv32, b: bv32, c: bv32, d: bv32, e: bv32, f: bv32, g: bv32, h: bv32)

  function Plus(p: bv32, q: bv32): bv32 {
    p + q
  }

  function S0(x: bv32): bv32 {
    Rotr(x, 2) ^ Rotr(x, 13) ^ Rotr(x, 22)
  }

  function S1(x: bv32): bv32 {
    Rotr(x, 6) ^ Rotr(x, 11) ^ Rotr(x, 25)
  }

  function W0(x: bv32): bv32 {
    Rotr(x, 7) ^ Rotr(x, 18) ^ (x >> 3)
  }

  function W1(x: bv32): bv32 {
    Rotr(x, 17) ^ Rotr(x, 19) ^ (x >> 10)
  }

  function Step(v: Vars, k: bv32, w: bv32): Vars {
    var t1 := Plus(Plus(Plus(Plus(v.h, S1(v.e)), ChBits(v.e, v.f, v.g)), k), w);
    var t2 := Plus(S0(v.a), MajBits(v.a, v.b, v.c));
    Vars(Plus(t1, t2), v.a, v.b, v.c, Plus(v.d, t1), v.e, v.f, v.g)
  }

  function Next(m2: bv32, m7: bv32, m15: bv32, m16: bv32): bv32 {
    Plus(Plus(Plus(W1(m2), m7), W0(m15)), m16)
  }

  function Lift(v: Vars): State {
    State(FromBits(v.a), FromBits(v.b), FromBits(v.c), FromBits(v.d),
          FromBits(v.e), FromBits(v.f), FromBits(v.g), FromBits(v.h))
  }

  // ----- addition -----

  lemma WideSum(p: bv32, q: bv32)
    ensures ((p as bv64) + (q as bv64)) as int == p as int + q as int
  {
  }

  lemma WideCarry(p: bv32)
    ensures ((p as bv64) + 0x1_0000_0000) as int == p as int + 0x1_0000_0000 && (p as bv64) as int == p as int
  {
  }

  lemma CarryOut(p: bv32, q: bv32)
    requires 0x1_0000_0000 <= (p as bv64) + (q as bv64)
    ensures (p as bv64) + (q as bv64) == ((p + q) as bv64) + 0x1_0000_0000
  {
  }

  lemma NoCarry(p: bv32, q: bv32)
    requires (p as bv64) + (q as bv64) < 0x1_0000_0000
    ensures (p as bv64) + (q as bv64) == (p + q) as bv64
  {
  }

  lemma SumBelow(p: bv32, q: bv32)
    ensures (p + q) as int == p as int + q as int || (p + q) as int == p as int + q as int - 0x1_0000_0000
  {
    WideSum(p, q);
    WideCarry(p + q);
    if 0x1_0000_0000 <= (p as bv64) + (q as bv64) {
      CarryOut(p, q);
    } else {
      NoCarry(p, q);
    }
  }

  lemma Wrapped(x: Word, y: Word, r: Word)
    requires r == x + y || r == x + y - 0x1_0000_0000
    ensures r == Add(x, y)
  {
  }

  lemma AddBits(p: bv32, q: bv32)
    ensures FromBits(Plus(p, q)) == Add(FromBits(p), FromBits(q))
  {
    hide Add;
    SumBelow(p, q);
    Wrapped(FromBits(p), FromBits(q), FromBits(Plus(p, q)));
  }

  // ----- the logical functions on words given by their bits -----

  lemma BigSigma0Lift(x: bv32)
    ensures BigSigma0(FromBits(x)) == FromBits(S0(x))
  {
    hide Rotr, Bits, FromBits;
    BitsBack(x);
  }

  lemma BigSigma1Lift(x: bv32)
    ensures BigSigma1(FromBits(x)) == FromBits(S1(x))
  {
    hide Rotr, Bits, FromBits;
    BitsBack(x);
  }

  lemma SmallSigma0Lift(x: bv32)
    ensures SmallSigma0(FromBits(x)) == FromBits(W0(x))
  {
    hide Rotr, Bits, FromBits;
    BitsBack(x);
  }

  lemma SmallSigma1Lift(x: bv32)
    ensures SmallSigma1(FromBits(x)) == FromBits(W1(x))
  {
    hide Rotr, Bits, FromBits;
    BitsBack(x);
  }

  lemma ChLift(x: bv32, y: bv32, z: bv32)
    ensures Ch(FromBits(x), FromBits(y), FromBits(z)) == FromBits(ChBits(x, y, z))
  {
    hide Bits, FromBits, Ch, ChBits;
    ChIs(FromBits(x), FromBits(y), FromBits(z));
    BitsBack(x);
    BitsBack(y);
    BitsBack(z);
  }

  lemma MajLift(x: bv32, y: bv32, z: bv32)
    ensures Maj(FromBits(x), FromBits(y), FromBits(z)) == FromBits(MajBits(x, y, z))
  {
    hide Bits, FromBits, Maj, MajBits;
    MajIs(FromBits(x), FromBits(y), FromBits(z));
    BitsBack(x);
    BitsBack(y);
    BitsBack(z);
  }

  lemma StepIsRound(v: Vars, k: bv32, w: bv32)
    ensures Round(Lift(v), FromBits(k), FromBits(w)) == Lift(Step(v, k, w))
  {
    hide FromBits, Add, Plus, S0, S1, ChBits, MajBits, BigSigma0, BigSigma1, Ch, Maj;
    BigSigma1Lift(v.e);
    ChLift(v.e, v.f, v.g);
    BigSigma0Lift(v.a);
    MajLift(v.a, v.b, v.c);
    var p := Plus(v.h, S1(v.e));
    var q := Plus(p, ChBits(v.e, v.f, v.g));
    var r := Plus(q, k);
    var t1, t2 := Plus(r, w), Plus(S0(v.a), MajBits(v.a, v.b, v.c));
    AddBits(v.h, S1(v.e));
    AddBits(p, ChBits(v.e, v.f, v.g));
    AddBits(q, k);
    AddBits(r, w);
    AddBits(S0(v.a), MajBits(v.a, v.b, v.c));
    AddBits(t1, t2);
    AddBits(v.d, t1);
  }

  lemma NextIsNextW(m2: bv32, m7: bv32, m15: bv32, m16: bv32)
    ensures NextW(FromBits(m2), FromBits(m7), FromBits(m15), FromBits(m16)) == FromBits(Next(m2, m7, m15, m16))
  {
    hide FromBits, Add, Plus, W0, W1, SmallSigma0, SmallSigma1;
    SmallSigma1Lift(m2);
    SmallSigma0Lift(m15);
    AddBits(W1(m2), m7);
    AddBits(Plus(W1(m2), m7), W0(m15));
    AddBits(Plus(Plus(W1(m2), m7), W0(m15)), m16);
  }
}
