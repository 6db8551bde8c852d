/** The logical functions of section 4.1.2 of FIPS 180-4, bit by bit. */
module Sha256Logic {
  import opened Words
  import opened Sha256Spec

  predicate Bit(x: bv32, j: bv6)
    requires j < 32
  {
    (x >> j) & 1 == 1
  }

  /** The bit position n places to the left of j, around the word. */
  function Left(j: bv6, n: bv6): (k: bv6)
    requires j < 32 && n < 32
    ensures k < 32
  {
    if j + n < 32 then j + n else j + n - 32
  }

  predicate Odd(p: bool, q: bool, r: bool) {
    (p != q) != r
  }

  function Shr(x: bv32, n: bv6): bv32
    requires n < 32
  {
    x >> n
  }

  function Xor3(x: bv32, y: bv32, z: bv32): bv32 {
    x ^ y ^ z
  }

  function ChBits(x: bv32, y: bv32, z: bv32): bv32 {
    (x & y) ^ (!x & z)
  }

  function MajBits(x: bv32, y: bv32, z: bv32): bv32 {
    (x & y) ^ (x & z) ^ (y & z)
  }

  lemma RotationWithin(x: bv32, n: bv6, j: bv6)
    requires 0 < n < 32 && j < 32 && j + n < 32
    ensures (((x >> n) | (x << (32 - n))) >> j) & 1 == (x >> (j + n)) & 1
  {
  }

  lemma RotationAround(x: bv32, n: bv6, j: bv6)
    requires 0 < n < 32 && j < 32 && j + n >= 32
    ensures (((x >> n) | (x << (32 - n))) >> j) & 1 == (x >> (j + n - 32)) & 1
  {
  }

  lemma BitWithin(x: bv32, n: bv6, j: bv6)
    requires 0 < n < 32 && j < 32 && j + n < 32
    ensures Bit(Rotr(x, n), j) == Bit(x, j + n)
  {
    RotationWithin(x, n, j);
  }

  lemma BitAround(x: bv32, n: bv6, j: bv6)
    requires 0 < n < 32 && j < 32 && j + n >= 32
    ensures Bit(Rotr(x, n), j) == Bit(x, j + n - 32)
  {
    RotationAround(x, n, j);
  }

  /** Rotation to the right by n brings every bit from n places to its left. */
  lemma RotationBit(x: bv32, n: bv6, j: bv6)
    requires 0 < n < 32 && j < 32
    ensures Bit(Rotr(x, n), j) == Bit(x, Left(j, n))
  {
    hide Rotr, Bit;
    if j + n < 32 {
      BitWithin(x, n, j);
    } else {
      BitAround(x, n, j);
    }
  }

  lemma ShiftBit(x: bv32, n: bv6, j: bv6)
    requires 0 < n < 32 && j < 32
    ensures Bit(Shr(x, n), j) == (j + n < 32 && Bit(x, j + n))
  {
  }

  lemma XorBit(x: bv32, y: bv32, z: bv32, j: bv6)
    requires j < 32
    ensures Bit(x ^ y ^ z, j) == Odd(Bit(x, j), Bit(y, j), Bit(z, j))
  {
  }

  lemma Xor3Bit(x: bv32, y: bv32, z: bv32, j: bv6)
    requires j < 32
    ensures Bit(Xor3(x, y, z), j) == Odd(Bit(x, j), Bit(y, j), Bit(z, j))
  {
    hide Bit;
    XorBit(x, y, z, j);
  }

  lemma BitsBack(x: bv32)
    ensures Bits(FromBits(x)) == x
  {
  }

  lemma SelectBit(x: bv32, y: bv32, z: bv32, j: bv6)
    requires j < 32
    ensures Bit((x & y) ^ (!x & z), j) == if Bit(x, j) then Bit(y, j) else Bit(z, j)
  {
  }

  lemma VoteBit(x: bv32, y: bv32, z: bv32, j: bv6)
    requires j < 32
    ensures Bit((x & y) ^ (x & z) ^ (y & z), j) == if Bit(x, j) == Bit(y, j) then Bit(x, j) else Bit(z, j)
  {
  }

  lemma ChBitsBit(x: bv32, y: bv32, z: bv32, j: bv6)
    requires j < 32
    ensures Bit(ChBits(x, y, z), j) == if Bit(x, j) then Bit(y, j) else Bit(z, j)
  {
    hide Bit;
    SelectBit(x, y, z, j);
  }

  lemma MajBitsBit(x: bv32, y: bv32, z: bv32, j: bv6)
    requires j < 32
    ensures Bit(MajBits(x, y, z), j) == if Bit(x, j) == Bit(y, j) then Bit(x, j) else Bit(z, j)
  {
    hide Bit;
    VoteBit(x, y, z, j);
  }

  lemma ChIs(x: Word, y: Word, z: Word)
    ensures Ch(x, y, z) == FromBits(ChBits(Bits(x), Bits(y), Bits(z)))
  {
    hide Bits, FromBits;
  }

  lemma MajIs(x: Word, y: Word, z: Word)
    ensures Maj(x, y, z) == FromBits(MajBits(Bits(x), Bits(y), Bits(z)))
  {
    hide Bits, FromBits;
  }

  /** Ch selects: every bit of x decides between y and z. */
  lemma ChBit(x: Word, y: Word, z: Word, j: bv6)
    requires j < 32
    ensures Bit(Bits(Ch(x, y, z)), j) == if Bit(Bits(x), j) then Bit(Bits(y), j) else Bit(Bits(z), j)
  {
    hide Bit, Bits, FromBits, ChBits, Ch;
    ChIs(x, y, z);
    BitsBack(ChBits(Bits(x), Bits(y), Bits(z)));
    ChBitsBit(Bits(x), Bits(y), Bits(z), j);
  }

  /** Maj is the majority: where two of its bits agree, they win. */
  lemma MajBit(x: Word, y: Word, z: Word, j: bv6)
    requires j < 32
    ensures var a, b, c := Bit(Bits(x), j), Bit(Bits(y), j), Bit(Bits(z), j);
            Bit(Bits(Maj(x, y, z)), j) <==> (a && b) || (a && c) || (b && c)
  {
    hide Bit, Bits, FromBits, MajBits, Maj;
    MajIs(x, y, z);
    BitsBack(MajBits(Bits(x), Bits(y), Bits(z)));
    MajBitsBit(Bits(x), Bits(y), Bits(z), j);
  }

  lemma BigSigma0Is(x: Word)
    ensures var b := Bits(x); BigSigma0(x) == FromBits(Xor3(Rotr(b, 2), Rotr(b, 13), Rotr(b, 22)))
  {
    hide Rotr, Bits, FromBits;
  }

  lemma BigSigma1Is(x: Word)
    ensures var b := Bits(x); BigSigma1(x) == FromBits(Xor3(Rotr(b, 6), Rotr(b, 11), Rotr(b, 25)))
  {
    hide Rotr, Bits, FromBits;
  }

  lemma SmallSigma0Is(x: Word)
    ensures var b := Bits(x); SmallSigma0(x) == FromBits(Xor3(Rotr(b, 7), Rotr(b, 18), Shr(b, 3)))
  {
    hide Rotr, Bits, FromBits;
  }

  lemma SmallSigma1Is(x: Word)
    ensures var b := Bits(x); SmallSigma1(x) == FromBits(Xor3(Rotr(b, 17), Rotr(b, 19), Shr(b, 10)))
  {
    hide Rotr, Bits, FromBits;
  }

  lemma BigSigma0Bit(x: Word, j: bv6)
    requires j < 32
    ensures var b := Bits(x);
            Bit(Bits(BigSigma0(x)), j) == Odd(Bit(b, Left(j, 2)), Bit(b, Left(j, 13)), Bit(b, Left(j, 22)))
  {
    hide Rotr, Bit, Bits, FromBits, Left, Xor3, Shr, BigSigma0, BigSigma1, SmallSigma0, SmallSigma1;
    var b := Bits(x);
    BigSigma0Is(x);
    BitsBack(Xor3(Rotr(b, 2), Rotr(b, 13), Rotr(b, 22)));
    RotationBit(b, 2, j);
    RotationBit(b, 13, j);
    RotationBit(b, 22, j);
    Xor3Bit(Rotr(b, 2), Rotr(b, 13), Rotr(b, 22), j);
  }

  lemma BigSigma1Bit(x: Word, j: bv6)
    requires j < 32
    ensures var b := Bits(x);
            Bit(Bits(BigSigma1(x)), j) == Odd(Bit(b, Left(j, 6)), Bit(b, Left(j, 11)), Bit(b, Left(j, 25)))
  {
    hide Rotr, Bit, Bits, FromBits, Left, Xor3, Shr, BigSigma0, BigSigma1, SmallSigma0, SmallSigma1;
    var b := Bits(x);
    BigSigma1Is(x);
    BitsBack(Xor3(Rotr(b, 6), Rotr(b, 11), Rotr(b, 25)));
    RotationBit(b, 6, j);
    RotationBit(b, 11, j);
    RotationBit(b, 25, j);
    Xor3Bit(Rotr(b, 6), Rotr(b, 11), Rotr(b, 25), j);
  }

  lemma SmallSigma0Bit(x: Word, j: bv6)
    requires j < 32
    ensures var b := Bits(x);
            Bit(Bits(SmallSigma0(x)), j) == Odd(Bit(b, Left(j, 7)), Bit(b, Left(j, 18)), (j + 3 < 32 && Bit(b, j + 3)))
  {
    hide Rotr, Bit, Bits, FromBits, Left, Xor3, Shr, BigSigma0, BigSigma1, SmallSigma0, SmallSigma1;
    var b := Bits(x);
    SmallSigma0Is(x);
    BitsBack(Xor3(Rotr(b, 7), Rotr(b, 18), Shr(b, 3)));
    RotationBit(b, 7, j);
    RotationBit(b, 18, j);
    ShiftBit(b, 3, j);
    Xor3Bit(Rotr(b, 7), Rotr(b, 18), Shr(b, 3), j);
  }

  lemma SmallSigma1Bit(x: Word, j: bv6)
    requires j < 32
    ensures var b := Bits(x);
            Bit(Bits(SmallSigma1(x)), j)
            == Odd(Bit(b, Left(j, 17)), Bit(b, Left(j, 19)), (j + 10 < 32 && Bit(b, j + 10)))
  {
    hide Rotr, Bit, Bits, FromBits, Left, Xor3, Shr, BigSigma0, BigSigma1, SmallSigma0, SmallSigma1;
    var b := Bits(x);
    SmallSigma1Is(x);
    BitsBack(Xor3(Rotr(b, 17), Rotr(b, 19), Shr(b, 10)));
    RotationBit(b, 17, j);
    RotationBit(b, 19, j);
    ShiftBit(b, 10, j);
    Xor3Bit(Rotr(b, 17), Rotr(b, 19), Shr(b, 10), j);
  }
}
