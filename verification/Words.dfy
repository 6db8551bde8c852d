/** Bytes, 32-bit words and the modular arithmetic shared by hardware and firmware. */
module Words {
  const TWO32: int := 0x1_0000_0000
  const TWO64: int := 0x1_0000_0000_0000_0000

  type Byte = b: int | 0 <= b < 256
  type Word = w: int | 0 <= w < 0x1_0000_0000

  /** 32-bit wrapping addition: C's uint32_t `+`, Verilog's 32-bit `+`, and the DSP48E2 adder. */
  function Add(x: Word, y: Word): Word {
    (x + y) % 0x1_0000_0000
  }

  lemma AddAssociative(x: Word, y: Word, z: Word)
    ensures Add(Add(x, y), z) == Add(x, Add(y, z))
  {
    // Each inner sum wraps at most once, so both sides differ from x + y + z by a multiple of 2^32.
    assert Add(x, y) == x + y || Add(x, y) == x + y - TWO32;
    assert Add(y, z) == y + z || Add(y, z) == y + z - TWO32;
  }

  lemma AddWraps(x: nat, c: Word)
    ensures Add(x % TWO32, c) == (x + c) % TWO32
  {
    assert x == TWO32 * (x / TWO32) + x % TWO32;
  }

  /** Four summands in the order of the C code and in the order of FIPS 180-4. */
  lemma AddReorder(p: Word, q: Word, r: Word, s: Word)
    ensures Add(Add(Add(p, q), r), s) == Add(Add(Add(s, r), q), p)
  {
    AddAssociative(Add(p, q), r, s);
    AddAssociative(p, q, Add(r, s));
    AddAssociative(Add(s, r), q, p);
    assert Add(r, s) == Add(s, r) && Add(p, q) == Add(q, p);
  }

  function Bits(x: Word): bv32 {
    x as bv32
  }

  function FromBits(x: bv32): Word {
    x as int
  }

  function WordOf(b0: Byte, b1: Byte, b2: Byte, b3: Byte): Word {
    b0 * 0x100_0000 + b1 * 0x1_0000 + b2 * 0x100 + b3
  }

  /** Big-endian bytes of a word. */
  function BytesOf(w: Word): (s: seq<Byte>)
    ensures |s| == 4
  {
    [w / 0x100_0000, w / 0x1_0000 % 0x100, w / 0x100 % 0x100, w % 0x100]
  }

  lemma WordBytes(w: Word)
    ensures var s := BytesOf(w); WordOf(s[0], s[1], s[2], s[3]) == w
  {
    var x := w / 0x100;
    var y := x / 0x100;
    var z := y / 0x100;
    assert w / 0x1_0000 == y && w / 0x100_0000 == z;
    assert w == 0x100 * x + w % 0x100 && x == 0x100 * y + x % 0x100 && y == 0x100 * z + y % 0x100;
  }

  lemma BytesWord(b0: Byte, b1: Byte, b2: Byte, b3: Byte)
    ensures BytesOf(WordOf(b0, b1, b2, b3)) == [b0, b1, b2, b3]
  {
    var w := WordOf(b0, b1, b2, b3);
    assert w / 0x100 == b0 * 0x1_0000 + b1 * 0x100 + b2;
    assert w / 0x1_0000 == b0 * 0x100 + b1;
  }
}
