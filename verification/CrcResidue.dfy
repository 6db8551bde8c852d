/** The checksum's residue: what pins the polynomial, the start value and the final complement of a CRC-32. */
module CrcResidue {
  import opened Words
  import opened SettingsRecord

  // ----- bytes of a bit vector -----

  function Number8(b: bv8): Byte {
    b as int
  }

  function Number32(x: bv32): Word {
    x as int
  }

  function Wide(b: bv8): bv32 {
    b as bv32
  }

  function Mixed(c: bv32, d: bv32): bv32 {
    c ^ d
  }

  function Flipped(x: bv32): bv32 {
    !x
  }

  /** Byte k of a word, the lowest first. */
  function ByteAt(x: bv32, k: nat): bv8
    requires k < 4
  {
    match k
    case 0 => (x & 0xff) as bv8
    case 1 => ((x >> 8) & 0xff) as bv8
    case 2 => ((x >> 16) & 0xff) as bv8
    case 3 => ((x >> 24) & 0xff) as bv8
  }

  function Joined(a: bv8, b: bv8, c: bv8, d: bv8): bv32 {
    ((a as bv32) << 24) | ((b as bv32) << 16) | ((c as bv32) << 8) | (d as bv32)
  }

  lemma JoinedNumber(a: bv8, b: bv8, c: bv8, d: bv8)
    ensures (((a as bv32) << 24) | ((b as bv32) << 16) | ((c as bv32) << 8) | (d as bv32)) as int
         == 0x100_0000 * (a as int) + 0x1_0000 * (b as int) + 0x100 * (c as int) + d as int
  {
  }

  lemma NumberOfJoined(a: bv8, b: bv8, c: bv8, d: bv8)
    ensures Number32(Joined(a, b, c, d))
         == 0x100_0000 * Number8(a) + 0x1_0000 * Number8(b) + 0x100 * Number8(c) + Number8(d)
  {
    JoinedNumber(a, b, c, d);
  }

  lemma JoinsItsBytes(x: bv32)
    ensures x == Joined(ByteAt(x, 3), ByteAt(x, 2), ByteAt(x, 1), ByteAt(x, 0))
  {
  }

  lemma BytesApart(a: Byte, b: Byte, c: Byte, d: Byte, w: Word)
    requires w == 0x100_0000 * a + 0x1_0000 * b + 0x100 * c + d
    ensures Put32(w) == [d, c, b, a]
  {
    assert w / 0x100 == 0x1_0000 * a + 0x100 * b + c;
    assert w / 0x1_0000 == 0x100 * a + b;
  }

  /** `put32` writes the bytes of the word. */
  lemma Put32OfBits(x: bv32)
    ensures Put32(Number32(x))
         == [Number8(ByteAt(x, 0)), Number8(ByteAt(x, 1)), Number8(ByteAt(x, 2)), Number8(ByteAt(x, 3))]
  {
    hide ByteAt, Joined, Put32, Number8, Number32;
    var a, b, c, d := ByteAt(x, 3), ByteAt(x, 2), ByteAt(x, 1), ByteAt(x, 0);
    JoinsItsBytes(x);
    NumberOfJoined(a, b, c, d);
    BytesApart(Number8(a), Number8(b), Number8(c), Number8(d), Number32(x));
  }

  lemma Widened(b: bv8)
    ensures (b as bv32) as int == b as int
  {
  }

  lemma BackAgain(y: bv32)
    ensures (y as int) as bv32 == y
  {
  }

  lemma ByteBits(b: bv8)
    ensures (b as int) as bv32 == b as bv32
  {
    Widened(b);
    BackAgain(b as bv32);
  }

  lemma ByteStep(s: bv32, b: bv8)
    ensures CrcStep(s, Number8(b)) == CrcBits(Mixed(s, Wide(b)), 8)
  {
    hide CrcBits;
    ByteBits(b);
  }

  // ----- four steps -----

  /** What is left of a register after k bytes of its own complement, next to the constant c. */
  function Left(r: bv32, k: nat, c: bv32): bv32
    requires k < 4
  {
    match k
    case 0 => r ^ c
    case 1 => (r >> 8) ^ c
    case 2 => (r >> 16) ^ c
    case 3 => (r >> 24) ^ c
  }

  lemma Step0(r: bv32)
    ensures CrcBits(Mixed(r, Wide(ByteAt(Flipped(r), 0))), 8) == Left(r, 1, 0x2d02ef8d)
  {
  }

  lemma Step1(r: bv32)
    ensures CrcBits(Mixed(Left(r, 1, 0x2d02ef8d), Wide(ByteAt(Flipped(r), 1))), 8) == Left(r, 2, 0xbe2612ff)
  {
  }

  lemma Step2(r: bv32)
    ensures CrcBits(Mixed(Left(r, 2, 0xbe2612ff), Wide(ByteAt(Flipped(r), 2))), 8) == Left(r, 3, 0x00be2612)
  {
  }

  lemma Step3(r: bv32)
    ensures CrcBits(Mixed(Left(r, 3, 0x00be2612), Wide(ByteAt(Flipped(r), 3))), 8) == 0xdebb20e3
  {
  }

  lemma StateSnoc(p: seq<Byte>, b: Byte)
    ensures CrcState(p + [b]) == CrcStep(CrcState(p), b)
  {
    hide CrcStep;
    assert (p + [b])[..|p|] == p;
  }

  lemma FourMore(p: seq<Byte>, a: Byte, b: Byte, c: Byte, d: Byte)
    ensures CrcState(p + [a, b, c, d]) == CrcStep(CrcStep(CrcStep(CrcStep(CrcState(p), a), b), c), d)
  {
    hide CrcStep;
    StateSnoc(p, a);
    StateSnoc(p + [a], b);
    StateSnoc(p + [a] + [b], c);
    StateSnoc(p + [a] + [b] + [c], d);
    assert p + [a, b, c, d] == p + [a] + [b] + [c] + [d];
  }

  lemma CrcIsFlipped(p: seq<Byte>)
    ensures Crc(p) == Number32(Flipped(CrcState(p)))
  {
    hide CrcState;
  }

  /** Appending the checksum of any string to it leaves the register at the residue of CRC-32. */
  lemma Residue(p: seq<Byte>)
    ensures CrcState(p + Put32(Crc(p))) == 0xdebb20e3
  {
    hide CrcStep, CrcState, CrcBits, Put32, ByteAt, Crc, Number8, Number32, Flipped, Mixed, Wide, Left;
    var r := CrcState(p);
    var x := Flipped(r);
    CrcIsFlipped(p);
    Put32OfBits(x);
    FourMore(p, Number8(ByteAt(x, 0)), Number8(ByteAt(x, 1)), Number8(ByteAt(x, 2)), Number8(ByteAt(x, 3)));
    ByteStep(r, ByteAt(x, 0));
    Step0(r);
    ByteStep(Left(r, 1, 0x2d02ef8d), ByteAt(x, 1));
    Step1(r);
    ByteStep(Left(r, 2, 0xbe2612ff), ByteAt(x, 2));
    Step2(r);
    ByteStep(Left(r, 3, 0x00be2612), ByteAt(x, 3));
    Step3(r);
  }

  // ----- the check value -----

  lemma CheckSteps()
    ensures CrcStep(0xffffffff, 0x31) == 0x7c231048
    ensures CrcStep(0x7c231048, 0x32) == 0xb0acbb32
    ensures CrcStep(0xb0acbb32, 0x33) == 0x77b79c2d
    ensures CrcStep(0x77b79c2d, 0x34) == 0x641c1f5c
    ensures CrcStep(0x641c1f5c, 0x35) == 0x340ac5e3
    ensures CrcStep(0x340ac5e3, 0x36) == 0xf68d2c9e
    ensures CrcStep(0xf68d2c9e, 0x37) == 0xaffc9660
    ensures CrcStep(0xaffc9660, 0x38) == 0x651f2550
    ensures CrcStep(0x651f2550, 0x39) == 0x340bc6d9
  {
  }

  /** The published check value of CRC-32: the checksum of the nine digits "123456789". */
  lemma CheckValue()
    ensures Crc([0x31, 0x32, 0x33, 0x34, 0x35, 0x36, 0x37, 0x38, 0x39]) == 0xcbf4_3926
  {
    hide CrcStep, CrcState, CrcResult;
    var nine: seq<Byte> := [0x31, 0x32, 0x33, 0x34, 0x35, 0x36, 0x37, 0x38, 0x39];
    CheckSteps();
    StartState();
    LastState();
    FourMore([], 0x31, 0x32, 0x33, 0x34);
    assert nine[..4] == [] + [0x31, 0x32, 0x33, 0x34];
    FourMore(nine[..4], 0x35, 0x36, 0x37, 0x38);
    assert nine[..8] == nine[..4] + [0x35, 0x36, 0x37, 0x38];
    StateSnoc(nine[..8], 0x39);
    assert nine == nine[..8] + [0x39];
  }

  lemma StartState()
    ensures CrcState([]) == 0xffffffff
  {
  }

  lemma LastState()
    ensures CrcResult(0x340bc6d9) == 0xcbf4_3926
  {
    assert !(0x340bc6d9 as bv32) == 0xcbf43926 as bv32;
    assert (0xcbf43926 as bv32) as int == 0xcbf4_3926;
  }
}
