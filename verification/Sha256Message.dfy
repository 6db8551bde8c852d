/** SHA-256 of a byte string: the padding of section 5.1.1 and the block chaining of section 6.2 of FIPS 180-4. */
module Sha256Message {
  import opened Words
  import opened Sha256Spec

  /** The sixteen big-endian words of a 64-byte block. */
  function BlockOf(bytes: seq<Byte>): (b: Block)
    requires |bytes| == 64
  {
    seq(16, i requires 0 <= i < 16 => WordOf(bytes[4 * i], bytes[4 * i + 1], bytes[4 * i + 2], bytes[4 * i + 3]))
  }

  /** The chaining value after all 64-byte blocks of a string. */
  function HashBlocks(s: State, bytes: seq<Byte>): State
    requires |bytes| % 64 == 0
  {
    if bytes == [] then s
    else
      var n := |bytes| - 64;
      Compress(HashBlocks(s, bytes[..n]), BlockOf(bytes[n..]))
  }

  lemma HashBlocksAppend(s: State, bytes: seq<Byte>, block: seq<Byte>)
    requires |bytes| % 64 == 0 && |block| == 64
    ensures HashBlocks(s, bytes + block) == Compress(HashBlocks(s, bytes), BlockOf(block))
  {
    hide Compress;
    var all := bytes + block;
    assert all[..|all| - 64] == bytes && all[|all| - 64..] == block;
  }

  lemma HashBlocksEmpty()
    ensures HashBlocks(IV, []) == IV
  {
  }

  function Zeros(n: nat): (z: seq<Byte>)
    ensures |z| == n
  {
    seq(n, _ => 0)
  }

  /** The message length in bits as eight big-endian bytes. Exact for messages under 2^64 bits. */
  function LengthBytes(bits: nat): (s: seq<Byte>)
    ensures |s| == 8
  {
    BytesOf(bits / TWO32 % TWO32) + BytesOf(bits % TWO32)
  }

  function Padding(n: nat): (p: seq<Byte>)
    ensures (n + |p|) % 64 == 0
  {
    var r := n % 64;
    var z := if r < 56 then 55 - r else 119 - r;
    assert n + (9 + z) == 64 * (n / 64) + (if r < 56 then 64 else 128);
    [0x80] + Zeros(z) + LengthBytes(8 * n)
  }

  function Pad(m: seq<Byte>): (p: seq<Byte>)
    ensures |p| % 64 == 0
  {
    m + Padding(|m|)
  }

  /** The big-endian bytes of the eight chaining words. */
  function DigestBytes(s: State): (d: seq<Byte>)
    ensures |d| == 32
  {
    BytesOf(s.a) + BytesOf(s.b) + BytesOf(s.c) + BytesOf(s.d) + BytesOf(s.e) + BytesOf(s.f) + BytesOf(s.g)
        + BytesOf(s.h)
  }

  function Sha256(m: seq<Byte>): (d: seq<Byte>)
    ensures |d| == 32
  {
    DigestBytes(HashBlocks(IV, Pad(m)))
  }

  function Sha256d(m: seq<Byte>): (d: seq<Byte>)
    ensures |d| == 32
  {
    Sha256(Sha256(m))
  }

  /** The chaining value after the first 64 bytes of an 80-byte header. */
  function Midstate(header: seq<Byte>): State
    requires |header| == 80
  {
    HashBlocks(IV, header[..64])
  }
}
