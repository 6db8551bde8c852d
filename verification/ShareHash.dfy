/** The double hash of an 80-byte header as the hardware computes it, and the share condition. */
module ShareHash {
  import opened Words
  import opened Positional
  import opened Sha256Spec
  import opened Sha256Message

  type Tail = t: seq<Word> | |t| == 4 witness seq(4, _ => 0)
  type Target = t: seq<Word> | |t| == 8 witness seq(8, _ => 0)

  /** `bitcoin_header_tail_words`. */
  function TailWords(header: seq<Byte>): Tail
    requires |header| == 80
  {
    seq(4, i requires 0 <= i < 4 =>
      WordOf(header[64 + 4 * i], header[65 + 4 * i], header[66 + 4 * i], header[67 + 4 * i]))
  }

  /** Header bytes 76..79 are the nonce message word, most significant byte first. */
  function WithNonce(header: seq<Byte>, nonce: Word): (h: seq<Byte>)
    requires |header| == 80
    ensures |h| == 80
  {
    header[..76] + BytesOf(nonce)
  }

  /** The block of the first pass: three tail words, the nonce, and the padding of an 80-byte message. */
  function FirstBlock(tail: Tail, nonce: Word): Block {
    [tail[0], tail[1], tail[2], nonce, 0x8000_0000, 0, 0, 0, 0, 0, 0, 0, 0, 0, 0, 0x280]
  }

  /** The block of the second pass: the first digest and the padding of a 32-byte message. */
  function SecondBlock(d: State): Block {
    [d.a, d.b, d.c, d.d, d.e, d.f, d.g, d.h, 0x8000_0000, 0, 0, 0, 0, 0, 0, 0x100]
  }

  function FirstPass(midstate: State, tail: Tail, nonce: Word): State {
    Compress(midstate, FirstBlock(tail, nonce))
  }

  function SecondPass(first: State): State {
    Compress(IV, SecondBlock(first))
  }

  lemma BlockWord(b: seq<Byte>, i: nat, w: Word)
    requires |b| == 64 && i < 16
    requires b[4 * i..4 * i + 4] == BytesOf(w)
    ensures BlockOf(b)[i] == w
  {
    hide BytesOf;
    WordBytes(w);
    var q := b[4 * i..4 * i + 4];
    assert q[0] == b[4 * i] && q[1] == b[4 * i + 1] && q[2] == b[4 * i + 2] && q[3] == b[4 * i + 3];
  }

  /** A message of 4k bytes is padded with whole words: 0x80000000, zeros, and the bit length. */
  lemma PaddedWords(m: seq<Byte>, bits: Word, k: nat, i: nat)
    requires |m| == 4 * k && k < 14 && k <= i < 16
    ensures |m + ([0x80] + Zeros(55 - |m|) + LengthBytes(bits))| == 64
    ensures BlockOf(m + ([0x80] + Zeros(55 - |m|) + LengthBytes(bits)))[i]
         == if i == k then 0x8000_0000 else if i == 15 then bits else 0
  {
    hide BlockOf;
    var w := if i == k then 0x8000_0000 else if i == 15 then bits else 0;
    var b := m + ([0x80] + Zeros(55 - |m|) + LengthBytes(bits));
    var q := b[4 * i..4 * i + 4];
    LengthWords(bits);
    assert i == 15 ==> q == LengthBytes(bits)[4..];
    assert i == 14 ==> q == LengthBytes(bits)[..4];
    assert i == k ==> q == [0x80, 0, 0, 0];
    assert k < i < 14 ==> q == [0, 0, 0, 0];
    BlockWord(b, i, w);
  }

  lemma LengthWords(bits: Word)
    ensures LengthBytes(bits)[..4] == BytesOf(0) == [0, 0, 0, 0]
    ensures LengthBytes(bits)[4..] == BytesOf(bits)
    ensures BytesOf(0x8000_0000) == [0x80, 0, 0, 0]
  {
  }

  lemma BlockOfHeaderEnd(header: seq<Byte>, nonce: Word)
    requires |header| == 80
    ensures |WithNonce(header, nonce)[64..] + Padding(80)| == 64
    ensures BlockOf(WithNonce(header, nonce)[64..] + Padding(80)) == FirstBlock(TailWords(header), nonce)
  {
    hide BytesOf, Zeros, LengthBytes, BlockOf;
    var m := WithNonce(header, nonce)[64..];
    var b := m + Padding(80);
    var e := FirstBlock(TailWords(header), nonce);
    assert b[4 * 3..4 * 3 + 4] == BytesOf(nonce);
    BlockWord(b, 3, nonce);
    forall i | 0 <= i < 3
      ensures BlockOf(b)[i] == e[i]
    {
      var j := 64 + 4 * i;
      assert b[4 * i] == header[j] && b[4 * i + 1] == header[j + 1];
      assert b[4 * i + 2] == header[j + 2] && b[4 * i + 3] == header[j + 3];
      BytesWord(header[j], header[j + 1], header[j + 2], header[j + 3]);
      assert b[4 * i..4 * i + 4] == [header[j], header[j + 1], header[j + 2], header[j + 3]];
      BlockWord(b, i, WordOf(header[j], header[j + 1], header[j + 2], header[j + 3]));
    }
    forall i | 4 <= i < 16
      ensures BlockOf(b)[i] == e[i]
    {
      PaddedWords(m, 640, 4, i);
    }
  }

  lemma DigestWords(d: State)
    ensures forall i :: 0 <= i < 8 ==> DigestBytes(d)[4 * i..4 * i + 4] == BytesOf(SecondBlock(d)[i])
  {
    hide BytesOf;
    var s := DigestBytes(d);
    assert s[0..4] == BytesOf(d.a) && s[4..8] == BytesOf(d.b) && s[8..12] == BytesOf(d.c) && s[12..16] == BytesOf(d.d);
    assert s[16..20] == BytesOf(d.e) && s[20..24] == BytesOf(d.f) && s[24..28] == BytesOf(d.g)
        && s[28..32] == BytesOf(d.h);
    forall i | 0 <= i < 8
      ensures s[4 * i..4 * i + 4] == BytesOf(SecondBlock(d)[i])
    {
      if i == 0 {} else if i == 1 {} else if i == 2 {} else if i == 3 {} else if i == 4 {} else if i == 5 {}
          else if i == 6 {} else {}
    }
  }

  lemma BlockOfDigest(d: State)
    ensures |DigestBytes(d) + Padding(32)| == 64
    ensures BlockOf(DigestBytes(d) + Padding(32)) == SecondBlock(d)
  {
    hide BytesOf, DigestBytes, BlockOf, LengthBytes, Zeros;
    var b := DigestBytes(d) + Padding(32);
    var w, e := BlockOf(b), SecondBlock(d);
    DigestWords(d);
    forall i | 0 <= i < 8
      ensures w[i] == e[i]
    {
      assert b[4 * i..4 * i + 4] == DigestBytes(d)[4 * i..4 * i + 4];
      BlockWord(b, i, e[i]);
    }
    forall i | 8 <= i < 16
      ensures w[i] == e[i]
    {
      PaddedWords(DigestBytes(d), 256, 8, i);
    }
  }

  /** Midstate, fixed padding blocks and two compressions agree with the firmware's double hash. */
  lemma TwoPassesAreSha256d(header: seq<Byte>, nonce: Word)
    requires |header| == 80
    ensures DigestBytes(SecondPass(FirstPass(Midstate(header), TailWords(header), nonce)))
         == Sha256d(WithNonce(header, nonce))
  {
    hide Compress, HashBlocks, BlockOf, Padding, DigestBytes, BytesOf, FirstBlock, SecondBlock;
    var h := WithNonce(header, nonce);
    BlockOfHeaderEnd(header, nonce);
    HashBlocksAppend(IV, h[..64], h[64..] + Padding(80));
    assert h[..64] + (h[64..] + Padding(80)) == Pad(h);
    assert h[..64] == header[..64];
    var first := FirstPass(Midstate(header), TailWords(header), nonce);
    assert Sha256(h) == DigestBytes(first);
    BlockOfDigest(first);
    HashBlocksAppend(IV, [], DigestBytes(first) + Padding(32));
    HashBlocksEmpty();
    assert [] + (DigestBytes(first) + Padding(32)) == Pad(DigestBytes(first));
  }

  /** `bitcoin_swap32`. */
  function Swap(w: Word): Word {
    var b := BytesOf(w);
    WordOf(b[3], b[2], b[1], b[0])
  }

  /** The byte-reversed digest of the engine as eight words, most significant first. */
  function ReversedWords(d: State): (ws: Target) {
    [Swap(d.h), Swap(d.g), Swap(d.f), Swap(d.e), Swap(d.d), Swap(d.c), Swap(d.b), Swap(d.a)]
  }

  function BytesOfWords(ws: seq<Word>): (bs: seq<Byte>)
    ensures |bs| == 4 * |ws|
  {
    if ws == [] then [] else BytesOfWords(ws[..|ws| - 1]) + BytesOf(ws[|ws| - 1])
  }

  lemma {:induction false} ValueOfWords(ws: seq<Word>)
    ensures Value(256, BytesOfWords(ws)) == Value(TWO32, ws)
  {
    if ws != [] {
      var p, w := BytesOfWords(ws[..|ws| - 1]), ws[|ws| - 1];
      var b := BytesOf(w);
      ValueOfWords(ws[..|ws| - 1]);
      WordBytes(w);
      ValueSnoc(256, p, b[0]);
      ValueSnoc(256, p + [b[0]], b[1]);
      ValueSnoc(256, p + [b[0]] + [b[1]], b[2]);
      ValueSnoc(256, p + [b[0]] + [b[1]] + [b[2]], b[3]);
      assert p + b == p + [b[0]] + [b[1]] + [b[2]] + [b[3]];
    }
  }

  /** Comparing the reversed words is comparing the digest read as a little-endian integer. */
  lemma ReversedWordsValue(d: State)
    ensures Value(TWO32, ReversedWords(d)) == LeValue(256, DigestBytes(d))
  {
    hide BytesOf, WordOf, Value, LeValue;
    var r := ReversedWords(d);
    var e := [d.h, d.g, d.f, d.e, d.d, d.c, d.b, d.a];
    forall i | 0 <= i < 8
      ensures BytesOf(r[i]) == Reverse(BytesOf(e[i]))
    {
      SwapReverses(e[i]);
    }
    BytesOfEight(r);
    assert Reverse(DigestBytes(d)) == BytesOfWords(r);
    ValueOfWords(r);
    LeValueReverses(256, DigestBytes(d));
  }

  lemma SwapReverses(w: Word)
    ensures BytesOf(Swap(w)) == Reverse(BytesOf(w))
  {
    var b := BytesOf(w);
    BytesWord(b[3], b[2], b[1], b[0]);
  }

  lemma BytesOfEight(r: Target)
    ensures BytesOfWords(r) == BytesOf(r[0]) + BytesOf(r[1]) + BytesOf(r[2]) + BytesOf(r[3])
                             + BytesOf(r[4]) + BytesOf(r[5]) + BytesOf(r[6]) + BytesOf(r[7])
  {
    hide BytesOf;
    assert BytesOfWords(r[..1]) == BytesOf(r[0]) by { assert r[..1][..0] == []; }
    BytesOfNext(r, 1);
    BytesOfNext(r, 2);
    BytesOfNext(r, 3);
    BytesOfNext(r, 4);
    BytesOfNext(r, 5);
    BytesOfNext(r, 6);
    BytesOfNext(r, 7);
    assert r[..8] == r;
  }

  lemma BytesOfNext(r: Target, i: nat)
    requires i < 8
    ensures BytesOfWords(r[..i + 1]) == BytesOfWords(r[..i]) + BytesOf(r[i])
  {
    assert r[..i + 1][..i] == r[..i];
  }

  /** The share condition: the double hash, read as a little-endian integer, is at or below the target. */
  predicate IsShare(header: seq<Byte>, nonce: Word, target: Target)
    requires |header| == 80
  {
    LeValue(256, Sha256d(WithNonce(header, nonce))) <= Value(TWO32, target)
  }
}
