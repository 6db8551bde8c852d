/** The compression function of section 6.2.2 of FIPS 180-4, written over words. */
module Sha256Spec {
  import opened Words

  /** Eight words: a chaining value, or the working variables a..h. */
  datatype State = State(a: Word, b: Word, c: Word, d: Word, e: Word, f: Word, g: Word, h: Word)

  const IV := State(0x6a09e667, 0xbb67ae85, 0x3c6ef372, 0xa54ff53a,
                    0x510e527f, 0x9b05688c, 0x1f83d9ab, 0x5be0cd19)

  type Block = b: seq<Word> | |b| == 16 witness seq(16, _ => 0)

  function Rotr(x: bv32, n: bv6): bv32
    requires 0 < n < 32
  {
    (x >> n) | (x << (32 - n))
  }

  function Ch(x: Word, y: Word, z: Word): Word {
    FromBits((Bits(x) & Bits(y)) ^ (!Bits(x) & Bits(z)))
  }

  function Maj(x: Word, y: Word, z: Word): Word {
    FromBits((Bits(x) & Bits(y)) ^ (Bits(x) & Bits(z)) ^ (Bits(y) & Bits(z)))
  }

  function BigSigma0(x: Word): Word {
    FromBits(Rotr(Bits(x), 2) ^ Rotr(Bits(x), 13) ^ Rotr(Bits(x), 22))
  }

  function BigSigma1(x: Word): Word {
    FromBits(Rotr(Bits(x), 6) ^ Rotr(Bits(x), 11) ^ Rotr(Bits(x), 25))
  }

  function SmallSigma0(x: Word): Word {
    FromBits(Rotr(Bits(x), 7) ^ Rotr(Bits(x), 18) ^ (Bits(x) >> 3))
  }

  function SmallSigma1(x: Word): Word {
    FromBits(Rotr(Bits(x), 17) ^ Rotr(Bits(x), 19) ^ (Bits(x) >> 10))
  }

  /** The sixty-four round constants; zero outside the table. */
  function K(i: nat): Word {
    match i
    case 0 => 0x428a2f98 case 1 => 0x71374491 case 2 => 0xb5c0fbcf case 3 => 0xe9b5dba5
    case 4 => 0x3956c25b case 5 => 0x59f111f1 case 6 => 0x923f82a4 case 7 => 0xab1c5ed5
    case 8 => 0xd807aa98 case 9 => 0x12835b01 case 10 => 0x243185be case 11 => 0x550c7dc3
    case 12 => 0x72be5d74 case 13 => 0x80deb1fe case 14 => 0x9bdc06a7 case 15 => 0xc19bf174
    case 16 => 0xe49b69c1 case 17 => 0xefbe4786 case 18 => 0x0fc19dc6 case 19 => 0x240ca1cc
    case 20 => 0x2de92c6f case 21 => 0x4a7484aa case 22 => 0x5cb0a9dc case 23 => 0x76f988da
    case 24 => 0x983e5152 case 25 => 0xa831c66d case 26 => 0xb00327c8 case 27 => 0xbf597fc7
    case 28 => 0xc6e00bf3 case 29 => 0xd5a79147 case 30 => 0x06ca6351 case 31 => 0x14292967
    case 32 => 0x27b70a85 case 33 => 0x2e1b2138 case 34 => 0x4d2c6dfc case 35 => 0x53380d13
    case 36 => 0x650a7354 case 37 => 0x766a0abb case 38 => 0x81c2c92e case 39 => 0x92722c85
    case 40 => 0xa2bfe8a1 case 41 => 0xa81a664b case 42 => 0xc24b8b70 case 43 => 0xc76c51a3
    case 44 => 0xd192e819 case 45 => 0xd6990624 case 46 => 0xf40e3585 case 47 => 0x106aa070
    case 48 => 0x19a4c116 case 49 => 0x1e376c08 case 50 => 0x2748774c case 51 => 0x34b0bcb5
    case 52 => 0x391c0cb3 case 53 => 0x4ed8aa4a case 54 => 0x5b9cca4f case 55 => 0x682e6ff3
    case 56 => 0x748f82ee case 57 => 0x78a5636f case 58 => 0x84c87814 case 59 => 0x8cc70208
    case 60 => 0x90befffa case 61 => 0xa4506ceb case 62 => 0xbef9a3f7 case 63 => 0xc67178f2
    case _ => 0
  }

  /** The recurrence of the message schedule, on the words at distance 2, 7, 15 and 16. */
  function NextW(m2: Word, m7: Word, m15: Word, m16: Word): Word {
    Add(Add(Add(SmallSigma1(m2), m7), SmallSigma0(m15)), m16)
  }

  /** Sixty-four schedule words grown from a prefix, one recurrence step at a time. */
  function ExtendSchedule(w: seq<Word>): (r: seq<Word>)
    requires 16 <= |w| <= 64
    ensures |r| == 64 && w <= r
    decreases 64 - |w|
  {
    if |w| == 64 then w
    else
      var t := |w|;
      ExtendSchedule(w + [NextW(w[t - 2], w[t - 7], w[t - 15], w[t - 16])])
  }

  function Schedule(block: Block): seq<Word> {
    ExtendSchedule(block)
  }

  ghost predicate RecurrentAt(w: seq<Word>, t: nat)
    requires 16 <= t < |w|
  {
    w[t] == NextW(w[t - 2], w[t - 7], w[t - 15], w[t - 16])
  }

  /** The recurrence holds throughout. */
  ghost predicate Recurrent(w: seq<Word>) {
    forall t {:trigger RecurrentAt(w, t)} :: 16 <= t < |w| ==> RecurrentAt(w, t)
  }

  lemma {:induction false} ExtendScheduleRecurrent(w: seq<Word>)
    requires 16 <= |w| <= 64 && Recurrent(w)
    ensures Recurrent(ExtendSchedule(w))
    decreases 64 - |w|
  {
    if |w| < 64 {
      var n := |w|;
      var v := w + [NextW(w[n - 2], w[n - 7], w[n - 15], w[n - 16])];
      forall t | 16 <= t < |v|
        ensures RecurrentAt(v, t)
      {
        assert t < n ==> RecurrentAt(w, t);
      }
      ExtendScheduleRecurrent(v);
    }
  }

  function T1(s: State, k: Word, w: Word): Word {
    Add(Add(Add(Add(s.h, BigSigma1(s.e)), Ch(s.e, s.f, s.g)), k), w)
  }

  function T2(s: State): Word {
    Add(BigSigma0(s.a), Maj(s.a, s.b, s.c))
  }

  function Round(s: State, k: Word, w: Word): State {
    var t1 := T1(s, k, w);
    State(Add(t1, T2(s)), s.a, s.b, s.c, Add(s.d, t1), s.e, s.f, s.g)
  }

  /** The working variables after the first n rounds. */
  function Rounds(s: State, w: seq<Word>, n: nat): State
    requires n <= |w|
  {
    if n == 0 then s else Round(Rounds(s, w, n - 1), K(n - 1), w[n - 1])
  }

  lemma RoundsUnfold(s: State, w: seq<Word>, n: nat)
    requires n < |w|
    ensures Rounds(s, w, n + 1) == Round(Rounds(s, w, n), K(n), w[n])
  {
  }

  function AddState(s: State, t: State): State {
    State(Add(s.a, t.a), Add(s.b, t.b), Add(s.c, t.c), Add(s.d, t.d),
          Add(s.e, t.e), Add(s.f, t.f), Add(s.g, t.g), Add(s.h, t.h))
  }

  function Compress(s: State, block: Block): State {
    var w := Schedule(block);
    AddState(s, Rounds(s, w, |w|))
  }
}
