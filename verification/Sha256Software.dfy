/** The firmware SHA-256 of software/common/sha256_sw.c. */
module Sha256Software {
  import opened Words
  import opened Sha256Spec
  import opened Sha256Message

  function StateOf(h: seq<Word>): State
    requires |h| == 8
  {
    State(h[0], h[1], h[2], h[3], h[4], h[5], h[6], h[7])
  }

  /** `sha256_compress` keeps the whole 64-word schedule. */
  method CompressInPlace(state: array<Word>, block: seq<Byte>)
    requires state.Length == 8 && |block| == 64
    modifies state
    ensures StateOf(state[..]) == Compress(StateOf(old(state[..])), BlockOf(block))
  {
    hide Rounds, Schedule, Add;
    var w := ScheduleWords(block);
    var v := RoundLoop(StateOf(state[..]), w);
    state[0], state[1] := Add(state[0], v.a), Add(state[1], v.b);
    state[2], state[3] := Add(state[2], v.c), Add(state[3], v.d);
    state[4], state[5] := Add(state[4], v.e), Add(state[5], v.f);
    state[6], state[7] := Add(state[6], v.g), Add(state[7], v.h);
  }

  method RoundLoop(s: State, w: seq<Word>) returns (r: State)
    requires |w| == 64
    ensures r == Rounds(s, w, |w|)
  {
    hide BigSigma0, BigSigma1, SmallSigma0, SmallSigma1, Ch, Maj, K, Add;
    var State(a, b, c, d, e, f, g, h) := s;
    for i := 0 to 64
      invariant State(a, b, c, d, e, f, g, h) == Rounds(s, w, i)
    {
      RoundsUnfold(s, w, i);
      var temp1 := Add(Add(Add(Add(h, BigSigma1(e)), Ch(e, f, g)), K(i)), w[i]);
      var temp2 := Add(BigSigma0(a), Maj(a, b, c));
      h := g;
      g := f;
      f := e;
      e := Add(d, temp1);
      d := c;
      c := b;
      b := a;
      a := Add(temp1, temp2);
    }
    r := State(a, b, c, d, e, f, g, h);
  }

  method ScheduleWords(block: seq<Byte>) returns (r: seq<Word>)
    requires |block| == 64
    ensures |r| == 64 && r == Schedule(BlockOf(block))
  {
    hide SmallSigma0, SmallSigma1, Add;
    var w := new Word[64];
    for i := 0 to 16
      invariant forall j :: 0 <= j < i ==> w[j] == BlockOf(block)[j]
    {
      w[i] := WordOf(block[4 * i], block[4 * i + 1], block[4 * i + 2], block[4 * i + 3]);
    }
    assert w[..16] == BlockOf(block);
    for i := 16 to 64
      invariant ExtendSchedule(w[..i]) == Schedule(BlockOf(block))
    {
      var s0 := SmallSigma0(w[i - 15]);
      var s1 := SmallSigma1(w[i - 2]);
      AddReorder(w[i - 16], s0, w[i - 7], s1);
      w[i] := Add(Add(Add(w[i - 16], s0), w[i - 7]), s1);
      assert w[..i + 1] == w[..i] + [w[i]];
    }
    assert w[..64] == w[..];
    r := w[..];
  }

  /** The streaming context `sha256_ctx_t`, with the message it has absorbed as a ghost. */
  class Context {
    const h: array<Word>
    const buffer: array<Byte>
    var bitCount: int
    var bufferLen: nat
    ghost var message: seq<Byte>

    /** The bytes of the message that are already chained in. */
    ghost function Chained(): seq<Byte>
      requires bufferLen <= |message|
      reads `bufferLen, `message
    {
      message[..|message| - bufferLen]
    }

    /** Holds after each step of an update, when the buffer may be full. */
    ghost predicate Absorbed()
      reads `bufferLen, `message, h, buffer
    {
      && h.Length == 8 && buffer.Length == 64
      && bufferLen <= 64 && bufferLen <= |message|
      && |Chained()| % 64 == 0
      && StateOf(h[..]) == HashBlocks(IV, Chained())
      && buffer[..bufferLen] == message[|message| - bufferLen..]
    }

    /** Holds between calls. */
    ghost predicate Valid()
      reads this, h, buffer
    {
      Absorbed() && bufferLen == |message| % 64 && bitCount == 8 * |message| % TWO64
    }

    constructor ()
      ensures Valid() && message == [] && fresh(h) && fresh(buffer)
    {
      hide HashBlocks, Compress;
      h := new Word[8] [0x6a09e667, 0xbb67ae85, 0x3c6ef372, 0xa54ff53a, 0x510e527f, 0x9b05688c, 0x1f83d9ab, 0x5be0cd19];
      buffer := new Byte[64];
      bitCount, bufferLen, message := 0, 0, [];
      new;
      HashBlocksEmpty();
      assert StateOf(h[..]) == IV;
      assert message[..0] == [] && buffer[..0] == [];
    }

    /** `sha256_update`: fill the buffer, compress whenever it is full. */
    method Update(data: seq<Byte>)
      requires Valid()
      modifies this, h, buffer
      ensures Valid() && message == old(message) + data
    {
      hide HashBlocks, Absorbed;
      ghost var before := message;
      BitCountAdds(|before|, |data|);
      bitCount := (bitCount + |data| * 8) % TWO64;
      var at := 0;
      while at < |data|
        invariant 0 <= at <= |data|
        invariant Absorbed() && bufferLen < 64
        invariant message == before + data[..at]
        modifies `bufferLen, `message, h, buffer
      {
        var next := Absorb(data, at);
        assert data[..at] + data[at..next] == data[..next];
        at := next;
      }
      assert message == before + data by { assert data[..at] == data; }
      AbsorbedLength();
      BufferedLength(|message|, bufferLen);
    }

    /** One turn of the loop: as much as fits, and a compression if the buffer is full. */
    method Absorb(data: seq<Byte>, at: nat) returns (next: nat)
      requires Absorbed() && bufferLen < 64 && at < |data|
      modifies `bufferLen, `message, h, buffer
      ensures Absorbed() && bufferLen < 64 && at < next <= |data| && message == old(message) + data[at..next]
    {
      hide HashBlocks, Absorbed;
      var take := if |data| - at < 64 - bufferLen then |data| - at else 64 - bufferLen;
      Take(data[at..at + take]);
      next := at + take;
      if bufferLen == 64 {
        Flush();
      }
    }

    lemma AbsorbedLength()
      requires Absorbed()
      ensures bufferLen <= |message| && (|message| - bufferLen) % 64 == 0
    {
    }

    /** The memcpy of one step. */
    method Take(chunk: seq<Byte>)
      requires Absorbed() && bufferLen + |chunk| <= 64
      modifies `bufferLen, `message, buffer
      ensures Absorbed() && bufferLen == old(bufferLen) + |chunk|
      ensures message == old(message) + chunk
    {
      hide HashBlocks;
      for i := 0 to |chunk|
        invariant buffer[..bufferLen] == old(buffer[..bufferLen])
        invariant forall j :: 0 <= j < i ==> buffer[bufferLen + j] == chunk[j]
        modifies buffer
      {
        buffer[bufferLen + i] := chunk[i];
      }
      ghost var chained := Chained();
      bufferLen := bufferLen + |chunk|;
      message := message + chunk;
      assert Chained() == chained;
      assert buffer[..bufferLen] == old(buffer[..bufferLen]) + chunk;
    }

    method Flush()
      requires Absorbed() && bufferLen == 64
      modifies `bufferLen, h
      ensures Absorbed() && bufferLen == 0
      ensures h.Length == 8 && |message| % 64 == 0 && StateOf(h[..]) == HashBlocks(IV, message)
    {
      hide HashBlocks, Compress;
      HashBlocksAppend(IV, Chained(), buffer[..]);
      assert buffer[..64] == buffer[..];
      assert Chained() + buffer[..] == message;
      CompressInPlace(h, buffer[..]);
      bufferLen := 0;
      assert Chained() == message;
    }

    /** `sha256_final`: 0x80, zeros to 56 bytes modulo 64, and the bit count. */
    method Final() returns (digest: seq<Byte>)
      requires Valid()
      modifies this, h, buffer
      ensures digest == Sha256(old(message))
    {
      hide HashBlocks, Compress, Pad, LengthBytes, Absorbed;
      ghost var m := message;
      var bits := bitCount;
      LengthBytesModulo(8 * |m|);
      PaddingShape(m);
      Take([0x80]);
      if bufferLen > 56 {
        Take(Zeros(64 - bufferLen));
        Flush();
      }
      Take(Zeros(56 - bufferLen));
      Take(LengthBytes(bits));
      Flush();
      assert message == Pad(m);
      digest := DigestBytes(StateOf(h[..]));
    }
  }

  lemma BitCountAdds(n: nat, k: nat)
    ensures (8 * n % TWO64 + k * 8) % TWO64 == 8 * (n + k) % TWO64
  {
  }

  lemma BufferedLength(n: nat, b: nat)
    requires b < 64 && b <= n && (n - b) % 64 == 0
    ensures b == n % 64
  {
  }

  /** The 64-bit counter wraps, and the length field is the low 64 bits. */
  lemma LengthBytesModulo(bits: nat)
    ensures LengthBytes(bits % TWO64) == LengthBytes(bits)
  {
    var q, r := bits / TWO64, bits % TWO64;
    assert bits / TWO32 == TWO32 * q + r / TWO32;
    assert bits % TWO32 == r % TWO32;
    assert bits / TWO32 % TWO32 == r / TWO32 % TWO32;
  }

  lemma PaddingShape(m: seq<Byte>)
    ensures var r := |m| % 64;
            Pad(m) == if r < 56 then m + [0x80] + Zeros(55 - r) + LengthBytes(8 * |m|)
                      else m + [0x80] + Zeros(63 - r) + Zeros(56) + LengthBytes(8 * |m|)
  {
    var r := |m| % 64;
    if r >= 56 {
      assert Zeros(63 - r) + Zeros(56) == Zeros(119 - r);
    }
  }

  /** `sha256d`. */
  method DoubleHash(bytes: seq<Byte>) returns (out: seq<Byte>)
    ensures out == Sha256d(bytes)
  {
    hide Sha256;
    out := Hash(bytes);
    out := Hash(out);
  }

  /** init, update, final. */
  method Hash(bytes: seq<Byte>) returns (out: seq<Byte>)
    ensures out == Sha256(bytes)
  {
    hide HashBlocks, Pad, Sha256, Context.Valid;
    var c := new Context();
    c.Update(bytes);
    assert c.message == bytes;
    out := c.Final();
  }

  /** `bitcoin_header_midstate`. */
  method HeaderMidstate(header: seq<Byte>) returns (midstate: State)
    requires |header| == 80
    ensures midstate == Midstate(header)
  {
    hide HashBlocks;
    var c := new Context();
    c.Update(header[..64]);
    assert c.bufferLen == 0;
    assert c.Chained() == header[..64];
    midstate := StateOf(c.h[..]);
  }
}
