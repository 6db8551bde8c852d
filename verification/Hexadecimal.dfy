/** Hexadecimal text: the digit tables of software/common/srec.c, and `hex_decode` and `hex_encode` of
    software/common/bitcoin.c. */
module Hexadecimal {
  import opened Options
  import opened Words

  /** `hex`: the value of a hexadecimal digit, or -1. */
  function HexDigit(c: Byte): (v: int)
    ensures -1 <= v < 16
  {
    if 48 <= c <= 57 then c - 48
    else if 97 <= c <= 102 then c - 87
    else if 65 <= c <= 70 then c - 55
    else -1
  }

  /** `byte`: the value of two hexadecimal digits, or -1. */
  function HexPair(p: Byte, q: Byte): (v: int)
    ensures -1 <= v < 256
  {
    if HexDigit(p) < 0 || HexDigit(q) < 0 then -1 else HexDigit(p) * 16 + HexDigit(q)
  }

  /** The bytes of a run of hexadecimal pairs. */
  function Decode(s: seq<Byte>): (r: Option<seq<Byte>>)
    ensures r.Some? ==> |s| == 2 * |r.value|
  {
    if s == [] then Some([])
    else if |s| == 1 then None
    else
      var rest := Decode(s[..|s| - 2]);
      var v := HexPair(s[|s| - 2], s[|s| - 1]);
      if rest.None? || v < 0 then None else Some(rest.value + [v])
  }

  lemma DecodeStep(s: seq<Byte>, i: nat, bs: seq<Byte>, v: int)
    requires 2 * i + 2 <= |s| && Decode(s[..2 * i]) == Some(bs) && v == HexPair(s[2 * i], s[2 * i + 1])
    ensures Decode(s[..2 * i + 2]) == if v < 0 then None else Some(bs + [v])
  {
    assert s[..2 * i + 2][..2 * i] == s[..2 * i];
  }

  lemma {:induction false} DecodeFails(s: seq<Byte>, i: nat)
    requires 2 * i + 2 <= |s| && Decode(s[..2 * i + 2]).None?
    ensures Decode(s).None?
    decreases |s|
  {
    if |s| > 2 * i + 2 {
      if |s| >= 2 * i + 4 {
        assert s[..|s| - 2][..2 * i + 2] == s[..2 * i + 2];
        DecodeFails(s[..|s| - 2], i);
      } else {
        OddFails(s);
      }
    } else {
      assert s[..2 * i + 2] == s;
    }
  }

  lemma {:induction false} OddFails(s: seq<Byte>)
    requires |s| % 2 == 1
    ensures Decode(s).None?
  {
    if |s| > 1 {
      OddFails(s[..|s| - 2]);
    }
  }

  lemma {:induction false} DecodeUpdate(s: seq<Byte>, j: nat, p: Byte, q: Byte)
    requires Decode(s).Some? && 2 * j + 2 <= |s|
    ensures Decode(s[2 * j := p][2 * j + 1 := q])
         == if HexPair(p, q) < 0 then None else Some(Decode(s).value[j := HexPair(p, q)])
  {
    hide HexPair;
    var n := |s| - 2;
    var t := s[2 * j := p][2 * j + 1 := q];
    var init: seq<Byte>, last: Byte := Decode(s[..n]).value, HexPair(s[n], s[n + 1]);
    assert Decode(s).value == init + [last];
    if 2 * j < n {
      DecodeUpdate(s[..n], j, p, q);
      assert t[..n] == s[..n][2 * j := p][2 * j + 1 := q];
      if HexPair(p, q) >= 0 {
        assert (init + [last])[j := HexPair(p, q)] == init[j := HexPair(p, q)] + [last];
      }
    } else {
      assert t[..n] == s[..n];
      if HexPair(p, q) >= 0 {
        assert (init + [last])[j := HexPair(p, q)] == init + [HexPair(p, q)];
      }
    }
  }

  lemma {:induction false} DecodeAt(s: seq<Byte>, j: nat)
    requires Decode(s).Some? && 2 * j + 2 <= |s|
    ensures Decode(s).value[j] == HexPair(s[2 * j], s[2 * j + 1])
  {
    var n := |s| - 2;
    if 2 * j < n {
      DecodeAt(s[..n], j);
    }
  }

  function LowerHex(n: nat): Byte
    requires n < 16
  {
    if n < 10 then 48 + n else 87 + n
  }

  /** `hex_encode`. */
  function HexText(bs: seq<Byte>): (s: seq<Byte>)
    ensures |s| == 2 * |bs|
  {
    if bs == [] then []
    else HexText(bs[..|bs| - 1]) + [LowerHex(bs[|bs| - 1] / 16), LowerHex(bs[|bs| - 1] % 16)]
  }

  lemma {:induction false} DecodeHexText(bs: seq<Byte>)
    ensures Decode(HexText(bs)) == Some(bs)
  {
    if bs != [] {
      var n := |bs| - 1;
      DecodeHexText(bs[..n]);
      var e := HexText(bs);
      assert e[..|e| - 2] == HexText(bs[..n]);
      assert bs == bs[..n] + [bs[n]];
    }
  }

  /** `hex_encode`, into a terminated buffer. */
  method HexEncode(bytes: seq<Byte>, out: array<Byte>)
    requires 2 * |bytes| < out.Length
    modifies out
    ensures out[..2 * |bytes|] == HexText(bytes) && out[2 * |bytes|] == 0
  {
    hide HexText;
    HexTextNext([], 0);
    for i := 0 to |bytes|
      invariant out[..2 * i] == HexText(bytes[..i])
    {
      HexTextNext(bytes[..i], bytes[i]);
      assert bytes[..i] + [bytes[i]] == bytes[..i + 1];
      ghost var before := out[..2 * i];
      out[2 * i], out[2 * i + 1] := LowerHex(bytes[i] / 16), LowerHex(bytes[i] % 16);
      assert out[..2 * (i + 1)] == before + [out[2 * i], out[2 * i + 1]];
    }
    assert bytes[..|bytes|] == bytes;
    out[2 * |bytes|] := 0;
  }

  lemma HexTextNext(bs: seq<Byte>, b: Byte)
    ensures HexText([]) == [] && HexText(bs + [b]) == HexText(bs) + [LowerHex(b / 16), LowerHex(b % 16)]
  {
    assert (bs + [b])[..|bs|] == bs;
  }

  /** `hex_decode`, a digit at a time; -1 for an odd length, a foreign character or too many bytes. */
  method HexDecode(s: seq<Byte>, out: array<Byte>) returns (n: int)
    modifies out
    ensures n == if Decode(s).Some? && |s| / 2 <= out.Length then |s| / 2 else -1
    ensures n >= 0 ==> Some(out[..n]) == Decode(s)
  {
    hide Decode, HexDigit;
    if |s| % 2 == 1 || |s| / 2 > out.Length {
      if |s| % 2 == 1 {
        OddFails(s);
      }
      return -1;
    }
    DecodeNothing();
    for i := 0 to |s|
      invariant Decode(s[..i / 2 * 2]) == Some(out[..i / 2])
      invariant i % 2 == 1 ==> HexDigit(s[i - 1]) >= 0 && out[i / 2] == 16 * HexDigit(s[i - 1])
    {
      var v := HexDigit(s[i]);
      ghost var k := i / 2;
      if v < 0 {
        DecodeStep(s, k, out[..k], HexPair(s[2 * k], s[2 * k + 1]));
        DecodeFails(s, k);
        return -1;
      }
      if i % 2 == 0 {
        out[i / 2] := 16 * v;
      } else {
        DecodeStep(s, k, out[..k], HexPair(s[2 * k], s[2 * k + 1]));
        out[i / 2] := out[i / 2] + v;
        assert out[..k + 1] == out[..k] + [out[k]];
      }
    }
    assert s[..|s|] == s;
    n := |s| / 2;
  }

  lemma DecodeNothing()
    ensures Decode([]) == Some([])
  {
  }

  /** The digits 0 to 9, A to F and a to f, by their character codes, and the lower-case digits that are written. */
  lemma HexTable()
    ensures HexPair(48, 49) == 0x01 && HexPair(50, 51) == 0x23 && HexPair(52, 53) == 0x45 && HexPair(54, 55) == 0x67
    ensures HexPair(56, 57) == 0x89 && HexPair(65, 66) == 0xab && HexPair(67, 68) == 0xcd && HexPair(69, 70) == 0xef
    ensures HexPair(97, 98) == 0xab && HexPair(99, 100) == 0xcd && HexPair(101, 102) == 0xef
    ensures forall c: Byte :: HexDigit(c) >= 0 <==> 48 <= c <= 57 || 65 <= c <= 70 || 97 <= c <= 102
    ensures forall n: nat :: n < 16 ==> LowerHex(n) < 65 || LowerHex(n) >= 97
  {
  }
}
