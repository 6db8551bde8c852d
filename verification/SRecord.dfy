/** Motorola S-records as software/common/srec.c reads them. Characters are ASCII codes. */
module SRecord {
  import opened Options
  import opened Words
  import opened Positional
  import opened Hexadecimal

  datatype SRec = SRec(kind: nat, address: nat, data: seq<Byte>)

  /** The address length of a record type, 0 for a type that is refused. */
  function AddressLength(kind: nat): nat {
    if kind == 0 || kind == 1 || kind == 5 || kind == 9 then 2
    else if kind == 2 || kind == 6 || kind == 8 then 3
    else if kind == 3 || kind == 7 then 4
    else 0
  }

  lemma AddressLengths(kind: nat)
    ensures AddressLength(kind) > 0 <==> kind <= 9 && kind != 4
    ensures AddressLength(kind) > 0 ==> 2 <= AddressLength(kind) <= 4
  {
  }

  function Sum(bs: seq<Byte>): nat {
    if bs == [] then 0 else Sum(bs[..|bs| - 1]) + bs[|bs| - 1]
  }

  /** The count byte and the size test of `srec_parse`. */
  predicate HeaderOk(line: seq<Byte>) {
    && |line| >= 4 && line[0] == 83 && 48 <= line[1] <= 57 && AddressLength(line[1] - 48) > 0
    && var count := HexPair(line[2], line[3]);
       && count >= AddressLength(line[1] - 48) + 1 && |line| == 4 + 2 * count
       && !(line[1] - 48 >= 5 && count - AddressLength(line[1] - 48) - 1 != 0)
  }

  /** What `srec_parse` makes of a line. */
  function Parse(line: seq<Byte>): (r: Option<SRec>)
    ensures r.Some? ==> |r.value.data| <= 252
  {
    if !HeaderOk(line) then None
    else
      var count, n := HexPair(line[2], line[3]), AddressLength(line[1] - 48);
      var bs := Decode(line[4..]);
      if bs.None? || (count + Sum(bs.value)) % 256 != 255 then None
      else Some(SRec(line[1] - 48, Value(256, bs.value[..n]), bs.value[n..count - 1]))
  }

  /** `srec_parse`. The record has room for 252 data bytes, and every store is inside it. */
  method ParseLine(line: seq<Byte>) returns (r: Option<SRec>)
    ensures r == Parse(line)
  {
    hide HexPair, AddressLength, HexDigit, Value, Decode, Sum;
    if |line| < 4 || line[0] != 83 || line[1] < 48 || line[1] > 57 {
      return None;
    }
    var kind := line[1] - 48;
    AddressLengths(kind);
    var naddr := AddressLength(kind);
    if naddr == 0 {
      return None;
    }
    var count := HexPair(line[2], line[3]);
    if count < naddr + 1 || |line| != 4 + 2 * count {
      return None;
    }
    var size := count - naddr - 1;
    if kind >= 5 && size != 0 {
      return None;
    }
    var ok, address, data := ReadBody(line[4..], naddr, count);
    return if ok then Some(SRec(kind, address, data)) else None;
  }

  /** The loop over the encoded bytes: address, data and checksum. */
  method ReadBody(body: seq<Byte>, naddr: nat, count: nat) returns (ok: bool, address: nat, data: seq<Byte>)
    requires 2 <= naddr < count <= 255 && |body| == 2 * count
    ensures ok <==> Decode(body).Some? && (count + Sum(Decode(body).value)) % 256 == 255
    ensures ok ==> address == Value(256, Decode(body).value[..naddr]) && data == Decode(body).value[naddr..count - 1]
  {
    hide HexPair, Value, Decode, Sum;
    EmptyBody();
    var sum := count;
    address := 0;
    var buffer := new Byte[252](_ => 0);
    ghost var bs: seq<Byte> := [];
    assert body[..0] == [];
    for i := 0 to count
      invariant |bs| == i && Decode(body[..2 * i]) == Some(bs)
      invariant sum == count + Sum(bs)
      invariant address == Value(256, bs[..if i <= naddr then i else naddr])
      invariant forall j :: naddr <= j < i && j < count - 1 ==> buffer[j - naddr] == bs[j]
    {
      var value := HexPair(body[2 * i], body[2 * i + 1]);
      DecodeStep(body, i, bs, value);
      if value < 0 {
        DecodeFails(body, i);
        return false, 0, [];
      }
      sum := sum + value;
      SumSnoc(bs, value);
      if i < naddr {
        ValueSnoc(256, bs, value);
        address := address * 256 + value;
        assert bs[..i] == bs && (bs + [value])[..i + 1] == bs + [value];
      } else {
        assert (bs + [value])[..naddr] == bs[..naddr];
        if i < count - 1 {
          buffer[i - naddr] := value;
        }
      }
      bs := bs + [value];
    }
    assert body[..2 * count] == body;
    data := buffer[..count - naddr - 1];
    ok := sum % 256 == 255;
  }

  lemma EmptyBody()
    ensures Decode([]) == Some([]) && Sum([]) == 0 && Value(256, []) == 0
  {
  }

  lemma SumSnoc(bs: seq<Byte>, b: Byte)
    ensures Sum(bs + [b]) == Sum(bs) + b
  {
    assert (bs + [b])[..|bs|] == bs;
  }

  // ----- printing -----

  function HexChar(n: nat): Byte
    requires n < 16
  {
    if n < 10 then 48 + n else 55 + n
  }

  function Encode(bs: seq<Byte>): (s: seq<Byte>)
    ensures |s| == 2 * |bs|
  {
    if bs == [] then []
    else Encode(bs[..|bs| - 1]) + [HexChar(bs[|bs| - 1] / 16), HexChar(bs[|bs| - 1] % 16)]
  }

  /** The n low bytes of an address, most significant first. */
  function AddressBytes(a: nat, n: nat): (bs: seq<Byte>)
    ensures |bs| == n
  {
    if n == 0 then [] else AddressBytes(a / 256, n - 1) + [a % 256]
  }

  predicate Fits(a: nat, n: nat) {
    if n == 0 then a == 0 else Fits(a / 256, n - 1)
  }

  /** The records that can be written: a supported type, an address of its length, data that fits the count byte. */
  predicate Printable(r: SRec) {
    var n := AddressLength(r.kind);
    n > 0 && Fits(r.address, n) && n + |r.data| + 1 <= 255 && (r.kind >= 5 ==> r.data == [])
  }

  function Payload(r: SRec): seq<Byte> {
    AddressBytes(r.address, AddressLength(r.kind)) + r.data
  }

  function Checksum(count: nat, payload: seq<Byte>): Byte {
    255 - (count + Sum(payload)) % 256
  }

  function Print(r: SRec): seq<Byte>
    requires Printable(r)
  {
    var count := |Payload(r)| + 1;
    [83, 48 + r.kind] + Encode([count]) + Encode(Payload(r) + [Checksum(count, Payload(r))])
  }

  lemma {:induction false} DecodeEncode(bs: seq<Byte>)
    ensures Decode(Encode(bs)) == Some(bs)
  {
    if bs != [] {
      var n := |bs| - 1;
      DecodeEncode(bs[..n]);
      var e := Encode(bs);
      assert e[..|e| - 2] == Encode(bs[..n]);
      assert bs == bs[..n] + [bs[n]];
    }
  }

  lemma {:induction false} AddressValue(a: nat, n: nat)
    requires Fits(a, n)
    ensures Value(256, AddressBytes(a, n)) == a
  {
    if n > 0 {
      AddressValue(a / 256, n - 1);
      ValueSnoc(256, AddressBytes(a / 256, n - 1), a % 256);
    }
  }

  /** Parsing undoes printing, for every type and every length. */
  lemma ParsePrint(r: SRec)
    requires Printable(r)
    ensures Parse(Print(r)) == Some(r)
    ensures r.kind in {0, 1, 5, 9} ==> |Print(r)| == 2 * |r.data| + 10 && r.address < 0x1_0000
    ensures r.kind in {2, 6, 8} ==> |Print(r)| == 2 * |r.data| + 12 && r.address < 0x100_0000
    ensures r.kind in {3, 7} ==> |Print(r)| == 2 * |r.data| + 14 && r.address < 0x1_0000_0000
    ensures r.kind in {0, 1, 2, 3, 5, 6, 7, 8, 9}
  {
    hide Decode, Encode, Sum, Value, AddressBytes, AddressLength, Fits, HeaderOk, Print, Payload;
    AddressLengths(r.kind);
    PrintWidths(r);
    PrintHeader(r);
    var n, p := AddressLength(r.kind), Payload(r);
    var count := |p| + 1;
    var bs := p + [Checksum(count, p)];
    DecodeEncode(bs);
    SumSnoc(p, Checksum(count, p));
    AddressValue(r.address, n);
    PayloadParts(r);
    assert bs[..n] == p[..n] && bs[n..count - 1] == p[n..];
  }

  lemma PayloadParts(r: SRec)
    ensures var p, n := Payload(r), AddressLength(r.kind);
            |p| == n + |r.data| && p[..n] == AddressBytes(r.address, n) && p[n..] == r.data
  {
    hide AddressLength, AddressBytes;
  }

  lemma PrintWidths(r: SRec)
    requires Printable(r)
    ensures r.kind in {0, 1, 5, 9} ==> |Print(r)| == 2 * |r.data| + 10 && r.address < 0x1_0000
    ensures r.kind in {2, 6, 8} ==> |Print(r)| == 2 * |r.data| + 12 && r.address < 0x100_0000
    ensures r.kind in {3, 7} ==> |Print(r)| == 2 * |r.data| + 14 && r.address < 0x1_0000_0000
    ensures r.kind in {0, 1, 2, 3, 5, 6, 7, 8, 9}
  {
    hide Encode, Sum, AddressBytes, Fits;
    Widths(r.address);
  }

  /** A printed line begins as a line must, and the rest of it is the encoded payload and checksum. */
  lemma PrintHeader(r: SRec)
    requires Printable(r)
    ensures var line, p := Print(r), Payload(r);
            && HeaderOk(line) && line[1] == 48 + r.kind && HexPair(line[2], line[3]) == |p| + 1
            && line[4..] == Encode(p + [Checksum(|p| + 1, p)])
  {
    hide Encode, Sum, AddressBytes, AddressLength, Payload, HexPair, Fits;
    AddressLengths(r.kind);
    PayloadParts(r);
    var line, count := Print(r), |Payload(r)| + 1;
    CountPair(count);
    assert line[2..4] == Encode([count]);
    assert line[2] == line[2..4][0] && line[3] == line[2..4][1];
  }

  lemma CountPair(b: Byte)
    ensures var e := Encode([b]); HexPair(e[0], e[1]) == b
  {
    assert [b][..0] == [];
  }

  // ----- damage -----

  lemma {:induction false} SumUpdate(bs: seq<Byte>, j: nat, v: Byte)
    requires j < |bs|
    ensures Sum(bs[j := v]) == Sum(bs) - bs[j] + v
  {
    var n := |bs| - 1;
    if j < n {
      SumUpdate(bs[..n], j, v);
      assert bs[j := v][..n] == bs[..n][j := v];
    } else {
      assert bs[j := v][..n] == bs[..n];
    }
  }

  /** Replacing any one encoded byte of an accepted line by a different value is always noticed. */
  lemma DamageRejected(line: seq<Byte>, i: nat, p: Byte, q: Byte)
    requires Parse(line).Some? && 2 * i + 4 <= |line|
    requires HexPair(p, q) != HexPair(line[2 * i + 2], line[2 * i + 3])
    ensures Parse(line[2 * i + 2 := p][2 * i + 3 := q]).None?
  {
    hide HexPair, AddressLength, Decode, Sum, Value;
    var t := line[2 * i + 2 := p][2 * i + 3 := q];
    if i > 0 {
      var j, s := i - 1, line[4..];
      DecodeUpdate(s, j, p, q);
      assert t[4..] == s[2 * j := p][2 * j + 1 := q];
      DecodeAt(s, j);
      if HexPair(p, q) >= 0 {
        SumUpdate(Decode(s).value, j, HexPair(p, q));
      }
    }
  }

  lemma Widths(a: nat)
    ensures (Fits(a, 2) <==> a < 0x1_0000) && (Fits(a, 3) <==> a < 0x100_0000) && (Fits(a, 4) <==> a < 0x1_0000_0000)
  {
    var b, c, d := a / 256, a / 256 / 256, a / 256 / 256 / 256;
    assert Fits(a, 2) == Fits(b, 1) == Fits(c, 0) && Fits(a, 3) == Fits(b, 2) == Fits(c, 1) == Fits(d, 0);
    assert Fits(a, 4) == Fits(b, 3) == Fits(c, 2) == Fits(d, 1) == Fits(d / 256, 0);
  }

  /** The header record that begins an image, letter by letter: "S0030000FC". */
  lemma ParseExample()
    ensures Parse([83, 48, 48, 51, 48, 48, 48, 48, 70, 67]) == Some(SRec(0, 0, []))
  {
    var line: seq<Byte> := [83, 48, 48, 51, 48, 48, 48, 48, 70, 67];
    assert line[4..] == [48, 48, 48, 48, 70, 67];
    assert HexPair(48, 51) == 3;
    hide Decode, Sum, Value, HexPair, HexDigit;
    ExampleBody();
    assert [0, 0, 0xfc][..2] == [0, 0] && [0, 0, 0xfc][2..2] == [];
  }

  lemma ExampleBody()
    ensures Decode([48, 48, 48, 48, 70, 67]) == Some([0, 0, 0xfc]) && Sum([0, 0, 0xfc]) == 0xfc
    ensures Value(256, [0, 0]) == 0
  {
    var body: seq<Byte> := [48, 48, 48, 48, 70, 67];
    assert HexPair(48, 48) == 0 && HexPair(70, 67) == 0xfc;
    hide Decode, Sum, Value, HexPair, HexDigit;
    EmptyBody();
    assert body[..0] == [] && body[..6] == body;
    assert [] + [0] == [0] && [0] + [0] == [0, 0] && [0, 0] + [0xfc] == [0, 0, 0xfc];
    DecodeStep(body, 0, [], 0);
    DecodeStep(body, 1, [0], 0);
    DecodeStep(body, 2, [0, 0], 0xfc);
    SumSnoc([], 0);
    SumSnoc([0], 0);
    SumSnoc([0, 0], 0xfc);
    ValueSnoc(256, [], 0);
    ValueSnoc(256, [0], 0);
  }
}
