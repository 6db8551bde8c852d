/** The stored settings record of software/common/settings.c: layout, checksum, validity. */
module SettingsRecord {
  import opened Words

  datatype Settings = Settings(mac: seq<Byte>, port: nat, host: seq<Byte>, worker: seq<Byte>, password: seq<Byte>)

  /** The field sizes of `miner_settings`. */
  predicate Shaped(s: Settings) {
    |s.mac| == 6 && s.port < 0x1_0000 && |s.host| == 96 && |s.worker| == 128 && |s.password| == 64
  }

  const DEFAULTS := Settings([2, 0, 0, 0x11, 0x22, 0x33], 3333, seq(96, _ => 0), seq(128, _ => 0), seq(64, _ => 0))

  const COMMIT: Byte := 0xa5

  /** `string_ok`: printable, without quote or backslash, and terminated inside the field. */
  predicate StringOk(s: seq<Byte>) {
    s != [] && (s[0] == 0 || (32 <= s[0] <= 126 && s[0] != 34 && s[0] != 92 && StringOk(s[1..])))
  }

  predicate HostByte(b: Byte) {
    97 <= b <= 122 || 65 <= b <= 90 || 48 <= b <= 57 || b == 46 || b == 45
  }

  /** The characters before the terminator are host characters. */
  predicate HostOk(s: seq<Byte>) {
    s == [] || s[0] == 0 || (HostByte(s[0]) && HostOk(s[1..]))
  }

  /** `settings_valid`. */
  predicate SettingsValid(s: Settings)
    requires Shaped(s)
  {
    && (exists i :: 0 <= i < 6 && s.mac[i] != 0) && s.mac[0] % 2 == 0 && s.port != 0
    && StringOk(s.host) && StringOk(s.worker) && StringOk(s.password) && HostOk(s.host)
  }

  // ----- checksum -----

  /** One bit of the reflected CRC-32. */
  function CrcBit(c: bv32): bv32 {
    (c >> 1) ^ (if c & 1 == 1 then 0xedb88320 else 0)
  }

  function CrcBits(c: bv32, n: nat): bv32
    decreases n
  {
    if n == 0 then c else CrcBits(CrcBit(c), n - 1)
  }

  function CrcStep(c: bv32, b: Byte): bv32 {
    CrcBits(c ^ (b as bv32), 8)
  }

  function CrcState(p: seq<Byte>): bv32 {
    if p == [] then 0xffff_ffff else CrcStep(CrcState(p[..|p| - 1]), p[|p| - 1])
  }

  function CrcResult(c: bv32): Word {
    (!c) as int
  }

  function Crc(p: seq<Byte>): Word {
    CrcResult(CrcState(p))
  }

  /** `crc`, as the loops compute it. */
  method ComputeCrc(p: seq<Byte>) returns (r: Word)
    ensures r == Crc(p)
  {
    hide CrcStep, CrcResult;
    var c: bv32 := 0xffff_ffff;
    for i := 0 to |p|
      invariant c == CrcState(p[..i])
    {
      c := MixByte(c, p[i]);
      assert p[..i + 1][..i] == p[..i];
    }
    assert p[..|p|] == p;
    r := CrcResult(c);
  }

  method MixByte(start: bv32, b: Byte) returns (c: bv32)
    ensures c == CrcStep(start, b)
  {
    hide CrcBit;
    c := start ^ (b as bv32);
    ghost var mixed := c;
    var left := 8;
    while left > 0
      invariant left >= 0 && CrcBits(c, left) == CrcBits(mixed, 8)
    {
      c := CrcBit(c);
      left := left - 1;
    }
  }

  // ----- layout -----

  /** Little-endian bytes: `put32`, and `u32` back. */
  function Put32(w: Word): (s: seq<Byte>)
    ensures |s| == 4
  {
    [w % 0x100, w / 0x100 % 0x100, w / 0x1_0000 % 0x100, w / 0x100_0000]
  }

  function U32(b: seq<Byte>, at: nat): Word
    requires at + 4 <= |b|
  {
    (b[at] as int) + 0x100 * (b[at + 1] as int) + 0x1_0000 * (b[at + 2] as int) + 0x100_0000 * (b[at + 3] as int)
  }

  lemma U32Put32(w: Word)
    ensures U32(Put32(w), 0) == w
  {
    var x := w / 0x100;
    var y := x / 0x100;
    assert w / 0x1_0000 == y && w / 0x100_0000 == y / 0x100;
    assert w == 0x100 * x + w % 0x100 && x == 0x100 * y + x % 0x100 && y == 0x100 * (y / 0x100) + y % 0x100;
  }

  const MAGIC: seq<Byte> := [0x53, 0x33, 0x35, 0x43]

  /** The checksummed part of a record: header, sequence number, settings, padding. */
  function Body(s: Settings, number: Word): (b: seq<Byte>)
    requires Shaped(s)
    ensures |b| == 504
  {
    MAGIC + [1, 0, 0, 0] + Put32(number) + [0, 0, 0, 0]
    + s.mac + [s.port % 0x100, s.port / 0x100] + s.host + s.worker + s.password + seq(192, _ => 0)
  }

  function Record(s: Settings, number: Word, commit: Byte): (b: seq<Byte>)
    requires Shaped(s)
    ensures |b| == 512
  {
    Body(s, number) + Put32(Crc(Body(s, number))) + [0, 0, 0] + [commit]
  }

  /** `unpack`. */
  function Unpack(b: seq<Byte>): (s: Settings)
    requires |b| == 512
    ensures Shaped(s)
  {
    Settings(b[16..22], (b[22] as int) + 0x100 * (b[23] as int), b[24..120], b[120..248], b[248..312])
  }

  /** `record_valid`. */
  predicate RecordValid(b: seq<Byte>)
    requires |b| == 512
  {
    b[..4] == MAGIC && b[4] == 1 && b[511] == COMMIT && U32(b, 504) == Crc(b[..504]) && SettingsValid(Unpack(b))
  }

  function Number(b: seq<Byte>): Word
    requires |b| == 512
  {
    U32(b, 8)
  }

  lemma BodyFields(s: Settings, number: Word)
    requires Shaped(s)
    ensures var b := Body(s, number);
            && b[..4] == MAGIC && b[4] == 1 && b[8..12] == Put32(number)
            && b[16..22] == s.mac && b[22] == s.port % 0x100 && b[23] == s.port / 0x100
            && b[24..120] == s.host && b[120..248] == s.worker && b[248..312] == s.password
  {
    hide Put32;
    var h := MAGIC + [1, 0, 0, 0] + Put32(number) + [0, 0, 0, 0];
    var t := h + s.mac + [s.port % 0x100, s.port / 0x100];
    var b := Body(s, number);
    assert b[..16] == h && b[..24] == t;
    assert h[8..12] == Put32(number);
    assert b[24..] == s.host + s.worker + s.password + seq(192, _ => 0);
  }

  /** Unpacking undoes packing, and the number and checksum read back. */
  lemma RecordRoundTrip(s: Settings, number: Word, commit: Byte)
    requires Shaped(s)
    ensures var b := Record(s, number, commit);
            Unpack(b) == s && Number(b) == number && b[511] == commit
    ensures SettingsValid(s) && commit == COMMIT ==> RecordValid(Record(s, number, commit))
  {
    hide Crc, Body, SettingsValid, Put32, U32;
    var b, body := Record(s, number, commit), Body(s, number);
    assert b[..504] == body;
    BodyFields(s, number);
    assert b[16..22] == body[16..22] && b[24..120] == body[24..120];
    assert b[120..248] == body[120..248] && b[248..312] == body[248..312];
    U32At(b, 8, number);
    assert b[504..508] == Put32(Crc(body));
    U32At(b, 504, Crc(body));
  }

  lemma U32At(b: seq<Byte>, at: nat, w: Word)
    requires at + 4 <= |b| && b[at..at + 4] == Put32(w)
    ensures U32(b, at) == w
  {
    hide Put32;
    U32Put32(w);
    var q := b[at..at + 4];
    assert q[0] == b[at] && q[1] == b[at + 1] && q[2] == b[at + 2] && q[3] == b[at + 3];
  }

  // ----- the layout and the rules, spelled out -----

  /** Where everything is in a record. */
  lemma RecordLayout(s: Settings, number: Word, commit: Byte)
    requires Shaped(s)
    ensures var b := Record(s, number, commit);
            && b[0] == 83 && b[1] == 51 && b[2] == 53 && b[3] == 67 && b[4] == 1
            && b[8] == number % 256 && b[9] == number / 256 % 256 && b[10] == number / 65536 % 256
            && b[11] == number / 16777216
            && b[16..22] == s.mac && b[22] as int + 256 * b[23] as int == s.port
            && b[24..120] == s.host && b[120..248] == s.worker && b[248..312] == s.password
            && b[504..508] == Put32(Crc(b[..504])) && b[511] == commit
  {
    hide Crc, Put32;
    BodyFields(s, number);
    var b := Record(s, number, commit);
    assert b[..504] == Body(s, number);
    assert b[8..12] == Put32(number);
    Put32Bytes(number);
    assert b[8] == b[8..12][0] && b[9] == b[8..12][1] && b[10] == b[8..12][2] && b[11] == b[8..12][3];
  }

  lemma Put32Bytes(w: Word)
    ensures Put32(w) == [w % 256, w / 256 % 256, w / 65536 % 256, w / 16777216]
  {
  }

  /** A valid string ends inside its field, and before its end there are only printable characters, no quote and no
      backslash. */
  lemma {:induction false} ValidString(s: seq<Byte>)
    ensures StringOk(s) <==> exists n: nat :: EndsAt(s, n) && forall i :: 0 <= i < n ==> Plain(s[i])
  {
    if s != [] {
      var t := s[1..];
      ValidString(t);
      if StringOk(s) && s[0] != 0 {
        var n: nat :| EndsAt(t, n) && forall i :: 0 <= i < n ==> Plain(t[i]);
        forall i | 0 <= i < n + 1
          ensures s[i] != 0 && Plain(s[i])
        {
          assert i > 0 ==> s[i] == t[i - 1];
        }
        assert EndsAt(s, n + 1);
      } else if StringOk(s) {
        assert EndsAt(s, 0);
      }
      if n: nat :| EndsAt(s, n) && forall i :: 0 <= i < n ==> Plain(s[i]) {
        if n > 0 {
          assert forall i :: 0 <= i < n - 1 ==> t[i] == s[i + 1];
          assert EndsAt(t, n - 1);
        }
      }
    }
  }

  /** The first zero of a field. */
  ghost predicate EndsAt(s: seq<Byte>, n: nat) {
    n < |s| && s[n] == 0 && forall i :: 0 <= i < n ==> s[i] != 0
  }

  ghost predicate Plain(b: Byte) {
    32 <= b <= 126 && b != 34 && b != 92
  }

  /** Before the end of a valid host name there are only letters, digits, points and hyphens. */
  lemma {:induction false} ValidHost(s: seq<Byte>, n: nat)
    requires EndsAt(s, n)
    ensures HostOk(s) <==> forall i :: 0 <= i < n ==>
              97 <= s[i] <= 122 || 65 <= s[i] <= 90 || 48 <= s[i] <= 57 || s[i] == 46 || s[i] == 45
    decreases n
  {
    if n > 0 {
      var t := s[1..];
      assert forall i :: 0 <= i < n - 1 ==> t[i] == s[i + 1];
      ValidHost(t, n - 1);
      assert forall i :: 0 < i < n ==> s[i] == t[i - 1];
    }
  }

  /** The defaults can be stored: they are valid, and their strings are empty. */
  lemma DefaultsValid()
    ensures Shaped(DEFAULTS) && SettingsValid(DEFAULTS) && DEFAULTS.port == 3333
    ensures DEFAULTS.mac == [0x02, 0x00, 0x00, 0x11, 0x22, 0x33]
  {
    assert DEFAULTS.mac[0] != 0;
  }

  /** What makes settings invalid whatever else they say. */
  lemma InvalidSettings(s: Settings)
    requires Shaped(s)
    ensures s.port == 0 || s.mac[0] % 2 == 1 || s.mac == [0, 0, 0, 0, 0, 0] ==> !SettingsValid(s)
  {
  }
}
