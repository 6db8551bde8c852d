/** What the first-stage loader of software/bootloader/main.c makes of a flash image, byte for byte. */
module BootImage {
  import opened Words
  import opened Sequences
  import opened SRecord

  const RAM_START: nat := 0x8000_0000
  const RAM_END: nat := 0x8080_0000
  const VECTORS: nat := 0x50
  const LINE_MAX: nat := 514

  /** The shadow vectors, the bytes the bus has been given, and the counters of `load`. */
  datatype Image = Image(vectors: seq<Byte>, seen: seq<bool>, bus: map<nat, Byte>, records: nat, low: nat, high: nat)

  predicate ImageOk(m: Image) {
    |m.vectors| == VECTORS && |m.seen| == VECTORS
  }

  datatype Outcome = Outcome(ok: bool, entry: nat, image: Image)

  // ----- lines -----

  predicate IsBreak(b: Byte) {
    b == 13 || b == 10
  }

  function SkipBreaks(s: seq<Byte>, k: nat): (j: nat)
    requires k <= |s|
    ensures k <= j <= |s|
    decreases |s| - k
  {
    if k < |s| && IsBreak(s[k]) then SkipBreaks(s, k + 1) else k
  }

  function FindBreak(s: seq<Byte>, k: nat): (j: nat)
    requires k <= |s|
    ensures k <= j <= |s| && (j < |s| ==> IsBreak(s[j])) && forall i :: k <= i < j ==> !IsBreak(s[i])
    decreases |s| - k
  {
    if k == |s| || IsBreak(s[k]) then k else FindBreak(s, k + 1)
  }

  datatype LineResult = NoLine | Line(text: seq<Byte>, next: nat)

  /** The next line from position k: it starts with S, ends in a break, and is shorter than the line buffer. */
  function ReadLine(s: seq<Byte>, k: nat): (r: LineResult)
    requires k <= |s|
    ensures r.Line? ==> k < r.next <= |s| && 0 < |r.text| < LINE_MAX
  {
    var j := SkipBreaks(s, k);
    if j == |s| || s[j] != 83 then NoLine
    else
      var e := FindBreak(s, j);
      if e == |s| || e - j >= LINE_MAX then NoLine else Line(s[j..e], e + 1)
  }

  // ----- records -----

  predicate ToVectors(r: SRec) {
    r.address < VECTORS && |r.data| <= VECTORS - r.address
  }

  predicate ToRam(r: SRec) {
    RAM_START <= r.address < RAM_END && |r.data| <= RAM_END - r.address
  }

  /** The bus after consecutive byte writes. */
  function Store(bus: map<nat, Byte>, a: nat, d: seq<Byte>): map<nat, Byte> {
    if d == [] then bus else Store(bus, a, d[..|d| - 1])[a + |d| - 1 := d[|d| - 1]]
  }

  /** The first byte of a record, from i on, whose cell fails its read-back; the length if none does. */
  function FirstBad(bad: set<nat>, a: nat, d: seq<Byte>, i: nat): (n: nat)
    requires i <= |d|
    ensures i <= n <= |d|
    decreases |d| - i
  {
    if i == |d| || a + i in bad then i else FirstBad(bad, a, d, i + 1)
  }

  datatype Verdict = Next(image: Image) | Finish(outcome: Outcome)

  function MarkSeen(n: nat): seq<bool> {
    seq(n, _ => true)
  }

  /** One record of `load`. */
  function Apply(bad: set<nat>, m: Image, r: SRec): (v: Verdict)
    requires ImageOk(m)
    ensures v.Next? ==> ImageOk(v.image)
    ensures v.Finish? ==> ImageOk(v.outcome.image)
  {
    if r.kind == 0 then Next(m)
    else if r.kind == 5 || r.kind == 6 then
      if r.address == m.records then Next(m) else Finish(Outcome(false, 0, m))
    else if r.kind >= 7 then
      Finish(Outcome(m.records != 0 && m.low <= r.address < m.high && r.address % 4 == 0, r.address, m))
    else if ToVectors(r) then
      Next(m.(vectors := Patch(m.vectors, r.address, r.data), seen := Patch(m.seen, r.address, MarkSeen(|r.data|)),
              records := m.records + 1))
    else if ToRam(r) then
      var f := FirstBad(bad, r.address, r.data, 0);
      if f < |r.data| then Finish(Outcome(false, 0, m.(bus := Store(m.bus, r.address, r.data[..f + 1]))))
      else
        Next(m.(bus := Store(m.bus, r.address, r.data), records := m.records + 1,
                low := if r.address < m.low then r.address else m.low,
                high := if r.address + |r.data| > m.high then r.address + |r.data| else m.high))
    else Finish(Outcome(false, 0, m))
  }

  /** `load`, from position k of the flash stream. */
  function LoadFrom(bad: set<nat>, s: seq<Byte>, k: nat, m: Image): (o: Outcome)
    requires k <= |s| && ImageOk(m)
    ensures ImageOk(o.image)
    decreases |s| - k
  {
    match ReadLine(s, k)
    case NoLine => Outcome(false, 0, m)
    case Line(text, next) =>
      match Parse(text)
      case None => Outcome(false, 0, m)
      case Some(r) =>
        match Apply(bad, m, r)
        case Finish(o) => o
        case Next(m') => LoadFrom(bad, s, next, m')
  }

  // ----- confinement -----

  predicate InRam(a: nat) {
    0x8000_0000 <= a < 0x8080_0000
  }

  /** Two buses agree outside the application RAM. */
  ghost predicate SameOutsideRam(x: map<nat, Byte>, y: map<nat, Byte>) {
    forall a: nat :: !InRam(a) ==> (a in x <==> a in y) && (a in x ==> x[a] == y[a])
  }

  lemma {:induction false} StoreConfined(bus: map<nat, Byte>, a: nat, d: seq<Byte>)
    requires RAM_START <= a && a + |d| <= RAM_END
    ensures SameOutsideRam(Store(bus, a, d), bus)
  {
    if d != [] {
      StoreConfined(bus, a, d[..|d| - 1]);
    }
  }

  /** Whatever the flash holds, loading writes the bus only inside the application RAM. */
  lemma {:induction false} LoadConfined(bad: set<nat>, s: seq<Byte>, k: nat, m: Image)
    requires k <= |s| && ImageOk(m)
    ensures SameOutsideRam(LoadFrom(bad, s, k, m).image.bus, m.bus)
    decreases |s| - k
  {
    hide ReadLine, Parse, Store, FirstBad, SameOutsideRam;
    SameReflexive(m.bus);
    var line := ReadLine(s, k);
    if line.Line? && Parse(line.text).Some? {
      var r := Parse(line.text).value;
      if 1 <= r.kind <= 4 && !ToVectors(r) && ToRam(r) {
        StoreConfined(m.bus, r.address, r.data);
        var f := FirstBad(bad, r.address, r.data, 0);
        if f < |r.data| {
          StoreConfined(m.bus, r.address, r.data[..f + 1]);
        }
      }
      var v := Apply(bad, m, r);
      if v.Next? {
        LoadConfined(bad, s, line.next, v.image);
        SameTransitive(LoadFrom(bad, s, line.next, v.image).image.bus, v.image.bus, m.bus);
      }
    }
  }

  lemma SameReflexive(x: map<nat, Byte>)
    ensures SameOutsideRam(x, x)
  {
  }

  lemma SameTransitive(x: map<nat, Byte>, y: map<nat, Byte>, z: map<nat, Byte>)
    requires SameOutsideRam(x, y) && SameOutsideRam(y, z)
    ensures SameOutsideRam(x, z)
  {
  }

  // ----- replaying a serialized image -----

  /** A record as it stands in the flash: printed, and followed by at least one line break. */
  datatype Entry = Entry(record: SRec, breaks: seq<Byte>)

  ghost predicate AllBreaks(b: seq<Byte>) {
    forall i :: 0 <= i < |b| ==> IsBreak(b[i])
  }

  ghost predicate EntryOk(e: Entry) {
    Printable(e.record) && |Print(e.record)| < LINE_MAX && e.breaks != [] && AllBreaks(e.breaks)
  }

  /** A data record that the loader will store. */
  ghost predicate DataOk(bad: set<nat>, e: Entry) {
    && EntryOk(e) && 1 <= e.record.kind <= 3
    && (ToVectors(e.record) || (ToRam(e.record)
        && FirstBad(bad, e.record.address, e.record.data, 0) == |e.record.data|))
  }

  ghost predicate AllDataOk(bad: set<nat>, es: seq<Entry>) {
    forall i :: 0 <= i < |es| ==> DataOk(bad, es[i])
  }

  ghost predicate AllOk(es: seq<Entry>) {
    forall i :: 0 <= i < |es| ==> EntryOk(es[i])
  }

  ghost function EntryText(e: Entry): seq<Byte>
    requires EntryOk(e)
  {
    Print(e.record) + e.breaks
  }

  ghost function Text(es: seq<Entry>): seq<Byte>
    requires AllOk(es)
  {
    if es == [] then [] else EntryText(es[0]) + Text(es[1..])
  }

  /** The image after all data records. */
  ghost function Replay(bad: set<nat>, m: Image, es: seq<Entry>): (r: Image)
    requires ImageOk(m) && AllDataOk(bad, es)
    ensures ImageOk(r)
    decreases |es|
  {
    if es == [] then m else Replay(bad, Apply(bad, m, es[0].record).image, es[1..])
  }

  lemma {:induction false} EncodeNoBreak(bs: seq<Byte>)
    ensures forall i :: 0 <= i < |Encode(bs)| ==> !IsBreak(Encode(bs)[i])
  {
    if bs != [] {
      EncodeNoBreak(bs[..|bs| - 1]);
    }
  }

  lemma PrintNoBreak(r: SRec)
    requires Printable(r)
    ensures var p := Print(r); p != [] && p[0] == 83 && forall i :: 0 <= i < |p| ==> !IsBreak(p[i])
  {
    hide Encode, Sum, AddressBytes;
    var count := |Payload(r)| + 1;
    EncodeNoBreak([count]);
    EncodeNoBreak(Payload(r) + [Checksum(count, Payload(r))]);
  }

  lemma {:induction false} SkipsBreaks(s: seq<Byte>, k: nat, j: nat)
    requires k <= j <= |s| && (j < |s| ==> !IsBreak(s[j])) && forall i :: k <= i < j ==> IsBreak(s[i])
    ensures SkipBreaks(s, k) == j
    decreases j - k
  {
    if k < j {
      SkipsBreaks(s, k + 1, j);
    }
  }

  lemma {:induction false} FindsBreak(s: seq<Byte>, k: nat, e: nat)
    requires k <= e < |s| && IsBreak(s[e]) && forall i :: k <= i < e ==> !IsBreak(s[i])
    ensures FindBreak(s, k) == e
    decreases e - k
  {
    if k < e {
      FindsBreak(s, k + 1, e);
    }
  }

  /** A line that starts with S and has no break in it is read as one line, past any breaks left over from the line
      before, if it fits the buffer. */
  lemma ReadsLine(s: seq<Byte>, k: nat, lead: seq<Byte>, line: seq<Byte>, tail: seq<Byte>)
    requires AllBreaks(lead) && tail != [] && IsBreak(tail[0]) && line != [] && line[0] == 83
    requires forall i :: 0 <= i < |line| ==> !IsBreak(line[i])
    requires k <= |s| && s[k..] == lead + line + tail
    ensures ReadLine(s, k) == if |line| < LINE_MAX then Line(line, k + |lead| + |line| + 1) else NoLine
  {
    var j, e := k + |lead|, k + |lead| + |line|;
    assert s[j..e] == line by { assert s[j..e] == s[k..][j - k..e - k]; }
    assert forall i :: k <= i < |s| ==> s[i] == s[k..][i - k];
    assert forall i :: j <= i < e ==> s[i] == line[i - j];
    SkipsBreaks(s, k, j);
    FindsBreak(s, j, e);
  }

  lemma ReadsPrinted(s: seq<Byte>, k: nat, lead: seq<Byte>, r: SRec, tail: seq<Byte>)
    requires Printable(r) && AllBreaks(lead) && tail != [] && IsBreak(tail[0])
    requires k <= |s| && s[k..] == lead + Print(r) + tail
    ensures ReadLine(s, k) == if |Print(r)| < LINE_MAX then Line(Print(r), k + |lead| + |Print(r)| + 1) else NoLine
  {
    hide Print, ReadLine;
    PrintNoBreak(r);
    ReadsLine(s, k, lead, Print(r), tail);
  }

  /** Besides data, a serialization may hold header records, and count records that count the data so far. */
  ghost predicate Skipped(e: Entry, count: nat) {
    EntryOk(e) && (e.record.kind == 0 || ((e.record.kind == 5 || e.record.kind == 6) && e.record.address == count))
  }

  ghost predicate IsData(e: Entry) {
    1 <= e.record.kind <= 3
  }

  /** Entries that the loader passes, after so many data records. */
  ghost predicate AllPass(bad: set<nat>, es: seq<Entry>, count: nat) {
    es == [] ||
    (if IsData(es[0]) then DataOk(bad, es[0]) && AllPass(bad, es[1..], count + 1)
     else Skipped(es[0], count) && AllPass(bad, es[1..], count))
  }

  /** The data records alone. */
  ghost function DataOf(es: seq<Entry>): seq<Entry> {
    if es == [] then [] else (if IsData(es[0]) then [es[0]] else []) + DataOf(es[1..])
  }

  lemma {:induction false} PassesOk(bad: set<nat>, es: seq<Entry>, count: nat)
    requires AllPass(bad, es, count)
    ensures AllOk(es) && AllDataOk(bad, DataOf(es))
  {
    hide Printable, Print, FirstBad;
    if es != [] {
      PassesOk(bad, es[1..], if IsData(es[0]) then count + 1 else count);
      assert forall i :: 1 <= i < |es| ==> es[i] == es[1..][i - 1];
      assert EntryOk(es[0]);
    }
  }

  /** One entry at the front of the text. */
  lemma PassOne(bad: set<nat>, s: seq<Byte>, k: nat, m: Image, lead: seq<Byte>, e: Entry, after: seq<Byte>)
    returns (next: nat)
    requires k <= |s| && ImageOk(m) && AllBreaks(lead) && EntryOk(e) && s[k..] == lead + (EntryText(e) + after)
    ensures k < next <= |s| && s[next..] == e.breaks[1..] + after && AllBreaks(e.breaks[1..])
    ensures var v := Apply(bad, m, e.record);
            LoadFrom(bad, s, k, m) == if v.Finish? then v.outcome else LoadFrom(bad, s, next, v.image)
  {
    hide Print, Parse, ReadLine, Printable, Apply;
    assert s[k..] == lead + Print(e.record) + (e.breaks + after);
    ReadsPrinted(s, k, lead, e.record, e.breaks + after);
    ParsePrint(e.record);
    next := k + |lead| + |Print(e.record)| + 1;
    assert s[next..] == s[k..][next - k..] == e.breaks[1..] + after;
  }

  /** Header records and right count records change nothing, and data records are stored in order. */
  lemma {:induction false} LoadPasses(bad: set<nat>, s: seq<Byte>, k: nat, m: Image, lead: seq<Byte>, es: seq<Entry>,
                                      after: seq<Byte>) returns (next: nat, lead': seq<Byte>)
    requires k <= |s| && ImageOk(m) && AllBreaks(lead) && AllPass(bad, es, m.records) && AllOk(es)
    requires AllDataOk(bad, DataOf(es)) && s[k..] == lead + (Text(es) + after)
    ensures next <= |s| && AllBreaks(lead') && s[next..] == lead' + after
    ensures LoadFrom(bad, s, k, m) == LoadFrom(bad, s, next, Replay(bad, m, DataOf(es)))
    decreases |es|
  {
    hide Print, Printable, FirstBad, Store, Patch, LoadFrom, AllBreaks;
    if es == [] {
      next, lead' := k, lead;
      assert s[k..] == lead + ([] + after) == lead + after;
    } else {
      var e, rest := es[0], es[1..];
      assert EntryOk(e) && AllOk(rest);
      assert s[k..] == lead + (EntryText(e) + (Text(rest) + after));
      var mid := PassOne(bad, s, k, m, lead, e, Text(rest) + after);
      PassesOk(bad, rest, if IsData(e) then m.records + 1 else m.records);
      if IsData(e) {
        assert DataOf(es) == [e] + DataOf(rest) && DataOf(es)[1..] == DataOf(rest);
        OneRecord(bad, m, e, 0);
        CountsOne(bad, m, e);
        next, lead' := LoadPasses(bad, s, mid, Apply(bad, m, e.record).image, e.breaks[1..], rest, after);
      } else {
        assert DataOf(es) == DataOf(rest);
        next, lead' := LoadPasses(bad, s, mid, m, e.breaks[1..], rest, after);
      }
    }
  }

  lemma CountsOne(bad: set<nat>, m: Image, e: Entry)
    requires ImageOk(m) && DataOk(bad, e)
    ensures Apply(bad, m, e.record).Next? && Apply(bad, m, e.record).image.records == m.records + 1
  {
    hide Store, FirstBad, Patch, Printable, Print;
  }

  /** Any serialization with an end record replays its data records in order and yields the entry address. */
  lemma LoadReplays(bad: set<nat>, s: seq<Byte>, k: nat, m: Image, lead: seq<Byte>, es: seq<Entry>, end: Entry,
                    rest: seq<Byte>)
    requires k <= |s| && ImageOk(m) && AllBreaks(lead) && AllPass(bad, es, m.records) && AllOk(es)
    requires AllDataOk(bad, DataOf(es)) && EntryOk(end) && end.record.kind >= 7
    requires s[k..] == lead + (Text(es) + (EntryText(end) + rest))
    ensures var i := Replay(bad, m, DataOf(es));
            var a := end.record.address;
            LoadFrom(bad, s, k, m) == Outcome(i.records != 0 && i.low <= a < i.high && a % 4 == 0, a, i)
  {
    hide Print, Printable, LoadFrom, AllBreaks, AllPass, Replay, Text;
    var next, lead' := LoadPasses(bad, s, k, m, lead, es, EntryText(end) + rest);
    var _ := PassOne(bad, s, next, Replay(bad, m, DataOf(es)), lead', end, rest);
  }

  /** A count record with a wrong count makes loading fail at once, with nothing more written. */
  lemma WrongCountFails(bad: set<nat>, s: seq<Byte>, k: nat, m: Image, lead: seq<Byte>, es: seq<Entry>, e: Entry,
                        rest: seq<Byte>)
    requires k <= |s| && ImageOk(m) && AllBreaks(lead) && AllPass(bad, es, m.records) && AllOk(es)
    requires AllDataOk(bad, DataOf(es)) && EntryOk(e) && (e.record.kind == 5 || e.record.kind == 6)
    requires e.record.address != m.records + |DataOf(es)| && s[k..] == lead + (Text(es) + (EntryText(e) + rest))
    ensures LoadFrom(bad, s, k, m) == Outcome(false, 0, Replay(bad, m, DataOf(es)))
  {
    hide Print, Printable, LoadFrom, AllBreaks, AllPass, Replay, Text, AllDataOk;
    var next, lead' := LoadPasses(bad, s, k, m, lead, es, EntryText(e) + rest);
    ReplayCounts(bad, m, DataOf(es), 0);
    var _ := PassOne(bad, s, next, Replay(bad, m, DataOf(es)), lead', e, rest);
  }

  /** So does a data record that lies in neither window, or whose cells fail their read-back. */
  lemma MisplacedDataFails(bad: set<nat>, s: seq<Byte>, k: nat, m: Image, lead: seq<Byte>, es: seq<Entry>, e: Entry,
                           rest: seq<Byte>)
    requires k <= |s| && ImageOk(m) && AllBreaks(lead) && AllPass(bad, es, m.records) && AllOk(es)
    requires AllDataOk(bad, DataOf(es)) && EntryOk(e) && IsData(e)
    requires s[k..] == lead + (Text(es) + (EntryText(e) + rest))
    ensures var a, n := e.record.address, |e.record.data|;
            && (!(a < 0x50 && a + n <= 0x50) && !(0x8000_0000 <= a < 0x8080_0000 && a + n <= 0x8080_0000) ==>
                  LoadFrom(bad, s, k, m) == Outcome(false, 0, Replay(bad, m, DataOf(es))))
            && (a >= 0x50 && (exists x :: a <= x < a + n && x in bad) ==> !LoadFrom(bad, s, k, m).ok)
  {
    hide Print, Printable, LoadFrom, AllBreaks, AllPass, Replay, Text, AllDataOk, Store, Patch;
    var next, lead' := LoadPasses(bad, s, k, m, lead, es, EntryText(e) + rest);
    var _ := PassOne(bad, s, next, Replay(bad, m, DataOf(es)), lead', e, rest);
    if x :| e.record.address <= x < e.record.address + |e.record.data| && x in bad {
      BadCellFound(bad, e.record.address, e.record.data, 0, x);
    }
  }

  lemma {:induction false} BadCellFound(bad: set<nat>, a: nat, d: seq<Byte>, i: nat, x: nat)
    requires i <= |d| && a + i <= x < a + |d| && x in bad
    ensures FirstBad(bad, a, d, i) < |d|
    decreases |d| - i
  {
    if a + i !in bad {
      BadCellFound(bad, a, d, i + 1, x);
    }
  }

  /** So does a line that is no record, or that does not start with S. */
  lemma BadLineFails(bad: set<nat>, s: seq<Byte>, k: nat, m: Image, lead: seq<Byte>, es: seq<Entry>, line: seq<Byte>,
                     rest: seq<Byte>)
    requires k <= |s| && ImageOk(m) && AllBreaks(lead) && AllPass(bad, es, m.records) && AllOk(es)
    requires AllDataOk(bad, DataOf(es)) && line != [] && rest != [] && IsBreak(rest[0])
    requires forall i :: 0 <= i < |line| ==> !IsBreak(line[i])
    requires line[0] != 83 || Parse(line).None?
    requires s[k..] == lead + (Text(es) + (line + rest))
    ensures LoadFrom(bad, s, k, m) == Outcome(false, 0, Replay(bad, m, DataOf(es)))
  {
    hide AllPass, Replay, Text, AllDataOk, Parse, ReadLine;
    var next, lead' := LoadPasses(bad, s, k, m, lead, es, line + rest);
    assert s[next..] == lead' + line + rest;
    if line[0] == 83 {
      ReadsLine(s, next, lead', line, rest);
    } else {
      NoRecordStart(s, next, lead', line + rest);
    }
  }

  /** So does a flash that ends inside a line. */
  lemma UnfinishedLineFails(bad: set<nat>, s: seq<Byte>, k: nat, m: Image, lead: seq<Byte>, es: seq<Entry>,
                            line: seq<Byte>)
    requires k <= |s| && ImageOk(m) && AllBreaks(lead) && AllPass(bad, es, m.records) && AllOk(es)
    requires AllDataOk(bad, DataOf(es)) && s[k..] == lead + (Text(es) + line)
    requires forall i :: 0 <= i < |line| ==> !IsBreak(line[i])
    ensures LoadFrom(bad, s, k, m) == Outcome(false, 0, Replay(bad, m, DataOf(es)))
  {
    hide AllPass, Replay, Text, AllDataOk, Parse;
    var next, lead' := LoadPasses(bad, s, k, m, lead, es, line);
    assert forall i :: next <= i < |s| ==> s[i] == s[next..][i - next];
    SkipsBreaks(s, next, next + |lead'|);
    assert forall i :: next + |lead'| <= i < |s| ==> !IsBreak(s[i]);
  }

  lemma NoRecordStart(s: seq<Byte>, k: nat, lead: seq<Byte>, tail: seq<Byte>)
    requires AllBreaks(lead) && tail != [] && !IsBreak(tail[0]) && tail[0] != 83 && k <= |s| && s[k..] == lead + tail
    ensures ReadLine(s, k) == NoLine
  {
    assert forall i :: k <= i < |s| ==> s[i] == s[k..][i - k];
    SkipsBreaks(s, k, k + |lead|);
  }

  /** Header and count records make no difference: the same load results from the data records alone. */
  lemma OnlyDataMatters(bad: set<nat>, s: seq<Byte>, t: seq<Byte>, m: Image, es: seq<Entry>, end: Entry,
                        rest: seq<Byte>)
    requires ImageOk(m) && AllPass(bad, es, m.records) && AllOk(es) && AllDataOk(bad, DataOf(es))
    requires EntryOk(end) && end.record.kind >= 7 && AllOk(DataOf(es))
    requires s == Text(es) + (EntryText(end) + rest) && t == Text(DataOf(es)) + (EntryText(end) + rest)
    ensures LoadFrom(bad, s, 0, m) == LoadFrom(bad, t, 0, m)
  {
    hide Print, Printable, LoadFrom, AllPass, Replay, Text;
    assert s[0..] == [] + (Text(es) + (EntryText(end) + rest));
    assert t[0..] == [] + (Text(DataOf(es)) + (EntryText(end) + rest));
    DataPasses(bad, DataOf(es), m.records);
    LoadReplays(bad, s, 0, m, [], es, end, rest);
    LoadReplays(bad, t, 0, m, [], DataOf(es), end, rest);
  }

  lemma {:induction false} DataPasses(bad: set<nat>, es: seq<Entry>, count: nat)
    requires AllDataOk(bad, es)
    ensures AllPass(bad, es, count) && DataOf(es) == es && AllOk(es)
  {
    hide Printable, Print, FirstBad;
    if es != [] {
      assert DataOk(bad, es[0]) && AllDataOk(bad, es[1..]);
      DataPasses(bad, es[1..], count + 1);
      assert forall i :: 0 <= i < |es| ==> DataOk(bad, es[i]);
    }
  }

  /** A record that fills the count byte makes a line as long as the buffer, which the loader refuses: it reports a
      full buffer before it looks at the line break. Every shorter record is read. */
  lemma FullRecordRefused(bad: set<nat>, s: seq<Byte>, k: nat, m: Image, lead: seq<Byte>, r: SRec, tail: seq<Byte>)
    requires k <= |s| && ImageOk(m) && AllBreaks(lead) && Printable(r) && tail != [] && IsBreak(tail[0])
    requires s[k..] == lead + Print(r) + tail
    ensures ReadLine(s, k) == if AddressLength(r.kind) + |r.data| + 1 < 255
                              then Line(Print(r), k + |lead| + |Print(r)| + 1) else NoLine
    ensures AddressLength(r.kind) + |r.data| + 1 == 255 ==> LoadFrom(bad, s, k, m) == Outcome(false, 0, m)
  {
    hide Parse, Apply, ReadLine, Encode, AddressBytes, Sum;
    ReadsPrinted(s, k, lead, r, tail);
  }

  // ----- the image itself -----

  predicate Covers(r: SRec, a: nat) {
    r.address <= a < r.address + |r.data|
  }

  /** The records of a serialization hold bytes of an image. */
  ghost predicate Serializes(es: seq<Entry>, image: nat -> Byte) {
    forall i, a: nat :: 0 <= i < |es| && Covers(es[i].record, a)
        ==> es[i].record.data[a - es[i].record.address] == image(a)
  }

  ghost predicate Covered(es: seq<Entry>, a: nat) {
    exists i :: 0 <= i < |es| && Covers(es[i].record, a)
  }

  lemma {:induction false} StoreAt(bus: map<nat, Byte>, a: nat, d: seq<Byte>, x: nat)
    ensures if a <= x < a + |d| then x in Store(bus, a, d) && Store(bus, a, d)[x] == d[x - a]
            else (x in Store(bus, a, d) <==> x in bus) && (x in bus ==> Store(bus, a, d)[x] == bus[x])
  {
    if d != [] {
      StoreAt(bus, a, d[..|d| - 1], x);
    }
  }

  /** What the loader holds for address a: the vector shadow below 0x50, the bus above. */
  ghost predicate Holds(m: Image, a: nat, b: Byte)
    requires ImageOk(m)
  {
    if a < VECTORS then m.vectors[a] == b && m.seen[a] else a in m.bus && m.bus[a] == b
  }

  /** Two images agree on address a. */
  ghost predicate Agree(m: Image, n: Image, a: nat)
    requires ImageOk(m) && ImageOk(n)
  {
    if a < VECTORS then m.vectors[a] == n.vectors[a] && m.seen[a] == n.seen[a]
    else (a in m.bus <==> a in n.bus) && (a in n.bus ==> m.bus[a] == n.bus[a])
  }

  lemma OneRecord(bad: set<nat>, m: Image, e: Entry, a: nat)
    requires ImageOk(m) && DataOk(bad, e)
    ensures Apply(bad, m, e.record).Next?
    ensures var n := Apply(bad, m, e.record).image;
            if Covers(e.record, a) then Holds(n, a, e.record.data[a - e.record.address]) else Agree(n, m, a)
  {
    hide Store, FirstBad, Printable, Print;
    StoreAt(m.bus, e.record.address, e.record.data, a);
  }

  /** Loading reproduces the image: every covered address gets its byte, every other keeps what it had. */
  lemma {:induction false} ReplayIsImage(bad: set<nat>, m: Image, es: seq<Entry>, image: nat -> Byte, a: nat)
    requires ImageOk(m) && AllDataOk(bad, es) && Serializes(es, image)
    ensures var r := Replay(bad, m, es); if Covered(es, a) then Holds(r, a, image(a)) else Agree(r, m, a)
    decreases |es|
  {
    hide DataOk, Apply;
    if es != [] {
      assert DataOk(bad, es[0]);
      OneRecord(bad, m, es[0], a);
      var r, m1 := es[0].record, Apply(bad, m, es[0].record).image;
      assert Serializes(es[1..], image) by {
        forall i, x: nat | 0 <= i < |es[1..]| && Covers(es[1..][i].record, x)
          ensures es[1..][i].record.data[x - es[1..][i].record.address] == image(x)
        {
          assert es[1..][i] == es[i + 1];
        }
      }
      assert AllDataOk(bad, es[1..]);
      ReplayIsImage(bad, m1, es[1..], image, a);
      CoveredStep(es, a);
      assert Covers(r, a) ==> r.data[a - r.address] == image(a);
    }
  }

  /** Some RAM record begins at or below x. */
  ghost predicate BeginsBelow(es: seq<Entry>, x: nat) {
    exists i :: 0 <= i < |es| && Begins(es[i].record, x)
  }

  /** Some RAM record ends above x. */
  ghost predicate EndsAbove(es: seq<Entry>, x: nat) {
    exists i :: 0 <= i < |es| && Ends(es[i].record, x)
  }

  predicate Begins(r: SRec, x: nat) {
    ToRam(r) && r.address <= x
  }

  predicate Ends(r: SRec, x: nat) {
    ToRam(r) && x < r.address + |r.data|
  }

  /** The counters after all data records. */
  lemma {:induction false} ReplayCounts(bad: set<nat>, m: Image, es: seq<Entry>, x: nat)
    requires ImageOk(m) && AllDataOk(bad, es)
    ensures var r := Replay(bad, m, es);
            && r.records == m.records + |es|
            && (r.low <= x <==> m.low <= x || BeginsBelow(es, x)) && (x < r.high <==> x < m.high || EndsAbove(es, x))
    decreases |es|
  {
    hide Store, FirstBad, Patch, Printable, Print;
    if es != [] {
      var r, m1 := es[0].record, Apply(bad, m, es[0].record).image;
      assert DataOk(bad, es[0]) && AllDataOk(bad, es[1..]);
      assert m1.records == m.records + 1;
      assert m1.low <= x <==> m.low <= x || Begins(r, x);
      assert x < m1.high <==> x < m.high || Ends(r, x);
      ReplayCounts(bad, m1, es[1..], x);
      BoundsStep(es, x);
    }
  }

  lemma BoundsStep(es: seq<Entry>, x: nat)
    requires es != []
    ensures BeginsBelow(es, x) <==> Begins(es[0].record, x) || BeginsBelow(es[1..], x)
    ensures EndsAbove(es, x) <==> Ends(es[0].record, x) || EndsAbove(es[1..], x)
  {
    hide Begins, Ends;
    assert forall i :: 1 <= i < |es| ==> es[i] == es[1..][i - 1];
    assert forall i :: 0 <= i < |es[1..]| ==> es[1..][i] == es[i + 1];
  }

  lemma CoveredStep(es: seq<Entry>, a: nat)
    requires es != []
    ensures Covered(es, a) <==> Covers(es[0].record, a) || Covered(es[1..], a)
  {
    if Covered(es[1..], a) {
      var i :| 0 <= i < |es[1..]| && Covers(es[1..][i].record, a);
      assert Covers(es[i + 1].record, a);
    }
    if Covered(es, a) && !Covers(es[0].record, a) {
      var i :| 0 <= i < |es| && Covers(es[i].record, a);
      assert Covers(es[1..][i - 1].record, a);
    }
  }
}
