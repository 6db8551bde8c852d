/** The first-stage loader of software/bootloader/main.c. */
module Bootloader {
  import opened Words
  import opened Sequences
  import opened Arithmetic
  import opened SRecord
  import opened BootImage

  class Loader {
    /** The flash region from FLASH_START on; how many SPI transfers succeed; the RAM cells that fail their
        read-back. */
    const flash: seq<Byte>
    const transfers: nat
    const bad: set<nat>
    const cache: array<Byte>
    const vectors: array<Byte>
    const seen: array<bool>
    var next: nat
    var pos: nat
    var bus: map<nat, Byte>

    /** The bytes that can be read at all. */
    ghost function Stream(): seq<Byte> {
      flash[..Min(64 * transfers, |flash|)]
    }

    ghost predicate Valid()
      reads this, cache
    {
      && |flash| % 64 == 0 && cache.Length == 64 && vectors.Length == VECTORS && seen.Length == VECTORS
      && vectors != cache
      && pos <= 64 && next % 64 == 0 && next <= |Stream()| && (next == 0 ==> pos == 64)
      && (next > 0 ==> cache[..] == flash[next - 64..next])
    }

    /** How much of the stream has been handed out. */
    ghost function Consumed(): (k: nat)
      requires Valid()
      reads this, cache
      ensures k <= |Stream()|
    {
      if next == 0 then 0 else next - 64 + pos
    }

    constructor (flash: seq<Byte>, transfers: nat, bad: set<nat>, bus: map<nat, Byte>)
      requires |flash| % 64 == 0
      ensures Valid() && Consumed() == 0 && this.flash == flash && this.transfers == transfers && this.bad == bad
      ensures fresh(cache) && fresh(vectors) && fresh(seen) && this.bus == bus
      ensures forall i :: 0 <= i < VECTORS ==> !seen[i]
    {
      this.flash, this.transfers, this.bad, this.bus := flash, transfers, bad, bus;
      cache := new Byte[64];
      vectors := new Byte[VECTORS](_ => 0);
      seen := new bool[VECTORS](_ => false);
      next, pos := 0, 64;
    }

    /** The next 64 bytes of flash into the cache. */
    method Refill() returns (ok: bool)
      requires Valid() && pos == 64
      modifies `next, `pos, cache
      ensures Valid() && Consumed() == old(Consumed())
      ensures ok <==> Consumed() < |Stream()|
      ensures ok <==> pos < 64
    {
      ChunkRoom(next, |flash|, transfers);
      if next + 64 > |flash| || next / 64 >= transfers {
        return false;
      }
      FillCache();
      next, pos := next + 64, 0;
      ok := true;
    }

    method FillCache()
      requires cache.Length == 64 && next + 64 <= |flash|
      modifies cache
      ensures cache[..] == flash[next..next + 64]
    {
      for i := 0 to 64
        invariant cache[..i] == flash[next..next + i]
      {
        cache[i] := flash[next + i];
      }
    }

    /** `get_byte`: the next byte of the stream through a 64-byte cache, or -1. */
    method GetByte() returns (c: int)
      requires Valid()
      modifies `next, `pos, cache
      ensures Valid()
      ensures var k := old(Consumed());
              if k < |Stream()| then c == Stream()[k] && Consumed() == k + 1 else c == -1 && Consumed() == k
    {
      if pos == 64 {
        var ok := Refill();
        if !ok {
          return -1;
        }
      }
      c := cache[pos];
      assert c == cache[..][pos] == flash[next - 64..next][pos];
      pos := pos + 1;
    }

    /** The first inner loop of `load`: the first byte that is not a line break, or -1. */
    method SkipToRecord() returns (c: int)
      requires Valid()
      modifies `next, `pos, cache
      ensures Valid()
      ensures var s := Stream();
              var j := SkipBreaks(s, old(Consumed()));
              if j < |s| then c == s[j] && Consumed() == j + 1 else c == -1 && Consumed() == j
    {
      hide Valid, Consumed, Stream;
      ghost var s, k := Stream(), Consumed();
      c := GetByte();
      while c == 13 || c == 10
        invariant Valid()
        invariant c >= 0 ==> k < Consumed() <= |s| && c == s[Consumed() - 1]
        invariant c >= 0 ==> SkipBreaks(s, k) == SkipBreaks(s, Consumed() - 1)
        invariant c < 0 ==> c == -1 && Consumed() == |s| == SkipBreaks(s, k)
        decreases |s| - Consumed(), c
      {
        c := GetByte();
      }
    }

    /** The second inner loop: collect up to a line break, giving up when the 514-byte buffer is full. */
    method CollectLine(first: Byte) returns (ok: bool, line: seq<Byte>)
      requires Valid() && 0 < Consumed() <= |Stream()| && first == Stream()[Consumed() - 1] && !IsBreak(first)
      modifies `next, `pos, cache
      ensures Valid()
      ensures var s, j := Stream(), old(Consumed()) - 1;
              var e := FindBreak(s, j);
              if e < |s| && e - j < LINE_MAX then ok && line == s[j..e] && Consumed() == e + 1 else !ok
    {
      hide Valid, Consumed, Stream;
      ghost var s, j := Stream(), Consumed() - 1;
      ok, line := false, [first];
      assert s[j..j + 1] == line;
      while true
        invariant Valid() && j < Consumed() <= |s| && |line| == Consumed() - j <= LINE_MAX
        invariant line == s[j..Consumed()] && FindBreak(s, j) == FindBreak(s, Consumed())
        decreases |s| - Consumed()
      {
        ghost var e := Consumed();
        var c := GetByte();
        if c < 0 || |line| == LINE_MAX {
          return false, [];
        }
        if c == 13 || c == 10 {
          return true, line;
        }
        assert s[j..e + 1] == s[j..e] + [s[e]];
        line := line + [c];
      }
    }

    method NextLine() returns (ok: bool, line: seq<Byte>)
      requires Valid()
      modifies `next, `pos, cache
      ensures Valid()
      ensures var r := ReadLine(Stream(), old(Consumed()));
              if ok then r == Line(line, Consumed()) else r == NoLine
    {
      hide Valid, Consumed, Stream, SkipBreaks, FindBreak;
      var c := SkipToRecord();
      if c != 83 {
        return false, [];
      }
      ok, line := CollectLine(c);
    }

    ghost function ImageNow(records: nat, low: nat, high: nat): (m: Image)
      requires Valid()
      reads this, cache, vectors, seen
      ensures ImageOk(m)
    {
      Image(vectors[..], seen[..], bus, records, low, high)
    }

    /** The vector branch of `load`. */
    method StoreVectors(r: SRec)
      requires Valid() && ToVectors(r)
      modifies vectors, seen
      ensures Valid() && Consumed() == old(Consumed())
      ensures vectors[..] == Patch(old(vectors[..]), r.address, r.data)
      ensures seen[..] == Patch(old(seen[..]), r.address, MarkSeen(|r.data|))
    {
      hide Patch;
      var a, d := r.address, r.data;
      ghost var v, n := vectors[..], seen[..];
      PatchNone(v, a);
      PatchNone(n, a);
      assert MarkSeen(0) == [];
      for i := 0 to |d|
        invariant vectors[..] == Patch(v, a, d[..i])
        invariant seen[..] == Patch(n, a, MarkSeen(i))
      {
        PatchNext(v, a, d, i);
        PatchNext(n, a, MarkSeen(|d|), i);
        assert MarkSeen(|d|)[..i] == MarkSeen(i) && MarkSeen(|d|)[..i + 1] == MarkSeen(i + 1);
        vectors[a + i] := d[i];
        seen[a + i] := true;
      }
      assert d[..|d|] == d;
    }

    /** The RAM branch: write each byte and read it back. */
    method StoreRam(r: SRec) returns (ok: bool)
      requires Valid() && ToRam(r)
      modifies `bus
      ensures Valid() && Consumed() == old(Consumed())
      ensures var f := FirstBad(bad, r.address, r.data, 0);
              && (ok <==> f == |r.data|)
              && bus == Store(old(bus), r.address, if ok then r.data else r.data[..f + 1])
    {
      var a, d := r.address, r.data;
      for i := 0 to |d|
        invariant Valid() && Consumed() == old(Consumed())
        invariant bus == Store(old(bus), a, d[..i])
        invariant FirstBad(bad, a, d, 0) == FirstBad(bad, a, d, i)
      {
        bus := bus[a + i := d[i]];
        assert d[..i + 1][..i] == d[..i];
        if a + i in bad {
          return false;
        }
      }
      assert d[..|d|] == d;
      ok := true;
    }

    /** A data record: into the vector shadow, into RAM, or refused. */
    method StoreRecord(r: SRec, records: nat, low: nat, high: nat) returns (ok: bool, low': nat, high': nat)
      requires Valid() && 1 <= r.kind <= 4
      modifies vectors, seen, `bus
      ensures Valid() && Consumed() == old(Consumed())
      ensures Apply(bad, old(ImageNow(records, low, high)), r)
           == if ok then Next(ImageNow(records + 1, low', high'))
               else Finish(Outcome(false, 0, ImageNow(records, low, high)))
    {
      hide Consumed, Patch, Store, FirstBad, MarkSeen;
      ok, low', high' := false, low, high;
      if ToVectors(r) {
        StoreVectors(r);
        ok := true;
      } else if ToRam(r) {
        ok := StoreRam(r);
        if r.address < low {
          low' := r.address;
        }
        if r.address + |r.data| > high {
          high' := r.address + |r.data|;
        }
      }
    }

    /** `load`. It terminates because every line consumes part of the stream. */
    method Load() returns (ok: bool, entry: nat)
      requires Valid()
      modifies this, cache, vectors, seen
      ensures Valid()
      ensures var o := LoadFrom(bad, Stream(), old(Consumed()), old(ImageNow(0, RAM_END, RAM_START)));
              && ok == o.ok && (ok ==> entry == o.entry)
              && vectors[..] == o.image.vectors && seen[..] == o.image.seen && bus == o.image.bus
    {
      hide Consumed, Stream, ReadLine, Parse, Patch, Store, FirstBad;
      ghost var s := Stream();
      ghost var o := LoadFrom(bad, s, Consumed(), ImageNow(0, RAM_END, RAM_START));
      var records: nat, low: nat, high: nat := 0, RAM_END, RAM_START;
      while true
        invariant Valid()
        invariant LoadFrom(bad, s, Consumed(), ImageNow(records, low, high)) == o
        decreases |s| - Consumed()
      {
        var read, line := NextLine();
        if !read {
          return false, 0;
        }
        var parsed := ParseLine(line);
        if parsed.None? {
          return false, 0;
        }
        var r := parsed.value;
        if r.kind == 0 {
          continue;
        }
        if r.kind == 5 || r.kind == 6 {
          if r.address != records {
            return false, 0;
          }
          continue;
        }
        if r.kind >= 7 {
          return records != 0 && low <= r.address < high && r.address % 4 == 0, r.address;
        }
        ok, low, high := StoreRecord(r, records, low, high);
        if !ok {
          return false, 0;
        }
        records := records + 1;
      }
    }

    /** The part of `main` from the load on: live vectors change only after every check has passed. */
    method Boot() returns (started: bool, entry: nat)
      requires Valid()
      modifies this, cache, vectors, seen
      ensures var o := LoadFrom(bad, Stream(), old(Consumed()), old(ImageNow(0, RAM_END, RAM_START)));
              && (started <==> o.ok && AllSeen(o.image.seen))
              && (started ==> entry == o.entry)
              && bus == if started then Install(o.image.bus, o.image.vectors, 32) else o.image.bus
      ensures !started ==> SameOutsideRam(bus, old(bus))
    {
      hide Consumed, Stream, LoadFrom, SameOutsideRam, Install;
      LoadConfined(bad, Stream(), Consumed(), ImageNow(0, RAM_END, RAM_START));
      started, entry := Load();
      if !started {
        return;
      }
      ghost var loaded, shadow := bus, vectors[..];
      for n := 0 to 32
        invariant forall k :: 0 <= k < n ==> seen[VectorAddress(k)]
      {
        if !seen[VectorAddress(n)] {
          return false, 0;
        }
      }
      NoVectors(loaded, shadow);
      assert AllSeen(seen[..]);
      for n := 0 to 32
        invariant vectors[..] == shadow && bus == Install(loaded, shadow, n)
        modifies `bus
      {
        InstallStep(loaded, shadow, n);
        bus := bus[VectorAddress(n) := vectors[VectorAddress(n)]];
      }
    }
  }

  /** Whole chunks: the two refusals of `get_byte` are exactly the end of the readable stream. */
  lemma ChunkRoom(next: nat, size: nat, transfers: nat)
    requires next % 64 == 0 && size % 64 == 0
    ensures next + 64 <= size && next / 64 < transfers <==> next < Min(64 * transfers, size)
    ensures next < Min(64 * transfers, size) ==> next + 64 <= Min(64 * transfers, size)
  {
    var n, k := next / 64, size / 64;
    assert next == 64 * n && size == 64 * k;
  }

  /** The n-th byte of the four live vectors, eight bytes each at 0, 8, 16 and 32. */
  function VectorAddress(n: nat): (a: nat)
    requires n < 32
    ensures a < VECTORS
  {
    [0, 8, 16, 32][n / 8] + n % 8
  }

  predicate AllSeen(seen: seq<bool>)
    requires |seen| == VECTORS
  {
    forall n :: 0 <= n < 32 ==> seen[VectorAddress(n)]
  }

  function Install(bus: map<nat, Byte>, v: seq<Byte>, n: nat): map<nat, Byte>
    requires n <= 32 && |v| == VECTORS
  {
    if n == 0 then bus else Install(bus, v, n - 1)[VectorAddress(n - 1) := v[VectorAddress(n - 1)]]
  }

  lemma NoVectors(bus: map<nat, Byte>, v: seq<Byte>)
    requires |v| == VECTORS
    ensures Install(bus, v, 0) == bus
  {
  }

  lemma InstallStep(bus: map<nat, Byte>, v: seq<Byte>, n: nat)
    requires n < 32 && |v| == VECTORS
    ensures Install(bus, v, n + 1) == Install(bus, v, n)[VectorAddress(n) := v[VectorAddress(n)]]
  {
  }

  /** Installing puts the shadow vectors at the four vector addresses and nothing anywhere else. */
  lemma {:induction false} InstallAt(bus: map<nat, Byte>, v: seq<Byte>, n: nat, a: nat)
    requires n <= 32 && |v| == VECTORS
    ensures var b := Install(bus, v, n);
            if exists k :: 0 <= k < n && VectorAddress(k) == a then a in b && b[a] == v[a]
            else (a in b <==> a in bus) && (a in bus ==> b[a] == bus[a])
  {
    hide VectorAddress;
    if n > 0 {
      InstallAt(bus, v, n - 1, a);
    }
  }

  /** The loader before its first byte: nothing seen, no record, an empty address range. */
  ghost function Fresh(bus: map<nat, Byte>): (m: Image)
    ensures ImageOk(m)
  {
    Image(seq(VECTORS, _ => 0), seq(VECTORS, _ => false), bus, 0, RAM_END, RAM_START)
  }

  /** What `main` goes on to do after loading. */
  ghost predicate Boots(o: Outcome) {
    ImageOk(o.image) && o.ok && AllSeen(o.image.seen)
  }

  predicate IsVector(a: nat) {
    exists n :: 0 <= n < 32 && VectorAddress(n) == a
  }

  ghost predicate VectorsCovered(es: seq<Entry>) {
    forall n :: 0 <= n < 32 ==> Covered(es, VectorAddress(n))
  }

  /** The entry is aligned and lies between the lowest and the highest byte loaded into RAM. */
  ghost predicate EntryOkFor(es: seq<Entry>, entry: nat) {
    entry % 4 == 0 && BeginsBelow(es, entry) && EndsAbove(es, entry)
  }

  lemma EntryRange(bad: set<nat>, es: seq<Entry>, x: nat)
    requires AllDataOk(bad, es)
    ensures BeginsBelow(es, x) ==> es != [] && RAM_START <= x
    ensures EndsAbove(es, x) ==> x < RAM_END
  {
  }

  /** A flash that starts with a serialization: data records, header records and right count records in any order, an
      end record, and anything behind it. */
  ghost predicate Serialization(bad: set<nat>, s: seq<Byte>, es: seq<Entry>, end: Entry, rest: seq<Byte>) {
    && AllPass(bad, es, 0) && AllOk(es) && AllDataOk(bad, DataOf(es)) && EntryOk(end) && end.record.kind >= 7
    && s == Text(es) + (EntryText(end) + rest)
  }

  /** Whether a serialization boots. */
  lemma SerializedImageAccepted(bad: set<nat>, s: seq<Byte>, bus: map<nat, Byte>, es: seq<Entry>, end: Entry,
                                rest: seq<Byte>, image: nat -> Byte)
    requires Serialization(bad, s, es, end, rest) && Serializes(DataOf(es), image)
    ensures var o, data := LoadFrom(bad, s, 0, Fresh(bus)), DataOf(es);
            && o.image == Replay(bad, Fresh(bus), data) && o.entry == end.record.address
            && (Boots(o) <==> EntryOkFor(data, o.entry) && VectorsCovered(data))
  {
    hide Text, Print, Replay, Covered, Serializes, Printable, FirstBad, LoadFrom, BeginsBelow, EndsAbove, VectorAddress,
         AllPass, DataOf;
    var m, entry, data := Fresh(bus), end.record.address, DataOf(es);
    assert s[0..] == [] + (Text(es) + (EntryText(end) + rest));
    LoadReplays(bad, s, 0, m, [], es, end, rest);
    ReplayCounts(bad, m, data, entry);
    EntryRange(bad, data, entry);
    forall n | 0 <= n < 32
      ensures Replay(bad, m, data).seen[VectorAddress(n)] <==> Covered(data, VectorAddress(n))
    {
      ReplayIsImage(bad, m, data, image, VectorAddress(n));
    }
  }

  /**
   * A serialized image boots exactly if the end record names an aligned entry inside the loaded range and the data
   * records cover the vectors. The bus then holds the image at every covered address of RAM and at every live vector,
   * and everywhere else what it held before.
   */
  lemma SerializedImageBoots(bad: set<nat>, s: seq<Byte>, bus: map<nat, Byte>, es: seq<Entry>, end: Entry,
                             rest: seq<Byte>, image: nat -> Byte, a: nat)
    requires Serialization(bad, s, es, end, rest) && Serializes(DataOf(es), image)
    ensures var o, data := LoadFrom(bad, s, 0, Fresh(bus)), DataOf(es);
            && o.entry == end.record.address && (Boots(o) <==> EntryOkFor(data, o.entry) && VectorsCovered(data))
            && (Boots(o) ==>
                  var b := Install(o.image.bus, o.image.vectors, 32);
                  if IsVector(a) || (a >= VECTORS && Covered(data, a)) then a in b && b[a] == image(a)
                  else (a in b <==> a in bus) && (a in bus ==> b[a] == bus[a]))
  {
    hide Text, Print, Replay, Covered, Serializes, Printable, FirstBad, LoadFrom, EntryOkFor, Install, VectorAddress,
         AllSeen, AllPass, DataOf;
    SerializedImageAccepted(bad, s, bus, es, end, rest, image);
    var o := LoadFrom(bad, s, 0, Fresh(bus));
    if Boots(o) {
      InstallAt(o.image.bus, o.image.vectors, 32, a);
      ReplayIsImage(bad, Fresh(bus), DataOf(es), image, a);
      if a < VECTORS {
        LoadConfined(bad, s, 0, Fresh(bus));
      }
    }
  }

  /** The live vectors are the eight bytes at 0, 8, 16 and 32 each. */
  lemma VectorsAre(a: nat)
    ensures IsVector(a) <==> a < 24 || 32 <= a < 40
  {
    if a < 24 {
      assert VectorAddress(a) == a;
    } else if 32 <= a < 40 {
      assert VectorAddress(a - 8) == a;
    }
  }
}
