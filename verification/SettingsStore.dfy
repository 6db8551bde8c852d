/** The two-slot settings store of software/common/settings.c, under interruption at any byte of any write. */
module SettingsStore {
  import opened Options
  import opened Words
  import opened Sequences
  import opened Eeprom
  import opened SettingsRecord

  type Memory = m: seq<Byte> | |m| == SIZE witness seq(SIZE, _ => 0)

  type SlotIndex = i: int | 0 <= i < 2

  function SlotAddress(i: SlotIndex): nat {
    if i == 0 then SLOT0 else SLOT1
  }

  function Slot(m: Memory, i: SlotIndex): (b: seq<Byte>)
    ensures |b| == 512
  {
    m[SlotAddress(i)..SlotAddress(i) + SLOT_SIZE]
  }

  /** `(int32_t)(x - y) > 0`. */
  predicate Newer(x: Word, y: Word) {
    0 < (x - y) % TWO32 < 0x8000_0000
  }

  /** A number that lies up to 2^31 - 1 steps ahead is newer, across the wrap too, and no other is. */
  lemma NewerMeans(y: Word, d: Word)
    ensures Newer(Add(y, d), y) <==> 1 <= d < 0x8000_0000
  {
  }

  /** The slot that `read_slots` picks. */
  function Active(m: Memory): Option<SlotIndex> {
    var a, c := RecordValid(Slot(m, 0)), RecordValid(Slot(m, 1));
    if !a && !c then None
    else if !a then Some(1)
    else if !c then Some(0)
    else if Newer(Number(Slot(m, 1)), Number(Slot(m, 0))) then Some(1) else Some(0)
  }

  /** What `settings_load` finds: a stored record, or nothing, in which case it returns the defaults. */
  function Loaded(m: Memory): Option<Settings> {
    var a := Active(m);
    if a.None? then None else Some(Unpack(Slot(m, a.value)))
  }

  /** How the input and output of one save fares. A power failure is the first failing operation. */
  datatype SaveEnv = SaveEnv(readable: bool, uncommit: WriteEnv, body: WriteEnv, verify: bool, commit: WriteEnv,
      check: bool)

  function TargetSlot(m: Memory): SlotIndex {
    if Active(m) == Some(0) then 1 else 0
  }

  function NextNumber(m: Memory): Word {
    var a := Active(m);
    if a.None? then 0 else Add(Number(Slot(m, a.value)), 1)
  }

  /** The memory after the commit byte of the target slot was cleared, as far as that got. */
  function Uncommitted(m: Memory, env: SaveEnv): Memory {
    Written(m, SlotAddress(TargetSlot(m)) + 511, [0], env.uncommit)
  }

  function Drafted(m: Memory, s: Settings, env: SaveEnv): Memory
    requires Shaped(s)
  {
    Written(Uncommitted(m, env), SlotAddress(TargetSlot(m)), Record(s, NextNumber(m), 0)[..511], env.body)
  }

  predicate DraftDone(m: Memory, s: Settings, env: SaveEnv)
    requires Shaped(s)
  {
    && SettingsValid(s) && env.readable && env.verify
    && WriteOk(SlotAddress(TargetSlot(m)) + 511, [0], env.uncommit)
    && WriteOk(SlotAddress(TargetSlot(m)), Record(s, NextNumber(m), 0)[..511], env.body)
  }

  /** The commit byte reached the device. */
  predicate Commits(m: Memory, s: Settings, env: SaveEnv)
    requires Shaped(s)
  {
    DraftDone(m, s, env) && env.commit.reach >= 1
  }

  /** The memory after a save, interrupted or not. */
  function Saved(m: Memory, s: Settings, env: SaveEnv): Memory
    requires Shaped(s)
  {
    if !SettingsValid(s) || !env.readable then m
    else if !WriteOk(SlotAddress(TargetSlot(m)) + 511, [0], env.uncommit) then Uncommitted(m, env)
    else if !WriteOk(SlotAddress(TargetSlot(m)), Record(s, NextNumber(m), 0)[..511], env.body)
            || !env.verify
    then Drafted(m, s, env)
    else Written(Drafted(m, s, env), SlotAddress(TargetSlot(m)) + 511, [COMMIT], env.commit)
  }

  // ----- what a save does to the slots -----

  lemma OtherSlotKept(m: Memory, i: SlotIndex, at: nat, d: seq<Byte>, env: WriteEnv)
    requires SlotAddress(i) <= at && at + |d| <= SlotAddress(i) + SLOT_SIZE
    ensures Slot(Written(m, at, d, env), 1 - i) == Slot(m, 1 - i)
  {
  }

  /** The target slot with its commit byte cleared, or not yet touched. */
  lemma UncommitSlot(m: Memory, env: SaveEnv)
    ensures var i, u := TargetSlot(m), Uncommitted(m, env);
            && Slot(u, 1 - i) == Slot(m, 1 - i)
            && (u == m || !RecordValid(Slot(u, i)))
            && (env.uncommit.reach >= 1 ==> Slot(u, i)[511] == 0)
  {
    hide RecordValid, Active;
    var i, u := TargetSlot(m), Uncommitted(m, env);
    OtherSlotKept(m, i, SlotAddress(i) + 511, [0], env.uncommit);
    if env.uncommit.reach == 0 {
      assert [0][..0] == [];
      assert u == m;
    } else {
      assert [0][..1] == [0];
      assert Slot(u, i)[511] == 0;
      NoCommitNoRecord(Slot(u, i));
    }
  }

  lemma NoCommitNoRecord(b: seq<Byte>)
    requires |b| == 512 && b[511] == 0
    ensures !RecordValid(b)
  {
    hide Crc, SettingsValid;
  }

  /** Writing the body never touches the commit byte, and a complete body leaves exactly the uncommitted record. */
  lemma DraftSlot(m: Memory, s: Settings, env: SaveEnv)
    requires Shaped(s) && env.uncommit.reach >= 1
    ensures var i, d := TargetSlot(m), Drafted(m, s, env);
            && Slot(d, 1 - i) == Slot(m, 1 - i) && Slot(d, i)[511] == 0
            && (env.body.reach >= 511 ==> Slot(d, i) == Record(s, NextNumber(m), 0))
  {
    hide RecordValid, Active, Record, NextNumber;
    var i, u := TargetSlot(m), Uncommitted(m, env);
    UncommitSlot(m, env);
    var r := Record(s, NextNumber(m), 0);
    var d := Written(u, SlotAddress(i), r[..511], env.body);
    OtherSlotKept(u, i, SlotAddress(i), r[..511], env.body);
    assert d[SlotAddress(i) + 511] == u[SlotAddress(i) + 511];
    assert Slot(d, i)[511] == Slot(u, i)[511] == 0;
    if env.body.reach >= 511 {
      assert r[..511][..511] == r[..511];
      RecordCommitByte(s, NextNumber(m), 0);
      assert forall k :: 0 <= k < 511 ==> Slot(d, i)[k] == r[k];
    }
  }

  lemma RecordCommitByte(s: Settings, number: Word, commit: Byte)
    requires Shaped(s)
    ensures Record(s, number, commit)[511] == commit
    ensures forall c: Byte, k :: 0 <= k < 511 ==> Record(s, number, c)[k] == Record(s, number, commit)[k]
  {
    hide Crc, Body, Put32;
  }

  lemma CommitSlot(m: Memory, s: Settings, env: SaveEnv)
    requires Shaped(s) && Commits(m, s, env)
    ensures var i := TargetSlot(m);
            && Slot(Saved(m, s, env), 1 - i) == Slot(m, 1 - i)
            && Slot(Saved(m, s, env), i) == Record(s, NextNumber(m), COMMIT)
  {
    hide RecordValid, Active, Record, NextNumber, SettingsValid, Drafted;
    var i, d := TargetSlot(m), Drafted(m, s, env);
    DraftSlot(m, s, env);
    RecordCommitByte(s, NextNumber(m), 0);
    RecordCommitByte(s, NextNumber(m), COMMIT);
    OtherSlotKept(d, i, SlotAddress(i) + 511, [COMMIT], env.commit);
    assert [COMMIT][..1] == [COMMIT];
    var t := Written(d, SlotAddress(i) + 511, [COMMIT], env.commit);
    assert forall k :: 0 <= k < 511 ==> Slot(t, i)[k] == Slot(d, i)[k];
    assert Slot(t, i) == Record(s, NextNumber(m), COMMIT);
  }

  // ----- the choice of slot -----

  /** With the target slot invalid the same settings load as before. */
  lemma InvalidTargetLoadsOld(m: Memory, n: Memory)
    requires Slot(n, 1 - TargetSlot(m)) == Slot(m, 1 - TargetSlot(m)) && !RecordValid(Slot(n, TargetSlot(m)))
    ensures Loaded(n) == Loaded(m)
  {
    hide RecordValid, Unpack;
  }

  /** A committed record with the next number wins, also across the 32-bit wrap. */
  lemma NextNumberWins(m: Memory, s: Settings, n: Memory)
    requires Shaped(s) && SettingsValid(s)
    requires Slot(n, 1 - TargetSlot(m)) == Slot(m, 1 - TargetSlot(m))
    requires Slot(n, TargetSlot(m)) == Record(s, NextNumber(m), COMMIT)
    ensures Loaded(n) == Some(s)
  {
    hide RecordValid, Unpack, Number, Record;
    RecordRoundTrip(s, NextNumber(m), COMMIT);
  }

  /**
   * One save, interrupted after any number of byte writes of any of its steps: the next load finds the new settings if
   * the commit byte reached the device, and otherwise exactly what it would have found before.
   */
  lemma SaveIsAtomic(m: Memory, s: Settings, env: SaveEnv)
    requires Shaped(s)
    ensures Loaded(Saved(m, s, env)) == if Commits(m, s, env) then Some(s) else Loaded(m)
  {
    hide RecordValid, Loaded, Record, NextNumber, SettingsValid, Active;
    var i, t := TargetSlot(m), Saved(m, s, env);
    UncommitSlot(m, env);
    if Commits(m, s, env) {
      CommitSlot(m, s, env);
      NextNumberWins(m, s, t);
    } else if t != m {
      if t != Uncommitted(m, env) {
        DraftSlot(m, s, env);
        UncommittedTail(m, s, env);
        NoCommitNoRecord(Slot(t, i));
      }
      InvalidTargetLoadsOld(m, t);
    }
  }

  lemma UncommittedTail(m: Memory, s: Settings, env: SaveEnv)
    requires Shaped(s) && !Commits(m, s, env) && Saved(m, s, env) != m && Saved(m, s, env) != Uncommitted(m, env)
    ensures env.uncommit.reach >= 1 && Saved(m, s, env) == Drafted(m, s, env)
  {
    hide RecordValid, Record, NextNumber, SettingsValid, Active, Uncommitted;
    assert env.commit.reach == 0 ==> [COMMIT][..0] == [];
  }

  // ----- runs -----

  datatype Save = Save(settings: Settings, env: SaveEnv)

  ghost predicate AllShaped(run: seq<Save>) {
    forall k :: 0 <= k < |run| ==> Shaped(run[k].settings)
  }

  function AfterSaves(m: Memory, run: seq<Save>): Memory
    requires AllShaped(run)
  {
    if run == [] then m else Saved(AfterSaves(m, run[..|run| - 1]), run[|run| - 1].settings, run[|run| - 1].env)
  }

  /** The settings of the last save of a run whose commit byte reached the device, or what was there before. */
  function LastCommitted(m: Memory, run: seq<Save>): Option<Settings>
    requires AllShaped(run)
  {
    if run == [] then Loaded(m)
    else
      var n := |run| - 1;
      if Commits(AfterSaves(m, run[..n]), run[n].settings, run[n].env) then Some(run[n].settings)
      else LastCommitted(m, run[..n])
  }

  /** Any number of saves, each interrupted anywhere, on any initial contents of the device. */
  lemma {:induction false} LoadFindsLastCommitted(m: Memory, run: seq<Save>)
    requires AllShaped(run)
    ensures Loaded(AfterSaves(m, run)) == LastCommitted(m, run)
  {
    hide Loaded, Saved, Commits;
    if run != [] {
      var n := |run| - 1;
      LoadFindsLastCommitted(m, run[..n]);
      SaveIsAtomic(AfterSaves(m, run[..n]), run[n].settings, run[n].env);
    }
  }

  /** Saves never touch a byte outside the two slots. */
  lemma {:induction false} SavesStayInSlots(m: Memory, run: seq<Save>, k: nat)
    requires AllShaped(run) && k < SIZE && !(0x1000 <= k < 0x1400)
    ensures AfterSaves(m, run)[k] == m[k]
  {
    hide RecordValid, Record, NextNumber, SettingsValid, Active, TargetSlot;
    if run != [] {
      SavesStayInSlots(m, run[..|run| - 1], k);
    }
  }

  // ----- the functions themselves -----

  /** memcpy into a buffer. */
  method CopyInto(b: array<Byte>, at: nat, d: seq<Byte>)
    requires at + |d| <= b.Length
    modifies b
    ensures b[..] == Patch(old(b[..]), at, d)
  {
    for i := 0 to |d|
      invariant b[..] == Patch(old(b[..]), at, d[..i])
    {
      PatchNext(old(b[..]), at, d, i);
      b[at + i] := d[i];
    }
    assert d[..|d|] == d;
  }

  /** The record that `settings_save` assembles, commit byte still zero. */
  method BuildRecord(s: Settings, number: Word) returns (r: seq<Byte>)
    requires Shaped(s)
    ensures r == Record(s, number, 0)
  {
    hide Crc, Put32, Patch;
    var b := new Byte[512](_ => 0);
    CopyInto(b, 0, MAGIC);
    CopyInto(b, 4, [1]);
    CopyInto(b, 8, Put32(number));
    CopyInto(b, 16, s.mac);
    CopyInto(b, 22, [s.port % 0x100, s.port / 0x100]);
    CopyInto(b, 24, s.host);
    CopyInto(b, 120, s.worker);
    CopyInto(b, 248, s.password);
    assert b[..504] == Body(s, number);
    assert b[508..] == [0, 0, 0] + [0];
    var c := ComputeCrc(b[..504]);
    CopyInto(b, 504, Put32(c));
    r := b[..];
    assert r[..504] == Body(s, number) && r[508..] == [0, 0, 0] + [0];
    assert r == r[..504] + r[504..508] + r[508..];
  }

  /** `read_slots`: the active slot, -1 for none, -2 for an unreadable device. */
  method ReadSlots(dev: Device, readable: bool) returns (slot: int, b0: seq<Byte>, b1: seq<Byte>)
    requires dev.Valid()
    ensures if !readable then slot == -2
        else slot == (if Active(dev.mem[..]).None? then -1 else Active(dev.mem[..]).value)
    ensures readable ==> b0 == Slot(dev.mem[..], 0) && b1 == Slot(dev.mem[..], 1)
  {
    hide RecordValid;
    var ok;
    ok, b0 := dev.Read(SLOT0, 512, readable);
    if !ok {
      return -2, [], [];
    }
    ok, b1 := dev.Read(SLOT1, 512, readable);
    if !ok {
      return -2, [], [];
    }
    assert b0 == Slot(dev.mem[..], 0) && b1 == Slot(dev.mem[..], 1);
    var a, c := RecordValid(b0), RecordValid(b1);
    if !a && !c {
      slot := -1;
    } else if !a {
      slot := 1;
    } else if !c {
      slot := 0;
    } else {
      slot := if Newer(Number(b1), Number(b0)) then 1 else 0;
    }
  }

  /** `settings_load`: 1 for a stored record, 0 for defaults, -1 for an unreadable device. */
  method Load(dev: Device, readable: bool) returns (rc: int, s: Settings)
    requires dev.Valid()
    ensures rc == if !readable then -1 else if Loaded(dev.mem[..]).None? then 0 else 1
    ensures s == if rc == 1 then Loaded(dev.mem[..]).value else DEFAULTS
  {
    hide RecordValid;
    var slot, b0, b1 := ReadSlots(dev, readable);
    s := DEFAULTS;
    if slot == -2 {
      return -1, s;
    }
    if slot < 0 {
      return 0, s;
    }
    s := Unpack(if slot == 0 then b0 else b1);
    rc := 1;
  }

  /** `settings_save`: clear the commit byte of the other slot, write and verify the record, then commit. */
  method SaveSettings(dev: Device, s: Settings, env: SaveEnv) returns (rc: int)
    requires dev.Valid() && Shaped(s)
    modifies dev.mem
    ensures dev.mem[..] == Saved(old(dev.mem[..]), s, env)
    ensures rc == if Commits(old(dev.mem[..]), s, env) && env.commit.ack && env.check then 0 else -1
    ensures rc == 0 ==> Loaded(dev.mem[..]) == Some(s)
  {
    hide RecordValid, Record, SettingsValid, Active, Loaded, Patch;
    ghost var m: Memory := dev.mem[..];
    SaveIsAtomic(m, s, env);
    if !SettingsValid(s) {
      return -1;
    }
    var slot, b0, b1 := ReadSlots(dev, env.readable);
    if slot == -2 {
      return -1;
    }
    var number: Word := if slot < 0 then 0 else Add(Number(if slot == 0 then b0 else b1), 1);
    var address := if slot == 0 then SLOT1 else SLOT0;
    assert number == NextNumber(m) && address == SlotAddress(TargetSlot(m));
    var b := BuildRecord(s, number);
    var ok := dev.Write(address + 511, [0], env.uncommit);
    if !ok {
      return -1;
    }
    ok := dev.Write(address, b[..511], env.body);
    if !ok {
      return -1;
    }
    assert dev.mem[..] == Drafted(m, s, env);
    var verified, copy := dev.Read(address, 512, env.verify);
    DraftSlot(m, s, env);
    if !verified || copy != b {
      return -1;
    }
    ok := dev.Write(address + 511, [COMMIT], env.commit);
    if !ok {
      return -1;
    }
    CommitSlot(m, s, env);
    RecordRoundTrip(s, number, COMMIT);
    verified, copy := dev.Read(address, 512, env.check);
    if !verified || !RecordValid(copy) {
      return -1;
    }
    rc := 0;
  }
}
