/** The EEPROM driver of software/application/eeprom.c over a device with 32-byte write pages. */
module Eeprom {
  import opened Words
  import opened Sequences
  import opened Arithmetic

  const SIZE: nat := 8192
  const SLOT0: nat := 0x1000
  const SLOT1: nat := 0x1200
  const SLOT_SIZE: nat := 512

  /** How a write fares on the bus: how many bytes reach the device, and whether the driver sees it succeed. */
  datatype WriteEnv = WriteEnv(reach: nat, ack: bool)

  predicate Writable(address: nat, size: nat) {
    SLOT0 <= address && address + size <= SLOT1 + SLOT_SIZE
  }

  /** What a write leaves in the memory. */
  function Written(m: seq<Byte>, address: nat, d: seq<Byte>, env: WriteEnv): (r: seq<Byte>)
    requires |m| == SIZE
    ensures |r| == SIZE
  {
    if Writable(address, |d|) then Patch(m, address, d[..Min(env.reach, |d|)]) else m
  }

  predicate WriteOk(address: nat, d: seq<Byte>, env: WriteEnv) {
    Writable(address, |d|) && (d == [] || (env.reach >= |d| && env.ack))
  }

  /** Nothing outside the two settings slots is ever written. */
  lemma OutsideSlotsUntouched(m: seq<Byte>, address: nat, d: seq<Byte>, env: WriteEnv, i: nat)
    requires |m| == SIZE && i < SIZE && !(0x1000 <= i < 0x1400)
    ensures Written(m, address, d, env)[i] == m[i]
  {
  }

  class Device {
    const mem: array<Byte>

    ghost predicate Valid() {
      mem.Length == SIZE
    }

    constructor (contents: seq<Byte>)
      requires |contents| == SIZE
      ensures Valid() && fresh(mem) && mem[..] == contents
    {
      mem := new Byte[SIZE](i requires 0 <= i < SIZE => contents[i]);
    }

    /** The device stores a page write at its address counter, which wraps inside the page. */
    method StoreInPage(address: nat, i: nat, b: Byte)
      requires Valid() && address < SIZE
      modifies mem
      ensures mem[..] == old(mem[..])[address / 32 * 32 + (address % 32 + i) % 32 := b]
    {
      mem[address / 32 * 32 + (address % 32 + i) % 32] := b;
    }

    /** One transaction, inside one page, of which `reach` bytes arrive. */
    method WritePage(at: nat, page: seq<Byte>, reach: nat) returns (ok: bool)
      requires Valid() && at % 32 + |page| <= 32 && at + |page| <= SIZE
      modifies mem
      ensures mem[..] == Patch(old(mem[..]), at, page[..Min(reach, |page|)])
      ensures ok <==> reach >= |page|
    {
      hide Patch;
      ghost var before := mem[..];
      PatchNone(before, at);
      for i := 0 to |page|
        invariant reach >= i && mem[..] == Patch(before, at, page[..i])
      {
        if reach == i {
          return false;
        }
        InPage(at, i);
        StoreInPage(at, i, page[i]);
        PatchNext(before, at, page, i);
      }
      ok := true;
    }

    /** `eeprom_write`: one transaction per page, so that the wrap never happens. */
    method Write(address: nat, buffer: seq<Byte>, env: WriteEnv) returns (ok: bool)
      requires Valid() && address < 0x1_0000
      modifies mem
      ensures mem[..] == Written(old(mem[..]), address, buffer, env)
      ensures ok <==> WriteOk(address, buffer, env)
    {
      hide Patch;
      if address < SLOT0 || address + |buffer| > SLOT1 + SLOT_SIZE {
        return false;
      }
      ghost var before := mem[..];
      var at, sent := address, 0;
      PatchNone(before, address);
      while sent < |buffer|
        invariant sent <= |buffer| && at == address + sent && env.reach >= sent
        invariant mem[..] == Patch(before, address, buffer[..sent])
      {
        var n := 32 - at % 32;
        if n > |buffer| - sent {
          n := |buffer| - sent;
        }
        var page := buffer[sent..sent + n];
        ok := WritePage(at, page, env.reach - sent);
        PatchOnward(before, address, buffer, sent, Min(env.reach - sent, n), n);
        if !ok {
          return;
        }
        at, sent := at + n, sent + n;
      }
      assert buffer[..sent] == buffer;
      return buffer == [] || env.ack;
    }

    /** `eeprom_read`: sequential reads of at most sixteen bytes. */
    method Read(address: nat, size: nat, works: bool) returns (ok: bool, buffer: seq<Byte>)
      requires Valid() && address < 0x1_0000
      ensures ok <==> address + size <= SIZE && (size == 0 || works)
      ensures ok ==> buffer == mem[address..address + size]
    {
      buffer := [];
      if address + size > SIZE {
        return false, [];
      }
      var at, left := address, size;
      while left > 0
        invariant 0 <= left && at + left == address + size && address <= at && (at > address ==> works)
        invariant buffer == mem[address..at]
      {
        var n := if left > 16 then 16 else left;
        if !works {
          return false, [];
        }
        assert mem[address..at] + mem[at..at + n] == mem[address..at + n];
        buffer := buffer + mem[at..at + n];
        at, left := at + n, left - n;
      }
      ok := true;
    }
  }

  lemma InPage(at: nat, i: nat)
    requires at % 32 + i < 32
    ensures at / 32 * 32 + (at % 32 + i) % 32 == at + i
  {
  }
}
