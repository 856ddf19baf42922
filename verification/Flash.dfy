// A SPI NOR flash chip, as its data sheet describes it.

module Nor {

  const SECTOR: int := 0x10000
  const PAGE: int := 256

  // What the driver asks the chip to do to its contents, and for a program
  // command whether the chip took it.
  datatype Op = WriteEnable | Erase(addr: int) | Program(at: int, data: seq<bv8>, taken: bool)

  // How a wait for the chip ends: the operation is over and the driver sees it;
  // the driver gives up and the operation is still in progress when the next
  // command comes; or it gives up although there is no operation any more.
  datatype Outcome = Ready | Late | Unseen

  // Every byte outside [a, a + n) is as before.
  ghost predicate Frame(m: seq<bv8>, m': seq<bv8>, a: int, n: int) {
    |m'| == |m| && forall i :: 0 <= i < |m| && !(a <= i < a + n) ==> m'[i] == m[i]
  }

  // Bytes [a, a + |data|) have been programmed: bits can only be cleared.
  ghost predicate Programmed(m: seq<bv8>, m': seq<bv8>, a: int, data: seq<bv8>) {
    && Frame(m, m', a, |data|)
    && forall i :: 0 <= i < |m| && a <= i < a + |data| ==> m'[i] == m[i] & data[i - a]
  }

  ghost predicate Blank(m: seq<bv8>, a: int, n: int) {
    forall i :: 0 <= i < |m| && a <= i < a + n ==> m[i] == 0xFF
  }

  // m' is m with data in place of its bytes at [a, a + |data|).
  ghost predicate Spliced(m: seq<bv8>, m': seq<bv8>, a: int, data: seq<bv8>) {
    && |m'| == |m| && 0 <= a && a + |data| <= |m|
    && forall i {:trigger m'[i]} :: 0 <= i < |m| ==> m'[i] == if a <= i < a + |data| then data[i - a] else m[i]
  }

  function EraseSector(m: seq<bv8>, sector: int): (m': seq<bv8>)
    ensures |m'| == |m|
  {
    seq(|m|, i requires 0 <= i < |m| => if i / SECTOR == sector then 0xFF else m[i])
  }

  // Data clocked in beyond the end of the page wraps around to its start.
  function ProgramPage(m: seq<bv8>, addr: int, data: seq<bv8>): (m': seq<bv8>)
    ensures |m'| == |m|
  {
    seq(|m|, i requires 0 <= i < |m| =>
      if i / PAGE == addr / PAGE && (i - addr) % PAGE < |data| then m[i] & data[(i - addr) % PAGE] else m[i])
  }

  lemma EraseSectorBlanks(m: seq<bv8>, a: int)
    requires a % SECTOR == 0
    ensures Frame(m, EraseSector(m, a / SECTOR), a, SECTOR) && Blank(EraseSector(m, a / SECTOR), a, SECTOR)
  {
  }

  lemma ProgramPageInside(m: seq<bv8>, addr: int, data: seq<bv8>)
    requires addr % PAGE + |data| <= PAGE
    ensures Programmed(m, ProgramPage(m, addr, data), addr, data)
  {
  }

  // What a sequence of write and program commands does to the contents.
  function Effect(m: seq<bv8>, t: seq<Op>): (m': seq<bv8>)
    ensures |m'| == |m|
    decreases |t|
  {
    if t == [] then m
    else Does(Effect(m, t[..|t| - 1]), t[|t| - 1])
  }

  function Does(m: seq<bv8>, op: Op): (m': seq<bv8>)
    ensures |m'| == |m|
  {
    if op.Program? && op.taken then ProgramPage(m, op.at, op.data) else m
  }

  lemma EffectMore(m: seq<bv8>, t: seq<Op>, op: Op)
    ensures Effect(m, t + [op]) == Does(Effect(m, t), op)
  {
    assert (t + [op])[..|t|] == t;
  }

  lemma {:induction false} EffectTwice(m: seq<bv8>, t: seq<Op>, u: seq<Op>)
    ensures Effect(m, t + u) == Effect(Effect(m, t), u)
    decreases |u|
  {
    if u == [] {
      assert t + u == t;
    } else {
      var v, op := u[..|u| - 1], u[|u| - 1];
      EffectTwice(m, t, v);
      EffectMore(m, t + v, op);
      EffectMore(Effect(m, t), v, op);
      assert t + u == t + v + [op] && u == v + [op];
    }
  }

  class Chip {
    const sectors: nat
    // How the waits for the chip will end, one after the other.
    const schedule: nat -> Outcome
    var mem: seq<bv8>
    // The write enable latch, an operation in progress, the block protect bits.
    var wel: bool
    var wip: bool
    var locked: bool
    // The waits so far.
    var polls: nat

    // The contents commands since power-up, in order, and whether a wait has ever
    // given up.
    ghost var trace: seq<Op>
    ghost var timedOut: bool

    ghost predicate Valid()
      reads this
    {
      |mem| == sectors * SECTOR && 16 <= sectors <= 1024
    }

    // An idle, unprotected chip.
    constructor (sectors: nat, schedule: nat -> Outcome)
      requires 16 <= sectors <= 1024
      ensures Valid() && this.sectors == sectors && this.schedule == schedule && polls == 0
      ensures !wel && !wip && !locked && !timedOut && trace == [] && Blank(mem, 0, |mem|)
    {
      this.sectors, this.schedule := sectors, schedule;
      mem := seq(sectors * SECTOR, _ => 0xFF);
      wel, wip, locked, polls, trace, timedOut := false, false, false, 0, [], false;
    }

    method WriteEnable()
      requires Valid()
      modifies `wel, `trace
      ensures wel == (old(wel) || !wip)
      ensures trace == old(trace) + [Op.WriteEnable]
    {
      if !wip { wel := true; }
      trace := trace + [Op.WriteEnable];
    }

    // Addresses beyond the chip wrap around.
    method SectorErase(addr: int)
      requires Valid() && addr >= 0
      modifies `mem, `wel, `wip, `trace
      ensures Valid() && trace == old(trace) + [Erase(addr)]
      ensures if old(wel && !wip && !locked) then mem == EraseSector(old(mem), addr / SECTOR % sectors) && wip
              else mem == old(mem) && wip == old(wip)
      ensures wel == old(wel && wip)
    {
      if wel && !wip && !locked {
        mem := EraseSector(mem, addr / SECTOR % sectors);
        wip, wel := true, false;
      } else if !wip {
        wel := false;
      }
      trace := trace + [Erase(addr)];
    }

    method PageProgram(addr: int, data: seq<bv8>)
      requires Valid() && 0 <= addr < |mem|
      modifies `mem, `wel, `wip, `trace
      ensures Valid() && trace == old(trace) + [Program(addr, data, old(wel && !wip && !locked))]
      ensures if old(wel && !wip && !locked) then mem == ProgramPage(old(mem), addr, data) && wip
              else mem == old(mem) && wip == old(wip)
      ensures wel == old(wel && wip)
    {
      ghost var taken := wel && !wip && !locked;
      if wel && !wip && !locked {
        mem := ProgramPage(mem, addr, data);
        wip, wel := true, false;
      } else if !wip {
        wel := false;
      }
      trace := trace + [Program(addr, data, taken)];
    }

    // Writing the status register clears the block protect bits.
    method WriteStatusZero()
      requires Valid()
      modifies `wel, `wip, `locked
      ensures if old(wel && !wip) then !locked && wip && !wel else locked == old(locked) && wip == old(wip)
      ensures wel ==> old(wel)
    {
      if wel && !wip {
        locked := false;
        wip := true;
        wel := false;
      }
    }

    // Bytes read while an operation is in progress are meaningless.
    method ReadData(addr: int, n: nat) returns (data: seq<bv8>)
      requires Valid() && addr >= 0
      ensures |data| == n
      ensures !wip ==> forall k :: 0 <= k < n && addr + k < |mem| ==> data[k] == mem[addr + k]
    {
      var busy, bytes := wip, mem;
      data := seq(n, k requires 0 <= k < n => if busy || addr + k >= |bytes| then 0 else bytes[addr + k]);
    }

    // raspi_wait_ready: poll the status register until the operation in progress
    // comes to its end, or give up.
    method WaitReady() returns (failed: bool)
      requires Valid()
      modifies `wip, `polls, `timedOut
      ensures polls == old(polls) + 1 && failed == (schedule(old(polls)) != Ready)
      ensures wip == (old(wip) && schedule(old(polls)) == Late)
      ensures timedOut == (old(timedOut) || failed)
    {
      var outcome := schedule(polls);
      polls := polls + 1;
      wip := wip && outcome == Late;
      failed := outcome != Ready;
      timedOut := timedOut || failed;
    }
  }
}
