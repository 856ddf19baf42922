// drivers/spi_rt6855A_flash.c: the flash driver, in "more buffer" mode.

module Transfer {

  // What the controller's data registers hold as byte number k.
  function ByteOf(w: bv32, r: nat): bv8
    requires r < 4
  {
    (if r == 0 then w & 0xff else if r == 1 then (w >> 8) & 0xff else if r == 2 then (w >> 16) & 0xff
      else w >> 24) as bv8
  }

  function RegByte(regs: seq<bv32>, k: nat): bv8
    requires k / 4 < |regs|
  {
    ByteOf(regs[k / 4], k % 4)
  }

  // reg_data |= b << (r * 8)
  function OrByte(w: bv32, b: bv8, r: nat): bv32
    requires r < 4
  {
    w | (if r == 0 then b as bv32 else if r == 1 then (b as bv32) << 8 else if r == 2 then (b as bv32) << 16
         else (b as bv32) << 24)
  }

  // Bytes r and up are zero.
  predicate Clear(w: bv32, r: nat)
    requires r <= 4
  {
    if r == 0 then w == 0 else if r == 1 then w >> 8 == 0 else if r == 2 then w >> 16 == 0
      else if r == 3 then w >> 24 == 0
    else true
  }

  lemma OrByteGives(w: bv32, b: bv8, r: nat)
    requires r < 4 && Clear(w, r)
    ensures ByteOf(OrByte(w, b, r), r) == b && Clear(OrByte(w, b, r), r + 1)
    ensures forall k :: 0 <= k < r ==> ByteOf(OrByte(w, b, r), k) == ByteOf(w, k)
  {
    if r == 0 { OrByte0(w, b); } else if r == 1 { OrByte1(w, b); } else if r == 2 { OrByte2(w, b); }
      else { OrByte3(w, b); }
  }

  lemma OrByte0(w: bv32, b: bv8)
    requires w == 0
    ensures ByteOf(OrByte(w, b, 0), 0) == b && Clear(OrByte(w, b, 0), 1)
  {
  }

  lemma OrByte1(w: bv32, b: bv8)
    requires w >> 8 == 0
    ensures ByteOf(OrByte(w, b, 1), 1) == b && Clear(OrByte(w, b, 1), 2) && ByteOf(OrByte(w, b, 1), 0) == ByteOf(w, 0)
  {
  }

  lemma OrByte2(w: bv32, b: bv8)
    requires w >> 16 == 0
    ensures ByteOf(OrByte(w, b, 2), 2) == b && Clear(OrByte(w, b, 2), 3)
    ensures ByteOf(OrByte(w, b, 2), 0) == ByteOf(w, 0) && ByteOf(OrByte(w, b, 2), 1) == ByteOf(w, 1)
  {
  }

  lemma OrByte3(w: bv32, b: bv8)
    requires w >> 24 == 0
    ensures ByteOf(OrByte(w, b, 3), 3) == b
    ensures ByteOf(OrByte(w, b, 3), 0) == ByteOf(w, 0) && ByteOf(OrByte(w, b, 3), 1) == ByteOf(w, 1)
    ensures ByteOf(OrByte(w, b, 3), 2) == ByteOf(w, 2)
  {
  }

  const REGS: nat := 8

  // Step 4 of bbu_mb_spic_trans: bytes into data registers.
  method Pack(buf: seq<bv8>) returns (regs: seq<bv32>)
    requires |buf| <= 4 * REGS
    ensures |regs| == REGS && forall k :: 0 <= k < |buf| ==> RegByte(regs, k) == buf[k]
  {
    hide ByteOf, OrByte, Clear;
    regs := seq(REGS, _ => 0);
    var data: bv32 := 0;
    var i := 0;
    ClearAll(data);
    while i < |buf|
      invariant 0 <= i <= |buf| && |regs| == REGS
      invariant forall k :: 0 <= k < i && (k / 4 < i / 4 || i == |buf|) ==> RegByte(regs, k) == buf[k]
      invariant i % 4 != 0 ==> Clear(data, i % 4) && forall k :: 0 <= k < i % 4 ==>
        ByteOf(data, k) == buf[i / 4 * 4 + k]
    {
      var r := i % 4;
      if r == 0 {
        data := 0;
        ClearAll(data);
      }
      OrByteGives(data, buf[i], r);
      data := OrByte(data, buf[i], r);
      if r == 3 || i + 1 == |buf| {
        regs := regs[i / 4 := data];
      }
      i := i + 1;
    }
  }

  lemma ClearAll(w: bv32)
    requires w == 0
    ensures Clear(w, 0)
  {
  }

  // The low byte of the first register is the first one.
  lemma KnownRegisters(regs: seq<bv32>)
    requires regs == [0x04030201, 0x08070605]
    ensures RegByte(regs, 0) == 1 && RegByte(regs, 1) == 2 && RegByte(regs, 2) == 3 && RegByte(regs, 3) == 4
    ensures RegByte(regs, 4) == 5 && RegByte(regs, 7) == 8
  {
  }

  // Step 7 of bbu_mb_spic_trans: bytes out of data registers.
  method Unpack(regs: seq<bv32>, n: nat) returns (buf: seq<bv8>)
    requires |regs| == REGS && n <= 4 * REGS
    ensures |buf| == n && forall k :: 0 <= k < n ==> buf[k] == RegByte(regs, k)
  {
    hide ByteOf;
    buf := [];
    var data: bv32 := 0;
    var i := 0;
    while i < n
      invariant 0 <= i <= n && |buf| == i
      invariant i % 4 != 0 ==> data == regs[i / 4]
      invariant forall k :: 0 <= k < i ==> buf[k] == RegByte(regs, k)
    {
      var r := i % 4;
      if r == 0 {
        data := regs[i / 4];
      }
      buf := buf + [ByteOf(data, r)];
      i := i + 1;
    }
  }

  // What goes through the registers in one direction comes out the same.
  method Through(buf: seq<bv8>) returns (out: seq<bv8>)
    requires |buf| <= 4 * REGS
    ensures out == buf
  {
    var regs := Pack(buf);
    out := Unpack(regs, |buf|);
  }
}

module Raspi {
  import opened Nor
  import opened Transfer

  const MORE: int := 32
  const INT_MAX: int := 0x7fff_ffff

  // CFG_BOOTLOADER_SIZE + CFG_BOOTENV_SIZE + CFG_MISC_SIZE + CFG_RADIO_SIZE
  const RESERVED: int := 0x30000 + 0x10000 + 0x50000 + 0x10000

  function Size(chip: Chip): int { chip.sectors * SECTOR }

  // Negative offsets count from the end of the chip.
  function GetOffset(chip: Chip, offset: int): int {
    if offset < 0 then Size(chip) + offset else offset
  }

  lemma FromEnd(chip: Chip, k: int)
    requires 0 < k <= Size(chip)
    ensures GetOffset(chip, -k) == chip.sectors * 0x10000 - k >= 0
  {
  }

  // An offset the driver's callers may pass.
  predicate IsOffset(chip: Chip, offset: int) {
    -Size(chip) <= offset <= INT_MAX
  }

  // The length of the piece at `to`, when everything up to `end` is to be
  // written: no more than 32 bytes, and not across the end of a page.
  function PieceLen(to: int, end: int): int {
    Min(MORE, Min(end - to, PAGE - to % PAGE))
  }

  function Min(a: int, b: int): int { if a < b then a else b }

  // Write-enable and page-program commands, strictly alternating, that put buf
  // at `to` piece by piece.
  ghost predicate WritesOut(t: seq<Op>, to: int, buf: seq<bv8>, end: int)
    decreases |buf|
  {
    if buf == [] then t == []
    else
      && |t| >= 2 && t[0] == Op.WriteEnable && t[1].Program? && t[1].at == to
      && var d := t[1].data;
      && 0 < |d| == PieceLen(to, end) && d <= buf
      && WritesOut(t[2..], to + |d|, buf[|d|..], end)
  }

  lemma {:induction false} WritesOutMore(t: seq<Op>, to: int, buf: seq<bv8>, t': seq<Op>, d: seq<bv8>, end: int)
    requires WritesOut(t, to, buf, end) && WritesOut(t', to + |buf|, d, end)
    ensures WritesOut(t + t', to, buf + d, end)
    decreases |buf|
  {
    if buf == [] {
      assert t + t' == t' && buf + d == d;
    } else {
      var n := |t[1].data|;
      var w, b := t + t', buf + d;
      assert w[0] == t[0] && w[1] == t[1] && w[2..] == t[2..] + t';
      assert b[..n] == buf[..n] == t[1].data && b[n..] == buf[n..] + d;
      WritesOutMore(t[2..], to + n, buf[n..], t', d, end);
    }
  }

  lemma {:induction false} WritesOutEven(t: seq<Op>, to: int, buf: seq<bv8>, end: int)
    requires WritesOut(t, to, buf, end)
    ensures |t| % 2 == 0 && (buf != [] ==> |t| > 0)
    ensures forall j {:trigger t[j]} :: 0 <= j < |t| ==>
      (j % 2 == 0 ==> t[j] == Op.WriteEnable) && (j % 2 == 1 ==> t[j].Program?)
    decreases |buf|
  {
    if buf != [] {
      WritesOutEven(t[2..], to + |t[1].data|, buf[|t[1].data|..], end);
      assert forall j :: 2 <= j < |t| ==> t[j] == t[2..][j - 2];
    }
  }

  lemma OneChunk(to: int, d: seq<bv8>, end: int, taken: bool)
    requires 0 < |d| == PieceLen(to, end)
    ensures WritesOut([Op.WriteEnable, Program(to, d, taken)], to, d, end)
  {
    assert [Op.WriteEnable, Program(to, d, taken)][2..] == [] && d[|d|..] == [];
  }

  // Which of the pieces the chip takes, if the first comes behind wait p with the
  // chip busy or not: all but those whose wait gave up on a busy chip.  Behind
  // the first piece the chip is always busy.
  predicate Takes(chip: Chip, p: nat, busy: bool, j: nat) {
    !((busy || j > 0) && chip.schedule(p + j) == Late)
  }

  ghost predicate TakenBy(t: seq<Op>, chip: Chip, p: nat, busy: bool) {
    forall j: nat {:trigger t[2 * j + 1]} :: 2 * j + 1 < |t| && t[2 * j + 1].Program? ==>
      t[2 * j + 1].taken == Takes(chip, p, busy, j)
  }

  lemma TakenMore(t: seq<Op>, t': seq<Op>, chip: Chip, p: nat, busy: bool)
    requires TakenBy(t, chip, p, busy) && |t| % 2 == 0
    requires TakenBy(t', chip, p + |t| / 2, busy || t != [])
    ensures TakenBy(t + t', chip, p, busy)
  {
    forall j: nat | 2 * j + 1 < |t + t'| && (t + t')[2 * j + 1].Program?
      ensures (t + t')[2 * j + 1].taken == Takes(chip, p, busy, j)
    {
      if 2 * j + 1 >= |t| {
        var i := j - |t| / 2;
        assert (t + t')[2 * j + 1] == t'[2 * i + 1] && p + |t| / 2 + i == p + j;
      } else {
        assert (t + t')[2 * j + 1] == t[2 * j + 1];
      }
    }
  }

  lemma TakenOne(to: int, d: seq<bv8>, taken: bool, chip: Chip, p: nat, busy: bool)
    requires taken == Takes(chip, p, busy, 0)
    ensures TakenBy([Op.WriteEnable, Program(to, d, taken)], chip, p, busy)
  {
    var t := [Op.WriteEnable, Program(to, d, taken)];
    forall j: nat | 2 * j + 1 < |t| && t[2 * j + 1].Program?
      ensures t[2 * j + 1].taken == Takes(chip, p, busy, j)
    {
      assert j == 0;
    }
  }

  lemma ProgrammedMore(m: seq<bv8>, m1: seq<bv8>, m2: seq<bv8>, a: int, d: seq<bv8>, e: seq<bv8>)
    requires Programmed(m, m1, a, d) && Programmed(m1, m2, a + |d|, e)
    ensures Programmed(m, m2, a, d + e)
  {
    forall i | 0 <= i < |m| && a <= i < a + |d + e|
      ensures m2[i] == m[i] & (d + e)[i - a]
    {
      hide Frame, Programmed;
      ProgrammedByte(m, m1, m2, a, d, e, i);
    }
  }

  lemma ProgrammedByte(m: seq<bv8>, m1: seq<bv8>, m2: seq<bv8>, a: int, d: seq<bv8>, e: seq<bv8>, i: int)
    requires Programmed(m, m1, a, d) && Programmed(m1, m2, a + |d|, e)
    requires 0 <= i < |m| && a <= i < a + |d + e|
    ensures |m1| == |m| && |m2| == |m| && m2[i] == m[i] & (d + e)[i - a]
  {
    if i < a + |d| {
      assert m1[i] == m[i] & d[i - a] && m2[i] == m1[i];
    } else {
      assert m1[i] == m[i];
    }
  }

  // bbu_mb_spic_trans(STM_OP_PAGE_PGRM, ...)
  method Program32(chip: Chip, addr: int, buf: seq<bv8>)
    requires chip.Valid() && 0 < |buf| <= MORE && 0 <= addr && addr + |buf| <= |chip.mem| && addr % PAGE + |buf| <= PAGE
    modifies chip`mem, chip`wel, chip`wip, chip`trace
    ensures chip.Valid()
    ensures chip.trace == old(chip.trace) + [Program(addr, buf, old(chip.wel && !chip.wip && !chip.locked))]
    ensures Frame(old(chip.mem), chip.mem, addr, |buf|)
    ensures old(chip.wel && !chip.wip && !chip.locked) ==> Programmed(old(chip.mem), chip.mem, addr, buf)
    ensures chip.mem == if old(chip.wel && !chip.wip && !chip.locked) then ProgramPage(old(chip.mem), addr, buf)
      else old(chip.mem)
    ensures chip.wip == (old(chip.wip) || old(chip.wel && !chip.locked)) && chip.wel == old(chip.wel && chip.wip)
  {
    hide Frame, Programmed, ProgramPage, RegByte;
    var regs := Pack(buf);
    var sent := seq(|buf|, k requires 0 <= k < |buf| => RegByte(regs, k));
    assert sent == buf;
    chip.PageProgram(addr, sent);
    Programs(old(chip.mem), addr, buf);
  }

  lemma Programs(m: seq<bv8>, addr: int, buf: seq<bv8>)
    requires addr % PAGE + |buf| <= PAGE
    ensures Programmed(m, ProgramPage(m, addr, buf), addr, buf) && Frame(m, ProgramPage(m, addr, buf), addr, |buf|)
    ensures Frame(m, m, addr, |buf|)
  {
    ProgramPageInside(m, addr, buf);
  }

  lemma NothingYet(m: seq<bv8>, to: int, n: int)
    ensures Frame(m, m, to, n) && Programmed(m, m, to, [])
  {
  }

  ghost predicate AllReady(chip: Chip, p: nat, q: nat) {
    forall i: nat :: p <= i < q ==> chip.schedule(i) == Ready
  }

  // What goes before each piece; nothing looks at the result of the wait.
  method WaitEnabled(chip: Chip, ghost p: nat)
    requires chip.Valid() && p <= chip.polls
    modifies chip`wel, chip`wip, chip`polls, chip`trace, chip`timedOut
    ensures chip.wip == !Takes(chip, old(chip.polls), old(chip.wip), 0) && (!chip.wip ==> chip.wel)
    ensures chip.polls == old(chip.polls) + 1 && chip.trace == old(chip.trace) + [Op.WriteEnable]
    ensures old(chip.timedOut) ==> chip.timedOut
    ensures old(!chip.timedOut ==> AllReady(chip, p, chip.polls)) && !chip.timedOut ==> AllReady(chip, p, chip.polls)
  {
    hide AllReady;
    var failed := chip.WaitReady();
    chip.WriteEnable();
    OneReady(chip, p, chip.polls - 1);
  }

  // The inner loop of raspi_write: what is to go into one page, 32 bytes at a
  // time.
  method WritePage(chip: Chip, to: int, buf: seq<bv8>, ghost end: int) returns (ghost t: seq<Op>)
    requires chip.Valid() && |buf| > 0 && 0 <= to && to + |buf| <= |chip.mem|
      && |buf| == Min(end - to, PAGE - to % PAGE)
    requires !chip.locked
    modifies chip
    ensures chip.Valid() && !chip.locked && (old(chip.timedOut) ==> chip.timedOut)
    ensures chip.trace == old(chip.trace) + t && WritesOut(t, to, buf, end) && chip.mem == Effect(old(chip.mem), t)
    ensures TakenBy(t, chip, old(chip.polls), old(chip.wip)) && 2 * (chip.polls - old(chip.polls)) == |t| && chip.wip
    ensures !chip.timedOut ==> AllReady(chip, old(chip.polls), chip.polls)
  {
    hide WritesOut, Effect, TakenBy, PieceLen, ProgramPage, AllReady, Frame, Programmed, Takes, SoFar, Does;
    ghost var p0, busy0 := chip.polls, chip.wip;
    EmptyWrites(to, end, chip, p0, busy0, chip.mem);
    OneReady(chip, p0, p0);
    WaitEnabled(chip, p0);
    t := [];
    var wrto, wrlen, wrbuf := to, |buf|, 0;
    while wrlen > 0
      invariant chip.Valid() && !chip.locked && (old(chip.timedOut) ==> chip.timedOut)
      invariant wrto == to + wrbuf && wrlen == |buf| - wrbuf && 0 <= wrbuf <= |buf|
      invariant chip.trace == old(chip.trace) + t + (if wrlen > 0 then [Op.WriteEnable] else [])
      invariant chip.mem == Effect(old(chip.mem), t) && SoFar(t, to, buf[..wrbuf], end, chip, p0, busy0)
      invariant chip.polls == p0 + |t| / 2 + (if wrlen > 0 then 1 else 0)
      invariant wrlen > 0 ==> chip.wip == !Takes(chip, p0 + |t| / 2, busy0 || t != [], 0) && (!chip.wip ==> chip.wel)
      invariant wrlen <= 0 ==> chip.wip
      invariant !chip.timedOut ==> AllReady(chip, p0, chip.polls)
    {
      var n := if wrlen <= MORE then wrlen else MORE;
      t := WritePiece(chip, to, buf, wrbuf, n, end, t, old(chip.mem), p0, busy0);
      wrto, wrlen, wrbuf := wrto + n, wrlen - n, wrbuf + n;
      if wrlen > 0 { WaitEnabled(chip, p0); }
    }
    assert buf[..wrbuf] == buf;
    AllSoFar(t, to, buf, end, chip, p0, busy0);
  }

  // One piece of it.
  method WritePiece(chip: Chip, to: int, buf: seq<bv8>, wrbuf: int, n: int, ghost end: int, ghost t: seq<Op>,
                    ghost m: seq<bv8>, ghost p: nat, ghost busy: bool) returns (ghost t': seq<Op>)
    requires chip.Valid() && !chip.locked && (!chip.wip ==> chip.wel)
    requires 0 <= to && to + |buf| <= |chip.mem| && |buf| == Min(end - to, PAGE - to % PAGE)
    requires 0 <= wrbuf < |buf| && n == Min(MORE, |buf| - wrbuf)
    requires chip.mem == Effect(m, t) && SoFar(t, to, buf[..wrbuf], end, chip, p, busy)
    requires chip.wip == !Takes(chip, p + |t| / 2, busy || t != [], 0)
    modifies chip`mem, chip`wel, chip`wip, chip`trace
    ensures chip.Valid() && chip.wip && |t'| == |t| + 2
    ensures chip.trace == old(chip.trace) + t'[|t| + 1..] && t' == t + [Op.WriteEnable] + t'[|t| + 1..]
    ensures chip.mem == Effect(m, t') && SoFar(t', to, buf[..wrbuf + n], end, chip, p, busy)
  {
    hide WritesOut, Effect, TakenBy, PieceLen, ProgramPage, Frame, Programmed, Takes, SoFar, Does;
    ghost var taken := !chip.wip;
    PageFits(to, wrbuf, n, |buf|, end);
    var piece := buf[wrbuf..wrbuf + n];
    Program32(chip, to + wrbuf, piece);
    OnePiece(m, t, to, buf, wrbuf, n, end, taken, chip, p, busy);
    t' := t + [Op.WriteEnable, Program(to + wrbuf, piece, taken)];
    assert t'[|t| + 1..] == [Program(to + wrbuf, piece, taken)];
  }

  ghost predicate SoFar(t: seq<Op>, to: int, buf: seq<bv8>, end: int, chip: Chip, p: nat, busy: bool) {
    WritesOut(t, to, buf, end) && TakenBy(t, chip, p, busy) && |t| % 2 == 0
  }

  lemma AllSoFar(t: seq<Op>, to: int, buf: seq<bv8>, end: int, chip: Chip, p: nat, busy: bool)
    requires SoFar(t, to, buf, end, chip, p, busy)
    ensures WritesOut(t, to, buf, end) && TakenBy(t, chip, p, busy) && |t| % 2 == 0
  {
  }

  lemma OneReady(chip: Chip, p: nat, q: nat)
    requires p <= q
    ensures AllReady(chip, p, p)
    ensures AllReady(chip, p, q) && chip.schedule(q) == Ready ==> AllReady(chip, p, q + 1)
  {
  }

  lemma OnePiece(m: seq<bv8>, t: seq<Op>, to: int, buf: seq<bv8>, k: int, n: int, end: int, taken: bool, chip: Chip,
                 p: nat, busy: bool)
    requires 0 <= k && 0 < n == PieceLen(to + k, end) && k + n <= |buf| && SoFar(t, to, buf[..k], end, chip, p, busy)
    requires taken == Takes(chip, p + |t| / 2, busy || t != [], 0)
    ensures var op := Program(to + k, buf[k..k + n], taken);
            && SoFar(t + [Op.WriteEnable, op], to, buf[..k + n], end, chip, p, busy)
            && Effect(m, t + [Op.WriteEnable, op]) ==
               if taken then ProgramPage(Effect(m, t), to + k, buf[k..k + n]) else Effect(m, t)
  {
    hide WritesOut, Effect, TakenBy, PieceLen, ProgramPage, Takes;
    var piece := buf[k..k + n];
    var op := Program(to + k, piece, taken);
    OneChunk(to + k, piece, end, taken);
    TakenOne(to + k, piece, taken, chip, p + |t| / 2, busy || t != []);
    WritesOutMore(t, to, buf[..k], [Op.WriteEnable, op], piece, end);
    TakenMore(t, [Op.WriteEnable, op], chip, p, busy);
    EffectMore(m, t, Op.WriteEnable);
    EffectMore(m, t + [Op.WriteEnable], op);
    assert buf[..k] + piece == buf[..k + n] && t + [Op.WriteEnable] + [op] == t + [Op.WriteEnable, op];
  }

  // ---- what the pieces come to ----

  lemma Pair(m: seq<bv8>, t: seq<Op>)
    requires |t| >= 2 && t[0] == Op.WriteEnable
    ensures Effect(m, t) == Effect(Does(m, t[1]), t[2..])
  {
    hide Effect;
    EffectTwice(m, t[..2], t[2..]);
    assert t[..2] + t[2..] == t && t[..2] == [] + [Op.WriteEnable] + [t[1]];
    EffectMore(m, [], Op.WriteEnable);
    EffectMore(m, [Op.WriteEnable], t[1]);
    assert [] + [Op.WriteEnable] == [Op.WriteEnable];
    NoEffect(m);
  }

  lemma NoEffect(m: seq<bv8>)
    ensures Effect(m, []) == m
  {
  }

  lemma PieceDoes(m: seq<bv8>, to: int, d: seq<bv8>, taken: bool, end: int)
    requires to >= 0 && 0 < |d| == PieceLen(to, end)
    ensures var m' := Does(m, Program(to, d, taken));
            Frame(m, m', to, |d|) && (taken ==> Programmed(m, m', to, d)) && (!taken ==> m' == m)
  {
    hide ProgramPage, Frame, Programmed;
    Programs(m, to, d);
  }

  // Nothing but the bytes written to changes.
  lemma {:induction false} WrittenFrame(m: seq<bv8>, t: seq<Op>, to: int, buf: seq<bv8>, end: int)
    requires WritesOut(t, to, buf, end) && to >= 0
    ensures Frame(m, Effect(m, t), to, |buf|)
    decreases |buf|
  {
    hide Frame, Effect, Programmed, Does, PieceLen;
    if buf == [] {
      NoEffect(m);
      NothingYet(m, to, 0);
    } else {
      var d := t[1].data;
      Pair(m, t);
      PieceDoes(m, to, d, t[1].taken, end);
      WrittenFrame(Does(m, t[1]), t[2..], to + |d|, buf[|d|..], end);
      FrameJoin(m, Does(m, t[1]), Effect(m, t), to, |d|, |buf| - |d|);
    }
  }

  lemma FrameJoin(m: seq<bv8>, m1: seq<bv8>, m2: seq<bv8>, a: int, n: int, k: int)
    requires Frame(m, m1, a, n) && Frame(m1, m2, a + n, k) && n >= 0 && k >= 0
    ensures Frame(m, m2, a, n + k)
  {
  }

  // Every piece that was not taken had nothing to clear.
  ghost predicate Harmless(t: seq<Op>) {
    forall j {:trigger t[j]} :: 0 <= j < |t| && t[j].Program? && !t[j].taken ==> AllOnes(t[j].data)
  }

  ghost predicate AllOnes(d: seq<bv8>) {
    forall k :: 0 <= k < |d| ==> d[k] == 0xFF
  }

  // On blank flash the data are there if and only if every piece that was not
  // taken is all ones.
  lemma {:induction false} WrittenOnBlank(m: seq<bv8>, t: seq<Op>, to: int, buf: seq<bv8>, end: int)
    requires WritesOut(t, to, buf, end) && to >= 0 && to + |buf| <= |m| && Blank(m, to, |buf|)
    ensures Effect(m, t)[to..to + |buf|] == buf <==> Harmless(t)
    decreases |buf|
  {
    hide Frame, Effect, Programmed, Does, PieceLen, Harmless, AllOnes, Blank, WritesOut;
    if buf == [] {
      NoneWritten(t, to, end);
      NoEffect(m);
    } else {
      FirstWritten(t, to, buf, end);
      var d := t[1].data;
      var m1, m2 := Does(m, t[1]), Effect(m, t);
      Pair(m, t);
      PieceDoes(m, to, d, t[1].taken, end);
      BlankRest(m, m1, to, |d|, |buf|);
      WrittenOnBlank(m1, t[2..], to + |d|, buf[|d|..], end);
      WrittenFrame(m1, t[2..], to + |d|, buf[|d|..], end);
      FirstPiece(m, m1, m2, to, d, t[1].taken, |buf|);
      HarmlessSplit(t);
      TwoParts(m2, to, buf, |d|);
    }
  }

  // Each piece of 32 bytes is there if and only if it was taken or is all ones.
  lemma {:induction false} PieceThere(m: seq<bv8>, t: seq<Op>, to: int, buf: seq<bv8>, end: int, j: nat)
    requires WritesOut(t, to, buf, end) && to >= 0 && to % MORE == 0 && |buf| % MORE == 0 && end == to + |buf|
    requires end <= |m| && Blank(m, to, |buf|) && MORE * j + MORE <= |buf| && 2 * j + 1 < |t| && t[2 * j + 1].Program?
    ensures Effect(m, t)[to + MORE * j..to + MORE * j + MORE] == buf[MORE * j..MORE * j + MORE]
            <==> t[2 * j + 1].taken || AllOnes(buf[MORE * j..MORE * j + MORE])
    decreases j
  {
    hide Frame, Effect, Programmed, Does, PieceLen, AllOnes, Blank, WritesOut;
    FirstWritten(t, to, buf, end);
    PieceOf32(to, end);
    var d := t[1].data;
    var m1, m2 := Does(m, t[1]), Effect(m, t);
    Pair(m, t);
    PieceDoes(m, to, d, t[1].taken, end);
    BlankRest(m, m1, to, MORE, |buf|);
    if j == 0 {
      WrittenFrame(m1, t[2..], to + MORE, buf[MORE..], end);
      FirstPiece(m, m1, m2, to, d, t[1].taken, |buf|);
      assert buf[..MORE] == d;
    } else {
      var more := buf[MORE..];
      assert t[2..][2 * (j - 1) + 1] == t[2 * j + 1];
      assert more[MORE * (j - 1)..MORE * (j - 1) + MORE] == buf[MORE * j..MORE * j + MORE];
      PieceThere(m1, t[2..], to + MORE, more, end, j - 1);
    }
  }

  lemma PiecewiseEqual(x: seq<bv8>, y: seq<bv8>)
    requires |x| == |y| && |x| % MORE == 0
    ensures x == y <==> forall j: nat :: MORE * j + MORE <= |x| ==>
      x[MORE * j..MORE * j + MORE] == y[MORE * j..MORE * j + MORE]
  {
    if forall j: nat :: MORE * j + MORE <= |x| ==> x[MORE * j..MORE * j + MORE] == y[MORE * j..MORE * j + MORE] {
      forall i | 0 <= i < |x|
        ensures x[i] == y[i]
      {
        var j: nat := i / MORE;
        PieceEnds(i, |x|);
        assert x[MORE * j..MORE * j + MORE][i - MORE * j] == y[MORE * j..MORE * j + MORE][i - MORE * j];
      }
    }
  }

  lemma PieceEnds(i: int, n: int)
    requires 0 <= i < n && n % MORE == 0
    ensures MORE * (i / MORE) <= i < MORE * (i / MORE) + MORE <= n
  {
  }

  // What was written at the start of a blank sector is there if and only if the
  // pieces of it that the schedule has the chip miss are all ones.
  lemma StartThere(m: seq<bv8>, t: seq<Op>, to: int, buf: seq<bv8>, n: int, chip: Chip, p: nat, busy: bool)
    requires WritesOut(t, to, buf, to + |buf|) && to >= 0 && to % MORE == 0 && |buf| % MORE == 0
    requires to + |buf| <= |m| && Blank(m, to, |buf|) && TakenBy(t, chip, p, busy) && 0 <= n <= |buf| && n % MORE == 0
    ensures Effect(m, t)[to..to + n] == buf[..n] <==> Spared(chip, p, busy, buf[..n])
  {
    hide Effect, AllOnes, Blank, WritesOut, Takes, PieceLen, TakenBy;
    var w := Effect(m, t);
    var x, y := w[to..to + n], buf[..n];
    PiecewiseEqual(x, y);
    forall j: nat | MORE * j + MORE <= n
      ensures x[MORE * j..MORE * j + MORE] == y[MORE * j..MORE * j + MORE] <==>
              (Takes(chip, p, busy, j) || AllOnes(y[MORE * j..MORE * j + MORE]))
    {
      PieceNo(t, to, buf, to + |buf|, j);
      PieceThere(m, t, to, buf, to + |buf|, j);
      SliceOfSlice(w, to, n, MORE * j);
      SliceOfSlice(buf, 0, n, MORE * j);
      TakenAt(t, chip, p, busy, j);
    }
    if x == y {
      forall j: nat | MORE * j + MORE <= n && !Takes(chip, p, busy, j)
        ensures AllOnes(y[MORE * j..MORE * j + MORE])
      {
        assert x[MORE * j..MORE * j + MORE] == y[MORE * j..MORE * j + MORE];
      }
    } else {
      var j: nat :| MORE * j + MORE <= n && x[MORE * j..MORE * j + MORE] != y[MORE * j..MORE * j + MORE];
      assert !Takes(chip, p, busy, j) && !AllOnes(y[MORE * j..MORE * j + MORE]);
    }
  }

  lemma SliceOfSlice(s: seq<bv8>, from: int, n: int, at: int)
    requires 0 <= from && from + n <= |s| && 0 <= at && at + MORE <= n
    ensures s[from..from + n][at..at + MORE] == s[from + at..from + at + MORE]
  {
    var w := s[from..from + n];
    var x, y := w[at..at + MORE], s[from + at..from + at + MORE];
    assert |x| == |y| && forall k :: 0 <= k < |x| ==> x[k] == y[k];
  }

  lemma TakenAt(t: seq<Op>, chip: Chip, p: nat, busy: bool, j: nat)
    requires TakenBy(t, chip, p, busy) && 2 * j + 1 < |t| && t[2 * j + 1].Program?
    ensures t[2 * j + 1].taken == Takes(chip, p, busy, j)
  {
  }

  lemma NoneWritten(t: seq<Op>, to: int, end: int)
    requires WritesOut(t, to, [], end)
    ensures t == [] && Harmless(t)
  {
  }

  lemma FirstWritten(t: seq<Op>, to: int, buf: seq<bv8>, end: int)
    requires WritesOut(t, to, buf, end) && buf != []
    ensures |t| >= 2 && t[0] == Op.WriteEnable && t[1].Program? && t[1].at == to
    ensures var d := t[1].data; 0 < |d| == PieceLen(to, end) && d <= buf && WritesOut(t[2..], to + |d|, buf[|d|..], end)
  {
  }

  lemma BlankRest(m: seq<bv8>, m1: seq<bv8>, a: int, n: int, len: int)
    requires Blank(m, a, len) && Frame(m, m1, a, n) && 0 <= n <= len
    ensures Blank(m1, a + n, len - n) && Blank(m, a, n) && |m1| == |m|
  {
  }

  lemma FirstPiece(m: seq<bv8>, m1: seq<bv8>, m2: seq<bv8>, a: int, d: seq<bv8>, taken: bool, len: int)
    requires 0 <= a && a + len <= |m| && |d| <= len && Blank(m, a, |d|)
    requires (taken ==> Programmed(m, m1, a, d)) && (!taken ==> m1 == m) && |m1| == |m|
      && Frame(m1, m2, a + |d|, len - |d|)
    ensures m2[a..a + |d|] == d <==> taken || AllOnes(d)
  {
    assert m2[a..a + |d|] == m1[a..a + |d|];
    if taken {
      BlankThenProgrammed(m, m1, a, d);
    } else {
      var s := m1[a..a + |d|];
      assert forall k :: 0 <= k < |d| ==> s[k] == m[a + k] == 0xFF;
    }
  }

  lemma HarmlessSplit(t: seq<Op>)
    requires |t| >= 2 && t[0] == Op.WriteEnable && t[1].Program?
    ensures Harmless(t) <==> (t[1].taken || AllOnes(t[1].data)) && Harmless(t[2..])
  {
    hide AllOnes;
    if (t[1].taken || AllOnes(t[1].data)) && Harmless(t[2..]) {
      forall j | 0 <= j < |t| && t[j].Program? && !t[j].taken
        ensures AllOnes(t[j].data)
      {
        if j >= 2 { assert t[j] == t[2..][j - 2]; }
      }
    }
    if Harmless(t) {
      forall j | 0 <= j < |t[2..]| && t[2..][j].Program? && !t[2..][j].taken
        ensures AllOnes(t[2..][j].data)
      {
        assert t[2..][j] == t[j + 2];
      }
    }
  }

  lemma TwoParts(m: seq<bv8>, a: int, buf: seq<bv8>, n: int)
    requires 0 <= a && a + |buf| <= |m| && 0 <= n <= |buf|
    ensures m[a..a + |buf|] == buf <==> m[a..a + n] == buf[..n] && m[a + n..a + n + (|buf| - n)] == buf[n..]
  {
    assert m[a..a + |buf|] == m[a..a + n] + m[a + n..a + n + (|buf| - n)];
    assert buf == buf[..n] + buf[n..];
  }

  // If every piece is taken, all has been programmed.
  lemma {:induction false} AllProgrammed(m: seq<bv8>, t: seq<Op>, to: int, buf: seq<bv8>, end: int)
    requires WritesOut(t, to, buf, end) && to >= 0
    requires forall j {:trigger t[j]} :: 0 <= j < |t| && t[j].Program? ==> t[j].taken
    ensures Programmed(m, Effect(m, t), to, buf)
    decreases |buf|
  {
    hide Frame, Effect, Programmed, Does, PieceLen, WritesOut;
    if buf == [] {
      NoneWritten(t, to, end);
      NoEffect(m);
      NothingYet(m, to, 0);
    } else {
      FirstWritten(t, to, buf, end);
      var d := t[1].data;
      Pair(m, t);
      PieceDoes(m, to, d, t[1].taken, end);
      assert forall j :: 0 <= j < |t[2..]| ==> t[2..][j] == t[j + 2];
      AllProgrammed(Does(m, t[1]), t[2..], to + |d|, buf[|d|..], end);
      ProgrammedMore(m, Does(m, t[1]), Effect(m, t), to, d, buf[|d|..]);
      assert d + buf[|d|..] == buf;
    }
  }

  lemma ReadyTaken(t: seq<Op>, to: int, buf: seq<bv8>, end: int, chip: Chip, p: nat, busy: bool)
    requires WritesOut(t, to, buf, end) && TakenBy(t, chip, p, busy) && AllReady(chip, p, p + |t| / 2)
    ensures forall j {:trigger t[j]} :: 0 <= j < |t| && t[j].Program? ==> t[j].taken
  {
    hide WritesOut;
    WritesOutEven(t, to, buf, end);
    forall j | 0 <= j < |t| && t[j].Program?
      ensures t[j].taken
    {
      var i: nat := j / 2;
      assert t[2 * i + 1] == t[j] && chip.schedule(p + i) == Ready;
      assert Takes(chip, p, busy, i);
    }
  }

  // From a multiple of 32 on, piece j is the 32 bytes from 32 * j on.
  lemma {:induction false} PieceNo(t: seq<Op>, to: int, buf: seq<bv8>, end: int, j: nat)
    requires WritesOut(t, to, buf, end) && to >= 0 && to % MORE == 0 && |buf| % MORE == 0 && end == to + |buf|
    requires MORE * j < |buf|
    ensures 2 * j + 1 < |t| && t[2 * j + 1].Program? && MORE * j + MORE <= |buf|
    ensures t[2 * j + 1].data == buf[MORE * j..MORE * j + MORE]
    decreases j
  {
    hide WritesOut, PieceLen;
    FirstWritten(t, to, buf, end);
    PieceOf32(to, end);
    if j > 0 {
      var more := buf[MORE..];
      PieceNo(t[2..], to + MORE, more, end, j - 1);
      assert t[2..][2 * (j - 1) + 1] == t[2 * j + 1];
      assert more[MORE * (j - 1)..MORE * (j - 1) + MORE] == buf[MORE * j..MORE * j + MORE];
    }
  }

  lemma {:induction false} PieceCount(t: seq<Op>, to: int, buf: seq<bv8>, end: int)
    requires WritesOut(t, to, buf, end) && to >= 0 && to % MORE == 0 && |buf| % MORE == 0 && end == to + |buf|
    ensures |t| == 2 * (|buf| / MORE)
    decreases |buf|
  {
    hide WritesOut, PieceLen;
    if buf == [] {
      NoneWritten(t, to, end);
    } else {
      FirstWritten(t, to, buf, end);
      PieceOf32(to, end);
      OnePieceLess(|buf|);
      PieceCount(t[2..], to + MORE, buf[MORE..], end);
    }
  }

  lemma OnePieceLess(n: int)
    requires n > 0 && n % MORE == 0
    ensures n >= MORE && (n - MORE) % MORE == 0 && (n - MORE) / MORE == n / MORE - 1
  {
  }

  // The pieces that the schedule has the chip miss are all ones.
  ghost predicate Spared(chip: Chip, p: nat, busy: bool, buf: seq<bv8>) {
    forall j: nat :: MORE * j + MORE <= |buf| && !Takes(chip, p, busy, j) ==> AllOnes(buf[MORE * j..MORE * j + MORE])
  }

  lemma PieceOf32(to: int, end: int)
    requires to >= 0 && to % MORE == 0 && (end - to) % MORE == 0 && end > to
    ensures PieceLen(to, end) == MORE
  {
    assert to % PAGE % MORE == to % MORE;
  }

  lemma EmptyWrites(to: int, end: int, chip: Chip, p: nat, busy: bool, m: seq<bv8>)
    ensures SoFar([], to, [], end, chip, p, busy) && Effect(m, []) == m
  {
  }

  lemma PageFits(to: int, k: int, n: int, len: int, end: int)
    requires to >= 0 && 0 <= k < len && len == Min(end - to, PAGE - to % PAGE) && n == Min(MORE, len - k)
    ensures (to + k) % PAGE + n <= PAGE && n == PieceLen(to + k, end)
  {
    assert (to + k) % PAGE == to % PAGE + k;
  }

  // raspi_unprotect
  method Unprotect(chip: Chip)
    requires chip.Valid()
    modifies chip`wel, chip`wip, chip`locked, chip`trace
    ensures chip.Valid() && (!old(chip.wip) ==> !chip.locked && chip.wip == old(chip.locked))
    ensures chip.trace == old(chip.trace) || chip.trace == old(chip.trace) + [Op.WriteEnable]
  {
    if chip.locked {
      chip.WriteEnable();
      chip.WriteStatusZero();
    }
  }

  method Write(chip: Chip, buf: seq<bv8>, offset: int, len: int) returns (r: int, ghost t: seq<Op>)
    requires chip.Valid() && IsOffset(chip, offset) && len <= |buf| && len <= INT_MAX
    modifies chip
    ensures chip.Valid() && (old(chip.timedOut) ==> chip.timedOut)
    ensures r == 0 || r == -1 || r == len
    ensures r == 0 || r == -1 ==> chip.mem == old(chip.mem)
    ensures r == 0 <==> len <= 0
    ensures r == -1 <== len > 0 && GetOffset(chip, offset) + len > |chip.mem|
    ensures r == -1 ==> chip.timedOut || GetOffset(chip, offset) + len > |chip.mem|
    ensures r > 0 ==> GetOffset(chip, offset) + len <= |chip.mem|
    ensures r > 0 ==> Frame(old(chip.mem), chip.mem, GetOffset(chip, offset), len)
    ensures r > 0 && !chip.timedOut ==> Programmed(old(chip.mem), chip.mem, GetOffset(chip, offset), buf[..len])
    ensures r > 0 ==> WritesOut(t, GetOffset(chip, offset), buf[..len], GetOffset(chip, offset) + len)
    // The first wait decides whether anything is written, and those behind it
    // which pieces are.
    ensures r == -1 <==>
      len > 0 && (GetOffset(chip, offset) + len > |chip.mem| || chip.schedule(old(chip.polls)) != Ready)
    ensures r > 0 ==> chip.mem == Effect(old(chip.mem), t) && TakenBy(t, chip, old(chip.polls) + 1, old(chip.locked))
    ensures r > 0 ==> chip.polls == old(chip.polls) + |t| / 2 + 2
    ensures r > 0 ==> chip.trace == old(chip.trace) + t || chip.trace == old(chip.trace) + [Op.WriteEnable] + t
  {
    hide Frame, Programmed, WritesOut, Effect, TakenBy, AllReady, SoFar;
    t := [];
    if len <= 0 {
      return 0, [];
    }
    var to := GetOffset(chip, offset);
    if to + len > Size(chip) {
      return -1, [];
    }
    var failed := chip.WaitReady();
    if failed {
      return -1, [];
    }
    ghost var p0, busy0 := chip.polls, chip.locked;
    Unprotect(chip);
    var pageOffset := to % PAGE;
    ghost var at, trace0 := to, chip.trace;
    var left, b := len, 0;
    r := 0;
    OneReady(chip, p0, p0);
    EmptyWrites(at, at + len, chip, p0, busy0, chip.mem);
    while left > 0
      invariant chip.Valid() && !chip.locked && (old(chip.timedOut) ==> chip.timedOut)
      invariant to == at + b && left == len - b && 0 <= b <= len && r == b
      invariant left > 0 ==> pageOffset == to % PAGE
      invariant chip.trace == trace0 + t && SoFar(t, at, buf[..b], at + len, chip, p0, busy0)
      invariant chip.mem == Effect(old(chip.mem), t) && |t| % 2 == 0
      invariant chip.polls == p0 + |t| / 2 && chip.wip == (busy0 || t != [])
      invariant !chip.timedOut ==> AllReady(chip, p0, chip.polls)
    {
      var pageSize := if left < PAGE - pageOffset then left else PAGE - pageOffset;
      NextPage(to, pageSize, left);
      pageOffset := 0;
      ghost var q := chip.polls;
      ghost var t1 := WritePage(chip, to, buf[b..b + pageSize], at + len);
      OnePage(old(chip.mem), t, t1, at, buf, b, pageSize, at + len, chip, p0, busy0);
      MoreReady(chip, p0, q, chip.polls);
      t := t + t1;
      r, left, to, b := r + pageSize, left - pageSize, to + pageSize, b + pageSize;
    }
    assert buf[..b] == buf[..len];
    AllSoFar(t, at, buf[..len], at + len, chip, p0, busy0);
    WrittenFrame(old(chip.mem), t, at, buf[..len], at + len);
    if !chip.timedOut {
      ReadyTaken(t, at, buf[..len], at + len, chip, p0, busy0);
      AllProgrammed(old(chip.mem), t, at, buf[..len], at + len);
    }
    failed := chip.WaitReady();
  }

  lemma OnePage(m: seq<bv8>, t: seq<Op>, t1: seq<Op>, at: int, buf: seq<bv8>, b: int, n: int, end: int, chip: Chip,
                p: nat, busy: bool)
    requires 0 <= b && 0 < n && b + n <= |buf| && SoFar(t, at, buf[..b], end, chip, p, busy)
    requires WritesOut(t1, at + b, buf[b..b + n], end) && TakenBy(t1, chip, p + |t| / 2, busy || t != [])
    ensures SoFar(t + t1, at, buf[..b + n], end, chip, p, busy) && t1 != [] && |t1| % 2 == 0
    ensures Effect(m, t + t1) == Effect(Effect(m, t), t1)
  {
    hide WritesOut, Effect, TakenBy;
    WritesOutEven(t1, at + b, buf[b..b + n], end);
    WritesOutMore(t, at, buf[..b], t1, buf[b..b + n], end);
    TakenMore(t, t1, chip, p, busy);
    EffectTwice(m, t, t1);
    assert buf[..b] + buf[b..b + n] == buf[..b + n];
  }

  lemma MoreReady(chip: Chip, p: nat, q: nat, r: nat)
    ensures AllReady(chip, p, q) && AllReady(chip, q, r) ==> AllReady(chip, p, r)
  {
  }

  lemma NextPage(to: int, n: int, left: int)
    requires to >= 0 && left > 0 && n == if left < PAGE - to % PAGE then left else PAGE - to % PAGE
    ensures 0 < n <= left && to % PAGE + n <= PAGE && (n < left ==> (to + n) % PAGE == 0)
  {
  }

  // raspi_erase_sector
  method EraseOne(chip: Chip, offset: int) returns (failed: bool)
    requires chip.Valid() && 0 <= offset && !chip.locked
    modifies chip`mem, chip`wel, chip`wip, chip`polls, chip`trace, chip`timedOut
    ensures chip.Valid()
    ensures chip.timedOut == (old(chip.timedOut) || failed || chip.schedule(old(chip.polls) + 1) != Ready)
    ensures failed == (chip.schedule(old(chip.polls)) != Ready) && chip.polls == old(chip.polls) + if failed then 1
      else 2
    ensures chip.mem == if failed then old(chip.mem) else EraseSector(old(chip.mem), offset / SECTOR % chip.sectors)
  {
    hide EraseSector;
    failed := chip.WaitReady();
    if failed {
      return;
    }
    chip.WriteEnable();
    chip.SectorErase(offset);
    var late := chip.WaitReady();
    return false;
  }

  function RoundUp(n: int): int { (n + SECTOR - 1) / SECTOR * SECTOR }

  // n sectors from s on have been erased, beginning again where the chip ends.
  function Erased(m: seq<bv8>, s: int, n: nat, sectors: int): (m': seq<bv8>)
    requires sectors > 0
    ensures |m'| == |m|
  {
    if n == 0 then m else EraseSector(Erased(m, s, n - 1, sectors), (s + n - 1) % sectors)
  }

  // Erases every sector that [offset, offset + len) would reach if it began with
  // its first sector.  The results of the waits behind the erase commands do not
  // matter, but each of those in front of them must be good.  Nothing checks that
  // the sectors are on the chip.
  method Erase(chip: Chip, offset: int, len: int) returns (r: int)
    requires chip.Valid() && IsOffset(chip, offset) && len <= INT_MAX
    modifies chip
    ensures chip.Valid() && (old(chip.timedOut) ==> chip.timedOut)
    ensures r == 0 || (r == -1 && chip.timedOut)
    ensures len <= 0 ==> r == 0 && chip.mem == old(chip.mem) && chip.polls == old(chip.polls)
    ensures len > 0 && r == 0 ==> !chip.locked && chip.polls == old(chip.polls) + 1 + 2 * Sectors(len)
    ensures len > 0 && r == 0 ==>
      chip.mem == Erased(old(chip.mem), GetOffset(chip, offset) / SECTOR, Sectors(len), chip.sectors)
    ensures len > 0 && r != 0 ==>
      exists n: nat :: n < Sectors(len) &&
        chip.mem == Erased(old(chip.mem), GetOffset(chip, offset) / SECTOR, n, chip.sectors)
    ensures len > 0 ==> (r == 0 <==> ErasesAll(chip, old(chip.polls), len))
    // On the chip that is all of it, and nothing else.
    ensures len > 0 && Floor(GetOffset(chip, offset)) + RoundUp(len) <= |chip.mem| ==>
      Frame(old(chip.mem), chip.mem, Floor(GetOffset(chip, offset)), RoundUp(len))
    ensures len > 0 && Floor(GetOffset(chip, offset)) + RoundUp(len) <= |chip.mem| && r == 0 ==>
      Blank(chip.mem, Floor(GetOffset(chip, offset)), RoundUp(len))
  {
    hide Frame, Blank, EraseSector, RoundUp, Erased, Sectors, Floor;
    var offs := GetOffset(chip, offset);
    if len <= 0 {
      return 0;
    }
    ghost var s, m0 := offs / SECTOR, chip.mem;
    SectorCount(len);
    ErasedNone(m0, s, chip.sectors);
    ErasedRegion(m0, offs, 0, len, chip.sectors);
    var failed := chip.WaitReady();
    if failed {
      assert chip.mem == Erased(m0, s, 0, chip.sectors);
      return -1;
    }
    ghost var p0 := chip.polls;
    Unprotect(chip);
    var left := len;
    ghost var n: nat := 0;
    while left > 0
      invariant chip.Valid() && !chip.locked && (old(chip.timedOut) ==> chip.timedOut)
      invariant offs == GetOffset(chip, offset) + n * SECTOR && left == len - n * SECTOR && n <= Sectors(len)
      invariant left > 0 <==> n < Sectors(len)
      invariant chip.mem == Erased(m0, s, n, chip.sectors) && chip.polls == p0 + 2 * n
      invariant forall i :: 0 <= i < n ==> chip.schedule(p0 + 2 * i) == Ready
      decreases left
    {
      NextSector(GetOffset(chip, offset), n);
      failed := EraseOne(chip, offs);
      if failed {
        ErasedRegion(m0, GetOffset(chip, offset), n, len, chip.sectors);
        return -1;
      }
      ErasedMore(m0, s, n, chip.sectors);
      offs, left, n := offs + SECTOR, left - SECTOR, n + 1;
      MoreSectors(len, n);
    }
    ErasedRegion(m0, GetOffset(chip, offset), n, len, chip.sectors);
    r := 0;
  }

  // Every wait in front of an erase command is good.
  ghost predicate ErasesAll(chip: Chip, p: nat, len: int)
    requires len > 0
  {
    chip.schedule(p) == Ready && forall i: nat :: i < Sectors(len) ==> chip.schedule(p + 1 + 2 * i) == Ready
  }

  function Sectors(len: int): nat
    requires len > 0
  {
    (len + SECTOR - 1) / SECTOR
  }

  function Floor(x: int): int { x - x % SECTOR }

  lemma SectorCount(len: int)
    requires len > 0
    ensures Sectors(len) > 0
  {
  }

  lemma MoreSectors(len: int, n: nat)
    requires len > 0
    ensures len - n * SECTOR > 0 <==> n < Sectors(len)
  {
  }

  lemma NextSector(offs: int, n: nat)
    requires offs >= 0
    ensures (offs + n * SECTOR) / SECTOR == offs / SECTOR + n
  {
  }

  lemma ErasedNone(m: seq<bv8>, s: int, sectors: int)
    requires sectors > 0
    ensures Erased(m, s, 0, sectors) == m
  {
  }

  lemma ErasedMore(m: seq<bv8>, s: int, n: nat, sectors: int)
    requires sectors > 0
    ensures Erased(m, s, n + 1, sectors) == EraseSector(Erased(m, s, n, sectors), (s + n) % sectors)
  {
    hide EraseSector;
  }

  // Where the region is on the chip, the sectors erased so far are blank and
  // nothing outside the region has changed.
  lemma {:induction false} ErasedRegion(m: seq<bv8>, offs: int, n: nat, len: int, sectors: int)
    requires offs >= 0 && len > 0 && n <= Sectors(len) && sectors > 0 && |m| == sectors * SECTOR
    ensures Floor(offs) + RoundUp(len) <= |m| ==>
      Frame(m, Erased(m, offs / SECTOR, n, sectors), Floor(offs), RoundUp(len))
    ensures Floor(offs) + RoundUp(len) <= |m| ==> Blank(Erased(m, offs / SECTOR, n, sectors), Floor(offs), n * SECTOR)
    ensures n == Sectors(len) ==> n * SECTOR == RoundUp(len)
    decreases n
  {
    hide Frame, Blank, EraseSector;
    if n == 0 {
      NothingYet(m, Floor(offs), RoundUp(len));
      NothingBlank(m, Floor(offs));
    } else if Floor(offs) + RoundUp(len) <= |m| {
      ErasedRegion(m, offs, n - 1, len, sectors);
      var at := Floor(offs) + (n - 1) * SECTOR;
      SectorFits(offs, n - 1, len, sectors);
      ErasedMore(m, offs / SECTOR, n - 1, sectors);
      EraseMore(m, Erased(m, offs / SECTOR, n - 1, sectors), Erased(m, offs / SECTOR, n, sectors), Floor(offs), at,
        RoundUp(len));
    }
  }

  lemma SectorFits(offs: int, i: nat, len: int, sectors: int)
    requires offs >= 0 && len > 0 && i < Sectors(len) && sectors > 0 && Floor(offs) + RoundUp(len) <= sectors * SECTOR
    ensures var at := Floor(offs) + i * SECTOR;
            at % SECTOR == 0 && at / SECTOR == offs / SECTOR + i == (offs / SECTOR + i) % sectors
              && i * SECTOR + SECTOR <= RoundUp(len)
  {
    var at := Floor(offs) + i * SECTOR;
    assert i * SECTOR + SECTOR <= Sectors(len) * SECTOR == RoundUp(len);
    assert at == (offs / SECTOR + i) * SECTOR;
    SmallMod(offs / SECTOR + i, sectors);
  }

  lemma NothingBlank(m: seq<bv8>, a: int)
    ensures Blank(m, a, 0)
  {
  }

  lemma SmallMod(x: int, n: int)
    requires 0 <= x < n
    ensures x % n == x
  {
  }

  lemma EraseMore(m: seq<bv8>, m1: seq<bv8>, m2: seq<bv8>, a: int, offs: int, n: int)
    requires Frame(m, m1, a, n) && a <= offs && offs - a + SECTOR <= n && offs % SECTOR == 0
    requires m2 == EraseSector(m1, offs / SECTOR) || m2 == m1
    ensures Frame(m, m2, a, n)
    ensures Blank(m1, a, offs - a) && m2 == EraseSector(m1, offs / SECTOR) ==> Blank(m2, a, offs - a + SECTOR)
  {
    EraseSectorBlanks(m1, offs);
  }

  // raspi_read, 32 bytes at a time.
  method Read(chip: Chip, offset: int, len: int) returns (r: int, buf: seq<bv8>)
    requires chip.Valid() && IsOffset(chip, offset) && len <= INT_MAX
    modifies chip`wip, chip`polls, chip`timedOut
    ensures chip.Valid() && (old(chip.timedOut) ==> chip.timedOut)
    ensures len <= 0 ==> r == 0
    ensures len > 0 ==> r == len || (r == -1 && chip.timedOut)
    ensures r > 0 ==> |buf| == len && (old(chip.timedOut) == chip.timedOut)
    ensures r > 0 <==> len > 0 && chip.schedule(old(chip.polls)) == Ready
    ensures len > 0 ==> chip.polls == old(chip.polls) + 1
    ensures r > 0 && GetOffset(chip, offset) + len <= |chip.mem| ==>
      buf == chip.mem[GetOffset(chip, offset)..GetOffset(chip, offset) + len]
  {
    hide RegByte;
    buf := [];
    var from := GetOffset(chip, offset);
    if len <= 0 {
      return 0, [];
    }
    var failed := chip.WaitReady();
    if failed {
      return -1, [];
    }
    r := 0;
    ghost var at := from;
    while r < len
      invariant chip.Valid() && !chip.wip && chip.timedOut == old(chip.timedOut) && chip.mem == old(chip.mem)
        && chip.polls == old(chip.polls) + 1
      invariant 0 <= r <= len && |buf| == r && (r < len ==> from == at + r)
      invariant at + len <= |chip.mem| ==> buf == chip.mem[at..at + r]
    {
      var n := if len - r <= MORE then len - r else MORE;
      var data := chip.ReadData(from, n);
      var regs := Pack(data);
      var piece := Unpack(regs, n);
      buf := buf + piece;
      if n == len - r {
        r := len;
      } else {
        r := r + MORE;
        from := from + MORE;
      }
    }
  }

  // ---- raspi_erase_write ----

  lemma BlankThenProgrammed(m: seq<bv8>, m': seq<bv8>, a: int, data: seq<bv8>)
    requires Blank(m, a, |data|) && Programmed(m, m', a, data) && 0 <= a && a + |data| <= |m|
    ensures m'[a..a + |data|] == data
  {
    forall k | 0 <= k < |data|
      ensures m'[a + k] == data[k]
    {
      assert m[a + k] == 0xFF && m'[a + k] == m[a + k] & data[a + k - a];
    }
  }

  lemma SpliceMore(m: seq<bv8>, m1: seq<bv8>, m2: seq<bv8>, a: int, d: seq<bv8>, e: seq<bv8>)
    requires Spliced(m, m1, a, d) && Spliced(m1, m2, a + |d|, e)
    ensures Spliced(m, m2, a, d + e)
  {
    forall i | 0 <= i < |m|
      ensures m2[i] == if a <= i < a + |d + e| then (d + e)[i - a] else m[i]
    {
      assert m1[i] == if a <= i < a + |d| then d[i - a] else m[i];
    }
  }

  lemma SpliceNothing(m: seq<bv8>, a: int)
    requires 0 <= a <= |m|
    ensures Spliced(m, m, a, [])
  {
  }

  // A whole sector rewritten with a piece of it replaced is a splice.
  lemma SectorSpliced(m: seq<bv8>, m': seq<bv8>, base: int, block: seq<bv8>, p: int, e: seq<bv8>)
    requires 0 <= base && base + SECTOR <= |m| && Frame(m, m', base, SECTOR)
    requires 0 <= p && p + |e| <= SECTOR
    requires block == m[base..base + SECTOR][..p] + e + m[base..base + SECTOR][p + |e|..]
    requires m'[base..base + SECTOR] == block
    ensures Spliced(m, m', base + p, e)
  {
    forall i | 0 <= i < |m|
      ensures m'[i] == if base + p <= i < base + p + |e| then e[i - base - p] else m[i]
    {
      if base <= i < base + SECTOR { assert m'[i] == block[i - base]; }
    }
  }

  lemma FrameTwice(m: seq<bv8>, m1: seq<bv8>, m2: seq<bv8>, a: int, n: int)
    requires Frame(m, m1, a, n) && Frame(m1, m2, a, n)
    ensures Frame(m, m2, a, n)
  {
  }

  lemma FrameSpliced(m: seq<bv8>, m': seq<bv8>, a: int, e: seq<bv8>)
    requires 0 <= a && a + |e| <= |m| && Frame(m, m', a, |e|) && m'[a..a + |e|] == e
    ensures Spliced(m, m', a, e)
  {
    forall i | 0 <= i < |m|
      ensures m'[i] == if a <= i < a + |e| then e[i - a] else m[i]
    {
      if a <= i < a + |e| { assert m'[i] == m'[a..a + |e|][i - a]; }
    }
  }

  lemma RoundUpSector()
    ensures RoundUp(SECTOR) == SECTOR
  {
  }

  lemma OneSector(chip: Chip, p: nat)
    ensures Sectors(SECTOR) == 1
    ensures ErasesAll(chip, p, SECTOR) <==> chip.schedule(p) == Ready && chip.schedule(p + 1) == Ready
  {
    assert Sectors(SECTOR) == 1;
    if ErasesAll(chip, p, SECTOR) { assert chip.schedule(p + 1 + 2 * 0) == Ready; }
  }

  lemma RoundUpWhole(n: int)
    requires n % SECTOR == 0
    ensures RoundUp(n) == n
  {
  }

  // The k-th sector from s on, beginning again where the chip ends.
  function SectorAt(s: int, k: int, sectors: int): int
    requires sectors > 0
  {
    (s + k) % sectors
  }

  // Nothing outside n sectors from s on has changed.
  ghost predicate Confined(m: seq<bv8>, m': seq<bv8>, s: int, n: int, sectors: int)
    requires sectors > 0
  {
    && |m'| == |m|
    && forall i {:trigger m'[i]} :: 0 <= i < |m| && m'[i] != m[i] ==>
      exists k {:trigger SectorAt(s, k, sectors)} :: 0 <= k < n && i / SECTOR == SectorAt(s, k, sectors)
  }

  lemma Unconfined(m: seq<bv8>, s: int, n: int, sectors: int)
    requires sectors > 0
    ensures Confined(m, m, s, n, sectors)
  {
  }

  lemma ConfinedMore(m: seq<bv8>, m1: seq<bv8>, m2: seq<bv8>, s: int, n: int, s': int, n': int, sectors: int)
    requires sectors > 0 && Confined(m, m1, s, n, sectors) && Confined(m1, m2, s', n', sectors)
    requires s <= s' && s' + n' <= s + n
    ensures Confined(m, m2, s, n, sectors)
  {
    forall i {:trigger m2[i]} | 0 <= i < |m| && m2[i] != m[i]
      ensures exists k {:trigger SectorAt(s, k, sectors)} :: 0 <= k < n && i / SECTOR == SectorAt(s, k, sectors)
    {
      if m2[i] != m1[i] {
        var k :| 0 <= k < n' && i / SECTOR == SectorAt(s', k, sectors);
        assert SectorAt(s, k + s' - s, sectors) == SectorAt(s', k, sectors);
      }
    }
  }

  lemma {:induction false} ErasedConfined(m: seq<bv8>, s: int, n: nat, sectors: int)
    requires sectors > 0
    ensures Confined(m, Erased(m, s, n, sectors), s, n, sectors)
  {
    if n > 0 {
      var m1 := Erased(m, s, n - 1, sectors);
      ErasedConfined(m, s, n - 1, sectors);
      assert SectorAt(s, n - 1, sectors) == (s + n - 1) % sectors;
      assert Confined(m, m1, s, n, sectors);
    }
  }

  lemma ErasedWithin(m: seq<bv8>, m': seq<bv8>, s: int, n: int, sectors: int)
    requires sectors > 0 && exists j: nat :: j <= n && m' == Erased(m, s, j, sectors)
    ensures Confined(m, m', s, n, sectors)
  {
    var j: nat :| j <= n && m' == Erased(m, s, j, sectors);
    ErasedConfined(m, s, j, sectors);
  }

  lemma FrameConfined(m: seq<bv8>, m': seq<bv8>, a: int, n: int, sectors: int)
    requires Frame(m, m', a, n) && a >= 0 && a % SECTOR == 0 && n % SECTOR == 0 && a + n <= |m| == sectors * SECTOR
    requires sectors > 0
    ensures Confined(m, m', a / SECTOR, n / SECTOR, sectors)
  {
    forall i {:trigger m'[i]} | 0 <= i < |m| && m'[i] != m[i]
      ensures exists k {:trigger SectorAt(a / SECTOR, k, sectors)} ::
        0 <= k < n / SECTOR && i / SECTOR == SectorAt(a / SECTOR, k, sectors)
    {
      var k := i / SECTOR - a / SECTOR;
      assert 0 <= k < n / SECTOR && 0 <= i / SECTOR < sectors;
      SmallMod(i / SECTOR, sectors);
      assert SectorAt(a / SECTOR, k, sectors) == i / SECTOR;
    }
  }

  // The number of sectors that [offs, offs + len) reaches.
  function Span(offs: int, len: int): int {
    if len <= 0 then 0 else (offs + len - 1) / SECTOR - offs / SECTOR + 1
  }

  lemma SpanInside(at: int, len: int, offs: int, n: int)
    requires 0 <= at <= offs && 0 < n && offs + n <= at + len
    ensures at / SECTOR <= offs / SECTOR && offs / SECTOR + Span(offs, n) <= at / SECTOR + Span(at, len)
    ensures n % SECTOR == 0 && offs % SECTOR == 0 ==> Span(offs, n) == n / SECTOR
    ensures n <= SECTOR - offs % SECTOR ==> Span(offs, n) == 1
  {
  }

  // Erase and rewrite the sector at `base` with `block`, and check it.
  method RewriteSector(chip: Chip, base: int, block: seq<bv8>) returns (r: int)
    requires chip.Valid() && 0 <= base <= INT_MAX && base % SECTOR == 0 && |block| == SECTOR
    modifies chip
    ensures chip.Valid() && (old(chip.timedOut) ==> chip.timedOut)
    // -3: the sector was not erased; -4: nothing was written; -2: what is there is
    // not the block, or could not be read.
    ensures r == 0 || r == -2 || r == -3 || r == -4
    ensures r == -3 <==> !ErasesAll(chip, old(chip.polls), SECTOR)
    ensures r == -4 <==>
      && ErasesAll(chip, old(chip.polls), SECTOR)
      && (base + SECTOR > |chip.mem| || chip.schedule(old(chip.polls) + 3) != Ready)
    ensures r == 0 ==> base + SECTOR <= |chip.mem| && chip.mem[base..base + SECTOR] == block
    ensures r == 0 ==> Frame(old(chip.mem), chip.mem, base, SECTOR)
    ensures base + SECTOR <= |chip.mem| && !chip.timedOut ==> r == 0
    ensures Confined(old(chip.mem), chip.mem, base / SECTOR, 1, chip.sectors)
  {
    hide Frame, Blank, Programmed, WritesOut, RoundUp, Confined, Erased;
    RoundUpSector();
    OneSector(chip, chip.polls);
    r := Erase(chip, base, SECTOR);
    ErasedWithin(old(chip.mem), chip.mem, base / SECTOR, 1, chip.sectors);
    if r != 0 {
      return -3;
    }
    ghost var m1 := chip.mem;
    var written;
    ghost var t;
    written, t := Write(chip, block, base, SECTOR);
    if written != SECTOR {
      return -4;
    }
    assert block[..SECTOR] == block;
    ghost var m2 := chip.mem;
    FrameConfined(m1, m2, base, SECTOR, chip.sectors);
    ConfinedMore(old(chip.mem), m1, m2, base / SECTOR, 1, base / SECTOR, 1, chip.sectors);
    FrameTwice(old(chip.mem), m1, m2, base, SECTOR);
    var got, temp := Read(chip, base, SECTOR);
    if got != SECTOR {
      return -2;
    }
    if !chip.timedOut { BlankThenProgrammed(m1, m2, base, block); }
    if block != temp {
      return -2;
    }
    return 0;
  }

  // malloc: `grants` is what it will say to each call, `asked` how many there
  // were.
  method Malloc(grants: nat -> bool, asked: nat) returns (ok: bool)
    ensures ok == grants(asked)
  {
    ok := grants(asked);
  }

  // A piece that does not fill its sector: read, merge, erase, write, check.
  method MergePiece(chip: Chip, buf: seq<bv8>, offs: int, len: int, grants: nat -> bool, asked: nat)
    returns (r: int, n: int)
    requires chip.Valid() && 0 <= offs <= INT_MAX && 0 < len <= |buf|
    modifies chip
    ensures chip.Valid() && (old(chip.timedOut) ==> chip.timedOut)
    ensures n == if len < SECTOR - offs % SECTOR then len else SECTOR - offs % SECTOR
    ensures r == 0 || r == -1 || r == -2 || r == -3 || r == -4
    ensures r == -1 <==> !grants(asked) || !grants(asked + 1)
    ensures r == 0 ==> Spliced(old(chip.mem), chip.mem, offs, buf[..n])
    ensures offs < |chip.mem| && !chip.timedOut && r != -1 ==> r == 0
    ensures Confined(old(chip.mem), chip.mem, offs / SECTOR, 1, chip.sectors)
  {
    hide Frame, Spliced, Confined;
    Unconfined(chip.mem, offs / SECTOR, 1, chip.sectors);
    n := if len < SECTOR - offs % SECTOR then len else SECTOR - offs % SECTOR;
    var block := Malloc(grants, asked);
    if !block {
      return -1, n;
    }
    var temp := Malloc(grants, asked + 1);
    if !temp {
      return -1, n;
    }
    var blockaddr := offs - offs % SECTOR;
    SectorInside(offs, chip.sectors);
    var got, old_bytes := Read(chip, blockaddr, SECTOR);
    if got != SECTOR {
      return -2, n;
    }
    var piece := offs % SECTOR;
    var merged := old_bytes[..piece] + buf[..n] + old_bytes[piece + n..];
    r := RewriteSector(chip, blockaddr, merged);
    if r == 0 {
      SectorSpliced(old(chip.mem), chip.mem, blockaddr, merged, piece, buf[..n]);
    }
  }

  lemma SectorInside(offs: int, sectors: int)
    requires 0 <= offs
    ensures (offs - offs % SECTOR) % SECTOR == 0 && 0 <= offs - offs % SECTOR <= offs
    ensures offs < sectors * SECTOR ==> offs - offs % SECTOR + SECTOR <= sectors * SECTOR
    ensures (offs - offs % SECTOR) / SECTOR == offs / SECTOR
  {
  }

  // Whole sectors at once: erase, write, check sector by sector.
  method WholeBlocks(chip: Chip, buf: seq<bv8>, offs: int, n: int, grants: nat -> bool, asked: nat) returns (r: int)
    requires chip.Valid() && 0 <= offs <= INT_MAX && offs % SECTOR == 0 && 0 < n == |buf| <= INT_MAX && n % SECTOR == 0
    modifies chip
    ensures chip.Valid() && (old(chip.timedOut) ==> chip.timedOut)
    ensures r == 0 || r == -1 || r == -2
    ensures r == -1 <==>
      || !grants(asked) || !ErasesAll(chip, old(chip.polls), n) || offs + n > |chip.mem|
      || chip.schedule(old(chip.polls) + 1 + 2 * Sectors(n)) != Ready
    ensures r == 0 ==> Spliced(old(chip.mem), chip.mem, offs, buf)
    ensures offs + n <= |chip.mem| && !chip.timedOut && grants(asked) ==> r == 0
    ensures Confined(old(chip.mem), chip.mem, offs / SECTOR, n / SECTOR, chip.sectors)
  {
    hide Frame, Spliced, Blank, Programmed, WritesOut, RoundUp, Confined, Erased;
    RoundUpWhole(n);
    Unconfined(chip.mem, offs / SECTOR, n / SECTOR, chip.sectors);
    var temp := Malloc(grants, asked);
    if !temp {
      return -1;
    }
    r := Erase(chip, offs, n);
    ErasedWithin(old(chip.mem), chip.mem, offs / SECTOR, n / SECTOR, chip.sectors);
    if r != 0 {
      return -1;
    }
    ghost var m1 := chip.mem;
    var written;
    ghost var t;
    written, t := Write(chip, buf, offs, n);
    if written != n {
      return -1;
    }
    assert buf[..n] == buf;
    FrameTwice(old(chip.mem), m1, chip.mem, offs, n);
    FrameConfined(m1, chip.mem, offs, n, chip.sectors);
    ConfinedMore(old(chip.mem), m1, chip.mem, offs / SECTOR, n / SECTOR, offs / SECTOR, n / SECTOR, chip.sectors);
    if !chip.timedOut { BlankThenProgrammed(m1, chip.mem, offs, buf); }
    ghost var m2 := chip.mem;
    r := CheckBlocks(chip, buf, offs, n);
    if r == 0 { FrameSpliced(old(chip.mem), m2, offs, buf); }
  }

  // Read back what was written, sector by sector.
  method CheckBlocks(chip: Chip, buf: seq<bv8>, offs: int, n: int) returns (r: int)
    requires chip.Valid() && 0 <= offs && offs + n <= |chip.mem| && 0 < n == |buf| <= INT_MAX && n % SECTOR == 0
    requires !chip.timedOut ==> chip.mem[offs..offs + n] == buf
    modifies chip`wip, chip`polls, chip`timedOut
    ensures chip.Valid() && (old(chip.timedOut) ==> chip.timedOut)
    ensures r == 0 || r == -2
    ensures r == 0 ==> chip.mem[offs..offs + n] == buf
    ensures !chip.timedOut ==> r == 0
  {
    var i := 0;
    while i < n / SECTOR
      invariant 0 <= i <= n / SECTOR && chip.Valid() && chip.mem == old(chip.mem)
        && (old(chip.timedOut) ==> chip.timedOut)
      invariant chip.mem[offs..offs + i * SECTOR] == buf[..i * SECTOR]
      invariant !chip.timedOut ==> chip.mem[offs..offs + n] == buf
    {
      BlockInside(n, i);
      var got, block := Read(chip, offs + i * SECTOR, SECTOR);
      if got != SECTOR {
        return -2;
      }
      if !chip.timedOut { SameBlock(chip.mem, offs, buf, i * SECTOR); }
      if buf[i * SECTOR..i * SECTOR + SECTOR] != block {
        return -2;
      }
      OneMoreBlock(chip.mem, offs, buf, i * SECTOR);
      i := i + 1;
    }
    assert i * SECTOR == n;
    return 0;
  }

  lemma BlockInside(n: int, i: int)
    requires n % SECTOR == 0 && 0 <= i < n / SECTOR
    ensures 0 <= i * SECTOR && i * SECTOR + SECTOR <= n
  {
  }

  lemma SameBlock(m: seq<bv8>, offs: int, buf: seq<bv8>, k: int)
    requires 0 <= offs && offs + |buf| <= |m| && 0 <= k && k + SECTOR <= |buf|
    requires m[offs..offs + |buf|] == buf
    ensures m[offs + k..offs + k + SECTOR] == buf[k..k + SECTOR]
  {
    var x, y, whole := m[offs + k..offs + k + SECTOR], buf[k..k + SECTOR], m[offs..offs + |buf|];
    forall j | 0 <= j < SECTOR
      ensures x[j] == y[j]
    {
      assert whole[k + j] == m[offs + (k + j)];
    }
  }

  lemma OneMoreBlock(m: seq<bv8>, offs: int, buf: seq<bv8>, k: int)
    requires 0 <= offs && offs + |buf| <= |m| && 0 <= k && k + SECTOR <= |buf|
    requires m[offs..offs + k] == buf[..k] && m[offs + k..offs + k + SECTOR] == buf[k..k + SECTOR]
    ensures m[offs..offs + (k + SECTOR)] == buf[..k + SECTOR]
  {
    assert m[offs..offs + (k + SECTOR)] == m[offs..offs + k] + m[offs + k..offs + k + SECTOR];
  }

  method EraseWrite(chip: Chip, buf: seq<bv8>, offset: int, len: int, grants: nat -> bool)
    returns (r: int, ghost asked: nat)
    requires chip.Valid() && IsOffset(chip, offset) && len <= |buf| && len <= INT_MAX
    modifies chip
    ensures chip.Valid()
    ensures len < 0 || len > Size(chip) - 0xa0000 ==> r == -1 && chip.mem == old(chip.mem)
    ensures len == 0 ==> r == 0 && chip.mem == old(chip.mem)
    ensures r == 0 && len > 0 ==> Spliced(old(chip.mem), chip.mem, GetOffset(chip, offset), buf[..len])
    ensures 0 <= len <= Size(chip) - RESERVED && GetOffset(chip, offset) + len <= Size(chip) ==>
      r == 0 || chip.timedOut || exists i :: 0 <= i < asked && !grants(i)
    // Whatever the result, only sectors that the range reaches have changed;
    // beyond the end of the chip those at its beginning stand for them.
    ensures Confined(old(chip.mem), chip.mem, GetOffset(chip, offset) / SECTOR, Span(GetOffset(chip, offset), len),
                     chip.sectors)
  {
    hide Spliced, Confined, Span;
    asked := 0;
    var k: nat := 0;
    var offs := GetOffset(chip, offset);
    Unconfined(chip.mem, offs / SECTOR, Span(offs, len), chip.sectors);
    var maxSize := Size(chip) - RESERVED;
    // The comparison is unsigned: a negative length is a huge one.
    if len < 0 || len > maxSize {
      return -1, 0;
    }
    ghost var at := offs;
    var left, b := len, 0;
    if at <= |chip.mem| { SpliceNothing(chip.mem, at); }
    while left > 0
      invariant chip.Valid() && 0 <= left == len - b && 0 <= b <= len && offs == at + b
      invariant b == 0 ==> chip.mem == old(chip.mem)
      invariant b > 0 || at <= |chip.mem| ==> Spliced(old(chip.mem), chip.mem, at, buf[..b])
      invariant Confined(old(chip.mem), chip.mem, at / SECTOR, Span(at, len), chip.sectors)
      invariant asked == k
    {
      SplicedBounds(old(chip.mem), chip.mem, at, buf[..b], b > 0);
      ghost var m1 := chip.mem;
      var n;
      r, n, k := NextPart(chip, buf, b, offs, left, grants, k);
      asked := k;
      SpanInside(at, len, offs, n);
      ConfinedMore(old(chip.mem), m1, chip.mem, at / SECTOR, Span(at, len), offs / SECTOR, Span(offs, n),
        chip.sectors);
      if r != 0 {
        return;
      }
      JoinPieces(old(chip.mem), m1, chip.mem, at, buf, b, n);
      b, offs, left := b + n, offs + n, left - n;
    }
    r := 0;
  }

  // The rest of a sector, or as many whole ones as there are.
  method NextPart(chip: Chip, buf: seq<bv8>, b: int, offs: int, left: int, grants: nat -> bool, asked: nat)
    returns (r: int, n: int, more: nat)
    requires chip.Valid() && 0 <= offs <= INT_MAX && 0 <= b && 0 < left <= INT_MAX && b + left <= |buf|
    modifies chip
    ensures chip.Valid() && (old(chip.timedOut) ==> chip.timedOut) && 0 < n <= left
    ensures more == asked + (if offs % SECTOR != 0 || left < SECTOR then 2 else 1)
    ensures r == 0 ==> Spliced(old(chip.mem), chip.mem, offs, buf[b..b + n])
    ensures offs + left <= |chip.mem| && !chip.timedOut && (forall i :: asked <= i < more ==> grants(i)) ==> r == 0
    ensures Confined(old(chip.mem), chip.mem, offs / SECTOR, Span(offs, n), chip.sectors)
  {
    hide Spliced, Confined, Span;
    if offs % SECTOR != 0 || left < SECTOR {
      r, n := MergePiece(chip, buf[b..], offs, left, grants, asked);
      more := asked + 2;
      assert buf[b..][..n] == buf[b..b + n];
    } else {
      n := left - left % SECTOR;
      r := WholeBlocks(chip, buf[b..b + n], offs, n, grants, asked);
      more := asked + 1;
    }
    SpanInside(offs, n, offs, n);
  }

  lemma SplicedBounds(m: seq<bv8>, m': seq<bv8>, a: int, d: seq<bv8>, known: bool)
    requires known ==> Spliced(m, m', a, d)
    ensures known ==> |m'| == |m| && a + |d| <= |m|
  {
  }

  lemma JoinPieces(m: seq<bv8>, m1: seq<bv8>, m2: seq<bv8>, at: int, buf: seq<bv8>, b: int, n: int)
    requires 0 <= at && 0 <= b && 0 <= n && b + n <= |buf|
    requires b > 0 || at <= |m1| ==> Spliced(m, m1, at, buf[..b])
    requires Spliced(m1, m2, at + b, buf[b..b + n])
    ensures Spliced(m, m2, at, buf[..b + n])
  {
    assert buf[..b] + buf[b..b + n] == buf[..b + n];
    SpliceMore(m, m1, m2, at, buf[..b], buf[b..b + n]);
  }
}
