// common/cmd_rootfs.c: resetting the writable root filesystem by putting an
// end-of-filesystem mark behind the squashfs image.

module Rootfs {
  import opened Nor
  import Raspi
  import Crc

  const CFG_KERNEL_OFFSET: int := 0x40000
  const CFG_MAX_ROOTFS_OFFSET: int := 0xFA0000
  const MAX_OFFSET: int := CFG_MAX_ROOTFS_OFFSET - SECTOR
  const IMAGE_HEADER: int := 64
  const SQUASHFS_HEADER: int := 96
  // The part of the squashfs header that is looked at: up to and including
  // bytes_used.
  const SQUASHFS_USED: int := 48
  const JFFS2_NODE: int := 12
  const SQUASHFS_MAGIC: int := 0x73717368
  const JFFS2_MAGIC_BITMASK: int := 0x1985

  function Name(): seq<bv8> {
    // "MIPS OpenWrt"
    [0x4d, 0x49, 0x50, 0x53, 0x20, 0x4f, 0x70, 0x65, 0x6e, 0x57, 0x72, 0x74]
  }

  function EofMark(): seq<bv8> {
    [0xde, 0xad, 0xc0, 0xde]
  }

  function Value(b: bv8): (v: int)
    ensures 0 <= v < 256
  {
    b as int
  }

  function Le16(s: seq<bv8>): int
    requires |s| == 2
  {
    Value(s[0]) + 0x100 * Value(s[1])
  }

  function Le32(s: seq<bv8>): (v: int)
    requires |s| == 4
    ensures 0 <= v < 0x1_0000_0000
  {
    Le16(s[..2]) + 0x1_0000 * Le16(s[2..])
  }

  function Be32(s: seq<bv8>): (v: int)
    requires |s| == 4
    ensures 0 <= v < 0x1_0000_0000
  {
    Le32([s[3], s[2], s[1], s[0]])
  }

  function Le64(s: seq<bv8>): (v: int)
    requires |s| == 8
    ensures 0 <= v < 0x1_0000_0000_0000_0000
  {
    Le32(s[..4]) + 0x1_0000_0000 * Le32(s[4..])
  }

  function Word(s: seq<bv8>): bv32
    requires |s| == 4
  {
    (s[0] as bv32) | ((s[1] as bv32) << 8) | ((s[2] as bv32) << 16) | ((s[3] as bv32) << 24)
  }

  function At(m: seq<bv8>, a: int, n: int): (s: seq<bv8>)
    requires 0 <= a && 0 <= n && a + n <= |m|
    ensures |s| == n
  {
    m[a..a + n]
  }

  // What rootfs_func finds: an error code, or 1 or 0 and the sector to mark.
  datatype Finding = Finding(code: int, squashfs: int, offset: int)

  predicate BigEnough(m: seq<bv8>) {
    |m| >= CFG_MAX_ROOTFS_OFFSET
  }

  function Examine(m: seq<bv8>): (f: Finding)
    requires BigEnough(m)
    ensures f.code >= 0 ==> f.code <= 1 && 0 <= f.squashfs <= MAX_OFFSET
    ensures f.code >= 0 ==> 0 <= f.offset <= MAX_OFFSET && f.offset % SECTOR == 0
  {
    var ih := At(m, CFG_KERNEL_OFFSET, IMAGE_HEADER);
    if ih[32..44] != Name() then Finding(-1, 0, 0)
    else
      var kernelEnd := (CFG_KERNEL_OFFSET + Be32(ih[12..16])) % 0x1_0000_0000;
      var sq := (kernelEnd + IMAGE_HEADER) % 0x1_0000_0000;
      if sq > MAX_OFFSET then Finding(-2, 0, 0)
      else if Le32(At(m, sq, 4)) != SQUASHFS_MAGIC then Finding(-3, sq, 0)
      else ExamineNode(m, sq, Le64(At(m, sq + 40, 8)))
  }

  function NodeOffset(sq: int, size: int): int {
    ((sq + size) % 0x1_0000_0000 + SECTOR - 1) % 0x1_0000_0000 / SECTOR * SECTOR
  }

  function ExamineNode(m: seq<bv8>, sq: int, size: int): (f: Finding)
    requires BigEnough(m) && 0 <= sq <= MAX_OFFSET && 0 <= size
    ensures f.squashfs == sq && f.code <= 1
    ensures f.code >= 0 ==> 0 <= f.offset <= MAX_OFFSET && f.offset % SECTOR == 0
  {
    if (sq + size) % 0x1_0000_0000_0000_0000 > MAX_OFFSET then Finding(-4, sq, 0)
    else
      var offset := NodeOffset(sq, size);
      if offset > MAX_OFFSET then Finding(-5, sq, offset)
      else
        var node := At(m, offset, JFFS2_NODE);
        if node[..4] == EofMark() then Finding(1, sq, offset)
        else if Le16(node[..2]) != JFFS2_MAGIC_BITMASK then Finding(-6, sq, offset)
        else if Crc.Divide(0, node[..8]) != Word(node[8..]) then Finding(-7, sq, offset)
        else Finding(0, sq, offset)
  }

  function WriteBuf(): (b: seq<bv8>)
    ensures |b| == 16 && b[..4] == EofMark()
  {
    EofMark() + EofMark() + EofMark() + EofMark()
  }

  // The flash after write_eof: the sector is blank but for the marks.
  ghost predicate Marked(m: seq<bv8>, m': seq<bv8>, offset: int) {
    && Frame(m, m', offset, SECTOR)
    && 0 <= offset && offset + SECTOR <= |m|
    && m'[offset..offset + 16] == WriteBuf() && Blank(m', offset + 16, SECTOR - 16)
  }

  lemma RoundUp16()
    ensures Raspi.RoundUp(16) == SECTOR
  {
  }

  lemma MarkWritten(m: seq<bv8>, m1: seq<bv8>, m2: seq<bv8>, offset: int)
    requires 0 <= offset && offset + SECTOR <= |m|
    requires Frame(m, m1, offset, SECTOR) && Blank(m1, offset, SECTOR) && Programmed(m1, m2, offset, WriteBuf())
    ensures Marked(m, m2, offset)
  {
    hide WriteBuf;
    BlankHere(m1, offset, SECTOR, 16);
    Raspi.BlankThenProgrammed(m1, m2, offset, WriteBuf());
  }

  lemma BlankHere(m: seq<bv8>, a: int, n: int, k: int)
    requires Blank(m, a, n) && k <= n
    ensures Blank(m, a, k)
  {
  }

  method WriteEof(chip: Chip, offset: int)
    requires chip.Valid() && BigEnough(chip.mem) && 0 <= offset <= MAX_OFFSET && offset % SECTOR == 0
    modifies chip
    ensures chip.Valid() && BigEnough(chip.mem) && (old(chip.timedOut) ==> chip.timedOut)
    ensures Frame(old(chip.mem), chip.mem, offset, SECTOR)
    ensures !chip.timedOut ==> Marked(old(chip.mem), chip.mem, offset)
  {
    hide Frame, Blank, Programmed, Marked, Raspi.RoundUp, Raspi.WritesOut, WriteBuf, EofMark;
    RoundUp16();
    var failed := Raspi.Erase(chip, offset, 16);
    ghost var m1 := chip.mem;
    var rc;
    ghost var t;
    rc, t := Raspi.Write(chip, WriteBuf(), offset, 16);
    assert WriteBuf()[..16] == WriteBuf();
    if rc == 16 { FrameInside(old(chip.mem), m1, chip.mem, offset); }
    if !chip.timedOut { MarkWritten(old(chip.mem), m1, chip.mem, offset); }
  }

  lemma FrameInside(m: seq<bv8>, m1: seq<bv8>, m2: seq<bv8>, offset: int)
    requires Frame(m, m1, offset, SECTOR) && Frame(m1, m2, offset, 16)
    ensures Frame(m, m2, offset, SECTOR)
  {
  }

  lemma SubRead(m: seq<bv8>, s: seq<bv8>, a: int, n: int, k: int, j: int)
    requires 0 <= a && 0 <= n && a + n <= |m| && s == m[a..a + n] && 0 <= k && 0 <= j && k + j <= n
    ensures s[k..k + j] == At(m, a + k, j)
  {
    var x, y := s[k..k + j], At(m, a + k, j);
    forall i | 0 <= i < j
      ensures x[i] == y[i]
    {
      assert s[k + i] == m[a + (k + i)];
    }
  }

  // The buffer read from flash; stack contents where the read failed.
  method ReadHeader(chip: Chip, offset: int, n: int) returns (s: seq<bv8>)
    requires chip.Valid() && 0 <= offset && 0 < n && offset + n <= |chip.mem| && offset + n <= Raspi.INT_MAX
    modifies chip`wip, chip`polls, chip`timedOut
    ensures chip.Valid() && (old(chip.timedOut) ==> chip.timedOut) && |s| == n
    ensures !chip.timedOut ==> s == At(chip.mem, offset, n)
  {
    var r, bytes := Raspi.Read(chip, offset, n);
    if r == n {
      s := bytes;
    } else {
      s := *;
      if |s| != n { s := seq(n, _ => 0); }
    }
  }

  // Only with a chip that answers in time is what the code has in its buffers
  // what is in the flash.
  method RootfsFunc(chip: Chip, check: int) returns (rc: int)
    requires chip.Valid() && BigEnough(chip.mem)
    modifies chip
    ensures chip.Valid() && BigEnough(chip.mem) && (old(chip.timedOut) ==> chip.timedOut)
    ensures check != 0 || rc < 0 ==> chip.mem == old(chip.mem)
    // Whatever happens, no more than one sector below the end is touched.
    ensures exists o :: 0 <= o <= MAX_OFFSET && o % SECTOR == 0 && Frame(old(chip.mem), chip.mem, o, SECTOR)
    ensures !chip.timedOut ==> rc == Examine(old(chip.mem)).code
    ensures !chip.timedOut ==>
      if rc >= 0 && check == 0 then Marked(old(chip.mem), chip.mem, Examine(old(chip.mem)).offset)
      else chip.mem == old(chip.mem)
  {
    hide Frame, Marked, Name, EofMark, Le32, Le64, Be32, Le16, Word, Crc.Divide, NodeOffset, Examine, ExamineNode;
    ghost var m := chip.mem;
    ExamineIs(m);
    Raspi.NothingYet(m, 0, SECTOR);
    var ih := ReadHeader(chip, CFG_KERNEL_OFFSET, IMAGE_HEADER);
    if ih[32..44] != Name() {
      return -1;
    }
    var offset := (CFG_KERNEL_OFFSET + Be32(ih[12..16])) % 0x1_0000_0000;
    offset := (offset + IMAGE_HEADER) % 0x1_0000_0000;
    if offset > MAX_OFFSET {
      return -2;
    }
    ghost var sq := offset;
    var sh := ReadHeader(chip, offset, SQUASHFS_HEADER);
    if !chip.timedOut { SubRead(m, sh, sq, SQUASHFS_HEADER, 0, 4); SubRead(m, sh, sq, SQUASHFS_HEADER, 40, 8); }
    if Le32(sh[0..4]) != SQUASHFS_MAGIC {
      return -3;
    }
    var size := Le64(sh[40..48]);
    ExamineNodeIs(m, sq, size);
    if (offset + size) % 0x1_0000_0000_0000_0000 > MAX_OFFSET {
      return -4;
    }
    offset := NodeOffset(offset, size);
    if offset > MAX_OFFSET {
      return -5;
    }
    NodeOffsetAligned(sq, size);
    var node := ReadHeader(chip, offset, JFFS2_NODE);
    if node[..4] == EofMark() {
      if check == 0 {
        WriteEof(chip, offset);
      }
      return 1;
    }
    if Le16(node[..2]) != JFFS2_MAGIC_BITMASK {
      return -6;
    }
    var crc := Crc.Crc32Jffs2(node[..8]);
    if crc != Word(node[8..]) {
      return -7;
    }
    if check == 0 {
      WriteEof(chip, offset);
    }
    return 0;
  }

  lemma ExamineIs(m: seq<bv8>)
    requires BigEnough(m)
    ensures var ih := At(m, CFG_KERNEL_OFFSET, IMAGE_HEADER);
      var sq := ((CFG_KERNEL_OFFSET + Be32(ih[12..16])) % 0x1_0000_0000 + IMAGE_HEADER) % 0x1_0000_0000;
      && (ih[32..44] != Name() ==> Examine(m) == Finding(-1, 0, 0))
      && (ih[32..44] == Name() && sq > MAX_OFFSET ==> Examine(m) == Finding(-2, 0, 0))
      && (ih[32..44] == Name() && sq <= MAX_OFFSET ==>
            if Le32(At(m, sq, 4)) != SQUASHFS_MAGIC then Examine(m) == Finding(-3, sq, 0)
            else Examine(m) == ExamineNode(m, sq, Le64(At(m, sq + 40, 8))))
  {
    hide Name, Le32, Le64, Be32, ExamineNode;
  }

  lemma ExamineNodeIs(m: seq<bv8>, sq: int, size: int)
    requires BigEnough(m) && 0 <= sq <= MAX_OFFSET && 0 <= size
    ensures var offset := NodeOffset(sq, size);
      && ((sq + size) % 0x1_0000_0000_0000_0000 > MAX_OFFSET ==> ExamineNode(m, sq, size) == Finding(-4, sq, 0))
      && ((sq + size) % 0x1_0000_0000_0000_0000 <= MAX_OFFSET && offset > MAX_OFFSET ==>
            ExamineNode(m, sq, size) == Finding(-5, sq, offset))
      && ((sq + size) % 0x1_0000_0000_0000_0000 <= MAX_OFFSET && 0 <= offset <= MAX_OFFSET ==>
            var node := At(m, offset, JFFS2_NODE);
            ExamineNode(m, sq, size) ==
              if node[..4] == EofMark() then Finding(1, sq, offset)
              else if Le16(node[..2]) != JFFS2_MAGIC_BITMASK then Finding(-6, sq, offset)
              else if Crc.Divide(0, node[..8]) != Word(node[8..]) then Finding(-7, sq, offset)
              else Finding(0, sq, offset))
  {
    hide EofMark, Le16, Word, Crc.Divide, NodeOffset;
  }

  lemma NodeOffsetAligned(sq: int, size: int)
    ensures NodeOffset(sq, size) % SECTOR == 0 && NodeOffset(sq, size) >= 0
  {
  }

  // ---- what a reset leaves ----

  function ImageSize(m: seq<bv8>): int
    requires BigEnough(m) && Examine(m).code >= 0
  {
    Le64(At(m, Examine(m).squashfs + 40, 8))
  }

  function KernelSize(m: seq<bv8>): int
    requires BigEnough(m)
  {
    Be32(At(m, CFG_KERNEL_OFFSET, IMAGE_HEADER)[12..16])
  }

  // The sums of the two headers stay below 2^32 and 2^64.
  ghost predicate Plausible(m: seq<bv8>)
    requires BigEnough(m)
  {
    && Examine(m).code >= 0
    && CFG_KERNEL_OFFSET + KernelSize(m) + IMAGE_HEADER < 0x1_0000_0000
    && Examine(m).squashfs + ImageSize(m) < 0x1_0000_0000_0000_0000
  }

  // The marked sector lies wholly behind the squashfs image and below the end
  // of the root filesystem.
  lemma SectorBehindImage(m: seq<bv8>)
    requires BigEnough(m) && Plausible(m)
    ensures var f := Examine(m);
            CFG_KERNEL_OFFSET + IMAGE_HEADER <= f.squashfs && f.squashfs + ImageSize(m) <= f.offset
            && f.offset < f.squashfs + ImageSize(m) + SECTOR && f.offset + SECTOR <= CFG_MAX_ROOTFS_OFFSET
  {
    hide Name, EofMark, Le16, Word, Crc.Divide, Le32, Be32, Le64, NodeOffset, Examine, ExamineNode;
    ExamineIs(m);
    ExamineNodeIs(m, Examine(m).squashfs, ImageSize(m));
    NodeOffsetNear(Examine(m).squashfs, ImageSize(m));
  }

  lemma NodeOffsetNear(sq: int, size: int)
    requires 0 <= sq && 0 <= size && sq + size <= MAX_OFFSET
    ensures sq + size <= NodeOffset(sq, size) < sq + size + SECTOR
  {
  }

  // The two headers are outside the marked sector.
  ghost predicate HeadersOutside(f: Finding) {
    && (CFG_KERNEL_OFFSET + IMAGE_HEADER <= f.offset || f.offset + SECTOR <= CFG_KERNEL_OFFSET)
    && (f.squashfs + SQUASHFS_USED <= f.offset || f.offset + SECTOR <= f.squashfs)
  }

  lemma SameAt(m: seq<bv8>, m': seq<bv8>, offset: int, a: int, n: int)
    requires Frame(m, m', offset, SECTOR) && 0 <= a && 0 <= n && a + n <= |m|
    requires a + n <= offset || offset + SECTOR <= a
    ensures At(m', a, n) == At(m, a, n)
  {
  }

  lemma MarkedFrame(m: seq<bv8>, m': seq<bv8>, offset: int)
    requires Marked(m, m', offset)
    ensures Frame(m, m', offset, SECTOR) && |m'| == |m| && offset + 16 <= |m|
    ensures 0 <= offset && At(m', offset, JFFS2_NODE)[..4] == EofMark() && m'[offset..offset + 16] == WriteBuf()
  {
    assert At(m', offset, JFFS2_NODE)[..4] == m'[offset..offset + 16][..4];
  }

  // After a reset every later examination finds the mark in the same place.
  lemma StaysCleared(m: seq<bv8>, m': seq<bv8>)
    requires BigEnough(m) && Examine(m).code >= 0 && HeadersOutside(Examine(m))
    requires Marked(m, m', Examine(m).offset)
    ensures BigEnough(m') && Examine(m') == Finding(1, Examine(m).squashfs, Examine(m).offset)
  {
    hide Name, EofMark, Le16, Word, Crc.Divide, Le32, Be32, Le64, NodeOffset, Examine, ExamineNode, Marked, Frame,
      At;
    var f := Examine(m);
    MarkedFrame(m, m', f.offset);
    ExamineIs(m);
    SameAt(m, m', f.offset, CFG_KERNEL_OFFSET, IMAGE_HEADER);
    SameAt(m, m', f.offset, f.squashfs, 4);
    SameAt(m, m', f.offset, f.squashfs + 40, 8);
    ExamineIs(m');
    NodeOffsetAligned(f.squashfs, Le64(At(m, f.squashfs + 40, 8)));
    ExamineNodeIs(m, f.squashfs, Le64(At(m, f.squashfs + 40, 8)));
    ExamineNodeIs(m', f.squashfs, Le64(At(m, f.squashfs + 40, 8)));
  }

  // An image that covers the fields of its header is enough for that.
  lemma CoveredHeadersOutside(m: seq<bv8>)
    requires BigEnough(m) && Plausible(m) && ImageSize(m) >= SQUASHFS_USED
    ensures HeadersOutside(Examine(m))
  {
    hide Examine, ImageSize, Plausible;
    SectorBehindImage(m);
  }

  // How far behind the start of the squashfs image the marked sector begins.
  function Gap(f: Finding): int { f.offset - f.squashfs }

  // The reset lasts exactly if the marks do not reach into the squashfs
  // header, or clear its size field so that what is read as a huge number
  // wraps around to the same sector.
  predicate Lasts(gap: int) {
    gap >= SQUASHFS_USED || gap <= 26
  }

  // The size field as it reads where its lowest three bytes are marks.
  const WRAPPED_SIZE: int := 0x1_0000_0000_0000_0000 - 2178899

  // A sector that can be marked does not begin in the squashfs magic: none of
  // its bytes begins a node or a mark.
  lemma GapPastMagic(m: seq<bv8>)
    requires BigEnough(m) && Plausible(m)
    ensures Gap(Examine(m)) >= 4
  {
    hide Name, Crc.Divide, Word, Le32, Be32, Le64, Le16, NodeOffset, Examine, ExamineNode, EofMark, Value;
    var f := Examine(m);
    SectorBehindImage(m);
    if f.offset < f.squashfs + 4 {
      ExamineIs(m);
      ExamineNodeIs(m, f.squashfs, ImageSize(m));
      NodeOffsetAligned(f.squashfs, ImageSize(m));
      SharedByte(m, f.squashfs, f.offset);
      MagicBytes(At(m, f.squashfs, 4));
      NodeBytes(At(m, f.offset, JFFS2_NODE));
    }
  }

  lemma SharedByte(m: seq<bv8>, sq: int, offset: int)
    requires 0 <= sq <= offset < sq + 4 && offset + JFFS2_NODE <= |m| && sq + 4 <= |m|
    ensures At(m, sq, 4)[offset - sq] == At(m, offset, JFFS2_NODE)[0]
  {
  }

  lemma MagicBytes(s: seq<bv8>)
    requires |s| == 4
    ensures Le32(s) == SQUASHFS_MAGIC ==> forall k :: 0 <= k < 4 ==> 0x68 <= Value(s[k]) <= 0x73
  {
    hide Value;
    if Le32(s) == SQUASHFS_MAGIC {
      var a, b, c, d := Value(s[0]), Value(s[1]), Value(s[2]), Value(s[3]);
      Digit(a, b + 0x100 * (c + 0x100 * d), 0x68, 0x737173);
      Digit(b, c + 0x100 * d, 0x73, 0x7371);
      Digit(c, d, 0x71, 0x73);
    }
  }

  lemma Digit(x: int, y: int, r: int, q: int)
    requires 0 <= x < 0x100 && 0 <= r < 0x100 && x + 0x100 * y == r + 0x100 * q
    ensures x == r && y == q
  {
  }

  lemma NodeBytes(s: seq<bv8>)
    requires |s| == JFFS2_NODE
    ensures s[..4] == EofMark() || Le16(s[..2]) == JFFS2_MAGIC_BITMASK ==> Value(s[0]) >= 0x85
  {
    hide Value;
    Values();
    assert s[..4] == EofMark() ==> s[0] == s[..4][0];
  }

  // The next examination finds the mark in the same place if and only if the
  // reset lasts; whether it does can be told beforehand.
  lemma ResetLasts(m: seq<bv8>, m': seq<bv8>)
    requires BigEnough(m) && Plausible(m) && Marked(m, m', Examine(m).offset)
    ensures BigEnough(m')
    ensures Examine(m') == Finding(1, Examine(m).squashfs, Examine(m).offset) <==> Lasts(Gap(Examine(m)))
    ensures Gap(Examine(m)) == 27 ==> Examine(m') == ExamineNode(m, Examine(m).squashfs, WRAPPED_SIZE)
    ensures 28 <= Gap(Examine(m)) < SQUASHFS_USED ==> Examine(m').code == -4
  {
    hide Name, EofMark, Le16, Word, Crc.Divide, Le32, Be32, Le64, NodeOffset, Examine, ExamineNode, Marked, Frame,
      At, Blank, WriteBuf;
    var f := Examine(m);
    MarkedFrame(m, m', f.offset);
    SectorBehindImage(m);
    if Gap(f) >= SQUASHFS_USED {
      StaysCleared(m, m');
    } else {
      ExamineIs(m);
      SameAt(m, m', f.offset, CFG_KERNEL_OFFSET, IMAGE_HEADER);
      ExamineIs(m');
      GapPastMagic(m);
      SameAt(m, m', f.offset, f.squashfs, 4);
      NewSize(m, m', f.squashfs, f.offset);
      var size := Le64(At(m', f.squashfs + 40, 8));
      ExamineNodeIs(m', f.squashfs, size);
      NodeOffsetAligned(f.squashfs, size);
      WhereNext(f.squashfs, f.offset, size);
      if Gap(f) == 27 { SameNode(m, m', f.offset, f.squashfs, size); }
    }
  }

  // The header's bytes, where the marked sector covers them.
  function Covered(k: int): bv8 {
    if k >= 16 then 0xff else if k % 4 == 0 then 0xde else if k % 4 == 1 then 0xad else if k % 4 == 2 then 0xc0
      else 0xde
  }

  lemma MarkedBytes(m: seq<bv8>, m': seq<bv8>, offset: int, k: int)
    requires Marked(m, m', offset) && 0 <= k < SECTOR
    ensures m'[offset + k] == Covered(k)
  {
    hide Frame, WriteBuf;
    MarkedFrame(m, m', offset);
    if k < 16 {
      hide Blank;
      MarkByte(k);
      assert m'[offset..offset + 16][k] == WriteBuf()[k];
    } else {
      assert m'[offset + k] == 0xff;
    }
  }

  lemma MarkByte(k: int)
    requires 0 <= k < 16
    ensures WriteBuf()[k] == Covered(k)
  {
  }

  lemma Values()
    ensures Value(0xde) == 0xde && Value(0xad) == 0xad && Value(0xc0) == 0xc0 && Value(0xff) == 0xff
  {
  }

  // Another sector than the marked one is examined as before.
  lemma SameNode(m: seq<bv8>, m': seq<bv8>, offset: int, sq: int, size: int)
    requires BigEnough(m) && 0 <= sq <= MAX_OFFSET && 0 <= size && Frame(m, m', offset, SECTOR) && 0 <= offset
      && offset % SECTOR == 0
    requires (sq + size) % 0x1_0000_0000_0000_0000 > MAX_OFFSET || NodeOffset(sq, size) != offset
    ensures |m'| == |m| && ExamineNode(m', sq, size) == ExamineNode(m, sq, size)
  {
    hide EofMark, Le16, Word, Crc.Divide, NodeOffset, At;
    NodeOffsetAligned(sq, size);
    var other := NodeOffset(sq, size);
    if (sq + size) % 0x1_0000_0000_0000_0000 <= MAX_OFFSET && other <= MAX_OFFSET {
      Sectors(other, offset);
      SameAt(m, m', offset, other, JFFS2_NODE);
    }
  }

  lemma Sectors(a: int, b: int)
    requires a % SECTOR == 0 && b % SECTOR == 0 && a != b
    ensures a + SECTOR <= b || b + SECTOR <= a
  {
  }

  // What is read as the size afterwards: 2^64 less a little, as long as only
  // the lowest three bytes are marks.
  lemma NewSize(m: seq<bv8>, m': seq<bv8>, sq: int, offset: int)
    requires Marked(m, m', offset) && sq + 4 <= offset < sq + 48 && 0 <= sq <= MAX_OFFSET && sq + 48 <= |m'|
    ensures var size, gap := Le64(At(m', sq + 40, 8)), offset - sq;
            && (gap <= 24 ==> size == 0x1_0000_0000_0000_0000 - 1)
            && (gap == 25 ==> size == 0x1_0000_0000_0000_0000 - 34)
            && (gap == 26 ==> size == 0x1_0000_0000_0000_0000 - 8512)
            && (gap == 27 ==> size == WRAPPED_SIZE)
            && (gap >= 28 ==> 0x80_0000_0000_0000 <= size < 0x1_0000_0000_0000_0000 - 0x2000_0000)
  {
    hide Marked, Value, Le64;
    var s, gap := At(m', sq + 40, 8), offset - sq;
    if gap >= 32 {
      TopByte(m, m', sq, offset);
    } else {
      forall k | 0 <= k < 8
        ensures s[k] == Covered(40 + k - gap)
      {
        MarkedBytes(m, m', offset, 40 + k - gap);
      }
      SizeOf(s, gap);
    }
  }

  lemma SizeOf(s: seq<bv8>, gap: int)
    requires |s| == 8 && 4 <= gap < 32 && forall k :: 0 <= k < 8 ==> s[k] == Covered(40 + k - gap)
    ensures gap <= 24 ==> Le64(s) == 0x1_0000_0000_0000_0000 - 1
    ensures gap == 25 ==> Le64(s) == 0x1_0000_0000_0000_0000 - 34
    ensures gap == 26 ==> Le64(s) == 0x1_0000_0000_0000_0000 - 8512
    ensures gap == 27 ==> Le64(s) == WRAPPED_SIZE
    ensures gap >= 28 ==> 0x80_0000_0000_0000 <= Le64(s) < 0x1_0000_0000_0000_0000 - 0x2000_0000
  {
    hide Value;
    Values();
    Le64Bytes(s);
    assert s[7] == 0xff && s[6] == Covered(46 - gap) && s[5] == Covered(45 - gap) && s[4] == Covered(44 - gap);
    assert s[3] == Covered(43 - gap) && s[2] == Covered(42 - gap) && s[1] == Covered(41 - gap)
      && s[0] == Covered(40 - gap);
  }

  lemma Le64Bytes(s: seq<bv8>)
    requires |s| == 8
    ensures Le64(s) == Value(s[0]) + 0x100 * Value(s[1]) + 0x1_0000 * Value(s[2]) + 0x100_0000 * Value(s[3])
                       + 0x1_0000_0000 * Value(s[4]) + 0x100_0000_0000 * Value(s[5]) + 0x1_0000_0000_0000 * Value(s[6])
                       + 0x100_0000_0000_0000 * Value(s[7])
  {
    hide Value;
  }

  // Where the size field is read as 2^64 - c, the next sector looked at is the
  // one behind squashfs - c.
  lemma WhereNext(sq: int, offset: int, size: int)
    requires CFG_KERNEL_OFFSET + IMAGE_HEADER <= sq && sq + 4 <= offset < sq + 48 && offset <= MAX_OFFSET
      && offset % SECTOR == 0
    requires var gap := offset - sq;
            && (gap <= 24 ==> size == 0x1_0000_0000_0000_0000 - 1)
            && (gap == 25 ==> size == 0x1_0000_0000_0000_0000 - 34)
            && (gap == 26 ==> size == 0x1_0000_0000_0000_0000 - 8512)
            && (gap == 27 ==> size == WRAPPED_SIZE)
            && (gap >= 28 ==> 0x80_0000_0000_0000 <= size < 0x1_0000_0000_0000_0000 - 0x2000_0000)
    ensures offset - sq <= 26 ==> (sq + size) % 0x1_0000_0000_0000_0000 <= MAX_OFFSET && NodeOffset(sq, size) == offset
    ensures offset - sq == 27 ==> (sq + size) % 0x1_0000_0000_0000_0000 > MAX_OFFSET || NodeOffset(sq, size) != offset
    ensures offset - sq >= 28 ==> (sq + size) % 0x1_0000_0000_0000_0000 > MAX_OFFSET
  {
    hide NodeOffset;
    var gap := offset - sq;
    if gap >= 28 {
      StaysLarge(sq, size);
    } else {
      var c := if gap <= 24 then 1 else if gap == 25 then 34 else if gap == 26 then 8512 else 2178899;
      WrapsTo(sq, size, c);
      if gap <= 26 {
        RoundsTo(sq - c, offset);
      } else if sq >= c {
        RoundsBelow(sq - c, offset);
      }
    }
  }

  lemma StaysLarge(sq: int, size: int)
    requires 0 <= sq <= MAX_OFFSET && 0x80_0000_0000_0000 <= size < 0x1_0000_0000_0000_0000 - 0x2000_0000
    ensures (sq + size) % 0x1_0000_0000_0000_0000 == sq + size > MAX_OFFSET
  {
  }

  lemma WrapsTo(sq: int, size: int, c: int)
    requires 0 < c < 0x1000_0000 && 0 <= sq <= MAX_OFFSET && size == 0x1_0000_0000_0000_0000 - c
    ensures sq >= c ==> (sq + size) % 0x1_0000_0000_0000_0000 == sq - c
    ensures sq >= c ==> NodeOffset(sq, size) == (sq - c + SECTOR - 1) / SECTOR * SECTOR
    ensures sq < c ==> (sq + size) % 0x1_0000_0000_0000_0000 > MAX_OFFSET
  {
    if sq >= c {
      assert sq + size == sq - c + 0x1_0000_0000 * 0x1_0000_0000;
      assert (sq + size) % 0x1_0000_0000 == sq - c;
      assert 0 <= sq - c + SECTOR - 1 < 0x1_0000_0000;
    }
  }

  lemma RoundsTo(x: int, o: int)
    requires 0 <= x <= o < x + SECTOR && o % SECTOR == 0
    ensures (x + SECTOR - 1) / SECTOR * SECTOR == o
  {
  }

  lemma RoundsBelow(x: int, o: int)
    requires 0 <= x && x + SECTOR <= o
    ensures (x + SECTOR - 1) / SECTOR * SECTOR != o
  {
  }

  lemma TopByte(m: seq<bv8>, m': seq<bv8>, sq: int, offset: int)
    requires Marked(m, m', offset) && sq + 32 <= offset < sq + 48 && 0 <= sq && sq + 48 <= |m'| && sq <= MAX_OFFSET
    ensures 0x80_0000_0000_0000 <= Le64(At(m', sq + 40, 8)) < 0x1_0000_0000_0000_0000 - 0x2000_0000
  {
    hide Frame, Marked, Le64, Value, Covered;
    var s := At(m', sq + 40, 8);
    var k := sq + 47 - offset;
    MarkedBytes(m, m', offset, k);
    assert s[7] == Covered(k);
    CoveredValue(k);
    Le64Top(s);
  }

  lemma CoveredValue(k: int)
    requires 0 <= k < 16
    ensures 0xad <= Value(Covered(k)) <= 0xde
  {
    hide Value;
    Values();
  }

  lemma Le64Top(s: seq<bv8>)
    requires |s| == 8
    ensures Value(s[7]) * 0x100_0000_0000_0000 <= Le64(s) < (Value(s[7]) + 1) * 0x100_0000_0000_0000
  {
    hide Value;
    Le64Bytes(s);
  }

  // ---- the command ----

  // rootfs reset, then any number of checks.
  method ResetThenCheck(chip: Chip, checks: nat) returns (rc: int, codes: seq<int>)
    requires chip.Valid() && BigEnough(chip.mem)
    modifies chip
    ensures chip.Valid() && |codes| == checks
    ensures !chip.timedOut ==> rc == Examine(old(chip.mem)).code
    ensures !chip.timedOut && rc >= 0 ==> Marked(old(chip.mem), chip.mem, Examine(old(chip.mem)).offset)
    ensures var m := old(chip.mem);
            !chip.timedOut && rc >= 0 && (HeadersOutside(Examine(m)) || (Plausible(m) && Lasts(Gap(Examine(m))))) ==>
              forall i :: 0 <= i < checks ==> codes[i] == 1
    ensures var m := old(chip.mem);
            !chip.timedOut && rc >= 0 && Plausible(m) && !Lasts(Gap(Examine(m))) && Gap(Examine(m)) != 27 ==>
              forall i :: 0 <= i < checks ==> codes[i] < 0
    ensures !chip.timedOut && rc >= 0 && Plausible(old(chip.mem)) && Gap(Examine(old(chip.mem))) == 27 ==>
      forall i :: 0 <= i < checks ==>
        codes[i] == ExamineNode(old(chip.mem), Examine(old(chip.mem)).squashfs, WRAPPED_SIZE).code
  {
    hide Marked, Examine, ExamineNode, HeadersOutside, Plausible, Lasts;
    ghost var m := chip.mem;
    rc := RootfsFunc(chip, 0);
    codes := [];
    ghost var m1, late := chip.mem, chip.timedOut;
    ghost var code1 := Examine(m1).code;
    if !late && rc >= 0 { Afterwards(m, m1); }
    while |codes| < checks
      invariant chip.Valid() && |codes| <= checks && chip.mem == m1 && BigEnough(m1) && (late ==> chip.timedOut)
      invariant !chip.timedOut ==> forall i :: 0 <= i < |codes| ==> codes[i] == code1
    {
      var code := RootfsFunc(chip, 1);
      codes := codes + [code];
    }
  }

  lemma Afterwards(m: seq<bv8>, m': seq<bv8>)
    requires BigEnough(m) && Examine(m).code >= 0 && Marked(m, m', Examine(m).offset)
    ensures BigEnough(m')
    ensures HeadersOutside(Examine(m)) || (Plausible(m) && Lasts(Gap(Examine(m)))) ==> Examine(m').code == 1
    ensures Plausible(m) && !Lasts(Gap(Examine(m))) && Gap(Examine(m)) != 27 ==> Examine(m').code < 0
    ensures Plausible(m) && Gap(Examine(m)) == 27 ==>
      Examine(m').code == ExamineNode(m, Examine(m).squashfs, WRAPPED_SIZE).code
  {
    hide Marked, Examine, ExamineNode, HeadersOutside, Plausible;
    MarkedFrame(m, m', Examine(m).offset);
    if HeadersOutside(Examine(m)) { StaysCleared(m, m'); }
    if Plausible(m) { ResetLasts(m, m'); GapPositive(m); }
  }

  lemma GapPositive(m: seq<bv8>)
    requires BigEnough(m) && Plausible(m)
    ensures Gap(Examine(m)) >= ImageSize(m) >= 0
  {
    SectorBehindImage(m);
  }

  // ---- a used partition ----

  // Byte i of a word, the low one first.
  function ByteOf(c: bv32, i: int): bv8
    requires 0 <= i < 4
  {
    ((if i == 0 then c else if i == 1 then c >> 8 else if i == 2 then c >> 16 else c >> 24) & 0xff) as bv8
  }

  lemma WordBytes(s: seq<bv8>, c: bv32)
    requires |s| == 4
    ensures c == Word(s) <==>
      s[0] == ByteOf(c, 0) && s[1] == ByteOf(c, 1) && s[2] == ByteOf(c, 2) && s[3] == ByteOf(c, 3)
  {
    FourBytes(s[0], s[1], s[2], s[3], c);
    assert s == [s[0], s[1], s[2], s[3]];
  }

  lemma FourBytes(a: bv8, b: bv8, d: bv8, e: bv8, c: bv32)
    ensures c == Word([a, b, d, e]) <==>
      a == ByteOf(c, 0) && b == ByteOf(c, 1) && d == ByteOf(c, 2) && e == ByteOf(c, 3)
  {
    hide Word, ByteOf;
    BytesOfWord(a, b, d, e);
    WordOfBytes(c);
  }

  lemma BytesOfWord(a: bv8, b: bv8, d: bv8, e: bv8)
    ensures var c := Word([a, b, d, e]);
      ByteOf(c, 0) == a && ByteOf(c, 1) == b && ByteOf(c, 2) == d && ByteOf(c, 3) == e
  {
  }

  lemma WordOfBytes(c: bv32)
    ensures Word([ByteOf(c, 0), ByteOf(c, 1), ByteOf(c, 2), ByteOf(c, 3)]) == c
  {
  }

  // A node with the jffs2 magic: it is good if and only if its last four bytes
  // are the remainder of the first eight, low byte first.
  lemma NodeExamined(m: seq<bv8>, sq: int, size: int, offset: int, node: seq<bv8>)
    requires BigEnough(m) && 0 <= sq <= MAX_OFFSET && 0 <= size && (sq + size) % 0x1_0000_0000_0000_0000 <= MAX_OFFSET
    requires offset == NodeOffset(sq, size) && 0 <= offset <= MAX_OFFSET && node == At(m, offset, JFFS2_NODE)
    requires node[0] == 0x85 && node[1] == 0x19
    ensures ExamineNode(m, sq, size) == Finding(0, sq, offset) <==>
      forall i :: 0 <= i < 4 ==> node[8 + i] == ByteOf(Crc.Divide(0, node[..8]), i)
    ensures ExamineNode(m, sq, size) == Finding(0, sq, offset) || ExamineNode(m, sq, size) == Finding(-7, sq, offset)
  {
    hide Word, Crc.Divide, NodeOffset, ExamineNode, ByteOf, At;
    ExamineNodeIs(m, sq, size);
    assert node[..4][0] == 0x85 && node[..2] == [0x85, 0x19];
    Jffs2Magic();
    var s, c := node[8..], Crc.Divide(0, node[..8]);
    assert s[0] == node[8] && s[1] == node[9] && s[2] == node[10] && s[3] == node[11];
    WordBytes(s, c);
    if c == Word(s) {
      forall i | 0 <= i < 4
        ensures node[8 + i] == ByteOf(c, i)
      {
        if i == 0 { } else if i == 1 { } else if i == 2 { } else { }
      }
    }
  }

  lemma Jffs2Magic()
    ensures Le16([0x85, 0x19]) == JFFS2_MAGIC_BITMASK
  {
  }

  const USED_SECTOR: int := 0x60000
  const USED_SQUASHFS: int := 0x4ffe2

  // The same kernel, a squashfs image of 0x8010 bytes, and behind it a jffs2
  // cleanmarker.
  function UsedByte(i: int): bv8 {
    if i == CFG_KERNEL_OFFSET + 14 then 0xff
    else if i == CFG_KERNEL_OFFSET + 15 then 0xa2
    else if CFG_KERNEL_OFFSET + 32 <= i < CFG_KERNEL_OFFSET + 44 then
      [0x4d, 0x49, 0x50, 0x53, 0x20, 0x4f, 0x70, 0x65, 0x6e, 0x57, 0x72, 0x74][i - CFG_KERNEL_OFFSET - 32]
    else if USED_SQUASHFS <= i < USED_SQUASHFS + 4 then [0x68, 0x73, 0x71, 0x73][i - USED_SQUASHFS]
    else if i == USED_SQUASHFS + 40 then 0x10
    else if i == USED_SQUASHFS + 41 then 0x80
    else if USED_SECTOR <= i < USED_SECTOR + JFFS2_NODE then CLEANMARKER[i - USED_SECTOR]
    else 0
  }

  const CLEANMARKER: seq<bv8> := [0x85, 0x19, 0x03, 0x20, 0x0c, 0x00, 0x00, 0x00, 0xb1, 0xb0, 0x1e, 0xe4]

  function UsedFlash(): (m: seq<bv8>)
    ensures |m| == CFG_MAX_ROOTFS_OFFSET && forall i :: 0 <= i < |m| ==> m[i] == UsedByte(i)
  {
    seq(CFG_MAX_ROOTFS_OFFSET, i => UsedByte(i))
  }

  lemma UsedSlice(a: int, s: seq<bv8>)
    requires 0 <= a && a + |s| <= CFG_MAX_ROOTFS_OFFSET && forall k :: 0 <= k < |s| ==> s[k] == UsedByte(a + k)
    ensures At(UsedFlash(), a, |s|) == s
  {
    hide UsedByte;
    var m := UsedFlash();
    forall k | 0 <= k < |s|
      ensures m[a..a + |s|][k] == s[k]
    {
      assert m[a + k] == UsedByte(a + k);
    }
  }

  lemma UsedSlices()
    ensures var m := UsedFlash();
      && At(m, CFG_KERNEL_OFFSET + 32, 12) == Name() && At(m, CFG_KERNEL_OFFSET + 12, 4) == [0, 0, 0xff, 0xa2]
      && At(m, USED_SQUASHFS, 4) == [0x68, 0x73, 0x71, 0x73]
      && At(m, USED_SQUASHFS + 40, 8) == [0x10, 0x80, 0, 0, 0, 0, 0, 0]
      && At(m, USED_SECTOR, JFFS2_NODE) == CLEANMARKER
  {
    hide UsedFlash, At;
    UsedSlice(CFG_KERNEL_OFFSET + 32, Name());
    UsedSlice(CFG_KERNEL_OFFSET + 12, [0, 0, 0xff, 0xa2]);
    UsedSlice(USED_SQUASHFS, [0x68, 0x73, 0x71, 0x73]);
    UsedSlice(USED_SQUASHFS + 40, [0x10, 0x80, 0, 0, 0, 0, 0, 0]);
    UsedSlice(USED_SECTOR, CLEANMARKER);
  }

  lemma UsedFlashExamined()
    ensures var m := UsedFlash();
            && BigEnough(m) && Plausible(m) && Examine(m) == Finding(0, USED_SQUASHFS, USED_SECTOR)
            && HeadersOutside(Examine(m))
  {
    hide UsedFlash, Examine, ExamineNode, Le32, Le64, Be32, Value, Crc.Divide, Word, NodeOffset, At, ByteOf, Name;
    var m := UsedFlash();
    ExamineIs(m);
    var ih := At(m, CFG_KERNEL_OFFSET, IMAGE_HEADER);
    UsedSlices();
    AtIs(m, CFG_KERNEL_OFFSET, IMAGE_HEADER);
    SubRead(m, ih, CFG_KERNEL_OFFSET, IMAGE_HEADER, 32, 12);
    SubRead(m, ih, CFG_KERNEL_OFFSET, IMAGE_HEADER, 12, 4);
    LostNumbers([0, 0, 0xff, 0xa2], [0x68, 0x73, 0x71, 0x73], [0x10, 0, 0, 0, 0, 0, 0, 0]);
    UsedNumbers([0x10, 0x80, 0, 0, 0, 0, 0, 0]);
    UsedOffset();
    NodeExamined(m, USED_SQUASHFS, 0x8010, USED_SECTOR, CLEANMARKER);
    assert CLEANMARKER[..8] == [0x85, 0x19, 0x03, 0x20, 0x0c, 0x00, 0x00, 0x00];
    CleanmarkerSum();
    CleanmarkerBytes();
  }

  lemma UsedNumbers(used: seq<bv8>)
    requires used == [0x10, 0x80, 0, 0, 0, 0, 0, 0]
    ensures Le64(used) == 0x8010
  {
    Le64Bytes(used);
  }

  lemma UsedOffset()
    ensures NodeOffset(USED_SQUASHFS, 0x8010) == USED_SECTOR
  {
  }

  lemma CleanmarkerBytes()
    ensures ByteOf(0xe41eb0b1, 0) == 0xb1 && ByteOf(0xe41eb0b1, 1) == 0xb0 && ByteOf(0xe41eb0b1, 2) == 0x1e
      && ByteOf(0xe41eb0b1, 3) == 0xe4
  {
  }

  lemma CleanmarkerSum()
    ensures Crc.Divide(0, [0x85, 0x19, 0x03, 0x20, 0x0c, 0x00, 0x00, 0x00]) == 0xe41eb0b1
  {
    hide Crc.DivideBits;
    Crc.KnownBytes();
    Crc.KnownZeros();
    var s := [0x85, 0x19, 0x03, 0x20, 0x0c, 0x00, 0x00, 0x00];
    assert Crc.Divide(0, s) == Crc.Divide(0x9dd277af, s[1..]);
    assert s[1..][1..] == s[2..] && s[2..][1..] == s[3..] && s[3..][1..] == s[4..] && s[4..][1..] == s[5..];
    assert s[5..][1..] == s[6..] && s[6..][1..] == s[7..] && s[7..][1..] == [];
    assert Crc.Divide(0x9dd277af, s[1..]) == Crc.Divide(0x229fc4ce, s[2..]);
    assert Crc.Divide(0x229fc4ce, s[2..]) == Crc.Divide(0xe5f721c9, s[3..]);
    assert Crc.Divide(0xe5f721c9, s[3..]) == Crc.Divide(0xd933adfd, s[4..]);
    assert Crc.Divide(0xd933adfd, s[4..]) == Crc.Divide(0xca63f127, s[5..]);
    assert Crc.Divide(0xca63f127, s[5..]) == Crc.Divide(0xa5c0d69a, s[6..]);
    assert Crc.Divide(0xa5c0d69a, s[6..]) == Crc.Divide(0x107fba8c, s[7..]);
  }

  // Here a reset marks the sector and returns 0, and every check behind it finds
  // the mark.
  method ResetUsed(chip: Chip, checks: nat) returns (rc: int, codes: seq<int>)
    requires chip.Valid() && chip.mem == UsedFlash()
    modifies chip
    ensures chip.Valid() && |codes| == checks
    ensures !chip.timedOut ==> rc == 0 && Marked(UsedFlash(), chip.mem, USED_SECTOR)
    ensures !chip.timedOut ==> forall i :: 0 <= i < checks ==> codes[i] == 1
  {
    hide UsedFlash, Examine, ExamineNode, Plausible, Lasts, Marked, HeadersOutside;
    UsedFlashExamined();
    rc, codes := ResetThenCheck(chip, checks);
  }

  // ---- a flash on which the reset is lost ----

  const LOST_SECTOR: int := 0x50000
  const LOST_SQUASHFS: int := LOST_SECTOR - 30

  // A kernel of 0xffa2 bytes, and behind it a squashfs image of 16 bytes by its
  // header, whose sector has been marked before.
  function LostByte(i: int): bv8 {
    if i == CFG_KERNEL_OFFSET + 14 then 0xff
    else if i == CFG_KERNEL_OFFSET + 15 then 0xa2
    else if CFG_KERNEL_OFFSET + 32 <= i < CFG_KERNEL_OFFSET + 44 then
      [0x4d, 0x49, 0x50, 0x53, 0x20, 0x4f, 0x70, 0x65, 0x6e, 0x57, 0x72, 0x74][i - CFG_KERNEL_OFFSET - 32]
    else if LOST_SQUASHFS <= i < LOST_SQUASHFS + 4 then [0x68, 0x73, 0x71, 0x73][i - LOST_SQUASHFS]
    else if LOST_SECTOR <= i < LOST_SECTOR + 4 then [0xde, 0xad, 0xc0, 0xde][i - LOST_SECTOR]
    else if i == LOST_SQUASHFS + 40 then 0x10
    else 0
  }

  function LostFlash(): (m: seq<bv8>)
    ensures |m| == CFG_MAX_ROOTFS_OFFSET && forall i :: 0 <= i < |m| ==> m[i] == LostByte(i)
  {
    seq(CFG_MAX_ROOTFS_OFFSET, i => LostByte(i))
  }

  lemma LostSlice(a: int, s: seq<bv8>)
    requires 0 <= a && a + |s| <= CFG_MAX_ROOTFS_OFFSET && forall k :: 0 <= k < |s| ==> s[k] == LostByte(a + k)
    ensures At(LostFlash(), a, |s|) == s
  {
    hide LostByte;
    var m := LostFlash();
    forall k | 0 <= k < |s|
      ensures m[a..a + |s|][k] == s[k]
    {
      assert m[a + k] == LostByte(a + k);
    }
  }

  lemma LostFlashExamined()
    ensures var m := LostFlash();
            BigEnough(m) && Plausible(m) && Examine(m) == Finding(1, LOST_SQUASHFS, LOST_SECTOR)
              && !Lasts(Gap(Examine(m)))
  {
    hide LostFlash, Examine, ExamineNode, Le32, Le64, Be32, Value, Crc.Divide, Word, NodeOffset, At;
    var m := LostFlash();
    ExamineIs(m);
    var ih := At(m, CFG_KERNEL_OFFSET, IMAGE_HEADER);
    LostSlice(CFG_KERNEL_OFFSET + 32, Name());
    LostSlice(CFG_KERNEL_OFFSET + 12, [0, 0, 0xff, 0xa2]);
    LostSlice(LOST_SQUASHFS, [0x68, 0x73, 0x71, 0x73]);
    LostSlice(LOST_SQUASHFS + 40, [0x10, 0, 0, 0, 0, 0, 0, 0]);
    LostSlice(LOST_SECTOR, EofMark());
    AtIs(m, CFG_KERNEL_OFFSET, IMAGE_HEADER);
    AtIs(m, LOST_SECTOR, JFFS2_NODE);
    SubRead(m, ih, CFG_KERNEL_OFFSET, IMAGE_HEADER, 32, 12);
    SubRead(m, ih, CFG_KERNEL_OFFSET, IMAGE_HEADER, 12, 4);
    SubRead(m, At(m, LOST_SECTOR, JFFS2_NODE), LOST_SECTOR, JFFS2_NODE, 0, 4);
    LostNumbers([0, 0, 0xff, 0xa2], [0x68, 0x73, 0x71, 0x73], [0x10, 0, 0, 0, 0, 0, 0, 0]);
    ExamineNodeIs(m, LOST_SQUASHFS, 16);
    LostOffset();
  }

  lemma AtIs(m: seq<bv8>, a: int, n: int)
    requires 0 <= a && 0 <= n && a + n <= |m|
    ensures At(m, a, n) == m[a..a + n]
  {
  }

  lemma LostNumbers(kernel: seq<bv8>, magic: seq<bv8>, used: seq<bv8>)
    requires kernel == [0, 0, 0xff, 0xa2] && magic == [0x68, 0x73, 0x71, 0x73] && used == [0x10, 0, 0, 0, 0, 0, 0, 0]
    ensures Be32(kernel) == 0xffa2 && Le32(magic) == SQUASHFS_MAGIC && Le64(used) == 16
  {
    Le64Bytes(used);
  }

  lemma LostOffset()
    ensures NodeOffset(LOST_SQUASHFS, 16) == LOST_SECTOR
  {
  }

  // Here a reset reports success, and every check behind it an error.
  method ResetLost(chip: Chip, checks: nat) returns (rc: int, codes: seq<int>)
    requires chip.Valid() && chip.mem == LostFlash()
    modifies chip
    ensures chip.Valid() && |codes| == checks
    ensures !chip.timedOut ==> rc == 1 && forall i :: 0 <= i < checks ==> codes[i] < 0
  {
    hide LostFlash, Examine, ExamineNode, Plausible, Lasts, Marked;
    LostFlashExamined();
    rc, codes := ResetThenCheck(chip, checks);
  }
}
