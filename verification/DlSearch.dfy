// The read-only half of malloc: looking through the bins.

module DlSearch {
  import opened Memory
  import opened LinkedLists
  import opened DlSizes
  import opened DlShape

  function HeadSize(m: Mem, p: int): int {
    var w := Get(m, p, SIZE);
    w - w % 4
  }

  lemma ListedSize(m: Mem, A: Arena, bins: seq<seq<int>>, home: map<int, int>, x: int)
    requires SearchInv(m, A, bins, home) && x in A.chunks
    ensures HeadSize(m, x) == A.chunks[x].size
  {
    assert Get(m, x, SIZE) == Head(A, x);
  }

  ghost predicate NoFitAfter(A: Arena, s: seq<int>, k: int, nb: int) {
    forall j :: k < j < |s| && j >= 0 ==> SizeIn(A, s[j]) < nb
  }

  // Where the traversal `victim = last(bin); victim != bin; victim = victim->bk`
  // stands: at the node in front of position k + 1.
  function NodeBefore(bins: seq<seq<int>>, i: int, k: int): int
    requires 0 <= i < |bins| && -1 <= k < |bins[i]|
  {
    if k >= 0 then bins[i][k] else BinAt(i)
  }

  lemma Walk(m: Mem, A: Arena, bins: seq<seq<int>>, home: map<int, int>, i: int, k: nat)
    requires SearchInv(m, A, bins, home) && 1 <= i < NAV && k < |bins[i]|
    ensures Get(m, bins[i][k], BK) == NodeBefore(bins, i, k - 1)
    ensures bins[i][k] in home && bins[i][k] in A.chunks && bins[i][k] >= LOW
    ensures HeadSize(m, bins[i][k]) == SizeIn(A, bins[i][k])
  {
    Neighbours(m, FD, BK, BinAt(i), bins[i]);
    var x := bins[i][k];
    assert x in bins[i] && x in home && A.Free(x);
    ListedSize(m, A, bins, home, x);
  }

  lemma LastNode(m: Mem, bins: seq<seq<int>>, home: map<int, int>, i: int)
    requires Lists(m, bins, home) && 1 <= i < NAV
    ensures Get(m, BinAt(i), BK) == NodeBefore(bins, i, |bins[i]| - 1)
    ensures Get(m, BinAt(i), FD) == BinAt(i) <==> bins[i] == []
  {
    Neighbours(m, FD, BK, BinAt(i), bins[i]);
    NodesApart(m, FD, BK, BinAt(i), bins[i]);
  }

  // Scan bin i from its smallest chunk for the first that is big enough.
  method ScanBin(m: Mem, nb: int, i: int,
                 ghost A: Arena, ghost bins: seq<seq<int>>, ghost home: map<int, int>)
    returns (victim: int, ghost k: int)
    requires SearchInv(m, A, bins, home) && 1 <= i < NAV
    ensures -1 <= k < |bins[i]| && victim == NodeBefore(bins, i, k)
    ensures NoFitAfter(A, bins[i], k, nb)
    ensures victim == BinAt(i) <==> k == -1
    ensures k >= 0 ==> SizeIn(A, victim) >= nb
  {
    hide SearchInv, Lists, Threads, Members, Shape, Tiled, KnowsPrev, Aligned, Coalesced, Tags, Heads, Feet, Backs,
      Homes, Listed, AllHomed, Blocks;
    SearchParts(m, A, bins, home);
    k := |bins[i]| - 1;
    LastNode(m, bins, home, i);
    victim := Get(m, BinAt(i), BK);
    if k >= 0 { Walk(m, A, bins, home, i, k); }
    while victim != BinAt(i)
      invariant -1 <= k < |bins[i]| && victim == NodeBefore(bins, i, k)
      invariant k >= 0 ==> victim in A.chunks && victim >= LOW && HeadSize(m, victim) == SizeIn(A, victim)
      invariant NoFitAfter(A, bins[i], k, nb)
      decreases k
    {
      assert k >= 0;
      var remainderSize := HeadSize(m, victim) - nb;
      if remainderSize >= 0 {
        return;
      }
      Walk(m, A, bins, home, i, k);
      victim := Get(m, victim, BK);
      k := k - 1;
      if k >= 0 { Walk(m, A, bins, home, i, k); }
    }
  }

  // Every chunk of a bin above the request's own fits.
  lemma HigherBinFits(A: Arena, bins: seq<seq<int>>, home: map<int, int>, nb: int, x: int)
    requires Tiled(A) && Homes(A, bins, home) && 0 <= nb && x in home && home[x] > BinIndex(nb) && home[x] >= 2
    ensures SizeIn(A, x) > nb
  {
    assert home[x] == BinIndex(SizeIn(A, x));
    assert A.Free(x) && x in A.chunks;
    if SizeIn(A, x) <= nb { BinIndexMonotone(SizeIn(A, x), nb); }
  }

  lemma LowerBinMisses(A: Arena, bins: seq<seq<int>>, home: map<int, int>, nb: int, x: int)
    requires Homes(A, bins, home) && 0 <= nb && x in home && 2 <= home[x] < BinIndex(nb)
    ensures SizeIn(A, x) < nb
  {
    assert home[x] == BinIndex(SizeIn(A, x));
    if SizeIn(A, x) >= nb { BinIndexMonotone(nb, SizeIn(A, x)); }
  }

  // The chunk found at position k of bin i is a best fit: everything behind it
  // is too small, everything before it in the bin is at least as large, lower
  // bins miss, and higher bins hold only larger chunks.
  lemma BestInBins(A: Arena, bins: seq<seq<int>>, home: map<int, int>, nb: int, i: int, k: nat, w: int)
    requires Homes(A, bins, home) && Members(bins, home) && 0 <= nb
    requires 2 <= i < NAV && k < |bins[i]| && NoFitAfter(A, bins[i], k, nb)
    requires forall x :: x in home && 2 <= home[x] < i ==> SizeIn(A, x) < nb
    requires w in home && home[w] >= 2 && SizeIn(A, w) >= nb
    requires Listed(A, home) && Tiled(A)
    ensures SizeIn(A, w) >= SizeIn(A, bins[i][k])
  {
    var j := home[w];
    assert bins[i][k] in bins[i] && bins[i][k] in home && home[bins[i][k]] == i;
    if j == i {
      var l :| 0 <= l < |bins[i]| && bins[i][l] == w;
    } else {
      assert j > i;
      if SizeIn(A, w) < SizeIn(A, bins[i][k]) {
        assert A.Free(w) && w in A.chunks;
        BinIndexMonotone(SizeIn(A, w), SizeIn(A, bins[i][k]));
      }
    }
  }

  // ---- the block-skipping search ----

  ghost predicate EmptyBins(bins: seq<seq<int>>, lo: int, hi: int)
    requires |bins| == NAV
  {
    forall j :: lo <= j < hi && 0 <= j < NAV ==> bins[j] == []
  }

  // A group whose bit is clear holds nothing.
  lemma ClearBlockEmpty(m: Mem, bins: seq<seq<int>>, b: nat)
    requires Blocks(m, bins) && 1 <= b < 32 && !Bit(Get(m, AV, SIZE), b)
    ensures EmptyBins(bins, 4 * b, 4 * b + 4)
  {
    forall j | 4 * b <= j < 4 * b + 4
      ensures bins[j] == []
    {
      assert j / 4 == b;
    }
  }

  lemma HighBlocksEmpty(m: Mem, bins: seq<seq<int>>, b: nat)
    requires Blocks(m, bins) && 1 <= b <= 32 && (b == 32 || Get(m, AV, SIZE) < Pow2(b))
    ensures EmptyBins(bins, 4 * b, NAV)
  {
    forall j | 4 * b <= j < NAV
      ensures bins[j] == []
    {
      NoBitFrom(Get(m, AV, SIZE), b, j / 4);
    }
  }

  // binblocks &= ~block
  lemma ClearBlock(m: Mem, bins: seq<seq<int>>, b: nat)
    requires Blocks(m, bins) && 0 <= b < 32 && EmptyBins(bins, 4 * b, 4 * b + 4)
    ensures Blocks(Set(m, AV, SIZE, ClearBit(Get(m, AV, SIZE), b)), bins)
  {
    var v := Get(m, AV, SIZE);
    forall i | 2 <= i < NAV && bins[i] != []
      ensures Bit(ClearBit(v, b), i / 4)
    {
      ClearBitBits(v, b, i / 4);
      assert i / 4 != b;
    }
  }

  // mark_binblock(i)
  lemma MarkBlock(m: Mem, bins: seq<seq<int>>, bins': seq<seq<int>>, i: int)
    requires Blocks(m, bins) && 2 <= i < NAV && |bins'| == NAV
    requires forall j :: 0 <= j < NAV && j != i ==> bins'[j] == bins[j]
    ensures Blocks(Set(m, AV, SIZE, SetBit(Get(m, AV, SIZE), i / 4)), bins')
  {
    var v := Get(m, AV, SIZE);
    WordIsPow();
    SetBitRange(v, i / 4, 32);
    forall j | 2 <= j < NAV && bins'[j] != []
      ensures Bit(SetBit(v, i / 4), j / 4)
    {
      SetBitBits(v, i / 4, j / 4);
    }
  }

  // do { ... } while (first(q) == q): clear the group's bit if the bins of the
  // group below startidx are empty as well.
  method ClearPartial(m: Mem, startidx: int, block: nat,
                      ghost A: Arena, ghost bins: seq<seq<int>>, ghost home: map<int, int>)
    returns (m': Mem)
    requires |bins| == NAV && Lists(m, bins, home) && Blocks(m, bins)
    requires 4 <= startidx < NAV && startidx / 4 == block
    requires EmptyBins(bins, startidx, 4 * block + 4)
    ensures m' == m || m' == Set(m, AV, SIZE, ClearBit(Get(m, AV, SIZE), block))
    ensures Blocks(m', bins)
  {
    hide Lists, Threads, Members, Blocks;
    m' := m;
    var s := startidx;
    while true
      invariant 4 <= s <= startidx && s / 4 == block
      invariant EmptyBins(bins, s, 4 * block + 4)
      decreases s
    {
      if s % 4 == 0 {
        ClearBlock(m, bins, block);
        m' := Set(m, AV, SIZE, ClearBit(Get(m, AV, SIZE), block));
        return;
      }
      s := s - 1;
      LastNode(m, bins, home, s);
      if Get(m, BinAt(s), FD) != BinAt(s) { return; }
    }
  }

  // What the caller has established about the bins below idx, and why a chunk
  // in bin idx or above must fit.
  ghost predicate SearchFrom(A: Arena, bins: seq<seq<int>>, home: map<int, int>, nb: int, idx: int)
    requires |bins| == NAV
  {
    && 4 <= idx < NAV && MINSIZE <= nb
    && (forall x :: x in home && 2 <= home[x] < idx ==> SizeIn(A, x) < nb)
    && (idx > BinIndex(nb) || (idx == BinIndex(nb) && exists x :: x in home && home[x] == idx && SizeIn(A, x) >= nb))
  }

  ghost predicate BestFit(A: Arena, home: map<int, int>, nb: int, x: int) {
    && x in home && home[x] >= 2 && SizeIn(A, x) >= nb
    && (forall w :: w in home && home[w] >= 2 && SizeIn(A, w) >= nb ==> SizeIn(A, w) >= SizeIn(A, x))
  }

  ghost predicate NoFit(A: Arena, home: map<int, int>, nb: int) {
    forall w :: w in home && home[w] >= 2 ==> SizeIn(A, w) < nb
  }

  // A scanned bin at or above the starting index in which nothing fits is empty.
  lemma ScannedEmpty(A: Arena, bins: seq<seq<int>>, home: map<int, int>, nb: int, idx0: int, i: int)
    requires |bins| == NAV && Tiled(A) && Homes(A, bins, home) && Members(bins, home)
    requires SearchFrom(A, bins, home, nb, idx0) && idx0 <= i < NAV && NoFitAfter(A, bins[i], -1, nb)
    ensures bins[i] == [] && (i == idx0 ==> idx0 > BinIndex(nb))
  {
    if bins[i] != [] {
      var x := bins[i][0];
      assert x in bins[i] && x in home && home[x] == i;
      HigherBinFits(A, bins, home, nb, x);
    }
  }

  lemma FoundBest(A: Arena, bins: seq<seq<int>>, home: map<int, int>, nb: int, idx0: int, i: int, k: nat)
    requires |bins| == NAV && Tiled(A) && Homes(A, bins, home) && Members(bins, home)
    requires SearchFrom(A, bins, home, nb, idx0) && idx0 <= i < NAV && EmptyBins(bins, idx0, i)
    requires k < |bins[i]| && NoFitAfter(A, bins[i], k, nb) && SizeIn(A, bins[i][k]) >= nb
    ensures BestFit(A, home, nb, bins[i][k]) && home[bins[i][k]] == i
  {
    var x := bins[i][k];
    assert x in bins[i] && x in home && home[x] == i;
    forall w | w in home && home[w] >= 2 && SizeIn(A, w) >= nb
      ensures SizeIn(A, w) >= SizeIn(A, x)
    {
      assert w in bins[home[w]];
      BestInBins(A, bins, home, nb, i, k, w) by {
        forall y | y in home && 2 <= home[y] < i
          ensures SizeIn(A, y) < nb
        {
          assert y in bins[home[y]];
        }
      }
    }
  }

  lemma NothingFound(A: Arena, bins: seq<seq<int>>, home: map<int, int>, nb: int, idx0: int)
    requires |bins| == NAV && Members(bins, home)
    requires SearchFrom(A, bins, home, nb, idx0) && EmptyBins(bins, idx0, NAV)
    ensures NoFit(A, home, nb)
  {
    forall w | w in home && home[w] >= 2
      ensures SizeIn(A, w) < nb
    {
      assert w in bins[home[w]];
    }
  }

  // Scan the bins of one group from idx on.
  method ScanGroup(m: Mem, nb: int, idx0: int, start: int,
                   ghost A: Arena, ghost bins: seq<seq<int>>, ghost home: map<int, int>)
    returns (victim: int, idx: int, ghost k: int)
    requires SearchInv(m, A, bins, home) && |bins| == NAV
    requires SearchFrom(A, bins, home, nb, idx0) && idx0 <= start < NAV && EmptyBins(bins, idx0, start)
    ensures start <= idx <= NAV
    ensures victim != 0 ==> idx < NAV && 0 <= k < |bins[idx]| && victim == bins[idx][k] && BestFit(A, home, nb, victim)
    ensures victim != 0 ==> home[victim] == idx
    ensures victim == 0 ==> idx == 4 * (start / 4) + 4 && EmptyBins(bins, idx0, idx) && idx0 > BinIndex(nb)
  {
    hide SearchInv, Lists, Threads, Members, Shape, Tiled, KnowsPrev, Aligned, Coalesced, Tags, Heads, Feet, Backs,
      Homes, Listed, AllHomed, Blocks, SearchFrom, BestFit, BinIndex;
    SearchParts(m, A, bins, home);
    idx := start;
    while true
      invariant start <= idx < NAV && idx / 4 == start / 4
      invariant EmptyBins(bins, idx0, idx)
      decreases NAV - idx
    {
      SearchStarts(A, bins, home, nb, idx0);
      victim, k := ScanBin(m, nb, idx, A, bins, home);
      if victim != BinAt(idx) {
        FoundBest(A, bins, home, nb, idx0, idx, k);
        NodeAddress(A, bins, home, idx, k);
        return;
      }
      ScannedEmpty(A, bins, home, nb, idx0, idx);
      ghost var before := idx;
      idx := idx + 1;
      if idx % 4 == 0 {
        victim := 0;
        StillBelow(A, bins, home, nb, idx0, before);
        return;
      }
    }
  }

  lemma SearchStarts(A: Arena, bins: seq<seq<int>>, home: map<int, int>, nb: int, idx: int)
    requires |bins| == NAV && SearchFrom(A, bins, home, nb, idx)
    ensures 4 <= idx < NAV && MINSIZE <= nb
  {
  }

  lemma NodeAddress(A: Arena, bins: seq<seq<int>>, home: map<int, int>, i: int, k: nat)
    requires |bins| == NAV && 1 <= i < NAV && k < |bins[i]| && Members(bins, home) && Listed(A, home) && Tiled(A)
    ensures bins[i][k] >= LOW
  {
    var x := bins[i][k];
    assert x in bins[i];
    assert x in home && A.Free(x);
  }

  // If the search got past the starting bin, that bin lies above the request's own.
  lemma StillBelow(A: Arena, bins: seq<seq<int>>, home: map<int, int>, nb: int, idx0: int, last: int)
    requires |bins| == NAV && Members(bins, home)
    requires SearchFrom(A, bins, home, nb, idx0) && idx0 <= last < NAV
    requires EmptyBins(bins, idx0, last + 1)
    ensures idx0 > BinIndex(nb)
  {
  }

  ghost predicate OnlyBlocksWord(m: Mem, m': Mem) {
    exists w :: m' == Set(m, AV, SIZE, w)
  }

  // From the first bin that could fit, look for the best fit group by group,
  // skipping groups whose bit is clear and clearing the bits of groups found
  // empty.  `block` is kept as the number of its one bit.
  method SearchBins(m: Mem, nb: int, idx0: int,
                    ghost A: Arena, ghost bins: seq<seq<int>>, ghost home: map<int, int>)
    returns (victim: int, m': Mem, ghost i: int, ghost k: int)
    requires SearchInv(m, A, bins, home) && |bins| == NAV
    requires SearchFrom(A, bins, home, nb, idx0)
    ensures m' == m || OnlyBlocksWord(m, m')
    ensures Blocks(m', bins) && (Get(m, AV, SIZE) == 0 ==> m' == m)
    ensures victim != 0 ==> 2 <= i < NAV && 0 <= k < |bins[i]| && victim == bins[i][k] && BestFit(A, home, nb, victim)
    ensures victim != 0 ==> home[victim] == i
    ensures victim == 0 ==> NoFit(A, home, nb)
  {
    hide SearchInv, Lists, Threads, Members, Shape, Tiled, KnowsPrev, Aligned, Coalesced, Tags, Heads, Feet, Backs,
      Homes, Listed, AllHomed, SearchFrom, BestFit, BinIndex, NoFit;
    SearchParts(m, A, bins, home);
    SearchStarts(A, bins, home, nb, idx0);
    m' := m;
    var idx, block := idx0, idx0 / 4;
    victim, i, k := 0, 0, 0;
    if Pow2(block) > Get(m', AV, SIZE) {
      HighBlocksEmpty(m', bins, block);
      NothingFound(A, bins, home, nb, idx0);
      return;
    }
    if !Bit(Get(m', AV, SIZE), block) {
      ClearBlockEmpty(m', bins, block);
      SkipFirst(m', bins, block);
      idx := (idx - idx % BINBLOCKWIDTH) + BINBLOCKWIDTH;
      block := block + 1;
      idx, block := NextMarked(m', idx, block, idx0, bins);
    }
    while true
      invariant idx0 <= idx < NAV && idx / 4 == block && block < 32
      invariant EmptyBins(bins, idx0, idx)
      invariant (m' == m || OnlyBlocksWord(m, m')) && Blocks(m', bins)
      decreases NAV - idx
    {
      var startidx := idx;
      victim, idx, k := ScanGroup(m, nb, idx0, startidx, A, bins, home);
      i := idx;
      if victim != 0 { return; }
      OnlyBlocksKeepsLists(m, m', A, bins, home);
      ghost var m1 := m';
      m' := ClearPartial(m', startidx, block, A, bins, home);
      assert m' == m || OnlyBlocksWord(m, m') by { OnlyBlocksTwice(m, m1, m'); }
      block := block + 1;
      if block == 32 || Pow2(block) > Get(m', AV, SIZE) {
        HighBlocksEmpty(m', bins, block);
        NothingFound(A, bins, home, nb, idx0);
        return;
      }
      idx, block := NextMarked(m', idx, block, idx0, bins);
    }
  }

  // while ((block & binblocks) == 0) { idx += BINBLOCKWIDTH; block <<= 1; }
  method NextMarked(m: Mem, idx: int, block: nat, ghost idx0: int, ghost bins: seq<seq<int>>)
    returns (idx': int, block': nat)
    requires |bins| == NAV && Blocks(m, bins) && EmptyBins(bins, idx0, idx)
    requires 1 <= block && idx == 4 * block
    requires Pow2(block) <= Get(m, AV, SIZE)
    ensures idx <= idx' < NAV && block' < 32 && idx' == 4 * block'
    ensures EmptyBins(bins, idx0, idx')
  {
    idx', block' := idx, block;
    ghost var j := MarkedFrom(m, bins, block);
    while !Bit(Get(m, AV, SIZE), block')
      invariant block <= block' < 32 && idx' == 4 * block'
      invariant EmptyBins(bins, idx0, idx')
      invariant exists j: nat :: block' <= j < 32 && Bit(Get(m, AV, SIZE), j)
      decreases 32 - block'
    {
      ClearBlockEmpty(m, bins, block');
      idx' := idx' + BINBLOCKWIDTH;
      block' := block' + 1;
    }
  }

  lemma OnlyBlocksTwice(m: Mem, m1: Mem, m2: Mem)
    requires m1 == m || OnlyBlocksWord(m, m1)
    requires m2 == m1 || OnlyBlocksWord(m1, m2)
    ensures m2 == m || OnlyBlocksWord(m, m2)
  {
    if m2 != m1 && m1 != m {
      var w :| m2 == Set(m1, AV, SIZE, w);
      assert m2 == Set(m, AV, SIZE, w);
    }
  }

  lemma OnlyBlocksKeepsLists(m: Mem, m': Mem, A: Arena, bins: seq<seq<int>>, home: map<int, int>)
    requires Lists(m, bins, home) && Tiled(A) && Listed(A, home)
    requires m' == m || OnlyBlocksWord(m, m')
    ensures Lists(m', bins, home)
  {
    forall i | 1 <= i < NAV
      ensures Linked(m', FD, BK, BinAt(i), bins[i])
    {
      forall n | n == BinAt(i) || n in bins[i]
        ensures Get(m', n, FD) == Get(m, n, FD) && Get(m', n, BK) == Get(m, n, BK)
      {
        if n in bins[i] { assert n in home && A.Free(n) && n in A.chunks; }
      }
      FrameRing(m, m', FD, BK, BinAt(i), bins[i]);
    }
  }

  lemma WordIsPow()
    ensures Pow2(32) == WORD
  {
    assert Pow2(8) == 256;
    assert Pow2(16) == 256 * Pow2(8);
    assert Pow2(24) == 256 * Pow2(16);
    assert Pow2(32) == 256 * Pow2(24);
  }

  lemma MarkedFrom(m: Mem, bins: seq<seq<int>>, b: nat) returns (j: nat)
    requires Blocks(m, bins) && Pow2(b) <= Get(m, AV, SIZE)
    ensures b <= j < 32 && Bit(Get(m, AV, SIZE), j)
  {
    WordIsPow();
    j := SomeBitFrom(Get(m, AV, SIZE), b, 32);
  }

  // The word reaches up to bit b but bit b is clear: a higher one is set.
  lemma SkipFirst(m: Mem, bins: seq<seq<int>>, b: nat)
    requires Blocks(m, bins) && Pow2(b) <= Get(m, AV, SIZE) && !Bit(Get(m, AV, SIZE), b)
    ensures Pow2(b + 1) <= Get(m, AV, SIZE) && b < 31
  {
    var j := MarkedFrom(m, bins, b);
    BitBound(Get(m, AV, SIZE), j);
    Pow2Grows(b + 1, j);
  }
}

// Where frontlink puts a chunk.
module DlPlace {
  import opened Memory
  import opened LinkedLists
  import opened DlSizes
  import opened DlShape
  import opened DlLists
  import opened DlSearch
  import opened DlKeep

  lemma SizeHasBin(A: Arena, p: int)
    requires Tiled(A) && A.Free(p)
    ensures 2 <= BinIndex(SizeIn(A, p)) <= 126 && SizeIn(A, p) >= MINSIZE
    ensures SizeIn(A, p) < 512 ==> BinIndex(SizeIn(A, p)) == SizeIn(A, p) / 8
    ensures SizeIn(A, p) == A.chunks[p].size && p in A.chunks
  {
    BinIndexRange(SizeIn(A, p));
  }

  // All chunks of a small bin have the same size.
  lemma SmallPlace(A: Arena, bins: seq<seq<int>>, home: map<int, int>, p: int)
    requires |bins| == NAV && Tiled(A) && Aligned(A) && Members(bins, home) && Homes(A, bins, home)
    requires A.Free(p) && SizeIn(A, p) < 512
    ensures 2 <= SizeIn(A, p) / 8 < 64
    ensures Place(A, bins[SizeIn(A, p) / 8], 0, SizeIn(A, p))
  {
    var i := SizeIn(A, p) / 8;
    if bins[i] != [] {
      var x := bins[i][0];
      assert x in bins[i] && x in home && home[x] == i && A.Free(x);
      BinIndexRange(SizeIn(A, x));
      assert SizeIn(A, x) % 8 == 0 && SizeIn(A, p) % 8 == 0;
    }
  }

  lemma MarkKeeps(m: Mem, A: Arena, bins: seq<seq<int>>, home: map<int, int>, i: int)
    requires |bins| == NAV && Tiled(A) && Lists(m, bins, home) && Listed(A, home) && Blocks(m, bins) && 2 <= i < NAV
    ensures var m' := Set(m, AV, SIZE, SetBit(Get(m, AV, SIZE), i / 4));
      && Lists(m', bins, home) && Blocks(m', bins) && Bit(Get(m', AV, SIZE), i / 4)
      && ChunkTagsKept(A, m, m') && PayloadsKept(A, m, m')
      && (forall n :: n >= LOW ==> Get(m', n, SIZE) == Get(m, n, SIZE))
  {
    hide Lists, Listed, Blocks;
    assert 0 <= Get(m, AV, SIZE) by { BlocksWord(m, bins); }
    var v := SetBit(Get(m, AV, SIZE), i / 4);
    MarkBlock(m, bins, bins, i);
    SetBitBits(Get(m, AV, SIZE), i / 4, i / 4);
    TagWriteKeepsLists(m, A, bins, home, AV, SIZE, v);
  }

  lemma BlocksWord(m: Mem, bins: seq<seq<int>>)
    requires Blocks(m, bins)
    ensures 0 <= Get(m, AV, SIZE) < WORD
  {
  }

  lemma FirstNode(m: Mem, bins: seq<seq<int>>, home: map<int, int>, i: int)
    requires |bins| == NAV && Lists(m, bins, home) && 1 <= i < NAV
    ensures Get(m, BinAt(i), FD) == NextAt(bins, i, 0)
    ensures Get(m, BinAt(i), FD) == BinAt(i) <==> bins[i] == []
  {
    Neighbours(m, FD, BK, BinAt(i), bins[i]);
    NodesApart(m, FD, BK, BinAt(i), bins[i]);
  }

  lemma NodeAt(m: Mem, A: Arena, bins: seq<seq<int>>, home: map<int, int>, i: int, k: nat)
    requires |bins| == NAV && Lists(m, bins, home) && Listed(A, home) && Tiled(A) && Heads(m, A) && Aligned(A)
    requires 1 <= i < NAV && k < |bins[i]|
    ensures Get(m, bins[i][k], FD) == NextAt(bins, i, k + 1)
    ensures bins[i][k] >= LOW && bins[i][k] != BinAt(i)
    ensures HeadSize(m, bins[i][k]) == SizeIn(A, bins[i][k])
  {
    hide Lists, Threads;
    ThreadOf(m, bins, home, i);
    Neighbours(m, FD, BK, BinAt(i), bins[i]);
    var x := bins[i][k];
    assert x in bins[i] && x in home && A.Free(x) && x in A.chunks by { MemberHome(bins, home, i, k); }
    assert Get(m, x, SIZE) == Head(A, x);
  }

  lemma ThreadOf(m: Mem, bins: seq<seq<int>>, home: map<int, int>, i: int)
    requires Lists(m, bins, home) && 1 <= i < NAV
    ensures |bins| == NAV && Linked(m, FD, BK, BinAt(i), bins[i]) && Members(bins, home)
  {
  }

  lemma PrevNode(m: Mem, bins: seq<seq<int>>, home: map<int, int>, i: int, k: nat)
    requires |bins| == NAV && Lists(m, bins, home) && 1 <= i < NAV && k <= |bins[i]|
    ensures Get(m, NextAt(bins, i, k), BK) == PrevAt(bins, i, k)
  {
    Neighbours(m, FD, BK, BinAt(i), bins[i]);
  }

  // while (FD != BK && S < chunksize(FD)) FD = FD->fd;
  method SkipLarger(m: Mem, s: int, i: int, first: int,
                    ghost A: Arena, ghost bins: seq<seq<int>>, ghost home: map<int, int>)
    returns (fwd: int, ghost k: nat)
    requires |bins| == NAV && Lists(m, bins, home) && Listed(A, home) && Tiled(A) && Heads(m, A) && Aligned(A)
    requires 1 <= i < NAV && first == NextAt(bins, i, 0)
    ensures k <= |bins[i]| && fwd == NextAt(bins, i, k)
    ensures Place(A, bins[i], k, s)
  {
    hide Lists, Listed, Tiled, Heads, Aligned, HeadSize;
    fwd, k := first, 0;
    if k < |bins[i]| { NodeAt(m, A, bins, home, i, k); }
    while fwd != BinAt(i) && s < HeadSize(m, fwd)
      invariant k <= |bins[i]| && fwd == NextAt(bins, i, k)
      invariant forall j :: 0 <= j < k ==> SizeIn(A, bins[i][j]) > s
      invariant k < |bins[i]| ==> fwd != BinAt(i) && HeadSize(m, fwd) == SizeIn(A, fwd)
      decreases |bins[i]| - k
    {
      NodeAt(m, A, bins, home, i, k);
      fwd := Get(m, fwd, FD);
      k := k + 1;
      if k < |bins[i]| { NodeAt(m, A, bins, home, i, k); }
    }
  }

  lemma LinkKeepsBlocks(m: Mem, m': Mem, bins: seq<seq<int>>, i: int, s: seq<int>)
    requires Blocks(m, bins) && 2 <= i < NAV && (bins[i] != [] || Bit(Get(m, AV, SIZE), i / 4))
    requires Get(m', AV, SIZE) == Get(m, AV, SIZE)
    ensures Blocks(m', bins[i := s])
  {
  }

  lemma MarkThenLink(A: Arena, m: Mem, m0: Mem, m1: Mem)
    requires ChunkTagsKept(A, m, m0) && PayloadsKept(A, m, m0) && Kept(A, m0, m1)
    ensures ChunkTagsKept(A, m, m1) && PayloadsKept(A, m, m1)
  {
  }

  lemma ChunkTagsRefl(A: Arena, m: Mem)
    ensures ChunkTagsKept(A, m, m) && PayloadsKept(A, m, m)
  {
  }
}
