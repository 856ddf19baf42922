// dlmalloc: malloc, free and trim over an in-memory heap of boundary-tagged
// chunks, binned free lists and a contiguous MORECORE.

module Dlmalloc {
  import opened Memory
  import opened LinkedLists
  import opened DlSizes
  import opened DlShape
  import opened DlLists
  import opened DlMoves
  import opened DlGive
  import opened DlSearch
  import opened DlKeep
  import opened DlPlace
  import opened DlFree

  const PAGE: int := 4096
  const TRIM_THRESHOLD: int := 128 * 1024
  const MORECORE_FAILURE: int := -1
  const NO_SBRK_YET: int := -1

  // What becomes of a top from `top` to `was`: it stays as it is below the
  // threshold, and loses all but at most a page and a smallest chunk above.
  ghost predicate Trimmed(was: int, top: int, now: int) {
    if was - top >= 0x20000 then 16 < now - top <= 16 + 4096 else now == was
  }

  function RoundUpPage(x: int): int {
    (x + (PAGE - 1)) - (x + (PAGE - 1)) % PAGE
  }

  // Which step of the malloc algorithm served a request.
  datatype Step = Refused | ExactFit | LastRemainder | Binned | Top | Exhausted

  // What a client may do: ask for a block, release one it holds, or write into
  // the part of it that it asked for.
  datatype Op = Request(bytes: int) | Release(p: int) | Write(p: int, c: int, v: int)

  // Every bin header points to itself.
  method StaticBins() returns (m: Mem)
    ensures forall j {:trigger BinAt(j)} :: 1 <= j < NAV ==>
      Get(m, BinAt(j), FD) == BinAt(j) && Get(m, BinAt(j), BK) == BinAt(j)
    ensures Get(m, AV, FD) == AV && Get(m, AV, SIZE) == 0
  {
    m := Set(Set(map[], AV, FD, AV), AV, BK, AV);
    var i := 1;
    while i < NAV
      invariant 1 <= i <= NAV
      invariant forall j {:trigger BinAt(j)} :: 1 <= j < i ==>
        Get(m, BinAt(j), FD) == BinAt(j) && Get(m, BinAt(j), BK) == BinAt(j)
      invariant Get(m, AV, FD) == AV && Get(m, AV, SIZE) == 0
    {
      m := Set(Set(m, BinAt(i), FD, BinAt(i)), BinAt(i), BK, BinAt(i));
      i := i + 1;
    }
  }

  class Heap {
    const start: int
    const end: int
    var mem: Mem
    var brk: int         // mem_malloc_brk
    var sbrkBase: int
    ghost var arena: Arena
    ghost var bins: seq<seq<int>>
    ghost var home: map<int, int>

    ghost predicate Placed()
      reads this
    {
      && LOW <= start < end < WORD && start % PAGE == 0 && end % PAGE == 0
      && end - start <= SIGN / 2
    }

    // No memory has been obtained yet: top is the header of bin 0 and its size
    // word is the empty binblocks.
    ghost predicate Initial()
      reads this
    {
      && SearchInv(mem, arena, bins, home)
      && arena == Arena(start, map[], start, MINSIZE)
      && Get(mem, AV, FD) == AV && Get(mem, AV, SIZE) == 0
      && brk == start && sbrkBase == NO_SBRK_YET
    }

    ghost predicate Running()
      reads this
    {
      && Inv(mem, arena, bins, home)
      && arena.base == start && arena.top + arena.topSize == brk <= end
      && sbrkBase == start
    }

    ghost predicate Valid()
      reads this
    {
      Placed() && |bins| == NAV && (Initial() || Running())
    }

    // sbrk: fails with 0, not with MORECORE_FAILURE.
    method Sbrk(increment: int) returns (old_brk: int)
      requires Placed() && start <= brk <= end
      modifies this`brk
      ensures start <= brk <= end
      ensures var new_brk := (old(brk) + increment) % WORD;
        if start <= new_brk <= end then old_brk == old(brk) && brk == new_brk
        else old_brk == 0 && brk == old(brk)
    {
      var new_brk := (brk + increment) % WORD;
      if new_brk < start || new_brk > end {
        return 0;
      }
      old_brk := brk;
      brk := new_brk;
    }

    // frontlink: place chunk p of size s in its bin, behind the larger chunks
    // and ahead of its equals.
    method Frontlink(p: int, s: int) returns (ghost k: nat)
      requires |bins| == NAV && Tiled(arena) && Aligned(arena) && Heads(mem, arena)
      requires Lists(mem, bins, home) && Homes(arena, bins, home) && Blocks(mem, bins)
      requires arena.Free(p) && p !in home && s == SizeIn(arena, p)
      modifies this`mem, this`bins, this`home
      ensures |bins| == NAV
      ensures Lists(mem, bins, home) && Homes(arena, bins, home) && Blocks(mem, bins)
      ensures home == old(home)[p := BinIndex(s)]
      ensures 2 <= BinIndex(s) < NAV && Place(arena, old(bins)[BinIndex(s)], k, s) && k <= |old(bins)[BinIndex(s)]|
      ensures bins == old(bins)[BinIndex(s) := InsertAt(old(bins)[BinIndex(s)], k, p)]
      ensures ChunkTagsKept(arena, old(mem), mem) && PayloadsKept(arena, old(mem), mem)
    {
      hide Tiled, Aligned, Heads, Lists, Homes, Blocks, ChunkTagsKept, PayloadsKept, TagsKept, Threads, Members,
        Kept, Listed, Place, BinIndex;
      var idx, bck, fwd;
      k := 0;
      ghost var m0 := mem;
      ListsMembers(mem, bins, home);
      HomesListed(arena, bins, home);
      SizeHasBin(arena, p);
      ChunkTagsRefl(arena, mem);
      BlocksWord(mem, bins);
      idx := if s < 512 then s / 8 else BinIndex(s);
      bck := BinAt(idx);
      if s < 512 {
        MarkKeeps(mem, arena, bins, home, idx);
        mem := Set(mem, AV, SIZE, SetBit(Get(mem, AV, SIZE), idx / 4));
        m0 := mem;
        FirstNode(mem, bins, home, idx);
        fwd := Get(mem, bck, FD);
        SmallPlace(arena, bins, home, p);
      } else {
        FirstNode(mem, bins, home, idx);
        fwd := Get(mem, bck, FD);
        if fwd == bck {
          MarkKeeps(mem, arena, bins, home, idx);
          mem := Set(mem, AV, SIZE, SetBit(Get(mem, AV, SIZE), idx / 4));
          m0 := mem;
          EmptyPlace(arena, bins[idx], s);
        } else {
          fwd, k := SkipLarger(mem, s, idx, fwd, arena, bins, home);
          PrevNode(mem, bins, home, idx, k);
          bck := Get(mem, fwd, BK);
        }
      }
      PlaceBounds(arena, bins[idx], k, s);
      FrontlinkKeeps(mem, arena, bins, home, p, idx, k);
      mem := LinkBetween(mem, FD, BK, p, bck, fwd);
      MarkThenLink(arena, old(mem), m0, mem);
      LinkKeepsBlocks(m0, mem, bins, idx, InsertAt(bins[idx], k, p));
      bins := bins[idx := InsertAt(bins[idx], k, p)];
      home := home[p := idx];
    }

    // av_ as it is statically initialised: every bin header points to itself.
    constructor (start: int, end: int)
      requires LOW <= start < end < WORD && start % PAGE == 0 && end % PAGE == 0
      requires end - start <= SIGN / 2
      ensures Valid() && Initial() && this.start == start && this.end == end
    {
      hide SearchInv, Inv, Get, Set, BinAt;
      this.start, this.end, this.brk, this.sbrkBase := start, end, start, NO_SBRK_YET;
      arena := Arena(start, map[], start, MINSIZE);
      bins := seq(NAV, i => []);
      home := map[];
      var m := StaticBins();
      mem := m;
      EmptyHeap(m, start);
    }

    // How much is asked of sbrk, and what it says.
    method AskFor(nb: int) returns (got: int, sbrkSize: int)
      requires Placed() && start <= brk <= end && nb % 8 == 0 && MINSIZE <= nb < SIGN
      modifies this`brk
      ensures sbrkSize == if sbrkBase != NO_SBRK_YET then RoundUpPage(nb + MINSIZE) else nb + MINSIZE
      ensures nb + MINSIZE <= sbrkSize < nb + MINSIZE + PAGE && sbrkSize % 8 == 0
      ensures if old(brk) + sbrkSize <= end then got == old(brk) && brk == old(brk) + sbrkSize
              else got == 0 && brk == old(brk)
    {
      hide RoundUpPage;
      sbrkSize := nb + MINSIZE;
      if sbrkBase != NO_SBRK_YET {
        RoundUpPageBounds(sbrkSize);
        PageIsAligned(RoundUpPage(sbrkSize));
        sbrkSize := RoundUpPage(sbrkSize);
      }
      SbrkArithmetic(brk, sbrkSize, start, end);
      got := Sbrk(sbrkSize);
    }

    // malloc_extend_top.  Where the arena already exists it is extended in
    // place, MORECORE being contiguous; the very first extension records the
    // base of the arena.
    method ExtendTop(nb: int)
      requires Valid() && nb % 8 == 0 && MINSIZE <= nb < SIGN
      modifies this`mem, this`brk, this`sbrkBase, this`arena
      ensures Placed() && bins == old(bins)
      // The first extension of all must fit, or top ends up at address zero.
      ensures old(Initial()) && nb + MINSIZE > end - start ==> Get(mem, AV, FD) == 0 && sbrkBase == 0 && !Valid()
      ensures old(Initial()) && nb + MINSIZE <= end - start ==>
        && Valid() && Running() && arena.topSize >= nb + MINSIZE
        && arena.chunks == map[] && arena.top == start && PayloadsKept(old(arena), old(mem), mem)
      ensures old(Running()) ==>
        && Valid() && Running()
        && SameUsed(old(arena), arena) && PayloadsKept(old(arena), old(mem), mem)
        && arena.chunks == old(arena.chunks) && arena.top == old(arena.top)
        && (arena.topSize >= nb + MINSIZE || (arena == old(arena) && brk + RoundUpPage(nb + MINSIZE) > end))
        && (if old(brk) + RoundUpPage(nb + MINSIZE) <= end then brk == old(brk) + RoundUpPage(nb + MINSIZE)
            else arena == old(arena) && brk == old(brk))
      ensures old(Initial()) && nb + MINSIZE <= end - start ==> brk == RoundUpPage(start + nb + MINSIZE)
    {
      hide Inv, SearchInv, PayloadsKept, SameUsed, Get, Set, HeadSize, RoundUpPage;
      var oldTop := Get(mem, AV, FD);
      TopWords(mem, arena, bins, home, Initial());
      KeptRefl(arena, mem);
      var oldTopSize := HeadSize(mem, oldTop);
      var oldEnd := oldTop + oldTopSize;
      var got, sbrkSize := AskFor(nb);
      if got == MORECORE_FAILURE || (got < oldEnd && oldTop != AV) {
        return;
      }
      if got == oldEnd {
        TopSizeKeeps(mem, arena, bins, home, sbrkSize + oldTopSize);
        mem := Set(mem, oldTop, SIZE, sbrkSize + oldTopSize + 1);
        arena := arena.(topSize := sbrkSize + oldTopSize);
      } else {
        FirstMemory(got, sbrkSize);
        TopIsHigh(mem, arena, bins, home);
        NothingLive(old(arena), old(mem), mem);
      }
    }

    // "First time through": align, round up to a page boundary, set top.
    method FirstMemory(got: int, sbrkSize: int)
      requires Placed() && |bins| == NAV && sbrkSize % 8 == 0 && MINSIZE <= sbrkSize < SIGN + MINSIZE
      requires sbrkBase == NO_SBRK_YET && arena == Arena(start, map[], start, MINSIZE)
      requires SearchInv(mem, arena, bins, home) && Get(mem, AV, FD) == AV && Get(mem, AV, SIZE) == 0
      requires if sbrkSize <= end - start then got == start && brk == start + sbrkSize else got == 0 && brk == start
      modifies this`mem, this`brk, this`sbrkBase, this`arena
      ensures sbrkSize > end - start ==> Get(mem, AV, FD) == 0 && sbrkBase == 0
      ensures sbrkSize <= end - start ==>
        && Running() && arena == Arena(start, map[], start, arena.topSize) && arena.topSize >= sbrkSize
        && brk == RoundUpPage(start + sbrkSize)
    {
      hide Inv, SearchInv, RoundUpPage, Get, Set;
      sbrkBase := got;
      var at := got;
      var frontMisalign := (at + 8) % 8;
      var correction := 0;
      if frontMisalign > 0 {
        correction := 8 - frontMisalign;
        at := at + correction;
      }
      var endNow := (at + sbrkSize) % WORD;
      correction := (correction + RoundUpPage(endNow) % WORD - endNow) % WORD;
      if sbrkSize <= end - start { PageArithmetic(start, end, sbrkSize); }
      var newBrk := Sbrk(correction);
      if newBrk == MORECORE_FAILURE { return; }
      var topSize := (newBrk - at + correction) % WORD;
      if sbrkSize <= end - start { FirstTop(mem, bins, home, start, topSize); }
      TopAtZero(mem, at, topSize + 1);
      mem := Set(Set(mem, AV, FD, at), at, SIZE, topSize + 1);
      arena := arena.(topSize := topSize);
    }

    // ---- the steps of malloc ----

    // unlink(victim); set_inuse_bit_at_offset(victim, victim_size)
    method TakeBinned(v: int, ghost i: int, ghost k: int)
      requires Valid() && Running() && 2 <= i < NAV && 0 <= k < |bins[i]| && v == bins[i][k]
      modifies this`mem, this`arena, this`bins, this`home
      ensures Valid() && Running()
      ensures Served(old(arena), old(mem), arena, mem, v, old(SizeIn(arena, v)))
      ensures SizeIn(arena, v) == old(SizeIn(arena, v))
    {
      hide Inv, SearchInv, PayloadsKept, UsedPlus;
      BinnedSize(mem, arena, bins, home, i, k);
      TakeKeeps(mem, arena, bins, home, i, k);
      ServedWhole(arena, mem, Taken(arena, v), TakenMem(Unlink(mem, FD, BK, v), arena.Next(v)), v, SizeIn(arena, v));
      var next := v + HeadSize(mem, v);
      mem := Unlink(mem, FD, BK, v);
      mem := TakenMem(mem, next);
      bins := bins[i := RemoveAt(bins[i], k)];
      home := home - {v};
      arena := Taken(arena, v);
    }

    // "Check for exact match in a bin", small requests: the request's own bin
    // and the next, whose chunks leave a remainder below MINSIZE.
    method SmallExact(nb: int) returns (v: int, idx: int, ghost i: int, ghost k: int)
      requires Valid() && nb % 8 == 0 && MINSIZE <= nb < 504
      ensures v != 0 ==> 2 <= i < NAV && 0 <= k < |bins[i]| && v == bins[i][k]
      ensures v != 0 ==> nb <= SizeIn(arena, v) < nb + MINSIZE && BestFit(arena, home, nb, v)
      ensures v == 0 ==> SearchFrom(arena, bins, home, nb, idx) && NoExact(arena, home, nb)
    {
      hide Inv, SearchInv, BestFit, SearchFrom, NoExact;
      InvSearch(mem, arena, bins, home);
      idx := nb / 8;
      i, k := idx, |bins[idx]| - 1;
      LastOf(mem, arena, bins, home, idx);
      var q := BinAt(idx);
      v := Get(mem, q, BK);
      if v == q {
        LastOf(mem, arena, bins, home, idx + 1);
        i, k := idx + 1, |bins[idx + 1]| - 1;
        q := BinAt(idx + 1);
        v := Get(mem, q, BK);
      }
      if v != q {
        SmallBest(mem, arena, bins, home, nb, i, k);
        return;
      }
      v := 0;
      idx := idx + 2;
      SmallMiss(mem, arena, bins, home, nb);
      SmallInexact(mem, arena, bins, home, nb);
    }

    // The same for larger requests: the smallest chunk of the request's bin
    // that is big enough, if it is not too big.
    method LargeExact(nb: int) returns (v: int, idx: int, ghost k: int)
      requires Valid() && nb % 8 == 0 && 504 <= nb < SIGN
      ensures v != 0 ==> 2 <= idx < NAV && 0 <= k < |bins[idx]| && v == bins[idx][k]
      ensures v != 0 ==> nb <= SizeIn(arena, v) < nb + MINSIZE && BestFit(arena, home, nb, v)
      ensures v == 0 ==> SearchFrom(arena, bins, home, nb, idx) && NoExact(arena, home, nb)
    {
      hide Inv, SearchInv, BestFit, SearchFrom, NoFitAfter, NoExact;
      InvSearch(mem, arena, bins, home);
      BinIndexRange(nb);
      idx := BinIndex(nb);
      BinIndexMonotone(504, nb);
      v, k := ScanBin(mem, nb, idx, arena, bins, home);
      if v != BinAt(idx) {
        LargeFound(mem, arena, bins, home, nb, idx, k);
        var remainderSize := HeadSize(mem, v) - nb;
        if remainderSize < MINSIZE {
          return;
        }
        LargeInexact(arena, home, nb, v);
        idx := idx - 1;
      } else {
        LargeMiss(mem, arena, bins, home, nb, idx);
        LargeNone(arena, bins, home, nb);
      }
      v := 0;
      idx := idx + 1;
    }

    // "Try to use the last split-off remainder."
    method FromRemainder(nb: int, ghost idx: int) returns (v: int)
      requires Valid() && nb % 8 == 0 && MINSIZE <= nb < SIGN && SearchFrom(arena, bins, home, nb, idx)
      modifies this`mem, this`arena, this`bins, this`home
      ensures Valid()
      ensures v != 0 ==>
        Running() && Served(old(arena), old(mem), arena, mem, v, nb)
          && old(v in home && home[v] == 1 && SizeIn(arena, v) >= nb)
      ensures v == 0 ==>
        && arena == old(arena) && PayloadsKept(arena, old(mem), mem) && bins[1] == []
        && SearchFrom(arena, bins, home, nb, idx) && (old(Initial()) ==> Initial())
        && Rehomed(arena, old(home), home, nb)
    {
      hide Inv, SearchInv, SearchFrom, PayloadsKept, UsedPlus, Served, SplitHead, SplitRest, LinkLastRemainder,
        ClearLastRemainder, TakenMem, HeadSize;
      InvSearch(mem, arena, bins, home);
      KeptRefl(arena, mem);
      FirstOf(mem, arena, bins, home);
      v := Get(mem, LAST_REMAINDER, FD);
      if v == LAST_REMAINDER {
        v := 0;
        return;
      }
      RemainderFacts(mem, arena, bins, home, v, Initial());
      var size := HeadSize(mem, v);
      var remainderSize := size - nb;
      if remainderSize >= MINSIZE {
        SplitRemainder(mem, arena, bins, home, v, nb);
        ServedWhole(arena, mem, Split(arena, v, nb),
          SplitRest(LinkLastRemainder(SplitHead(mem, v, nb), v + nb), v + nb, size - nb), v, nb);
        mem := SplitHead(mem, v, nb);
        mem := LinkLastRemainder(mem, v + nb);
        mem := SplitRest(mem, v + nb, remainderSize);
        arena, bins, home := Split(arena, v, nb), bins[1 := [v + nb]], (home - {v})[v + nb := 1];
        return;
      }
      if remainderSize >= 0 {
        ExhaustKeeps(mem, arena, bins, home, v);
        ServedNear(arena, mem, Taken(arena, v), TakenMem(ClearLastRemainder(mem), arena.Next(v)), v, size, nb);
        mem := ClearLastRemainder(mem);
        mem := TakenMem(mem, v + size);
        arena, bins, home := Taken(arena, v), bins[1 := []], home - {v};
        return;
      }
      ghost var m0, bins0, home0 := mem, bins, home;
      RebinCleared(mem, arena, bins, home, v);
      mem := ClearLastRemainder(mem);
      bins, home := bins[1 := []], home - {v};
      ghost var m1 := mem;
      ghost var _ := Frontlink(v, size);
      Rebinned(m0, m1, mem, arena, bins0, home0, bins, home, v, nb, idx);
      v := 0;
    }

    // The chunk the search found is split if the rest can stand alone.
    method SplitOrTake(v: int, nb: int, ghost i: int, ghost k: int)
      requires Valid() && Running() && bins[1] == [] && nb % 8 == 0 && MINSIZE <= nb
      requires 2 <= i < NAV && 0 <= k < |bins[i]| && v == bins[i][k] && SizeIn(arena, v) >= nb
      modifies this`mem, this`arena, this`bins, this`home
      ensures Valid() && Running() && Served(old(arena), old(mem), arena, mem, v, nb)
    {
      hide Inv, SearchInv, PayloadsKept, UsedPlus, Served, SplitHead, SplitRest, LinkLastRemainder, Unlink,
        TakenMem, HeadSize;
      BinnedSize(mem, arena, bins, home, i, k);
      var size := HeadSize(mem, v);
      var remainderSize := size - nb;
      if remainderSize >= MINSIZE {
        SplitBinned(mem, arena, bins, home, i, k, nb);
        ServedWhole(arena, mem, Split(arena, v, nb),
          SplitRest(LinkLastRemainder(Unlink(SplitHead(mem, v, nb), FD, BK, v), v + nb), v + nb, size - nb), v, nb);
        mem := SplitHead(mem, v, nb);
        mem := Unlink(mem, FD, BK, v);
        mem := LinkLastRemainder(mem, v + nb);
        mem := SplitRest(mem, v + nb, remainderSize);
        arena := Split(arena, v, nb);
        bins := bins[i := RemoveAt(bins[i], k)][1 := [v + nb]];
        home := (home - {v})[v + nb := 1];
      } else {
        TakeKeeps(mem, arena, bins, home, i, k);
        TakeReordered(mem, arena, bins, home, i, k);
        ServedNear(arena, mem, Taken(arena, v), TakenMem(Unlink(mem, FD, BK, v), arena.Next(v)), v, size, nb);
        mem := TakenMem(mem, v + size);
        mem := Unlink(mem, FD, BK, v);
        arena, bins, home := Taken(arena, v), bins[i := RemoveAt(bins[i], k)], home - {v};
      }
    }

    // The best-fit search, and what becomes of the chunk it finds.
    method FromBins(nb: int, idx: int) returns (v: int)
      requires Valid() && nb % 8 == 0 && MINSIZE <= nb < SIGN && SearchFrom(arena, bins, home, nb, idx) && bins[1] == []
      modifies this`mem, this`arena, this`bins, this`home
      ensures Valid()
      ensures v != 0 ==>
        Running() && Served(old(arena), old(mem), arena, mem, v, nb) && old(BestFit(arena, home, nb, v))
      ensures v == 0 ==>
        && arena == old(arena) && bins == old(bins) && home == old(home) && PayloadsKept(arena, old(mem), mem)
        && NoFit(arena, home, nb) && (old(Initial()) ==> Initial())
    {
      hide Inv, SearchInv, SearchFrom, PayloadsKept, UsedPlus, BestFit, NoFit, OnlyBlocksWord, Served;
      InvSearch(mem, arena, bins, home);
      ghost var i, k;
      ghost var m0, A := mem, arena;
      var m1;
      v, m1, i, k := SearchBins(mem, nb, idx, arena, bins, home);
      BlocksWordKeeps(mem, m1, arena, bins, home, Initial());
      mem := m1;
      if v == 0 { return; }
      FoundSize(mem, arena, bins, home, nb, i, k, Initial());
      SplitOrTake(v, nb, i, k);
      ServedSince(m0, m1, A, arena, mem, v, nb);
    }

    // "Try to use top chunk", extending it if it is too small.
    method FromTop(nb: int) returns (p: int)
      requires Valid() && nb % 8 == 0 && MINSIZE <= nb < SIGN
      modifies this`mem, this`brk, this`sbrkBase, this`arena
      ensures Placed() && bins == old(bins)
      ensures old(Initial()) && nb + MINSIZE > end - start ==> (p == 0 || p == 8) && sbrkBase == 0
      ensures old(Running()) ==>
        brk == old(brk) + if p != 0 && old(arena.topSize) < nb + MINSIZE then RoundUpPage(nb + MINSIZE) else 0
      ensures old(Running()) || nb + MINSIZE <= end - start ==>
        && Valid()
        && (p != 0 ==> Running() && p - 8 == old(arena.top) && Served(old(arena), old(mem), arena, mem, p - 8, nb))
        && (p == 0 ==> old(Running()) && Running() && arena == old(arena) && PayloadsKept(arena, old(mem), mem)
                          && arena.topSize < nb + MINSIZE && brk + RoundUpPage(nb + MINSIZE) > end)
    {
      hide Inv, SearchInv, PayloadsKept, SameUsed, UsedPlus, Served, Signed, HeadSize, CarvedMem, RoundUpPage;
      ghost var m0, A := mem, arena;
      ghost var good := Running() || nb + MINSIZE <= end - start;
      var top := Get(mem, AV, FD);
      TopWords(mem, arena, bins, home, Initial());
      KeptRefl(arena, mem);
      SmallTopSigned(if Initial() then 0 else arena.topSize, nb);
      var remainderSize := Signed(HeadSize(mem, top) - nb);
      if remainderSize < MINSIZE {
        ExtendTop(nb);
        top := Get(mem, AV, FD);
        if good {
          TopWords(mem, arena, bins, home, false);
          SmallTopSigned(arena.topSize, nb);
        }
        remainderSize := Signed(HeadSize(mem, top) - nb);
        if remainderSize < MINSIZE {
          return 0;
        }
      }
      if good {
        TopUnlisted(mem, arena, bins, home);
        CarveKeeps(mem, arena, bins, home, nb);
        CarvedServed(m0, A, mem, arena, nb);
        arena := Carved(arena, nb);
      }
      mem := CarvedMem(mem, top, nb, remainderSize);
      p := top + 8;
    }

    // "Check for exact match in a bin."
    method ExactStep(nb: int) returns (v: int, idx: int)
      requires Valid() && nb % 8 == 0 && MINSIZE <= nb < SIGN
      modifies this`mem, this`arena, this`bins, this`home
      ensures Valid()
      ensures v != 0 ==> Running() && Served(old(arena), old(mem), arena, mem, v, nb)
      ensures v != 0 ==> old(BestFit(arena, home, nb, v) && SizeIn(arena, v) < nb + MINSIZE)
      ensures v == 0 ==> SearchFrom(arena, bins, home, nb, idx) && NoExact(arena, home, nb)
      ensures v == 0 ==> mem == old(mem) && arena == old(arena) && bins == old(bins) && home == old(home)
    {
      hide Inv, SearchInv, PayloadsKept, UsedPlus, Served, BestFit, SearchFrom, NoExact;
      ghost var m0, A := mem, arena;
      ghost var i, k;
      if nb < 504 {
        v, idx, i, k := SmallExact(nb);
      } else {
        v, idx, k := LargeExact(nb);
        i := idx;
      }
      if v != 0 {
        InvSearch(mem, arena, bins, home);
        RunningIfListed(mem, arena, bins, home, nb, v, Initial());
        TakeBinned(v, i, k);
        ExactServed(A, m0, arena, mem, v, nb);
      }
    }

    method Malloc(bytes: int) returns (p: int, ghost how: Step)
      requires Valid() && 0 <= bytes < WORD
      modifies this
      ensures Placed()
      ensures bytes >= SIGN ==> p == 0 && how == Refused && unchanged(this)
      // If the very first request exceeds the whole arena, sbrk's failure goes
      // unnoticed and whatever is returned lies at address zero.
      ensures bytes < SIGN && old(Initial()) && Request2Size(bytes) + MINSIZE > end - start ==>
        (p == 0 || p == 8) && sbrkBase == 0 && !Valid()
      ensures bytes < SIGN && (old(Running()) || Request2Size(bytes) + MINSIZE <= end - start) ==>
        var nb := Request2Size(bytes);
        && Valid()
        && (p != 0 ==> Running() && p % 8 == 0 && Served(old(arena), old(mem), arena, mem, p - 8, nb))
        && (p != 0 ==> how != Exhausted && how != Refused)
        && (p == 0 ==> how == Exhausted && Running() && arena == old(arena) && PayloadsKept(arena, old(mem), mem))
        && Chosen(old(arena), old(home), nb, p - 8, how)
        && (p == 0 ==> old(arena.topSize) < nb + MINSIZE && brk + RoundUpPage(nb + MINSIZE) > end)
      // The break only moves where top is used and is too small.
      ensures bytes < SIGN && old(Running()) ==>
        var nb := Request2Size(bytes);
        brk == old(brk) + if how == Top && old(arena.topSize) < nb + MINSIZE then RoundUpPage(nb + MINSIZE) else 0
    {
      hide RoundUpPage, Inv, SearchInv, PayloadsKept, UsedPlus, Served, BestFit, SearchFrom, NoFit, Rehomed,
        Request2Size, NoExact;
      if bytes >= SIGN {
        return 0, Refused;
      }
      var nb := Request2Size(bytes);
      Request2SizeFits(bytes);
      KeptRefl(arena, mem);
      ghost var m0, A, home0 := mem, arena, home;
      var v, idx := ExactStep(nb);
      if v != 0 {
        ServedAligned(mem, arena, bins, home, A, m0, v, nb);
        return v + 8, ExactFit;
      }
      v := FromRemainder(nb, idx);
      if v != 0 {
        ServedAligned(mem, arena, bins, home, A, m0, v, nb);
        return v + 8, LastRemainder;
      }
      ghost var m1 := mem;
      RehomedTo(A, home0, home, nb);
      v := FromBins(nb, idx);
      if v != 0 {
        ServedSince(m0, m1, A, arena, mem, v, nb);
        ServedAligned(mem, arena, bins, home, A, m0, v, nb);
        return v + 8, Binned;
      }
      PayloadsTrans(A, m0, m1, mem);
      ghost var m2 := mem;
      p := FromTop(nb);
      how := if p == 0 then Exhausted else Top;
      if old(Running()) || nb + MINSIZE <= end - start {
        if p == 0 {
          PayloadsTrans(A, m0, m2, mem);
        } else {
          ServedSince(m0, m2, A, arena, mem, p - 8, nb);
          ServedAligned(mem, arena, bins, home, A, m0, p - 8, nb);
        }
      }
    }

    // ---- free ----

    method UnlinkChunk(x: int, ghost F: Arena)
      requires |bins| == NAV && Tiled(F) && Lists(mem, bins, home) && Homes(F, bins, home) && Blocks(mem, bins)
      requires x in home
      modifies this`mem, this`bins, this`home
      ensures |bins| == NAV && Lists(mem, bins, home) && Homes(F, bins, home) && Blocks(mem, bins)
      ensures home == old(home) - {x} && Kept(F, old(mem), mem)
    {
      hide Tiled, Lists, Homes, Blocks, PayloadsKept, ChunkTagsKept, Threads, Members, Listed;
      ghost var i, k := Position(mem, bins, home, x);
      HomesListed(F, bins, home);
      UnlinkKeeps(mem, F, bins, home, i, k);
      UnlinkTags(mem, F, bins, home, i, k);
      RemoveHomes(F, bins, home, i, k);
      BlocksLess(mem, Unlink(mem, FD, BK, x), bins, i, k);
      mem := Unlink(mem, FD, BK, x);
      bins := bins[i := RemoveAt(bins[i], k)];
      home := home - {x};
    }

    method LinkRemainder(p: int, ghost n: int, ghost F: Arena)
      requires |bins| == NAV && Tiled(F) && Lists(mem, bins, home) && Homes(F, bins, home) && Blocks(mem, bins)
      requires n in home && home[n] == 1 && F.Free(p) && p !in home
      modifies this`mem, this`bins, this`home
      ensures |bins| == NAV && Lists(mem, bins, home) && Homes(F, bins, home) && Blocks(mem, bins)
      ensures home == (old(home) - {n})[p := 1] && Kept(F, old(mem), mem)
    {
      hide Tiled, Lists, Homes, Blocks, PayloadsKept, ChunkTagsKept, Threads, Members, Listed, LinkLastRemainder;
      HomesListed(F, bins, home);
      RemainderIs(mem, bins, home, n);
      assert RemainderHome(bins, home, [p]) == (home - {n})[p := 1];
      LinkRemainderKeeps(mem, F, bins, home, p);
      RemainderHomes(F, bins, home, [p]);
      RemainderBlocks(mem, LinkLastRemainder(mem, p), F, bins, p);
      mem := LinkLastRemainder(mem, p);
      bins := bins[1 := [p]];
      home := (home - {n})[p := 1];
    }

    // "merge with top"
    method FreeTop(p0: int, sz0: int, ghost A: Arena)
      requires Valid() && Running() && arena == A && A.Used(p0) && A.Next(p0) == A.top
      requires sz0 == A.chunks[p0].size
      modifies this`mem, this`brk, this`arena, this`bins, this`home
      ensures Valid() && Running()
      ensures UsedMinus(A, arena, p0) && PayloadsKept(Freed(A, p0), old(mem), mem)
      ensures arena.top <= p0 && Trimmed(old(brk), arena.top, brk)
    {
      hide Inv, SearchInv, Lists, Threads, Members, Shape, Tiled, KnowsPrev, Aligned, Coalesced, Tags, Heads, Feet,
        Backs, Homes, Listed, AllHomed, Blocks, Kept, TagsKept, PayloadsKept, ChunkTagsKept, UsedMinus;
      ghost var m0, bins0, home0 := mem, bins, home;
      InvParts(mem, arena, bins, home);
      Surroundings(mem, arena, p0);
      FreedTiled(arena, bins, home, p0);
      KeptReflAll(Freed(arena, p0), mem);
      var p, sz := p0, sz0 + HeadSize(mem, p0 + sz0);
      if Get(mem, p, SIZE) % 2 == 0 {
        ChunkBefore(mem, arena, p0);
        var prevsz := Get(mem, p, PREV_SIZE);
        p := p - prevsz;
        sz := sz + prevsz;
        FreeListed(arena, home, p);
        UnlinkChunk(p, Freed(arena, p0));
      } else {
        assert home0 - {p0} == home0;
      }
      KeptParts(Freed(arena, p0), m0, mem);
      FreedKept(arena, p0, m0, mem);
      HomesOfFreed(mem, arena, bins, home, p0);
      FreeIntoTop(m0, mem, arena, bins0, home0, bins, home, p, p0);
      TopGrows(arena, p, p0, brk);
      mem := TopMem(mem, p, sz);
      arena := GivenTop(arena, p);
      if sz >= TRIM_THRESHOLD {
        ghost var B, m1 := arena, mem;
        var _ := Trim();
        GivenPayloads(A, B, p0, m1, mem);
        PayloadsTrans(Freed(A, p0), m0, m1, mem);
        TrimmedUsed(A, B, arena, p0);
      }
    }

    // malloc_trim(0): give whole pages of top back to MORECORE.
    method Trim() returns (released: bool)
      requires Valid() && Running()
      modifies this`mem, this`brk, this`arena
      ensures Valid() && Running()
      ensures arena == old(arena).(topSize := arena.topSize) && arena.topSize <= old(arena.topSize)
      ensures PayloadsKept(old(arena), old(mem), mem)
      ensures released <==> old(arena.topSize) > MINSIZE + PAGE
      ensures released ==> (old(arena.topSize) - arena.topSize) % PAGE == 0 && MINSIZE < arena.topSize <= MINSIZE + PAGE
      ensures !released ==> arena == old(arena) && mem == old(mem)
    {
      hide Inv, SearchInv, PayloadsKept;
      TopWords(mem, arena, bins, home, false);
      KeptRefl(arena, mem);
      var top := Get(mem, AV, FD);
      var topSize := HeadSize(mem, top);
      var extra := ((topSize - MINSIZE + (PAGE - 1)) / PAGE - 1) * PAGE;
      TrimAmount(topSize, extra);
      if extra < PAGE {
        return false;
      }
      TrimArithmetic(topSize, extra);
      BrkInside(mem, arena, bins, home);
      var current := Sbrk(0);
      if current != top + topSize {
        return false;
      }
      TrimSbrk(brk, extra, start, end);
      var newBrk := Sbrk(-extra);
      TopSizeKeeps(mem, arena, bins, home, topSize - extra);
      mem := Set(mem, top, SIZE, topSize - extra + 1);
      arena := arena.(topSize := topSize - extra);
      released := true;
    }

    method Free(ptr: int)
      requires Valid() && (ptr == 0 || arena.Used(ptr - 8))
      modifies this`mem, this`brk, this`arena, this`bins, this`home
      ensures Valid()
      ensures ptr == 0 ==> mem == old(mem) && arena == old(arena) && brk == old(brk)
      ensures ptr != 0 ==> Running() && UsedMinus(old(arena), arena, ptr - 8)
      ensures ptr != 0 ==> PayloadsKept(Freed(old(arena), ptr - 8), old(mem), mem)
      // Memory is given back only where top has grown, and has grown too large.
      ensures ptr != 0 && old(arena).Next(ptr - 8) == old(arena).top ==>
        arena.top <= ptr - 8 && Trimmed(old(brk), arena.top, brk)
      ensures ptr != 0 && old(arena).Next(ptr - 8) != old(arena).top ==> brk == old(brk)
    {
      hide Inv, SearchInv, UsedMinus, PayloadsKept;
      if ptr == 0 {
        return;
      }
      var p := ptr - 8;
      LiveRuns(mem, arena, bins, home, p);
      var hd := Get(mem, p, SIZE);
      var sz := hd - hd % 2;
      if p + sz == Get(mem, AV, FD) {
        FreeTop(p, sz, arena);
      } else {
        FreeInside(p, sz, arena);
      }
    }

    // The rest of free: coalesce with the free neighbours, keep or pass on the
    // last remainder, and link the result into its bin otherwise.
    method FreeInside(p0: int, sz0: int, ghost A: Arena)
      requires Valid() && Running() && arena == A && A.Used(p0) && A.Next(p0) != A.top
      requires sz0 == A.chunks[p0].size
      modifies this`mem, this`arena, this`bins, this`home
      ensures Valid() && Running()
      ensures UsedMinus(A, arena, p0) && PayloadsKept(Freed(A, p0), old(mem), mem)
    {
      hide Inv, SearchInv, Lists, Threads, Members, Shape, Tiled, KnowsPrev, Aligned, Coalesced, Tags, Heads, Feet,
        Backs, Homes, Listed, AllHomed, Blocks, Kept, TagsKept, PayloadsKept, ChunkTagsKept, UsedMinus, Region,
        GivenMem, LeftListed, BackDone;
      ghost var m0, bins0, home0, F := mem, bins, home, Freed(A, p0);
      InvParts(mem, arena, bins, home);
      Surroundings(mem, A, p0);
      FreedTiled(A, bins, home, p0);
      var next := p0 + sz0;
      var nextsz := HeadSize(mem, next);
      var hd := Get(mem, p0, SIZE);
      ClearInuse(mem, A, bins, home, p0, next, nextsz);
      mem := Set(mem, next, SIZE, nextsz);
      ghost var m1 := mem;
      var p, sz, islr := MergeBackward(p0, sz0, hd % 2 == 1, A, m0, next, nextsz);
      ghost var m2 := mem;
      sz, islr := MergeForward(p, sz, islr, next, nextsz, A, home0, p0, m0, m1);
      KeptTrans(F, m1, m2, mem);
      ghost var e := p + sz;
      KeptParts(F, m1, mem);
      FreedKept(A, p0, m1, mem);
      PayloadsTrans(F, m0, m1, mem);
      FreeMerged(m0, m1, mem, A, bins0, home0, bins, home, p, p0, next, e, islr);
      RegionEnds(A, p, p0, next, e);
      mem := GivenMem(mem, p, sz);
      arena := Given(A, p, e);
      FinishFree(p, sz, islr, m0, A, p0, next, e, home0);
    }

    // "consolidate backward", keeping the chunk in front listed if it is the
    // last remainder.
    method MergeBackward(p0: int, sz0: int, prevInuse: bool, ghost A: Arena, ghost m0: Mem, ghost n: int,
                         ghost nsz: int)
      returns (p: int, sz: int, islr: bool)
      requires |bins| == NAV && A.Used(p0) && n == A.Next(p0) && sz0 == A.chunks[p0].size
      requires Shape(A) && Tiled(A) && Aligned(A) && Coalesced(A) && Tags(m0, A) && mem == Set(m0, n, SIZE, nsz)
      requires Tiled(Freed(A, p0)) && Homes(Freed(A, p0), bins, home) && Lists(mem, bins, home) && Blocks(mem, bins)
      requires AllHomed(A, home) && p0 !in home && prevInuse == A.chunks[p0].prevUsed
      modifies this`mem, this`bins, this`home
      ensures |bins| == NAV && Lists(mem, bins, home) && Homes(Freed(A, p0), bins, home) && Blocks(mem, bins)
      ensures Kept(Freed(A, p0), old(mem), mem) && BackDone(A, old(home), home, p, p0, islr)
      ensures p + sz == n && (p == p0 || A.Free(p))
    {
      hide Inv, SearchInv, Lists, Threads, Members, Shape, Tiled, KnowsPrev, Aligned, Coalesced, Tags, Heads, Feet,
        Backs, Homes, Listed, AllHomed, Blocks, Kept, TagsKept, PayloadsKept, ChunkTagsKept, BackDone;
      ghost var home0, F := home, Freed(A, p0);
      KeptReflAll(F, mem);
      p, sz, islr := p0, sz0, false;
      if !prevInuse {
        ChunkBefore(m0, A, p0);
        ClearInuseBefore(m0, A, p0, n, nsz);
        var prevsz := Get(mem, p, PREV_SIZE);
        p := p - prevsz;
        sz := sz + prevsz;
        FreeListed(A, home, p);
        RemainderLink(mem, F, bins, home, p);
        if Get(mem, p, FD) == LAST_REMAINDER {
          islr := true;
        } else {
          UnlinkChunk(p, F);
        }
      }
      BackwardDone(A, home0, home, p, p0, n, islr);
    }

    // "consolidate forward": a last remainder behind hands its role on.
    method MergeForward(p: int, sz0: int, islr0: bool, next: int, nextsz: int,
                        ghost A: Arena, ghost home0: map<int, int>, ghost p0: int, ghost m0: Mem, ghost m1: Mem)
      returns (sz: int, islr: bool)
      requires |bins| == NAV && A.Used(p0) && next == A.Next(p0) && next in A.chunks && nextsz == A.chunks[next].size
      requires Shape(A) && Tiled(A) && Aligned(A) && Coalesced(A) && Tags(m0, A) && m1 == Set(m0, next, SIZE, nextsz)
      requires Tiled(Freed(A, p0)) && Homes(Freed(A, p0), bins, home) && Lists(mem, bins, home) && Blocks(mem, bins)
      requires Listed(A, home0) && AllHomed(A, home0) && BackDone(A, home0, home, p, p0, islr0)
      requires Kept(Freed(A, p0), m1, mem) && p + sz0 == next && (p == p0 || A.Free(p))
      modifies this`mem, this`bins, this`home
      ensures |bins| == NAV && Lists(mem, bins, home) && Homes(Freed(A, p0), bins, home) && Blocks(mem, bins)
      ensures Kept(Freed(A, p0), old(mem), mem)
      ensures Region(A, p, p0, next, p + sz) && LeftListed(home0, home, p, next, islr)
    {
      hide Inv, SearchInv, Lists, Threads, Members, Shape, Tiled, KnowsPrev, Aligned, Coalesced, Tags, Heads, Feet,
        Backs, Homes, Listed, AllHomed, Blocks, Kept, TagsKept, PayloadsKept, ChunkTagsKept, BackDone, LeftListed,
        Region;
      ghost var home1, m2, F := home, mem, Freed(A, p0);
      KeptReflAll(F, mem);
      sz, islr := sz0, islr0;
      ChunkAfter(m0, A, next);
      ClearInuseAfter(m0, m1, m2, A, F, p0, next, nextsz);
      if Get(mem, next + nextsz, SIZE) % 2 == 0 {
        sz := sz + nextsz;
        NextListed(A, home0, home, p, p0, next, islr);
        RemainderLink(mem, F, bins, home, next);
        if !islr && Get(mem, next, FD) == LAST_REMAINDER {
          islr := true;
          MergedFree(A, p, p0);
          NotYetListed(A, home0, home, p, p0, next);
          LinkRemainder(p, next, F);
        } else {
          UnlinkChunk(next, F);
        }
      }
      ForwardDone(A, home0, home1, home, p, p0, next, p + sz, islr0, islr);
    }

    // if (!islr) frontlink(p, sz, ...)
    method FinishFree(p: int, sz: int, islr: bool, ghost m0: Mem, ghost A: Arena, ghost p0: int, ghost n: int,
                      ghost e: int,
                      ghost home0: map<int, int>)
      requires Placed() && sbrkBase == start && |bins| == NAV && A.base == start && A.top + A.topSize == brk <= end
      requires A.Used(p0) && e in A.chunks && e == p + sz && arena == Given(A, p, e)
      requires Shape(arena) && Aligned(arena) && Coalesced(arena) && Tags(mem, arena) && Tiled(arena)
        && Heads(mem, arena)
      requires Lists(mem, bins, home) && Homes(arena, bins, home) && Blocks(mem, bins)
      requires forall a :: arena.Free(a) && a != p ==> a in home
      requires PayloadsKept(Freed(A, p0), m0, mem) && UsedMinus(A, arena, p0)
      requires arena.Free(p) && SizeIn(arena, p) == sz && LeftListed(home0, home, p, n, islr)
      modifies this`mem, this`bins, this`home
      ensures Valid() && Running()
      ensures PayloadsKept(Freed(A, p0), m0, mem)
    {
      hide Inv, SearchInv, Lists, Threads, Members, Shape, Tiled, KnowsPrev, Aligned, Coalesced, Tags, Heads, Feet,
        Backs, Homes, Listed, AllHomed, Blocks, Kept, TagsKept, PayloadsKept, ChunkTagsKept, UsedMinus, LeftListed,
        Given;
      ListedIff(home0, home, p, n, islr);
      ghost var m3 := mem;
      if !islr {
        ghost var _ := Frontlink(p, sz);
        TagsFrame(arena, m3, mem);
        GivenPayloads(A, arena, p0, m3, mem);
        PayloadsTrans(Freed(A, p0), m0, m3, mem);
      }
      AllHomedNow(arena, home, p);
      InvWhole(mem, arena, bins, home);
      GivenEnds(A, p, e);
    }

    // ---- clients ----

    // A client may write any word of a payload it owns.
    method Store(p: int, c: int, v: int)
      requires Valid() && InPayload(arena, p - 8, c)
      modifies this`mem
      ensures Valid() && mem == Set(old(mem), c, 0, v)
      ensures forall a, d {:trigger InPayload(arena, a, d)} ::
        InPayload(arena, a, d) && a != p - 8 ==> Get(mem, d, 0) == Get(old(mem), d, 0)
    {
      hide Inv, SearchInv;
      LiveRuns(mem, arena, bins, home, p - 8);
      StoreKeeps(mem, arena, bins, home, p - 8, c, v);
      mem := Set(mem, c, 0, v);
    }

    // Any sequence of requests, releases and writes by clients, with the
    // answers to it.  The heap is well formed to the end if and only if the
    // first request that is not refused outright fits the arena; the run ends
    // where that fails.  The chunks in use are exactly those the client still
    // holds, each has room for its request unless the padding was taken for a
    // negative number, and what was written last is still there.
    method Run(ops: seq<Op>) returns (answers: seq<int>, ghost before: seq<Arena>)
      requires Valid() && Initial() && IsTrace(ops)
      modifies this
      ensures Valid() <==> FirstFits(ops, end - start)
      ensures |answers| <= |ops| && (Valid() ==> |answers| == |ops|)
      // Nothing is refused that the arena of that moment, before[i], has room for.
      ensures |before| == |answers| && forall i :: 0 <= i < |answers| ==>
        AsHeld(before[i], ops, answers, i) && Justified(before[i], ops[i], answers[i], end)
      ensures Valid() ==> forall a :: arena.Used(a) <==> a + 8 in After(ops, answers).live
      ensures Valid() ==> var live := After(ops, answers).live;
        forall p :: p in live && live[p] <= MAX_REQUEST ==> live[p] <= SizeIn(arena, p - 8) - 4
      ensures Valid() ==> Stored(mem, arena, After(ops, answers))
    {
      hide Inv, SearchInv, Request2Size, PayloadsKept, Served, RoundUpPage, NoRoom, UsedMinus, InPayload, Tiled, Stored;
      answers, before := [], [];
      var client := Client(map[], map[]);
      NothingHeld(mem, arena, bins, home);
      while |answers| < |ops|
        invariant |answers| <= |ops| && Valid() && client == After(ops, answers)
        invariant if Running() then FirstFits(ops, end - start)
                  else client.live == map[] && FirstFits(ops, end - start) == FirstFits(ops[|answers|..], end - start)
        invariant |before| == |answers| && forall k :: 0 <= k < |answers| ==>
          AsHeld(before[k], ops, answers, k) && Justified(before[k], ops[k], answers[k], end)
        invariant Holds(arena, client.live) && Stored(mem, arena, client)
      {
        var i := |answers|;
        assert ops[i] in ops && ops[i..][0] == ops[i] && ops[i..][1..] == ops[i + 1..];
        ghost var A := arena;
        AllUsed(arena, client.live);
        var p := Perform(ops[i], client);
        if sbrkBase == 0 {
          return;
        }
        client := Answered(client, ops[i], p);
        assert (answers + [p])[..i] == answers;
        assert forall k :: 0 <= k < i ==> (answers + [p])[..k] == answers[..k];
        answers, before := answers + [p], before + [A];
      }
    }

    // One operation of a client.  If it is the first request, and does not fit
    // the arena, all is lost.
    method Perform(op: Op, client: Client) returns (p: int)
      requires Valid() && Holds(arena, client.live) && Stored(mem, arena, client) && IsTrace([op])
      requires Running() || client.live == map[]
      modifies this
      ensures var lost := old(Initial()) && op.Request? && op.bytes < SIGN && !FirstFits([op], end - start);
        if lost then !Valid() && sbrkBase == 0
        else
          && Valid() && (old(Running()) ==> Running()) && sbrkBase != 0
          && (old(Initial()) ==> if op.Request? && op.bytes < SIGN then Running() else Initial())
          && (Initial() ==> Answered(client, op, p).live == map[])
          && Holds(arena, Answered(client, op, p).live) && Stored(mem, arena, Answered(client, op, p))
          && Justified(old(arena), op, p, end)
    {
      hide Inv, SearchInv, Request2Size, PayloadsKept, Served, UsedMinus, InPayload, Tiled, Stored, RoundUpPage, NoRoom,
        Trimmed;
      assert op in [op];
      ghost var A, m0, bins0, home0 := arena, mem, bins, home;
      p := 0;
      match op {
        case Request(bytes) =>
          if bytes < SIGN { Request2SizeFits(bytes); }
          ghost var how;
          p, how := Malloc(bytes);
          if sbrkBase == 0 {
            return;
          }
          if p != 0 {
            HoldsServed(A, m0, arena, mem, client, p, bytes);
          } else if bytes < SIGN {
            NoRoomLeft(m0, A, bins0, home0, Request2Size(bytes), end);
            StoredKept(A, m0, mem, client);
          }
        case Release(q) =>
          if q in client.live {
            assert q != 0 by { HeldNotNull(mem, arena, bins, home, client.live, q); }
            Free(q);
            HoldsFreed(A, m0, arena, mem, client, q);
          }
        case Write(q, c, v) =>
          if q in client.live && MayWrite(client.live[q], q, c) {
            WriteInside(arena, client.live, q, c);
            HeldNotNull(mem, arena, bins, home, client.live, q);
            Store(q, c, v);
            StoredMore(arena, m0, client, q, c, v);
          }
      }
    }
  }

  predicate IsTrace(ops: seq<Op>) {
    forall op :: op in ops && op.Request? ==> 0 <= op.bytes < WORD
  }

  // What the client holds, with what it asked for, and what it wrote last at
  // each address of that.
  datatype Client = Client(live: map<int, int>, stored: map<(int, int), int>)

  // A word of the bytes that were asked for.
  predicate MayWrite(bytes: int, p: int, c: int) {
    bytes <= MAX_REQUEST && p <= c && c + 4 <= p + bytes
  }

  function Answered(s: Client, op: Op, answer: int): Client {
    match op
    case Request(bytes) => if answer == 0 then s else s.(live := s.live[answer := bytes])
    case Release(p) =>
      if p !in s.live then s else Client(s.live - {p}, map k | k in s.stored && k.0 != p :: s.stored[k])
    case Write(p, c, v) =>
      if p in s.live && MayWrite(s.live[p], p, c) then s.(stored := s.stored[(p, c) := v]) else s
  }

  function After(ops: seq<Op>, answers: seq<int>): Client
    requires |answers| <= |ops|
    decreases |answers|
  {
    if answers == [] then Client(map[], map[])
    else
      var n := |answers| - 1;
      Answered(After(ops, answers[..n]), ops[n], answers[n])
  }

  // The first request that malloc does not refuse outright fits the arena.
  predicate FirstFits(ops: seq<Op>, room: int)
    requires IsTrace(ops)
  {
    if ops == [] then true
    else if ops[0].Request? && ops[0].bytes < SIGN then Request2Size(ops[0].bytes) + MINSIZE <= room
    else FirstFits(ops[1..], room)
  }

  lemma TopAtZero(m: Mem, at: int, w: int)
    ensures at == 0 ==> Get(Set(Set(m, AV, FD, at), at, SIZE, w), AV, FD) == 0
  {
  }

  lemma RoundUpPageBounds(e: int)
    requires 0 <= e
    ensures RoundUpPage(e) % PAGE == 0 && e <= RoundUpPage(e) < e + 4096
  {
  }

  // Rounding up to a page stays below a bound that is one.
  lemma RoundUpPageBelow(e: int, end: int)
    requires 0 <= e <= end && end % PAGE == 0
    ensures RoundUpPage(e) <= end
  {
    RoundUpPageBounds(e);
    hide RoundUpPage;
    var r := RoundUpPage(e);
    assert r % PAGE == 0 && end % PAGE == 0 && r < end + PAGE;
  }

  lemma PageIsAligned(x: int)
    requires x % PAGE == 0
    ensures x % 8 == 0
  {
  }

  // Rounding the end of the first memory up to a page stays inside an arena
  // that ends on one.
  lemma PageArithmetic(start: int, end: int, sz: int)
    requires 0 <= start < end < WORD && start % PAGE == 0 && end % PAGE == 0
    requires 0 <= sz <= end - start && sz % 8 == 0
    ensures var e := (start + sz) % WORD; var c := (RoundUpPage(e) % WORD - e) % WORD;
      && e == start + sz && c == RoundUpPage(e) - e && 0 <= c && e + c <= end && (sz + c) % 8 == 0
    ensures (start + 8) % 8 == 0
  {
    var e := start + sz;
    RoundUpPageBounds(e);
    RoundUpPageBelow(e, end);
    PageIsAligned(start);
    PageIsAligned(RoundUpPage(e));
  }

  // A request sbrk cannot satisfy never wraps around into the arena.
  lemma SbrkArithmetic(brk: int, sz: int, start: int, end: int)
    requires 0 <= start <= brk <= end < WORD && end - start <= SIGN / 2 && 0 <= sz <= SIGN + 2 * PAGE
    ensures start <= (brk + sz) % WORD <= end <==> brk + sz <= end
    ensures brk + sz <= end ==> (brk + sz) % WORD == brk + sz
  {
  }

  lemma ListsMembers(m: Mem, bins: seq<seq<int>>, home: map<int, int>)
    requires Lists(m, bins, home)
    ensures Members(bins, home) && Threads(m, bins) && |bins| == NAV
  {
  }

  lemma EmptyPlace(A: Arena, s: seq<int>, sz: int)
    requires s == []
    ensures Place(A, s, 0, sz)
  {
  }

  lemma PlaceBounds(A: Arena, s: seq<int>, k: int, sz: int)
    requires Place(A, s, k, sz)
    ensures 0 <= k <= |s|
  {
  }

  // An empty heap: nothing in any bin.
  lemma EmptyHeap(m: Mem, start: int)
    requires LOW <= start && start % 8 == 0
    requires forall j {:trigger BinAt(j)} :: 1 <= j < NAV ==>
      Get(m, BinAt(j), FD) == BinAt(j) && Get(m, BinAt(j), BK) == BinAt(j)
    requires Get(m, AV, SIZE) == 0
    ensures SearchInv(m, Arena(start, map[], start, MINSIZE), seq(NAV, i => []), map[])
  {
    var bins: seq<seq<int>> := seq(NAV, i => []);
    forall i | 1 <= i < NAV
      ensures Linked(m, FD, BK, BinAt(i), bins[i])
    {
      assert Ring(BinAt(i), bins[i]) == [BinAt(i), BinAt(i)];
      assert Get(m, BinAt(i), FD) == BinAt(i) && Get(m, BinAt(i), BK) == BinAt(i);
    }
  }

  lemma TopWords(m: Mem, A: Arena, bins: seq<seq<int>>, home: map<int, int>, isNew: bool)
    requires if isNew then Get(m, AV, FD) == AV && Get(m, AV, SIZE) == 0 else Inv(m, A, bins, home)
    ensures isNew ==> HeadSize(m, AV) == 0
    ensures !isNew ==>
      Get(m, AV, FD) == A.top && HeadSize(m, A.top) == A.topSize && A.top >= LOW && A.topSize % 8 == 0
        && A.topSize >= MINSIZE
    ensures !isNew ==> A.base <= A.top
  {
  }

  lemma KeptRefl(A: Arena, m: Mem)
    ensures PayloadsKept(A, m, m) && SameUsed(A, A)
  {
  }

  lemma TopIsHigh(m: Mem, A: Arena, bins: seq<seq<int>>, home: map<int, int>)
    ensures Inv(m, A, bins, home) ==> Get(m, AV, FD) >= LOW
  {
  }

  lemma NothingLive(A: Arena, m: Mem, m': Mem)
    ensures A.chunks == map[] ==> PayloadsKept(A, m, m')
  {
  }

  // B is A after a request padded to nb was served with the chunk v.
  ghost predicate Served(A: Arena, m: Mem, B: Arena, m': Mem, v: int, nb: int) {
    && !A.Used(v) && B.Used(v) && nb <= SizeIn(B, v) < nb + MINSIZE
    && UsedPlus(A, B, v) && PayloadsKept(A, m, m')
  }

  lemma ServedWhole(A: Arena, m: Mem, B: Arena, m': Mem, v: int, nb: int)
    requires UsedPlus(A, B, v) && PayloadsKept(A, m, m') && SizeIn(B, v) == nb && A.Free(v)
    ensures Served(A, m, B, m', v, nb)
  {
    assert B.Used(v);
  }

  lemma ServedNear(A: Arena, m: Mem, B: Arena, m': Mem, v: int, size: int, nb: int)
    requires UsedPlus(A, B, v) && PayloadsKept(A, m, m') && SizeIn(B, v) == size && A.Free(v)
    requires nb <= size < nb + MINSIZE
    ensures Served(A, m, B, m', v, nb)
  {
    assert B.Used(v);
  }

  lemma ServedSince(m0: Mem, m1: Mem, A: Arena, B: Arena, m': Mem, v: int, nb: int)
    requires PayloadsKept(A, m0, m1) && Served(A, m1, B, m', v, nb)
    ensures Served(A, m0, B, m', v, nb)
  {
  }

  lemma InvSearch(m: Mem, A: Arena, bins: seq<seq<int>>, home: map<int, int>)
    ensures Inv(m, A, bins, home) ==> SearchInv(m, A, bins, home)
  {
  }

  lemma BinnedSize(m: Mem, A: Arena, bins: seq<seq<int>>, home: map<int, int>, i: int, k: nat)
    requires Inv(m, A, bins, home) && |bins| == NAV && 1 <= i < NAV && k < |bins[i]|
    ensures A.Free(bins[i][k]) && HeadSize(m, bins[i][k]) == SizeIn(A, bins[i][k])
    ensures A.Next(bins[i][k]) == bins[i][k] + SizeIn(A, bins[i][k])
  {
    hide Inv, SearchInv;
    InvSearch(m, A, bins, home);
    Walk(m, A, bins, home, i, k);
    SearchParts(m, A, bins, home);
    hide Shape, Tiled, KnowsPrev, Aligned, Coalesced, Heads, Lists, Threads, Members, Homes, AllHomed, Blocks;
  }

  lemma LastOf(m: Mem, A: Arena, bins: seq<seq<int>>, home: map<int, int>, i: int)
    requires SearchInv(m, A, bins, home) && |bins| == NAV && 1 <= i < NAV
    ensures Get(m, BinAt(i), BK) == NodeBefore(bins, i, |bins[i]| - 1)
    ensures Get(m, BinAt(i), BK) == BinAt(i) <==> bins[i] == []
    ensures bins[i] != [] ==> Get(m, BinAt(i), BK) >= LOW
  {
    hide SearchInv;
    SearchParts(m, A, bins, home);
    LastNode(m, bins, home, i);
    if bins[i] != [] { Walk(m, A, bins, home, i, |bins[i]| - 1); }
  }

  // The last chunk of the request's own small bin, or of the next one when
  // that is empty, is a best fit.
  lemma SmallBest(m: Mem, A: Arena, bins: seq<seq<int>>, home: map<int, int>, nb: int, i: int, k: nat)
    requires SearchInv(m, A, bins, home) && |bins| == NAV && nb % 8 == 0 && MINSIZE <= nb < 504
    requires i == nb / 8 || (i == nb / 8 + 1 && bins[nb / 8] == [])
    requires k < |bins[i]|
    ensures nb <= SizeIn(A, bins[i][k]) < nb + MINSIZE && BestFit(A, home, nb, bins[i][k])
  {
    hide SearchInv, Shape, Coalesced, Heads, Lists, Threads, AllHomed, Blocks, KnowsPrev;
    SearchParts(m, A, bins, home);
    var v := bins[i][k];
    assert v in bins[i] && v in home && home[v] == i;
    SmallSize(A, bins, home, v);
    forall w | w in home && home[w] >= 2 && SizeIn(A, w) >= nb
      ensures SizeIn(A, w) >= SizeIn(A, v)
    {
      if home[w] <= 63 {
        SmallSize(A, bins, home, w);
        assert w in bins[home[w]];
      } else {
        assert home[w] == BinIndex(SizeIn(A, w));
        SizeOfListed(A, bins, home, w);
        BinIndexRange(SizeIn(A, w));
      }
    }
  }

  lemma SizeOfListed(A: Arena, bins: seq<seq<int>>, home: map<int, int>, x: int)
    requires Tiled(A) && Aligned(A) && Homes(A, bins, home) && x in home
    ensures SizeIn(A, x) >= MINSIZE && SizeIn(A, x) % 8 == 0 && A.Free(x)
  {
    assert A.Free(x) && x in A.chunks;
  }

  lemma SmallSize(A: Arena, bins: seq<seq<int>>, home: map<int, int>, x: int)
    requires Tiled(A) && Aligned(A) && Homes(A, bins, home) && x in home && 2 <= home[x] <= 63
    ensures SizeIn(A, x) == 8 * home[x]
  {
    SizeOfListed(A, bins, home, x);
    BinIndexRange(SizeIn(A, x));
  }

  lemma SmallMiss(m: Mem, A: Arena, bins: seq<seq<int>>, home: map<int, int>, nb: int)
    requires SearchInv(m, A, bins, home) && |bins| == NAV && nb % 8 == 0 && MINSIZE <= nb < 504
    requires bins[nb / 8] == [] && bins[nb / 8 + 1] == []
    ensures SearchFrom(A, bins, home, nb, nb / 8 + 2)
  {
    hide SearchInv, Shape, Coalesced, Heads, Lists, Threads, AllHomed, Blocks, KnowsPrev;
    SearchParts(m, A, bins, home);
    BinIndexRange(nb);
    forall x | x in home && 2 <= home[x] < nb / 8 + 2
      ensures SizeIn(A, x) < nb
    {
      assert x in bins[home[x]];
      SmallSize(A, bins, home, x);
    }
  }

  lemma LargeFound(m: Mem, A: Arena, bins: seq<seq<int>>, home: map<int, int>, nb: int, i: int, k: nat)
    requires SearchInv(m, A, bins, home) && |bins| == NAV && 504 <= nb && i == BinIndex(nb) && 4 <= i < NAV
    requires k < |bins[i]| && NoFitAfter(A, bins[i], k, nb) && SizeIn(A, bins[i][k]) >= nb
    ensures HeadSize(m, bins[i][k]) == SizeIn(A, bins[i][k]) && bins[i][k] >= LOW
    ensures BestFit(A, home, nb, bins[i][k]) && SearchFrom(A, bins, home, nb, i)
  {
    hide SearchInv, Shape, Coalesced, Heads, Threads, AllHomed, Blocks, KnowsPrev, Lists, BinIndex;
    SearchParts(m, A, bins, home);
    Walk(m, A, bins, home, i, k);
    var v := bins[i][k];
    assert v in bins[i] && v in home && home[v] == i;
    forall x | x in home && 2 <= home[x] < i
      ensures SizeIn(A, x) < nb
    {
      LowerBinMisses(A, bins, home, nb, x);
    }
    FoundBest(A, bins, home, nb, i, i, k);
  }

  lemma LargeMiss(m: Mem, A: Arena, bins: seq<seq<int>>, home: map<int, int>, nb: int, i: int)
    requires SearchInv(m, A, bins, home) && |bins| == NAV && 504 <= nb && i == BinIndex(nb) && 4 <= i < NAV - 1
    requires NoFitAfter(A, bins[i], -1, nb)
    ensures SearchFrom(A, bins, home, nb, i + 1)
  {
    hide SearchInv, Shape, Coalesced, Heads, Threads, AllHomed, Blocks, KnowsPrev, Lists, BinIndex, Tiled, Aligned;
    SearchParts(m, A, bins, home);
    forall x | x in home && 2 <= home[x] < i + 1
      ensures SizeIn(A, x) < nb
    {
      if home[x] < i {
        LowerBinMisses(A, bins, home, nb, x);
      } else {
        assert x in bins[i];
        var l :| 0 <= l < |bins[i]| && bins[i][l] == x;
      }
    }
  }

  // ---- the last remainder ----

  lemma FirstOf(m: Mem, A: Arena, bins: seq<seq<int>>, home: map<int, int>)
    requires SearchInv(m, A, bins, home) && |bins| == NAV
    ensures Get(m, LAST_REMAINDER, FD) == LAST_REMAINDER <==> bins[1] == []
    ensures bins[1] != [] ==> bins[1] == [Get(m, LAST_REMAINDER, FD)]
    ensures bins[1] == [] ==> forall x :: x in home ==> home[x] >= 2
  {
    hide SearchInv;
    SearchParts(m, A, bins, home);
    FirstNode(m, bins, home, 1);
    if bins[1] == [] { OneBin(bins, home); }
  }

  lemma OneBin(bins: seq<seq<int>>, home: map<int, int>)
    requires Members(bins, home) && bins[1] == []
    ensures forall x :: x in home ==> home[x] >= 2
  {
    forall x | x in home
      ensures home[x] >= 2
    {
      assert x in bins[home[x]];
    }
  }

  lemma NothingListed(A: Arena, home: map<int, int>)
    requires Listed(A, home) && A.chunks == map[]
    ensures home == map[]
  {
    assert forall x :: x in home ==> A.Free(x);
    assert forall x :: x !in home;
  }

  lemma RemainderFacts(m: Mem, A: Arena, bins: seq<seq<int>>, home: map<int, int>, v: int, initial: bool)
    requires SearchInv(m, A, bins, home) && |bins| == NAV && bins[1] == [v]
    requires if initial then A.chunks == map[] else Inv(m, A, bins, home)
    ensures !initial && v in home && home[v] == 1 && A.Free(v) && v >= LOW
    ensures HeadSize(m, v) == SizeIn(A, v) && A.Next(v) == v + SizeIn(A, v) && A.Next(v) in A.chunks
    ensures SizeIn(A, v) % 8 == 0 && SizeIn(A, v) >= MINSIZE
  {
    hide SearchInv, Inv, Shape, KnowsPrev, Coalesced, Heads, Lists, Threads, AllHomed, Blocks, Tags, Feet, Backs;
    SearchParts(m, A, bins, home);
    MemberHome(bins, home, 1, 0);
    if initial { NothingListed(A, home); }
    InvParts(m, A, bins, home);
    Walk(m, A, bins, home, 1, 0);
    SizeOfListed(A, bins, home, v);
    FreeChunkKnows(m, A, v);
  }

  lemma RebinCleared(m: Mem, A: Arena, bins: seq<seq<int>>, home: map<int, int>, v: int)
    requires Inv(m, A, bins, home) && |bins| == NAV && bins[1] == [v]
    ensures var m1 := ClearLastRemainder(m);
      && Tiled(A) && Aligned(A) && Heads(m1, A) && v !in home - {v}
      && Lists(m1, bins[1 := []], home - {v}) && Homes(A, bins[1 := []], home - {v}) && Blocks(m1, bins[1 := []])
  {
    hide Inv, SearchInv, Shape, Tiled, KnowsPrev, Aligned, Coalesced, Tags, Heads, Feet, Backs, Lists, Threads,
      Members, Homes, AllHomed, ClearLastRemainder, PayloadsKept;
    InvParts(m, A, bins, home);
    var m1 := ClearLastRemainder(m);
    ClearRemainderKeeps(m, A, bins, home);
    RemainderHomes(A, bins, home, []);
    assert RemainderHome(bins, home, []) == home - {v};
    TagsFrame(A, m, m1);
    TagsHeads(m1, A);
  }

  lemma TagsHeads(m: Mem, A: Arena)
    requires Tags(m, A)
    ensures Heads(m, A)
  {
  }

  // At most the last remainder, too small for the request, changed bins.
  ghost predicate Rehomed(A: Arena, home0: map<int, int>, home: map<int, int>, nb: int) {
    && (forall x :: x in home0 <==> x in home) && (forall x :: x in home ==> home[x] >= 2)
    && (forall x :: x in home0 && home0[x] != 1 ==> home[x] == home0[x])
    && (forall x :: x in home0 && home0[x] == 1 ==> SizeIn(A, x) < nb)
  }

  lemma Rebinned(m0: Mem, m1: Mem, m2: Mem, A: Arena, bins0: seq<seq<int>>, home0: map<int, int>,
                 bins: seq<seq<int>>, home: map<int, int>, v: int, nb: int, idx: int)
    requires Inv(m0, A, bins0, home0) && |bins0| == NAV && bins0[1] == [v] && m1 == ClearLastRemainder(m0)
    requires |bins| == NAV && Lists(m2, bins, home) && Homes(A, bins, home) && Blocks(m2, bins)
    requires v in home0 && SizeIn(A, v) < nb && SizeIn(A, v) >= MINSIZE
    requires home == (home0 - {v})[v := BinIndex(SizeIn(A, v))]
    requires ChunkTagsKept(A, m1, m2) && PayloadsKept(A, m1, m2)
    requires SearchFrom(A, bins0, home0, nb, idx)
    ensures Inv(m2, A, bins, home) && PayloadsKept(A, m0, m2) && bins[1] == []
    ensures Rehomed(A, home0, home, nb) && SearchFrom(A, bins, home, nb, idx)
  {
    hide Inv, SearchInv, Shape, Tiled, KnowsPrev, Aligned, Coalesced, Tags, Heads, Feet, Backs, Lists, Threads,
      Members, Homes, AllHomed, ClearLastRemainder, PayloadsKept, Blocks, ChunkTagsKept, SearchFrom, BinIndex;
    InvParts(m0, A, bins0, home0);
    ClearRemainderKeeps(m0, A, bins0, home0);
    TagsFrame(A, m0, m1);
    TagsFrame(A, m1, m2);
    PayloadsTrans(A, m0, m1, m2);
    RebinnedHome(A, bins0, home0, bins, home, v, nb, idx, m2);
    InvWhole(m2, A, bins, home);
  }

  lemma NoRemainder(bins: seq<seq<int>>, home: map<int, int>)
    requires Members(bins, home) && forall x :: x in home ==> home[x] != 1
    ensures bins[1] == []
  {
    if bins[1] != [] { var x := TheRemainder(bins, home); }
  }

  lemma TheRemainder(bins: seq<seq<int>>, home: map<int, int>) returns (x: int)
    requires Members(bins, home) && bins[1] != []
    ensures x in home && home[x] == 1
  {
    MemberHome(bins, home, 1, 0);
    x := bins[1][0];
  }

  lemma RebinnedHome(A: Arena, bins0: seq<seq<int>>, home0: map<int, int>,
                     bins: seq<seq<int>>, home: map<int, int>, v: int, nb: int, idx: int, m2: Mem)
    requires |bins0| == NAV && bins0[1] == [v] && Members(bins0, home0) && AllHomed(A, home0)
    requires |bins| == NAV && Lists(m2, bins, home)
    requires v in home0 && MINSIZE <= SizeIn(A, v) < nb
    requires home == (home0 - {v})[v := BinIndex(SizeIn(A, v))]
    requires SearchFrom(A, bins0, home0, nb, idx)
    ensures AllHomed(A, home) && bins[1] == [] && SearchFrom(A, bins, home, nb, idx)
    ensures Rehomed(A, home0, home, nb)
  {
    hide Lists, Threads, BinIndex;
    assert Members(bins, home) by { ListsMembers(m2, bins, home); }
    assert home0[v] == 1 by { MemberHome(bins0, home0, 1, 0); }
    BinIndexRange(SizeIn(A, v));
    BinIndexMonotone(SizeIn(A, v), nb);
    forall x | x in home0 && home0[x] == 1
      ensures x == v
    {
      assert x in bins0[1];
    }
    NoRemainder(bins, home);
    if idx == BinIndex(nb) {
      var x :| x in home0 && home0[x] == idx && SizeIn(A, x) >= nb;
      assert x in home && home[x] == idx;
    }
  }

  // ---- after the search ----

  lemma BlocksWordKeeps(m: Mem, m1: Mem, A: Arena, bins: seq<seq<int>>, home: map<int, int>, initial: bool)
    requires SearchInv(m, A, bins, home) && (!initial ==> Inv(m, A, bins, home))
    requires (m1 == m || OnlyBlocksWord(m, m1)) && Blocks(m1, bins)
    ensures SearchInv(m1, A, bins, home) && (!initial ==> Inv(m1, A, bins, home)) && PayloadsKept(A, m, m1)
  {
    hide Inv, SearchInv, Shape, KnowsPrev, Aligned, Coalesced, Tags, Heads, Feet, Backs, Lists, Threads, Members,
      Homes, AllHomed, Blocks, OnlyBlocksWord, PayloadsKept;
    SearchParts(m, A, bins, home);
    HomesListed(A, bins, home);
    OnlyBlocksKeepsLists(m, m1, A, bins, home);
    OnlyBlocksTags(m, m1, A);
    HeadsFrame(A, m, m1);
    SearchWhole(m1, A, bins, home);
    if !initial {
      InvParts(m, A, bins, home);
      TagsFrame(A, m, m1);
      InvWhole(m1, A, bins, home);
    }
  }

  lemma SearchWhole(m: Mem, A: Arena, bins: seq<seq<int>>, home: map<int, int>)
    requires Shape(A) && Aligned(A) && Coalesced(A) && Heads(m, A)
    requires Lists(m, bins, home) && Homes(A, bins, home) && AllHomed(A, home) && Blocks(m, bins)
    ensures SearchInv(m, A, bins, home)
  {
  }

  lemma HeadsFrame(A: Arena, m: Mem, m': Mem)
    requires Heads(m, A) && ChunkTagsKept(A, m, m')
    ensures Heads(m', A)
  {
    forall a | a in A.chunks
      ensures Get(m', a, SIZE) == Head(A, a)
    {
      assert Get(m, a, SIZE) == Head(A, a);
    }
  }

  lemma OnlyBlocksTags(m: Mem, m1: Mem, A: Arena)
    requires Tiled(A) && (m1 == m || OnlyBlocksWord(m, m1))
    ensures ChunkTagsKept(A, m, m1) && PayloadsKept(A, m, m1)
  {
    if m1 != m {
      forall a, c | InPayload(A, a, c)
        ensures c != AV + SIZE
      {
        OutsidePayloads(A, AV + SIZE, a);
      }
    }
  }

  lemma FoundSize(m: Mem, A: Arena, bins: seq<seq<int>>, home: map<int, int>, nb: int, i: int, k: nat, initial: bool)
    requires SearchInv(m, A, bins, home) && |bins| == NAV && 2 <= i < NAV && k < |bins[i]|
    requires if initial then A.chunks == map[] else Inv(m, A, bins, home)
    requires BestFit(A, home, nb, bins[i][k])
    ensures var v := bins[i][k];
      && !initial && A.Free(v) && HeadSize(m, v) == SizeIn(A, v) && A.Next(v) == v + SizeIn(A, v)
      && SizeIn(A, v) >= nb && v in home && home[v] == i
  {
    hide Inv, SearchInv, Shape, Tiled, KnowsPrev, Aligned, Coalesced, Tags, Heads, Feet, Backs, Lists, Threads,
      Homes, AllHomed, Blocks;
    SearchParts(m, A, bins, home);
    MemberHome(bins, home, i, k);
    if initial { NothingListed(A, home); }
    BinnedSize(m, A, bins, home, i, k);
  }

  lemma TakeReordered(m: Mem, A: Arena, bins: seq<seq<int>>, home: map<int, int>, i: int, k: nat)
    requires Inv(m, A, bins, home) && |bins| == NAV && 1 <= i < NAV && k < |bins[i]|
    ensures var v := bins[i][k];
      && A.Free(v) && A.Next(v) in A.chunks
      && Unlink(TakenMem(m, A.Next(v)), FD, BK, v) == TakenMem(Unlink(m, FD, BK, v), A.Next(v))
  {
    hide Inv, SearchInv, Shape, Tiled, KnowsPrev, Aligned, Coalesced, Tags, Heads, Feet, Backs, Lists, Threads,
      Members, Homes, AllHomed, Blocks, Listed;
    InvParts(m, A, bins, home);
    MemberHome(bins, home, i, k);
    ListedFree(A, home, bins[i][k]);
    FreeChunkKnows(m, A, bins[i][k]);
    TakeOrder(m, A, bins, home, i, k);
  }

  // Which chunk each step of malloc may take: a binned chunk only if it is a
  // best fit, top only if nothing free fits.
  // The bins that are tried first hold no chunk that leaves no usable rest: for a
  // small request the two bins of such sizes, for a large one its own bin.
  ghost predicate NoExact(A: Arena, home: map<int, int>, nb: int) {
    forall x :: x in home && home[x] >= 2 && nb <= SizeIn(A, x) < nb + MINSIZE ==> nb >= 504 && home[x] != BinIndex(nb)
  }

  lemma SmallInexact(m: Mem, A: Arena, bins: seq<seq<int>>, home: map<int, int>, nb: int)
    requires SearchInv(m, A, bins, home) && |bins| == NAV && nb % 8 == 0 && MINSIZE <= nb < 504
    requires SearchFrom(A, bins, home, nb, nb / 8 + 2)
    ensures NoExact(A, home, nb)
  {
    hide SearchInv, Shape, Coalesced, Heads, Lists, Threads, AllHomed, Blocks, KnowsPrev;
    SearchParts(m, A, bins, home);
    forall x | x in home && home[x] >= 2 && nb <= SizeIn(A, x) < nb + MINSIZE
      ensures false
    {
      BinIndexRange(SizeIn(A, x));
    }
  }

  lemma LargeInexact(A: Arena, home: map<int, int>, nb: int, v: int)
    requires BestFit(A, home, nb, v) && SizeIn(A, v) >= nb + MINSIZE
    ensures NoExact(A, home, nb)
  {
  }

  lemma LargeNone(A: Arena, bins: seq<seq<int>>, home: map<int, int>, nb: int)
    requires |bins| == NAV && 504 <= nb && BinIndex(nb) + 1 < NAV && SearchFrom(A, bins, home, nb, BinIndex(nb) + 1)
    ensures NoExact(A, home, nb)
  {
  }

  // An exact fit is taken first, then the last remainder, then the best of the
  // bins, then top.
  ghost predicate Chosen(A: Arena, home: map<int, int>, nb: int, v: int, how: Step) {
    && (how == LastRemainder || how == Binned || how == Top || how == Exhausted ==> NoExact(A, home, nb))
    && match how
       case ExactFit => BestFit(A, home, nb, v) && SizeIn(A, v) < nb + MINSIZE
       case Binned => BestFit(A, home, nb, v) && forall x :: x in home && home[x] == 1 ==> SizeIn(A, x) < nb
       case LastRemainder => v in home && home[v] == 1 && SizeIn(A, v) >= nb
       case Top => v == A.top && forall x :: x in home ==> SizeIn(A, x) < nb
       case Exhausted => forall x :: x in home ==> SizeIn(A, x) < nb
       case Refused => false
  }

  lemma CarvedServed(m0: Mem, A: Arena, m: Mem, B: Arena, nb: int)
    requires PayloadsKept(A, m0, m) && A.chunks == B.chunks && A.top == B.top && B.top !in B.chunks
    requires UsedPlus(B, Carved(B, nb), B.top) && SizeIn(Carved(B, nb), B.top) == nb
    requires PayloadsKept(B, m, CarvedMem(m, B.top, nb, B.topSize - nb))
    ensures Served(A, m0, Carved(B, nb), CarvedMem(m, B.top, nb, B.topSize - nb), A.top, nb)
  {
    hide CarvedMem;
    var m' := CarvedMem(m, B.top, nb, B.topSize - nb);
    assert forall a, c :: InPayload(A, a, c) ==> InPayload(B, a, c);
    assert forall a :: A.Used(a) <==> B.Used(a);
    assert forall a :: A.Used(a) ==> SizeIn(A, a) == SizeIn(B, a);
  }

  lemma SmallTopSigned(topSize: int, nb: int)
    requires 0 <= topSize < SIGN && 0 <= nb < SIGN
    ensures Signed(topSize - nb) == topSize - nb
  {
  }

  lemma TopUnlisted(m: Mem, A: Arena, bins: seq<seq<int>>, home: map<int, int>)
    requires Inv(m, A, bins, home)
    ensures A.top !in A.chunks && A.topSize % 8 == 0 && A.topSize >= MINSIZE
  {
  }

  lemma RunningIfListed(m: Mem, A: Arena, bins: seq<seq<int>>, home: map<int, int>, nb: int, v: int, initial: bool)
    requires BestFit(A, home, nb, v) && SearchInv(m, A, bins, home)
    ensures A.chunks != map[]
  {
    if A.chunks == map[] { NothingListed(A, home); }
  }

  lemma ExactServed(A: Arena, m: Mem, B: Arena, m': Mem, v: int, nb: int)
    requires Served(A, m, B, m', v, SizeIn(A, v)) && SizeIn(B, v) == SizeIn(A, v)
    requires nb <= SizeIn(A, v) < nb + MINSIZE
    ensures Served(A, m, B, m', v, nb)
  {
  }

  lemma ServedAligned(m': Mem, B: Arena, bins: seq<seq<int>>, home: map<int, int>, A: Arena, m: Mem, v: int, nb: int)
    requires Inv(m', B, bins, home) && Served(A, m, B, m', v, nb)
    ensures v >= LOW && (v + 8) % 8 == 0
  {
    assert B.Used(v) && v in B.chunks;
  }

  lemma RehomedTo(A: Arena, home0: map<int, int>, home: map<int, int>, nb: int)
    requires Rehomed(A, home0, home, nb)
    ensures forall x :: BestFit(A, home, nb, x) ==> BestFit(A, home0, nb, x)
    ensures NoFit(A, home, nb) ==> forall x :: x in home0 ==> SizeIn(A, x) < nb
    ensures forall x :: x in home0 && home0[x] == 1 ==> SizeIn(A, x) < nb
  {
  }

  lemma LiveRuns(m: Mem, A: Arena, bins: seq<seq<int>>, home: map<int, int>, p: int)
    requires A.Used(p)
    ensures A.chunks != map[]
    ensures Inv(m, A, bins, home) ==>
      Get(m, p, SIZE) - Get(m, p, SIZE) % 2 == A.chunks[p].size && Get(m, AV, FD) == A.top
  {
    hide Lists, Homes, Coalesced, Blocks, AllHomed, Feet, Backs, KnowsPrev;
    if Inv(m, A, bins, home) {
      InvParts(m, A, bins, home);
      Surroundings(m, A, p);
    }
  }

  lemma TopGrows(A: Arena, q: int, p: int, brk: int)
    requires A.Used(p) && A.Next(p) == A.top && A.top + A.topSize == brk && q in A.chunks
    ensures GivenTop(A, q).top + GivenTop(A, q).topSize == brk && GivenTop(A, q).base == A.base
  {
  }

  // What trimming leaves is more than nothing and at most a page.
  lemma TrimAmount(topSize: int, extra: int)
    requires topSize >= MINSIZE && extra == ((topSize - MINSIZE + (PAGE - 1)) / PAGE - 1) * PAGE
    ensures extra >= PAGE <==> topSize > MINSIZE + PAGE
    ensures extra >= PAGE ==> MINSIZE < topSize - extra <= MINSIZE + PAGE && extra % PAGE == 0
  {
    var q := (topSize - MINSIZE + (PAGE - 1)) / PAGE;
    assert PAGE * q <= topSize - MINSIZE + (PAGE - 1) < PAGE * q + PAGE;
    WholePages(q - 1);
  }

  lemma TrimArithmetic(topSize: int, extra: int)
    requires topSize >= MINSIZE && topSize % 8 == 0
    requires extra == ((topSize - MINSIZE + (PAGE - 1)) / PAGE - 1) * PAGE
    ensures extra <= topSize - MINSIZE && (topSize - extra) % 8 == 0 && extra % PAGE == 0
  {
    var pages := (topSize - MINSIZE + (PAGE - 1)) / PAGE - 1;
    assert extra == pages * PAGE;
    WholePages(pages);
    EightLess(topSize, pages * (PAGE / 8));
  }

  lemma WholePages(n: int)
    ensures n * PAGE % PAGE == 0
  {
  }

  lemma EightLess(a: int, k: int)
    requires a % 8 == 0
    ensures (a - 8 * k) % 8 == 0
  {
  }

  lemma BrkInside(m: Mem, A: Arena, bins: seq<seq<int>>, home: map<int, int>)
    requires Inv(m, A, bins, home)
    ensures A.base <= A.top && A.topSize >= MINSIZE
  {
  }

  lemma TrimSbrk(brk: int, extra: int, start: int, end: int)
    requires 0 <= start <= brk - extra && 0 <= extra && brk <= end < WORD
    ensures (brk + -extra) % WORD == brk - extra && start <= brk - extra <= end
  {
  }

  lemma TrimmedUsed(A: Arena, B: Arena, C: Arena, p: int)
    requires UsedMinus(A, B, p) && C == B.(topSize := C.topSize)
    ensures UsedMinus(A, C, p)
  {
    assert forall a :: B.Used(a) <==> C.Used(a);
    assert forall a :: SizeIn(C, a) == SizeIn(B, a);
  }

  // A malloc that returns a chunk gives a payload with room for the request,
  // inside the arena and disjoint from every other live payload.
  lemma PayloadsDisjoint(m: Mem, A: Arena, bins: seq<seq<int>>, home: map<int, int>, a: int, b: int, c: int)
    requires Inv(m, A, bins, home) && InPayload(A, a, c) && InPayload(A, b, c)
    ensures a == b && A.base <= c < A.top + 4
  {
    assert a in A.chunks && b in A.chunks;
  }

  lemma StoreKeeps(m: Mem, A: Arena, bins: seq<seq<int>>, home: map<int, int>, a: int, c: int, v: int)
    requires InPayload(A, a, c)
    ensures Inv(m, A, bins, home) ==> Inv(Set(m, c, 0, v), A, bins, home)
    ensures SearchInv(m, A, bins, home) ==> SearchInv(m, A, bins, home) && A.chunks != map[]
    ensures Inv(m, A, bins, home) ==> forall b, d :: InPayload(A, b, d) && b != a ==>
      Get(Set(m, c, 0, v), d, 0) == Get(m, d, 0)
  {
    hide Inv, SearchInv;
    if Inv(m, A, bins, home) {
      StoreInv(m, A, bins, home, a, c, v);
      forall b, d | InPayload(A, b, d) && b != a
        ensures d != c
      {
        if d == c { PayloadsDisjoint(m, A, bins, home, a, b, c); }
      }
    }
  }

  lemma StoreInv(m: Mem, A: Arena, bins: seq<seq<int>>, home: map<int, int>, a: int, c: int, v: int)
    requires Inv(m, A, bins, home) && InPayload(A, a, c)
    ensures Inv(Set(m, c, 0, v), A, bins, home)
  {
    hide Inv, SearchInv, Lists, Threads, Members, Shape, Tiled, KnowsPrev, Aligned, Coalesced, Tags, Heads, Feet,
      Backs, Homes, Listed, AllHomed, Blocks, Kept, TagsKept, PayloadsKept, ChunkTagsKept;
    InvParts(m, A, bins, home);
    StoreTags(m, A, a, c, v);
    StoreLists(m, A, bins, home, a, c, v);
    InvWhole(Set(m, c, 0, v), A, bins, home);
  }

  lemma StoreTags(m: Mem, A: Arena, a: int, c: int, v: int)
    requires Shape(A) && Tags(m, A) && InPayload(A, a, c)
    ensures Tags(Set(m, c, 0, v), A)
  {
    var m' := Set(m, c, 0, v);
    assert c > AV + FD && c != A.top + SIZE by { assert a in A.chunks; }
    StoreHeads(m, A, a, c, v);
    StoreBacks(m, A, a, c, v);
    forall b | A.Free(b)
      ensures Get(m', A.Next(b), PREV_SIZE) == A.chunks[b].size
    {
      assert Get(m, A.Next(b), PREV_SIZE) == A.chunks[b].size;
      if c == A.Next(b) { InsideFree(A, b, c, a); }
    }
  }

  lemma StoreHeads(m: Mem, A: Arena, a: int, c: int, v: int)
    requires Tiled(A) && Heads(m, A) && InPayload(A, a, c)
    ensures Heads(Set(m, c, 0, v), A)
  {
    forall b | b in A.chunks
      ensures Get(Set(m, c, 0, v), b, SIZE) == Head(A, b)
    {
      assert Get(m, b, SIZE) == Head(A, b);
      if c == b + SIZE { OutsidePayloads(A, c, a); }
    }
  }

  lemma StoreMissesFoot(m: Mem, A: Arena, a: int, c: int, b: int)
    requires Shape(A) && Backs(m, A) && InPayload(A, a, c) && b in A.chunks && !A.chunks[b].prevUsed
    ensures c != b
  {
    var p := b - Get(m, b, PREV_SIZE);
    assert A.Free(p) && A.Next(p) == b;
    if c == b { InsideFree(A, p, c, a); }
  }

  lemma StoreBacks(m: Mem, A: Arena, a: int, c: int, v: int)
    requires Shape(A) && Backs(m, A) && InPayload(A, a, c)
    ensures Backs(Set(m, c, 0, v), A)
  {
    hide Shape, Backs, InPayload;
    forall b | b in A.chunks && !A.chunks[b].prevUsed
      ensures Get(Set(m, c, 0, v), b, PREV_SIZE) == Get(m, b, PREV_SIZE)
    {
      StoreMissesFoot(m, A, a, c, b);
    }
    BacksFrame(m, Set(m, c, 0, v), A, A);
  }

  lemma StoreLists(m: Mem, A: Arena, bins: seq<seq<int>>, home: map<int, int>, a: int, c: int, v: int)
    requires |bins| == NAV && Tiled(A) && Lists(m, bins, home) && Listed(A, home) && Blocks(m, bins)
      && InPayload(A, a, c)
    ensures Lists(Set(m, c, 0, v), bins, home) && Blocks(Set(m, c, 0, v), bins)
  {
    var m' := Set(m, c, 0, v);
    assert c >= LOW by { assert a in A.chunks; }
    forall i | 1 <= i < NAV
      ensures Linked(m', FD, BK, BinAt(i), bins[i])
    {
      forall n | n == BinAt(i) || n in bins[i]
        ensures Get(m', n, FD) == Get(m, n, FD) && Get(m', n, BK) == Get(m, n, BK)
      {
        StoreMisses(m, A, bins, home, a, c, i, n);
      }
      FrameRing(m, m', FD, BK, BinAt(i), bins[i]);
    }
  }

  lemma StoreMisses(m: Mem, A: Arena, bins: seq<seq<int>>, home: map<int, int>, a: int, c: int, i: int, n: int)
    requires |bins| == NAV && Tiled(A) && Lists(m, bins, home) && Listed(A, home) && InPayload(A, a, c)
    requires 1 <= i < NAV && (n == BinAt(i) || n in bins[i])
    ensures c != n + FD && c != n + BK
  {
    NodeIsLinkCell(A, bins, home, m, i, n);
    if c == n + FD || c == n + BK { LinkCellNoPayload(A, c, a); }
  }

  // The chunks in use are those the client holds, with the padded size at least.
  // The chunks in use are those the client held before operation i.
  ghost predicate AsHeld(A: Arena, ops: seq<Op>, answers: seq<int>, i: int)
    requires 0 <= i <= |answers| <= |ops|
  {
    forall a {:trigger A.Used(a)} :: A.Used(a) <==> a + 8 in After(ops, answers[..i]).live
  }

  lemma AllUsed(A: Arena, live: map<int, int>)
    requires Holds(A, live)
    ensures forall a {:trigger A.Used(a)} :: A.Used(a) <==> a + 8 in live
  {
  }

  // No free chunk holds nb bytes, top does not, and it cannot be extended.
  ghost predicate NoRoom(A: Arena, nb: int, end: int) {
    && (forall a {:trigger A.Free(a)} :: A.Free(a) ==> SizeIn(A, a) < nb)
    && A.topSize < nb + MINSIZE && A.top + A.topSize + RoundUpPage(nb + MINSIZE) > end
  }

  // A request below 2^31 is only refused where there is no room for it.
  ghost predicate Justified(A: Arena, op: Op, answer: int, end: int) {
    if !op.Request? then answer == 0
    else 0 <= op.bytes < SIGN && answer == 0 ==> NoRoom(A, Request2Size(op.bytes), end)
  }

  lemma NoRoomLeft(m: Mem, A: Arena, bins: seq<seq<int>>, home: map<int, int>, nb: int, end: int)
    requires Inv(m, A, bins, home) || A.chunks == map[]
    requires forall x :: x in home ==> SizeIn(A, x) < nb
    requires A.topSize < nb + MINSIZE && A.top + A.topSize + RoundUpPage(nb + MINSIZE) > end
    ensures NoRoom(A, nb, end)
  {
  }

  ghost predicate Holds(A: Arena, live: map<int, int>) {
    && (forall a {:trigger A.Used(a)} :: A.Used(a) <==> a + 8 in live)
    && (forall p :: p in live ==> 0 <= live[p] < SIGN && SizeIn(A, p - 8) >= Request2Size(live[p]))
    && (forall p :: p in live && live[p] <= MAX_REQUEST ==> live[p] <= SizeIn(A, p - 8) - 4)
  }

  // What the client wrote last is in its payloads.
  ghost predicate Stored(m: Mem, A: Arena, client: Client) {
    forall p, c {:trigger (p, c) in client.stored} :: (p, c) in client.stored ==>
      p in client.live && InPayload(A, p - 8, c) && Get(m, c, 0) == client.stored[(p, c)]
  }

  lemma NothingHeld(m: Mem, A: Arena, bins: seq<seq<int>>, home: map<int, int>)
    requires A.chunks == map[]
    ensures Holds(A, map[]) && Stored(m, A, Client(map[], map[]))
  {
  }

  lemma HeldNotNull(m: Mem, A: Arena, bins: seq<seq<int>>, home: map<int, int>, live: map<int, int>, p: int)
    requires Holds(A, live) && p in live
    ensures A.Used(p - 8) && A.chunks != map[]
    ensures SearchInv(m, A, bins, home) || Inv(m, A, bins, home) ==> p > LOW && Tiled(A)
  {
    hide Lists, Homes, Coalesced, Blocks, AllHomed, Tags, KnowsPrev, Request2Size;
    assert A.Used(p - 8) <==> p - 8 + 8 in live;
    if SearchInv(m, A, bins, home) { SearchParts(m, A, bins, home); }
  }

  lemma HoldsServed(A: Arena, m: Mem, B: Arena, m': Mem, client: Client, p: int, bytes: int)
    requires Holds(A, client.live) && Stored(m, A, client) && 0 <= bytes < SIGN && p != 0
    requires Served(A, m, B, m', p - 8, Request2Size(bytes))
    ensures Holds(B, client.live[p := bytes]) && Stored(m', B, Answered(client, Request(bytes), p))
  {
    hide Request2Size;
    var live, stored := client.live, client.stored;
    Request2SizeFits(bytes);
    assert !A.Used(p - 8) && (A.Used(p - 8) <==> p - 8 + 8 in live);
    forall a
      ensures B.Used(a) <==> a + 8 in live[p := bytes]
    {
      assert B.Used(a) <==> A.Used(a) || a == p - 8;
    }
    forall q | q in live
      ensures SizeIn(B, q - 8) == SizeIn(A, q - 8) && A.Used(q - 8) && B.Used(q - 8)
    {
      assert A.Used(q - 8) <==> q - 8 + 8 in live;
    }
    forall q, c | (q, c) in stored
      ensures InPayload(B, q - 8, c) && Get(m', c, 0) == stored[(q, c)]
    {
      assert InPayload(A, q - 8, c);
    }
  }

  lemma StoredKept(A: Arena, m: Mem, m': Mem, client: Client)
    requires Stored(m, A, client) && PayloadsKept(A, m, m')
    ensures Stored(m', A, client)
  {
    hide InPayload;
  }

  lemma HoldsFreed(A: Arena, m: Mem, B: Arena, m': Mem, client: Client, p: int)
    requires Holds(A, client.live) && Stored(m, A, client) && p in client.live && A.Used(p - 8)
    requires UsedMinus(A, B, p - 8) && PayloadsKept(Freed(A, p - 8), m, m')
    ensures Holds(B, client.live - {p}) && Stored(m', B, Answered(client, Release(p), 0))
  {
    hide Request2Size;
    var live, stored, rest := client.live, client.stored, Answered(client, Release(p), 0).stored;
    forall a
      ensures B.Used(a) <==> a + 8 in live - {p}
    {
      assert B.Used(a) <==> A.Used(a) && a != p - 8;
    }
    forall q | q in live && q != p
      ensures SizeIn(B, q - 8) == SizeIn(A, q - 8) && A.Used(q - 8) && B.Used(q - 8)
    {
      assert A.Used(q - 8) <==> q - 8 + 8 in live;
    }
    forall q, c | (q, c) in rest
      ensures q in live - {p} && InPayload(B, q - 8, c) && Get(m', c, 0) == rest[(q, c)]
    {
      assert (q, c) in stored && q != p;
      assert InPayload(A, q - 8, c) && InPayload(Freed(A, p - 8), q - 8, c);
    }
  }

  // The bytes asked for lie inside the payload, word for word.
  lemma WriteInside(A: Arena, live: map<int, int>, p: int, c: int)
    requires Holds(A, live) && p in live && MayWrite(live[p], p, c)
    ensures InPayload(A, p - 8, c)
  {
    hide Request2Size;
    assert A.Used(p - 8) <==> p - 8 + 8 in live;
  }

  lemma StoredMore(A: Arena, m: Mem, client: Client, p: int, c: int, v: int)
    requires Holds(A, client.live) && Stored(m, A, client) && Tiled(A)
    requires p in client.live && MayWrite(client.live[p], p, c) && InPayload(A, p - 8, c)
    ensures Stored(Set(m, c, 0, v), A, Answered(client, Write(p, c, v), 0))
  {
    var live, stored, m', now := client.live, client.stored, Set(m, c, 0, v), client.stored[(p, c) := v];
    forall q, d | (q, d) in now
      ensures q in live && InPayload(A, q - 8, d) && Get(m', d, 0) == now[(q, d)]
    {
      if (q, d) != (p, c) {
        assert (q, d) in stored && InPayload(A, q - 8, d);
        assert q - 8 in A.chunks && p - 8 in A.chunks;
      }
    }
  }
}
