// free as a whole: what its list surgery keeps, and how the pieces make the
// heap well formed again.
module DlFree {
  import opened Memory
  import opened LinkedLists
  import opened DlSizes
  import opened DlShape
  import opened DlLists
  import opened DlMoves
  import opened DlGive
  import opened DlSearch
  import opened DlKeep

  // The arena while p is being freed: p is free, but not yet merged or listed.
  function Freed(A: Arena, p: int): Arena
    requires p in A.chunks
  {
    A.(chunks := A.chunks[p := A.chunks[p].(used := false)])
  }

  // B's live chunks are A's without p.
  ghost predicate UsedMinus(A: Arena, B: Arena, p: int) {
    && (forall a {:trigger B.Used(a)} {:trigger A.Used(a)} :: B.Used(a) <==> A.Used(a) && a != p)
    && (forall a {:trigger A.Used(a)} :: A.Used(a) && a != p ==> SizeIn(B, a) == SizeIn(A, a))
  }

  lemma FreedTiled(A: Arena, bins: seq<seq<int>>, home: map<int, int>, p: int)
    requires |bins| == NAV && Tiled(A) && A.Used(p) && Homes(A, bins, home) && Members(bins, home)
    ensures Tiled(Freed(A, p)) && Homes(Freed(A, p), bins, home) && p !in home && Freed(A, p).Free(p)
  {
    hide Members, Homes;
    var F := Freed(A, p);
    HomesListed(A, bins, home);
    ListedAll(A, home);
    HomesTransfer(A, F, bins, home);
    forall a | a in F.chunks
      ensures F.Next(a) == F.top || F.Next(a) in F.chunks
    {
      assert F.Next(a) == A.Next(a);
    }
  }

  lemma FreedKept(A: Arena, p: int, m: Mem, m': Mem)
    requires A.Used(p)
    ensures ChunkTagsKept(Freed(A, p), m, m') <==> ChunkTagsKept(A, m, m')
  {
    assert forall a :: a in A.chunks <==> a in Freed(A, p).chunks;
  }

  // What surrounds the chunk being freed, as the tags tell it.
  lemma Surroundings(m: Mem, A: Arena, p: int)
    requires Shape(A) && Aligned(A) && Coalesced(A) && Tags(m, A) && A.Used(p)
    ensures Get(m, p, SIZE) - Get(m, p, SIZE) % 2 == A.chunks[p].size
    ensures Get(m, p, SIZE) % 2 == 1 <==> A.chunks[p].prevUsed
    ensures Get(m, AV, FD) == A.top && p >= LOW && A.Next(p) <= A.top
    ensures A.Next(p) == A.top ==> HeadSize(m, A.top) == A.topSize
    ensures A.Next(p) != A.top ==> A.Next(p) in A.chunks && HeadSize(m, A.Next(p)) == A.chunks[A.Next(p)].size
    ensures A.chunks[p].size % 8 == 0 && A.topSize % 8 == 0
  {
    hide Feet, Backs, Coalesced, KnowsPrev;
    TaggedChunk(m, A, p);
    if A.Next(p) != A.top { TaggedChunk(m, A, A.Next(p)); } else { TaggedTop(m, A); }
    WhereChunk(A, p);
  }

  lemma WhereChunk(A: Arena, p: int)
    requires Tiled(A) && p in A.chunks
    ensures p >= LOW && A.Next(p) <= A.top && (A.Next(p) == A.top || A.Next(p) in A.chunks)
  {
  }

  // Reading a size word: the size without the bit, and the bit.
  lemma TaggedChunk(m: Mem, A: Arena, p: int)
    requires Heads(m, A) && Aligned(A) && p in A.chunks
    ensures Get(m, p, SIZE) - Get(m, p, SIZE) % 2 == A.chunks[p].size && HeadSize(m, p) == A.chunks[p].size
    ensures Get(m, p, SIZE) % 2 == 1 <==> A.chunks[p].prevUsed
    ensures A.chunks[p].size % 8 == 0
  {
    hide HeadSize;
    assert Get(m, p, SIZE) == Head(A, p);
    WholeWords(A.chunks[p].size);
    TagBits(A.chunks[p].size / 8, if A.chunks[p].prevUsed then 1 else 0);
    SizeWord(m, p, A.chunks[p].size, if A.chunks[p].prevUsed then 1 else 0);
  }

  lemma WholeWords(n: int)
    requires n % 8 == 0
    ensures n == 8 * (n / 8)
  {
  }

  lemma SizeWord(m: Mem, p: int, size: int, bit: int)
    requires Get(m, p, SIZE) == size + bit && (size + bit) % 4 == bit
    ensures HeadSize(m, p) == size
  {
  }

  lemma TagBits(k: int, bit: int)
    requires 0 <= bit <= 1
    ensures (8 * k + bit) % 2 == bit && (8 * k + bit) % 4 == bit
  {
    var x := 8 * k + bit;
    var half, quarter := x / 2, x / 4;
    assert x == 2 * half + x % 2 && x == 4 * quarter + x % 4;
    assert half == 4 * k && quarter == 2 * k;
  }

  lemma TaggedTop(m: Mem, A: Arena)
    requires Get(m, A.top, SIZE) == A.topSize + 1 && Aligned(A)
    ensures HeadSize(m, A.top) == A.topSize && Get(m, A.top, SIZE) % 2 == 1
  {
  }

  lemma ChunkBefore(m: Mem, A: Arena, p: int)
    requires Shape(A) && Aligned(A) && Coalesced(A) && Tags(m, A) && A.Used(p) && !A.chunks[p].prevUsed
    ensures var q := p - Get(m, p, PREV_SIZE);
      && A.Free(q) && A.Next(q) == p && A.chunks[q].prevUsed && q < p && q >= LOW
      && A.chunks[q].size == Get(m, p, PREV_SIZE) && A.chunks[q].size % 8 == 0
  {
    var q := p - Get(m, p, PREV_SIZE);
    assert A.Free(q) && A.Next(q) == p;
    FreeChunkKnows(m, A, q);
  }

  lemma ChunkAfter(m: Mem, A: Arena, n: int)
    requires Shape(A) && Aligned(A) && Coalesced(A) && Tags(m, A) && n in A.chunks
    ensures A.Next(n) == A.top || A.Next(n) in A.chunks
    // The bit read behind n tells whether n is in use.
    ensures Get(m, A.Next(n), SIZE) % 2 == 1 <==> A.chunks[n].used
    ensures A.Free(n) ==> A.Used(A.Next(n)) && A.Next(n) in A.chunks && !A.chunks[A.Next(n)].prevUsed
    ensures A.Free(n) ==> A.chunks[n].size % 8 == 0
  {
    hide Feet, Backs;
    WhereChunk(A, n);
    TaggedChunk(m, A, n);
    if A.Next(n) in A.chunks { TaggedChunk(m, A, A.Next(n)); } else { TaggedTop(m, A); }
  }

  // ---- freeing next to top ----

  lemma TopUsed(A: Arena, q: int, p: int)
    requires Tiled(A) && A.Used(p) && A.Next(p) == A.top
    requires q == p || (A.Free(q) && A.Next(q) == p)
    ensures UsedMinus(A, GivenTop(A, q), p)
    ensures forall x :: A.Free(x) && x != q ==> GivenTop(A, q).Free(x) && SizeIn(GivenTop(A, q), x) == SizeIn(A, x)
    ensures forall x :: GivenTop(A, q).Free(x) ==> A.Free(x) && x != q
  {
    assert p in A.chunks && q in A.chunks;
    forall a | a in A.chunks
      ensures a < q || a == q || a == p
    {
    }
  }

  lemma TopAligned(A: Arena, q: int)
    requires Aligned(A) && q in A.chunks
    ensures Aligned(GivenTop(A, q))
  {
  }

  lemma TopHomes(A: Arena, bins: seq<seq<int>>, home: map<int, int>, home0: map<int, int>, q: int, p: int)
    requires |bins| == NAV && Tiled(A) && A.Used(p) && A.Next(p) == A.top
    requires q == p || (A.Free(q) && A.Next(q) == p)
    requires Homes(A, bins, home) && Members(bins, home) && AllHomed(A, home0) && home == home0 - {q}
    ensures Homes(GivenTop(A, q), bins, home) && AllHomed(GivenTop(A, q), home)
  {
    hide Tiled, Homes, Members;
    TopUsed(A, q, p);
    HomesListed(A, bins, home);
    ListedAll(A, home);
    HomesTransfer(A, GivenTop(A, q), bins, home);
  }

  // set_head(p, sz | PREV_INUSE); top = p
  function TopMem(m: Mem, q: int, sz: int): Mem {
    Set(Set(m, q, SIZE, sz + 1), AV, FD, q)
  }

  lemma TopMemTags(m0: Mem, m: Mem, A: Arena, q: int)
    requires Shape(A) && Coalesced(A) && Tags(m0, A) && q in A.chunks && A.chunks[q].prevUsed
    requires ChunkTagsKept(A, m0, m)
    ensures Tags(TopMem(m, q, A.topSize + (A.top - q)), GivenTop(A, q))
  {
    hide Coalesced, Tags, Heads, Feet, Backs;
    var m' := TopMem(m, q, A.topSize + (A.top - q));
    forall a | a in A.chunks && a < q
      ensures Get(m', a, SIZE) == Get(m0, a, SIZE) && Get(m', a, PREV_SIZE) == Get(m0, a, PREV_SIZE)
    {
      assert Get(m, a, SIZE) == Get(m0, a, SIZE) && Get(m, a, PREV_SIZE) == Get(m0, a, PREV_SIZE);
      assert q in A.chunks && a + 8 <= q;
    }
    GiveTopTags(m0, m', A, q);
  }

  lemma TopMemLists(m: Mem, A: Arena, bins: seq<seq<int>>, home: map<int, int>, q: int, sz: int)
    requires |bins| == NAV && Tiled(A) && q in A.chunks && Lists(m, bins, home) && Listed(A, home) && Blocks(m, bins)
    ensures Lists(TopMem(m, q, sz), bins, home) && Blocks(TopMem(m, q, sz), bins)
  {
    hide Lists, Listed;
    TagWriteKeepsLists(m, A, bins, home, q, SIZE, sz + 1);
    TagWriteKeepsLists(Set(m, q, SIZE, sz + 1), A, bins, home, AV, FD, q);
  }

  lemma TopMemPayloads(m0: Mem, m: Mem, A: Arena, q: int, p: int, sz: int)
    requires Tiled(A) && A.Used(p) && PayloadsKept(Freed(A, p), m0, m) && q in A.chunks
    ensures PayloadsKept(Freed(A, p), m0, TopMem(m, q, sz))
  {
    var F := Freed(A, p);
    forall a, c | InPayload(F, a, c)
      ensures c != q + SIZE && c != AV + FD
    {
      assert InPayload(A, a, c);
      OutsidePayloads(A, q + SIZE, a);
      OutsidePayloads(A, AV + FD, a);
    }
  }

  // p merged with top and, if free, with the chunk in front of it.
  lemma FreeIntoTop(m0: Mem, m: Mem, A: Arena, bins0: seq<seq<int>>, home0: map<int, int>,
                    bins: seq<seq<int>>, home: map<int, int>, q: int, p: int)
    requires Inv(m0, A, bins0, home0) && |bins| == NAV && A.Used(p) && A.Next(p) == A.top
    requires q == p || (A.Free(q) && A.Next(q) == p)
    requires q in A.chunks && A.chunks[q].prevUsed
    requires Lists(m, bins, home) && Homes(A, bins, home) && Blocks(m, bins) && home == home0 - {q}
    requires ChunkTagsKept(A, m0, m) && PayloadsKept(Freed(A, p), m0, m)
    ensures var m' := TopMem(m, q, A.topSize + (A.top - q));
      && Inv(m', GivenTop(A, q), bins, home)
      && PayloadsKept(Freed(A, p), m0, m') && UsedMinus(A, GivenTop(A, q), p)
  {
    hide Inv, SearchInv, Lists, Threads, Members, Shape, Tiled, KnowsPrev, Aligned, Coalesced, Tags, Heads, Feet,
      Backs, Homes, Listed, AllHomed, Blocks, Kept, TagsKept, PayloadsKept, ChunkTagsKept;
    hide TopMem, GivenTop, UsedMinus;
    InvParts(m0, A, bins0, home0);
    HomesListed(A, bins, home);
    TopUsed(A, q, p);
    TopAligned(A, q);
    GiveTopShape(A, q);
    TopMemTags(m0, m, A, q);
    TopMemLists(m, A, bins, home, q, A.topSize + (A.top - q));
    TopMemPayloads(m0, m, A, q, p, A.topSize + (A.top - q));
    MembersOf(m, bins, home);
    TopHomes(A, bins, home, home0, q, p);
    InvWhole(TopMem(m, q, A.topSize + (A.top - q)), GivenTop(A, q), bins, home);
  }

  lemma MembersOf(m: Mem, bins: seq<seq<int>>, home: map<int, int>)
    requires Lists(m, bins, home)
    ensures Members(bins, home) && Threads(m, bins) && |bins| == NAV
  {
  }

  // ---- freeing elsewhere ----

  // From q to e lies the chunk p with the free chunks next to it.
  ghost predicate Region(A: Arena, q: int, p: int, n: int, e: int) {
    && A.Used(p) && A.Next(p) == n && n in A.chunks
    && (q == p || (A.Free(q) && A.Next(q) == p)) && q in A.chunks && A.chunks[q].prevUsed
    && (if A.Free(n) then e == A.Next(n) && A.Used(e) && !A.chunks[e].prevUsed else e == n)
    && e in A.chunks
  }

  lemma RegionInside(A: Arena, q: int, p: int, n: int, e: int)
    requires Tiled(A) && Region(A, q, p, n, e)
    ensures CanGive(A, q, e) && q <= p < n <= e
    ensures forall a :: a in A.chunks && q < a < e ==> a == p || (a == n && A.Free(n))
  {
    assert p in A.chunks && n in A.chunks;
    forall a | a in A.chunks && q < a < e
      ensures a == p || (a == n && A.Free(n))
    {
      assert q in A.chunks;
    }
  }

  lemma RegionLive(A: Arena, q: int, p: int, n: int, e: int)
    requires Tiled(A) && Region(A, q, p, n, e)
    ensures UsedMinus(A, Given(A, q, e), p)
  {
    RegionInside(A, q, p, n, e);
    hide Tiled, CanGive;
  }

  lemma RegionFree(A: Arena, q: int, p: int, n: int, e: int)
    requires Tiled(A) && Region(A, q, p, n, e)
    ensures Given(A, q, e).Free(q) && SizeIn(Given(A, q, e), q) == e - q
    ensures forall x :: A.Free(x) && x != q && x != n ==>
      Given(A, q, e).Free(x) && SizeIn(Given(A, q, e), x) == SizeIn(A, x)
    ensures forall x :: Given(A, q, e).Free(x) && x != q ==> A.Free(x) && x != n
  {
    RegionInside(A, q, p, n, e);
    hide Tiled, CanGive;
  }

  lemma RegionUsed(A: Arena, q: int, p: int, n: int, e: int)
    requires Tiled(A) && Region(A, q, p, n, e)
    ensures UsedMinus(A, Given(A, q, e), p) && Given(A, q, e).Free(q) && SizeIn(Given(A, q, e), q) == e - q
    ensures forall x :: A.Free(x) && x != q && x != n ==>
      Given(A, q, e).Free(x) && SizeIn(Given(A, q, e), x) == SizeIn(A, x)
    ensures forall x :: Given(A, q, e).Free(x) && x != q ==> A.Free(x) && x != n
  {
    hide Tiled, Region, UsedMinus, Given;
    RegionLive(A, q, p, n, e);
    RegionFree(A, q, p, n, e);
  }

  lemma RegionAligned(A: Arena, q: int, e: int)
    requires Aligned(A) && q in A.chunks && e in A.chunks
    ensures Aligned(Given(A, q, e))
  {
  }

  // What the list surgery of free leaves listed: all but the merged chunks,
  // and the merged chunk itself exactly when it is the last remainder.
  ghost predicate LeftListed(home0: map<int, int>, home: map<int, int>, q: int, n: int, islr: bool) {
    && (forall x :: x != q && x != n ==> (x in home <==> x in home0))
    && (forall x :: x != q && x != n && x in home ==> home[x] == home0[x])
    && n !in home && (q in home <==> islr) && (islr ==> home[q] == 1)
  }

  lemma GivenHomes(A: Arena, bins: seq<seq<int>>, home0: map<int, int>, home: map<int, int>,
                   q: int, p: int, n: int, e: int, islr: bool)
    requires |bins| == NAV && Tiled(A) && Region(A, q, p, n, e) && AllHomed(A, home0) && Listed(A, home0)
    requires Homes(Freed(A, p), bins, home) && Members(bins, home)
    requires LeftListed(home0, home, q, n, islr)
    ensures Homes(Given(A, q, e), bins, home)
    ensures forall a :: Given(A, q, e).Free(a) && a != q ==> a in home
  {
    hide Tiled, Members, Homes;
    var B := Given(A, q, e);
    RegionUsed(A, q, p, n, e);
    HomesListed(Freed(A, p), bins, home);
    forall x | x in home
      ensures B.Free(x) && (home[x] == 1 || SizeIn(B, x) == SizeIn(Freed(A, p), x))
    {
      if x != q { assert x in home0 && A.Free(x); }
    }
    HomesTransfer(Freed(A, p), B, bins, home);
  }

  // set_head(p, sz | PREV_INUSE); set_foot(p, sz)
  function GivenMem(m: Mem, q: int, sz: int): Mem {
    Set(Set(m, q, SIZE, sz + 1), q + sz, PREV_SIZE, sz)
  }

  lemma GivenMemCells(m0: Mem, m1: Mem, m2: Mem, A: Arena, q: int, p: int, n: int, e: int)
    requires Tiled(A) && Tags(m0, A) && Region(A, q, p, n, e)
    requires m1 == Set(m0, n, SIZE, A.chunks[n].size) && ChunkTagsKept(A, m1, m2)
    ensures GivenCells(m0, GivenMem(m2, q, e - q), A, q, e)
  {
    hide Feet, Backs;
    RegionInside(A, q, p, n, e);
    var m' := GivenMem(m2, q, e - q);
    assert n + SIZE != A.top + SIZE && n >= LOW && e >= LOW && q >= LOW && e < A.top;
    assert Get(m2, e, SIZE) == Get(m1, e, SIZE) && Get(m0, e, SIZE) == Head(A, e);
    forall a | a in A.chunks && a != q && a != e && !(q < a < e)
      ensures Get(m', a, SIZE) == Get(m0, a, SIZE)
    {
      assert Get(m2, a, SIZE) == Get(m1, a, SIZE);
      assert a != n;
    }
    forall a | a in A.chunks && a != e && !(q < a < e)
      ensures Get(m', a, PREV_SIZE) == Get(m0, a, PREV_SIZE)
    {
      assert Get(m2, a, PREV_SIZE) == Get(m1, a, PREV_SIZE);
    }
    assert Get(m2, A.top, SIZE) == Get(m1, A.top, SIZE);
  }

  lemma GivenMemPayloads(m0: Mem, m2: Mem, A: Arena, q: int, p: int, n: int, e: int)
    requires Tiled(A) && Region(A, q, p, n, e) && PayloadsKept(Freed(A, p), m0, m2)
    ensures PayloadsKept(Freed(A, p), m0, GivenMem(m2, q, e - q))
  {
    var F := Freed(A, p);
    RegionInside(A, q, p, n, e);
    forall a, c | InPayload(F, a, c)
      ensures c != q + SIZE && c != e
    {
      assert InPayload(A, a, c) && a != p && a in A.chunks && q in A.chunks && e in A.chunks && p in A.chunks;
    }
  }

  lemma GivenMemLists(m2: Mem, A: Arena, B: Arena, bins: seq<seq<int>>, home: map<int, int>, q: int, e: int)
    requires |bins| == NAV && Tiled(B) && q in B.chunks && e in B.chunks
    requires Lists(m2, bins, home) && Listed(B, home) && Blocks(m2, bins)
    ensures Lists(GivenMem(m2, q, e - q), bins, home) && Blocks(GivenMem(m2, q, e - q), bins)
  {
    hide Lists, Listed;
    TagWriteKeepsLists(m2, B, bins, home, q, SIZE, e - q + 1);
    TagWriteKeepsLists(Set(m2, q, SIZE, e - q + 1), B, bins, home, e, PREV_SIZE, e - q);
    assert e >= LOW && q >= LOW;
  }

  // Up to set_foot: everything is right but that the merged chunk may still be
  // waiting for frontlink.
  lemma FreeMerged(m0: Mem, m1: Mem, m2: Mem, A: Arena, bins0: seq<seq<int>>, home0: map<int, int>,
                   bins: seq<seq<int>>, home: map<int, int>, q: int, p: int, n: int, e: int, islr: bool)
    requires Inv(m0, A, bins0, home0) && |bins| == NAV && Region(A, q, p, n, e)
    requires m1 == Set(m0, n, SIZE, A.chunks[n].size) && ChunkTagsKept(A, m1, m2)
    requires PayloadsKept(Freed(A, p), m0, m2)
    requires Lists(m2, bins, home) && Homes(Freed(A, p), bins, home) && Blocks(m2, bins)
    requires LeftListed(home0, home, q, n, islr)
    ensures var m' := GivenMem(m2, q, e - q); var B := Given(A, q, e);
      && Shape(B) && Aligned(B) && Coalesced(B) && Tags(m', B) && Tiled(B) && Heads(m', B)
      && Lists(m', bins, home) && Homes(B, bins, home) && Blocks(m', bins)
      && (forall a :: B.Free(a) && a != q ==> a in home)
      && PayloadsKept(Freed(A, p), m0, m') && UsedMinus(A, B, p)
      && B.Free(q) && SizeIn(B, q) == e - q
  {
    hide Inv, SearchInv, Lists, Threads, Members, Shape, Tiled, KnowsPrev, Aligned, Coalesced, Tags, Heads, Feet,
      Backs, Homes, Listed, AllHomed, Blocks, Kept, TagsKept, PayloadsKept, ChunkTagsKept;
    hide GivenMem, Given, UsedMinus, Region, LeftListed, GivenCells;
    InvParts(m0, A, bins0, home0);
    RegionInside(A, q, p, n, e);
    RegionEnds(A, q, p, n, e);
    RegionUsed(A, q, p, n, e);
    RegionAligned(A, q, e);
    GiveShape(A, q, e);
    GiveTiled(A, q, e);
    MembersOf(m2, bins, home);
    GivenMemCells(m0, m1, m2, A, q, p, n, e);
    GiveTags(m0, GivenMem(m2, q, e - q), A, q, e);
    TagsHeads(GivenMem(m2, q, e - q), Given(A, q, e));
    GivenHomes(A, bins, home0, home, q, p, n, e, islr);
    HomesListed(Given(A, q, e), bins, home);
    GivenMemLists(m2, A, Given(A, q, e), bins, home, q, e);
    GivenMemPayloads(m0, m2, A, q, p, n, e);
  }

  lemma TagsHeads(m: Mem, A: Arena)
    requires Tags(m, A)
    ensures Heads(m, A)
  {
  }

  lemma RegionEnds(A: Arena, q: int, p: int, n: int, e: int)
    requires Tiled(A) && Region(A, q, p, n, e)
    ensures A.Used(p) && p in A.chunks && q in A.chunks && e in A.chunks && n in A.chunks
    ensures q in Given(A, q, e).chunks && e in Given(A, q, e).chunks
  {
  }

  // ---- the steps in between ----

  lemma Position(m: Mem, bins: seq<seq<int>>, home: map<int, int>, x: int) returns (i: int, k: int)
    requires |bins| == NAV && Lists(m, bins, home) && x in home
    ensures 1 <= i < NAV && 0 <= k < |bins[i]| && bins[i][k] == x && i == home[x]
  {
    i := home[x];
    k := FindIn(bins[i], x);
  }

  lemma RemainderIs(m: Mem, bins: seq<seq<int>>, home: map<int, int>, n: int)
    requires |bins| == NAV && Lists(m, bins, home) && n in home && home[n] == 1 && |bins[1]| <= 1
    ensures bins[1] == [n] && Elements(bins[1]) == {n}
  {
    assert n in bins[1];
  }

  lemma RemainderBlocks(m: Mem, m': Mem, F: Arena, bins: seq<seq<int>>, p: int)
    requires |bins| == NAV && Blocks(m, bins) && Kept(F, m, m')
    ensures Blocks(m', bins[1 := [p]])
  {
  }

  lemma KeptReflAll(F: Arena, m: Mem)
    ensures Kept(F, m, m)
  {
  }

  lemma KeptParts(F: Arena, m: Mem, m': Mem)
    requires Kept(F, m, m')
    ensures ChunkTagsKept(F, m, m') && PayloadsKept(F, m, m')
  {
  }

  lemma FreeListed(A: Arena, home: map<int, int>, q: int)
    requires AllHomed(A, home) && A.Free(q)
    ensures q in home
  {
  }

  lemma HomesOfFreed(m: Mem, A: Arena, bins: seq<seq<int>>, home: map<int, int>, p: int)
    requires |bins| == NAV && A.Used(p) && Homes(Freed(A, p), bins, home) && Lists(m, bins, home) && p !in home
    ensures Homes(A, bins, home)
  {
    hide Homes, Lists, Members;
    MembersOf(m, bins, home);
    HomesListed(Freed(A, p), bins, home);
    ListedAll(Freed(A, p), home);
    HomesTransfer(Freed(A, p), A, bins, home);
  }

  lemma ClearInuse(m: Mem, A: Arena, bins: seq<seq<int>>, home: map<int, int>, p: int, n: int, sz: int)
    requires |bins| == NAV && Tiled(A) && Lists(m, bins, home) && Listed(A, home) && Blocks(m, bins)
    requires A.Used(p) && n == A.Next(p) && n in A.chunks && Tiled(Freed(A, p))
    ensures Lists(Set(m, n, SIZE, sz), bins, home) && Blocks(Set(m, n, SIZE, sz), bins)
    ensures PayloadsKept(Freed(A, p), m, Set(m, n, SIZE, sz))
  {
    hide Lists, Listed;
    TagWriteKeepsLists(m, A, bins, home, n, SIZE, sz);
    PayloadsRefl(Freed(A, p), m);
    HeadWritePayload(Freed(A, p), m, m, n, sz);
  }

  lemma PayloadsRefl(A: Arena, m: Mem)
    ensures PayloadsKept(A, m, m)
  {
  }

  lemma ClearInuseBefore(m: Mem, A: Arena, p: int, n: int, sz: int)
    requires Tiled(A) && A.Used(p) && n == A.Next(p)
    ensures Get(Set(m, n, SIZE, sz), p, PREV_SIZE) == Get(m, p, PREV_SIZE)
  {
  }

  // A free chunk's forward link names the last_remainder bin exactly if it is
  // the last remainder.
  lemma RemainderLink(m: Mem, F: Arena, bins: seq<seq<int>>, home: map<int, int>, x: int)
    requires |bins| == NAV && Tiled(F) && Lists(m, bins, home) && Homes(F, bins, home) && x in home
    ensures Get(m, x, FD) == LAST_REMAINDER <==> home[x] == 1
  {
    hide Lists, Homes, Threads;
    var i, k := Position(m, bins, home, x);
    HomesListed(F, bins, home);
    MembersOf(m, bins, home);
    ThreadAt(m, bins, i);
    Neighbours(m, FD, BK, BinAt(i), bins[i]);
    if k + 1 < |bins[i]| {
      MemberHome(bins, home, i, k + 1);
      ListedFree(F, home, bins[i][k + 1]);
      assert bins[i][k + 1] in F.chunks;
    }
  }

  lemma ThreadAt(m: Mem, bins: seq<seq<int>>, i: int)
    requires Threads(m, bins) && 1 <= i < NAV
    ensures |bins| == NAV && Linked(m, FD, BK, BinAt(i), bins[i])
  {
  }

  // After coalescing backward.
  ghost predicate BackDone(A: Arena, home0: map<int, int>, home: map<int, int>, q: int, p: int, islr: bool)
  {
    && A.Used(p) && p !in home0
    && (q == p || (A.Free(q) && A.Next(q) == p)) && q in A.chunks && A.chunks[q].prevUsed
    && (if q == p then home == home0 && !islr
        else q in home0 && (islr <==> home0[q] == 1) && home == if islr then home0 else home0 - {q})
  }

  lemma BackwardDone(A: Arena, home0: map<int, int>, home: map<int, int>, q: int, p: int, n: int, islr: bool)
    requires A.Used(p) && p !in home0 && q in A.chunks && A.chunks[q].prevUsed
    requires q == p || (A.Free(q) && A.Next(q) == p)
    requires q == p ==> home == home0 && !islr
    requires q != p ==> q in home0 && (islr <==> home0[q] == 1) && home == if islr then home0 else home0 - {q}
    ensures BackDone(A, home0, home, q, p, islr)
  {
  }

  lemma ClearInuseAfter(m0: Mem, m1: Mem, m2: Mem, A: Arena, F: Arena, p: int, n: int, nsz: int)
    requires Tiled(A) && A.Used(p) && F == Freed(A, p) && n in A.chunks && nsz == A.chunks[n].size
    requires m1 == Set(m0, n, SIZE, nsz) && Kept(F, m1, m2)
    requires A.Next(n) == A.top || A.Next(n) in A.chunks
    ensures Get(m2, n + nsz, SIZE) == Get(m0, n + nsz, SIZE)
  {
    assert n + nsz in F.chunks || n + nsz == F.top;
    assert Get(m2, n + nsz, SIZE) == Get(m1, n + nsz, SIZE);
  }

  lemma NextListed(A: Arena, home0: map<int, int>, home: map<int, int>, q: int, p: int, n: int, islr: bool)
    requires Tiled(A) && BackDone(A, home0, home, q, p, islr) && AllHomed(A, home0) && A.Free(n) && n == A.Next(p)
    ensures n in home && n in home0 && n != q && home[n] == home0[n]
  {
    assert q in A.chunks && p in A.chunks && n in A.chunks;
  }

  lemma MergedFree(A: Arena, q: int, p: int)
    requires A.Used(p) && (q == p || A.Free(q))
    ensures Freed(A, p).Free(q)
  {
  }

  lemma NotYetListed(A: Arena, home0: map<int, int>, home: map<int, int>, q: int, p: int, n: int)
    requires BackDone(A, home0, home, q, p, false)
    ensures q !in home
  {
  }

  lemma ForwardDone(A: Arena, home0: map<int, int>, home1: map<int, int>, home: map<int, int>,
                    q: int, p: int, n: int, e: int, islr1: bool, islr: bool)
    requires Tiled(A) && Listed(A, home0) && AllHomed(A, home0) && BackDone(A, home0, home1, q, p, islr1)
    requires n == A.Next(p) && n in A.chunks
    requires A.Free(n) ==> A.Used(A.Next(n)) && !A.chunks[A.Next(n)].prevUsed && e == A.Next(n)
    requires A.Used(n) ==> e == n && home == home1 && islr == islr1
    requires A.Free(n) && islr == islr1 ==> home == home1 - {n} && (islr1 || home1[n] != 1)
    requires A.Free(n) && islr != islr1 ==> islr && home == (home1 - {n})[q := 1]
    ensures Region(A, q, p, n, e) && LeftListed(home0, home, q, n, islr)
  {
    assert q in A.chunks && p in A.chunks && n in A.chunks && n != q;
  }

  lemma ListedIff(home0: map<int, int>, home: map<int, int>, q: int, n: int, islr: bool)
    requires LeftListed(home0, home, q, n, islr)
    ensures q in home <==> islr
  {
  }

  lemma AllHomedNow(B: Arena, home: map<int, int>, q: int)
    requires (forall a :: B.Free(a) && a != q ==> a in home) && q in home
    ensures AllHomed(B, home)
  {
  }

  lemma GivenPayloads(A: Arena, B: Arena, p: int, m: Mem, m': Mem)
    requires A.Used(p) && UsedMinus(A, B, p) && PayloadsKept(B, m, m')
    ensures PayloadsKept(Freed(A, p), m, m')
  {
    forall a, c | InPayload(Freed(A, p), a, c)
      ensures Get(m', c, 0) == Get(m, c, 0)
    {
      assert A.Used(a) && a != p && B.Used(a) && SizeIn(B, a) == SizeIn(A, a);
      assert InPayload(B, a, c);
    }
  }

  lemma GivenEnds(A: Arena, q: int, e: int)
    requires e in A.chunks
    ensures Given(A, q, e).base == A.base && Given(A, q, e).top == A.top && Given(A, q, e).topSize == A.topSize
  {
  }
}
