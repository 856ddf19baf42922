// The moves of malloc and free, each taken as a whole: memory, arena and bins
// change together and the heap is well formed again.

module DlKeep {
  import opened Memory
  import opened LinkedLists
  import opened DlSizes
  import opened DlShape
  import opened DlLists
  import opened DlMoves
  import opened DlGive

  // B's live chunks are A's and v.
  ghost predicate UsedPlus(A: Arena, B: Arena, v: int) {
    && (forall a {:trigger B.Used(a)} {:trigger A.Used(a)} :: B.Used(a) <==> A.Used(a) || a == v)
    && (forall a {:trigger A.Used(a)} :: A.Used(a) && a != v ==> SizeIn(B, a) == SizeIn(A, a))
  }

  ghost predicate SameUsed(A: Arena, B: Arena) {
    && (forall a {:trigger B.Used(a)} {:trigger A.Used(a)} :: B.Used(a) <==> A.Used(a))
    && (forall a {:trigger A.Used(a)} :: A.Used(a) ==> SizeIn(B, a) == SizeIn(A, a))
  }

  // A cell holding a tag, or binblocks or top: never a link field in use.
  ghost predicate TagCell(A: Arena, c: int) {
    || c - SIZE in A.chunks || c in A.chunks
    || c == A.top || c == A.top + SIZE || c == AV + SIZE || c == AV + FD
  }

  lemma TagWriteMisses(m: Mem, A: Arena, bins: seq<seq<int>>, home: map<int, int>, c: int, off: int, v: int, i: int,
                       n: int)
    requires Tiled(A) && Lists(m, bins, home) && Listed(A, home) && TagCell(A, c + off)
    requires 1 <= i < NAV && (n == BinAt(i) || n in bins[i])
    ensures Get(Set(m, c, off, v), n, FD) == Get(m, n, FD)
    ensures Get(Set(m, c, off, v), n, BK) == Get(m, n, BK)
  {
    if n in bins[i] {
      assert n in home && A.Free(n) && n in A.chunks;
    }
  }

  lemma TagWriteKeepsLists(m: Mem, A: Arena, bins: seq<seq<int>>, home: map<int, int>, c: int, off: int, v: int)
    requires Tiled(A) && Lists(m, bins, home) && Listed(A, home) && TagCell(A, c + off)
    ensures Lists(Set(m, c, off, v), bins, home)
  {
    var m' := Set(m, c, off, v);
    forall i | 1 <= i < NAV
      ensures Linked(m', FD, BK, BinAt(i), bins[i])
    {
      forall n | n == BinAt(i) || n in bins[i]
        ensures Get(m', n, FD) == Get(m, n, FD) && Get(m', n, BK) == Get(m, n, BK)
      {
        TagWriteMisses(m, A, bins, home, c, off, v, i, n);
      }
      FrameRing(m, m', FD, BK, BinAt(i), bins[i]);
    }
  }

  // Bins survive a change of arena that keeps their chunks as they are; the
  // last remainder may change its size.
  lemma HomesTransfer(A: Arena, B: Arena, bins: seq<seq<int>>, home: map<int, int>)
    requires Homes(A, bins, home) && Members(bins, home)
    requires forall x :: x in home ==> B.Free(x) && (home[x] == 1 || SizeIn(B, x) == SizeIn(A, x))
    ensures Homes(B, bins, home)
  {
    forall i, j, k | 2 <= i < NAV && 0 <= j < k < |bins[i]|
      ensures SizeIn(B, bins[i][j]) >= SizeIn(B, bins[i][k])
    {
      assert bins[i][j] in bins[i] && bins[i][k] in bins[i];
      assert SizeIn(A, bins[i][j]) >= SizeIn(A, bins[i][k]);
    }
  }

  lemma FindIn(s: seq<int>, x: int) returns (k: nat)
    requires x in s
    ensures k < |s| && s[k] == x
  {
    k :| 0 <= k < |s| && s[k] == x;
  }

  lemma MemberHome(bins: seq<seq<int>>, home: map<int, int>, i: int, k: nat)
    requires Members(bins, home) && 1 <= i < NAV && k < |bins[i]|
    ensures bins[i][k] in home && home[bins[i][k]] == i
  {
    var x := bins[i][k];
    assert x in bins[i];
  }

  lemma ListedFree(A: Arena, home: map<int, int>, x: int)
    requires Listed(A, home) && x in home
    ensures A.Free(x)
  {
  }

  // ---- take a binned chunk whole ----

  lemma TakeArena(m: Mem, A: Arena, v: int)
    requires Shape(A) && Aligned(A) && Coalesced(A) && Tags(m, A) && A.Free(v)
    ensures A.Next(v) in A.chunks
    ensures Shape(Taken(A, v)) && Coalesced(Taken(A, v)) && Aligned(Taken(A, v))
    ensures Taken(A, v).top == A.top && Taken(A, v).topSize == A.topSize && Taken(A, v).base == A.base
    ensures Taken(A, v).chunks.Keys == A.chunks.Keys
  {
    FreeChunkKnows(m, A, v);
    TakeShape(A, v);
  }

  lemma TakeUsed(A: Arena, v: int)
    requires Tiled(A) && Coalesced(A) && A.Free(v)
    ensures A.Next(v) in A.chunks && A.Next(v) != v
    ensures UsedPlus(A, Taken(A, v), v) && SizeIn(Taken(A, v), v) == SizeIn(A, v) && Taken(A, v).Used(v)
    ensures forall x :: A.Free(x) && x != v ==> Taken(A, v).Free(x) && SizeIn(Taken(A, v), x) == SizeIn(A, x)
    ensures forall x :: Taken(A, v).Free(x) ==> A.Free(x) && x != v
  {
    assert A.Used(A.Next(v));
  }

  lemma TakeLists(m: Mem, A: Arena, bins: seq<seq<int>>, home: map<int, int>, i: int, k: nat)
    requires |bins| == NAV
    requires Shape(A) && Coalesced(A) && Tags(m, A) && Lists(m, bins, home) && Homes(A, bins, home)
    requires 1 <= i < NAV && k < |bins[i]| && A.Free(bins[i][k])
    ensures A.Next(bins[i][k]) in A.chunks
    ensures Lists(TakenMem(Unlink(m, FD, BK, bins[i][k]), A.Next(bins[i][k])),
                  bins[i := RemoveAt(bins[i], k)], home - {bins[i][k]})
  {
    hide Coalesced, Tags, Homes, Lists, Listed, KnowsPrev;
    var v := bins[i][k];
    FreeChunkKnows(m, A, v);
    HomesListed(A, bins, home);
    UnlinkKeeps(m, A, bins, home, i, k);
    ListedLess(A, home, v);
    var m1 := Unlink(m, FD, BK, v);
    var w := Get(m1, A.Next(v), SIZE);
    TagWriteKeepsLists(m1, A, bins[i := RemoveAt(bins[i], k)], home - {v}, A.Next(v), SIZE, if w % 2 == 1 then w
      else w + 1);
  }

  lemma HomesListed(A: Arena, bins: seq<seq<int>>, home: map<int, int>)
    requires Homes(A, bins, home)
    ensures Listed(A, home) && |bins| == NAV && |bins[1]| <= 1
  {
  }

  lemma ListedLess(A: Arena, home: map<int, int>, x: int)
    requires Listed(A, home)
    ensures Listed(A, home - {x})
  {
  }

  lemma TakeHomes(A: Arena, bins: seq<seq<int>>, home: map<int, int>, i: int, k: nat)
    requires |bins| == NAV
    requires Tiled(A) && Coalesced(A) && Members(bins, home) && Homes(A, bins, home) && AllHomed(A, home)
    requires 1 <= i < NAV && k < |bins[i]| && NoDup(bins[i])
    ensures A.Free(bins[i][k]) && A.Next(bins[i][k]) in A.chunks
    ensures Homes(Taken(A, bins[i][k]), bins[i := RemoveAt(bins[i], k)], home - {bins[i][k]})
    ensures AllHomed(Taken(A, bins[i][k]), home - {bins[i][k]})
  {
    hide Homes, Members, Tiled, Coalesced;
    var v := bins[i][k];
    MemberHome(bins, home, i, k);
    HomesListed(A, bins, home);
    ListedFree(A, home, v);
    TakeUsed(A, v);
    RemoveMembers(bins, home, i, k);
    RemoveHomes(A, bins, home, i, k);
    HomesTransfer(A, Taken(A, v), bins[i := RemoveAt(bins[i], k)], home - {v});
  }

  lemma TakeTagWords(m: Mem, A: Arena, bins: seq<seq<int>>, home: map<int, int>, i: int, k: nat)
    requires |bins| == NAV
    requires Shape(A) && Aligned(A) && Coalesced(A) && Tags(m, A) && Lists(m, bins, home) && Homes(A, bins, home)
    requires 1 <= i < NAV && k < |bins[i]| && A.Free(bins[i][k])
    ensures A.Next(bins[i][k]) in A.chunks
    ensures Tags(TakenMem(Unlink(m, FD, BK, bins[i][k]), A.Next(bins[i][k])), Taken(A, bins[i][k]))
    ensures PayloadsKept(A, m, TakenMem(Unlink(m, FD, BK, bins[i][k]), A.Next(bins[i][k])))
    ensures Get(TakenMem(Unlink(m, FD, BK, bins[i][k]), A.Next(bins[i][k])), AV, SIZE) == Get(m, AV, SIZE)
  {
    hide Aligned, Coalesced, Tags, Homes, Lists, Listed, KnowsPrev, Heads, Feet, Backs;
    var v := bins[i][k];
    var m1 := Unlink(m, FD, BK, v);
    FreeChunkKnows(m, A, v);
    HomesListed(A, bins, home);
    UnlinkTags(m, A, bins, home, i, k);
    TagsFrame(A, m, m1);
    TakeTags(m1, A, v);
    HeadWritePayload(A, m, m1, A.Next(v), if Get(m1, A.Next(v), SIZE) % 2 == 1 then Get(m1, A.Next(v), SIZE)
      else Get(m1, A.Next(v), SIZE) + 1);
  }

  lemma HeadWritePayload(A: Arena, m: Mem, m1: Mem, a: int, w: int)
    requires Tiled(A) && PayloadsKept(A, m, m1) && a in A.chunks
    ensures PayloadsKept(A, m, Set(m1, a, SIZE, w))
    ensures Get(Set(m1, a, SIZE, w), AV, SIZE) == Get(m1, AV, SIZE)
  {
    forall x, c | InPayload(A, x, c)
      ensures c != a + SIZE
    {
      OutsidePayloads(A, a + SIZE, x);
    }
  }

  lemma BlocksLess(m: Mem, m': Mem, bins: seq<seq<int>>, i: int, k: nat)
    requires Blocks(m, bins) && Get(m', AV, SIZE) == Get(m, AV, SIZE) && 1 <= i < NAV && k < |bins[i]|
    ensures Blocks(m', bins[i := RemoveAt(bins[i], k)])
  {
  }

  // unlink(victim); set_inuse_bit_at_offset(victim, victim_size)
  lemma TakeKeeps(m: Mem, A: Arena, bins: seq<seq<int>>, home: map<int, int>, i: int, k: nat)
    requires Inv(m, A, bins, home) && |bins| == NAV && 1 <= i < NAV && k < |bins[i]|
    ensures A.Free(bins[i][k]) && A.Next(bins[i][k]) in A.chunks
    ensures var v := bins[i][k]; var m' := TakenMem(Unlink(m, FD, BK, v), A.Next(v));
      && Inv(m', Taken(A, v), bins[i := RemoveAt(bins[i], k)], home - {v})
      && PayloadsKept(A, m, m')
      && UsedPlus(A, Taken(A, v), v) && SizeIn(Taken(A, v), v) == SizeIn(A, v)
  {
    hide Inv, SearchInv, Lists, Threads, Members, Shape, Tiled, KnowsPrev, Aligned, Coalesced, Tags, Heads, Feet,
      Backs, Homes, Listed, AllHomed, Blocks, Kept, TagsKept, PayloadsKept, UsedPlus;
    var v := bins[i][k];
    InvParts(m, A, bins, home);
    MemberHome(bins, home, i, k);
    ListedFree(A, home, v);
    BinNoDup(m, bins, i);
    TakeArena(m, A, v);
    TakeUsed(A, v);
    TakeLists(m, A, bins, home, i, k);
    TakeHomes(A, bins, home, i, k);
    TakeTagWords(m, A, bins, home, i, k);
    var m' := TakenMem(Unlink(m, FD, BK, v), A.Next(v));
    BlocksLess(m, m', bins, i, k);
    InvWhole(m', Taken(A, v), bins[i := RemoveAt(bins[i], k)], home - {v});
  }

  lemma BinNoDup(m: Mem, bins: seq<seq<int>>, i: int)
    requires Threads(m, bins) && 1 <= i < NAV
    ensures NoDup(bins[i])
  {
    NodesApart(m, FD, BK, BinAt(i), bins[i]);
  }

  lemma InvWhole(m: Mem, A: Arena, bins: seq<seq<int>>, home: map<int, int>)
    requires Shape(A) && Aligned(A) && Coalesced(A) && Tags(m, A)
    requires Lists(m, bins, home) && Homes(A, bins, home) && AllHomed(A, home) && Blocks(m, bins)
    ensures Inv(m, A, bins, home)
  {
  }

  // ---- split a free chunk, the rest becoming the last remainder ----

  lemma SplitUsed(A: Arena, v: int, nb: int)
    requires Tiled(A) && CanSplit(A, v, nb)
    ensures v + nb !in A.chunks
    ensures UsedPlus(A, Split(A, v, nb), v) && SizeIn(Split(A, v, nb), v) == nb && Split(A, v, nb).Used(v)
    ensures Split(A, v, nb).Free(v + nb)
    ensures forall x :: A.Free(x) && x != v ==> Split(A, v, nb).Free(x) && SizeIn(Split(A, v, nb), x) == SizeIn(A, x)
    ensures forall x :: Split(A, v, nb).Free(x) ==> (A.Free(x) && x != v) || x == v + nb
  {
    SplitApart(A, v, nb);
  }

  lemma SplitAligned(A: Arena, v: int, nb: int)
    requires Aligned(A) && CanSplit(A, v, nb) && nb % 8 == 0
    ensures Aligned(Split(A, v, nb))
  {
  }

  // The arena while the split is under way: both halves still free.
  function HalfArena(A: Arena, v: int, nb: int): Arena
    requires v in A.chunks
  {
    var B := Split(A, v, nb);
    B.(chunks := B.chunks[v := Chunk(nb, false, true)])
  }

  lemma HalfArenaListed(A: Arena, v: int, nb: int, home: map<int, int>)
    requires Tiled(A) && CanSplit(A, v, nb) && Listed(A, home)
    ensures Tiled(HalfArena(A, v, nb)) && Listed(HalfArena(A, v, nb), home)
    ensures HalfArena(A, v, nb).Free(v + nb) && v + nb !in home
  {
    SplitTiled(A, v, nb);
    var B, H := Split(A, v, nb), HalfArena(A, v, nb);
    forall a | a in H.chunks
      ensures H.Next(a) == H.top || H.Next(a) in H.chunks
    {
      assert H.Next(a) == B.Next(a);
      assert a in B.chunks;
    }
    hide Listed;
    assert Tiled(H);
  }

  // Keeping the tags of the half-split arena is keeping those of the split one.
  lemma HalfKept(A: Arena, v: int, nb: int, m: Mem, m': Mem)
    requires v in A.chunks && TagsKept(HalfArena(A, v, nb), m, m')
    ensures TagsKept(Split(A, v, nb), m, m')
  {
    var B, H := Split(A, v, nb), HalfArena(A, v, nb);
    assert forall a :: a in B.chunks ==> a in H.chunks;
  }

  lemma HalfPayloads(A: Arena, v: int, nb: int, m: Mem, m': Mem)
    requires Tiled(A) && CanSplit(A, v, nb) && PayloadsKept(HalfArena(A, v, nb), m, m')
    ensures PayloadsKept(A, m, m')
  {
    var H := HalfArena(A, v, nb);
    SplitApart(A, v, nb);
    forall a, c | InPayload(A, a, c)
      ensures Get(m', c, 0) == Get(m, c, 0)
    {
      assert InPayload(H, a, c);
    }
  }

  lemma PayloadsTrans(A: Arena, m: Mem, m1: Mem, m2: Mem)
    requires PayloadsKept(A, m, m1) && PayloadsKept(A, m1, m2)
    ensures PayloadsKept(A, m, m2)
  {
  }

  lemma SplitHeadStep(m: Mem, A: Arena, bins: seq<seq<int>>, home: map<int, int>, v: int, nb: int)
    requires Tiled(A) && CanSplit(A, v, nb) && Lists(m, bins, home) && Listed(A, home)
    ensures Lists(SplitHead(m, v, nb), bins, home)
    ensures PayloadsKept(A, m, SplitHead(m, v, nb)) && Get(SplitHead(m, v, nb), AV, SIZE) == Get(m, AV, SIZE)
  {
    hide Lists, Listed;
    TagWriteKeepsLists(m, A, bins, home, v, SIZE, nb + 1);
    forall a, c | InPayload(A, a, c)
      ensures c != v + SIZE
    {
      OutsidePayloads(A, v + SIZE, a);
    }
  }

  lemma SplitRestStep(m: Mem, A: Arena, B: Arena, bins: seq<seq<int>>, home: map<int, int>, v: int, nb: int)
    requires Tiled(A) && CanSplit(A, v, nb) && B == Split(A, v, nb) && Tiled(B) && Lists(m, bins, home)
      && Listed(B, home)
    ensures var m' := SplitRest(m, v + nb, A.chunks[v].size - nb);
      && Lists(m', bins, home) && PayloadsKept(A, m, m') && Get(m', AV, SIZE) == Get(m, AV, SIZE)
  {
    hide Lists, Listed;
    var r, rs := v + nb, A.chunks[v].size - nb;
    assert r + rs in B.chunks || r + rs == B.top by { assert B.Next(r) == r + rs; }
    TagWriteKeepsLists(m, B, bins, home, r, SIZE, rs + 1);
    TagWriteKeepsLists(Set(m, r, SIZE, rs + 1), B, bins, home, r + rs, PREV_SIZE, rs);
    forall a, c | InPayload(A, a, c)
      ensures c != r + SIZE && c != r + rs
    {
      InsideFree(A, v, r + SIZE, a);
      InsideFree(A, v, r + rs, a);
    }
  }

  // The whole split, around the list surgery that took m1 = set_head(victim)
  // to m2.
  lemma SplitKeeps(m: Mem, m2: Mem, A: Arena, v: int, nb: int,
                   bins: seq<seq<int>>, home: map<int, int>, bins': seq<seq<int>>, home': map<int, int>)
    requires Inv(m, A, bins, home) && CanSplit(A, v, nb) && nb % 8 == 0
    requires Lists(m2, bins', home') && Homes(Split(A, v, nb), bins', home') && AllHomed(Split(A, v, nb), home')
    requires Kept(HalfArena(A, v, nb), SplitHead(m, v, nb), m2)
    requires Blocks(m, bins') && Get(m2, AV, SIZE) == Get(m, AV, SIZE)
    ensures var m' := SplitRest(m2, v + nb, A.chunks[v].size - nb);
      && Inv(m', Split(A, v, nb), bins', home') && PayloadsKept(A, m, m')
      && UsedPlus(A, Split(A, v, nb), v) && SizeIn(Split(A, v, nb), v) == nb
  {
    hide Inv, SearchInv, Lists, Threads, Members, Shape, Tiled, KnowsPrev, Aligned, Coalesced, Tags, Heads, Feet,
      Backs, Homes, Listed, AllHomed, Blocks, Kept, TagsKept, PayloadsKept, UsedPlus;
    hide SplitHead, SplitRest, CanSplit, HalfArena, Split;
    InvParts(m, A, bins, home);
    SplitKeepsTags(m, m2, A, v, nb, bins, home);
    SplitKeepsLists(m, m2, A, v, nb, bins', home');
    SplitUsedToo(A, v, nb);
    InvWhole(SplitRest(m2, v + nb, SizeIn(A, v) - nb), Split(A, v, nb), bins', home');
  }

  lemma SplitUsedToo(A: Arena, v: int, nb: int)
    requires Tiled(A) && CanSplit(A, v, nb)
    ensures v in A.chunks && SizeIn(A, v) == A.chunks[v].size
    ensures UsedPlus(A, Split(A, v, nb), v) && SizeIn(Split(A, v, nb), v) == nb
  {
    SplitUsed(A, v, nb);
  }

  lemma SplitKeepsTags(m: Mem, m2: Mem, A: Arena, v: int, nb: int, bins: seq<seq<int>>, home: map<int, int>)
    requires Shape(A) && Aligned(A) && Coalesced(A) && Tags(m, A) && Lists(m, bins, home) && Listed(A, home)
    requires CanSplit(A, v, nb) && nb % 8 == 0
    requires Kept(HalfArena(A, v, nb), SplitHead(m, v, nb), m2)
    ensures Tags(SplitRest(m2, v + nb, SizeIn(A, v) - nb), Split(A, v, nb))
    ensures Shape(Split(A, v, nb)) && Coalesced(Split(A, v, nb)) && Aligned(Split(A, v, nb))
    ensures PayloadsKept(A, m, m2)
  {
    hide Tags, Heads, Feet, Backs, Lists, Listed, Coalesced, Aligned, KnowsPrev, TagsKept, PayloadsKept, HalfArena,
      SplitHead, SplitRest;
    HalfKept(A, v, nb, SplitHead(m, v, nb), m2);
    HalfPayloads(A, v, nb, SplitHead(m, v, nb), m2);
    SplitTags(m, m2, A, v, nb);
    SplitShape(m, A, v, nb);
    SplitAligned(A, v, nb);
    SplitHeadStep(m, A, bins, home, v, nb);
    PayloadsTrans(A, m, SplitHead(m, v, nb), m2);
  }

  lemma SplitKeepsLists(m: Mem, m2: Mem, A: Arena, v: int, nb: int, bins': seq<seq<int>>, home': map<int, int>)
    requires Shape(A) && CanSplit(A, v, nb) && Shape(Split(A, v, nb))
    requires Lists(m2, bins', home') && Homes(Split(A, v, nb), bins', home')
    requires Blocks(m, bins') && Get(m2, AV, SIZE) == Get(m, AV, SIZE) && PayloadsKept(A, m, m2)
    ensures var m' := SplitRest(m2, v + nb, SizeIn(A, v) - nb);
      Lists(m', bins', home') && Blocks(m', bins') && PayloadsKept(A, m, m')
  {
    hide Tiled, KnowsPrev, Lists, Listed, PayloadsKept, SplitRest;
    var m' := SplitRest(m2, v + nb, SizeIn(A, v) - nb);
    SplitRestStep(m2, A, Split(A, v, nb), bins', home', v, nb);
    PayloadsTrans(A, m, m2, m');
  }

  // Splitting a binned chunk: unlink(victim), link_last_remainder(remainder).
  lemma SplitBinned(m: Mem, A: Arena, bins: seq<seq<int>>, home: map<int, int>, i: int, k: nat, nb: int)
    requires Inv(m, A, bins, home) && |bins| == NAV && 2 <= i < NAV && k < |bins[i]| && bins[1] == []
    requires CanSplit(A, bins[i][k], nb) && nb % 8 == 0
    ensures var v := bins[i][k];
      var m' := SplitRest(LinkLastRemainder(Unlink(SplitHead(m, v, nb), FD, BK, v), v + nb), v + nb,
        A.chunks[v].size - nb);
      && Inv(m', Split(A, v, nb), bins[i := RemoveAt(bins[i], k)][1 := [v + nb]], (home - {v})[v + nb := 1])
      && PayloadsKept(A, m, m')
      && UsedPlus(A, Split(A, v, nb), v) && SizeIn(Split(A, v, nb), v) == nb
  {
    hide Inv, SearchInv, Lists, Threads, Members, Shape, Tiled, KnowsPrev, Aligned, Coalesced, Tags, Heads, Feet,
      Backs, Homes, Listed, AllHomed, Blocks, Kept, TagsKept, PayloadsKept, UsedPlus;
    hide SplitHead, SplitRest, HalfArena, Split, LinkLastRemainder;
    var v := bins[i][k];
    InvParts(m, A, bins, home);
    BinNoDup(m, bins, i);
    MemberHome(bins, home, i, k);
    SplitHeadStep(m, A, bins, home, v, nb);
    SplitBinnedLists(SplitHead(m, v, nb), A, bins, home, i, k, nb);
    SplitBinnedHomes(A, bins, home, i, k, nb);
    BlocksSplit(m, bins, i, k, v + nb);
    SplitKeeps(m, LinkLastRemainder(Unlink(SplitHead(m, v, nb), FD, BK, v), v + nb), A, v, nb, bins, home,
               bins[i := RemoveAt(bins[i], k)][1 := [v + nb]], (home - {v})[v + nb := 1]);
  }

  lemma BlocksSplit(m: Mem, bins: seq<seq<int>>, i: int, k: nat, r: int)
    requires Blocks(m, bins) && 2 <= i < NAV && k < |bins[i]|
    ensures Blocks(m, bins[i := RemoveAt(bins[i], k)][1 := [r]])
  {
  }

  lemma SplitBinnedLists(m1: Mem, A: Arena, bins: seq<seq<int>>, home: map<int, int>, i: int, k: nat, nb: int)
    requires |bins| == NAV && 2 <= i < NAV && k < |bins[i]| && bins[1] == []
    requires Tiled(A) && Lists(m1, bins, home) && Listed(A, home) && CanSplit(A, bins[i][k], nb)
    ensures var v := bins[i][k]; var m2 := LinkLastRemainder(Unlink(m1, FD, BK, v), v + nb);
      && Lists(m2, bins[i := RemoveAt(bins[i], k)][1 := [v + nb]], (home - {v})[v + nb := 1])
      && Kept(HalfArena(A, v, nb), m1, m2) && Get(m2, AV, SIZE) == Get(m1, AV, SIZE)
  {
    hide Tiled, Lists, Listed, HalfArena, PayloadsKept, LinkLastRemainder;
    var v, r := bins[i][k], bins[i][k] + nb;
    var H := HalfArena(A, v, nb);
    var bins1, home1 := bins[i := RemoveAt(bins[i], k)], home - {v};
    var m := Unlink(m1, FD, BK, v);
    HalfArenaListed(A, v, nb, home);
    UnlinkKeeps(m1, H, bins, home, i, k);
    UnlinkTags(m1, H, bins, home, i, k);
    ListedLess(H, home, v);
    LinkRemainderKeeps(m, H, bins1, home1, r);
    KeptTrans(H, m1, m, LinkLastRemainder(m, r));
    assert RemainderHome(bins1, home1, [r]) == home1[r := 1];
  }

  lemma SplitBinnedHomes(A: Arena, bins: seq<seq<int>>, home: map<int, int>, i: int, k: nat, nb: int)
    requires |bins| == NAV && 2 <= i < NAV && k < |bins[i]| && bins[1] == [] && NoDup(bins[i])
    requires Tiled(A) && Homes(A, bins, home) && Members(bins, home) && AllHomed(A, home) && CanSplit(A, bins[i][k], nb)
    ensures var v := bins[i][k]; var B := Split(A, v, nb);
      && Homes(B, bins[i := RemoveAt(bins[i], k)][1 := [v + nb]], (home - {v})[v + nb := 1])
      && AllHomed(B, (home - {v})[v + nb := 1])
  {
    hide Tiled, Homes, Members, Split, Listed;
    var v, r := bins[i][k], bins[i][k] + nb;
    var B := Split(A, v, nb);
    var bins1, home1 := bins[i := RemoveAt(bins[i], k)], home - {v};
    SplitUsed(A, v, nb);
    RemoveMembers(bins, home, i, k);
    RemoveHomes(A, bins, home, i, k);
    HomesListed(A, bins, home);
    ListedAll(A, home);
    HomesTransfer(A, B, bins1, home1);
    RemainderHomes(B, bins1, home1, [r]);
    assert RemainderHome(bins1, home1, [r]) == home1[r := 1];
  }

  lemma ListedAll(A: Arena, home: map<int, int>)
    requires Listed(A, home)
    ensures forall x :: x in home ==> A.Free(x)
  {
  }

  // Splitting the last remainder again: link_last_remainder(remainder).
  lemma SplitRemainder(m: Mem, A: Arena, bins: seq<seq<int>>, home: map<int, int>, v: int, nb: int)
    requires Inv(m, A, bins, home) && |bins| == NAV && bins[1] == [v]
    requires CanSplit(A, v, nb) && nb % 8 == 0
    ensures
      var m' := SplitRest(LinkLastRemainder(SplitHead(m, v, nb), v + nb), v + nb, A.chunks[v].size - nb);
      && Inv(m', Split(A, v, nb), bins[1 := [v + nb]], (home - {v})[v + nb := 1])
      && PayloadsKept(A, m, m')
      && UsedPlus(A, Split(A, v, nb), v) && SizeIn(Split(A, v, nb), v) == nb
  {
    hide Inv, SearchInv, Lists, Threads, Members, Shape, Tiled, KnowsPrev, Aligned, Coalesced, Tags, Heads, Feet,
      Backs, Homes, Listed, AllHomed, Blocks, Kept, TagsKept, PayloadsKept, UsedPlus;
    hide SplitHead, SplitRest, HalfArena, Split, LinkLastRemainder;
    InvParts(m, A, bins, home);
    MemberHome(bins, home, 1, 0);
    SplitHeadStep(m, A, bins, home, v, nb);
    SplitRemainderLists(SplitHead(m, v, nb), A, bins, home, v, nb);
    SplitRemainderHomes(A, bins, home, v, nb);
    BlocksRemainder(m, bins, v + nb);
    SplitKeeps(m, LinkLastRemainder(SplitHead(m, v, nb), v + nb), A, v, nb, bins, home,
               bins[1 := [v + nb]], (home - {v})[v + nb := 1]);
  }

  lemma BlocksRemainder(m: Mem, bins: seq<seq<int>>, r: int)
    requires Blocks(m, bins)
    ensures Blocks(m, bins[1 := [r]])
  {
  }

  lemma SplitRemainderLists(m1: Mem, A: Arena, bins: seq<seq<int>>, home: map<int, int>, v: int, nb: int)
    requires |bins| == NAV && bins[1] == [v] && v in home && home[v] == 1
    requires Tiled(A) && Lists(m1, bins, home) && Listed(A, home) && CanSplit(A, v, nb)
    ensures var m2 := LinkLastRemainder(m1, v + nb);
      && Lists(m2, bins[1 := [v + nb]], (home - {v})[v + nb := 1])
      && Kept(HalfArena(A, v, nb), m1, m2) && Get(m2, AV, SIZE) == Get(m1, AV, SIZE)
  {
    hide Tiled, Lists, Listed, HalfArena, PayloadsKept, LinkLastRemainder;
    HalfArenaListed(A, v, nb, home);
    LinkRemainderKeeps(m1, HalfArena(A, v, nb), bins, home, v + nb);
    assert RemainderHome(bins, home, [v + nb]) == (home - {v})[v + nb := 1];
  }

  lemma SplitRemainderHomes(A: Arena, bins: seq<seq<int>>, home: map<int, int>, v: int, nb: int)
    requires |bins| == NAV && bins[1] == [v] && v in home && home[v] == 1
    requires Tiled(A) && Homes(A, bins, home) && Members(bins, home) && AllHomed(A, home) && CanSplit(A, v, nb)
    ensures var B := Split(A, v, nb);
      && Homes(B, bins[1 := [v + nb]], (home - {v})[v + nb := 1]) && AllHomed(B, (home - {v})[v + nb := 1])
  {
    hide Tiled, Homes, Members, Split, Listed;
    var B := Split(A, v, nb);
    SplitUsed(A, v, nb);
    HomesListed(A, bins, home);
    ListedAll(A, home);
    RemainderMembers(bins, home, []);
    RemainderHomes(A, bins, home, []);
    assert RemainderHome(bins, home, []) == home - {v};
    HomesTransfer(A, B, bins[1 := []], home - {v});
    RemainderHomes(B, bins[1 := []], home - {v}, [v + nb]);
    assert RemainderHome(bins[1 := []], home - {v}, [v + nb]) == (home - {v})[v + nb := 1];
    assert bins[1 := []][1 := [v + nb]] == bins[1 := [v + nb]];
  }

  // ---- the last remainder, cleared and taken whole ----

  lemma ExhaustKeeps(m: Mem, A: Arena, bins: seq<seq<int>>, home: map<int, int>, v: int)
    requires Inv(m, A, bins, home) && |bins| == NAV && bins[1] == [v] && A.Free(v) && A.Next(v) in A.chunks
    ensures var m' := TakenMem(ClearLastRemainder(m), A.Next(v));
      && Inv(m', Taken(A, v), bins[1 := []], home - {v})
      && PayloadsKept(A, m, m')
      && UsedPlus(A, Taken(A, v), v) && SizeIn(Taken(A, v), v) == SizeIn(A, v)
  {
    hide Inv, SearchInv, Lists, Threads, Members, Shape, Tiled, KnowsPrev, Aligned, Coalesced, Tags, Heads, Feet,
      Backs, Homes, Listed, AllHomed, Blocks, Kept, TagsKept, PayloadsKept, UsedPlus;
    hide TakenMem, ClearLastRemainder, Taken;
    InvParts(m, A, bins, home);
    MemberHome(bins, home, 1, 0);
    TakeArena(m, A, v);
    TakeUsed(A, v);
    ExhaustWords(m, A, bins, home, v);
    ExhaustHomes(A, bins, home, v);
    InvWhole(TakenMem(ClearLastRemainder(m), A.Next(v)), Taken(A, v), bins[1 := []], home - {v});
  }

  lemma ExhaustWords(m: Mem, A: Arena, bins: seq<seq<int>>, home: map<int, int>, v: int)
    requires |bins| == NAV && bins[1] == [v] && A.Free(v) && A.Next(v) in A.chunks
    requires Shape(A) && Aligned(A) && Coalesced(A) && Tags(m, A) && Lists(m, bins, home) && Listed(A, home)
    requires Blocks(m, bins)
    ensures var m' := TakenMem(ClearLastRemainder(m), A.Next(v));
      && Tags(m', Taken(A, v)) && PayloadsKept(A, m, m') && Blocks(m', bins[1 := []])
      && Lists(m', bins[1 := []], home - {v})
  {
    hide Tiled, KnowsPrev, Aligned, Coalesced, Tags, Lists, Listed, ClearLastRemainder, PayloadsKept, Heads, Feet,
      Backs;
    var m1 := ClearLastRemainder(m);
    var w := Get(m1, A.Next(v), SIZE);
    var w' := if w % 2 == 1 then w else w + 1;
    ClearRemainderKeeps(m, A, bins, home);
    assert RemainderHome(bins, home, []) == home - {v};
    TagsFrame(A, m, m1);
    TakeTags(m1, A, v);
    HeadWritePayload(A, m, m1, A.Next(v), w');
    ListedLess(A, home, v);
    TagWriteKeepsLists(m1, A, bins[1 := []], home - {v}, A.Next(v), SIZE, w');
  }

  lemma ExhaustHomes(A: Arena, bins: seq<seq<int>>, home: map<int, int>, v: int)
    requires |bins| == NAV && bins[1] == [v] && v in home && A.Free(v) && A.Next(v) in A.chunks
    requires Tiled(A) && Coalesced(A) && Homes(A, bins, home) && Members(bins, home) && AllHomed(A, home)
    ensures Homes(Taken(A, v), bins[1 := []], home - {v}) && AllHomed(Taken(A, v), home - {v})
  {
    hide Tiled, Coalesced, Homes, Members, Listed;
    HomesListed(A, bins, home);
    ListedAll(A, home);
    TakeUsed(A, v);
    RemainderMembersCleared(bins, home, v);
    RemainderHomes(A, bins, home, []);
    assert RemainderHome(bins, home, []) == home - {v};
    HomesTransfer(A, Taken(A, v), bins[1 := []], home - {v});
  }

  lemma RemainderMembersCleared(bins: seq<seq<int>>, home: map<int, int>, v: int)
    requires Members(bins, home) && bins[1] == [v]
    ensures Members(bins[1 := []], home - {v})
  {
    RemainderMembers(bins, home, []);
    assert RemainderHome(bins, home, []) == home - {v};
  }

  // ---- linking a chunk into its bin ----

  // Position k of bin i is where a chunk of size sz belongs: behind the larger
  // ones, ahead of its equals.
  ghost predicate Place(A: Arena, s: seq<int>, k: int, sz: int) {
    && 0 <= k <= |s|
    && (forall j :: 0 <= j < k ==> SizeIn(A, s[j]) > sz)
    && (k < |s| ==> SizeIn(A, s[k]) <= sz)
  }

  lemma FrontlinkKeeps(m: Mem, A: Arena, bins: seq<seq<int>>, home: map<int, int>, p: int, i: int, k: nat)
    requires |bins| == NAV && Tiled(A) && Lists(m, bins, home) && Homes(A, bins, home)
    requires A.Free(p) && p !in home && i == BinIndex(A.chunks[p].size) && 2 <= i < NAV
    requires Place(A, bins[i], k, A.chunks[p].size)
    ensures var m' := LinkBetween(m, FD, BK, p, PrevAt(bins, i, k), NextAt(bins, i, k));
      && Lists(m', bins[i := InsertAt(bins[i], k, p)], home[p := i])
      && Homes(A, bins[i := InsertAt(bins[i], k, p)], home[p := i])
      && Kept(A, m, m') && Get(m', AV, SIZE) == Get(m, AV, SIZE)
  {
    hide Tiled, Lists, Homes, Listed, PayloadsKept;
    HomesListed(A, bins, home);
    InsertKeeps(m, A, bins, home, i, k, p);
    InsertHomes(A, bins, home, i, k, p);
  }

  // The order of set_inuse_bit_at_offset and unlink does not matter.
  lemma SetCommutes(m: Mem, a: int, ao: int, av: int, b: int, bo: int, bv: int)
    requires a + ao != b + bo
    ensures Set(Set(m, a, ao, av), b, bo, bv) == Set(Set(m, b, bo, bv), a, ao, av)
  {
  }

  lemma TakeOrder(m: Mem, A: Arena, bins: seq<seq<int>>, home: map<int, int>, i: int, k: nat)
    requires |bins| == NAV && Tiled(A) && Lists(m, bins, home) && Listed(A, home)
    requires 1 <= i < NAV && k < |bins[i]| && A.Free(bins[i][k]) && A.Next(bins[i][k]) in A.chunks
    ensures var v := bins[i][k]; var n := A.Next(v);
      Unlink(TakenMem(m, n), FD, BK, v) == TakenMem(Unlink(m, FD, BK, v), n)
  {
    hide Lists, Listed;
    var v := bins[i][k];
    var n := A.Next(v);
    var prev, next := Get(m, v, BK), Get(m, v, FD);
    NeighbourNodes(m, bins, home, i, k);
    NodeIsLinkCell(A, bins, home, m, i, prev);
    NodeIsLinkCell(A, bins, home, m, i, next);
    LinkCellNoTag(A, prev + FD, n);
    LinkCellNoTag(A, next + BK, n);
    OrderCells(m, v, n, prev, next);
  }

  lemma OrderCells(m: Mem, v: int, n: int, prev: int, next: int)
    requires prev == Get(m, v, BK) && next == Get(m, v, FD)
    requires n >= v + MINSIZE && prev + FD != n + SIZE && next + BK != n + SIZE
    ensures Unlink(TakenMem(m, n), FD, BK, v) == TakenMem(Unlink(m, FD, BK, v), n)
  {
    var w := Get(m, n, SIZE);
    var w' := if w % 2 == 1 then w else w + 1;
    SetCommutes(m, n, SIZE, w', next, BK, prev);
    SetCommutes(Set(m, next, BK, prev), n, SIZE, w', prev, FD, next);
  }

  // ---- carving top ----

  lemma CarveKeeps(m: Mem, A: Arena, bins: seq<seq<int>>, home: map<int, int>, nb: int)
    requires Inv(m, A, bins, home) && |bins| == NAV && nb % 8 == 0 && MINSIZE <= nb <= A.topSize - MINSIZE
    ensures var m' := CarvedMem(m, A.top, nb, A.topSize - nb);
      && Inv(m', Carved(A, nb), bins, home)
      && PayloadsKept(A, m, m')
      && UsedPlus(A, Carved(A, nb), A.top) && SizeIn(Carved(A, nb), A.top) == nb
  {
    hide Inv, SearchInv, Lists, Threads, Members, Shape, Tiled, KnowsPrev, Aligned, Coalesced, Tags, Heads, Feet,
      Backs, Homes, Listed, AllHomed, Blocks, Kept, TagsKept, PayloadsKept, UsedPlus, SameUsed;
    hide Carved, CarvedMem;
    InvParts(m, A, bins, home);
    CarveShape(A, nb);
    CarveTags(m, A, nb);
    CarvePayloads(m, A, nb);
    CarveUsed(A, nb);
    CarveLists(m, A, bins, home, nb);
    CarveHomes(A, bins, home, nb);
    InvWhole(CarvedMem(m, A.top, nb, A.topSize - nb), Carved(A, nb), bins, home);
  }

  lemma CarveUsed(A: Arena, nb: int)
    requires Tiled(A) && Aligned(A) && nb % 8 == 0
    ensures UsedPlus(A, Carved(A, nb), A.top) && SizeIn(Carved(A, nb), A.top) == nb
    ensures Aligned(Carved(A, nb))
  {
    hide Tiled;
    TopNoChunk(A);
  }

  lemma TopNoChunk(A: Arena)
    requires Tiled(A)
    ensures A.top !in A.chunks
  {
  }

  lemma CarveLists(m: Mem, A: Arena, bins: seq<seq<int>>, home: map<int, int>, nb: int)
    requires |bins| == NAV && Tiled(A) && Tiled(Carved(A, nb)) && Lists(m, bins, home) && Listed(A, home)
      && Blocks(m, bins)
    requires MINSIZE <= nb <= A.topSize - MINSIZE
    ensures Lists(CarvedMem(m, A.top, nb, A.topSize - nb), bins, home)
    ensures Blocks(CarvedMem(m, A.top, nb, A.topSize - nb), bins)
  {
    hide Lists, Listed, Tiled;
    var m1 := Set(m, A.top, SIZE, nb + 1);
    var m2 := Set(m1, AV, FD, A.top + nb);
    TopAddress(A);
    TagWriteKeepsLists(m, A, bins, home, A.top, SIZE, nb + 1);
    TagWriteKeepsLists(m1, A, bins, home, AV, FD, A.top + nb);
    CarveListed(A, nb, home);
    TagWriteKeepsLists(m2, Carved(A, nb), bins, home, A.top + nb, SIZE, A.topSize - nb + 1);
  }

  lemma TopAddress(A: Arena)
    requires Tiled(A)
    ensures LOW <= A.base <= A.top && A.topSize >= MINSIZE
  {
  }

  lemma CarveListed(A: Arena, nb: int, home: map<int, int>)
    requires Tiled(A) && Listed(A, home)
    ensures Listed(Carved(A, nb), home)
  {
    hide Tiled;
    TopNoChunk(A);
  }

  lemma CarveHomes(A: Arena, bins: seq<seq<int>>, home: map<int, int>, nb: int)
    requires |bins| == NAV && Tiled(A) && Homes(A, bins, home) && Members(bins, home) && AllHomed(A, home)
    ensures Homes(Carved(A, nb), bins, home) && AllHomed(Carved(A, nb), home)
  {
    hide Homes, Members, Tiled;
    TopNoChunk(A);
    HomesListed(A, bins, home);
    ListedAll(A, home);
    HomesTransfer(A, Carved(A, nb), bins, home);
  }

  // ---- growing and trimming top ----

  lemma TopSizeKeeps(m: Mem, A: Arena, bins: seq<seq<int>>, home: map<int, int>, sz: int)
    requires Inv(m, A, bins, home) && |bins| == NAV && MINSIZE <= sz && sz % 8 == 0
    ensures var m' := Set(m, A.top, SIZE, sz + 1);
      && Inv(m', A.(topSize := sz), bins, home) && PayloadsKept(A, m, m') && SameUsed(A, A.(topSize := sz))
  {
    hide Inv, SearchInv, Lists, Threads, Members, Shape, Tiled, KnowsPrev, Aligned, Coalesced, Tags, Heads, Feet,
      Backs, Homes, Listed, AllHomed, Blocks, Kept, TagsKept, PayloadsKept, UsedPlus, SameUsed;
    InvParts(m, A, bins, home);
    TopAddress(A);
    TagWriteKeepsLists(m, A, bins, home, A.top, SIZE, sz + 1);
    TopSizeTags(m, A, sz);
    TopSizeHomes(m, A, bins, home, sz);
    InvWhole(Set(m, A.top, SIZE, sz + 1), A.(topSize := sz), bins, home);
  }

  lemma TopSizeTags(m: Mem, A: Arena, sz: int)
    requires Shape(A) && Aligned(A) && Coalesced(A) && Tags(m, A) && MINSIZE <= sz && sz % 8 == 0
    ensures var B := A.(topSize := sz); var m' := Set(m, A.top, SIZE, sz + 1);
      Shape(B) && Aligned(B) && Coalesced(B) && Tags(m', B) && PayloadsKept(A, m, m')
  {
    var B := A.(topSize := sz);
    var m' := Set(m, A.top, SIZE, sz + 1);
    forall a | a in A.chunks
      ensures B.Next(a) == A.Next(a) && a + SIZE != A.top + SIZE
    {
    }
    assert Heads(m', B) by {
      forall a | a in B.chunks
        ensures Get(m', a, SIZE) == Head(B, a)
      {
        assert Get(m, a, SIZE) == Head(A, a);
      }
    }
    TopSizeFeet(m, A, sz);
    TopSizeBacks(m, A, sz);
    forall a, c | InPayload(A, a, c)
      ensures c != A.top + SIZE
    {
      OutsidePayloads(A, A.top + SIZE, a);
    }
  }

  lemma TopSizeFeet(m: Mem, A: Arena, sz: int)
    requires Tiled(A) && Feet(m, A)
    ensures Feet(Set(m, A.top, SIZE, sz + 1), A.(topSize := sz))
  {
    var B := A.(topSize := sz);
    forall a | B.Free(a)
      ensures Get(Set(m, A.top, SIZE, sz + 1), B.Next(a), PREV_SIZE) == B.chunks[a].size
    {
      assert A.Next(a) == B.Next(a);
    }
  }

  lemma TopSizeBacks(m: Mem, A: Arena, sz: int)
    requires Tiled(A) && Backs(m, A)
    ensures Backs(Set(m, A.top, SIZE, sz + 1), A.(topSize := sz))
  {
    var m' := Set(m, A.top, SIZE, sz + 1);
    forall a | a in A.chunks
      ensures Get(m', a, PREV_SIZE) == Get(m, a, PREV_SIZE)
    {
    }
    BacksFrame(m, m', A, A.(topSize := sz));
  }

  lemma BacksFrame(m: Mem, m': Mem, A: Arena, B: Arena)
    requires Backs(m, A) && B.chunks == A.chunks
    requires forall a {:trigger Get(m', a, PREV_SIZE)} :: a in A.chunks && !A.chunks[a].prevUsed ==>
      Get(m', a, PREV_SIZE) == Get(m, a, PREV_SIZE)
    ensures Backs(m', B)
  {
    forall a | a in B.chunks && !B.chunks[a].prevUsed
      ensures var p := a - Get(m', a, PREV_SIZE); B.Free(p) && B.Next(p) == a
    {
      var p := a - Get(m, a, PREV_SIZE);
      assert A.Free(p) && A.Next(p) == a;
    }
  }

  lemma TopSizeHomes(m: Mem, A: Arena, bins: seq<seq<int>>, home: map<int, int>, sz: int)
    requires |bins| == NAV && Homes(A, bins, home) && Members(bins, home) && AllHomed(A, home) && Blocks(m, bins)
      && A.top >= LOW
    ensures Homes(A.(topSize := sz), bins, home) && AllHomed(A.(topSize := sz), home)
    ensures Blocks(Set(m, A.top, SIZE, sz + 1), bins) && SameUsed(A, A.(topSize := sz))
  {
    hide Homes, Members;
    HomesListed(A, bins, home);
    ListedAll(A, home);
    HomesTransfer(A, A.(topSize := sz), bins, home);
  }

  // The first memory: all of it is top.
  lemma FirstTop(m: Mem, bins: seq<seq<int>>, home: map<int, int>, start: int, sz: int)
    requires SearchInv(m, Arena(start, map[], start, MINSIZE), bins, home) && |bins| == NAV
    requires MINSIZE <= sz && sz % 8 == 0
    ensures Inv(Set(Set(m, AV, FD, start), start, SIZE, sz + 1), Arena(start, map[], start, sz), bins, home)
  {
    hide Inv, SearchInv, Lists, Threads, Members, Shape, Tiled, KnowsPrev, Aligned, Coalesced, Tags, Heads, Feet,
      Backs, Homes, Listed, AllHomed, Blocks, Kept, TagsKept, PayloadsKept, UsedPlus, SameUsed;
    var A := Arena(start, map[], start, MINSIZE);
    SearchParts(m, A, bins, home);
    FirstTopLists(m, A, bins, home, start, sz);
    FirstTopRest(m, bins, home, start, sz);
    InvWhole(Set(Set(m, AV, FD, start), start, SIZE, sz + 1), Arena(start, map[], start, sz), bins, home);
  }

  lemma FirstTopLists(m: Mem, A: Arena, bins: seq<seq<int>>, home: map<int, int>, start: int, sz: int)
    requires |bins| == NAV && Tiled(A) && A.top == start && Lists(m, bins, home) && Listed(A, home)
    ensures Lists(Set(Set(m, AV, FD, start), start, SIZE, sz + 1), bins, home)
  {
    hide Tiled, Lists, Listed;
    TagWriteKeepsLists(m, A, bins, home, AV, FD, start);
    TagWriteKeepsLists(Set(m, AV, FD, start), A, bins, home, start, SIZE, sz + 1);
  }

  lemma FirstTopRest(m: Mem, bins: seq<seq<int>>, home: map<int, int>, start: int, sz: int)
    requires var A := Arena(start, map[], start, MINSIZE);
      |bins| == NAV && Shape(A) && Aligned(A) && Homes(A, bins, home) && Members(bins, home) && AllHomed(A, home)
    requires Blocks(m, bins) && MINSIZE <= sz && sz % 8 == 0
    ensures var B := Arena(start, map[], start, sz); var m' := Set(Set(m, AV, FD, start), start, SIZE, sz + 1);
      && Shape(B) && Aligned(B) && Coalesced(B) && Tags(m', B)
      && Homes(B, bins, home) && AllHomed(B, home) && Blocks(m', bins)
  {
  }
}
