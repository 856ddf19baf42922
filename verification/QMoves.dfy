// How qmalloc's operations combine the five steps: taking a free block into
// hand, absorbing a free neighbour on either side, and releasing the result.

module QMoves {
  import opened Memory
  import opened LinkedLists
  import opened QShape
  import opened QSteps

  ghost predicate NoFreePred(Z: Zone, x: int) {
    forall a {:trigger Z.Next(a)} :: a in Z.blocks && Z.Next(a) == x ==> !Z.Free(a)
  }

  lemma TakeKeeps(m: Mem, Z: Zone, fl: seq<int>, hand: set<int>, x: int, k: nat)
    requires Inv(m, Z, fl, hand) && k < |fl| && fl[k] == x + HEADER && x in Z.blocks
    ensures Inv(RemoveMem(m, x), Retag(Z, x, true), RemoveAt(fl, k), hand + {x})
    ensures Keeps(Z, m, Retag(Z, x, true), RemoveMem(m, x))
  {
    hide Inv, Keeps, RemoveMem, Unlink, RemoveAt;
    RemoveOrder(m, Z, fl, hand, x, k);
    GrabKeeps(m, Z, fl, hand, x, k);
    KeepsVia(Z, m, Z, Retag(Z, x, true), RemoveMem(m, x));
  }

  // ---- joining with a free neighbour ----

  // The zone after block x has absorbed its free successor n, or a free x its
  // successor n.
  function Fused(Z: Zone, x: int, n: int, took: int): Zone
    requires x in Z.blocks && n in Z.blocks && x != n && took in Z.blocks
  {
    Join(Retag(Z, took, true), x, n)
  }

  lemma FusedShape(Z: Zone, x: int, n: int, took: int)
    requires Tiled(Z) && x in Z.blocks && n in Z.blocks && Z.Next(x) == n && x != n && (took == x || took == n)
    ensures var F := Fused(Z, x, n, took);
            F.Used(x) && F.Next(x) == Z.Next(n) && F.blocks[x].size == Z.blocks[x].size + Z.blocks[n].size
    ensures NoFreePred(Z, x) ==> NoFreePred(Fused(Z, x, n, took), x)
    ensures !Z.Free(Z.Next(n)) ==> !Fused(Z, x, n, took).Free(Fused(Z, x, n, took).Next(x))
  {
    var F := Fused(Z, x, n, took);
    NextGrows(Z, n);
    NextGrows(Z, x);
    if NoFreePred(Z, x) {
      forall a | a in F.blocks && F.Next(a) == x
        ensures !F.Free(a)
      {
        if a != x { assert a in Z.blocks && F.Next(a) == Z.Next(a); }
      }
    }
  }

  lemma FusedRooms(Z: Zone, x: int, n: int, took: int)
    requires Tiled(Z) && x in Z.blocks && n in Z.blocks && x != n && (took == x || took == n)
    ensures forall a {:trigger Fused(Z, x, n, took).Room(a)} :: a != x && a != n ==>
      Fused(Z, x, n, took).Room(a) == Z.Room(a)
    ensures Fused(Z, x, n, took).Room(n) == 0
    ensures Fused(Z, x, n, took).Room(x) == Z.blocks[x].size + Z.blocks[n].size
    ensures forall a :: Retag(Z, took, true).Room(a) >= Z.Room(a)
  {
  }

  // remove_free(took); merge_block(x, n): either x or n was free, the other is
  // in use; the result is in hand if x was taken off the list.
  lemma FuseKeeps(m: Mem, Z: Zone, fl: seq<int>, hand: set<int>, x: int, n: int, took: int, k: nat)
    requires Inv(m, Z, fl, hand) && k < |fl| && fl[k] == took + HEADER
    requires x in Z.blocks && n in Z.blocks && Z.Next(x) == n
    requires (took == x && Z.Used(n)) || (took == n && Z.Used(x))
    ensures x != n
    ensures Inv(MergeMem(RemoveMem(m, took), x, n), Fused(Z, x, n, took), RemoveAt(fl, k), hand + {took} - {n})
    ensures Keeps(Z, m, Fused(Z, x, n, took), MergeMem(RemoveMem(m, took), x, n))
  {
    hide Inv, Keeps, RemoveMem, MergeMem, RemoveAt, Join, Zone.Room;
    InvTiled(m, Z, fl, hand);
    NextDiffers(Z, x);
    var Y := Retag(Z, took, true);
    var m1 := RemoveMem(m, took);
    TakeKeeps(m, Z, fl, hand, took, k);
    JoinKeeps(m1, Y, RemoveAt(fl, k), hand + {took}, x, n);
    var F := Fused(Z, x, n, took);
    KeepsVia(Y, m1, F, F, MergeMem(m1, x, n));
    FusedRooms(Z, x, n, took);
    KeepsTrans(Z, m, Y, m1, F, MergeMem(m1, x, n));
  }

  lemma InvTiled(m: Mem, Z: Zone, fl: seq<int>, hand: set<int>)
    requires Inv(m, Z, fl, hand)
    ensures Tiled(Z) && Merged(Z)
  {
  }

  lemma NextDiffers(Z: Zone, x: int)
    requires Tiled(Z) && x in Z.blocks
    ensures Z.Next(x) != x
  {
  }

  // ---- freeing ----

  // The block at b has been given up and is part of x, which is in hand and
  // has no free block before it.
  ghost predicate Given(Z0: Zone, m0: Mem, Z: Zone, m: Mem, b: int, x: int) {
    && Z.Used(x) && NoFreePred(Z, x) && Keeps(Z0, m0, Z, m)
    && Z.base == Z0.base && Z.end == Z0.end
    && (forall a {:trigger Z.Room(a)} :: a != x ==> Z.Room(a) == if a == b then 0 else Z0.Room(a))
    && (x == b || Z0.Room(x) == 0) && Z.Room(x) >= Z0.Room(x)
  }

  lemma GivenAlone(Z: Zone, m: Mem, b: int)
    requires Z.Used(b) && NoFreePred(Z, b)
    ensures Given(Z, m, Z, m, b, b)
  {
  }

  lemma InvLooser(m: Mem, Z: Zone, fl: seq<int>, hand: set<int>, x: int)
    requires Inv(m, Z, fl, hand)
    ensures Inv(m, Z, fl, hand + {x})
  {
    hide Tiled, Aligned, Merged, Nexts, Sizes, Prevs, HeadCells, Threaded, Listed;
  }

  lemma GivenToPrev(m: Mem, Z: Zone, fl: seq<int>, p: int, b: int, k: nat)
    requires Inv(m, Z, fl, {}) && Z.Used(b) && Z.Free(p) && Z.Next(p) == b && k < |fl| && fl[k] == p + HEADER
    ensures p != b
    ensures Inv(MergeMem(RemoveMem(m, p), p, b), Fused(Z, p, b, p), RemoveAt(fl, k), {p})
    ensures Given(Z, m, Fused(Z, p, b, p), MergeMem(RemoveMem(m, p), p, b), b, p)
  {
    hide Inv, Keeps, RemoveMem, MergeMem, RemoveAt, Tiled, Merged, NoFreePred, Fused, Zone.Room;
    InvTiled(m, Z, fl, {});
    FuseKeeps(m, Z, fl, {}, p, b, p, k);
    assert {} + {p} - {b} == {p};
    FusedShape(Z, p, b, p);
    FusedRooms(Z, p, b, p);
    FusedEnds(Z, p, b, p);
    PredOfFree(Z, p);
  }

  lemma FusedEnds(Z: Zone, x: int, n: int, took: int)
    requires x in Z.blocks && n in Z.blocks && x != n && took in Z.blocks
    ensures Fused(Z, x, n, took).base == Z.base && Fused(Z, x, n, took).end == Z.end
  {
  }

  lemma PredOfFree(Z: Zone, p: int)
    requires Merged(Z) && Z.Free(p)
    ensures NoFreePred(Z, p) && Z.Room(p) == 0 && !Z.Free(Z.Next(p))
  {
  }

  lemma GivenWithNext(Z0: Zone, m0: Mem, m: Mem, Z: Zone, fl: seq<int>, b: int, x: int, n: int, k: nat)
    requires Inv(m, Z, fl, {x}) && Given(Z0, m0, Z, m, b, x)
    requires Z.Free(n) && x in Z.blocks && Z.Next(x) == n && k < |fl| && fl[k] == n + HEADER
    ensures x != n
    ensures Inv(MergeMem(RemoveMem(m, n), x, n), Fused(Z, x, n, n), RemoveAt(fl, k), {x})
    ensures Given(Z0, m0, Fused(Z, x, n, n), MergeMem(RemoveMem(m, n), x, n), b, x)
    ensures !Fused(Z, x, n, n).Free(Fused(Z, x, n, n).Next(x))
  {
    hide Inv, Keeps, RemoveMem, MergeMem, RemoveAt, Tiled, Merged, NoFreePred, Fused, Zone.Room;
    InvTiled(m, Z, fl, {x});
    NextDiffers(Z, x);
    FuseKeeps(m, Z, fl, {x}, x, n, n, k);
    assert {x} + {n} - {n} == {x};
    FusedShape(Z, x, n, n);
    FusedRooms(Z, x, n, n);
    FusedEnds(Z, x, n, n);
    PredOfFree(Z, n);
    RoomAtLeast(Z, x, n);
    KeepsTrans(Z0, m0, Z, m, Fused(Z, x, n, n), MergeMem(RemoveMem(m, n), x, n));
  }

  lemma RoomAtLeast(Z: Zone, x: int, n: int)
    requires Tiled(Z) && Z.Used(x) && n in Z.blocks && x != n
    ensures Z.blocks[x].size + Z.blocks[n].size >= Z.Room(x) && Z.Room(x) > 0
  {
  }

  // insert_free of what has become of block b.
  lemma GivenReleased(Z0: Zone, m0: Mem, m: Mem, Z: Zone, fl: seq<int>, b: int, x: int)
    requires Inv(m, Z, fl, {x}) && Given(Z0, m0, Z, m, b, x) && x in Z.blocks && !Z.Free(Z.Next(x))
    ensures Inv(InsertMem(m, Z.Anchor(), x), Retag(Z, x, false), InsertAt(fl, 0, x + HEADER), {})
    ensures Keeps(Z0, m0, Retag(Z, x, false), InsertMem(m, Z.Anchor(), x))
    ensures Rooms(Z0, Retag(Z, x, false), b, 0)
  {
    hide Inv, Keeps, InsertMem, InsertAt, NoFreePred, NoFreeNeighbour, Zone.Room;
    BothSides(Z, x);
    ReleaseKeeps(m, Z, fl, {x}, x);
    assert {x} - {x} == {};
    var Z' := Retag(Z, x, false);
    RetagRooms(Z, x);
    KeepsVia(Z, m, Z', Z', InsertMem(m, Z.Anchor(), x));
    KeepsTrans(Z0, m0, Z, m, Z', InsertMem(m, Z.Anchor(), x));
  }

  lemma BothSides(Z: Zone, x: int)
    requires x in Z.blocks && NoFreePred(Z, x) && !Z.Free(Z.Next(x))
    ensures NoFreeNeighbour(Z, x)
  {
  }

  lemma RetagRooms(Z: Zone, x: int)
    requires x in Z.blocks
    ensures forall a :: Retag(Z, x, false).Room(a) == if a == x then 0 else Z.Room(a)
  {
  }

  // ---- realloc ----

  // realloc's shortcut: when the remainder behind x is cut off right away, the
  // size of x and the prev pointer behind the joined block need not be written.
  function ShortcutMem(m: Mem, x: int, n: int, s: int, rest: int): Mem {
    SplitMem(Set(m, x, B_NEXT, Get(m, n, B_NEXT)), x, s, rest)
  }

  lemma Shortcut(m: Mem, Z: Zone, x: int, n: int, s: int, rest: int)
    requires Tiled(Z) && Nexts(m, Z) && Sizes(m, Z) && x in Z.blocks && n in Z.blocks && Z.Next(x) == n
    requires MINFRAGMENT <= s <= Z.blocks[x].size - MINFRAGMENT
    ensures ShortcutMem(m, x, n, s, rest) == SplitMem(MergeMem(m, x, n), x, s, rest)
  {
    hide MergeMem, Tiled, Sizes, Set, SplitMem;
    MergeWrites(m, Z, x, n);
    assert Get(m, n, B_NEXT) == Z.Succ(n);
    SuccBeyond(Z, x, n, s);
    ShortcutCells(m, x, Z.Succ(n), s, rest, Z.blocks[x].size + Z.blocks[n].size);
  }

  lemma SuccBeyond(Z: Zone, x: int, n: int, s: int)
    requires Tiled(Z) && x in Z.blocks && n in Z.blocks && Z.Next(x) == n && s <= Z.blocks[x].size - MINFRAGMENT
    ensures Z.Succ(n) >= x + s + MINFRAGMENT || Z.Succ(n) + MINFRAGMENT <= x
  {
  }

  lemma ShortcutCells(m: Mem, x: int, q: int, s: int, rest: int, sum: int)
    requires s >= MINFRAGMENT && (q >= x + s + MINFRAGMENT || q + MINFRAGMENT <= x)
    ensures SplitMem(Set(m, x, B_NEXT, q), x, s, rest)
         == SplitMem(Set(Set(Set(m, x, B_SIZE, sum), x, B_NEXT, q), q, B_PREV, x), x, s, rest)
  {
    var f := x + s;
    var A := SplitMem(Set(m, x, B_NEXT, q), x, s, rest);
    var B := SplitMem(Set(Set(Set(m, x, B_SIZE, sum), x, B_NEXT, q), q, B_PREV, x), x, s, rest);
    assert A == m[x + B_NEXT := f][f + B_SIZE := rest][f + B_PREV := x][f + B_NEXT := q][q + B_PREV := f]
                 [x + B_SIZE := s];
    assert B == m[x + B_NEXT := f][f + B_SIZE := rest][f + B_PREV := x][f + B_NEXT := q][q + B_PREV := f]
                 [x + B_SIZE := s];
  }

  // ---- serving a request from a block in hand ----

  lemma ServeKeeps(m: Mem, Z: Zone, fl: seq<int>, x: int, s: int)
    requires Inv(m, Z, fl, {x}) && Z.Used(x) && !Z.Free(Z.Next(x))
    requires MINFRAGMENT <= s <= Z.blocks[x].size && s % 4 == 0
    ensures Inv(Set(CarvedMem(m, Z, x, s), x, B_TAG, TAG_USED), Carved(Z, x, s), CarvedList(Z, fl, x, s), {})
    ensures Keeps(Z, m, Carved(Z, x, s), Set(CarvedMem(m, Z, x, s), x, B_TAG, TAG_USED))
    ensures Rooms(Z, Carved(Z, x, s), x, if Z.blocks[x].size - s >= MINFRAGMENT then s else Z.blocks[x].size)
  {
    hide Inv, Keeps, CarvedMem, Carved, CarvedList, Rooms, Set;
    CarveKeeps(m, Z, fl, {x}, x, s);
    var m1 := CarvedMem(m, Z, x, s);
    var Z' := Carved(Z, x, s);
    CarvedUsed(Z, x, s);
    TagKeeps(m1, Z', CarvedList(Z, fl, x, s), {x}, x);
    assert {x} - {x} == {};
    CarvedRoom(Z, x, s);
    KeepsTrans(Z, m, Z', m1, Z', Set(m1, x, B_TAG, TAG_USED));
  }

  lemma CarvedUsed(Z: Zone, x: int, s: int)
    requires Z.Used(x) && MINFRAGMENT <= s
    ensures Carved(Z, x, s).Used(x) && Carved(Z, x, s).base == Z.base && Carved(Z, x, s).end == Z.end
  {
  }

  lemma CarvedRoom(Z: Zone, x: int, s: int)
    requires x in Z.blocks
    ensures forall a :: Carved(Z, x, s).Room(a) >= Z.Room(a) || Carved(Z, x, s).Room(a) >= Carved(Z, x, s).Room(a)
  {
  }

  // A request so large that its padding wraps gets a block that is too small.
  lemma WrapTooSmall(m: Mem, Z: Zone, fl: seq<int>, hand: set<int>, x: int, s: int, rest: int)
    requires Inv(m, Z, fl, hand) && Z.Used(x) && 0 <= s < MINFRAGMENT
    ensures Get(InsertMem(SplitMem(m, x, s, rest), Z.Anchor(), x + s), x, B_SIZE) == s
  {
    hide Inv, Linked;
    InvParts(m, Z, fl, hand);
    FirstNode(m, Z, fl);
    NextGrows(Z, x);
    var m1 := SplitMem(m, x, s, rest);
    assert Get(m, x, B_NEXT) == Z.Succ(x);
    var next := Get(m, Z.Anchor(), F_NEXT);
    if fl != [] {
      assert fl[0] in fl && Z.Free(next - HEADER);
      BlocksApart(Z, next - HEADER, x);
    }
    WrapPieces(m, x, s, rest, Z.Succ(x), Z.Anchor(), next);
  }

  // It costs no block in use a word: everything is written into x, into the
  // header behind it, or into a node of the free list.
  lemma WrapKeeps(m: Mem, Z: Zone, fl: seq<int>, hand: set<int>, x: int, s: int)
    requires Inv(m, Z, fl, hand) && Z.Used(x) && 0 <= s < MINFRAGMENT <= Z.blocks[x].size - s
    ensures var m' := InsertMem(SplitMem(m, x, s, Z.blocks[x].size - s), Z.Anchor(), x + s);
      forall a, c {:trigger InPayload(Z, a, c)} :: a != x && InPayload(Z, a, c) ==> Get(m', c, 0) == Get(m, c, 0)
  {
    hide Inv, InsertMem, SplitMem, Tiled, Linked;
    InvParts(m, Z, fl, hand);
    FirstNode(m, Z, fl);
    var rest, q, anchor := Z.blocks[x].size - s, Z.Succ(x), Z.Anchor();
    var m1, n := SplitMem(m, x, s, rest), Get(m, anchor, F_NEXT);
    assert Get(m, x, B_NEXT) == q;
    SuccIs(Z, x);
    forall a, c | a != x && InPayload(Z, a, c)
      ensures Get(InsertMem(m1, anchor, x + s), c, 0) == Get(m, c, 0)
    {
      SuccIs(Z, a);
      Besides(Z, a, x, c);
      if q in Z.blocks && q != a { Besides(Z, a, q, c); }
      if fl != [] {
        assert fl[0] in fl && Z.Free(n - HEADER);
        Besides(Z, a, n - HEADER, c);
      }
      SplitOutside(m, x, s, rest, q, c);
      SplitOutside(m, x, s, rest, q, anchor + F_NEXT);
      InsertOutside(m1, anchor, x + s, n, c);
    }
  }

  lemma SuccIs(Z: Zone, x: int)
    requires Tiled(Z) && x in Z.blocks
    ensures Z.Succ(x) == Z.Head() || Z.Succ(x) in Z.blocks
    ensures Z.blocks[x].size >= MINFRAGMENT && x >= Z.Head() + ZONE_HEADER
  {
  }

  // A word of one block is not one of another.
  lemma Besides(Z: Zone, a: int, b: int, c: int)
    requires Tiled(Z) && a in Z.blocks && b in Z.blocks && a != b && a <= c < Z.Next(a)
    ensures !(b <= c < Z.Next(b)) && Z.blocks[b].size >= MINFRAGMENT
  {
  }

  lemma SplitOutside(m: Mem, x: int, s: int, rest: int, q: int, c: int)
    requires Get(m, x, B_NEXT) == q && s >= 0 && rest >= MINFRAGMENT
    requires !(x <= c < x + s + rest) && c != q + B_PREV
    ensures Get(SplitMem(m, x, s, rest), c, 0) == Get(m, c, 0)
  {
  }

  lemma InsertOutside(m: Mem, anchor: int, y: int, n: int, c: int)
    requires Get(m, anchor, F_NEXT) == n && !(y <= c < y + MINFRAGMENT) && c != anchor + F_NEXT && c != n + F_PREV
    ensures Get(InsertMem(m, anchor, y), c, 0) == Get(m, c, 0)
  {
  }

  // What cutting off a piece and freeing the rest writes last into the size.
  lemma WrapPieces(m: Mem, x: int, s: int, rest: int, q: int, anchor: int, next: int)
    requires Get(m, x, B_NEXT) == q && 0 <= s < MINFRAGMENT && anchor + 8 < x && next == Get(m, anchor, F_NEXT)
    requires q + HEADER == anchor || q > x
    requires next == anchor || next > x + HEADER || next + 8 <= x
    ensures Get(InsertMem(SplitMem(m, x, s, rest), anchor, x + s), x, B_SIZE) == s
  {
    hide SplitMem, InsertMem;
    WrapSplit(m, x, s, rest, q, anchor);
    WrapInsert(SplitMem(m, x, s, rest), anchor, x, s, next);
  }

  // The same where realloc has taken the free block n behind x off its list.
  lemma WrapShortcut(m: Mem, Z: Zone, fl: seq<int>, x: int, n: int, s: int, rest: int, k: nat)
    requires Inv(m, Z, fl, {}) && Z.Used(x) && Z.Free(n) && Z.Next(x) == n && k < |fl| && fl[k] == n + HEADER
    requires 0 <= s < MINFRAGMENT
    ensures var m1 := RemoveMem(m, n); var m2 := Set(m1, x, B_NEXT, Get(m1, n, B_NEXT));
            Get(InsertMem(SplitMem(m2, x, s, rest), Z.Anchor(), x + s), x, B_SIZE) == s
  {
    hide Inv, Linked, RemoveMem, SplitMem, InsertMem, RemoveAt, Merged, Aligned, Sizes, Labels, Prevs, Zone.Room,
      Keeps;
    TakeKeeps(m, Z, fl, {}, n, k);
    var m1, Z1, fl1 := RemoveMem(m, n), Retag(Z, n, true), RemoveAt(fl, k);
    InvParts(m1, Z1, fl1, {} + {n});
    FirstNode(m1, Z1, fl1);
    InvTiled(m, Z, fl, {});
    NextGrows(Z, x);
    NextGrows(Z1, n);
    assert Get(m1, n, B_NEXT) == Z1.Succ(n);
    var next := Get(m1, Z.Anchor(), F_NEXT);
    if fl1 != [] {
      assert fl1[0] in fl1 && Z1.Free(next - HEADER);
      BlocksApart(Z1, next - HEADER, x);
    }
    SetBesides(m1, x, B_NEXT, Z1.Succ(n), Z.Anchor(), F_NEXT);
    WrapPieces(Set(m1, x, B_NEXT, Z1.Succ(n)), x, s, rest, Z1.Succ(n), Z.Anchor(), next);
  }

  lemma SetBesides(m: Mem, x: int, o: int, v: int, y: int, q: int)
    ensures Get(Set(m, x, o, v), x, o) == v
    ensures x + o != y + q ==> Get(Set(m, x, o, v), y, q) == Get(m, y, q)
  {
  }

  // A fragment below the smallest block: its size says so, or its header is
  // such that whatever is cut off it will be too small.
  predicate Tiny(m: Mem, head: int, x: int) {
    var q, n, anchor := Get(m, x, B_NEXT), Get(m, head + Z_FREELIST, F_NEXT), head + Z_FREELIST;
    || 0 <= Get(m, x, B_SIZE) < MINFRAGMENT
    || (anchor + 8 < x && (q == head || q > x) && n + 8 <= x)
  }

  // Splitting off a fragment that is not a whole block.
  lemma TinyRest(m: Mem, Z: Zone, fl: seq<int>, x: int, s: int, rest: int, k: nat)
    requires Inv(m, Z, fl, {}) && Z.Free(x) && k < |fl| && fl[k] == x + HEADER
    requires MINFRAGMENT <= s && 0 <= rest < MINFRAGMENT && s + rest == Z.blocks[x].size
    ensures Tiny(InsertMem(SplitMem(RemoveMem(m, x), x, s, rest), Z.Anchor(), x), Z.Head(), x + s)
  {
    hide Inv, Linked, RemoveMem, RemoveAt, SplitMem, InsertMem;
    TakeKeeps(m, Z, fl, {}, x, k);
    var m1, Z1, fl1 := RemoveMem(m, x), Retag(Z, x, true), RemoveAt(fl, k);
    InvParts(m1, Z1, fl1, {} + {x});
    FirstNode(m1, Z1, fl1);
    NextGrows(Z1, x);
    assert Get(m1, x, B_NEXT) == Z1.Succ(x) && Z1.Next(x) == x + s + rest;
    var next := Get(m1, Z.Anchor(), F_NEXT);
    if fl1 != [] {
      assert fl1[0] in fl1 && Z1.Free(next - HEADER);
      BlocksApart(Z1, next - HEADER, x);
      assert next - HEADER in Z1.blocks && (next - HEADER < x || next - HEADER >= Z1.Next(x));
    }
    TinyWords(m1, Z.Head(), x, s, rest, Z1.Succ(x), next);
  }

  lemma TinyWords(m: Mem, head: int, x: int, s: int, rest: int, q: int, next: int)
    requires Get(m, x, B_NEXT) == q && Get(m, head + Z_FREELIST, F_NEXT) == next && MINFRAGMENT <= s
      && 0 <= rest < MINFRAGMENT
    requires head + ZONE_HEADER <= x && (q == head || q == x + s + rest)
    requires next == head + Z_FREELIST || next - HEADER >= x + s + rest || next <= x
    ensures Tiny(InsertMem(SplitMem(m, x, s, rest), head + Z_FREELIST, x), head, x + s)
  {
    var f := x + s;
    var m1 := SplitMem(m, x, s, rest);
    var m2 := InsertMem(m1, head + Z_FREELIST, x);
    assert Get(m1, head + Z_FREELIST, F_NEXT) == next;
    assert Get(m2, head + Z_FREELIST, F_NEXT) == x + HEADER;
    assert Get(m1, f, B_NEXT) == q && Get(m2, f, B_NEXT) == q;
    if q != f + 4 {
      assert Get(m1, f, B_SIZE) == rest && Get(m2, f, B_SIZE) == rest;
    }
  }

  // What is served from such a fragment is too small as well.
  lemma TinyServed(m: Mem, head: int, x: int, s: int, rest: int)
    requires Tiny(m, head, x) && 0 <= s < MINFRAGMENT && rest == Get(m, x, B_SIZE) - s
    ensures rest < MINFRAGMENT ==> Get(m, x, B_SIZE) < 2 * MINFRAGMENT
    ensures rest >= MINFRAGMENT ==> Get(InsertMem(SplitMem(m, x, s, rest), head + Z_FREELIST, x + s), x, B_SIZE) == s
  {
    hide SplitMem, InsertMem;
    if rest >= MINFRAGMENT {
      WrapPieces(m, x, s, rest, Get(m, x, B_NEXT), head + Z_FREELIST, Get(m, head + Z_FREELIST, F_NEXT));
    }
  }

  lemma WrapSplit(m: Mem, x: int, s: int, rest: int, q: int, anchor: int)
    requires Get(m, x, B_NEXT) == q && 0 <= s < MINFRAGMENT && anchor + 8 < x
    requires q + HEADER == anchor || q > x
    ensures Get(SplitMem(m, x, s, rest), x, B_SIZE) == s
    ensures Get(SplitMem(m, x, s, rest), anchor, F_NEXT) == Get(m, anchor, F_NEXT)
  {
  }

  lemma WrapInsert(m: Mem, anchor: int, x: int, s: int, next: int)
    requires anchor + 8 < x && 0 <= s && next == Get(m, anchor, F_NEXT)
    requires next == anchor || next > x + HEADER || next + 8 <= x
    ensures Get(InsertMem(m, anchor, x + s), x, B_SIZE) == Get(m, x, B_SIZE)
  {
  }

  // ---- memalign: leaving a free block in front ----

  function Fronted(Z: Zone, x: int, s: int): Zone
    requires x in Z.blocks
  {
    Retag(Cut(Retag(Z, x, true), x, s), x, false)
  }

  lemma FrontShape(Z: Zone, x: int, s: int)
    requires Tiled(Z) && Merged(Z) && Z.Free(x)
    requires s % 4 == 0 && MINFRAGMENT <= s <= Z.blocks[x].size - MINFRAGMENT
    ensures var Y := Retag(Z, x, true); var W := Cut(Y, x, s);
            CanCut(Y, x, s) && W.Used(x) && NoFreeNeighbour(W, x) && W.Anchor() == Z.Anchor()
  {
    var Y := Retag(Z, x, true);
    var W := Cut(Y, x, s);
    CutFresh(Z, x, s);
    NextGrows(Z, x);
    assert W.Next(x) == x + s;
    PredOfFree(Z, x);
    forall a | a in W.blocks && W.Next(a) == x
      ensures !W.Free(a)
    {
      if a != x + s && a != x { assert a in Z.blocks && W.Next(a) == Z.Next(a); }
    }
  }

  lemma FrontRest(Z: Zone, x: int, s: int)
    requires Tiled(Z) && Merged(Z) && Z.Free(x)
    requires s % 4 == 0 && MINFRAGMENT <= s <= Z.blocks[x].size - MINFRAGMENT
    ensures var F := Fronted(Z, x, s);
            F.Used(x + s) && !F.Free(F.Next(x + s)) && F.blocks[x + s].size == Z.blocks[x].size - s
            && F.base == Z.base && F.end == Z.end
            && (forall a {:trigger F.Room(a)} :: a != x + s ==> F.Room(a) == Z.Room(a)) && Z.Room(x + s) == 0
  {
    CutFresh(Z, x, s);
    NextGrows(Z, x);
    hide Tiled;
    assert Z.Next(x) == Fronted(Z, x, s).Next(x + s);
  }

  lemma FrontRooms(Z: Zone, x: int, s: int)
    requires x in Z.blocks && 0 < s < Z.blocks[x].size
    ensures var Y := Retag(Z, x, true); var W := Cut(Y, x, s);
            (forall a :: Y.Room(a) >= Z.Room(a)) && (forall a :: W.Room(a) >= Fronted(Z, x, s).Room(a))
  {
    var W := Cut(Retag(Z, x, true), x, s);
    RetagRooms(W, x);
    assert W.Room(x) == s;
  }

  lemma FrontKeeps(m: Mem, Z: Zone, fl: seq<int>, x: int, s: int, k: nat)
    requires Inv(m, Z, fl, {}) && Z.Free(x) && k < |fl| && fl[k] == x + HEADER
    requires s % 4 == 0 && MINFRAGMENT <= s <= Z.blocks[x].size - MINFRAGMENT
    ensures var m2 := SplitMem(RemoveMem(m, x), x, s, Z.blocks[x].size - s);
            Inv(InsertMem(m2, Z.Anchor(), x), Fronted(Z, x, s), InsertAt(RemoveAt(fl, k), 0, x + HEADER), {x + s})
            && Keeps(Z, m, Fronted(Z, x, s), InsertMem(m2, Z.Anchor(), x))
  {
    hide Inv, Keeps, RemoveMem, SplitMem, InsertMem, RemoveAt, InsertAt, Cut, CanCut, NoFreeNeighbour, Zone.Room;
    InvTiled(m, Z, fl, {});
    FrontShape(Z, x, s);
    FrontRest(Z, x, s);
    FrontRooms(Z, x, s);
    var Y := Retag(Z, x, true);
    var W := Cut(Y, x, s);
    var m1 := RemoveMem(m, x);
    var m2 := SplitMem(m1, x, s, Z.blocks[x].size - s);
    TakeKeeps(m, Z, fl, {}, x, k);
    CutKeeps(m1, Y, RemoveAt(fl, k), {} + {x}, x, s);
    ReleaseKeeps(m2, W, RemoveAt(fl, k), {} + {x} + {x + s}, x);
    assert {} + {x} + {x + s} - {x} == {x + s};
    var F := Fronted(Z, x, s);
    KeepsBoth(Y, m1, W, m2, F, InsertMem(m2, Z.Anchor(), x));
    KeepsTrans(Z, m, Y, m1, F, InsertMem(m2, Z.Anchor(), x));
  }
}
