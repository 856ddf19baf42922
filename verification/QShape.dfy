// The heap of qmalloc: one zone cut into blocks that are threaded, in address
// order, on a circular block list, and a LIFO list of the free ones.

module QShape {
  import opened Memory
  import opened LinkedLists

  const WORD: int := 0x1_0000_0000

  // struct memblock_s
  const B_NEXT: int := 0
  const B_PREV: int := 4
  const B_SIZE: int := 8
  const B_TAG: int := 12
  const HEADER: int := 16
  // struct freeblock_s, right behind the header
  const F_PREV: int := 0
  const F_NEXT: int := 4
  // struct memzone_s: the block list header, the free list header, the size
  const Z_FREELIST: int := 16
  const Z_SIZE: int := 24
  const ZONE_HEADER: int := 28

  const TAG_FREE: int := 0
  const TAG_USED: int := 1
  const MINFRAGMENT: int := 24

  // PAD(size + sizeof(memblock_t), sizeof(void*)) on 32-bit words, for a
  // request raised to the size of a freeblock.
  function PadRequest(req: int): int {
    var s := if req < 8 then 8 else req;
    var t := (s + HEADER + 3) % WORD;
    t - t % 4
  }

  const MAX_REQUEST: int := WORD - HEADER - 4

  // The padded block has room for its header and the request exactly when the
  // padding does not wrap around; otherwise it is smaller than a header and
  // the smallest free block.
  lemma PadRequestFits(req: int)
    requires 0 <= req < WORD
    ensures PadRequest(req) >= req + HEADER <==> req <= MAX_REQUEST
    ensures req <= MAX_REQUEST ==> MINFRAGMENT <= PadRequest(req) < WORD && PadRequest(req) % 4 == 0
    ensures req <= MAX_REQUEST && req >= 8 ==> PadRequest(req) <= req + HEADER + 3
    ensures req < 8 ==> PadRequest(req) == MINFRAGMENT
    ensures req > MAX_REQUEST ==> 0 <= PadRequest(req) < MINFRAGMENT
    ensures PadRequest(req) % 4 == 0
  {
  }

  datatype Block = Block(size: int, used: bool)

  datatype Zone = Zone(base: int, blocks: map<int, Block>, end: int) {
    function Next(a: int): int
      requires a in blocks
    {
      a + blocks[a].size
    }

    // The zone header doubles as the header of the block list.
    function Head(): int { base - ZONE_HEADER }

    // The header of the free list.
    function Anchor(): int { Head() + Z_FREELIST }

    function Succ(a: int): int
      requires a in blocks
    {
      if Next(a) == end then Head() else Next(a)
    }

    predicate Free(a: int) { a in blocks && !blocks[a].used }

    predicate Used(a: int) { a in blocks && blocks[a].used }

    function SizeOf(a: int): int { if a in blocks then blocks[a].size else 0 }

    // The size of a block in use, header included; 0 for any other address.
    function Room(a: int): int { if Used(a) then blocks[a].size else 0 }
  }

  // Blocks tile the zone and are large enough to be on the free list.
  ghost predicate Tiled(Z: Zone) {
    && 0 < Z.Head() && Z.base in Z.blocks && Z.base < Z.end
    && (forall a :: a in Z.blocks ==>
          Z.blocks[a].size >= MINFRAGMENT && Z.base <= a && a + Z.blocks[a].size <= Z.end)
    && (forall a {:trigger Z.Next(a)} :: a in Z.blocks ==> Z.Next(a) == Z.end || Z.Next(a) in Z.blocks)
    && (forall a, b :: a in Z.blocks && b in Z.blocks && a < b ==> a + Z.blocks[a].size <= b)
  }

  ghost predicate Aligned(Z: Zone) {
    forall a :: a in Z.blocks ==> a % 4 == 0
  }

  // No two free neighbours.
  ghost predicate Merged(Z: Zone) {
    forall a {:trigger Z.Next(a)} :: Z.Free(a) ==> !Z.Free(Z.Next(a))
  }

  // What memory holds of each block, and of the zone header.
  ghost predicate Nexts(m: Mem, Z: Zone) {
    forall a {:trigger Get(m, a, B_NEXT)} :: a in Z.blocks ==> Get(m, a, B_NEXT) == Z.Succ(a)
  }

  ghost predicate Sizes(m: Mem, Z: Zone) {
    forall a {:trigger Get(m, a, B_SIZE)} :: a in Z.blocks ==> Get(m, a, B_SIZE) == Z.blocks[a].size
  }

  // Every tag tells the truth, but for blocks an operation has in hand.
  ghost predicate Labels(m: Mem, Z: Zone, hand: set<int>) {
    forall a {:trigger Get(m, a, B_TAG)} :: a in Z.blocks && a !in hand ==>
      Get(m, a, B_TAG) == if Z.blocks[a].used then TAG_USED else TAG_FREE
  }

  ghost predicate Prevs(m: Mem, Z: Zone) {
    && Get(m, Z.base, B_PREV) == Z.Head()
    && (forall a {:trigger Get(m, a, B_PREV)} :: a in Z.blocks && a != Z.base ==>
          var p := Get(m, a, B_PREV); p in Z.blocks && Z.Next(p) == a)
  }

  ghost predicate HeadCells(m: Mem, Z: Zone) {
    && Get(m, Z.Head(), B_NEXT) == Z.base
    && Get(m, Z.Head(), B_PREV) in Z.blocks && Z.Next(Get(m, Z.Head(), B_PREV)) == Z.end
    && Get(m, Z.Head(), B_SIZE) == 0 && Get(m, Z.Head(), B_TAG) == TAG_USED
    && Get(m, Z.Head(), Z_SIZE) == Z.end - Z.base
  }

  ghost predicate Threaded(m: Mem, Z: Zone, fl: seq<int>) {
    Linked(m, F_NEXT, F_PREV, Z.Anchor(), fl)
  }

  // The free list holds exactly the free blocks, by the address behind their
  // header.
  ghost predicate Listed(Z: Zone, fl: seq<int>) {
    && NoDup(fl)
    && (forall f :: f in fl ==> Z.Free(f - HEADER))
    && (forall a {:trigger Z.Free(a)} :: Z.Free(a) ==> a + HEADER in fl)
  }

  // The heap is well formed; the blocks of `hand` are being worked on: they
  // count as used, whatever their tag says.
  ghost predicate Inv(m: Mem, Z: Zone, fl: seq<int>, hand: set<int>) {
    && Tiled(Z) && Aligned(Z) && Merged(Z)
    && Nexts(m, Z) && Sizes(m, Z) && Labels(m, Z, hand) && Prevs(m, Z) && HeadCells(m, Z)
    && Threaded(m, Z, fl) && Listed(Z, fl)
  }

  lemma InvParts(m: Mem, Z: Zone, fl: seq<int>, hand: set<int>)
    requires Inv(m, Z, fl, hand)
    ensures Tiled(Z) && Aligned(Z) && Merged(Z)
    ensures Nexts(m, Z) && Sizes(m, Z) && Labels(m, Z, hand) && Prevs(m, Z) && HeadCells(m, Z)
    ensures Threaded(m, Z, fl) && Listed(Z, fl)
  {
    hide Tiled, Aligned, Merged, Nexts, Sizes, Labels, Prevs, HeadCells, Threaded, Listed;
  }

  lemma InvWhole(m: Mem, Z: Zone, fl: seq<int>, hand: set<int>)
    requires Tiled(Z) && Aligned(Z) && Merged(Z)
    requires Nexts(m, Z) && Sizes(m, Z) && Labels(m, Z, hand) && Prevs(m, Z) && HeadCells(m, Z)
    requires Threaded(m, Z, fl) && Listed(Z, fl)
    ensures Inv(m, Z, fl, hand)
  {
    hide Tiled, Aligned, Merged, Nexts, Sizes, Labels, Prevs, HeadCells, Threaded, Listed;
  }

  // A word of the payload of a block in use.
  ghost predicate InPayload(Z: Zone, a: int, c: int) {
    a + HEADER <= c < a + Z.Room(a)
  }

  // The payload words a block has both before and after are unchanged.
  ghost predicate Keeps(Z: Zone, m: Mem, Z': Zone, m': Mem) {
    forall a, c {:trigger InPayload(Z', a, c)} :: InPayload(Z, a, c) && InPayload(Z', a, c) ==>
      Get(m', c, 0) == Get(m, c, 0)
  }

  lemma KeepsTrans(Z: Zone, m: Mem, Z1: Zone, m1: Mem, Z2: Zone, m2: Mem)
    requires Keeps(Z, m, Z1, m1) && Keeps(Z1, m1, Z2, m2)
    requires forall a :: Z1.Room(a) >= Z.Room(a) || Z1.Room(a) >= Z2.Room(a)
    ensures Keeps(Z, m, Z2, m2)
  {
    hide Zone.Room;
    forall a, c | InPayload(Z, a, c) && InPayload(Z2, a, c)
      ensures Get(m2, c, 0) == Get(m, c, 0)
    {
      assert Z1.Room(a) >= Z.Room(a) || Z1.Room(a) >= Z2.Room(a);
      assert InPayload(Z1, a, c);
    }
  }

  // ---- the block list as one walks it ----

  function Walk(Z: Zone, a: int): seq<int>
    decreases Z.end - a
  {
    if a in Z.blocks && a < Z.Next(a) <= Z.end then [a] + Walk(Z, Z.Next(a)) else []
  }

  function SumSizes(Z: Zone, s: seq<int>): int {
    if s == [] then 0 else (if s[0] in Z.blocks then Z.blocks[s[0]].size else 0) + SumSizes(Z, s[1..])
  }

  lemma Ascending(a: int, r: seq<int>)
    requires forall b :: b in r ==> a < b
    requires forall i, j :: 0 <= i < j < |r| ==> r[i] < r[j]
    ensures forall i, j :: 0 <= i < j < |[a] + r| ==> ([a] + r)[i] < ([a] + r)[j]
  {
    forall i, j | 0 <= i < j < |[a] + r|
      ensures ([a] + r)[i] < ([a] + r)[j]
    {
      assert ([a] + r)[j] in r && ([a] + r)[j] == r[j - 1];
      if i > 0 { assert ([a] + r)[i] == r[i - 1]; }
    }
  }

  // From any block on, walking meets every later block once, in address order,
  // and the sizes add up to what is left of the zone.
  lemma {:induction false} WalkMeetsAll(Z: Zone, a: int)
    requires Tiled(Z) && (a in Z.blocks || a == Z.end)
    ensures forall b :: b in Walk(Z, a) <==> b in Z.blocks && b >= a
    ensures forall i, j :: 0 <= i < j < |Walk(Z, a)| ==> Walk(Z, a)[i] < Walk(Z, a)[j]
    ensures SumSizes(Z, Walk(Z, a)) == Z.end - a
    decreases Z.end - a
  {
    if a in Z.blocks {
      var n := Z.Next(a);
      WalkMeetsAll(Z, n);
      var r := Walk(Z, n);
      assert Walk(Z, a) == [a] + r && ([a] + r)[1..] == r;
      assert forall b :: b in [a] + r <==> b == a || b in r;
      Ascending(a, r);
    } else {
      assert forall b :: b in Z.blocks ==> b < Z.end;
    }
  }

  // The next pointers in memory follow the walk and close the circle, and the
  // prev pointers follow it backwards.
  lemma {:induction false} WalkNeighbours(m: Mem, Z: Zone, a: int, i: int)
    requires Tiled(Z) && Nexts(m, Z) && Prevs(m, Z) && a in Z.blocks
    requires 0 <= i < |Walk(Z, a)|
    ensures Get(m, Walk(Z, a)[i], B_NEXT) == if i + 1 < |Walk(Z, a)| then Walk(Z, a)[i + 1] else Z.Head()
    ensures i > 0 ==> Get(m, Walk(Z, a)[i], B_PREV) == Walk(Z, a)[i - 1]
    decreases Z.end - a
  {
    var n := Z.Next(a);
    var w := Walk(Z, a);
    assert w == [a] + Walk(Z, n);
    assert Get(m, a, B_NEXT) == Z.Succ(a);
    if n in Z.blocks {
      assert Walk(Z, n)[0] == n && w[1] == n;
      if i > 0 { WalkNeighbours(m, Z, n, i - 1); }
      if i == 1 {
        var p := Get(m, n, B_PREV);
        assert p in Z.blocks && Z.Next(p) == n;
        assert p == a;
      }
    }
  }

  lemma Another(s: seq<int>, v: int) returns (f: int)
    requires NoDup(s) && |s| > 1
    ensures f in s && f != v
  {
    f := if s[0] == v then s[1] else s[0];
  }

  // With nothing in use the zone is one free block again.
  lemma AllFree(m: Mem, Z: Zone, fl: seq<int>)
    requires Inv(m, Z, fl, {})
    requires forall a :: !Z.Used(a)
    ensures Z.blocks == map[Z.base := Block(Z.end - Z.base, false)]
    ensures fl == [Z.base + HEADER]
  {
    InvParts(m, Z, fl, {});
    hide Nexts, Sizes, Labels, Prevs, HeadCells, Threaded, Aligned, Inv;
    assert !Z.Used(Z.base) && !Z.Used(Z.Next(Z.base));
    assert Z.Next(Z.base) == Z.end by { assert !Z.Free(Z.Next(Z.base)); }
    assert forall a :: a in Z.blocks ==> a == Z.base;
    assert Z.Free(Z.base) && Z.base + HEADER in fl;
    assert forall f :: f in fl ==> f == Z.base + HEADER;
    if |fl| > 1 { var f := Another(fl, Z.base + HEADER); }
  }
}
