// common/qmalloc.c: the whole allocator, over a word-addressed memory.

module Qmalloc {
  import opened Memory
  import opened LinkedLists
  import opened QShape
  import opened QMoves
  import opened QSteps

  // A nonempty power of two, the alignments memalign is called with.
  predicate PowerOfTwo(n: int) {
    n == 1 || (n > 1 && n % 2 == 0 && PowerOfTwo(n / 2))
  }

  lemma PowerOfTwoBy4(n: int)
    requires PowerOfTwo(n) && n >= 4
    ensures n % 4 == 0
  {
    assert PowerOfTwo(n / 2);
  }

  // Every free block is too small for s bytes.
  ghost predicate NoneFits(Z: Zone, s: int) {
    forall a {:trigger Z.Free(a)} :: Z.Free(a) ==> Z.blocks[a].size < s
  }

  // The block at x is the first on the free list with room for s bytes.
  ghost predicate FirstFit(Z: Zone, fl: seq<int>, s: int, x: int) {
    exists k {:trigger fl[k]} ::
      && 0 <= k < |fl| && fl[k] == x + HEADER && Z.SizeOf(x) >= s
      && forall j :: 0 <= j < k ==> Z.SizeOf(fl[j] - HEADER) < s
  }

  lemma FirstIs(Z: Zone, fl: seq<int>, s: int, k: int)
    requires 0 <= k < |fl| && Z.SizeOf(fl[k] - HEADER) >= s
    requires forall j :: 0 <= j < k ==> Z.SizeOf(fl[j] - HEADER) < s
    ensures FirstFit(Z, fl, s, fl[k] - HEADER)
  {
  }

  lemma SomeFits(Z: Zone, a: int, s: int)
    requires Z.Free(a) && Z.SizeOf(a) >= s
    ensures !NoneFits(Z, s)
  {
  }

  // fb & (alignment - 1), for an alignment that is a power of two.
  function Masked(fb: int, alignment: int): int
    requires alignment > 0
  {
    fb % alignment
  }

  // What search_free_aligned adds in front of a payload that is diff bytes off.
  function SplitBase(alignment: int, diff: int): int
    requires alignment > 0
  {
    alignment - diff + (MINFRAGMENT + alignment - 1) / alignment * alignment
  }

  predicate FitsAligned(Z: Zone, a: int, alignment: int, s: int)
    requires a in Z.blocks && alignment > 0
  {
    var diff := Masked(a + HEADER, alignment);
    if diff == 0 then Z.blocks[a].size >= s
      else Z.blocks[a].size - s >= SplitBase(alignment, diff) && Z.blocks[a].size > s
  }

  // What would do: a payload at q on the alignment, with its header where the
  // block begins or at least a whole block behind that.
  ghost predicate PayloadAt(Z: Zone, a: int, alignment: int, s: int, q: int)
    requires a in Z.blocks && alignment > 0
  {
    && Masked(q, alignment) == 0
    && (q == a + HEADER || q >= a + HEADER + MINFRAGMENT)
    && q - HEADER + s <= a + Z.blocks[a].size
  }

  ghost predicate HoldsAligned(Z: Zone, a: int, alignment: int, s: int)
    requires a in Z.blocks && alignment > 0
  {
    exists q :: PayloadAt(Z, a, alignment, s, q)
  }

  // Where search_free_aligned is over-cautious: it leaves one alignment more in
  // front than it has to, and there is room without but not with that.
  predicate PassedOver(Z: Zone, a: int, alignment: int, s: int)
    requires a in Z.blocks && alignment > 0
  {
    var diff := Masked(a + HEADER, alignment);
    && diff != 0 && SplitBase(alignment, diff) - alignment >= MINFRAGMENT
    && SplitBase(alignment, diff) - alignment <= Z.blocks[a].size - s < SplitBase(alignment, diff)
  }

  // Where the header of the aligned payload goes in a block at a.
  function AlignedAt(a: int, alignment: int): int
    requires alignment > 0
  {
    var diff := Masked(a + HEADER, alignment);
    if diff == 0 then a else a + SplitBase(alignment, diff)
  }

  // The k-th block on the free list is the first one that passes the test.
  ghost predicate FirstAligned(Z: Zone, fl: seq<int>, k: int, alignment: int, s: int) {
    && 0 <= k < |fl| && alignment > 0
    && fl[k] - HEADER in Z.blocks && FitsAligned(Z, fl[k] - HEADER, alignment, s)
    && forall j :: 0 <= j < k ==> UnfitAt(Z, fl[j] - HEADER, alignment, s)
  }

  ghost predicate FirstPlace(Z: Zone, fl: seq<int>, alignment: int, s: int, x: int) {
    exists k {:trigger FirstAligned(Z, fl, k, alignment, s)} ::
      FirstAligned(Z, fl, k, alignment, s) && x == AlignedAt(fl[k] - HEADER, alignment)
  }

  ghost predicate NoneFitsAligned(Z: Zone, alignment: int, s: int)
    requires alignment > 0
  {
    forall a {:trigger Z.Free(a)} :: Z.Free(a) ==> !FitsAligned(Z, a, alignment, s)
  }

  // A block for s bytes was taken into use, as payload p, and no other block
  // in use was touched.
  ghost predicate Served(Z: Zone, m: Mem, Z': Zone, m': Mem, s: int, p: int) {
    && (forall a {:trigger Z'.Room(a)} :: a != p - HEADER ==> Z'.Room(a) == Z.Room(a))
    && Z.Room(p - HEADER) == 0 && s <= Z'.Room(p - HEADER) < s + MINFRAGMENT
    && p % 4 == 0
    && Keeps(Z, m, Z', m')
  }

  // Whether realloc can leave block b where it is.
  predicate InPlace(Z: Zone, b: int, s: int)
    requires b in Z.blocks
  {
    || Z.blocks[b].size >= s
    || (Z.Free(Z.Next(b)) && Z.blocks[b].size + Z.blocks[Z.Next(b)].size >= s)
  }

  // The first n bytes behind p, word by word, are found behind r.
  ghost predicate Copied(m: Mem, p: int, m': Mem, r: int, n: int) {
    forall i {:trigger Get(m', r, i)} :: 0 <= i < n && i % 4 == 0 ==> Get(m', r, i) == Get(m, p, i)
  }

  ghost predicate HeadersWritten(m: Mem, Z: Zone) {
    && Get(m, Z.Head(), B_NEXT) == Z.base && Get(m, Z.Head(), B_PREV) == Z.base
    && Get(m, Z.Head(), B_TAG) == TAG_USED && Get(m, Z.Head(), B_SIZE) == 0
    && Get(m, Z.base, B_NEXT) == Z.Head() && Get(m, Z.base, B_PREV) == Z.Head()
    && Get(m, Z.base, B_SIZE) == Z.end - Z.base && Get(m, Z.Head(), Z_SIZE) == Z.end - Z.base
    && Get(m, Z.Anchor(), F_NEXT) == Z.Anchor() && Get(m, Z.Anchor(), F_PREV) == Z.Anchor()
  }

  // What a client may do: ask for a block or an aligned one, release one it
  // holds, ask for another size for it, or write a word of it.
  datatype Op = Request(n: int) | Align(alignment: int, n: int) | Release(ptr: int) | Resize(ptr: int, n: int)
    | Write(ptr: int, i: int, v: int)

  predicate IsTrace(ops: seq<Op>) {
    forall op :: op in ops ==>
      && (op.Align? ==> PowerOfTwo(op.alignment))
      && (op.Request? || op.Align? || op.Resize? ==> 0 <= op.n < WORD)
  }

  // What the client holds, with what it asked for, and what it wrote last at
  // each offset of that.
  datatype Client = Client(live: map<int, int>, stored: map<(int, int), int>)

  predicate MayWrite(n: int, i: int) {
    0 <= i && i % 4 == 0 && i + 4 <= n
  }

  // The words that the payloads of `live` reach.
  function Within(stored: map<(int, int), int>, live: map<int, int>): map<(int, int), int> {
    map k | k in stored && k.0 in live && MayWrite(live[k.0], k.1) :: stored[k]
  }

  // The words at p, as those of a payload at r.
  function At(stored: map<(int, int), int>, p: int, r: int): map<(int, int), int> {
    map k | k in stored && k.0 == p :: (r, k.1) := stored[k]
  }

  // The client after it was given the answer.  What it holds of a payload it
  // has resized is the first min(old, new) bytes, wherever they are now.
  function Answered(s: Client, op: Op, answer: int): Client {
    match op
    case Request(n) => if answer == 0 then s else Held(s.stored, s.live[answer := n])
    case Align(_, n) => if answer == 0 then s else Held(s.stored, s.live[answer := n])
    case Release(p) => Held(s.stored, s.live - {p})
    case Resize(p, n) =>
      if p !in s.live then s
      else if n == 0 then Held(s.stored, s.live - {p})
      else if answer == 0 then s
      else Held(Within(s.stored, s.live - {p}) + At(s.stored, p, answer), (s.live - {p})[answer := n])
    case Write(p, i, v) =>
      if p in s.live && MayWrite(s.live[p], i) then s.(stored := s.stored[(p, i) := v]) else s
  }

  function Held(stored: map<(int, int), int>, live: map<int, int>): Client {
    Client(live, Within(stored, live))
  }

  function After(ops: seq<Op>, answers: seq<int>): Client
    requires |answers| <= |ops|
    decreases |answers|
  {
    if answers == [] then Client(map[], map[])
    else
      var n := |answers| - 1;
      Answered(After(ops, answers[..n]), ops[n], answers[n])
  }

  lemma AfterNone(ops: seq<Op>)
    ensures After(ops, []) == Client(map[], map[])
  {
  }

  lemma AfterMore(ops: seq<Op>, answers: seq<int>, p: int)
    requires |answers| < |ops|
    ensures After(ops, answers + [p]) == Answered(After(ops, answers), ops[|answers|], p)
  {
    hide Answered;
    assert (answers + [p])[..|answers|] == answers;
  }

  // No padding of the operation wraps around.
  ghost predicate Safe(Z: Zone, live: map<int, int>, op: Op) {
    match op
    case Request(n) => n <= MAX_REQUEST
    case Align(_, n) => n <= MAX_REQUEST
    case Release(_) => true
    case Resize(p, n) => p in live && n != 0 && p - HEADER in Z.blocks ==> Reallocatable(Z, p - HEADER, n)
    case Write(_, _, _) => true
  }

  class Heap {
    var mem: Mem
    const zone: int
    ghost var Z: Zone
    ghost var fl: seq<int>

    // Well formed, but for the blocks an operation has in hand.
    ghost predicate Mid(hand: set<int>)
      reads this
    {
      zone == Z.Head() && Inv(mem, Z, fl, hand)
    }

    ghost predicate Valid()
      reads this
    {
      Mid({})
    }

    // ---- the pointer operations ----

    method RemoveFree(block: int)
      modifies `mem
      ensures mem == RemoveMem(old(mem), block)
    {
      var fb := block + HEADER;
      var prev := Get(mem, fb, F_PREV);
      var next := Get(mem, fb, F_NEXT);
      mem := Set(mem, prev, F_NEXT, next);
      mem := Set(mem, next, F_PREV, prev);
    }

    method InsertFree(block: int)
      modifies `mem
      ensures mem == InsertMem(old(mem), zone + Z_FREELIST, block)
    {
      var fb := block + HEADER;
      var prev := zone + Z_FREELIST;
      var next := Get(mem, prev, F_NEXT);
      mem := Set(mem, prev, F_NEXT, fb);
      mem := Set(mem, next, F_PREV, fb);
      mem := Set(mem, fb, F_PREV, prev);
      mem := Set(mem, fb, F_NEXT, next);
      mem := Set(mem, block, B_TAG, TAG_FREE);
    }

    method MergeBlock(curr: int, next: int)
      modifies `mem
      ensures mem == MergeMem(old(mem), curr, next)
    {
      mem := Set(mem, curr, B_SIZE, Get(mem, curr, B_SIZE) + Get(mem, next, B_SIZE));
      mem := Set(mem, curr, B_NEXT, Get(mem, next, B_NEXT));
      mem := Set(mem, Get(mem, curr, B_NEXT), B_PREV, curr);
    }

    method SplitBlock(base: int, baseSize: int, fragmentSize: int) returns (fragment: int)
      modifies `mem
      ensures fragment == base + baseSize
      ensures mem == SplitMem(old(mem), base, baseSize, fragmentSize)
    {
      fragment := base + baseSize;
      mem := Set(mem, fragment, B_SIZE, fragmentSize);
      mem := Set(mem, fragment, B_PREV, base);
      mem := Set(mem, fragment, B_NEXT, Get(mem, base, B_NEXT));
      mem := Set(mem, Get(mem, fragment, B_NEXT), B_PREV, fragment);
      mem := Set(mem, base, B_NEXT, fragment);
      mem := Set(mem, base, B_SIZE, baseSize);
    }

    // ---- initialisation ----

    constructor (buf: int, size: int)
      requires 0 < buf && buf % 4 == 0 && ZONE_HEADER + MINFRAGMENT <= size && buf + size <= WORD
      ensures Valid() && zone == buf
      ensures Z == Zone(buf + ZONE_HEADER, map[buf + ZONE_HEADER := Block(size - ZONE_HEADER, false)], buf + size)
      ensures fl == [buf + ZONE_HEADER + HEADER]
    {
      zone := buf;
      var block := buf + ZONE_HEADER;
      mem := map[];
      Z := Zone(block, map[block := Block(size - ZONE_HEADER, true)], buf + size);
      fl := [];
      new;
      hide Inv, InsertMem, NoFreeNeighbour, Get, Set;
      WriteHeaders(size);
      label H:
      FreshZone(mem, Z);
      InsertFree(block);
      ReleaseKeeps(old@H(mem), Z, fl, {block}, block);
      assert {block} - {block} == {};
      fl := InsertAt(fl, 0, block + HEADER);
      Z := Retag(Z, block, false);
    }

    // The block list and the free list of a zone that is one block.
    method WriteHeaders(size: int)
      requires 0 < zone && size >= ZONE_HEADER + MINFRAGMENT && mem == map[]
      modifies `mem
      ensures HeadersWritten(mem, Zone(zone + ZONE_HEADER, map[], zone + size))
    {
      var block := zone + ZONE_HEADER;
      mem := Set(mem, zone, B_PREV, block);
      mem := Set(mem, zone, B_NEXT, block);
      mem := Set(mem, zone, B_TAG, TAG_USED);
      mem := Set(mem, zone, B_SIZE, 0);
      mem := Set(mem, block, B_NEXT, zone);
      mem := Set(mem, block, B_PREV, zone);
      mem := Set(mem, block, B_SIZE, size - ZONE_HEADER);
      mem := Set(mem, zone, Z_SIZE, Get(mem, block, B_SIZE));
      mem := Set(mem, zone + Z_FREELIST, F_PREV, zone + Z_FREELIST);
      mem := Set(mem, zone + Z_FREELIST, F_NEXT, zone + Z_FREELIST);
    }

    // ---- searching ----

    // First fit, in the order of the free list.
    method SearchFree(size: int) returns (block: int)
      requires Valid()
      modifies this
      ensures Z.end == old(Z.end)
      ensures block == 0 ==> mem == old(mem) && Z == old(Z) && fl == old(fl) && NoneFits(Z, size)
      ensures block != 0 ==> FirstFit(old(Z), old(fl), size, block) && old(Z).SizeOf(block) >= size
      ensures block != 0 ==> Taken(old(Z), old(mem), Z, mem, block) && Mid({block})
    {
      hide Inv, Keeps, RemoveMem, RemoveAt, FirstFit, NoneFits;
      var anchor := zone + Z_FREELIST;
      var fb := Get(mem, anchor, F_NEXT);
      ghost var k := 0;
      Start(mem, Z, fl);
      while fb != anchor
        invariant mem == old(mem) && Z == old(Z) && fl == old(fl)
        invariant k <= |fl| && fb == if k < |fl| then fl[k] else anchor
        invariant forall j :: 0 <= j < k ==> Z.SizeOf(fl[j] - HEADER) < size
        decreases |fl| - k
      {
        block := fb - HEADER;
        Cursor(mem, Z, fl, k);
        if Get(mem, block, B_SIZE) >= size {
          FirstIs(Z, fl, size, k);
          RemoveFree(block);
          TakeKeeps(old(mem), Z, fl, {}, block, k);
          assert {} + {block} == {block};
          Z := Retag(Z, block, true);
          fl := RemoveAt(fl, k);
          return;
        }
        fb := Get(mem, fb, F_NEXT);
        k := k + 1;
      }
      if k < |fl| { Cursor(mem, Z, fl, k); }
      block := 0;
      AllTooSmall(mem, Z, fl, size);
    }

    // ---- free ----

    method Free(ptr: int)
      modifies this
      ensures mem == FreeMem(old(mem), zone, ptr) && Z.end == old(Z.end)
      ensures old(Valid()) && (ptr == 0 || old(Z).Free(ptr - HEADER)) ==>
        Valid() && mem == old(mem) && Z == old(Z) && fl == old(fl)
      ensures old(Valid()) && ptr != 0 && old(Z).Used(ptr - HEADER) ==>
        Valid() && Rooms(old(Z), Z, ptr - HEADER, 0) && Keeps(old(Z), old(mem), Z, mem)
    {
      hide Inv, Keeps, RemoveMem, MergeMem, InsertMem, Rooms;
      if ptr == 0 {
        return;
      }
      var block := ptr - HEADER;
      var used := IsUsedBlock(block);
      if Valid() && block in Z.blocks { UsedWordTruth(mem, Z, fl, block); }
      if !used {
        return;
      }
      var other := Get(mem, block, B_PREV);
      if Get(mem, other, B_TAG) == TAG_FREE {
        RemoveFree(other);
        MergeBlock(other, block);
        block := other;
      }
      other := Get(mem, block, B_NEXT);
      if Get(mem, other, B_TAG) == TAG_FREE {
        RemoveFree(other);
        MergeBlock(block, other);
      }
      InsertFree(block);
      if old(Valid()) && old(Z).Used(ptr - HEADER) {
        Z, fl := FreeKeeps(old(mem), Z, fl, ptr - HEADER);
      }
    }

    method IsUsedBlock(block: int) returns (used: bool)
      ensures used == UsedWord(mem, zone, block)
    {
      if Get(mem, block, B_TAG) == TAG_FREE {
        return false;
      }
      var size := Get(mem, block, B_SIZE);
      if size == 0 || size > Get(mem, zone, Z_SIZE) {
        return false;
      }
      return true;
    }

    // The word loop of memcpy.
    method MemCopy(dst: int, src: int, n: int)
      requires n >= 0 && n % 4 == 0
      modifies `mem
      ensures mem == CopyMem(old(mem), dst, src, n)
    {
      var i := 0;
      while i < n
        invariant 0 <= i <= n && i % 4 == 0
        invariant CopyMem(mem, dst + i, src + i, n - i) == CopyMem(old(mem), dst, src, n)
      {
        mem := Set(mem, dst + i, 0, Get(mem, src + i, 0));
        i := i + 4;
      }
    }

    // ---- malloc ----

    method Malloc(req: int) returns (p: int)
      requires Valid() && 0 <= req < WORD
      modifies this
      ensures Z.end == old(Z.end)
      ensures p == 0 ==> Valid() && mem == old(mem) && Z == old(Z) && fl == old(fl)
      ensures p == 0 <==> NoneFits(old(Z), PadRequest(req))
      ensures p != 0 ==> old(Z).Free(p - HEADER) && FirstFit(old(Z), old(fl), PadRequest(req), p - HEADER)
      ensures p != 0 && req <= MAX_REQUEST ==> Valid() && Served(old(Z), old(mem), Z, mem, PadRequest(req), p)
      // If the padding wraps around, the block is too small, but no other
      // payload is touched.
      ensures p != 0 && req > MAX_REQUEST ==> Get(mem, p - HEADER, B_SIZE) < req + HEADER
      ensures p != 0 && req > MAX_REQUEST ==> Keeps(old(Z), old(mem), old(Z), mem)
    {
      hide Inv, Keeps, CarvedMem, Carved, CarvedList, Rooms, InsertMem, SplitMem, Retag, InsertAt, Served, NoneFits,
        Zone.Room, FirstFit;
      PadRequestFits(req);
      var size := PadRequest(req);
      p := SearchFree(size);
      if p == 0 {
        return;
      }
      var block := p;
      TakenFacts(old(mem), old(Z), old(fl), Z, mem, block);
      HeaderWords(mem, Z, fl, {block}, block);
      label H:
      var extra := Get(mem, block, B_SIZE) - size;
      if req > MAX_REQUEST {
        WrapTooSmall(mem, Z, fl, {block}, block, size, extra);
        WrapServed(old(mem), old(Z), old(fl), Z, mem, fl, block, size);
      }
      assert !NoneFits(old(Z), size) by { SomeFits(old(Z), block, size); }
      if extra >= MINFRAGMENT {
        var fragment := SplitBlock(block, size, extra);
        InsertFree(fragment);
      }
      ghost var m1 := mem;
      mem := Set(mem, block, B_TAG, TAG_USED);
      if req <= MAX_REQUEST {
        assert m1 == CarvedMem(old@H(mem), Z, block, size) by { CarvedMemIs(old@H(mem), Z, block, size); }
        ServeKeeps(old@H(mem), Z, fl, block, size);
        CarvedUsed(Z, block, size);
        ServedTaken(old(Z), old(mem), Z, old@H(mem), Carved(Z, block, size), mem, block, size);
        fl := CarvedList(Z, fl, block, size);
        Z := Carved(Z, block, size);
      }
      return block + HEADER;
    }

    // ---- memalign ----

    // The first free block in which an aligned payload fits; what is in front
    // of it stays behind as a free block.
    method SearchFreeAligned(alignment: int, size: int) returns (block: int, ghost k: nat)
      requires Valid() && PowerOfTwo(alignment) && 0 <= size
      modifies this
      ensures Z.end == old(Z.end)
      ensures block == 0 ==> mem == old(mem) && Z == old(Z) && fl == old(fl)
      ensures alignment > 0 && (block == 0 <==> NoneFitsAligned(old(Z), alignment, size))
      ensures block != 0 ==>
        FirstAligned(old(Z), old(fl), k, alignment, size) && block == AlignedAt(old(fl)[k] - HEADER, alignment)
      ensures block != 0 ==> Masked(block + HEADER, alignment) == 0 && block > 0 && block % 4 == 0
      ensures block == 0 ==> forall a :: Z.Free(a) && HoldsAligned(Z, a, alignment, size) ==>
        PassedOver(Z, a, alignment, size)
      // Only a size that has wrapped around can leave less than a block.
      ensures block != 0 && !(size < MINFRAGMENT && Tiny(mem, zone, block)) ==>
        Mid({block}) && Ready(old(Z), old(mem), Z, mem, block) && Z.SizeOf(block) >= size
    {
      hide Inv, Keeps, RemoveMem, SplitMem, InsertMem, RemoveAt, InsertAt, SplitBase, Ready, Retag, Fronted,
        PowerOfTwo, Masked, Tiny, HoldsAligned, PassedOver;
      var anchor := zone + Z_FREELIST;
      var fb := Get(mem, anchor, F_NEXT);
      k := 0;
      Start(mem, Z, fl);
      while fb != anchor
        invariant mem == old(mem) && Z == old(Z) && fl == old(fl)
        invariant k <= |fl| && fb == if k < |fl| then fl[k] else anchor
        invariant forall j :: 0 <= j < k ==> UnfitAt(Z, fl[j] - HEADER, alignment, size)
        decreases |fl| - k
      {
        var base := fb - HEADER;
        Cursor(mem, Z, fl, k);
        PowerPositive(alignment);
        var diff := Masked(fb, alignment);
        if diff == 0 {
          if Get(mem, base, B_SIZE) >= size {
            RemoveFree(base);
            TakeKeeps(old(mem), Z, fl, {}, base, k);
            assert {} + {base} == {base};
            ReadyTaken(old(mem), Z, fl, mem, base);
            Z := Retag(Z, base, true);
            fl := RemoveAt(fl, k);
            return base, k;
          }
        } else if Get(mem, base, B_SIZE) > size {
          var extra := Get(mem, base, B_SIZE) - size;
          var splitBase := SplitBase(alignment, diff);
          SplitBaseFits(fb, alignment);
          if extra >= splitBase {
            var baseSize := Get(mem, base, B_SIZE);
            ghost var rest := baseSize - splitBase;
            if rest >= MINFRAGMENT {
              FrontKeeps(mem, Z, fl, base, splitBase, k);
            } else {
              TinyRest(mem, Z, fl, base, splitBase, rest, k);
            }
            RemoveFree(base);
            TakenSize(old(mem), Z, fl, base, k);
            block := SplitBlock(base, splitBase, Get(mem, base, B_SIZE) - splitBase);
            InsertFree(base);
            if rest >= MINFRAGMENT {
              ReadyFronted(old(mem), Z, fl, mem, base, splitBase);
              Z := Fronted(Z, base, splitBase);
              fl := InsertAt(RemoveAt(fl, k), 0, base + HEADER);
            }
            return;
          }
        }
        fb := Get(mem, fb, F_NEXT);
        k := k + 1;
      }
      if k < |fl| { Cursor(mem, Z, fl, k); }
      block := 0;
      AllUnfit(mem, Z, fl, alignment, size);
      PowerPositive(alignment);
      NoneHoldsAligned(mem, Z, fl, alignment, size);
    }

    method Memalign(alignment: int, req: int) returns (p: int)
      requires Valid() && PowerOfTwo(alignment) && 0 <= req < WORD
      modifies this
      ensures Z.end == old(Z.end) && p % alignment == 0
      ensures p == 0 ==> Valid() && mem == old(mem) && Z == old(Z) && fl == old(fl)
      // It fails exactly if no free block passes the test, and otherwise serves
      // the request from the first one on the free list that does.
      ensures alignment > 0 && (p == 0 <==> NoneFitsAligned(old(Z), alignment, PadRequest(req)))
      ensures p != 0 ==> FirstPlace(old(Z), old(fl), alignment, PadRequest(req), p - HEADER)
      // Any free block with room for an aligned payload is one the test passes over.
      ensures p == 0 ==> forall a :: Z.Free(a) && HoldsAligned(Z, a, alignment, PadRequest(req)) ==>
        PassedOver(Z, a, alignment, PadRequest(req))
      ensures p != 0 && req <= MAX_REQUEST ==> Valid() && Served(old(Z), old(mem), Z, mem, PadRequest(req), p)
      ensures p != 0 && req > MAX_REQUEST ==> Get(mem, p - HEADER, B_SIZE) < req + HEADER
    {
      hide Inv, Keeps, CarvedMem, Carved, CarvedList, Rooms, InsertMem, SplitMem, Ready, InsertAt, Served,
        Zone.Room, NoneFitsAligned, PowerOfTwo, HoldsAligned, PassedOver, Tiny;
      PadRequestFits(req);
      var size := PadRequest(req);
      PowerPositive(alignment);
      var block;
      ghost var k;
      block, k := SearchFreeAligned(alignment, size);
      if block == 0 {
        return 0;
      }
      ghost var tiny := size < MINFRAGMENT && Tiny(mem, zone, block);
      if !tiny {
        ReadyFacts(old(Z), old(mem), Z, mem, block);
        HeaderWords(mem, Z, fl, {block}, block);
      }
      label H:
      var extra := Get(mem, block, B_SIZE) - size;
      if tiny {
        TinyServed(mem, zone, block, size, extra);
      } else if req > MAX_REQUEST {
        WrapTooSmall(mem, Z, fl, {block}, block, size, extra);
      }
      if extra >= MINFRAGMENT {
        var fragment := SplitBlock(block, size, extra);
        InsertFree(fragment);
      }
      ghost var m1 := mem;
      mem := Set(mem, block, B_TAG, TAG_USED);
      if req <= MAX_REQUEST {
        assert m1 == CarvedMem(old@H(mem), Z, block, size) by { CarvedMemIs(old@H(mem), Z, block, size); }
        ServeKeeps(old@H(mem), Z, fl, block, size);
        CarvedUsed(Z, block, size);
        ServedReady(old(Z), old(mem), Z, old@H(mem), Carved(Z, block, size), mem, block, size);
        fl := CarvedList(Z, fl, block, size);
        Z := Carved(Z, block, size);
      }
      return block + HEADER;
    }

    // ---- realloc ----

    method Realloc(ptr: int, req: int) returns (r: int)
      requires Valid() && 0 <= req < WORD && (ptr == 0 || ptr - HEADER in Z.blocks)
      modifies this
      ensures Z.end == old(Z.end)
      ensures ptr == 0 && r == 0 ==> Valid() && mem == old(mem) && Z == old(Z) && fl == old(fl)
      ensures ptr == 0 ==> (r == 0 <==> NoneFits(old(Z), PadRequest(req)))
      ensures ptr == 0 && r != 0 && req <= MAX_REQUEST ==>
        Valid() && Served(old(Z), old(mem), Z, mem, PadRequest(req), r)
      ensures ptr != 0 && req == 0 ==> r == 0 && Valid()
      ensures ptr != 0 && req == 0 && old(Z).Used(ptr - HEADER) ==>
        Rooms(old(Z), Z, ptr - HEADER, 0) && Keeps(old(Z), old(mem), Z, mem)
      ensures ptr != 0 && old(Z).Free(ptr - HEADER) ==> r == 0 && mem == old(mem) && Z == old(Z) && fl == old(fl)
      ensures ptr != 0 && req > 0 && old(Z).Used(ptr - HEADER) && Reallocatable(old(Z), ptr - HEADER, req) ==>
        Valid() && Reallocated(old(Z), old(mem), Z, mem, ptr, PadRequest(req), r)
      ensures ptr != 0 && 0 < req <= MAX_REQUEST && old(Z).Used(ptr - HEADER) ==>
        || InPlace(old(Z), ptr - HEADER, PadRequest(req))
        || (r == 0 <==> NoneFits(old(Z), PadRequest(PadRequest(req))))
      // A padding that wraps around at once leaves a block that is too small;
      // one that wraps around the second time copies into such a block.
      ensures ptr == 0 && r != 0 && req > MAX_REQUEST ==> Get(mem, r - HEADER, B_SIZE) < req + HEADER
      ensures ptr != 0 && old(Z).Used(ptr - HEADER) && req > MAX_REQUEST ==>
        r == ptr && Get(mem, r - HEADER, B_SIZE) < req + HEADER
      ensures ptr != 0 && old(Z).Used(ptr - HEADER) && 0 < req <= MAX_REQUEST ==>
        Reallocatable(old(Z), ptr - HEADER, req) ||
        if NoneFits(old(Z), PadRequest(PadRequest(req))) then
          r == 0 && Valid() && mem == old(mem) && Z == old(Z) && fl == old(fl)
        else r != 0 && exists m :: Overrun(old(Z), old(mem), m, mem, ptr, PadRequest(req), r)
    {
      hide Inv, Keeps, Served, NoneFits, Rooms, Resized, Moved, Zone.Room, FreeMem, PadRequest, UsedWord;
      if ptr == 0 {
        r := Malloc(req);
        return;
      }
      if req == 0 {
        Free(ptr);
        return 0;
      }
      var base := ptr - HEADER;
      var used := IsUsedBlock(base);
      UsedWordTruth(mem, Z, fl, base);
      if !used {
        return 0;
      }
      PadRequestFits(req);
      var size := PadRequest(req);
      HeaderWords(mem, Z, fl, {}, base);
      if Get(mem, base, B_SIZE) >= size {
        Shrink(base, size);
        return ptr;
      }
      var next := Get(mem, base, B_NEXT);
      if next != zone { HeaderWords(mem, Z, fl, {}, next); }
      if Get(mem, next, B_TAG) == TAG_FREE && Get(mem, base, B_SIZE) + Get(mem, next, B_SIZE) >= size {
        GrowInPlace(base, next, size);
        return ptr;
      }
      MustMove(Z, base, next, size);
      r := Move(ptr, size);
    }

    // The block is large enough: free what is left over, together with a free
    // block behind it.
    method Shrink(base: int, size: int)
      requires Valid() && Z.Used(base) && 0 <= size <= Z.blocks[base].size && size % 4 == 0
      modifies this
      ensures Z.end == old(Z.end)
      ensures size >= MINFRAGMENT ==> Valid() && Resized(old(Z), old(mem), Z, mem, base, size)
      ensures size < MINFRAGMENT ==> Get(mem, base, B_SIZE) < 2 * MINFRAGMENT
    {
      hide Inv, Keeps, CarvedMem, Carved, CarvedList, Rooms, InsertMem, SplitMem, RemoveMem, MergeMem, Resized,
        InsertAt, RemoveAt, Zone.Room, Fused;
      HeaderWords(mem, Z, fl, {}, base);
      var extra := Get(mem, base, B_SIZE) - size;
      if extra < MINFRAGMENT {
        ResizedNot(Z, mem, base, size);
        return;
      }
      var next := Get(mem, base, B_NEXT);
      if next != zone { HeaderWords(mem, Z, fl, {}, next); }
      if Get(mem, next, B_TAG) == TAG_FREE {
        ghost var k := Position(mem, Z, fl, {}, next);
        TakenNext(mem, Z, fl, base, next, k);
        RemoveFree(next);
        extra := extra + Get(mem, next, B_SIZE);
        ghost var m1 := mem;
        mem := Set(mem, base, B_NEXT, Get(mem, next, B_NEXT));
        if size >= MINFRAGMENT {
          ShortcutAfter(old(mem), Z, fl, base, next, size, extra, k);
          AbsorbKeeps(old(mem), Z, fl, base, next, k);
          fl := RemoveAt(fl, k);
          Z := Fused(Z, base, next, next);
          ResizedJoined(old(mem), MergeMem(m1, base, next), old(Z), Z, fl, base, size);
          CarvedMemIs(MergeMem(m1, base, next), Z, base, size);
        } else {
          WrapShortcut(old(mem), Z, fl, base, next, size, extra, k);
        }
      } else {
        NoSuccessor(Z, base, next);
        if size >= MINFRAGMENT {
          ResizedCarved(mem, Z, fl, base, size);
          CarvedMemIs(mem, Z, base, size);
        } else {
          WrapTooSmall(mem, Z, fl, {}, base, size, extra);
        }
      }
      var fragment := SplitBlock(base, size, extra);
      InsertFree(fragment);
      if size >= MINFRAGMENT {
        fl := CarvedList(Z, fl, base, size);
        Z := Carved(Z, base, size);
      }
    }

    method GrowInPlace(base: int, next: int, size: int)
      requires Valid() && Z.Used(base) && Z.Free(next) && Z.Next(base) == next && size % 4 == 0
      requires MINFRAGMENT <= Z.blocks[base].size < size <= Z.blocks[base].size + Z.blocks[next].size
      modifies this
      ensures Valid() && Z.end == old(Z.end) && Resized(old(Z), old(mem), Z, mem, base, size)
    {
      hide Inv, Keeps, CarvedMem, Carved, CarvedList, Rooms, InsertMem, SplitMem, RemoveMem, MergeMem, Resized,
        InsertAt, RemoveAt, Zone.Room, Fused;
      HeaderWords(mem, Z, fl, {}, base);
      ghost var k := Position(mem, Z, fl, {}, next);
      TakenNext(mem, Z, fl, base, next, k);
      RemoveFree(next);
      MergeBlock(base, Get(mem, base, B_NEXT));
      AbsorbKeeps(old(mem), Z, fl, base, next, k);
      fl := RemoveAt(fl, k);
      Z := Fused(Z, base, next, next);
      ResizedJoined(old(mem), mem, old(Z), Z, fl, base, size);
      HeaderWords(mem, Z, fl, {}, base);
      CarvedMemIs(mem, Z, base, size);
      if Get(mem, base, B_SIZE) - size >= MINFRAGMENT {
        var fragment := SplitBlock(base, size, Get(mem, base, B_SIZE) - size);
        InsertFree(fragment);
      }
      fl := CarvedList(Z, fl, base, size);
      Z := Carved(Z, base, size);
    }

    // Allocate anew (the padded size is padded once more), copy, free.
    method Move(ptr: int, size: int) returns (r: int)
      requires Valid() && Z.Used(ptr - HEADER) && 0 <= size < WORD && size % 4 == 0
        && Z.blocks[ptr - HEADER].size < size
      modifies this
      ensures Z.end == old(Z.end)
      ensures size <= MAX_REQUEST ==> Valid()
      ensures r == 0 <==> NoneFits(old(Z), PadRequest(size))
      ensures r == 0 ==> Valid() && mem == old(mem) && Z == old(Z) && fl == old(fl)
      ensures size <= MAX_REQUEST && r != 0 ==> Moved(old(Z), old(mem), Z, mem, ptr, size, r)
      ensures size > MAX_REQUEST && r != 0 ==> exists m :: Overrun(old(Z), old(mem), m, mem, ptr, size, r)
    {
      hide Inv, Keeps, Served, NoneFits, Rooms, Moved, Zone.Room, CopyMem, FreeMem, PadRequest;
      PadRequestFits(size);
      HeaderWords(mem, Z, fl, {}, ptr - HEADER);
      r := Malloc(size);
      if r == 0 {
        return;
      }
      ghost var Z1, m1, fl1 := Z, mem, fl;
      MemCopy(r, ptr, size);
      if size <= MAX_REQUEST {
        ServedFacts(old(mem), old(Z), old(fl), m1, Z, PadRequest(size), r, ptr - HEADER);
        CopyKeeps(m1, Z, fl, r - HEADER, r, ptr, size);
      }
      ghost var m2 := mem;
      Free(ptr);
      if size > MAX_REQUEST {
        assert Overrun(old(Z), old(mem), m1, mem, ptr, size, r);
      } else {
        MovedWhole(old(mem), old(Z), old(fl), m1, Z1, fl1, m2, mem, Z, ptr, size, r);
      }
    }

    // ---- a whole life ----

    // What a caller may do to its own payload.
    method Store(ptr: int, c: int, v: int)
      requires Valid() && InPayload(Z, ptr - HEADER, c)
      modifies `mem
      ensures Valid() && mem == Set(old(mem), c, 0, v)
    {
      hide Inv;
      StoreKeeps(mem, Z, fl, {}, ptr - HEADER, c, v);
      mem := Set(mem, c, 0, v);
    }

    // Any sequence of the four operations and of writes, with the answers to
    // it, up to the first operation whose padding wraps around.  The heap stays
    // well formed, its blocks in use are exactly those the client holds, each
    // has room for what it was asked for, and what was written last is still
    // there, also where realloc has moved it.
    method Run(ops: seq<Op>) returns (answers: seq<int>, ghost before: seq<Zone>)
      requires Valid() && IsTrace(ops) && forall a :: !Z.Used(a)
      modifies this
      ensures Valid() && Z.end == old(Z.end) && |answers| <= |ops|
      ensures |answers| < |ops| ==> !Safe(Z, After(ops, answers).live, ops[|answers|])
      // Nothing is refused that the blocks of that moment, before[i], have room
      // for.
      ensures |before| == |answers| && forall i :: 0 <= i < |answers| ==>
        AsHeld(before[i], ops, answers, i) && Justified(before[i], After(ops, answers[..i]).live, ops[i], answers[i])
      ensures forall a :: Z.Used(a) <==> a + HEADER in After(ops, answers).live
      ensures var live := After(ops, answers).live;
        0 !in live && forall p :: p in live ==> HEADER + live[p] <= Z.Room(p - HEADER)
      ensures Stored(mem, After(ops, answers))
    {
      hide Inv, Keeps, FreeMem, Rooms, Served, Resized, Moved, NoneFits, NoneFitsAligned, PadRequest, Zone.Room,
        Holds, Reallocated, Stored, Within, At, Reallocatable, PowerOfTwo, HoldsAligned, PassedOver, Overrun,
        FitsAligned, Justified, After, Answered;
      answers, before := [], [];
      var client := Client(map[], map[]);
      NothingHeld(mem, Z, fl);
      AfterNone(ops);
      while |answers| < |ops|
        invariant |answers| <= |ops| && Valid() && Z.end == old(Z.end)
        invariant client == After(ops, answers) && Holds(Z, client.live) && Stored(mem, client)
        invariant |before| == |answers| && forall k :: 0 <= k < |answers| ==>
          AsHeld(before[k], ops, answers, k) && Justified(before[k], After(ops, answers[..k]).live, ops[k], answers[k])
        decreases |ops| - |answers|
      {
        var i := |answers|;
        assert ops[i] in ops;
        var safe := IsSafe(ops[i], client.live);
        if !safe {
          AllHeld(mem, Z, fl, client.live);
          return;
        }
        ghost var Z0 := Z;
        AllHeld(mem, Z, fl, client.live);
        var p := Perform(ops[i], client);
        client := Answered(client, ops[i], p);
        AfterMore(ops, answers, p);
        assert (answers + [p])[..i] == answers;
        assert forall k :: 0 <= k < i ==> (answers + [p])[..k] == answers[..k];
        answers, before := answers + [p], before + [Z0];
      }
      AllHeld(mem, Z, fl, client.live);
    }

    // Whether no padding of the operation wraps around.
    method IsSafe(op: Op, live: map<int, int>) returns (safe: bool)
      requires Valid() && Holds(Z, live) && IsTrace([op])
      ensures safe == Safe(Z, live, op)
    {
      hide Inv, Zone.Room, Holds, PadRequest, PowerOfTwo;
      assert op in [op];
      match op
      case Request(n) => safe := n <= MAX_REQUEST;
      case Align(_, n) => safe := n <= MAX_REQUEST;
      case Release(_) => safe := true;
      case Write(_, _, _) => safe := true;
      case Resize(p, n) =>
        safe := true;
        if p in live && n != 0 {
          HeldUsed(mem, Z, fl, live, p);
          var base, size := p - HEADER, PadRequest(n);
          HeaderWords(mem, Z, fl, {}, base);
          var next := Get(mem, base, B_NEXT);
          var fits := Get(mem, base, B_SIZE) >= size;
          if !fits && next != zone {
            HeaderWords(mem, Z, fl, {}, next);
            fits := Get(mem, next, B_TAG) == TAG_FREE && Get(mem, base, B_SIZE) + Get(mem, next, B_SIZE) >= size;
          }
          safe := n <= MAX_REQUEST && (fits || size <= MAX_REQUEST);
        }
    }

    // One operation of a client.
    method Perform(op: Op, client: Client) returns (p: int)
      requires Valid() && Holds(Z, client.live) && Stored(mem, client)
      requires IsTrace([op]) && Safe(Z, client.live, op)
      modifies this
      ensures Valid() && Z.end == old(Z.end)
      ensures Justified(old(Z), client.live, op, p)
      ensures var now := Answered(client, op, p); Holds(Z, now.live) && Stored(mem, now)
    {
      hide Inv, Keeps, FreeMem, Rooms, Served, Resized, Moved, NoneFits, NoneFitsAligned, PadRequest, Zone.Room,
        Holds, Reallocated, Stored, Within, At, Reallocatable, PowerOfTwo, HoldsAligned, PassedOver, Overrun,
        FitsAligned;
      assert op in [op];
      ghost var Z0, m0 := Z, mem;
      var live := client.live;
      p := 0;
      match op
      case Request(n) =>
        p := Malloc(n);
        if p != 0 { HoldsServed(Z0, m0, Z, mem, client, n, p); }
      case Align(alignment, n) =>
        p := Memalign(alignment, n);
        PowerPositive(alignment);
        if p != 0 { HoldsServed(Z0, m0, Z, mem, client, n, p); }
      case Release(ptr) =>
        if ptr in live {
          HeldUsed(mem, Z, fl, live, ptr);
          Free(ptr);
          HoldsFreed(Z0, m0, Z, mem, client, ptr);
        } else {
          NotHeld(mem, client, ptr);
        }
      case Resize(ptr, n) =>
        if ptr in live {
          HeldUsed(mem, Z, fl, live, ptr);
          p := Realloc(ptr, n);
          if n == 0 {
            HoldsFreed(Z0, m0, Z, mem, client, ptr);
          } else {
            JustResized(Z0, m0, Z, mem, ptr, n, p);
            assert Justified(Z0, live, op, p);
            HoldsReallocated(Z0, m0, Z, mem, client, ptr, n, p);
          }
        }
      case Write(ptr, i, v) =>
        if ptr in live && MayWrite(live[ptr], i) {
          HeldUsed(mem, Z, fl, live, ptr);
          StoredMore(mem, Z, fl, client, ptr, i, v);
          Store(ptr, ptr + i, v);
        }
    }

    // Freeing every live payload, in whatever order, leaves one free block.
    method FreeAll(ptrs: seq<int>)
      requires Valid() && NoDup(ptrs) && 0 !in ptrs
      requires forall a :: Z.Used(a) <==> a + HEADER in ptrs
      modifies this
      ensures var base := zone + ZONE_HEADER;
              Valid() && Z == Zone(base, map[base := Block(old(Z.end) - base, false)], old(Z.end))
      ensures fl == [zone + ZONE_HEADER + HEADER]
    {
      hide Inv, Keeps, FreeMem, Rooms;
      var i := 0;
      while i < |ptrs|
        invariant 0 <= i <= |ptrs| && Valid() && Z.end == old(Z.end)
        invariant forall a :: Z.Used(a) <==> a + HEADER in ptrs[i..]
      {
        assert ptrs[i..] == [ptrs[i]] + ptrs[i + 1..];
        assert ptrs[i] - HEADER + HEADER in ptrs[i..];
        ghost var before := Z;
        ghost var m0, fl0 := mem, fl;
        Free(ptrs[i]);
        UsedAfter(m0, before, fl0, mem, Z, fl, ptrs, i);
        i := i + 1;
      }
      AllFree(mem, Z, fl);
    }
  }

  // The blocks in use are those the client holds, each with room for what was
  // asked for.
  ghost predicate Holds(Z: Zone, live: map<int, int>) {
    && (forall a {:trigger Z.Room(a)} :: Z.Room(a) != 0 <==> a + HEADER in live)
    && (forall p :: p in live ==> HEADER + live[p] <= Z.Room(p - HEADER))
  }

  // The blocks in use are those the client held before operation i.
  ghost predicate AsHeld(Z: Zone, ops: seq<Op>, answers: seq<int>, i: int)
    requires 0 <= i <= |answers| <= |ops|
  {
    forall a {:trigger Z.Used(a)} :: Z.Used(a) <==> a + HEADER in After(ops, answers[..i]).live
  }

  // An operation is refused exactly if no free block will do.
  ghost predicate Justified(Z: Zone, live: map<int, int>, op: Op, answer: int) {
    match op
    case Request(n) => answer == 0 <==> NoneFits(Z, PadRequest(n))
    case Align(alignment, n) =>
      alignment > 0 && answer % alignment == 0 && (answer == 0 <==> NoneFitsAligned(Z, alignment, PadRequest(n)))
    case Resize(p, n) =>
      p in live && n != 0 && p - HEADER in Z.blocks ==>
        if InPlace(Z, p - HEADER, PadRequest(n)) then answer == p
        else answer == 0 <==> NoneFits(Z, PadRequest(PadRequest(n)))
    case Release(_) => answer == 0
    case Write(_, _, _) => answer == 0
  }

  lemma JustResized(Z: Zone, m: Mem, Z': Zone, m': Mem, p: int, n: int, r: int)
    requires Z.Used(p - HEADER) && Reallocatable(Z, p - HEADER, n) && Reallocated(Z, m, Z', m', p, PadRequest(n), r)
    ensures n <= MAX_REQUEST && (InPlace(Z, p - HEADER, PadRequest(n)) ==> r == p)
  {
    hide Resized, Moved;
  }

  // What the client wrote last is in its payloads.
  ghost predicate Stored(m: Mem, client: Client) {
    forall p, i {:trigger (p, i) in client.stored} :: (p, i) in client.stored ==>
      p in client.live && MayWrite(client.live[p], i) && Get(m, p, i) == client.stored[(p, i)]
  }

  lemma NothingHeld(m: Mem, Z: Zone, fl: seq<int>)
    requires forall a :: !Z.Used(a)
    ensures Holds(Z, map[]) && Stored(m, Client(map[], map[]))
  {
  }

  lemma HeldUsed(m: Mem, Z: Zone, fl: seq<int>, live: map<int, int>, p: int)
    requires Inv(m, Z, fl, {}) && Holds(Z, live) && p in live
    ensures p != 0 && Z.Used(p - HEADER) && p - HEADER in Z.blocks
  {
    hide Aligned, Merged, Nexts, Sizes, Labels, Prevs, HeadCells, Threaded, Listed;
    assert Z.Room(p - HEADER) != 0;
    assert 0 < Z.Head() < Z.base <= p - HEADER;
  }

  lemma AllHeld(m: Mem, Z: Zone, fl: seq<int>, live: map<int, int>)
    requires Inv(m, Z, fl, {}) && Holds(Z, live)
    ensures 0 !in live && forall a :: Z.Used(a) <==> a + HEADER in live
    ensures forall p :: p in live ==> HEADER + live[p] <= Z.Room(p - HEADER)
  {
    hide Aligned, Merged, Nexts, Sizes, Labels, Prevs, HeadCells, Threaded, Listed;
    if 0 in live { HeldUsed(m, Z, fl, live, 0); }
    forall a
      ensures Z.Used(a) <==> a + HEADER in live
    {
      assert Z.Room(a) != 0 <==> a + HEADER in live;
    }
  }

  // What is kept of the payloads is kept of what was written there.
  lemma StoredKept(Z: Zone, m: Mem, Z': Zone, m': Mem, client: Client, live: map<int, int>)
    requires Holds(Z, client.live) && Holds(Z', live) && Stored(m, client) && Keeps(Z, m, Z', m')
    ensures Stored(m', Held(client.stored, live))
  {
    hide Zone.Room;
    var now := Held(client.stored, live);
    forall p, i | (p, i) in now.stored
      ensures Get(m', p, i) == now.stored[(p, i)]
    {
      assert (p, i) in client.stored && p in live && p in client.live;
      assert InPayload(Z, p - HEADER, p + i) && InPayload(Z', p - HEADER, p + i);
      assert Get(m', p + i, 0) == Get(m, p + i, 0);
    }
  }

  lemma HoldsServed(Z: Zone, m: Mem, Z': Zone, m': Mem, client: Client, n: int, p: int)
    requires Holds(Z, client.live) && Stored(m, client)
    requires p != 0 && 0 <= n <= MAX_REQUEST && Served(Z, m, Z', m', PadRequest(n), p)
    ensures var now := Held(client.stored, client.live[p := n]); Holds(Z', now.live) && Stored(m', now)
  {
    hide Keeps, PadRequest, Zone.Room, Stored;
    PadRequestFits(n);
    var live := client.live;
    assert Z.Room(p - HEADER) == 0 && p !in live;
    forall a
      ensures Z'.Room(a) != 0 <==> a + HEADER in live[p := n]
    {
      if a != p - HEADER { assert Z'.Room(a) == Z.Room(a); }
    }
    forall q | q in live
      ensures HEADER + live[q] <= Z'.Room(q - HEADER)
    {
      assert Z'.Room(q - HEADER) == Z.Room(q - HEADER);
    }
    StoredKept(Z, m, Z', m', client, live[p := n]);
  }

  lemma HoldsFreed(Z: Zone, m: Mem, Z': Zone, m': Mem, client: Client, p: int)
    requires Holds(Z, client.live) && Stored(m, client) && Rooms(Z, Z', p - HEADER, 0) && Keeps(Z, m, Z', m')
    ensures var now := Held(client.stored, client.live - {p}); Holds(Z', now.live) && Stored(m', now)
  {
    hide Zone.Room, Stored, Keeps;
    var live := client.live;
    forall a
      ensures Z'.Room(a) != 0 <==> a + HEADER in live - {p}
    {
      assert Z'.Room(a) == if a == p - HEADER then 0 else Z.Room(a);
    }
    forall q | q in live - {p}
      ensures HEADER + live[q] <= Z'.Room(q - HEADER)
    {
      assert Z'.Room(q - HEADER) == Z.Room(q - HEADER);
    }
    StoredKept(Z, m, Z', m', client, live - {p});
  }

  lemma NotHeld(m: Mem, client: Client, p: int)
    requires Stored(m, client) && p !in client.live
    ensures client.live - {p} == client.live && Stored(m, Held(client.stored, client.live - {p}))
  {
  }

  lemma HoldsReallocated(Z: Zone, m: Mem, Z': Zone, m': Mem, client: Client, p: int, n: int, r: int)
    requires Holds(Z, client.live) && Stored(m, client) && p in client.live && p - HEADER in Z.blocks && p != 0
    requires 0 < n < WORD && Reallocatable(Z, p - HEADER, n) && Reallocated(Z, m, Z', m', p, PadRequest(n), r)
    ensures var now := Answered(client, Resize(p, n), r); Holds(Z', now.live) && Stored(m', now)
  {
    hide Keeps, PadRequest, Zone.Room, NoneFits, InPlace, Stored, Within, At, Copied, Holds;
    if r != 0 {
      RoomFor(Z, m, Z', m', client.live, p, n, r);
      if r == p {
        ResizedStored(Z, m, Z', m', client, p, n);
      } else {
        PadRequestFits(n);
        MovedStored(Z, m, Z', m', client, p, n, r);
      }
    }
  }

  lemma RoomFor(Z: Zone, m: Mem, Z': Zone, m': Mem, live: map<int, int>, p: int, n: int, r: int)
    requires Holds(Z, live) && p in live && p - HEADER in Z.blocks && p != 0 && r != 0
    requires 0 < n < WORD && Reallocatable(Z, p - HEADER, n) && Reallocated(Z, m, Z', m', p, PadRequest(n), r)
    ensures Holds(Z', (live - {p})[r := n])
  {
    hide Keeps, PadRequest, Zone.Room, NoneFits, InPlace, Copied;
    PadRequestFits(n);
    if PadRequest(n) <= MAX_REQUEST { PadRequestFits(PadRequest(n)); }
    var now := (live - {p})[r := n];
    assert r != p ==> Z.Room(r - HEADER) == 0 && r !in live;
    assert PadRequest(n) <= Z'.Room(r - HEADER) && (r != p ==> Z'.Room(p - HEADER) == 0);
    forall a
      ensures Z'.Room(a) != 0 <==> a + HEADER in now
    {
      if a != p - HEADER && a != r - HEADER { assert Z'.Room(a) == Z.Room(a); }
    }
    forall q | q in now
      ensures HEADER + now[q] <= Z'.Room(q - HEADER)
    {
      if q != r { assert Z'.Room(q - HEADER) == Z.Room(q - HEADER); }
    }
  }

  lemma ResizedStored(Z: Zone, m: Mem, Z': Zone, m': Mem, client: Client, p: int, n: int)
    requires Holds(Z, client.live) && Stored(m, client) && p in client.live && p != 0 && n > 0 && Keeps(Z, m, Z', m')
    requires Holds(Z', (client.live - {p})[p := n])
    ensures Stored(m', Answered(client, Resize(p, n), p))
  {
    hide Keeps, Zone.Room, Stored, Within, At, Holds;
    var live := (client.live - {p})[p := n];
    StoredKept(Z, m, Z', m', client, live);
    SameWords(client.stored, client.live, p, live, m);
  }

  lemma SameWords(stored: map<(int, int), int>, live0: map<int, int>, p: int, live: map<int, int>, m: Mem)
    requires p in live0 && p in live && live == (live0 - {p})[p := live[p]] && Stored(m, Client(live0, stored))
    ensures Within(Within(stored, live0 - {p}) + At(stored, p, p), live) == Within(stored, live)
  {
    var a, b := Within(Within(stored, live0 - {p}) + At(stored, p, p), live), Within(stored, live);
    forall k: (int, int)
      ensures k in a <==> k in b
      ensures k in a ==> a[k] == b[k]
    {
      assert k in stored ==> (k.0, k.1) in stored;
      if k.0 == p { assert k in At(stored, p, p) <==> k in stored; }
    }
  }

  lemma MovedStored(Z: Zone, m: Mem, Z': Zone, m': Mem, client: Client, p: int, n: int, r: int)
    requires Holds(Z, client.live) && Stored(m, client) && p in client.live && r != 0 && r != p && n > 0
    requires Moved(Z, m, Z', m', p, PadRequest(n), r) && Holds(Z', (client.live - {p})[r := n])
    ensures Stored(m', Answered(client, Resize(p, n), r))
  {
    hide Keeps, PadRequest, Zone.Room, Stored;
    var live := (client.live - {p})[r := n];
    StoredKept(Z, m, Z', m', client, live);
    assert Z.Room(r - HEADER) == 0 && r !in client.live;
    var rest, moved := Within(client.stored, client.live - {p}), At(client.stored, p, r);
    assert Stored(m, client) && Stored(m', Held(client.stored, live));
    forall q, i | (q, i) in Within(rest + moved, live)
      ensures Get(m', q, i) == (rest + moved)[(q, i)]
    {
      if q == r {
        WordMoved(m, client, p, i, n, Z);
        assert (p, i) in client.stored && MayWrite(client.live[p], i);
        assert Get(m', r, i) == Get(m, p, i);
      } else {
        assert (q, i) in rest && (q, i) in Held(client.stored, live).stored;
        WordThere(m', Held(client.stored, live), q, i);
      }
    }
    StoredIf(m', Within(rest + moved, live), live);
  }

  lemma WordMoved(m: Mem, client: Client, p: int, i: int, n: int, Z: Zone)
    requires Stored(m, client) && Holds(Z, client.live) && p in client.live
    ensures (p, i) in client.stored ==>
      MayWrite(client.live[p], i) && Get(m, p, i) == client.stored[(p, i)] && i < Z.Room(p - HEADER) - HEADER
  {
    hide Zone.Room;
  }

  lemma WordThere(m: Mem, client: Client, p: int, i: int)
    requires Stored(m, client) && (p, i) in client.stored
    ensures Get(m, p, i) == client.stored[(p, i)]
  {
  }

  lemma StoredIf(m: Mem, stored: map<(int, int), int>, live: map<int, int>)
    requires forall p, i {:trigger (p, i) in stored} :: (p, i) in stored ==>
      p in live && MayWrite(live[p], i) && Get(m, p, i) == stored[(p, i)]
    ensures Stored(m, Client(live, stored))
  {
  }

  // A word of one payload is no word of another.
  lemma StoredMore(m: Mem, Z: Zone, fl: seq<int>, client: Client, p: int, i: int, v: int)
    requires Inv(m, Z, fl, {}) && Holds(Z, client.live) && Stored(m, client) && p in client.live
      && MayWrite(client.live[p], i)
    ensures InPayload(Z, p - HEADER, p + i) && Stored(Set(m, p + i, 0, v), Answered(client, Write(p, i, v), 0))
  {
    hide Inv, Zone.Room;
    var now, m' := Answered(client, Write(p, i, v), 0), Set(m, p + i, 0, v);
    forall q, j | (q, j) in now.stored
      ensures q in now.live && MayWrite(now.live[q], j) && Get(m', q, j) == now.stored[(q, j)]
    {
      if (q, j) != (p, i) {
        assert (q, j) in client.stored;
        if q != p {
          HeldUsed(m, Z, fl, client.live, q);
          PayloadsApart(m, Z, fl, p - HEADER, p + i, q - HEADER);
        }
      }
    }
  }

  // is_used_block, on the words it looks at.
  predicate UsedWord(m: Mem, zone: int, block: int) {
    Get(m, block, B_TAG) != TAG_FREE && 0 != Get(m, block, B_SIZE) <= Get(m, zone, Z_SIZE)
  }

  // The memory M_FREE leaves.
  function FreeMem(m: Mem, zone: int, ptr: int): Mem {
    if ptr == 0 || !UsedWord(m, zone, ptr - HEADER) then m
    else
      var b := ptr - HEADER;
      var p := Get(m, b, B_PREV);
      if Get(m, p, B_TAG) == TAG_FREE then FreeNextMem(MergeMem(RemoveMem(m, p), p, b), zone, p)
      else FreeNextMem(m, zone, b)
  }

  function FreeNextMem(m: Mem, zone: int, x: int): Mem {
    var n := Get(m, x, B_NEXT);
    var m1 := if Get(m, n, B_TAG) == TAG_FREE then MergeMem(RemoveMem(m, n), x, n) else m;
    InsertMem(m1, zone + Z_FREELIST, x)
  }

  function CopyMem(m: Mem, dst: int, src: int, n: int): Mem
    decreases n
  {
    if n <= 0 then m else CopyMem(Set(m, dst, 0, Get(m, src, 0)), dst + 4, src + 4, n - 4)
  }

  lemma UsedWordTruth(m: Mem, Z: Zone, fl: seq<int>, b: int)
    requires Inv(m, Z, fl, {}) && b in Z.blocks
    ensures UsedWord(m, Z.Head(), b) == Z.Used(b)
  {
    hide Inv;
    HeaderWords(m, Z, fl, {}, b);
  }

  lemma FreeKeeps(m: Mem, Z: Zone, fl: seq<int>, b: int) returns (Z': Zone, fl': seq<int>)
    requires Inv(m, Z, fl, {}) && Z.Used(b)
    ensures var m' := FreeMem(m, Z.Head(), b + HEADER);
            Inv(m', Z', fl', {}) && Rooms(Z, Z', b, 0) && Keeps(Z, m, Z', m')
    ensures Z'.base == Z.base && Z'.end == Z.end
  {
    hide Inv, Keeps, RemoveMem, MergeMem, InsertMem, RemoveAt, InsertAt, Rooms, Given, Zone.Room, FreeNextMem;
    HeaderWords(m, Z, fl, {}, b);
    UsedWordTruth(m, Z, fl, b);
    assert FreeMem(m, Z.Head(), b + HEADER) ==
      var p := Get(m, b, B_PREV);
      if Get(m, p, B_TAG) == TAG_FREE then FreeNextMem(MergeMem(RemoveMem(m, p), p, b), Z.Head(), p)
      else FreeNextMem(m, Z.Head(), b);
    var p := Get(m, b, B_PREV);
    if p != Z.Head() { HeaderWords(m, Z, fl, {}, p); }
    if Get(m, p, B_TAG) == TAG_FREE {
      var k := Position(m, Z, fl, {}, p);
      GivenToPrev(m, Z, fl, p, b, k);
      FusedEnds(Z, p, b, p);
      Z', fl' := FreeNextKeeps(Z, m, MergeMem(RemoveMem(m, p), p, b), Fused(Z, p, b, p), RemoveAt(fl, k), b, p);
    } else {
      Uncovered(m, Z, fl, b, p);
      GivenAlone(Z, m, b);
      InvLooser(m, Z, fl, {}, b);
      assert {} + {b} == {b};
      Z', fl' := FreeNextKeeps(Z, m, m, Z, fl, b, b);
    }
  }

  lemma FreeNextKeeps(Z0: Zone, m0: Mem, m: Mem, Z: Zone, fl: seq<int>, b: int, x: int) returns (Z': Zone,
                      fl': seq<int>)
    requires Inv(m, Z, fl, {x}) && Given(Z0, m0, Z, m, b, x)
    ensures var m' := FreeNextMem(m, Z.Head(), x);
            Inv(m', Z', fl', {}) && Rooms(Z0, Z', b, 0) && Keeps(Z0, m0, Z', m')
    ensures Z'.base == Z.base && Z'.end == Z.end
  {
    hide Inv, Keeps, RemoveMem, MergeMem, InsertMem, RemoveAt, InsertAt, Rooms, Given, NoFreePred, Zone.Room, Fused;
    GivenFacts(Z0, m0, Z, m, b, x);
    HeaderWords(m, Z, fl, {x}, x);
    var n := Get(m, x, B_NEXT);
    if n != Z.Head() { HeaderWords(m, Z, fl, {x}, n); NotItself(m, Z, fl, {x}, x); }
    var m1, Z1, fl1 := m, Z, fl;
    if Get(m, n, B_TAG) == TAG_FREE {
      var k := Position(m, Z, fl, {x}, n);
      GivenWithNext(Z0, m0, m, Z, fl, b, x, n, k);
      FusedEnds(Z, x, n, n);
      m1, Z1, fl1 := MergeMem(RemoveMem(m, n), x, n), Fused(Z, x, n, n), RemoveAt(fl, k);
      GivenFacts(Z0, m0, Z1, m1, b, x);
    }
    GivenReleased(Z0, m0, m1, Z1, fl1, b, x);
    Z', fl' := Retag(Z1, x, false), InsertAt(fl1, 0, x + HEADER);
  }

  lemma UsedAfter(m0: Mem, Z0: Zone, fl0: seq<int>, m: Mem, Z: Zone, fl: seq<int>, ptrs: seq<int>, i: nat)
    requires Inv(m0, Z0, fl0, {}) && Inv(m, Z, fl, {}) && i < |ptrs| && NoDup(ptrs)
    requires Rooms(Z0, Z, ptrs[i] - HEADER, 0)
    requires forall a :: Z0.Used(a) <==> a + HEADER in ptrs[i..]
    ensures forall a :: Z.Used(a) <==> a + HEADER in ptrs[i + 1..]
  {
    hide Inv;
    InvTiled(m0, Z0, fl0, {});
    InvTiled(m, Z, fl, {});
    forall a
      ensures Z.Used(a) <==> a + HEADER in ptrs[i + 1..]
    {
      assert Z.Room(a) == if a == ptrs[i] - HEADER then 0 else Z0.Room(a);
      assert Z.Used(a) <==> Z.Room(a) > 0;
      assert Z0.Used(a) <==> Z0.Room(a) > 0;
      assert ptrs[i..] == [ptrs[i]] + ptrs[i + 1..];
      assert ptrs[i] !in ptrs[i + 1..];
    }
  }

  // One block went from the free list into hand.
  ghost predicate Taken(Z: Zone, m: Mem, Z': Zone, m': Mem, x: int) {
    x > 0 && Z.Free(x) && Z' == Retag(Z, x, true) && Keeps(Z, m, Z', m')
  }

  lemma TakenFacts(m: Mem, Z: Zone, fl: seq<int>, Z': Zone, m': Mem, x: int)
    requires Inv(m, Z, fl, {}) && Taken(Z, m, Z', m', x)
    ensures Z.Free(x) && Z'.Used(x) && Z'.SizeOf(x) == Z.SizeOf(x) && !Z'.Free(Z'.Next(x))
    ensures Z'.Head() == Z.Head() && Z'.end == Z.end
  {
    hide Aligned, Nexts, Sizes, Prevs, HeadCells, Labels, Threaded, Listed, Keeps;
    PredOfFree(Z, x);
  }

  // A block that is served with a size that has wrapped around.
  lemma WrapServed(m0: Mem, Z0: Zone, fl0: seq<int>, Z: Zone, m: Mem, fl: seq<int>, x: int, s: int)
    requires Inv(m0, Z0, fl0, {}) && Taken(Z0, m0, Z, m, x) && Inv(m, Z, fl, {x})
    requires 0 <= s < MINFRAGMENT
    ensures var extra := Z.SizeOf(x) - s;
            var m1 := if extra >= MINFRAGMENT then InsertMem(SplitMem(m, x, s, extra), Z.Anchor(), x + s) else m;
            Keeps(Z0, m0, Z0, Set(m1, x, B_TAG, TAG_USED))
  {
    hide Inv, InsertMem, SplitMem, Retag, Keeps;
    TakenFacts(m0, Z0, fl0, Z, m, x);
    var extra := Z.SizeOf(x) - s;
    var m1 := if extra >= MINFRAGMENT then InsertMem(SplitMem(m, x, s, extra), Z.Anchor(), x + s) else m;
    if extra >= MINFRAGMENT { WrapKeeps(m, Z, fl, {x}, x, s); }
    InvTiled(m, Z, fl, {x});
    KeepsBut(Z0, m0, Z, m, m1, x);
  }

  lemma KeepsBut(Z0: Zone, m0: Mem, Z: Zone, m: Mem, m1: Mem, x: int)
    requires Tiled(Z) && Taken(Z0, m0, Z, m, x)
    requires forall a, c {:trigger InPayload(Z, a, c)} ::
      a != x && InPayload(Z, a, c) ==> Get(m1, c, 0) == Get(m, c, 0)
    ensures Keeps(Z0, m0, Z0, Set(m1, x, B_TAG, TAG_USED))
  {
    hide Tiled;
    forall a, c | InPayload(Z0, a, c)
      ensures Get(Set(m1, x, B_TAG, TAG_USED), c, 0) == Get(m0, c, 0)
    {
      assert a != x && InPayload(Z, a, c);
      Besides(Z, a, x, c);
    }
  }

  // A block in hand that no block in use has been disturbed for, and behind
  // which no free block lies.
  ghost predicate Ready(Z: Zone, m: Mem, Z': Zone, m': Mem, x: int) {
    && Z'.Used(x) && !Z'.Free(Z'.Next(x)) && Z.Room(x) == 0
    && Z'.base == Z.base && Z'.end == Z.end
    && (forall a {:trigger Z'.Room(a)} :: a != x ==> Z'.Room(a) == Z.Room(a))
    && Keeps(Z, m, Z', m')
  }

  lemma ReadyFacts(Z: Zone, m: Mem, Z': Zone, m': Mem, x: int)
    requires Ready(Z, m, Z', m', x)
    ensures Z'.Used(x) && !Z'.Free(Z'.Next(x)) && Z'.base == Z.base && Z'.end == Z.end
  {
  }

  lemma ReadyTaken(m: Mem, Z: Zone, fl: seq<int>, m': Mem, x: int)
    requires Inv(m, Z, fl, {}) && Z.Free(x) && Keeps(Z, m, Retag(Z, x, true), m')
    ensures Ready(Z, m, Retag(Z, x, true), m', x)
    ensures Retag(Z, x, true).SizeOf(x) == Z.blocks[x].size && Retag(Z, x, true).Head() == Z.Head()
    ensures Retag(Z, x, true).end == Z.end
  {
    hide Aligned, Nexts, Sizes, Prevs, HeadCells, Labels, Threaded, Listed, Keeps;
    PredOfFree(Z, x);
  }

  lemma ReadyFronted(m: Mem, Z: Zone, fl: seq<int>, m': Mem, x: int, s: int)
    requires Inv(m, Z, fl, {}) && Z.Free(x) && Keeps(Z, m, Fronted(Z, x, s), m')
    requires s % 4 == 0 && MINFRAGMENT <= s <= Z.blocks[x].size - MINFRAGMENT
    ensures Ready(Z, m, Fronted(Z, x, s), m', x + s)
    ensures Fronted(Z, x, s).SizeOf(x + s) == Z.blocks[x].size - s && Fronted(Z, x, s).Head() == Z.Head()
    ensures Fronted(Z, x, s).end == Z.end
  {
    hide Tiled, Merged, Aligned, Nexts, Sizes, Prevs, HeadCells, Labels, Threaded, Listed, Keeps, Fronted;
    FrontRest(Z, x, s);
  }

  lemma TakenSize(m: Mem, Z: Zone, fl: seq<int>, x: int, k: nat)
    requires Inv(m, Z, fl, {}) && k < |fl| && fl[k] == x + HEADER && x in Z.blocks
    ensures Get(RemoveMem(m, x), x, B_SIZE) == Z.blocks[x].size
  {
    hide Inv, Keeps, RemoveMem, RemoveAt;
    TakeKeeps(m, Z, fl, {}, x, k);
    HeaderWords(RemoveMem(m, x), Retag(Z, x, true), RemoveAt(fl, k), {} + {x}, x);
  }

  lemma ServedReady(Z0: Zone, m0: Mem, Z: Zone, m: Mem, Z': Zone, m': Mem, x: int, s: int)
    requires Ready(Z0, m0, Z, m, x) && Keeps(Z, m, Z', m') && x % 4 == 0 && 0 <= s <= Z.SizeOf(x)
    requires Rooms(Z, Z', x, if Z.SizeOf(x) - s >= MINFRAGMENT then s else Z.SizeOf(x))
    ensures Served(Z0, m0, Z', m', s, x + HEADER)
  {
    hide Keeps;
    KeepsTrans(Z0, m0, Z, m, Z', m');
  }

  predicate UnfitAt(Z: Zone, a: int, alignment: int, s: int) {
    a in Z.blocks && alignment > 0 && !FitsAligned(Z, a, alignment, s)
  }

  lemma AllUnfit(m: Mem, Z: Zone, fl: seq<int>, alignment: int, size: int)
    requires Inv(m, Z, fl, {}) && PowerOfTwo(alignment)
    requires forall j :: 0 <= j < |fl| ==> UnfitAt(Z, fl[j] - HEADER, alignment, size)
    ensures NoneFitsAligned(Z, alignment, size)
  {
    hide Tiled, Aligned, Merged, Nexts, Sizes, Prevs, HeadCells, Labels, Threaded, FitsAligned;
    forall a | Z.Free(a)
      ensures !FitsAligned(Z, a, alignment, size)
    {
      assert a + HEADER in fl;
      var j :| 0 <= j < |fl| && fl[j] == a + HEADER;
      assert UnfitAt(Z, fl[j] - HEADER, alignment, size);
    }
  }

  lemma PowerPositive(n: int)
    requires PowerOfTwo(n)
    ensures n > 0
  {
  }

  lemma MulAtLeast(a: int, n: int)
    requires a >= 1 && n > 0
    ensures a * n >= n
  {
  }

  lemma DivModUnique(x: int, n: int, q: int, r: int)
    requires n > 0 && x == q * n + r && 0 <= r < n
    ensures x % n == r
  {
    var d := x / n;
    assert x == d * n + x % n;
    assert (q - d) * n == x % n - r;
    if q > d { MulAtLeast(q - d, n); }
    if q < d { MulAtLeast(d - q, n); }
  }

  lemma SplitBaseSum(fb: int, n: int, t: int, d: int, q: int)
    requires n % 4 == 0 && n > 0 && fb % 4 == 0 && fb == t * n + d && 0 < d < n && q * n >= MINFRAGMENT
    ensures var s := n - d + q * n; s >= MINFRAGMENT && s % 4 == 0 && (fb + s) % n == 0
  {
    var s := n - d + q * n;
    Distribute(t, q, n);
    DivModUnique(fb + s, n, t + 1 + q, 0);
    ByFour(n, t + 1 + q);
    FromSum(fb, s);
  }

  lemma Distribute(t: int, q: int, n: int)
    ensures (t + 1 + q) * n == t * n + n + q * n
  {
  }

  lemma FromSum(a: int, b: int)
    requires a % 4 == 0 && (a + b) % 4 == 0
    ensures b % 4 == 0
  {
  }

  // The front part is a whole free block, ends on a word, and brings the
  // payload behind it onto the alignment.
  lemma SplitBaseFits(fb: int, alignment: int)
    requires PowerOfTwo(alignment) && fb % 4 == 0
    ensures Masked(fb, alignment) != 0 ==>
      var s := SplitBase(alignment, Masked(fb, alignment));
      s >= MINFRAGMENT && s % 4 == 0 && Masked(fb + s, alignment) == 0
  {
    if alignment == 1 || alignment == 2 {
      assert Masked(fb, 1) == 0 && Masked(fb, 2) == 0;
    } else if Masked(fb, alignment) != 0 {
      PowerOfTwoBy4(alignment);
      DivUp(MINFRAGMENT, alignment);
      SplitBaseSum(fb, alignment, fb / alignment, fb % alignment, (MINFRAGMENT + alignment - 1) / alignment);
    }
  }

  // The test of search_free_aligned passes exactly the blocks that hold an
  // aligned payload, but for those it passes over.
  lemma FitsIffHolds(Z: Zone, a: int, alignment: int, s: int)
    requires a in Z.blocks && PowerOfTwo(alignment) && a % 4 == 0
    ensures alignment > 0
    ensures HoldsAligned(Z, a, alignment, s) <==> FitsAligned(Z, a, alignment, s) || PassedOver(Z, a, alignment, s)
    ensures PassedOver(Z, a, alignment, s) ==> !FitsAligned(Z, a, alignment, s)
  {
    hide Masked, SplitBase, PowerOfTwo;
    PowerPositive(alignment);
    var f := a + HEADER;
    var diff := Masked(f, alignment);
    SplitBaseFits(f, alignment);
    if FitsAligned(Z, a, alignment, s) {
      assert PayloadAt(Z, a, alignment, s, if diff == 0 then f else f + SplitBase(alignment, diff));
    } else if PassedOver(Z, a, alignment, s) {
      OneLess(f + SplitBase(alignment, diff), alignment);
      assert PayloadAt(Z, a, alignment, s, f + SplitBase(alignment, diff) - alignment);
    } else if HoldsAligned(Z, a, alignment, s) {
      var q :| PayloadAt(Z, a, alignment, s, q);
      if diff != 0 {
        NoOtherFront(f, alignment, q);
      }
    }
  }

  lemma OneLess(x: int, n: int)
    requires n > 0 && Masked(x, n) == 0
    ensures Masked(x - n, n) == 0
  {
    DivModUnique(x - n, n, x / n - 1, 0);
  }

  // An aligned payload at least a block behind f is at one of two places, or
  // no nearer than where the test puts it.
  lemma NoOtherFront(f: int, n: int, q: int)
    requires PowerOfTwo(n) && n > 0 && Masked(f, n) != 0 && Masked(q, n) == 0 && (q == f || q >= f + MINFRAGMENT)
    ensures q - f >= SplitBase(n, Masked(f, n)) || q - f == SplitBase(n, Masked(f, n)) - n
  {
    hide PowerOfTwo;
    var c := (MINFRAGMENT + n - 1) / n;
    assert f == f / n * n + f % n && q == q / n * n;
    CeilBounds(n, c);
    NoPlaceBetween(f % n, c, f / n, q / n, n);
    assert SplitBase(n, f % n) == n - f % n + c * n;
  }

  lemma NoPlaceBetween(d: int, c: int, t: int, u: int, n: int)
    requires 0 < d < n && c * n >= MINFRAGMENT && (c - 1) * n < MINFRAGMENT && u * n >= t * n + d + MINFRAGMENT
    ensures u * n - (t * n + d) >= n - d + c * n || u * n - (t * n + d) == n - d + c * n - n
  {
    Apart(u, t, n);
    var j := u - t - 1;
    Unfold(j, n);
    if j < c - 1 {
      LessTimes(j + 1, c - 1, n);
      Unfold(c - 1, n);
    } else if j == c - 1 {
      Unfold(c - 1, n);
    } else {
      LessTimes(c, j, n);
    }
  }

  lemma Apart(u: int, t: int, n: int)
    ensures u * n - t * n == (u - t) * n
  {
  }

  lemma Unfold(j: int, n: int)
    ensures (j + 1) * n == j * n + n
  {
  }

  lemma LessTimes(a: int, b: int, n: int)
    requires a <= b && n > 0
    ensures a * n <= b * n
  {
  }

  lemma CeilBounds(n: int, c: int)
    requires n > 0 && c == (MINFRAGMENT + n - 1) / n
    ensures c * n >= MINFRAGMENT && (c - 1) * n < MINFRAGMENT && c >= 1
  {
    var r := (MINFRAGMENT + n - 1) % n;
    assert MINFRAGMENT + n - 1 == n * c + r && 0 <= r < n;
    Unfold(c - 1, n);
  }

  // A block of 140 bytes at 80 has room for 56 bytes with the payload at 128
  // and a whole block in front, but memalign passes it over.
  lemma PassedOverBlock(Z: Zone)
    requires 80 in Z.blocks && Z.blocks[80].size == 140
    ensures HoldsAligned(Z, 80, 64, 56) && !FitsAligned(Z, 80, 64, 56)
  {
    assert PayloadAt(Z, 80, 64, 56, 128);
  }

  // So in a new heap of 168 bytes, memalign refuses 40 bytes.
  method RefusedRun() returns (h: Heap, p: int)
    ensures h.Valid() && p == 0 && h.Z.Free(80) && HoldsAligned(h.Z, 80, 64, PadRequest(40))
  {
    hide Inv, Keeps, Served, FirstPlace, HoldsAligned, FitsAligned, PassedOver, Zone.Room;
    h := new Heap(52, 168);
    PassedOverBlock(h.Z);
    assert PowerOfTwo(64);
    p := h.Memalign(64, 40);
  }

  lemma NoneHoldsAligned(m: Mem, Z: Zone, fl: seq<int>, alignment: int, s: int)
    requires Inv(m, Z, fl, {}) && PowerOfTwo(alignment) && alignment > 0 && NoneFitsAligned(Z, alignment, s)
    ensures forall a :: Z.Free(a) && HoldsAligned(Z, a, alignment, s) ==> PassedOver(Z, a, alignment, s)
  {
    hide HoldsAligned, PassedOver, FitsAligned, Tiled, Merged, Nexts, Sizes, Labels, Prevs, HeadCells, Threaded,
      Listed, PowerOfTwo;
    forall a | Z.Free(a) && HoldsAligned(Z, a, alignment, s)
      ensures PassedOver(Z, a, alignment, s)
    {
      FitsIffHolds(Z, a, alignment, s);
    }
  }

  lemma DivUp(x: int, n: int)
    requires n > 0
    ensures (x + n - 1) / n * n >= x
  {
  }

  lemma ByFour(n: int, j: int)
    requires n % 4 == 0
    ensures j * n % 4 == 0
  {
    assert j * n == j * (n / 4) * 4;
  }

  // ---- realloc ----

  // Block x now holds s bytes, with less than a fragment to spare; no other
  // block in use was touched, and the payload of x is the same as far as both
  // the old and the new block reach.
  ghost predicate Resized(Z: Zone, m: Mem, Z': Zone, m': Mem, x: int, s: int) {
    && (forall a {:trigger Z'.Room(a)} :: a != x ==> Z'.Room(a) == Z.Room(a))
    && s <= Z'.Room(x) < s + MINFRAGMENT
    && Keeps(Z, m, Z', m')
  }

  // The payload at ptr has moved to r with all its words.
  ghost predicate Moved(Z: Zone, m: Mem, Z': Zone, m': Mem, ptr: int, s: int, r: int) {
    && r != 0 && r != ptr && r % 4 == 0
    && Z.Room(r - HEADER) == 0 && PadRequest(s) <= Z'.Room(r - HEADER) < PadRequest(s) + MINFRAGMENT
    && Z'.Room(ptr - HEADER) == 0
    && (forall a {:trigger Z'.Room(a)} :: a != r - HEADER && a != ptr - HEADER ==> Z'.Room(a) == Z.Room(a))
    && Keeps(Z, m, Z', m')
    && Copied(m, ptr, m', r, Z.Room(ptr - HEADER) - HEADER)
  }

  ghost predicate Reallocated(Z: Zone, m: Mem, Z': Zone, m': Mem, ptr: int, s: int, r: int)
    requires ptr - HEADER in Z.blocks
  {
    if InPlace(Z, ptr - HEADER, s) then r == ptr && Resized(Z, m, Z', m', ptr - HEADER, s)
    else if r == 0 then m' == m && Z' == Z && NoneFits(Z, PadRequest(s))
    else Moved(Z, m, Z', m', ptr, s, r)
  }

  // `size` bytes from ptr on were copied to r, into what was a free block of the
  // heap (Z, m0) and had no room for them; then ptr was freed.  m is the memory
  // malloc had left: all that was held, the payload at ptr included, was still
  // there.
  ghost predicate Overrun(Z: Zone, m0: Mem, m: Mem, m': Mem, ptr: int, size: int, r: int) {
    && Z.Free(r - HEADER) && Get(m, r - HEADER, B_SIZE) < size + HEADER
    && Keeps(Z, m0, Z, m)
    && m' == FreeMem(CopyMem(m, r, ptr, size), Z.Head(), ptr)
  }

  // The copy does not stop at the end of the zone.
  lemma OverrunsEnd(Z: Zone, m0: Mem, fl: seq<int>, m: Mem, m': Mem, ptr: int, size: int, r: int)
    requires Inv(m0, Z, fl, {}) && Overrun(Z, m0, m, m', ptr, size, r) && size > MAX_REQUEST && Z.end <= WORD
    ensures r + size > Z.end
  {
    InvTiled(m0, Z, fl, {});
  }

  // A request survives the second padding exactly if it leaves room for two
  // headers.
  lemma PadTwiceFits(req: int)
    requires 0 <= req <= MAX_REQUEST
    ensures PadRequest(req) <= MAX_REQUEST <==> req <= MAX_REQUEST - HEADER
    ensures req > MAX_REQUEST - HEADER ==> PadRequest(PadRequest(req)) < MINFRAGMENT
  {
  }

  // The largest request for which malloc's padding does not wrap around, made
  // of realloc for a block of 16 bytes: a small block is served, and almost
  // 2^32 bytes are copied into it.
  method OverrunRun() returns (h: Heap, ghost Z: Zone, ghost m0: Mem, ghost m: Mem, p: int, r: int)
    ensures p != 0 && r != 0 && Z.Used(p - HEADER) && h.Z.end == Z.end
    ensures Overrun(Z, m0, m, h.mem, p, PadRequest(MAX_REQUEST), r) && r + PadRequest(MAX_REQUEST) > Z.end
  {
    hide Inv, Keeps, FreeMem, Served, NoneFits, FirstFit, Overrun, Reallocated, Resized, Moved, Rooms, Zone.Room;
    h := new Heap(52, 400);
    ghost var Z0 := h.Z;
    assert Z0.Free(80) && Z0.SizeOf(80) == 372;
    SomeFits(Z0, 80, PadRequest(16));
    ghost var fl0, before := h.fl, h.mem;
    p := h.Malloc(16);
    Z, m0 := h.Z, h.mem;
    OneServed(before, Z0, fl0, m0, Z, h.fl, p);
    ghost var fl := h.fl;
    r := h.Realloc(p, MAX_REQUEST);
    m :| Overrun(Z, m0, m, h.mem, p, PadRequest(MAX_REQUEST), r);
    OverrunsEnd(Z, m0, fl, m, h.mem, p, PadRequest(MAX_REQUEST), r);
  }

  // The first request to the only block of 372 bytes leaves a free block behind
  // it.
  lemma OneServed(m0: Mem, Z0: Zone, fl0: seq<int>, m: Mem, Z: Zone, fl: seq<int>, p: int)
    requires Inv(m0, Z0, fl0, {}) && Z0 == Zone(80, map[80 := Block(372, false)], 452) && Z0.Free(p - HEADER)
    requires Inv(m, Z, fl, {}) && Served(Z0, m0, Z, m, PadRequest(16), p) && Z.end == Z0.end && Z.Head() == Z0.Head()
    ensures p == 96 && Z.Used(80) && !Reallocatable(Z, 80, MAX_REQUEST)
    ensures !NoneFits(Z, PadRequest(PadRequest(MAX_REQUEST)))
  {
    hide Keeps, Aligned, Merged, Nexts, Sizes, Prevs, HeadCells, Labels, Threaded, Listed;
    assert Z.Room(80) > 0;
    var x := Z.Next(80);
    assert x < Z.end && Z.Room(x) == 0;
    SomeFits(Z, x, PadRequest(PadRequest(MAX_REQUEST)));
  }

  // No padding wraps around on the way.
  ghost predicate Reallocatable(Z: Zone, b: int, req: int)
    requires b in Z.blocks
  {
    req <= MAX_REQUEST && (InPlace(Z, b, PadRequest(req)) || PadRequest(req) <= MAX_REQUEST)
  }

  lemma NoSuccessor(Z: Zone, b: int, n: int)
    requires b in Z.blocks && n == Z.Succ(b) && !Z.Free(n) && Z.end !in Z.blocks
    ensures !Z.Free(Z.Next(b))
  {
  }

  lemma MustMove(Z: Zone, b: int, n: int, s: int)
    requires b in Z.blocks && n == Z.Succ(b) && Z.end !in Z.blocks && Z.blocks[b].size < s
    requires Z.Free(n) ==> Z.blocks[b].size + Z.blocks[n].size < s
    ensures !InPlace(Z, b, s)
  {
  }

  lemma TakenNext(m: Mem, Z: Zone, fl: seq<int>, b: int, n: int, k: nat)
    requires Inv(m, Z, fl, {}) && Z.Used(b) && Z.Free(n) && Z.Next(b) == n && k < |fl| && fl[k] == n + HEADER
    ensures var m1 := RemoveMem(m, n);
            Get(m1, n, B_SIZE) == Z.blocks[n].size && Get(m1, b, B_NEXT) == n && Get(m1, b, B_SIZE) == Z.blocks[b].size
  {
    hide Inv, Keeps, RemoveMem, RemoveAt;
    HeaderWords(m, Z, fl, {}, b);
    TakeKeeps(m, Z, fl, {}, n, k);
    var Y := Retag(Z, n, true);
    HeaderWords(RemoveMem(m, n), Y, RemoveAt(fl, k), {} + {n}, n);
    NotItself(m, Z, fl, {}, b);
    HeaderWords(RemoveMem(m, n), Y, RemoveAt(fl, k), {} + {n}, b);
  }

  lemma ShortcutAfter(m: Mem, Z: Zone, fl: seq<int>, b: int, n: int, s: int, rest: int, k: nat)
    requires Inv(m, Z, fl, {}) && Z.Used(b) && Z.Free(n) && Z.Next(b) == n && k < |fl| && fl[k] == n + HEADER
    requires MINFRAGMENT <= s <= Z.blocks[b].size - MINFRAGMENT
    ensures var m1 := RemoveMem(m, n);
            SplitMem(Set(m1, b, B_NEXT, Get(m1, n, B_NEXT)), b, s, rest) == SplitMem(MergeMem(m1, b, n), b, s, rest)
  {
    hide Inv, Keeps, RemoveMem, RemoveAt, MergeMem, SplitMem, Tiled, Nexts, Sizes;
    TakeKeeps(m, Z, fl, {}, n, k);
    InvParts(RemoveMem(m, n), Retag(Z, n, true), RemoveAt(fl, k), {} + {n});
    NotItself(m, Z, fl, {}, b);
    Shortcut(RemoveMem(m, n), Retag(Z, n, true), b, n, s, rest);
  }

  lemma AbsorbKeeps(m: Mem, Z: Zone, fl: seq<int>, b: int, n: int, k: nat)
    requires Inv(m, Z, fl, {}) && Z.Used(b) && Z.Free(n) && Z.Next(b) == n && k < |fl| && fl[k] == n + HEADER
    ensures b != n
    ensures var F := Fused(Z, b, n, n); var m' := MergeMem(RemoveMem(m, n), b, n);
            Inv(m', F, RemoveAt(fl, k), {}) && Keeps(Z, m, F, m')
            && F.Used(b) && !F.Free(F.Next(b)) && F.blocks[b].size == Z.blocks[b].size + Z.blocks[n].size
            && F.base == Z.base && F.end == Z.end
            && (forall a {:trigger F.Room(a)} :: a != b ==> F.Room(a) == Z.Room(a)) && F.Room(b) >= Z.Room(b)
  {
    hide Inv, Keeps, RemoveMem, RemoveAt, MergeMem, Tiled, Merged, Fused, Zone.Room, NoFreePred;
    NotItself(m, Z, fl, {}, b);
    InvTiled(m, Z, fl, {});
    FuseKeeps(m, Z, fl, {}, b, n, n, k);
    assert {} + {n} - {n} == {};
    FusedShape(Z, b, n, n);
    FusedRooms(Z, b, n, n);
    FusedEnds(Z, b, n, n);
    PredOfFree(Z, n);
    RoomAtLeast(Z, b, n);
  }

  lemma ResizedNot(Z: Zone, m: Mem, b: int, s: int)
    requires Z.Used(b) && s <= Z.blocks[b].size < s + MINFRAGMENT
    ensures Resized(Z, m, Z, m, b, s)
  {
  }

  lemma ResizedCarved(m: Mem, Z: Zone, fl: seq<int>, b: int, s: int)
    requires Inv(m, Z, fl, {}) && Z.Used(b) && !Z.Free(Z.Next(b))
    requires MINFRAGMENT <= s <= Z.blocks[b].size && s % 4 == 0
    ensures Inv(CarvedMem(m, Z, b, s), Carved(Z, b, s), CarvedList(Z, fl, b, s), {})
    ensures Resized(Z, m, Carved(Z, b, s), CarvedMem(m, Z, b, s), b, s)
    ensures Carved(Z, b, s).base == Z.base && Carved(Z, b, s).end == Z.end
  {
    hide Inv, Keeps, Carved, CarvedMem, CarvedList, Zone.Room;
    CarveKeeps(m, Z, fl, {}, b, s);
    CarvedUsed(Z, b, s);
  }

  lemma ResizedJoined(m0: Mem, m: Mem, Z0: Zone, Z: Zone, fl: seq<int>, b: int, s: int)
    requires Inv(m, Z, fl, {}) && Z.Used(b) && !Z.Free(Z.Next(b)) && Keeps(Z0, m0, Z, m)
    requires MINFRAGMENT <= s <= Z.blocks[b].size && s % 4 == 0
    requires (forall a {:trigger Z.Room(a)} :: a != b ==> Z.Room(a) == Z0.Room(a)) && Z.Room(b) >= Z0.Room(b)
    ensures Inv(CarvedMem(m, Z, b, s), Carved(Z, b, s), CarvedList(Z, fl, b, s), {})
    ensures Resized(Z0, m0, Carved(Z, b, s), CarvedMem(m, Z, b, s), b, s)
    ensures Carved(Z, b, s).base == Z.base && Carved(Z, b, s).end == Z.end
  {
    hide Inv, Keeps, Carved, CarvedMem, CarvedList, Zone.Room;
    ResizedCarved(m, Z, fl, b, s);
    KeepsTrans(Z0, m0, Z, m, Carved(Z, b, s), CarvedMem(m, Z, b, s));
  }

  // ---- memcpy ----

  lemma {:induction false} CopyOutside(m: Mem, dst: int, src: int, n: int, c: int)
    requires n % 4 == 0 && !(dst <= c < dst + n)
    ensures Get(CopyMem(m, dst, src, n), c, 0) == Get(m, c, 0)
    decreases n
  {
    if n > 0 { CopyOutside(Set(m, dst, 0, Get(m, src, 0)), dst + 4, src + 4, n - 4, c); }
  }

  // Words of the source that the destination does not overlap arrive.
  lemma {:induction false} CopyWord(m: Mem, dst: int, src: int, n: int, i: int)
    requires n % 4 == 0 && 0 <= i < n && i % 4 == 0
    requires !(dst <= src + i < dst + n)
    ensures Get(CopyMem(m, dst, src, n), dst, i) == Get(m, src, i)
    decreases n
  {
    var m1 := Set(m, dst, 0, Get(m, src, 0));
    if i == 0 {
      CopyOutside(m1, dst + 4, src + 4, n - 4, dst);
      assert Get(CopyMem(m, dst, src, n), dst, 0) == Get(m1, dst, 0);
    } else {
      CopyWord(m1, dst + 4, src + 4, n - 4, i - 4);
    }
  }

  lemma {:induction false} CopyKeeps(m: Mem, Z: Zone, fl: seq<int>, x: int, dst: int, src: int, n: int)
    requires Inv(m, Z, fl, {}) && n % 4 == 0 && x + HEADER <= dst && dst + n <= x + Z.Room(x)
    ensures Inv(CopyMem(m, dst, src, n), Z, fl, {})
    decreases n
  {
    hide Inv, Zone.Room;
    if n > 0 {
      StoreKeeps(m, Z, fl, {}, x, dst, Get(m, src, 0));
      CopyKeeps(Set(m, dst, 0, Get(m, src, 0)), Z, fl, x, dst + 4, src + 4, n - 4);
    }
  }

  lemma ServedFacts(m0: Mem, Z0: Zone, fl0: seq<int>, m: Mem, Z: Zone, s: int, r: int, b: int)
    requires Inv(m0, Z0, fl0, {}) && Served(Z0, m0, Z, m, s, r) && Z0.Used(b) && s > 0
    ensures r - HEADER != b && Z.Used(b) && Z.Used(r - HEADER) && Z.Room(b) == Z0.Room(b) > 0
    ensures Z0.Room(r - HEADER) == 0 && s <= Z.Room(r - HEADER) < s + MINFRAGMENT && r % 4 == 0
    ensures forall a {:trigger Z.Room(a)} :: a != r - HEADER ==> Z.Room(a) == Z0.Room(a)
    ensures Keeps(Z0, m0, Z, m)
  {
    hide Aligned, Merged, Nexts, Sizes, Prevs, HeadCells, Labels, Threaded, Listed, Keeps;
    assert Z0.Room(b) > 0;
    assert Z.Room(b) == Z0.Room(b);
  }

  // The words between the heap before the move and the one after it.
  lemma MovedWhole(m0: Mem, Z0: Zone, fl0: seq<int>, m1: Mem, Z1: Zone, fl1: seq<int>, m2: Mem, m3: Mem, Z3: Zone,
                   ptr: int, size: int, r: int)
    requires Inv(m0, Z0, fl0, {}) && Inv(m1, Z1, fl1, {}) && Z0.Used(ptr - HEADER)
      && Z0.blocks[ptr - HEADER].size < size
    requires size % 4 == 0 && size + HEADER <= PadRequest(size) && r != 0
    requires Served(Z0, m0, Z1, m1, PadRequest(size), r)
    requires m2 == CopyMem(m1, r, ptr, size)
    requires Rooms(Z1, Z3, ptr - HEADER, 0) && Keeps(Z1, m2, Z3, m3)
    ensures Moved(Z0, m0, Z3, m3, ptr, size, r)
  {
    hide Inv, Keeps, Served, Copied, PadRequest, Zone.Room, CopyMem;
    var b, d := ptr - HEADER, r - HEADER;
    UsedRoom(Z0, b);
    HeaderWords(m0, Z0, fl0, {}, b);
    ServedFacts(m0, Z0, fl0, m1, Z1, PadRequest(size), r, b);
    assert Z3.Room(b) == 0 && Z3.Room(d) == Z1.Room(d);
    assert Copied(m0, ptr, m3, r, Z0.Room(b) - HEADER) by {
      MovedCopied(m0, Z0, m1, Z1, fl1, m2, m3, Z3, ptr, size, r);
    }
    MovedKeeps(m0, Z0, m1, Z1, fl1, m2, m3, Z3, ptr, size, r);
  }

  lemma UsedRoom(Z: Zone, b: int)
    requires Z.Used(b)
    ensures Z.Room(b) == Z.blocks[b].size
  {
  }

  lemma PayloadsApart(m: Mem, Z: Zone, fl: seq<int>, a: int, c: int, b: int)
    requires Inv(m, Z, fl, {}) && InPayload(Z, a, c) && a != b && Z.Used(b)
    ensures !(b + HEADER <= c < b + Z.Room(b))
  {
    hide Aligned, Merged, Nexts, Sizes, Prevs, HeadCells, Labels, Threaded, Listed;
    assert Z.Used(a);
  }

  lemma MovedCopied(m0: Mem, Z0: Zone, m1: Mem, Z1: Zone, fl1: seq<int>, m2: Mem, m3: Mem, Z3: Zone,
                    ptr: int, size: int, r: int)
    requires Inv(m1, Z1, fl1, {}) && Z1.Used(ptr - HEADER) && Z1.Used(r - HEADER) && r != ptr
    requires size % 4 == 0 && Z0.Room(ptr - HEADER) == Z1.Room(ptr - HEADER) < size
    requires size + HEADER <= Z1.Room(r - HEADER) == Z3.Room(r - HEADER)
    requires Keeps(Z0, m0, Z1, m1) && m2 == CopyMem(m1, r, ptr, size) && Keeps(Z1, m2, Z3, m3)
    ensures Copied(m0, ptr, m3, r, Z0.Room(ptr - HEADER) - HEADER)
  {
    hide Inv, Zone.Room, CopyMem;
    forall i | 0 <= i < Z0.Room(ptr - HEADER) - HEADER && i % 4 == 0
      ensures Get(m3, r, i) == Get(m0, ptr, i)
    {
      assert InPayload(Z1, ptr - HEADER, ptr + i) && InPayload(Z0, ptr - HEADER, ptr + i);
      assert Get(m1, ptr + i, 0) == Get(m0, ptr + i, 0);
      PayloadsApart(m1, Z1, fl1, ptr - HEADER, ptr + i, r - HEADER);
      CopyWord(m1, r, ptr, size, i);
      assert InPayload(Z3, r - HEADER, r + i) && InPayload(Z1, r - HEADER, r + i);
      assert Get(m3, r + i, 0) == Get(m2, r + i, 0);
    }
  }

  lemma MovedKeeps(m0: Mem, Z0: Zone, m1: Mem, Z1: Zone, fl1: seq<int>, m2: Mem, m3: Mem, Z3: Zone,
                   ptr: int, size: int, r: int)
    requires Inv(m1, Z1, fl1, {}) && Z1.Used(r - HEADER)
    requires size % 4 == 0 && size + HEADER <= Z1.Room(r - HEADER) && Z0.Room(r - HEADER) == 0
    requires forall a {:trigger Z1.Room(a)} :: a != r - HEADER ==> Z1.Room(a) == Z0.Room(a)
    requires Keeps(Z0, m0, Z1, m1) && m2 == CopyMem(m1, r, ptr, size) && Keeps(Z1, m2, Z3, m3)
    ensures Keeps(Z0, m0, Z3, m3)
  {
    hide Inv, Zone.Room, CopyMem;
    forall a, c | InPayload(Z0, a, c) && InPayload(Z3, a, c)
      ensures Get(m3, c, 0) == Get(m0, c, 0)
    {
      assert a != r - HEADER;
      assert InPayload(Z1, a, c);
      PayloadsApart(m1, Z1, fl1, a, c, r - HEADER);
      CopyOutside(m1, r, ptr, size, c);
    }
  }

  lemma CarvedMemIs(m: Mem, Z: Zone, x: int, s: int)
    requires x in Z.blocks
    ensures CarvedMem(m, Z, x, s) == if Z.blocks[x].size - s >= MINFRAGMENT
            then InsertMem(SplitMem(m, x, s, Z.blocks[x].size - s), Z.Anchor(), x + s)
            else m
  {
    hide InsertMem, SplitMem;
  }

  lemma ServedTaken(Z0: Zone, m0: Mem, Z: Zone, m: Mem, Z': Zone, m': Mem, x: int, s: int)
    requires Taken(Z0, m0, Z, m, x) && Keeps(Z, m, Z', m') && x % 4 == 0 && 0 <= s <= Z.blocks[x].size
    requires Rooms(Z, Z', x, if Z.blocks[x].size - s >= MINFRAGMENT then s else Z.blocks[x].size)
    ensures Served(Z0, m0, Z', m', s, x + HEADER)
  {
    assert forall a :: a != x ==> Z.Room(a) == Z0.Room(a);
    assert Z0.Room(x) == 0;
    hide Keeps, Taken, Retag;
    TakenKeeps(Z0, m0, Z, m, x);
    assert forall a :: Z.Room(a) >= Z0.Room(a);
    KeepsTrans(Z0, m0, Z, m, Z', m');
  }

  lemma TakenKeeps(Z: Zone, m: Mem, Z': Zone, m': Mem, x: int)
    requires Taken(Z, m, Z', m', x)
    ensures Keeps(Z, m, Z', m')
  {
  }

  lemma Start(m: Mem, Z: Zone, fl: seq<int>)
    requires Inv(m, Z, fl, {})
    ensures Get(m, Z.Anchor(), F_NEXT) == if fl == [] then Z.Anchor() else fl[0]
  {
    hide Tiled, Aligned, Merged, Nexts, Sizes, Prevs, HeadCells, Labels, Listed;
    FirstNode(m, Z, fl);
  }

  // What the search sees at position k of the free list.
  lemma Cursor(m: Mem, Z: Zone, fl: seq<int>, k: nat)
    requires Inv(m, Z, fl, {}) && k < |fl|
    ensures Z.Free(fl[k] - HEADER) && fl[k] - HEADER > 0 && (fl[k] - HEADER) % 4 == 0
    ensures Get(m, fl[k] - HEADER, B_SIZE) == Z.SizeOf(fl[k] - HEADER)
    ensures Get(m, fl[k], F_NEXT) == if k + 1 < |fl| then fl[k + 1] else Z.Anchor()
    ensures fl[k] != Z.Anchor()
  {
    InvParts(m, Z, fl, {});
    assert fl[k] in fl;
    Neighbours(m, F_NEXT, F_PREV, Z.Anchor(), fl);
  }

  lemma AllTooSmall(m: Mem, Z: Zone, fl: seq<int>, size: int)
    requires Inv(m, Z, fl, {})
    requires forall j :: 0 <= j < |fl| ==> Z.SizeOf(fl[j] - HEADER) < size
    ensures NoneFits(Z, size)
  {
    hide Tiled, Aligned, Merged, Nexts, Sizes, Prevs, HeadCells, Labels, Threaded;
    forall a | Z.Free(a)
      ensures Z.blocks[a].size < size
    {
      assert a + HEADER in fl;
      var j :| 0 <= j < |fl| && fl[j] == a + HEADER;
    }
  }

  // A block whose prev pointer does not lead to a free block has none before it.
  lemma Uncovered(m: Mem, Z: Zone, fl: seq<int>, x: int, p: int)
    requires Inv(m, Z, fl, {}) && x in Z.blocks && p == Get(m, x, B_PREV) && !Z.Free(p)
    ensures NoFreePred(Z, x)
  {
    HeaderWords(m, Z, fl, {}, x);
    hide Aligned, Merged, Nexts, Sizes, Prevs, HeadCells, Labels, Threaded, Listed;
    if x == Z.base { NoPredecessor(Z, x); } else { OnePredecessor(Z, x, p); }
  }

  lemma GivenFacts(Z0: Zone, m0: Mem, Z: Zone, m: Mem, b: int, x: int)
    requires Given(Z0, m0, Z, m, b, x)
    ensures Z.Used(x) && x in Z.blocks && Z.end == Z0.end && Z.base == Z0.base
  {
  }

  lemma NotItself(m: Mem, Z: Zone, fl: seq<int>, hand: set<int>, x: int)
    requires Inv(m, Z, fl, hand) && x in Z.blocks
    ensures Z.Next(x) != x
  {
    hide Aligned, Merged, Nexts, Sizes, Prevs, HeadCells, Labels, Threaded, Listed;
    NextDiffers(Z, x);
  }

  // What M_INIT has written before it frees the one block there is.
  lemma FreshZone(m: Mem, Z: Zone)
    requires Z.blocks == map[Z.base := Block(Z.end - Z.base, true)] && 0 < Z.Head() && Z.base % 4 == 0
    requires Z.end - Z.base >= MINFRAGMENT
    requires HeadersWritten(m, Zone(Z.base, map[], Z.end))
    ensures Inv(m, Z, [], {Z.base}) && Z.Used(Z.base) && NoFreeNeighbour(Z, Z.base)
  {
    assert Z.Next(Z.base) == Z.end;
    assert Ring(Z.Anchor(), []) == [Z.Anchor(), Z.Anchor()];
  }

  // ---- what the invariant means ----

  // The block list is one circle through the zone header: it meets every block
  // once, in address order, is linked both ways, and its sizes add up to the
  // size of the zone.
  lemma BlockListIsWhole(m: Mem, Z: Zone, fl: seq<int>)
    requires Inv(m, Z, fl, {})
    ensures var w := Walk(Z, Z.base);
            && |w| > 0 && Get(m, Z.Head(), B_NEXT) == w[0] && Get(m, Z.Head(), B_PREV) == w[|w| - 1]
            && Get(m, w[0], B_PREV) == Z.Head() && Get(m, w[|w| - 1], B_NEXT) == Z.Head()
            && (forall i :: 0 < i < |w| ==>
                  w[i - 1] < w[i] && Get(m, w[i - 1], B_NEXT) == w[i] && Get(m, w[i], B_PREV) == w[i - 1])
            && (forall b :: b in w <==> b in Z.blocks)
            && SumSizes(Z, w) == Get(m, Z.Head(), Z_SIZE)
  {
    hide Tiled, Aligned, Merged, Sizes, Labels, Threaded, Listed, Nexts, Prevs, HeadCells, Walk, SumSizes, Inv;
    InvParts(m, Z, fl, {});
    BlockListEnds(m, Z);
    WalkMeetsAll(Z, Z.base);
    var w := Walk(Z, Z.base);
    forall i | 0 < i < |w|
      ensures w[i - 1] < w[i] && Get(m, w[i - 1], B_NEXT) == w[i] && Get(m, w[i], B_PREV) == w[i - 1]
    {
      WalkNeighbours(m, Z, Z.base, i - 1);
      WalkNeighbours(m, Z, Z.base, i);
    }
  }

  lemma BlockListEnds(m: Mem, Z: Zone)
    requires Tiled(Z) && Nexts(m, Z) && Prevs(m, Z) && HeadCells(m, Z)
    ensures var w := Walk(Z, Z.base);
            && |w| > 0 && Get(m, Z.Head(), B_NEXT) == w[0] && Get(m, Z.Head(), B_PREV) == w[|w| - 1]
            && Get(m, w[0], B_PREV) == Z.Head() && Get(m, w[|w| - 1], B_NEXT) == Z.Head()
    ensures Z.base in Z.blocks && Get(m, Z.Head(), Z_SIZE) == Z.end - Z.base
    ensures forall b :: b in Z.blocks ==> b >= Z.base
  {
    var w := Walk(Z, Z.base);
    assert w[0] == Z.base;
    WalkLast(m, Z, Z.base);
  }

  lemma WalkLast(m: Mem, Z: Zone, a: int)
    requires Tiled(Z) && Nexts(m, Z) && Prevs(m, Z) && HeadCells(m, Z) && a in Z.blocks && |Walk(Z, a)| > 0
    ensures var last := Walk(Z, a)[|Walk(Z, a)| - 1];
            Get(m, last, B_NEXT) == Z.Head() && last == Get(m, Z.Head(), B_PREV)
  {
    hide Walk, Prevs;
    var w := Walk(Z, a);
    var last, p := w[|w| - 1], Get(m, Z.Head(), B_PREV);
    WalkMeetsAll(Z, a);
    WalkNeighbours(m, Z, a, |w| - 1);
    assert last in w;
    assert Z.Succ(last) == Z.Head() && Z.Next(last) == Z.end;
    NextsDiffer2(Z, last, p);
  }

  lemma NextsDiffer2(Z: Zone, a: int, b: int)
    requires Tiled(Z) && a in Z.blocks && b in Z.blocks && Z.Next(a) == Z.Next(b)
    ensures a == b
  {
    if a != b { NextsDiffer(Z, a, b); }
  }

  // Live payloads lie inside the zone and do not overlap, whatever the run.
  lemma PayloadsDisjoint(m: Mem, Z: Zone, fl: seq<int>, a: int, b: int)
    requires Inv(m, Z, fl, {}) && Z.Used(a) && Z.Used(b) && a != b
    ensures Z.base + HEADER <= a + HEADER < a + Z.Room(a) <= Z.end
    ensures a + Z.Room(a) <= b || b + Z.Room(b) <= a
  {
    hide Aligned, Merged, Nexts, Sizes, Prevs, HeadCells, Labels, Threaded, Listed;
  }
}
