// The moves malloc and free make on the arena: taking a free chunk, splitting
// one, carving top, and giving a chunk back with coalescing.  Each move is a
// change of shape together with the tag words that make memory say the same.

module DlMoves {
  import opened Memory
  import opened DlSizes
  import opened DlShape

  lemma FreeChunkKnows(m: Mem, A: Arena, v: int)
    requires Shape(A) && Coalesced(A) && Tags(m, A) && A.Free(v)
    ensures A.Next(v) in A.chunks && A.chunks[A.Next(v)].used && !A.chunks[A.Next(v)].prevUsed
    ensures A.chunks[v].prevUsed
  {
    if !A.chunks[v].prevUsed {
      var p := v - Get(m, v, PREV_SIZE);
      assert false;
    }
  }

  // No live payload contains a size word, a free chunk's own bytes, its
  // footer, or anything of top or of the bins.
  lemma OutsidePayloads(A: Arena, c: int, a: int)
    requires Tiled(A)
    requires c - SIZE in A.chunks || c >= A.top + SIZE || c < LOW
    ensures !InPayload(A, a, c)
  {
  }

  lemma InsideFree(A: Arena, v: int, c: int, a: int)
    requires Tiled(A) && A.Free(v) && v + SIZE <= c <= A.Next(v) + 3
    ensures !InPayload(A, a, c)
  {
    if A.Used(a) { assert a in A.chunks && v in A.chunks; }
  }

  // ---- taking a whole free chunk ----

  function Taken(A: Arena, v: int): Arena
    requires v in A.chunks && A.Next(v) in A.chunks
  {
    var n := A.Next(v);
    A.(chunks := A.chunks[v := A.chunks[v].(used := true)][n := A.chunks[n].(prevUsed := true)])
  }

  // set_inuse_bit_at_offset(v, size)
  function TakenMem(m: Mem, n: int): Mem {
    var w := Get(m, n, SIZE);
    Set(m, n, SIZE, if w % 2 == 1 then w else w + 1)
  }

  lemma TakeShape(A: Arena, v: int)
    requires Shape(A) && Coalesced(A) && A.Free(v) && A.Next(v) in A.chunks
    ensures Shape(Taken(A, v)) && Coalesced(Taken(A, v))
  {
    var B := Taken(A, v);
    forall a | a in B.chunks
      ensures B.Next(a) == B.top || B.Next(a) in B.chunks
      ensures B.Next(a) in B.chunks ==> B.chunks[B.Next(a)].prevUsed == B.chunks[a].used
      ensures B.Free(a) ==> B.Used(B.Next(a))
    {
      TakeNext(A, v, a);
    }
    hide KnowsPrev, Coalesced;
    assert Tiled(B);
  }

  lemma TakeNext(A: Arena, v: int, a: int)
    requires Shape(A) && Coalesced(A) && A.Free(v) && A.Next(v) in A.chunks && a in A.chunks
    ensures var B := Taken(A, v);
      && a in B.chunks && (B.Next(a) == B.top || B.Next(a) in B.chunks)
      && (B.Next(a) in B.chunks ==> B.chunks[B.Next(a)].prevUsed == B.chunks[a].used)
      && (B.Free(a) ==> B.Used(B.Next(a)))
  {
    var B := Taken(A, v);
    assert A.Next(a) == B.Next(a);
    assert A.Next(v) == B.Next(v);
    if a != v && A.Next(a) == A.Next(v) { assert false; }
  }

  lemma TakeHeads(m: Mem, A: Arena, v: int)
    requires Shape(A) && Aligned(A) && Coalesced(A) && Tags(m, A) && A.Free(v) && A.Next(v) in A.chunks
    ensures Heads(TakenMem(m, A.Next(v)), Taken(A, v))
  {
    var B, m' := Taken(A, v), TakenMem(m, A.Next(v));
    FreeChunkKnows(m, A, v);
    forall a | a in B.chunks
      ensures Get(m', a, SIZE) == Head(B, a)
    {
      assert Get(m, a, SIZE) == Head(A, a);
    }
  }

  lemma TakeFeet(m: Mem, A: Arena, v: int)
    requires Shape(A) && Coalesced(A) && Tags(m, A) && A.Free(v) && A.Next(v) in A.chunks
    ensures Feet(TakenMem(m, A.Next(v)), Taken(A, v))
  {
    var B, m' := Taken(A, v), TakenMem(m, A.Next(v));
    forall a | B.Free(a)
      ensures Get(m', B.Next(a), PREV_SIZE) == B.chunks[a].size
    {
      assert A.Free(a) && A.Next(a) == B.Next(a);
      assert A.Next(a) in A.chunks && A.Next(v) in A.chunks;
    }
  }

  lemma TakeBack(m: Mem, A: Arena, v: int, a: int)
    requires Shape(A) && Backs(m, A) && A.Free(v) && A.Next(v) in A.chunks
    requires a in A.chunks && a != A.Next(v) && !A.chunks[a].prevUsed
    ensures var p := a - Get(TakenMem(m, A.Next(v)), a, PREV_SIZE);
      Taken(A, v).Free(p) && Taken(A, v).Next(p) == a
  {
    var p := a - Get(m, a, PREV_SIZE);
    assert A.Free(p) && A.Next(p) == a;
  }

  lemma TakeBacks(m: Mem, A: Arena, v: int)
    requires Shape(A) && Backs(m, A) && A.Free(v) && A.Next(v) in A.chunks
    ensures Backs(TakenMem(m, A.Next(v)), Taken(A, v))
  {
    var B := Taken(A, v);
    forall a | a in B.chunks && !B.chunks[a].prevUsed
      ensures var p := a - Get(TakenMem(m, A.Next(v)), a, PREV_SIZE); B.Free(p) && B.Next(p) == a
    {
      TakeBack(m, A, v, a);
    }
  }

  lemma TakeTags(m: Mem, A: Arena, v: int)
    requires Shape(A) && Aligned(A) && Coalesced(A) && Tags(m, A) && A.Free(v) && A.Next(v) in A.chunks
    ensures Tags(TakenMem(m, A.Next(v)), Taken(A, v))
  {
    TakeHeads(m, A, v);
    TakeFeet(m, A, v);
    TakeBacks(m, A, v);
    assert LOW <= A.Next(v) < A.top;
  }

  // ---- splitting a free chunk ----

  function Split(A: Arena, v: int, nb: int): Arena
    requires v in A.chunks
  {
    var sz := A.chunks[v].size;
    A.(chunks := A.chunks[v := Chunk(nb, true, true)][v + nb := Chunk(sz - nb, false, true)])
  }

  // set_head(victim, nb | PREV_INUSE); set_head and set_foot of the remainder.
  function SplitHead(m: Mem, v: int, nb: int): Mem {
    Set(m, v, SIZE, nb + 1)
  }

  function SplitRest(m: Mem, r: int, rs: int): Mem {
    Set(Set(m, r, SIZE, rs + 1), r + rs, PREV_SIZE, rs)
  }

  ghost predicate CanSplit(A: Arena, v: int, nb: int) {
    A.Free(v) && nb >= MINSIZE && A.chunks[v].size >= nb + MINSIZE
  }

  lemma SplitTiled(A: Arena, v: int, nb: int)
    requires Tiled(A) && CanSplit(A, v, nb)
    ensures Tiled(Split(A, v, nb)) && v + nb !in A.chunks
  {
    var B := Split(A, v, nb);
    SplitApart(A, v, nb);
    forall a | a in B.chunks
      ensures B.Next(a) == B.top || B.Next(a) in B.chunks
    {
      if a == v {
        assert B.Next(v) == v + nb;
      } else if a == v + nb {
        assert B.Next(a) == A.Next(v);
      } else {
        assert B.Next(a) == A.Next(a);
      }
    }
  }

  lemma SplitApart(A: Arena, v: int, nb: int)
    requires Tiled(A) && CanSplit(A, v, nb)
    ensures v + nb !in A.chunks
    ensures var B := Split(A, v, nb); forall a, b :: a in B.chunks && b in B.chunks && a < b ==>
      a + B.chunks[a].size <= b
  {
    var B := Split(A, v, nb);
    assert v in A.chunks;
    forall a, b | a in B.chunks && b in B.chunks && a < b
      ensures a + B.chunks[a].size <= b
    {
      var a0 := if a == v + nb then v else a;
      var b0 := if b == v + nb then v else b;
      assert a0 in A.chunks && b0 in A.chunks;
    }
  }

  lemma SplitShape(m: Mem, A: Arena, v: int, nb: int)
    requires Shape(A) && Coalesced(A) && Tags(m, A) && CanSplit(A, v, nb)
    ensures Shape(Split(A, v, nb)) && Coalesced(Split(A, v, nb))
  {
    var B := Split(A, v, nb);
    var r := v + nb;
    SplitTiled(A, v, nb);
    FreeChunkKnows(m, A, v);
    assert B.Next(r) == A.Next(v) && B.Next(v) == r;
    forall a | a in B.chunks
      ensures B.Next(a) in B.chunks ==> B.chunks[B.Next(a)].prevUsed == B.chunks[a].used
      ensures B.Free(a) ==> B.Used(B.Next(a))
    {
      if a != v && a != r {
        assert B.Next(a) == A.Next(a);
        assert A.Next(a) != r by { assert A.Next(a) in A.chunks || A.Next(a) == A.top; }
      }
    }
  }

  // The tag words after the split, whatever list surgery went on in between.
  lemma SplitCells(m: Mem, m1: Mem, v: int, nb: int, sz: int, a: int)
    requires MINSIZE <= nb <= sz - MINSIZE
    requires a <= v - MINSIZE || a == v || a == v + nb || a >= v + sz
    requires Get(m1, a, SIZE) == Get(SplitHead(m, v, nb), a, SIZE)
    requires Get(m1, a, PREV_SIZE) == Get(m, a, PREV_SIZE)
    ensures var m' := SplitRest(m1, v + nb, sz - nb);
      && Get(m', a, SIZE) == (if a == v then nb + 1 else if a == v + nb then sz - nb + 1 else Get(m, a, SIZE))
      && Get(m', a, PREV_SIZE) == if a == v + sz then sz - nb else Get(m, a, PREV_SIZE)
  {
  }

  // The memory between set_head(victim) and set_head(remainder).
  ghost predicate HalfSplit(m: Mem, m1: Mem, A: Arena, v: int, nb: int)
    requires v in A.chunks
  {
    TagsKept(Split(A, v, nb), SplitHead(m, v, nb), m1)
  }

  lemma SplitCell(m: Mem, m1: Mem, A: Arena, v: int, nb: int, a: int)
    requires Tiled(A) && CanSplit(A, v, nb) && HalfSplit(m, m1, A, v, nb)
    requires a in Split(A, v, nb).chunks || a == A.top
    ensures var sz := A.chunks[v].size; var m' := SplitRest(m1, v + nb, sz - nb);
      && Get(m', a, SIZE) == (if a == v then nb + 1 else if a == v + nb then sz - nb + 1 else Get(m, a, SIZE))
      && Get(m', a, PREV_SIZE) == if a == v + sz then sz - nb else Get(m, a, PREV_SIZE)
  {
    assert a in A.chunks || a == v + nb || a == A.top;
    assert v in A.chunks;
    assert a + PREV_SIZE != v + SIZE;
    assert Get(m1, a, PREV_SIZE) == Get(SplitHead(m, v, nb), a, PREV_SIZE);
    SplitCells(m, m1, v, nb, A.chunks[v].size, a);
  }

  lemma SplitHeads(m: Mem, m1: Mem, A: Arena, v: int, nb: int)
    requires Shape(A) && Coalesced(A) && Tags(m, A) && CanSplit(A, v, nb) && HalfSplit(m, m1, A, v, nb)
    ensures Heads(SplitRest(m1, v + nb, A.chunks[v].size - nb), Split(A, v, nb))
  {
    var B, sz := Split(A, v, nb), A.chunks[v].size;
    forall a | a in B.chunks
      ensures Get(SplitRest(m1, v + nb, sz - nb), a, SIZE) == Head(B, a)
    {
      SplitCell(m, m1, A, v, nb, a);
      if a != v && a != v + nb { assert Get(m, a, SIZE) == Head(A, a); }
    }
  }

  lemma SplitFeet(m: Mem, m1: Mem, A: Arena, v: int, nb: int)
    requires Shape(A) && Coalesced(A) && Tags(m, A) && CanSplit(A, v, nb) && HalfSplit(m, m1, A, v, nb)
    ensures Feet(SplitRest(m1, v + nb, A.chunks[v].size - nb), Split(A, v, nb))
  {
    var B, sz := Split(A, v, nb), A.chunks[v].size;
    forall a | B.Free(a)
      ensures Get(SplitRest(m1, v + nb, sz - nb), B.Next(a), PREV_SIZE) == B.chunks[a].size
    {
      if a != v + nb {
        assert a in A.chunks && v in A.chunks && A.Next(a) == B.Next(a) && A.Next(a) != A.Next(v);
        assert A.Used(A.Next(a)) && A.Next(a) in A.chunks;
      } else {
        assert B.Next(a) == A.Next(v) && A.Next(v) in A.chunks;
      }
      SplitCell(m, m1, A, v, nb, B.Next(a));
    }
  }

  lemma SplitBack(m: Mem, m1: Mem, A: Arena, v: int, nb: int, a: int)
    requires Shape(A) && Coalesced(A) && Backs(m, A) && CanSplit(A, v, nb) && HalfSplit(m, m1, A, v, nb)
    requires a in A.chunks && a != v && !A.chunks[a].prevUsed
    ensures var sz := A.chunks[v].size;
      var p := a - Get(SplitRest(m1, v + nb, sz - nb), a, PREV_SIZE);
      Split(A, v, nb).Free(p) && Split(A, v, nb).Next(p) == a
  {
    var B := Split(A, v, nb);
    SplitCell(m, m1, A, v, nb, a);
    if a != A.Next(v) {
      var p := a - Get(m, a, PREV_SIZE);
      assert A.Free(p) && A.Next(p) == a && p != v;
      SplitApart(A, v, nb);
    } else {
      assert B.Next(v + nb) == a;
    }
  }

  lemma SplitBacks(m: Mem, m1: Mem, A: Arena, v: int, nb: int)
    requires Shape(A) && Coalesced(A) && Backs(m, A) && CanSplit(A, v, nb) && HalfSplit(m, m1, A, v, nb)
    ensures Backs(SplitRest(m1, v + nb, A.chunks[v].size - nb), Split(A, v, nb))
  {
    hide Shape, Coalesced, HalfSplit, SplitRest;
    SplitVictim(A, v, nb);
    var B, sz := Split(A, v, nb), A.chunks[v].size;
    forall a | a in B.chunks && !B.chunks[a].prevUsed
      ensures var p := a - Get(SplitRest(m1, v + nb, sz - nb), a, PREV_SIZE);
        B.Free(p) && B.Next(p) == a
    {
      SplitKnows(A, v, nb, a);
      SplitBack(m, m1, A, v, nb, a);
    }
  }

  lemma SplitVictim(A: Arena, v: int, nb: int)
    requires CanSplit(A, v, nb)
    ensures v in A.chunks
  {
  }

  lemma SplitKnows(A: Arena, v: int, nb: int, a: int)
    requires Shape(A) && Coalesced(A) && CanSplit(A, v, nb) && a in Split(A, v, nb).chunks
      && !Split(A, v, nb).chunks[a].prevUsed
    ensures a in A.chunks && a != v && !A.chunks[a].prevUsed
  {
  }

  lemma SplitTags(m: Mem, m1: Mem, A: Arena, v: int, nb: int)
    requires Shape(A) && Coalesced(A) && Tags(m, A) && CanSplit(A, v, nb) && HalfSplit(m, m1, A, v, nb)
    ensures Tags(SplitRest(m1, v + nb, A.chunks[v].size - nb), Split(A, v, nb))
  {
    SplitHeads(m, m1, A, v, nb);
    SplitFeet(m, m1, A, v, nb);
    SplitBacks(m, m1, A, v, nb);
    SplitCell(m, m1, A, v, nb, A.top);
    assert v >= LOW && A.Next(v) <= A.top;
  }

  // ---- carving the front of top ----

  function Carved(A: Arena, nb: int): Arena {
    A.(chunks := A.chunks[A.top := Chunk(nb, true, true)], top := A.top + nb, topSize := A.topSize - nb)
  }

  function CarvedMem(m: Mem, top: int, nb: int, rest: int): Mem {
    Set(Set(Set(m, top, SIZE, nb + 1), AV, FD, top + nb), top + nb, SIZE, rest + 1)
  }

  lemma CarveShape(A: Arena, nb: int)
    requires Shape(A) && Coalesced(A) && MINSIZE <= nb <= A.topSize - MINSIZE
    ensures Shape(Carved(A, nb)) && Coalesced(Carved(A, nb))
  {
    var B := Carved(A, nb);
    assert A.top !in A.chunks;
    assert B.Next(A.top) == B.top;
    forall a | a in B.chunks && a != A.top
      ensures B.Next(a) in B.chunks
      ensures B.chunks[B.Next(a)].prevUsed == B.chunks[a].used
      ensures B.Free(a) ==> B.Used(B.Next(a))
    {
      assert B.Next(a) == A.Next(a);
    }
  }

  lemma CarveHeads(m: Mem, A: Arena, nb: int)
    requires Shape(A) && Coalesced(A) && Tags(m, A) && MINSIZE <= nb <= A.topSize - MINSIZE
    ensures Heads(CarvedMem(m, A.top, nb, A.topSize - nb), Carved(A, nb))
  {
    var B, m' := Carved(A, nb), CarvedMem(m, A.top, nb, A.topSize - nb);
    forall a | a in B.chunks
      ensures Get(m', a, SIZE) == Head(B, a)
    {
      if a != A.top { assert Get(m, a, SIZE) == Head(A, a) && a < A.top && a >= LOW; }
    }
  }

  lemma CarveTags(m: Mem, A: Arena, nb: int)
    requires Shape(A) && Coalesced(A) && Tags(m, A) && MINSIZE <= nb <= A.topSize - MINSIZE
    ensures Tags(CarvedMem(m, A.top, nb, A.topSize - nb), Carved(A, nb))
  {
    hide Heads, Feet, Backs, Coalesced, Shape, CarvedMem, Carved;
    CarveTopWords(m, A, nb);
    CarveHeads(m, A, nb);
    CarveFeet(m, A, nb);
    CarveBacks(m, A, nb);
  }

  lemma CarveTopWords(m: Mem, A: Arena, nb: int)
    requires Shape(A) && MINSIZE <= nb <= A.topSize - MINSIZE
    ensures var B, m' := Carved(A, nb), CarvedMem(m, A.top, nb, A.topSize - nb);
            Get(m', AV, FD) == B.top && Get(m', B.top, SIZE) == B.topSize + 1
  {
  }

  lemma CarveFeet(m: Mem, A: Arena, nb: int)
    requires Shape(A) && Coalesced(A) && Feet(m, A) && MINSIZE <= nb <= A.topSize - MINSIZE
    ensures Feet(CarvedMem(m, A.top, nb, A.topSize - nb), Carved(A, nb))
  {
    var B, m' := Carved(A, nb), CarvedMem(m, A.top, nb, A.topSize - nb);
    assert A.top !in A.chunks;
    forall a | B.Free(a)
      ensures Get(m', B.Next(a), PREV_SIZE) == B.chunks[a].size
    {
      assert A.Free(a) && B.Next(a) == A.Next(a);
      assert A.Next(a) in A.chunks;
    }
  }

  lemma CarveBacks(m: Mem, A: Arena, nb: int)
    requires Shape(A) && Backs(m, A) && MINSIZE <= nb <= A.topSize - MINSIZE
    ensures Backs(CarvedMem(m, A.top, nb, A.topSize - nb), Carved(A, nb))
  {
    var B, m' := Carved(A, nb), CarvedMem(m, A.top, nb, A.topSize - nb);
    assert A.top !in A.chunks;
    forall a | a in B.chunks && !B.chunks[a].prevUsed
      ensures var p := a - Get(m', a, PREV_SIZE); B.Free(p) && B.Next(p) == a
    {
      assert a in A.chunks;
      var p := a - Get(m, a, PREV_SIZE);
      assert A.Free(p) && A.Next(p) == a;
      assert B.Next(p) == A.Next(p);
    }
  }

  lemma CarvePayloads(m: Mem, A: Arena, nb: int)
    requires Tiled(A) && MINSIZE <= nb
    ensures PayloadsKept(A, m, CarvedMem(m, A.top, nb, A.topSize - nb))
  {
    forall a, c | InPayload(A, a, c)
      ensures c != A.top + SIZE && c != AV + FD && c != A.top + nb + SIZE
    {
      OutsidePayloads(A, A.top + SIZE, a);
      OutsidePayloads(A, AV + FD, a);
      OutsidePayloads(A, A.top + nb + SIZE, a);
    }
  }

  // ---- bookkeeping words ----

  lemma TagsFrame(A: Arena, m: Mem, m': Mem)
    requires Tags(m, A) && Tiled(A) && ChunkTagsKept(A, m, m')
    ensures Tags(m', A)
  {
    forall a | a in A.chunks
      ensures Get(m', a, SIZE) == Head(A, a)
      ensures !A.chunks[a].prevUsed ==> var p := a - Get(m', a, PREV_SIZE); A.Free(p) && A.Next(p) == a
    {
      assert Get(m, a, SIZE) == Head(A, a);
      assert Get(m', a, PREV_SIZE) == Get(m, a, PREV_SIZE);
    }
    forall a | A.Free(a)
      ensures Get(m', A.Next(a), PREV_SIZE) == A.chunks[a].size
    {
      assert Get(m, A.Next(a), PREV_SIZE) == A.chunks[a].size;
    }
  }
}
