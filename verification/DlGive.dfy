// Giving a chunk back: everything from q up to e becomes one free chunk (or
// part of top), whatever chunks lay in between.

module DlGive {
  import opened Memory
  import opened LinkedLists
  import opened DlSizes
  import opened DlShape

  // One free chunk from q to e in place of the chunks that lay there.
  function Given(A: Arena, q: int, e: int): Arena
    requires e in A.chunks
  {
    A.(chunks := (map a | a in A.chunks && !(q < a < e) :: A.chunks[a])
                   [q := Chunk(e - q, false, true)]
                   [e := A.chunks[e].(prevUsed := false)])
  }

  ghost predicate CanGive(A: Arena, q: int, e: int) {
    && q in A.chunks && A.chunks[q].prevUsed
    && A.Used(e) && q < e
  }

  lemma GiveTiled(A: Arena, q: int, e: int)
    requires Tiled(A) && CanGive(A, q, e)
    ensures Tiled(Given(A, q, e))
  {
    var B := Given(A, q, e);
    assert B.Next(q) == e;
    forall a | a in B.chunks
      ensures B.Next(a) == B.top || B.Next(a) in B.chunks
    {
      if a != q {
        assert a in A.chunks && B.Next(a) == A.Next(a);
        if a < q { assert A.Next(a) <= q; }
      }
    }
    forall a, b | a in B.chunks && b in B.chunks && a < b
      ensures a + B.chunks[a].size <= b
    {
      assert a in A.chunks && b in A.chunks;
    }
  }

  lemma GiveShape(A: Arena, q: int, e: int)
    requires Shape(A) && Coalesced(A) && CanGive(A, q, e)
    ensures Shape(Given(A, q, e)) && Coalesced(Given(A, q, e))
  {
    var B := Given(A, q, e);
    GiveTiled(A, q, e);
    assert B.Next(q) == e;
    forall a | a in B.chunks && a != q
      ensures B.Next(a) in B.chunks ==> B.chunks[B.Next(a)].prevUsed == B.chunks[a].used
      ensures B.Free(a) ==> B.Used(B.Next(a))
    {
      assert a in A.chunks && B.Next(a) == A.Next(a);
      if a < q { assert A.Next(a) <= q; }
    }
  }

  // How memory must look for the tags to be right again.
  ghost predicate GivenCells(m: Mem, m': Mem, A: Arena, q: int, e: int)
    requires e in A.chunks
  {
    && Get(m', AV, FD) == A.top
    && Get(m', A.top, SIZE) == A.topSize + 1
    && Get(m', q, SIZE) == e - q + 1
    && Get(m', e, SIZE) == A.chunks[e].size
    && Get(m', e, PREV_SIZE) == e - q
    && (forall a {:trigger Get(m', a, SIZE)} :: a in A.chunks && a != q && a != e && !(q < a < e) ==>
          Get(m', a, SIZE) == Get(m, a, SIZE))
    && (forall a {:trigger Get(m', a, PREV_SIZE)} :: a in A.chunks && a != e && !(q < a < e) ==>
          Get(m', a, PREV_SIZE) == Get(m, a, PREV_SIZE))
  }

  lemma GiveHeads(m: Mem, m': Mem, A: Arena, q: int, e: int)
    requires Tiled(A) && Heads(m, A) && CanGive(A, q, e) && GivenCells(m, m', A, q, e)
    ensures Heads(m', Given(A, q, e))
  {
    var B := Given(A, q, e);
    forall a | a in B.chunks
      ensures Get(m', a, SIZE) == Head(B, a)
    {
      assert a in A.chunks;
      if a != q && a != e { assert Get(m, a, SIZE) == Head(A, a); }
    }
  }

  lemma GiveFeet(m: Mem, m': Mem, A: Arena, q: int, e: int)
    requires Shape(A) && Coalesced(A) && Feet(m, A) && CanGive(A, q, e) && GivenCells(m, m', A, q, e)
    ensures Feet(m', Given(A, q, e))
  {
    var B := Given(A, q, e);
    forall a | B.Free(a)
      ensures Get(m', B.Next(a), PREV_SIZE) == B.chunks[a].size
    {
      if a != q {
        assert A.Free(a) && B.Next(a) == A.Next(a) && A.Next(a) in A.chunks;
        if a < q { assert A.Next(a) <= q; }
        assert A.Next(a) != e by { assert q in A.chunks; }
      }
    }
  }

  lemma GiveBacks(m: Mem, m': Mem, A: Arena, q: int, e: int)
    requires Shape(A) && Backs(m, A) && CanGive(A, q, e) && GivenCells(m, m', A, q, e)
    ensures Backs(m', Given(A, q, e))
  {
    var B := Given(A, q, e);
    assert B.Next(q) == e;
    forall a | a in B.chunks && !B.chunks[a].prevUsed
      ensures var p := a - Get(m', a, PREV_SIZE); B.Free(p) && B.Next(p) == a
    {
      if a != e {
        assert a in A.chunks;
        var p := a - Get(m, a, PREV_SIZE);
        assert A.Free(p) && A.Next(p) == a;
        assert p != q && !(q < p < e) by { assert q in A.chunks && e in A.chunks; }
      }
    }
  }

  lemma GiveTags(m: Mem, m': Mem, A: Arena, q: int, e: int)
    requires Shape(A) && Coalesced(A) && Tags(m, A) && CanGive(A, q, e) && GivenCells(m, m', A, q, e)
    ensures Tags(m', Given(A, q, e))
  {
    GiveHeads(m, m', A, q, e);
    GiveFeet(m, m', A, q, e);
    GiveBacks(m, m', A, q, e);
  }

  // ---- into top ----

  function GivenTop(A: Arena, q: int): Arena {
    A.(chunks := map a | a in A.chunks && a < q :: A.chunks[a], top := q, topSize := A.topSize + (A.top - q))
  }

  lemma GiveTopShape(A: Arena, q: int)
    requires Shape(A) && Coalesced(A) && q in A.chunks && A.chunks[q].prevUsed
    ensures Shape(GivenTop(A, q)) && Coalesced(GivenTop(A, q))
  {
    var B := GivenTop(A, q);
    forall a | a in B.chunks
      ensures B.Next(a) == B.top || B.Next(a) in B.chunks
      ensures B.Next(a) in B.chunks ==> B.chunks[B.Next(a)].prevUsed == B.chunks[a].used
      ensures B.Free(a) ==> B.Used(B.Next(a))
    {
      assert a in A.chunks && B.Next(a) == A.Next(a) && A.Next(a) <= q;
    }
  }

  lemma GiveTopTags(m: Mem, m': Mem, A: Arena, q: int)
    requires Shape(A) && Coalesced(A) && Tags(m, A) && q in A.chunks && A.chunks[q].prevUsed
    requires Get(m', AV, FD) == q && Get(m', q, SIZE) == A.topSize + (A.top - q) + 1
    requires forall a {:trigger Get(m', a, SIZE)} :: a in A.chunks && a < q ==> Get(m', a, SIZE) == Get(m, a, SIZE)
    requires forall a {:trigger Get(m', a, PREV_SIZE)} :: a in A.chunks && a < q ==>
      Get(m', a, PREV_SIZE) == Get(m, a, PREV_SIZE)
    ensures Tags(m', GivenTop(A, q))
  {
    var B := GivenTop(A, q);
    forall a | a in B.chunks
      ensures Get(m', a, SIZE) == Head(B, a)
      ensures !B.chunks[a].prevUsed ==> var p := a - Get(m', a, PREV_SIZE); B.Free(p) && B.Next(p) == a
    {
      assert a in A.chunks && Get(m, a, SIZE) == Head(A, a);
      if !A.chunks[a].prevUsed {
        var p := a - Get(m, a, PREV_SIZE);
        assert A.Free(p) && A.Next(p) == a;
      }
    }
    forall a | B.Free(a)
      ensures Get(m', B.Next(a), PREV_SIZE) == B.chunks[a].size
    {
      assert A.Free(a) && B.Next(a) == A.Next(a) && A.Next(a) in A.chunks && A.Next(a) <= q;
    }
  }
}
