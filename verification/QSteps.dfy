// What the five pointer operations of qmalloc do to a zone: taking a block off
// the free list, putting one on, joining two neighbours, cutting one in two,
// and tagging one.

module QSteps {
  import opened Memory
  import opened LinkedLists
  import opened QShape

  // ---- the zone after each step ----

  function Retag(Z: Zone, x: int, used: bool): Zone
    requires x in Z.blocks
  {
    Z.(blocks := Z.blocks[x := Block(Z.blocks[x].size, used)])
  }

  // x absorbs its successor n.
  function Join(Z: Zone, x: int, n: int): Zone
    requires x in Z.blocks && n in Z.blocks && x != n
  {
    Z.(blocks := (Z.blocks - {n})[x := Block(Z.blocks[x].size + Z.blocks[n].size, true)])
  }

  // x keeps s bytes and the rest becomes a block of its own.
  function Cut(Z: Zone, x: int, s: int): Zone
    requires x in Z.blocks
  {
    Z.(blocks := Z.blocks[x := Block(s, true)][x + s := Block(Z.blocks[x].size - s, true)])
  }

  // ---- memory after each step ----

  function InsertLinks(m: Mem, anchor: int, fb: int): Mem {
    var next := Get(m, anchor, F_NEXT);
    var m1 := Set(Set(m, anchor, F_NEXT, fb), next, F_PREV, fb);
    Set(Set(m1, fb, F_PREV, anchor), fb, F_NEXT, next)
  }

  function InsertMem(m: Mem, anchor: int, x: int): Mem {
    Set(InsertLinks(m, anchor, x + HEADER), x, B_TAG, TAG_FREE)
  }

  function MergeMem(m: Mem, x: int, n: int): Mem {
    var m1 := Set(m, x, B_SIZE, Get(m, x, B_SIZE) + Get(m, n, B_SIZE));
    var m2 := Set(m1, x, B_NEXT, Get(m1, n, B_NEXT));
    Set(m2, Get(m2, x, B_NEXT), B_PREV, x)
  }

  function SplitMem(m: Mem, x: int, s: int, rest: int): Mem {
    var f := x + s;
    var m1 := Set(Set(m, f, B_SIZE, rest), f, B_PREV, x);
    var m2 := Set(m1, f, B_NEXT, Get(m1, x, B_NEXT));
    var m3 := Set(m2, Get(m2, f, B_NEXT), B_PREV, f);
    Set(Set(m3, x, B_NEXT, f), x, B_SIZE, s)
  }

  // ---- writes to link fields leave headers alone ----

  // An address the free list may run through.
  predicate ListNode(Z: Zone, y: int) {
    y == Z.Anchor() || y - HEADER in Z.blocks
  }

  ghost predicate HeadersKept(Z: Zone, m: Mem, m': Mem) {
    && (forall a, o {:trigger Get(m', a, o)} :: (a in Z.blocks || a == Z.Head()) && 0 <= o < HEADER ==>
          Get(m', a, o) == Get(m, a, o))
    && Get(m', Z.Head(), Z_SIZE) == Get(m, Z.Head(), Z_SIZE)
  }

  lemma HeadersKeptTrans(Z: Zone, m: Mem, m1: Mem, m2: Mem)
    requires HeadersKept(Z, m, m1) && HeadersKept(Z, m1, m2)
    ensures HeadersKept(Z, m, m2)
  {
  }

  lemma LinkCell(Z: Zone, y: int, off: int, a: int)
    requires Tiled(Z) && ListNode(Z, y) && (off == F_PREV || off == F_NEXT)
    requires a in Z.blocks || a == Z.Head()
    ensures y + off < a || y + off >= a + HEADER
  {
  }

  lemma LinkWrite(Z: Zone, m: Mem, y: int, off: int, v: int)
    requires Tiled(Z) && ListNode(Z, y) && (off == F_PREV || off == F_NEXT)
    ensures HeadersKept(Z, m, Set(m, y, off, v))
  {
    hide Tiled, ListNode;
    forall a, o | (a in Z.blocks || a == Z.Head()) && 0 <= o < HEADER
      ensures Get(Set(m, y, off, v), a, o) == Get(m, a, o)
    {
      LinkCell(Z, y, off, a);
    }
    assert y + off != Z.Head() + Z_SIZE by { NotTheSize(Z, y, off); }
  }

  lemma NotTheSize(Z: Zone, y: int, off: int)
    requires Tiled(Z) && ListNode(Z, y) && (off == F_PREV || off == F_NEXT)
    ensures y + off != Z.Head() + Z_SIZE
  {
  }

  lemma LinkWriteKeeps(Z: Zone, m: Mem, y: int, off: int, v: int)
    requires Tiled(Z) && ListNode(Z, y) && !Z.Used(y - HEADER) && (off == F_PREV || off == F_NEXT)
    ensures Keeps(Z, m, Z, Set(m, y, off, v))
  {
    forall a, c | InPayload(Z, a, c)
      ensures c != y + off
    {
      assert a in Z.blocks;
    }
  }

  // Headers and list header that stay as they are keep saying what they said.
  lemma WordsFrame(Z: Zone, m: Mem, m': Mem, hand: set<int>)
    requires Z.base in Z.blocks && HeadersKept(Z, m, m')
    requires Nexts(m, Z) && Sizes(m, Z) && Labels(m, Z, hand) && Prevs(m, Z) && HeadCells(m, Z)
    ensures Nexts(m', Z) && Sizes(m', Z) && Labels(m', Z, hand) && Prevs(m', Z) && HeadCells(m', Z)
  {
  }

  // ---- taking a block off the free list ----

  lemma ListEnds(m: Mem, Z: Zone, fl: seq<int>, k: nat)
    requires Threaded(m, Z, fl) && Listed(Z, fl) && k < |fl|
    ensures ListNode(Z, Get(m, fl[k], F_PREV)) && ListNode(Z, Get(m, fl[k], F_NEXT))
    ensures Get(m, fl[k], F_PREV) == Z.Anchor() || Z.Free(Get(m, fl[k], F_PREV) - HEADER)
    ensures Get(m, fl[k], F_NEXT) == Z.Anchor() || Z.Free(Get(m, fl[k], F_NEXT) - HEADER)
  {
    Neighbours(m, F_NEXT, F_PREV, Z.Anchor(), fl);
    hide Linked;
    assert Get(m, fl[k], F_NEXT) == Z.Anchor() || Get(m, fl[k], F_NEXT) in fl;
    assert Get(m, fl[k], F_PREV) == Z.Anchor() || Get(m, fl[k], F_PREV) in fl;
  }

  lemma TiledBase(Z: Zone)
    requires Tiled(Z)
    ensures Z.base in Z.blocks
  {
  }

  lemma RetagShape(Z: Zone, x: int, used: bool)
    requires Tiled(Z) && Aligned(Z) && x in Z.blocks
    ensures Tiled(Retag(Z, x, used)) && Aligned(Retag(Z, x, used))
  {
    var Z' := Retag(Z, x, used);
    forall a | a in Z'.blocks
      ensures Z'.Next(a) == Z.Next(a)
    {
    }
  }

  lemma RetagWords(m: Mem, Z: Zone, x: int, used: bool, hand: set<int>)
    requires x in Z.blocks && Z.base in Z.blocks
    requires Nexts(m, Z) && Sizes(m, Z) && Prevs(m, Z) && HeadCells(m, Z)
    ensures var Z' := Retag(Z, x, used); Nexts(m, Z') && Sizes(m, Z') && Prevs(m, Z') && HeadCells(m, Z')
  {
    var Z' := Retag(Z, x, used);
    forall a | a in Z'.blocks
      ensures Z'.Next(a) == Z.Next(a) && Z'.Succ(a) == Z.Succ(a)
    {
    }
  }

  lemma GrabMerged(Z: Zone, x: int)
    requires Merged(Z) && x in Z.blocks
    ensures Merged(Retag(Z, x, true))
  {
    var Z' := Retag(Z, x, true);
    forall a | Z'.Free(a)
      ensures !Z'.Free(Z'.Next(a))
    {
      assert Z.Free(a) && Z'.Next(a) == Z.Next(a);
    }
  }

  lemma GrabListed(Z: Zone, fl: seq<int>, x: int, k: nat)
    requires Listed(Z, fl) && k < |fl| && fl[k] == x + HEADER && x in Z.blocks
    ensures Listed(Retag(Z, x, true), RemoveAt(fl, k))
  {
    var Z' := Retag(Z, x, true);
    var q := RemoveAt(fl, k);
    assert forall i :: 0 <= i < |q| ==> q[i] == fl[if i < k then i else i + 1];
    forall f | f in q
      ensures Z'.Free(f - HEADER)
    {
      var i :| 0 <= i < |q| && q[i] == f;
      assert f == fl[if i < k then i else i + 1];
      assert f in fl && Z.Free(f - HEADER) && f != fl[k];
    }
    forall a | Z'.Free(a)
      ensures a + HEADER in q
    {
      assert Z.Free(a) && a + HEADER in fl;
      var i :| 0 <= i < |fl| && fl[i] == a + HEADER;
      assert i != k && q[if i < k then i else i - 1] == fl[i];
    }
  }

  lemma UnlinkFrame(m: Mem, Z: Zone, fl: seq<int>, k: nat)
    requires Tiled(Z) && Threaded(m, Z, fl) && Listed(Z, fl) && k < |fl|
    ensures HeadersKept(Z, m, Unlink(m, F_NEXT, F_PREV, fl[k]))
    ensures Keeps(Z, m, Z, Unlink(m, F_NEXT, F_PREV, fl[k]))
  {
    var prev := Get(m, fl[k], F_PREV);
    var next := Get(m, fl[k], F_NEXT);
    ListEnds(m, Z, fl, k);
    NotUsed(Z, prev);
    NotUsed(Z, next);
    hide Threaded, Listed, HeadersKept, Keeps, ListNode, Tiled;
    var m1 := Set(m, next, F_PREV, prev);
    LinkWrite(Z, m, next, F_PREV, prev);
    LinkWrite(Z, m1, prev, F_NEXT, next);
    HeadersKeptTrans(Z, m, m1, Set(m1, prev, F_NEXT, next));
    LinkWriteKeeps(Z, m, next, F_PREV, prev);
    LinkWriteKeeps(Z, m1, prev, F_NEXT, next);
    KeepsTrans(Z, m, Z, m1, Z, Set(m1, prev, F_NEXT, next));
  }

  lemma NotUsed(Z: Zone, y: int)
    requires Tiled(Z) && (y == Z.Anchor() || Z.Free(y - HEADER))
    ensures !Z.Used(y - HEADER)
  {
  }

  lemma GrabLabels(m: Mem, Z: Zone, hand: set<int>, x: int)
    requires Labels(m, Z, hand) && x in Z.blocks
    ensures Labels(m, Retag(Z, x, true), hand + {x})
  {
  }

  // remove_free of the block at position k of the free list.
  lemma GrabKeeps(m: Mem, Z: Zone, fl: seq<int>, hand: set<int>, x: int, k: nat)
    requires Inv(m, Z, fl, hand) && k < |fl| && fl[k] == x + HEADER && x in Z.blocks
    ensures Inv(Unlink(m, F_NEXT, F_PREV, x + HEADER), Retag(Z, x, true), RemoveAt(fl, k), hand + {x})
    ensures Keeps(Z, m, Z, Unlink(m, F_NEXT, F_PREV, x + HEADER))
  {
    hide Inv, Tiled, Aligned, Merged, Nexts, Sizes, Labels, Prevs, HeadCells, Threaded, Listed, HeadersKept, Keeps;
    InvParts(m, Z, fl, hand);
    TiledBase(Z);
    var m' := Unlink(m, F_NEXT, F_PREV, x + HEADER);
    var Z' := Retag(Z, x, true);
    UnlinkFrame(m, Z, fl, k);
    WordsFrame(Z, m, m', hand);
    RetagShape(Z, x, true);
    RetagWords(m', Z, x, true, hand);
    GrabLabels(m', Z, hand, x);
    GrabMerged(Z, x);
    GrabListed(Z, fl, x, k);
    assert Threaded(m', Z', RemoveAt(fl, k)) by {
      UnlinkThreaded(m, Z, fl, k);
      RetagThreaded(m', Z, RemoveAt(fl, k), x, true);
    }
    InvWhole(m', Z', RemoveAt(fl, k), hand + {x});
  }

  lemma UnlinkThreaded(m: Mem, Z: Zone, fl: seq<int>, k: nat)
    requires Threaded(m, Z, fl) && k < |fl|
    ensures Threaded(Unlink(m, F_NEXT, F_PREV, fl[k]), Z, RemoveAt(fl, k))
  {
    hide Linked;
    UnlinkLinked(m, F_NEXT, F_PREV, Z.Anchor(), fl, k);
  }

  lemma RetagThreaded(m: Mem, Z: Zone, fl: seq<int>, x: int, used: bool)
    requires Threaded(m, Z, fl) && x in Z.blocks
    ensures Threaded(m, Retag(Z, x, used), fl)
  {
    hide Linked;
  }

  // ---- putting a block on the free list ----

  ghost predicate NoFreeNeighbour(Z: Zone, x: int)
    requires x in Z.blocks
  {
    !Z.Free(Z.Next(x)) && forall a {:trigger Z.Next(a)} :: a in Z.blocks && Z.Next(a) == x ==> !Z.Free(a)
  }

  lemma ReleaseMerged(Z: Zone, x: int)
    requires Tiled(Z) && Merged(Z) && x in Z.blocks && NoFreeNeighbour(Z, x)
    ensures Merged(Retag(Z, x, false))
  {
    var Z' := Retag(Z, x, false);
    forall a | Z'.Free(a)
      ensures !Z'.Free(Z'.Next(a))
    {
      assert a in Z.blocks && Z'.Next(a) == Z.Next(a);
      if a != x { assert Z.Free(a); }
    }
  }

  lemma ReleaseListed(Z: Zone, fl: seq<int>, x: int)
    requires Listed(Z, fl) && Z.Used(x)
    ensures Listed(Retag(Z, x, false), InsertAt(fl, 0, x + HEADER))
  {
    var Z' := Retag(Z, x, false);
    var q := InsertAt(fl, 0, x + HEADER);
    assert q == [x + HEADER] + fl;
    assert x + HEADER !in fl by { assert !Z.Free(x); }
    forall f | f in q
      ensures Z'.Free(f - HEADER)
    {
      if f != x + HEADER { assert f in fl && Z.Free(f - HEADER); }
    }
    forall a | Z'.Free(a)
      ensures a + HEADER in q
    {
      if a != x { assert Z.Free(a) && a + HEADER in fl; }
    }
  }

  lemma FirstNode(m: Mem, Z: Zone, fl: seq<int>)
    requires Threaded(m, Z, fl)
    ensures Get(m, Z.Anchor(), F_NEXT) == if fl == [] then Z.Anchor() else fl[0]
  {
    Neighbours(m, F_NEXT, F_PREV, Z.Anchor(), fl);
  }

  lemma BlocksApart(Z: Zone, a: int, b: int)
    requires Tiled(Z) && a in Z.blocks && b in Z.blocks && a != b
    ensures a >= b + MINFRAGMENT || a + MINFRAGMENT <= b
  {
  }

  lemma NodeApart(Z: Zone, fl: seq<int>, x: int)
    requires Tiled(Z) && Listed(Z, fl) && Z.Used(x)
    ensures x + HEADER >= Z.Anchor() + 8
    ensures forall i :: 0 <= i < |fl| ==> x + HEADER >= fl[i] + 8 || x + HEADER + 8 <= fl[i]
  {
    forall i | 0 <= i < |fl|
      ensures x + HEADER >= fl[i] + 8 || x + HEADER + 8 <= fl[i]
    {
      assert fl[i] in fl && Z.Free(fl[i] - HEADER);
      BlocksApart(Z, x, fl[i] - HEADER);
    }
  }

  // The order in which insert_free writes the links does not matter.
  lemma InsertOrder(m: Mem, anchor: int, fb: int)
    requires var next := Get(m, anchor, F_NEXT);
             (fb >= anchor + 8 || fb + 8 <= anchor) && (fb >= next + 8 || fb + 8 <= next)
             && (next == anchor || next >= anchor + 8 || next + 8 <= anchor)
    ensures InsertLinks(m, anchor, fb) == LinkBetween(m, F_NEXT, F_PREV, fb, anchor, Get(m, anchor, F_NEXT))
  {
  }

  lemma TagLinked(m: Mem, Z: Zone, fl: seq<int>, x: int, tag: int)
    requires Tiled(Z) && Listed(Z, fl) && x in Z.blocks
    requires Linked(m, F_NEXT, F_PREV, Z.Anchor(), fl)
    ensures Linked(Set(m, x, B_TAG, tag), F_NEXT, F_PREV, Z.Anchor(), fl)
  {
    hide Linked;
    var m' := Set(m, x, B_TAG, tag);
    forall n | n == Z.Anchor() || n in fl
      ensures Get(m', n, F_NEXT) == Get(m, n, F_NEXT) && Get(m', n, F_PREV) == Get(m, n, F_PREV)
    {
      if n in fl {
        assert Z.Free(n - HEADER);
        if n - HEADER != x { BlocksApart(Z, x, n - HEADER); }
      }
    }
    FrameRing(m, m', F_NEXT, F_PREV, Z.Anchor(), fl);
  }

  lemma InsertAsBetween(m: Mem, Z: Zone, fl: seq<int>, x: int)
    requires Tiled(Z) && Threaded(m, Z, fl) && Listed(Z, fl) && Z.Used(x)
    ensures var first := if fl == [] then Z.Anchor() else fl[0];
            InsertLinks(m, Z.Anchor(), x + HEADER) == LinkBetween(m, F_NEXT, F_PREV, x + HEADER, Z.Anchor(), first)
  {
    FirstNode(m, Z, fl);
    NodeApart(Z, fl, x);
    assert Linked(m, F_NEXT, F_PREV, Z.Anchor(), fl);
    NodesApart(m, F_NEXT, F_PREV, Z.Anchor(), fl);
    hide Linked, Tiled, Listed, Threaded, NoDup, LinkBetween, InsertLinks;
    InsertOrder(m, Z.Anchor(), x + HEADER);
  }

  lemma InsertFirst(m: Mem, h: int, fl: seq<int>, p: int)
    requires Linked(m, F_NEXT, F_PREV, h, fl) && p >= h + 8
    requires forall i :: 0 <= i < |fl| ==> p >= fl[i] + 8 || p + 8 <= fl[i]
    ensures var first := if fl == [] then h else fl[0];
            Linked(LinkBetween(m, F_NEXT, F_PREV, p, h, first), F_NEXT, F_PREV, h, InsertAt(fl, 0, p))
  {
    hide Linked, LinkBetween, InsertAt;
    InsertLinked(m, F_NEXT, F_PREV, h, fl, 0, p);
  }

  lemma InsertThreaded(m: Mem, Z: Zone, fl: seq<int>, x: int)
    requires Tiled(Z) && Threaded(m, Z, fl) && Listed(Z, fl) && Z.Used(x)
    ensures Linked(InsertLinks(m, Z.Anchor(), x + HEADER), F_NEXT, F_PREV, Z.Anchor(), InsertAt(fl, 0, x + HEADER))
  {
    assert Linked(m, F_NEXT, F_PREV, Z.Anchor(), fl);
    InsertAsBetween(m, Z, fl, x);
    NodeApart(Z, fl, x);
    InsertFirst(m, Z.Anchor(), fl, x + HEADER);
  }

  lemma ReleaseThreaded(m: Mem, Z: Zone, fl: seq<int>, x: int)
    requires Tiled(Z) && Aligned(Z) && Threaded(m, Z, fl) && Listed(Z, fl) && Z.Used(x)
    ensures Threaded(InsertMem(m, Z.Anchor(), x), Retag(Z, x, false), InsertAt(fl, 0, x + HEADER))
  {
    hide Linked, Tiled, Listed, Aligned, InsertLinks, InsertAt;
    InsertThreaded(m, Z, fl, x);
    RetagShape(Z, x, false);
    ReleaseListed(Z, fl, x);
    TagLinked(InsertLinks(m, Z.Anchor(), x + HEADER), Retag(Z, x, false), InsertAt(fl, 0, x + HEADER), x, TAG_FREE);
  }

  lemma InsertFrame(m: Mem, Z: Zone, x: int)
    requires Tiled(Z) && Z.Free(x)
    requires var next := Get(m, Z.Anchor(), F_NEXT); next == Z.Anchor() || Z.Free(next - HEADER)
    ensures HeadersKept(Z, m, InsertLinks(m, Z.Anchor(), x + HEADER))
    ensures Keeps(Z, m, Z, InsertLinks(m, Z.Anchor(), x + HEADER))
  {
    var fb, next := x + HEADER, Get(m, Z.Anchor(), F_NEXT);
    NotUsed(Z, next);
    NotUsed(Z, Z.Anchor());
    assert ListNode(Z, next) && ListNode(Z, Z.Anchor()) && ListNode(Z, fb);
    hide HeadersKept, Keeps, ListNode, Tiled;
    var a := Set(m, Z.Anchor(), F_NEXT, fb);
    var b := Set(a, next, F_PREV, fb);
    var c := Set(b, fb, F_PREV, Z.Anchor());
    var d := Set(c, fb, F_NEXT, next);
    LinkWrite(Z, m, Z.Anchor(), F_NEXT, fb);
    LinkWrite(Z, a, next, F_PREV, fb);
    LinkWrite(Z, b, fb, F_PREV, Z.Anchor());
    LinkWrite(Z, c, fb, F_NEXT, next);
    HeadersKeptTrans(Z, m, a, b);
    HeadersKeptTrans(Z, m, b, c);
    HeadersKeptTrans(Z, m, c, d);
    LinkWriteKeeps(Z, m, Z.Anchor(), F_NEXT, fb);
    LinkWriteKeeps(Z, a, next, F_PREV, fb);
    LinkWriteKeeps(Z, b, fb, F_PREV, Z.Anchor());
    LinkWriteKeeps(Z, c, fb, F_NEXT, next);
    KeepsTrans(Z, m, Z, a, Z, b);
    KeepsTrans(Z, m, Z, b, Z, c);
    KeepsTrans(Z, m, Z, c, Z, d);
  }

  lemma TagCells(m: Mem, Z: Zone, x: int, tag: int)
    requires Tiled(Z) && x in Z.blocks
    requires Nexts(m, Z) && Sizes(m, Z) && Prevs(m, Z) && HeadCells(m, Z)
    ensures var m' := Set(m, x, B_TAG, tag); Nexts(m', Z) && Sizes(m', Z) && Prevs(m', Z) && HeadCells(m', Z)
  {
    hide Nexts, Sizes, Prevs, HeadCells;
    var m' := Set(m, x, B_TAG, tag);
    forall a | a in Z.blocks || a == Z.Head()
      ensures Get(m', a, B_NEXT) == Get(m, a, B_NEXT) && Get(m', a, B_PREV) == Get(m, a, B_PREV)
      ensures Get(m', a, B_SIZE) == Get(m, a, B_SIZE)
      ensures a == Z.Head() ==> Get(m', a, B_TAG) == Get(m, a, B_TAG) && Get(m', a, Z_SIZE) == Get(m, a, Z_SIZE)
    {
      if a in Z.blocks && a != x { BlocksApart(Z, a, x); }
    }
    TagCellsFrame(m, m', Z);
  }

  lemma TagCellsFrame(m: Mem, m': Mem, Z: Zone)
    requires Z.base in Z.blocks
    requires forall a :: a in Z.blocks || a == Z.Head() ==> Get(m', a, B_NEXT) == Get(m, a, B_NEXT)
    requires forall a :: a in Z.blocks || a == Z.Head() ==> Get(m', a, B_PREV) == Get(m, a, B_PREV)
    requires forall a :: a in Z.blocks || a == Z.Head() ==> Get(m', a, B_SIZE) == Get(m, a, B_SIZE)
    requires Get(m', Z.Head(), B_TAG) == Get(m, Z.Head(), B_TAG)
      && Get(m', Z.Head(), Z_SIZE) == Get(m, Z.Head(), Z_SIZE)
    requires Nexts(m, Z) && Sizes(m, Z) && Prevs(m, Z) && HeadCells(m, Z)
    ensures Nexts(m', Z) && Sizes(m', Z) && Prevs(m', Z) && HeadCells(m', Z)
  {
  }

  lemma TagLabels(m: Mem, Z: Zone, hand: set<int>, x: int)
    requires Tiled(Z) && x in Z.blocks && Labels(m, Z, hand + {x})
    ensures Labels(Set(m, x, B_TAG, if Z.blocks[x].used then TAG_USED else TAG_FREE), Z, hand - {x})
  {
    forall a | a in Z.blocks && a != x
      ensures a + B_TAG != x + B_TAG
    {
    }
  }

  lemma TagKeepsPayload(m: Mem, Z: Zone, x: int, tag: int)
    requires Tiled(Z) && x in Z.blocks
    ensures Keeps(Z, m, Z, Set(m, x, B_TAG, tag))
  {
    forall a, c | InPayload(Z, a, c)
      ensures c != x + B_TAG
    {
      if a != x { BlocksApart(Z, a, x); assert a in Z.blocks; }
    }
  }

  lemma ReleaseLabels(m: Mem, Z: Zone, hand: set<int>, x: int)
    requires Labels(m, Z, hand) && x in Z.blocks
    ensures Labels(m, Retag(Z, x, false), hand + {x})
  {
  }

  lemma FirstFree(m: Mem, Z: Zone, fl: seq<int>, x: int)
    requires Threaded(m, Z, fl) && Listed(Z, fl) && x in Z.blocks
    ensures var next := Get(m, Z.Anchor(), F_NEXT); next == Z.Anchor() || Retag(Z, x, false).Free(next - HEADER)
  {
    FirstNode(m, Z, fl);
    hide Threaded;
    if fl != [] { assert fl[0] in fl && Z.Free(fl[0] - HEADER); }
  }

  // insert_free of a block in hand whose neighbours are in use.
  lemma ReleaseKeeps(m: Mem, Z: Zone, fl: seq<int>, hand: set<int>, x: int)
    requires Inv(m, Z, fl, hand) && Z.Used(x) && NoFreeNeighbour(Z, x)
    ensures Inv(InsertMem(m, Z.Anchor(), x), Retag(Z, x, false), InsertAt(fl, 0, x + HEADER), hand - {x})
    ensures Keeps(Retag(Z, x, false), m, Retag(Z, x, false), InsertMem(m, Z.Anchor(), x))
  {
    hide Inv, Tiled, Aligned, Merged, Nexts, Sizes, Labels, Prevs, HeadCells, Threaded, Listed, HeadersKept, Keeps,
      NoFreeNeighbour, InsertLinks, Set, Get, InsertAt;
    InvParts(m, Z, fl, hand);
    TiledBase(Z);
    var Z' := Retag(Z, x, false);
    var m1 := InsertLinks(m, Z.Anchor(), x + HEADER);
    var m' := InsertMem(m, Z.Anchor(), x);
    assert m' == Set(m1, x, B_TAG, TAG_FREE);
    RetagShape(Z, x, false);
    RetagWords(m, Z, x, false, hand);
    ReleaseLabels(m, Z, hand, x);
    ReleaseMerged(Z, x);
    ReleaseListed(Z, fl, x);
    ReleaseThreaded(m, Z, fl, x);
    FirstFree(m, Z, fl, x);
    InsertFrame(m, Z', x);
    WordsFrame(Z', m, m1, hand + {x});
    TagCells(m1, Z', x, TAG_FREE);
    TagLabels(m1, Z', hand, x);
    TagKeepsPayload(m1, Z', x, TAG_FREE);
    KeepsTrans(Z', m, Z', m1, Z', m');
    InvWhole(m', Z', InsertAt(fl, 0, x + HEADER), hand - {x});
  }

  // block->tag = TAG_USED
  lemma TagKeeps(m: Mem, Z: Zone, fl: seq<int>, hand: set<int>, x: int)
    requires Inv(m, Z, fl, hand) && Z.Used(x)
    ensures Inv(Set(m, x, B_TAG, TAG_USED), Z, fl, hand - {x})
    ensures Keeps(Z, m, Z, Set(m, x, B_TAG, TAG_USED))
  {
    InvParts(m, Z, fl, hand);
    assert Labels(m, Z, hand + {x});
    hide Inv, Tiled, Aligned, Merged, Nexts, Sizes, Labels, Prevs, HeadCells, Listed, Keeps;
    TagCells(m, Z, x, TAG_USED);
    TagLabels(m, Z, hand, x);
    TagKeepsPayload(m, Z, x, TAG_USED);
    TagLinked(m, Z, fl, x, TAG_USED);
    InvWhole(Set(m, x, B_TAG, TAG_USED), Z, fl, hand - {x});
  }

  // ---- writes to headers leave links and payloads alone ----

  predicate HeaderNode(Z: Zone, y: int) {
    y == Z.Head() || y in Z.blocks
  }

  lemma HeaderWriteThreaded(m: Mem, Z: Zone, fl: seq<int>, y: int, off: int, v: int)
    requires Tiled(Z) && Listed(Z, fl) && HeaderNode(Z, y) && 0 <= off < HEADER
    requires Threaded(m, Z, fl)
    ensures Threaded(Set(m, y, off, v), Z, fl)
  {
    hide Linked;
    var m' := Set(m, y, off, v);
    forall n | n == Z.Anchor() || n in fl
      ensures Get(m', n, F_NEXT) == Get(m, n, F_NEXT) && Get(m', n, F_PREV) == Get(m, n, F_PREV)
    {
      if n in fl {
        assert Z.Free(n - HEADER);
        if y in Z.blocks && n - HEADER != y { BlocksApart(Z, y, n - HEADER); }
      }
    }
    FrameRing(m, m', F_NEXT, F_PREV, Z.Anchor(), fl);
  }

  lemma HeaderWriteKeeps(m: Mem, Z: Zone, y: int, off: int, v: int)
    requires Tiled(Z) && HeaderNode(Z, y) && 0 <= off < HEADER
    ensures Keeps(Z, m, Z, Set(m, y, off, v))
  {
    forall a, c | InPayload(Z, a, c)
      ensures c != y + off
    {
      assert a in Z.blocks;
    }
  }

  // Header words of different blocks, or of a block and the zone, are different cells.
  lemma HeadersApart(Z: Zone, y: int, a: int)
    requires Tiled(Z) && HeaderNode(Z, y) && HeaderNode(Z, a) && a != y
    ensures a >= y + MINFRAGMENT || a + MINFRAGMENT <= y
  {
  }

  // ---- joining two neighbours ----

  lemma JoinAligned(Z: Zone, x: int, n: int)
    requires Aligned(Z) && x in Z.blocks && n in Z.blocks && x != n
    ensures Aligned(Join(Z, x, n))
  {
  }

  lemma JoinNext(Z: Zone, x: int, n: int, a: int)
    requires Tiled(Z) && x in Z.blocks && n in Z.blocks && Z.Next(x) == n && x != n && a in Join(Z, x, n).blocks
    ensures Join(Z, x, n).Next(a) == if a == x then Z.Next(n) else Z.Next(a)
    ensures Join(Z, x, n).Next(a) == Z.end || Join(Z, x, n).Next(a) in Join(Z, x, n).blocks
  {
    if a != x { NextsDiffer(Z, a, x); NextGrows(Z, a); } else { NextGrows(Z, n); }
  }

  lemma JoinTiled(Z: Zone, x: int, n: int)
    requires Tiled(Z) && x in Z.blocks && n in Z.blocks && Z.Next(x) == n && x != n
    ensures Tiled(Join(Z, x, n))
  {
    var Z' := Join(Z, x, n);
    assert Z'.base in Z'.blocks && Z'.end == Z.end && Z'.Head() == Z.Head();
    forall a | a in Z'.blocks
      ensures Z'.Next(a) == Z'.end || Z'.Next(a) in Z'.blocks
    {
      JoinNext(Z, x, n, a);
    }
    forall a, b | a in Z'.blocks && b in Z'.blocks && a < b
      ensures a + Z'.blocks[a].size <= b
    {
      if a == x { assert x < b && n != b; }
    }
  }

  lemma JoinShape(Z: Zone, x: int, n: int)
    requires Tiled(Z) && Aligned(Z) && x in Z.blocks && n in Z.blocks && Z.Next(x) == n
    ensures Tiled(Join(Z, x, n)) && Aligned(Join(Z, x, n))
  {
    NextGrows(Z, x);
    hide Tiled, Aligned, Join;
    JoinTiled(Z, x, n);
    JoinAligned(Z, x, n);
  }

  lemma NextGrows(Z: Zone, n: int)
    requires Tiled(Z) && n in Z.blocks
    ensures Z.Next(n) > n && (Z.Next(n) == Z.end || Z.Next(n) in Z.blocks)
  {
  }

  lemma NextsDiffer(Z: Zone, a: int, b: int)
    requires Tiled(Z) && a in Z.blocks && b in Z.blocks && a != b
    ensures Z.Next(a) != Z.Next(b)
  {
  }

  lemma JoinMerged(Z: Zone, x: int, n: int)
    requires Merged(Z) && Z.Used(x) && Z.Used(n) && x != n
    ensures Merged(Join(Z, x, n))
  {
    var Z' := Join(Z, x, n);
    forall a | Z'.Free(a)
      ensures !Z'.Free(Z'.Next(a))
    {
      assert Z.Free(a) && Z'.Next(a) == Z.Next(a);
    }
  }

  lemma JoinListed(Z: Zone, fl: seq<int>, x: int, n: int)
    requires Listed(Z, fl) && Z.Used(x) && Z.Used(n) && x != n
    ensures Listed(Join(Z, x, n), fl)
  {
    var Z' := Join(Z, x, n);
    forall a
      ensures Z'.Free(a) <==> Z.Free(a)
    {
    }
  }

  // What merge_block leaves in the headers of Z', written out.
  ghost predicate JoinCells(m: Mem, m': Mem, Z: Zone, x: int, n: int)
    requires x in Z.blocks && n in Z.blocks
  {
    && Get(m', x, B_SIZE) == Z.blocks[x].size + Z.blocks[n].size
    && Get(m', x, B_NEXT) == Z.Succ(n)
    && Get(m', Z.Succ(n), B_PREV) == x
    && Get(m', x, B_TAG) == Get(m, x, B_TAG)
    && (x != Z.Succ(n) ==> Get(m', x, B_PREV) == Get(m, x, B_PREV))
    && (forall a, o {:trigger Get(m', a, o)} ::
          (a == Z.Head() || a in Z.blocks) && a != x && a != n && 0 <= o < HEADER
            && !(a == Z.Succ(n) && o == B_PREV) ==>
            Get(m', a, o) == Get(m, a, o))
    && Get(m', Z.Head(), Z_SIZE) == Get(m, Z.Head(), Z_SIZE)
  }

  lemma MergeWrites(m: Mem, Z: Zone, x: int, n: int)
    requires Tiled(Z) && Nexts(m, Z) && Sizes(m, Z) && x in Z.blocks && n in Z.blocks && Z.Next(x) == n
    ensures MergeMem(m, x, n) ==
            Set(Set(Set(m, x, B_SIZE, Z.blocks[x].size + Z.blocks[n].size), x, B_NEXT, Z.Succ(n)), Z.Succ(n), B_PREV, x)
    ensures Z.Succ(n) == Z.Head() || Z.Succ(n) in Z.blocks
    ensures Z.Succ(n) != x && Z.Succ(n) != n
  {
    NextGrows(Z, n);
    NextGrows(Z, x);
  }

  lemma MergeCells(m: Mem, Z: Zone, x: int, n: int)
    requires Tiled(Z) && Nexts(m, Z) && Sizes(m, Z) && x in Z.blocks && n in Z.blocks && Z.Next(x) == n
    ensures JoinCells(m, MergeMem(m, x, n), Z, x, n)
  {
    MergeWrites(m, Z, x, n);
    HeadersApart(Z, x, Z.Succ(n));
    hide MergeMem, Nexts, Sizes, Set, Get;
    var m' := MergeMem(m, x, n);
    forall a, o | (a == Z.Head() || a in Z.blocks) && a != x && a != n && 0 <= o < HEADER
      && !(a == Z.Succ(n) && o == B_PREV)
      ensures Get(m', a, o) == Get(m, a, o)
    {
      HeadersApart(Z, x, a);
      if a != Z.Succ(n) { HeadersApart(Z, Z.Succ(n), a); }
    }
    assert x >= Z.Head() + ZONE_HEADER;
  }

  lemma JoinNexts(m: Mem, m': Mem, Z: Zone, x: int, n: int)
    requires Tiled(Z) && Nexts(m, Z) && x in Z.blocks && n in Z.blocks && Z.Next(x) == n && JoinCells(m, m', Z, x, n)
    ensures Nexts(m', Join(Z, x, n))
  {
    var Z' := Join(Z, x, n);
    forall a | a in Z'.blocks
      ensures Get(m', a, B_NEXT) == Z'.Succ(a)
    {
      if a == x {
        assert Z'.Next(x) == Z.Next(n);
      } else {
        assert Get(m, a, B_NEXT) == Z.Succ(a) && Z'.Next(a) == Z.Next(a);
      }
    }
  }

  lemma JoinSizes(m: Mem, m': Mem, Z: Zone, x: int, n: int)
    requires Sizes(m, Z) && x in Z.blocks && n in Z.blocks && x != n && JoinCells(m, m', Z, x, n)
    ensures Sizes(m', Join(Z, x, n))
  {
  }

  lemma JoinLabels(m: Mem, m': Mem, Z: Zone, hand: set<int>, x: int, n: int)
    requires Labels(m, Z, hand) && Z.Used(x) && n in Z.blocks && x != n && JoinCells(m, m', Z, x, n)
    ensures Labels(m', Join(Z, x, n), hand - {n})
  {
    var Z' := Join(Z, x, n);
    forall a | a in Z'.blocks && a !in hand - {n}
      ensures Get(m', a, B_TAG) == if Z'.blocks[a].used then TAG_USED else TAG_FREE
    {
      assert a in Z.blocks && a !in hand;
      assert Get(m, a, B_TAG) == if Z.blocks[a].used then TAG_USED else TAG_FREE;
    }
  }

  lemma JoinPrevs(m: Mem, m': Mem, Z: Zone, x: int, n: int)
    requires Tiled(Z) && Prevs(m, Z) && x in Z.blocks && n in Z.blocks && Z.Next(x) == n && JoinCells(m, m', Z, x, n)
    ensures Prevs(m', Join(Z, x, n))
  {
    var Z' := Join(Z, x, n);
    assert Z'.Next(x) == Z.Next(n);
    NextGrows(Z, n);
    forall a | a in Z'.blocks && a != Z'.base
      ensures var p := Get(m', a, B_PREV); p in Z'.blocks && Z'.Next(p) == a
    {
      if a != Z.Next(n) {
        var p := Get(m, a, B_PREV);
        assert p in Z.blocks && Z.Next(p) == a && p != x && p != n;
        assert Z'.Next(p) == a;
        if a == x { assert Z.Succ(n) != x; }
      }
    }
    if Z.base == x { assert Z.Succ(n) != x; }
    assert Z.Succ(n) != Z.base;
  }

  lemma JoinHead(m: Mem, m': Mem, Z: Zone, x: int, n: int)
    requires Tiled(Z) && HeadCells(m, Z) && x in Z.blocks && n in Z.blocks && Z.Next(x) == n
      && JoinCells(m, m', Z, x, n)
    ensures HeadCells(m', Join(Z, x, n))
  {
    var Z' := Join(Z, x, n);
    assert Z'.Next(x) == Z.Next(n);
    if Z.Next(n) != Z.end {
      var p := Get(m, Z.Head(), B_PREV);
      assert p in Z.blocks && Z.Next(p) == Z.end;
      NextsDiffer(Z, p, n);
      assert p != x && Z'.Next(p) == Z.end;
    }
  }

  lemma JoinFrame(m: Mem, Z: Zone, fl: seq<int>, x: int, n: int)
    requires Tiled(Z) && Nexts(m, Z) && Sizes(m, Z) && x in Z.blocks && n in Z.blocks && Z.Next(x) == n
    requires var Z' := Join(Z, x, n); Tiled(Z') && Listed(Z', fl) && Threaded(m, Z', fl)
    ensures Threaded(MergeMem(m, x, n), Join(Z, x, n), fl)
    ensures Keeps(Join(Z, x, n), m, Join(Z, x, n), MergeMem(m, x, n))
  {
    var Z' := Join(Z, x, n);
    MergeWrites(m, Z, x, n);
    var s := Z.Succ(n);
    assert HeaderNode(Z', x) && HeaderNode(Z', s);
    hide Tiled, Nexts, Sizes, Listed, Threaded, Keeps, HeaderNode, MergeMem, Set, Get;
    var m1 := Set(m, x, B_SIZE, Z.blocks[x].size + Z.blocks[n].size);
    var m2 := Set(m1, x, B_NEXT, s);
    var m3 := Set(m2, s, B_PREV, x);
    HeaderStep(m, m, Z', fl, x, B_SIZE, Z.blocks[x].size + Z.blocks[n].size);
    HeaderStep(m, m1, Z', fl, x, B_NEXT, s);
    HeaderStep(m, m2, Z', fl, s, B_PREV, x);
  }

  // merge_block of a block in use with its successor, also in use or in hand.
  lemma JoinKeeps(m: Mem, Z: Zone, fl: seq<int>, hand: set<int>, x: int, n: int)
    requires Inv(m, Z, fl, hand) && Z.Used(x) && Z.Used(n) && Z.Next(x) == n
    ensures x != n
    ensures Inv(MergeMem(m, x, n), Join(Z, x, n), fl, hand - {n})
    ensures Keeps(Join(Z, x, n), m, Join(Z, x, n), MergeMem(m, x, n))
  {
    hide Inv, Tiled, Aligned, Merged, Nexts, Sizes, Labels, Prevs, HeadCells, Threaded, Listed, Keeps, JoinCells,
      MergeMem;
    InvParts(m, Z, fl, hand);
    NextGrows(Z, x);
    var Z' := Join(Z, x, n);
    var m' := MergeMem(m, x, n);
    JoinShape(Z, x, n);
    JoinMerged(Z, x, n);
    JoinListed(Z, fl, x, n);
    MergeCells(m, Z, x, n);
    JoinNexts(m, m', Z, x, n);
    JoinSizes(m, m', Z, x, n);
    JoinLabels(m, m', Z, hand, x, n);
    JoinPrevs(m, m', Z, x, n);
    JoinHead(m, m', Z, x, n);
    assert Threaded(m, Z', fl) by { JoinThreaded(m, Z, fl, x, n); }
    JoinFrame(m, Z, fl, x, n);
    InvWhole(m', Z', fl, hand - {n});
  }

  lemma JoinThreaded(m: Mem, Z: Zone, fl: seq<int>, x: int, n: int)
    requires Threaded(m, Z, fl) && x in Z.blocks && n in Z.blocks && x != n
    ensures Threaded(m, Join(Z, x, n), fl)
  {
    hide Linked;
  }

  // ---- cutting a block in two ----

  predicate CanCut(Z: Zone, x: int, s: int) {
    Z.Used(x) && s % 4 == 0 && MINFRAGMENT <= s <= Z.blocks[x].size - MINFRAGMENT
  }

  lemma CutFresh(Z: Zone, x: int, s: int)
    requires Tiled(Z) && x in Z.blocks && 0 < s < Z.blocks[x].size
    ensures x + s !in Z.blocks && x + s != Z.Head() && x + s != Z.end
    ensures forall a :: a in Z.blocks && a != x ==> a >= x + Z.blocks[x].size || a + Z.blocks[a].size <= x
  {
  }

  lemma CutAligned(Z: Zone, x: int, s: int)
    requires Aligned(Z) && CanCut(Z, x, s)
    ensures Aligned(Cut(Z, x, s))
  {
    assert (x + s) % 4 == 0;
  }

  lemma CutNext(Z: Zone, x: int, s: int, a: int)
    requires Tiled(Z) && CanCut(Z, x, s) && a in Cut(Z, x, s).blocks
    ensures Cut(Z, x, s).Next(a) == if a == x then x + s else if a == x + s then Z.Next(x) else Z.Next(a)
    ensures Cut(Z, x, s).Next(a) == Z.end || Cut(Z, x, s).Next(a) in Cut(Z, x, s).blocks
  {
    if a == x + s { NextGrows(Z, x); } else if a != x { NextGrows(Z, a); }
  }

  lemma CutTiled(Z: Zone, x: int, s: int)
    requires Tiled(Z) && CanCut(Z, x, s)
    ensures Tiled(Cut(Z, x, s))
  {
    var Z' := Cut(Z, x, s);
    CutFresh(Z, x, s);
    assert Z'.base in Z'.blocks && Z'.end == Z.end && Z'.Head() == Z.Head();
    forall a | a in Z'.blocks
      ensures Z'.Next(a) == Z'.end || Z'.Next(a) in Z'.blocks
    {
      CutNext(Z, x, s, a);
    }
    forall a, b | a in Z'.blocks && b in Z'.blocks && a < b
      ensures a + Z'.blocks[a].size <= b
    {
      CutPair(Z, x, s, a, b);
    }
  }

  lemma CutPair(Z: Zone, x: int, s: int, a: int, b: int)
    requires Tiled(Z) && CanCut(Z, x, s)
    requires a in Cut(Z, x, s).blocks && b in Cut(Z, x, s).blocks && a < b
    ensures a + Cut(Z, x, s).blocks[a].size <= b
  {
    CutFresh(Z, x, s);
  }

  lemma CutShape(Z: Zone, x: int, s: int)
    requires Tiled(Z) && Aligned(Z) && CanCut(Z, x, s)
    ensures Tiled(Cut(Z, x, s)) && Aligned(Cut(Z, x, s))
  {
    assert Z.Used(x);
    hide Tiled, Aligned, Cut, CanCut;
    CutTiled(Z, x, s);
    CutAligned(Z, x, s);
  }

  lemma CutMerged(Z: Zone, x: int, s: int)
    requires Tiled(Z) && Merged(Z) && CanCut(Z, x, s)
    ensures Merged(Cut(Z, x, s))
  {
    var Z' := Cut(Z, x, s);
    CutFresh(Z, x, s);
    forall a | Z'.Free(a)
      ensures !Z'.Free(Z'.Next(a))
    {
      assert Z.Free(a) && Z'.Next(a) == Z.Next(a);
    }
  }

  lemma CutListed(Z: Zone, fl: seq<int>, x: int, s: int)
    requires Tiled(Z) && Listed(Z, fl) && CanCut(Z, x, s)
    ensures Listed(Cut(Z, x, s), fl)
  {
    var Z' := Cut(Z, x, s);
    CutFresh(Z, x, s);
    forall a
      ensures Z'.Free(a) <==> Z.Free(a)
    {
    }
  }

  ghost predicate CutCells(m: Mem, m': Mem, Z: Zone, x: int, s: int)
    requires x in Z.blocks
  {
    var f := x + s;
    && Get(m', f, B_SIZE) == Z.blocks[x].size - s && Get(m', f, B_PREV) == x && Get(m', f, B_NEXT) == Z.Succ(x)
    && Get(m', x, B_SIZE) == s && Get(m', x, B_NEXT) == f && Get(m', Z.Succ(x), B_PREV) == f
    && Get(m', x, B_TAG) == Get(m, x, B_TAG) && Get(m', x, B_PREV) == Get(m, x, B_PREV)
    && (forall a, o {:trigger Get(m', a, o)} ::
          (a == Z.Head() || a in Z.blocks) && a != x && 0 <= o < HEADER && !(a == Z.Succ(x) && o == B_PREV) ==>
            Get(m', a, o) == Get(m, a, o))
    && Get(m', Z.Head(), Z_SIZE) == Get(m, Z.Head(), Z_SIZE)
  }

  function SplitWrites(m: Mem, x: int, s: int, rest: int, next: int): Mem {
    var f := x + s;
    var m1 := Set(Set(Set(m, f, B_SIZE, rest), f, B_PREV, x), f, B_NEXT, next);
    Set(Set(Set(m1, next, B_PREV, f), x, B_NEXT, f), x, B_SIZE, s)
  }

  lemma SplitAsWrites(m: Mem, Z: Zone, x: int, s: int)
    requires Tiled(Z) && Nexts(m, Z) && CanCut(Z, x, s)
    ensures SplitMem(m, x, s, Z.blocks[x].size - s) == SplitWrites(m, x, s, Z.blocks[x].size - s, Z.Succ(x))
    ensures (Z.Succ(x) == Z.Head() || Z.Succ(x) in Z.blocks) && Z.Succ(x) != x
  {
    NextGrows(Z, x);
    assert Get(m, x, B_NEXT) == Z.Succ(x);
  }

  lemma SplitCells(m: Mem, Z: Zone, x: int, s: int)
    requires Tiled(Z) && CanCut(Z, x, s)
    requires (Z.Succ(x) == Z.Head() || Z.Succ(x) in Z.blocks) && Z.Succ(x) != x
    ensures CutCells(m, SplitWrites(m, x, s, Z.blocks[x].size - s, Z.Succ(x)), Z, x, s)
  {
    HeadersApart(Z, x, Z.Succ(x));
    CutApart(Z, x, s, Z.Succ(x));
    hide Get, Set;
    var m' := SplitWrites(m, x, s, Z.blocks[x].size - s, Z.Succ(x));
    forall a, o | (a == Z.Head() || a in Z.blocks) && a != x && 0 <= o < HEADER && !(a == Z.Succ(x) && o == B_PREV)
      ensures Get(m', a, o) == Get(m, a, o)
    {
      HeadersApart(Z, x, a);
      CutApart(Z, x, s, a);
      if a != Z.Succ(x) { HeadersApart(Z, Z.Succ(x), a); }
    }
    assert x >= Z.Head() + ZONE_HEADER;
  }

  lemma CutApart(Z: Zone, x: int, s: int, a: int)
    requires Tiled(Z) && CanCut(Z, x, s) && HeaderNode(Z, a) && a != x
    ensures a >= x + s + MINFRAGMENT || a + MINFRAGMENT <= x + s
  {
  }

  lemma CutNexts(m: Mem, m': Mem, Z: Zone, x: int, s: int)
    requires Tiled(Z) && Nexts(m, Z) && CanCut(Z, x, s) && CutCells(m, m', Z, x, s)
    ensures Nexts(m', Cut(Z, x, s))
  {
    var Z' := Cut(Z, x, s);
    CutFresh(Z, x, s);
    forall a | a in Z'.blocks
      ensures Get(m', a, B_NEXT) == Z'.Succ(a)
    {
      if a == x {
        assert Z'.Next(x) == x + s;
      } else if a == x + s {
        assert Z'.Next(a) == Z.Next(x);
      } else {
        assert Get(m, a, B_NEXT) == Z.Succ(a) && Z'.Next(a) == Z.Next(a);
      }
    }
  }

  lemma CutSizes(m: Mem, m': Mem, Z: Zone, x: int, s: int)
    requires Sizes(m, Z) && CanCut(Z, x, s) && CutCells(m, m', Z, x, s)
    ensures Sizes(m', Cut(Z, x, s))
  {
  }

  lemma CutLabels(m: Mem, m': Mem, Z: Zone, hand: set<int>, x: int, s: int)
    requires Labels(m, Z, hand) && CanCut(Z, x, s) && CutCells(m, m', Z, x, s)
    ensures Labels(m', Cut(Z, x, s), hand + {x + s})
  {
    var Z' := Cut(Z, x, s);
    forall a | a in Z'.blocks && a !in hand + {x + s}
      ensures Get(m', a, B_TAG) == if Z'.blocks[a].used then TAG_USED else TAG_FREE
    {
      assert Get(m, a, B_TAG) == if Z.blocks[a].used then TAG_USED else TAG_FREE;
    }
  }

  lemma CutPrevs(m: Mem, m': Mem, Z: Zone, x: int, s: int)
    requires Tiled(Z) && Prevs(m, Z) && CanCut(Z, x, s) && CutCells(m, m', Z, x, s)
    ensures Prevs(m', Cut(Z, x, s))
  {
    var Z' := Cut(Z, x, s);
    CutFresh(Z, x, s);
    NextGrows(Z, x);
    assert Z'.Next(x) == x + s && Z'.Next(x + s) == Z.Next(x);
    forall a | a in Z'.blocks && a != Z'.base
      ensures var p := Get(m', a, B_PREV); p in Z'.blocks && Z'.Next(p) == a
    {
      if a != x + s && a != Z.Next(x) {
        var p := Get(m, a, B_PREV);
        assert p in Z.blocks && Z.Next(p) == a && p != x;
        assert Z'.Next(p) == a;
      }
    }
  }

  lemma CutHead(m: Mem, m': Mem, Z: Zone, x: int, s: int)
    requires Tiled(Z) && HeadCells(m, Z) && CanCut(Z, x, s) && CutCells(m, m', Z, x, s)
    ensures HeadCells(m', Cut(Z, x, s))
  {
    var Z' := Cut(Z, x, s);
    CutFresh(Z, x, s);
    assert Z'.Next(x + s) == Z.Next(x);
    if Z.Next(x) != Z.end {
      var p := Get(m, Z.Head(), B_PREV);
      assert p in Z.blocks && Z.Next(p) == Z.end && p != x && Z'.Next(p) == Z.end;
    }
  }

  lemma CutFrame(m: Mem, Z: Zone, fl: seq<int>, x: int, s: int, rest: int, next: int)
    requires CanCut(Z, x, s) && (next == Z.Head() || next in Z.blocks)
    requires var Z' := Cut(Z, x, s); Tiled(Z') && Listed(Z', fl) && Threaded(m, Z', fl)
    ensures Threaded(SplitWrites(m, x, s, rest, next), Cut(Z, x, s), fl)
    ensures Keeps(Cut(Z, x, s), m, Cut(Z, x, s), SplitWrites(m, x, s, rest, next))
  {
    var Z' := Cut(Z, x, s);
    assert HeaderNode(Z', x) && HeaderNode(Z', x + s) && HeaderNode(Z', next);
    hide Tiled, Listed, Threaded, Keeps, HeaderNode, Set, Get, Cut;
    var f := x + s;
    var m1 := Set(m, f, B_SIZE, rest);
    var m2 := Set(m1, f, B_PREV, x);
    var m3 := Set(m2, f, B_NEXT, next);
    var m4 := Set(m3, next, B_PREV, f);
    var m5 := Set(m4, x, B_NEXT, f);
    var m6 := Set(m5, x, B_SIZE, s);
    HeaderStep(m, m, Z', fl, f, B_SIZE, rest);
    HeaderStep(m, m1, Z', fl, f, B_PREV, x);
    HeaderStep(m, m2, Z', fl, f, B_NEXT, next);
    HeaderStep(m, m3, Z', fl, next, B_PREV, f);
    HeaderStep(m, m4, Z', fl, x, B_NEXT, f);
    HeaderStep(m, m5, Z', fl, x, B_SIZE, s);
  }

  lemma HeaderStep(m: Mem, m1: Mem, Z: Zone, fl: seq<int>, y: int, off: int, v: int)
    requires Tiled(Z) && Listed(Z, fl) && HeaderNode(Z, y) && 0 <= off < HEADER
    requires Threaded(m1, Z, fl) && (m == m1 || Keeps(Z, m, Z, m1))
    ensures Threaded(Set(m1, y, off, v), Z, fl) && Keeps(Z, m, Z, Set(m1, y, off, v))
  {
    hide Tiled, Listed, Threaded, Keeps, HeaderNode, Set, Get;
    HeaderWriteThreaded(m1, Z, fl, y, off, v);
    HeaderWriteKeeps(m1, Z, y, off, v);
    if m != m1 { KeepsTrans(Z, m, Z, m1, Z, Set(m1, y, off, v)); }
  }

  lemma CutThreaded(m: Mem, Z: Zone, fl: seq<int>, x: int, s: int)
    requires Threaded(m, Z, fl) && x in Z.blocks
    ensures Threaded(m, Cut(Z, x, s), fl)
  {
    hide Linked;
  }

  lemma CutWords(m: Mem, m': Mem, Z: Zone, hand: set<int>, x: int, s: int)
    requires Tiled(Z) && CanCut(Z, x, s) && Z.Used(x) && CutCells(m, m', Z, x, s)
    requires Nexts(m, Z) && Sizes(m, Z) && Labels(m, Z, hand) && Prevs(m, Z) && HeadCells(m, Z)
    ensures var Z' := Cut(Z, x, s);
            Nexts(m', Z') && Sizes(m', Z') && Labels(m', Z', hand + {x + s}) && Prevs(m', Z') && HeadCells(m', Z')
  {
    hide Tiled, Nexts, Sizes, Labels, Prevs, HeadCells, CutCells, CanCut, Cut;
    CutNexts(m, m', Z, x, s);
    CutSizes(m, m', Z, x, s);
    CutLabels(m, m', Z, hand, x, s);
    CutPrevs(m, m', Z, x, s);
    CutHead(m, m', Z, x, s);
  }

  // split_block of a block in use; the fragment is in hand.
  lemma CutKeeps(m: Mem, Z: Zone, fl: seq<int>, hand: set<int>, x: int, s: int)
    requires Inv(m, Z, fl, hand) && CanCut(Z, x, s)
    ensures Inv(SplitMem(m, x, s, Z.blocks[x].size - s), Cut(Z, x, s), fl, hand + {x + s})
    ensures Keeps(Cut(Z, x, s), m, Cut(Z, x, s), SplitMem(m, x, s, Z.blocks[x].size - s))
  {
    hide Inv, Tiled, Aligned, Merged, Nexts, Sizes, Labels, Prevs, HeadCells, Threaded, Listed, Keeps, CutCells,
      SplitMem, SplitWrites, CanCut, Cut, Zone.Succ, Zone.Next, Set, Get;
    InvParts(m, Z, fl, hand);
    CutFacts(Z, x, s);
    var Z' := Cut(Z, x, s);
    var rest := Z.blocks[x].size - s;
    var m' := SplitMem(m, x, s, rest);
    CutShape(Z, x, s);
    CutMerged(Z, x, s);
    CutListed(Z, fl, x, s);
    SplitAsWrites(m, Z, x, s);
    SplitCells(m, Z, x, s);
    CutWords(m, m', Z, hand, x, s);
    CutThreaded(m, Z, fl, x, s);
    CutFrame(m, Z, fl, x, s, rest, Z.Succ(x));
    InvWhole(m', Z', fl, hand + {x + s});
  }

  // ---- cutting off what is not needed and freeing it ----

  function Carved(Z: Zone, x: int, s: int): Zone
    requires x in Z.blocks
  {
    if Z.blocks[x].size - s >= MINFRAGMENT then Retag(Cut(Z, x, s), x + s, false) else Z
  }

  function CarvedMem(m: Mem, Z: Zone, x: int, s: int): Mem
    requires x in Z.blocks
  {
    if Z.blocks[x].size - s >= MINFRAGMENT
    then InsertMem(SplitMem(m, x, s, Z.blocks[x].size - s), Z.Anchor(), x + s)
    else m
  }

  function CarvedList(Z: Zone, fl: seq<int>, x: int, s: int): seq<int>
    requires x in Z.blocks
  {
    if Z.blocks[x].size - s >= MINFRAGMENT then InsertAt(fl, 0, x + s + HEADER) else fl
  }

  lemma CutNeighbours(Z: Zone, x: int, s: int)
    requires Tiled(Z) && CanCut(Z, x, s) && !Z.Free(Z.Next(x))
    ensures x + s in Cut(Z, x, s).blocks && NoFreeNeighbour(Cut(Z, x, s), x + s)
  {
    var Z' := Cut(Z, x, s);
    CutFresh(Z, x, s);
    NextGrows(Z, x);
    forall a | a in Z'.blocks && Z'.Next(a) == x + s
      ensures !Z'.Free(a)
    {
      CutNext(Z, x, s, a);
      if a != x && a != x + s { NextGrows(Z, a); }
    }
    CutNext(Z, x, s, x + s);
  }

  // Only the block at x changes its room, to s.
  ghost predicate Rooms(Z: Zone, Z': Zone, x: int, s: int) {
    forall a {:trigger Z'.Room(a)} :: Z'.Room(a) == if a == x then s else Z.Room(a)
  }

  lemma CarveRooms(Z: Zone, x: int, s: int)
    requires Tiled(Z) && Z.Used(x) && MINFRAGMENT <= s <= Z.blocks[x].size && s % 4 == 0
    ensures Rooms(Z, Carved(Z, x, s), x, if Z.blocks[x].size - s >= MINFRAGMENT then s else Z.blocks[x].size)
  {
    if Z.blocks[x].size - s >= MINFRAGMENT { CutFresh(Z, x, s); }
  }

  lemma KeepsVia(Z: Zone, m: Mem, Y: Zone, Z': Zone, m': Mem)
    requires Keeps(Y, m, Y, m') && (Y == Z || Y == Z')
    ensures Keeps(Z, m, Z', m')
  {
  }

  lemma KeepsBoth(Z: Zone, m: Mem, Y: Zone, m1: Mem, Z': Zone, m2: Mem)
    requires Keeps(Y, m, Y, m1) && Keeps(Z', m1, Z', m2)
    requires forall a :: Y.Room(a) >= Z'.Room(a)
    ensures Keeps(Z, m, Z', m2)
  {
    hide Keeps, Zone.Room;
    KeepsVia(Z, m, Y, Y, m1);
    KeepsVia(Y, m1, Z', Z', m2);
    KeepsTrans(Z, m, Y, m1, Z', m2);
  }

  lemma SetBack(hand: set<int>, f: int)
    requires f !in hand
    ensures hand + {f} - {f} == hand
  {
  }

  lemma CutReleaseKeeps(m: Mem, Z: Zone, fl: seq<int>, hand: set<int>, x: int, s: int)
    requires Inv(m, Z, fl, hand) && CanCut(Z, x, s) && x in Z.blocks
    requires !Z.Free(Z.Next(x)) && x + s !in hand
    ensures Inv(CarvedMem(m, Z, x, s), Carved(Z, x, s), CarvedList(Z, fl, x, s), hand)
    ensures Keeps(Z, m, Carved(Z, x, s), CarvedMem(m, Z, x, s))
  {
    hide Inv, Tiled, Aligned, Merged, Nexts, Sizes, Labels, Prevs, HeadCells, Threaded, Listed, Keeps, CanCut,
      InsertMem, SplitMem, NoFreeNeighbour, Cut, Retag, InsertAt, Zone.Room, Zone.Free, Zone.Used, Zone.Next,
      Zone.Anchor;
    InvParts(m, Z, fl, hand);
    CutFacts(Z, x, s);
    var Y := Cut(Z, x, s);
    CutNeighbours(Z, x, s);
    CarveRoomsBetween(Z, x, s);
    var m1 := SplitMem(m, x, s, Z.blocks[x].size - s);
    CutKeeps(m, Z, fl, hand, x, s);
    ReleaseKeeps(m1, Y, fl, hand + {x + s}, x + s);
    SetBack(hand, x + s);
    var Z' := Retag(Y, x + s, false);
    var m2 := InsertMem(m1, Z.Anchor(), x + s);
    KeepsBoth(Z, m, Y, m1, Z', m2);
  }

  lemma CutFacts(Z: Zone, x: int, s: int)
    requires CanCut(Z, x, s)
    ensures Z.Used(x) && x in Z.blocks && s <= Z.blocks[x].size - MINFRAGMENT
    ensures Cut(Z, x, s).Used(x + s) && Cut(Z, x, s).Anchor() == Z.Anchor()
  {
  }

  lemma CarveRoomsBetween(Z: Zone, x: int, s: int)
    requires Tiled(Z) && CanCut(Z, x, s)
    ensures var Y := Cut(Z, x, s); x + s in Y.blocks && forall a :: Y.Room(a) >= Retag(Y, x + s, false).Room(a)
  {
  }

  lemma CarveKeeps(m: Mem, Z: Zone, fl: seq<int>, hand: set<int>, x: int, s: int)
    requires Inv(m, Z, fl, hand) && Z.Used(x) && MINFRAGMENT <= s <= Z.blocks[x].size && s % 4 == 0
    requires !Z.Free(Z.Next(x)) && x + s !in hand
    ensures Inv(CarvedMem(m, Z, x, s), Carved(Z, x, s), CarvedList(Z, fl, x, s), hand)
    ensures Keeps(Z, m, Carved(Z, x, s), CarvedMem(m, Z, x, s))
    ensures Rooms(Z, Carved(Z, x, s), x, if Z.blocks[x].size - s >= MINFRAGMENT then s else Z.blocks[x].size)
  {
    assert Tiled(Z) by { InvParts(m, Z, fl, hand); }
    CarveRooms(Z, x, s);
    hide Inv, Tiled, Rooms;
    if Z.blocks[x].size - s >= MINFRAGMENT {
      hide Carved, CarvedMem, CarvedList, Keeps;
      CutReleaseKeeps(m, Z, fl, hand, x, s);
    }
  }

  // ---- what an operation starts from ----

  // remove_free writes the two links in the order of the source.
  function RemoveMem(m: Mem, x: int): Mem {
    var fb := x + HEADER;
    var prev := Get(m, fb, F_PREV);
    var next := Get(m, fb, F_NEXT);
    Set(Set(m, prev, F_NEXT, next), next, F_PREV, prev)
  }

  lemma RemoveOrder(m: Mem, Z: Zone, fl: seq<int>, hand: set<int>, x: int, k: nat)
    requires Inv(m, Z, fl, hand) && k < |fl| && fl[k] == x + HEADER
    ensures RemoveMem(m, x) == Unlink(m, F_NEXT, F_PREV, x + HEADER)
  {
    hide Inv, Tiled, Aligned, Merged, Nexts, Sizes, Labels, Prevs, HeadCells, Threaded, Listed, ListNode;
    InvParts(m, Z, fl, hand);
    ListEnds(m, Z, fl, k);
    var prev, next := Get(m, x + HEADER, F_PREV), Get(m, x + HEADER, F_NEXT);
    NodesDiffer(Z, prev, next);
  }

  lemma NodesDiffer(Z: Zone, y: int, z: int)
    requires Tiled(Z) && ListNode(Z, y) && ListNode(Z, z)
    ensures y + F_NEXT != z + F_PREV
  {
    if y != z && y != Z.Anchor() && z != Z.Anchor() { BlocksApart(Z, y - HEADER, z - HEADER); }
  }

  lemma Position(m: Mem, Z: Zone, fl: seq<int>, hand: set<int>, x: int) returns (k: nat)
    requires Inv(m, Z, fl, hand) && Z.Free(x)
    ensures k < |fl| && fl[k] == x + HEADER
  {
    InvParts(m, Z, fl, hand);
    assert x + HEADER in fl;
    k :| 0 <= k < |fl| && fl[k] == x + HEADER;
  }

  // What a block's header words say of it and its neighbours.
  lemma HeaderWords(m: Mem, Z: Zone, fl: seq<int>, hand: set<int>, x: int)
    requires Inv(m, Z, fl, hand) && x in Z.blocks
    ensures 0 < Z.Head() && Z.Head() + ZONE_HEADER <= x && Z.Next(x) <= Z.end && x % 4 == 0
    ensures Get(m, Z.Head(), B_TAG) == TAG_USED && Get(m, Z.Head(), Z_SIZE) == Z.end - Z.base
    ensures MINFRAGMENT <= Get(m, x, B_SIZE) == Z.blocks[x].size <= Z.end - Z.base
    ensures Get(m, x, B_NEXT) == Z.Succ(x)
    ensures Z.Next(x) == Z.end || Z.Next(x) in Z.blocks
    ensures x !in hand ==> Get(m, x, B_TAG) == if Z.blocks[x].used then TAG_USED else TAG_FREE
    ensures var p := Get(m, x, B_PREV); if x == Z.base then p == Z.Head() else p in Z.blocks && Z.Next(p) == x
    ensures Z.Head() !in Z.blocks && Z.end !in Z.blocks
  {
    InvParts(m, Z, fl, hand);
  }

  lemma NoPredecessor(Z: Zone, x: int)
    requires Tiled(Z) && x == Z.base
    ensures forall a {:trigger Z.Next(a)} :: a in Z.blocks ==> Z.Next(a) != x
  {
  }

  lemma OnePredecessor(Z: Zone, x: int, p: int)
    requires Tiled(Z) && p in Z.blocks && Z.Next(p) == x
    ensures forall a {:trigger Z.Next(a)} :: a in Z.blocks && Z.Next(a) == x ==> a == p
  {
  }

  // Payload words are neither header words nor links of the free list.
  lemma StoreKeeps(m: Mem, Z: Zone, fl: seq<int>, hand: set<int>, x: int, c: int, v: int)
    requires Inv(m, Z, fl, hand) && InPayload(Z, x, c)
    ensures Inv(Set(m, c, 0, v), Z, fl, hand)
  {
    InvParts(m, Z, fl, hand);
    assert Z.Used(x);
    var m' := Set(m, c, 0, v);
    hide Inv, Aligned, Merged, Nexts, Sizes, Labels, Prevs, HeadCells, Threaded, Listed, HeadersKept;
    StoreOffHeaders(m, Z, x, c, v);
    WordsFrame(Z, m, m', hand);
    StoreThreaded(m, Z, fl, x, c, v);
    InvWhole(m', Z, fl, hand);
  }

  lemma StoreOffHeaders(m: Mem, Z: Zone, x: int, c: int, v: int)
    requires Tiled(Z) && Z.Used(x) && InPayload(Z, x, c)
    ensures HeadersKept(Z, m, Set(m, c, 0, v))
  {
    forall a, o | (a in Z.blocks || a == Z.Head()) && 0 <= o < HEADER
      ensures Get(Set(m, c, 0, v), a, o) == Get(m, a, o)
    {
      assert a + o != c;
    }
  }

  lemma StoreThreaded(m: Mem, Z: Zone, fl: seq<int>, x: int, c: int, v: int)
    requires Tiled(Z) && Z.Used(x) && InPayload(Z, x, c) && Threaded(m, Z, fl) && Listed(Z, fl)
    ensures Threaded(Set(m, c, 0, v), Z, fl)
  {
    hide Linked;
    var m' := Set(m, c, 0, v);
    forall n | n == Z.Anchor() || n in fl
      ensures Get(m', n, F_NEXT) == Get(m, n, F_NEXT) && Get(m', n, F_PREV) == Get(m, n, F_PREV)
    {
      if n in fl { assert Z.Free(n - HEADER); }
    }
    FrameRing(m, m', F_NEXT, F_PREV, Z.Anchor(), fl);
  }
}
