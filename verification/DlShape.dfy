// The well-formedness of dlmalloc's heap: how chunks tile the arena, what the
// boundary tags in memory say about them, and what hangs in the bins.

module DlShape {
  import opened Memory
  import opened LinkedLists
  import opened DlSizes

  // Where the static array av_ lives, and the lowest address of the arena.
  const AV: int := 4096
  const LOW: int := 8192

  // Field offsets of struct malloc_chunk.
  const PREV_SIZE: int := 0
  const SIZE: int := 4
  const FD: int := 8
  const BK: int := 12

  // bin_at(i); bin_at(0) holds binblocks in its size field and top in its fd
  // field, bin_at(1) is last_remainder.
  function BinAt(i: int): int { AV + 8 * i }

  const LAST_REMAINDER: int := AV + 8

  datatype Chunk = Chunk(size: int, used: bool, prevUsed: bool)

  // The arena below top: chunk addresses with what the tags should say.
  datatype Arena = Arena(base: int, chunks: map<int, Chunk>, top: int, topSize: int) {
    function Next(a: int): int
      requires a in chunks
    {
      a + chunks[a].size
    }

    predicate Free(a: int) {
      a in chunks && !chunks[a].used
    }

    predicate Used(a: int) {
      a in chunks && chunks[a].used
    }
  }

  // Chunks are large enough, inside the arena, and tile it from base to top
  // without gap or overlap.
  ghost predicate Tiled(A: Arena) {
    && LOW <= A.base <= A.top && A.topSize >= MINSIZE
    && (A.base == A.top || A.base in A.chunks)
    && (forall a :: a in A.chunks ==>
          A.chunks[a].size >= MINSIZE && A.base <= a && a + A.chunks[a].size <= A.top)
    && (forall a {:trigger A.Next(a)} :: a in A.chunks ==> A.Next(a) == A.top || A.Next(a) in A.chunks)
    && (forall a, b :: a in A.chunks && b in A.chunks && a < b ==> a + A.chunks[a].size <= b)
  }

  // Chunks start on, and have sizes of, whole double words.
  ghost predicate Aligned(A: Arena) {
    && A.top % 8 == 0 && A.topSize % 8 == 0
    && (forall a :: a in A.chunks ==> a % 8 == 0 && A.chunks[a].size % 8 == 0)
  }

  // Each chunk knows whether the one before it is in use.
  ghost predicate KnowsPrev(A: Arena) {
    && (A.base in A.chunks ==> A.chunks[A.base].prevUsed)
    && (forall a {:trigger A.Next(a)} :: a in A.chunks && A.Next(a) in A.chunks ==>
          A.chunks[A.Next(a)].prevUsed == A.chunks[a].used)
  }

  ghost predicate Shape(A: Arena) {
    Tiled(A) && KnowsPrev(A)
  }

  // No free chunk borders another free chunk, or top.
  ghost predicate Coalesced(A: Arena) {
    forall a {:trigger A.Next(a)} :: A.Free(a) ==> A.Used(A.Next(a))
  }

  // The size word of chunk a, with the PREV_INUSE bit.
  function Head(A: Arena, a: int): int
    requires a in A.chunks
  {
    A.chunks[a].size + if A.chunks[a].prevUsed then 1 else 0
  }

  // What memory says: every size word and PREV_INUSE bit is the truth, every
  // free chunk's footer equals its size, and wherever the bit is clear the
  // footer in front leads to a free chunk.
  ghost predicate Tags(m: Mem, A: Arena) {
    && Get(m, AV, FD) == A.top
    && Get(m, A.top, SIZE) == A.topSize + 1
    && Heads(m, A) && Feet(m, A) && Backs(m, A)
  }

  ghost predicate Heads(m: Mem, A: Arena) {
    forall a {:trigger Get(m, a, SIZE)} :: a in A.chunks ==> Get(m, a, SIZE) == Head(A, a)
  }

  ghost predicate Feet(m: Mem, A: Arena) {
    forall a {:trigger A.Next(a)} :: A.Free(a) ==> Get(m, A.Next(a), PREV_SIZE) == A.chunks[a].size
  }

  ghost predicate Backs(m: Mem, A: Arena) {
    forall a {:trigger Get(m, a, PREV_SIZE)} :: a in A.chunks && !A.chunks[a].prevUsed ==>
      var p := a - Get(m, a, PREV_SIZE); A.Free(p) && A.Next(p) == a
  }

  // The bins in memory: bin i is the circular list headed by bin_at(i) through
  // the chunks of bins[i]; home maps each listed chunk to its bin.
  ghost predicate Lists(m: Mem, bins: seq<seq<int>>, home: map<int, int>) {
    Threads(m, bins) && Members(bins, home)
  }

  ghost predicate Threads(m: Mem, bins: seq<seq<int>>) {
    && |bins| == NAV
    && (forall i :: 1 <= i < NAV ==> Linked(m, FD, BK, BinAt(i), bins[i]))
  }

  ghost predicate Members(bins: seq<seq<int>>, home: map<int, int>) {
    && |bins| == NAV
    && (forall i, x :: 1 <= i < NAV && x in bins[i] ==> x in home && home[x] == i)
    && (forall x :: x in home ==> 1 <= home[x] < NAV && x in bins[home[x]])
  }

  // What may hang where: the last remainder alone in bin 1, every other free
  // chunk in the bin of its size.
  ghost predicate Homes(A: Arena, bins: seq<seq<int>>, home: map<int, int>) {
    && |bins| == NAV && |bins[1]| <= 1 && Listed(A, home)
    && (forall x :: x in home ==> home[x] == 1 || home[x] == BinIndex(SizeIn(A, x)))
    && (forall i, j, k :: 2 <= i < NAV && 0 <= j < k < |bins[i]| ==>
          SizeIn(A, bins[i][j]) >= SizeIn(A, bins[i][k]))
  }

  ghost predicate Listed(A: Arena, home: map<int, int>) {
    forall x :: x in home ==> A.Free(x)
  }

  function SizeIn(A: Arena, x: int): int {
    if x in A.chunks then A.chunks[x].size else 0
  }

  ghost predicate AllHomed(A: Arena, home: map<int, int>) {
    forall a :: A.Free(a) ==> a in home
  }

  // binblocks has the bit of every non-empty bin's group.
  ghost predicate Blocks(m: Mem, bins: seq<seq<int>>) {
    && |bins| == NAV
    && 0 <= Get(m, AV, SIZE) < WORD
    && (forall i :: 2 <= i < NAV && bins[i] != [] ==> Bit(Get(m, AV, SIZE), i / 4))
  }

  // What looking through the bins relies on.
  ghost predicate SearchInv(m: Mem, A: Arena, bins: seq<seq<int>>, home: map<int, int>) {
    && Shape(A) && Aligned(A) && Coalesced(A) && Heads(m, A)
    && Lists(m, bins, home) && Homes(A, bins, home) && AllHomed(A, home)
    && Blocks(m, bins)
  }

  // The heap is well formed.
  ghost predicate Inv(m: Mem, A: Arena, bins: seq<seq<int>>, home: map<int, int>) {
    SearchInv(m, A, bins, home) && Tags(m, A)
  }

  lemma SearchParts(m: Mem, A: Arena, bins: seq<seq<int>>, home: map<int, int>)
    requires SearchInv(m, A, bins, home)
    ensures Shape(A) && Tiled(A) && KnowsPrev(A) && Aligned(A) && Coalesced(A) && Heads(m, A)
    ensures Lists(m, bins, home) && Threads(m, bins) && Members(bins, home)
    ensures Homes(A, bins, home) && Listed(A, home) && AllHomed(A, home) && Blocks(m, bins)
    ensures |bins| == NAV && |bins[1]| <= 1
  {
  }

  lemma InvParts(m: Mem, A: Arena, bins: seq<seq<int>>, home: map<int, int>)
    requires Inv(m, A, bins, home)
    ensures Shape(A) && Tiled(A) && KnowsPrev(A) && Aligned(A) && Coalesced(A)
    ensures Tags(m, A) && Heads(m, A) && Feet(m, A) && Backs(m, A)
    ensures Lists(m, bins, home) && Threads(m, bins) && Members(bins, home)
    ensures Homes(A, bins, home) && Listed(A, home) && AllHomed(A, home) && Blocks(m, bins)
    ensures |bins| == NAV && |bins[1]| <= 1
  {
  }

  // ---- cells ----

  // The cells list surgery may write: link fields of free chunks and of bins.
  ghost predicate LinkCell(A: Arena, c: int) {
    A.Free(c - FD) || A.Free(c - BK) || AV + 16 <= c < AV + 8 * NAV + 8
  }

  // A word of the payload of a chunk in use, up to and including the
  // prev_size field of its successor.
  ghost predicate InPayload(A: Arena, a: int, c: int) {
    A.Used(a) && a + 8 <= c < a + A.chunks[a].size + 4
  }

  ghost predicate PayloadsKept(A: Arena, m: Mem, m': Mem) {
    forall a, c {:trigger InPayload(A, a, c)} :: InPayload(A, a, c) ==> Get(m', c, 0) == Get(m, c, 0)
  }

  // m' agrees with m on all tag words and on all live payloads.
  ghost predicate TagsKept(A: Arena, m: Mem, m': Mem) {
    Get(m', AV, SIZE) == Get(m, AV, SIZE) && ChunkTagsKept(A, m, m')
  }

  // The same, but for binblocks.
  ghost predicate ChunkTagsKept(A: Arena, m: Mem, m': Mem) {
    && Get(m', AV, FD) == Get(m, AV, FD)
    && (forall a {:trigger Get(m', a, SIZE)} :: a in A.chunks || a == A.top ==>
          Get(m', a, SIZE) == Get(m, a, SIZE))
    && (forall a {:trigger Get(m', a, PREV_SIZE)} :: a in A.chunks || a == A.top ==>
          Get(m', a, PREV_SIZE) == Get(m, a, PREV_SIZE))
  }

  lemma LinkCellNoTag(A: Arena, c: int, a: int)
    requires Tiled(A) && LinkCell(A, c)
    requires a in A.chunks || a == A.top
    ensures c != a + SIZE && c != a + PREV_SIZE
  {
    if A.Free(c - FD) {
      assert c - FD in A.chunks;
    } else if A.Free(c - BK) {
      assert c - BK in A.chunks;
    }
  }

  lemma LinkCellNoPayload(A: Arena, c: int, a: int)
    requires Tiled(A) && LinkCell(A, c)
    ensures !InPayload(A, a, c)
  {
    if A.Used(a) {
      if A.Free(c - FD) {
        assert c - FD in A.chunks && a in A.chunks;
      } else if A.Free(c - BK) {
        assert c - BK in A.chunks && a in A.chunks;
      }
    }
  }

  lemma LinkCellHarmless(A: Arena, m: Mem, c: int, off: int, v: int)
    requires Tiled(A) && LinkCell(A, c + off)
    ensures TagsKept(A, m, Set(m, c, off, v)) && PayloadsKept(A, m, Set(m, c, off, v))
  {
    var m' := Set(m, c, off, v);
    assert c + off != AV + SIZE && c + off != AV + FD by {
      assert forall a :: a in A.chunks ==> a >= LOW;
    }
    forall a | a in A.chunks || a == A.top
      ensures Get(m', a, SIZE) == Get(m, a, SIZE) && Get(m', a, PREV_SIZE) == Get(m, a, PREV_SIZE)
    {
      LinkCellNoTag(A, c + off, a);
    }
    forall a, d | InPayload(A, a, d)
      ensures Get(m', d, 0) == Get(m, d, 0)
    {
      LinkCellNoPayload(A, c + off, a);
    }
  }

  // Everything but link fields is as before.
  ghost predicate Kept(A: Arena, m: Mem, m': Mem) {
    TagsKept(A, m, m') && PayloadsKept(A, m, m')
  }

  lemma KeptTrans(A: Arena, m: Mem, m1: Mem, m2: Mem)
    requires Kept(A, m, m1) && Kept(A, m1, m2)
    ensures Kept(A, m, m2)
  {
  }

  lemma KeptStep(A: Arena, m: Mem, m1: Mem, c: int, off: int, v: int)
    requires Tiled(A) && Kept(A, m, m1) && LinkCell(A, c + off)
    ensures Kept(A, m, Set(m1, c, off, v))
  {
    LinkCellHarmless(A, m1, c, off, v);
    KeptTrans(A, m, m1, Set(m1, c, off, v));
  }
}
