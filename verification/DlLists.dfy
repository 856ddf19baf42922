// What list surgery does to the bins: one bin changes, every other bin, every
// tag and every live payload stays.

module DlLists {
  import opened Memory
  import opened LinkedLists
  import opened DlSizes
  import opened DlShape

  // A node of bin i: its header or one of its chunks.
  ghost predicate NodeIn(bins: seq<seq<int>>, i: int, n: int)
    requires 0 <= i < |bins|
  {
    n == BinAt(i) || n in bins[i]
  }

  // A write to a link field of node n keeps the link fields of other nodes.
  lemma NodeWrite(m: Mem, A: Arena, n: int, off: int, v: int, c: int)
    requires Tiled(A) && (off == FD || off == BK)
    requires Node(A, n)
    requires Node(A, c)
    requires n != c
    ensures Get(Set(m, n, off, v), c, FD) == Get(m, c, FD)
    ensures Get(Set(m, n, off, v), c, BK) == Get(m, c, BK)
  {
    assert A.Free(n) ==> n in A.chunks && n >= LOW;
    assert A.Free(c) ==> c in A.chunks && c >= LOW;
  }

  lemma MemberRemove(s: seq<int>, k: nat)
    requires k < |s| && NoDup(s)
    ensures forall x :: x in RemoveAt(s, k) <==> x in s && x != s[k]
  {
    var r := RemoveAt(s, k);
    forall x | x in s && x != s[k]
      ensures x in r
    {
      var i :| 0 <= i < |s| && s[i] == x;
      assert r[if i < k then i else i - 1] == x;
    }
  }

  lemma MemberInsert(s: seq<int>, k: nat, p: int)
    requires k <= |s|
    ensures forall x :: x in InsertAt(s, k, p) <==> x in s || x == p
  {
    var r := InsertAt(s, k, p);
    assert r[k] == p;
    forall x | x in s
      ensures x in r
    {
      var i :| 0 <= i < |s| && s[i] == x;
      assert r[if i < k then i else i + 1] == x;
    }
  }

  // The neighbours of a listed chunk are nodes of the same bin.
  lemma NeighbourNodes(m: Mem, bins: seq<seq<int>>, home: map<int, int>, i: int, k: nat)
    requires Lists(m, bins, home) && 1 <= i < NAV && k < |bins[i]|
    ensures NodeIn(bins, i, Get(m, bins[i][k], FD)) && NodeIn(bins, i, Get(m, bins[i][k], BK))
  {
    Neighbours(m, FD, BK, BinAt(i), bins[i]);
  }

  lemma NodeIsLinkCell(A: Arena, bins: seq<seq<int>>, home: map<int, int>, m: Mem, i: int, n: int)
    requires Lists(m, bins, home) && Listed(A, home) && 1 <= i < NAV && NodeIn(bins, i, n)
    ensures LinkCell(A, n + FD) && LinkCell(A, n + BK)
    ensures Node(A, n)
  {
    if n in bins[i] {
      assert n in home && A.Free(n);
      assert n + FD - FD == n && n + BK - BK == n;
    }
  }

  lemma UnlinkOtherBin(m: Mem, A: Arena, bins: seq<seq<int>>, home: map<int, int>, i: int, k: nat, j: int)
    requires Tiled(A) && Lists(m, bins, home) && Listed(A, home)
    requires 1 <= i < NAV && k < |bins[i]| && 1 <= j < NAV && j != i
    ensures Linked(Unlink(m, FD, BK, bins[i][k]), FD, BK, BinAt(j), bins[j])
  {
    var x := bins[i][k];
    var m' := Unlink(m, FD, BK, x);
    var prev, next := Get(m, x, BK), Get(m, x, FD);
    NeighbourNodes(m, bins, home, i, k);
    NodeIsLinkCell(A, bins, home, m, i, prev);
    NodeIsLinkCell(A, bins, home, m, i, next);
    forall n | n == BinAt(j) || n in bins[j]
      ensures Get(m', n, FD) == Get(m, n, FD) && Get(m', n, BK) == Get(m, n, BK)
    {
      NodesOfTwoBins(m, A, bins, home, i, prev, j, n);
      NodesOfTwoBins(m, A, bins, home, i, next, j, n);
      NodeWrite(m, A, next, BK, prev, n);
      NodeWrite(Set(m, next, BK, prev), A, prev, FD, next, n);
    }
    FrameRing(m, m', FD, BK, BinAt(j), bins[j]);
  }

  lemma NodesOfTwoBins(m: Mem, A: Arena, bins: seq<seq<int>>, home: map<int, int>, i: int, a: int, j: int, b: int)
    requires Tiled(A) && Lists(m, bins, home) && Listed(A, home)
    requires 1 <= i < NAV && 1 <= j < NAV && i != j
    requires NodeIn(bins, i, a) && NodeIn(bins, j, b)
    ensures a != b
    ensures Node(A, b)
  {
    NodeIsLinkCell(A, bins, home, m, j, b);
    if a in bins[i] { assert home[a] == i && A.Free(a) && a >= LOW; }
    if b in bins[j] { assert home[b] == j && A.Free(b) && b >= LOW; }
  }

  // unlink
  lemma UnlinkThreads(m: Mem, A: Arena, bins: seq<seq<int>>, home: map<int, int>, i: int, k: nat)
    requires Tiled(A) && Lists(m, bins, home) && Listed(A, home)
    requires 1 <= i < NAV && k < |bins[i]|
    ensures Threads(Unlink(m, FD, BK, bins[i][k]), bins[i := RemoveAt(bins[i], k)])
  {
    var m' := Unlink(m, FD, BK, bins[i][k]);
    var bins' := bins[i := RemoveAt(bins[i], k)];
    forall j | 1 <= j < NAV
      ensures Linked(m', FD, BK, BinAt(j), bins'[j])
    {
      if j == i {
        UnlinkLinked(m, FD, BK, BinAt(i), bins[i], k);
      } else {
        UnlinkOtherBin(m, A, bins, home, i, k, j);
      }
    }
  }

  lemma RemoveMembers(bins: seq<seq<int>>, home: map<int, int>, i: int, k: nat)
    requires Members(bins, home) && 1 <= i < NAV && k < |bins[i]| && NoDup(bins[i])
    ensures Members(bins[i := RemoveAt(bins[i], k)], home - {bins[i][k]})
  {
    var x := bins[i][k];
    var bins', home' := bins[i := RemoveAt(bins[i], k)], home - {x};
    MemberRemove(bins[i], k);
    assert x in bins[i];
    forall j, y | 1 <= j < NAV && y in bins'[j]
      ensures y in home' && home'[y] == j
    {
      assert y in bins[j] && y in home && home[y] == j;
    }
    forall y | y in home'
      ensures 1 <= home'[y] < NAV && y in bins'[home'[y]]
    {
      assert y in home && y in bins[home[y]];
    }
  }

  lemma UnlinkKeeps(m: Mem, A: Arena, bins: seq<seq<int>>, home: map<int, int>, i: int, k: nat)
    requires Tiled(A) && Lists(m, bins, home) && Listed(A, home)
    requires 1 <= i < NAV && k < |bins[i]|
    ensures Lists(Unlink(m, FD, BK, bins[i][k]), bins[i := RemoveAt(bins[i], k)], home - {bins[i][k]})
  {
    NodesApart(m, FD, BK, BinAt(i), bins[i]);
    UnlinkThreads(m, A, bins, home, i, k);
    RemoveMembers(bins, home, i, k);
  }

  lemma UnlinkTags(m: Mem, A: Arena, bins: seq<seq<int>>, home: map<int, int>, i: int, k: nat)
    requires Tiled(A) && Lists(m, bins, home) && Listed(A, home)
    requires 1 <= i < NAV && k < |bins[i]|
    ensures Kept(A, m, Unlink(m, FD, BK, bins[i][k]))
  {
    var x := bins[i][k];
    var prev, next := Get(m, x, BK), Get(m, x, FD);
    NeighbourNodes(m, bins, home, i, k);
    NodeIsLinkCell(A, bins, home, m, i, prev);
    NodeIsLinkCell(A, bins, home, m, i, next);
    KeptStep(A, m, m, next, BK, prev);
    KeptStep(A, m, Set(m, next, BK, prev), prev, FD, next);
  }

  lemma RemoveHomes(A: Arena, bins: seq<seq<int>>, home: map<int, int>, i: int, k: nat)
    requires Homes(A, bins, home) && 1 <= i < NAV && k < |bins[i]|
    ensures Homes(A, bins[i := RemoveAt(bins[i], k)], home - {bins[i][k]})
  {
    var r := RemoveAt(bins[i], k);
    forall a, b | 0 <= a < b < |r|
      ensures i >= 2 ==> SizeIn(A, r[a]) >= SizeIn(A, r[b])
    {
      assert r[a] == bins[i][if a < k then a else a + 1];
      assert r[b] == bins[i][if b < k then b else b + 1];
    }
  }

  // Linking a chunk into bin i in front of position k.
  lemma InsertOtherBin(m: Mem, A: Arena, bins: seq<seq<int>>, home: map<int, int>, i: int, k: nat, p: int, j: int)
    requires Tiled(A) && Lists(m, bins, home) && Listed(A, home)
    requires 1 <= i < NAV && k <= |bins[i]| && 1 <= j < NAV && j != i
    requires A.Free(p) && p !in home
    ensures Linked(LinkBetween(m, FD, BK, p, PrevAt(bins, i, k), NextAt(bins, i, k)), FD, BK, BinAt(j), bins[j])
  {
    var prev, next := PrevAt(bins, i, k), NextAt(bins, i, k);
    var m' := LinkBetween(m, FD, BK, p, prev, next);
    NodeIsLinkCell(A, bins, home, m, i, prev);
    NodeIsLinkCell(A, bins, home, m, i, next);
    forall n | n == BinAt(j) || n in bins[j]
      ensures Get(m', n, FD) == Get(m, n, FD) && Get(m', n, BK) == Get(m, n, BK)
    {
      NodesOfTwoBins(m, A, bins, home, i, prev, j, n);
      NodesOfTwoBins(m, A, bins, home, i, next, j, n);
      LinkWritesMiss(m, A, p, prev, next, n);
    }
    FrameRing(m, m', FD, BK, BinAt(j), bins[j]);
  }

  ghost predicate Node(A: Arena, n: int) {
    A.Free(n) || (AV <= n < LOW && n % 8 == 0)
  }

  lemma LinkWritesMiss(m: Mem, A: Arena, p: int, prev: int, next: int, n: int)
    requires Tiled(A) && Node(A, p) && Node(A, prev) && Node(A, next) && Node(A, n)
    requires n != p && n != prev && n != next
    ensures Get(LinkBetween(m, FD, BK, p, prev, next), n, FD) == Get(m, n, FD)
    ensures Get(LinkBetween(m, FD, BK, p, prev, next), n, BK) == Get(m, n, BK)
  {
    var m1 := Set(m, p, BK, prev);
    var m2 := Set(m1, p, FD, next);
    var m3 := Set(m2, prev, FD, p);
    NodeWrite(m, A, p, BK, prev, n);
    NodeWrite(m1, A, p, FD, next, n);
    NodeWrite(m2, A, prev, FD, p, n);
    NodeWrite(m3, A, next, BK, p, n);
  }

  // The nodes on either side of position k of bin i.
  function PrevAt(bins: seq<seq<int>>, i: int, k: nat): int
    requires 0 <= i < |bins| && k <= |bins[i]|
  {
    if k > 0 then bins[i][k - 1] else BinAt(i)
  }

  function NextAt(bins: seq<seq<int>>, i: int, k: nat): int
    requires 0 <= i < |bins| && k <= |bins[i]|
  {
    if k < |bins[i]| then bins[i][k] else BinAt(i)
  }

  lemma FreshNodeApart(A: Arena, bins: seq<seq<int>>, home: map<int, int>, i: int, p: int)
    requires Tiled(A) && Members(bins, home) && Listed(A, home)
    requires 1 <= i < NAV && A.Free(p) && p !in home
    ensures p >= BinAt(i) + 8
    ensures forall j :: 0 <= j < |bins[i]| ==> p >= bins[i][j] + 8 || p + 8 <= bins[i][j]
  {
    assert p in A.chunks && p >= LOW;
    forall j | 0 <= j < |bins[i]|
      ensures p >= bins[i][j] + 8 || p + 8 <= bins[i][j]
    {
      var n := bins[i][j];
      assert n in bins[i] && n in home && A.Free(n) && n in A.chunks && n != p;
    }
  }

  lemma InsertThreads(m: Mem, A: Arena, bins: seq<seq<int>>, home: map<int, int>, i: int, k: nat, p: int)
    requires Tiled(A) && Lists(m, bins, home) && Listed(A, home)
    requires 1 <= i < NAV && k <= |bins[i]|
    requires A.Free(p) && p !in home
    ensures Threads(LinkBetween(m, FD, BK, p, PrevAt(bins, i, k), NextAt(bins, i, k)),
                    bins[i := InsertAt(bins[i], k, p)])
  {
    var m' := LinkBetween(m, FD, BK, p, PrevAt(bins, i, k), NextAt(bins, i, k));
    var bins' := bins[i := InsertAt(bins[i], k, p)];
    FreshNodeApart(A, bins, home, i, p);
    forall j | 1 <= j < NAV
      ensures Linked(m', FD, BK, BinAt(j), bins'[j])
    {
      if j == i {
        InsertLinked(m, FD, BK, BinAt(i), bins[i], k, p);
      } else {
        InsertOtherBin(m, A, bins, home, i, k, p, j);
      }
    }
  }

  lemma InsertMembers(bins: seq<seq<int>>, home: map<int, int>, i: int, k: nat, p: int)
    requires Members(bins, home) && 1 <= i < NAV && k <= |bins[i]| && p !in home
    ensures Members(bins[i := InsertAt(bins[i], k, p)], home[p := i])
  {
    var bins', home' := bins[i := InsertAt(bins[i], k, p)], home[p := i];
    MemberInsert(bins[i], k, p);
    forall j, y | 1 <= j < NAV && y in bins'[j]
      ensures y in home' && home'[y] == j
    {
      if y in bins[j] { assert y in home && home[y] == j; }
    }
    forall y | y in home'
      ensures 1 <= home'[y] < NAV && y in bins'[home'[y]]
    {
      if y != p { assert y in home && y in bins[home[y]]; }
    }
  }

  lemma InsertKeeps(m: Mem, A: Arena, bins: seq<seq<int>>, home: map<int, int>, i: int, k: nat, p: int)
    requires Tiled(A) && Lists(m, bins, home) && Listed(A, home)
    requires 1 <= i < NAV && k <= |bins[i]|
    requires A.Free(p) && p !in home
    ensures var m' := LinkBetween(m, FD, BK, p, PrevAt(bins, i, k), NextAt(bins, i, k));
            && Lists(m', bins[i := InsertAt(bins[i], k, p)], home[p := i])
            && Kept(A, m, m')
  {
    InsertThreads(m, A, bins, home, i, k, p);
    InsertMembers(bins, home, i, k, p);
    InsertTags(m, A, bins, home, i, k, p);
  }

  lemma InsertTags(m: Mem, A: Arena, bins: seq<seq<int>>, home: map<int, int>, i: int, k: nat, p: int)
    requires Tiled(A) && Lists(m, bins, home) && Listed(A, home)
    requires 1 <= i < NAV && k <= |bins[i]| && A.Free(p)
    ensures var m' := LinkBetween(m, FD, BK, p, PrevAt(bins, i, k), NextAt(bins, i, k));
            Kept(A, m, m')
  {
    var prev, next := PrevAt(bins, i, k), NextAt(bins, i, k);
    NodeIsLinkCell(A, bins, home, m, i, prev);
    NodeIsLinkCell(A, bins, home, m, i, next);
    assert LinkCell(A, p + FD) && LinkCell(A, p + BK) by {
      assert p + FD - FD == p && p + BK - BK == p;
    }
    LinkWrites(A, m, p, prev, next);
  }

  lemma LinkWrites(A: Arena, m: Mem, p: int, prev: int, next: int)
    requires Tiled(A) && LinkCell(A, p + FD) && LinkCell(A, p + BK)
    requires LinkCell(A, prev + FD) && LinkCell(A, next + BK)
    ensures Kept(A, m, LinkBetween(m, FD, BK, p, prev, next))
  {
    var m1 := Set(m, p, BK, prev);
    var m2 := Set(m1, p, FD, next);
    var m3 := Set(m2, prev, FD, p);
    KeptStep(A, m, m, p, BK, prev);
    KeptStep(A, m, m1, p, FD, next);
    KeptStep(A, m, m2, prev, FD, p);
    KeptStep(A, m, m3, next, BK, p);
  }

  // A bin stays in descending order when p goes in front of the first chunk
  // that is not larger.
  lemma InsertHomes(A: Arena, bins: seq<seq<int>>, home: map<int, int>, i: int, k: nat, p: int)
    requires Homes(A, bins, home) && 2 <= i < NAV && k <= |bins[i]|
    requires A.Free(p) && i == BinIndex(A.chunks[p].size)
    requires forall j :: 0 <= j < k ==> SizeIn(A, bins[i][j]) >= A.chunks[p].size
    requires k < |bins[i]| ==> A.chunks[p].size >= SizeIn(A, bins[i][k])
    ensures Homes(A, bins[i := InsertAt(bins[i], k, p)], home[p := i])
  {
    var r := InsertAt(bins[i], k, p);
    forall a, b | 0 <= a < b < |r|
      ensures SizeIn(A, r[a]) >= SizeIn(A, r[b])
    {
      if a != k { assert r[a] == bins[i][if a < k then a else a - 1]; }
      if b != k { assert r[b] == bins[i][if b < k then b else b - 1]; }
      if a == k && b > k {
        assert SizeIn(A, bins[i][k]) >= SizeIn(A, bins[i][b - 1]);
      }
    }
  }

  // link_last_remainder: whatever bin 1 held, it now holds p alone.
  function LinkLastRemainder(m: Mem, p: int): Mem {
    Set(Set(Set(Set(m, LAST_REMAINDER, BK, p), LAST_REMAINDER, FD, p), p, BK, LAST_REMAINDER), p, FD, LAST_REMAINDER)
  }

  function ClearLastRemainder(m: Mem): Mem {
    Set(Set(m, LAST_REMAINDER, BK, LAST_REMAINDER), LAST_REMAINDER, FD, LAST_REMAINDER)
  }

  lemma SingletonLinked(m: Mem, p: int)
    requires p >= LAST_REMAINDER + 8
    ensures Linked(LinkLastRemainder(m, p), FD, BK, LAST_REMAINDER, [p])
  {
    var m' := LinkLastRemainder(m, p);
    var r := Ring(LAST_REMAINDER, [p]);
    assert r == [LAST_REMAINDER, p, LAST_REMAINDER];
  }

  lemma EmptyLinked(m: Mem)
    ensures Linked(ClearLastRemainder(m), FD, BK, LAST_REMAINDER, [])
  {
    var r := Ring(LAST_REMAINDER, []);
    assert r == [LAST_REMAINDER, LAST_REMAINDER];
  }

  ghost predicate SameLinks(m: Mem, m': Mem, n: int) {
    Get(m', n, FD) == Get(m, n, FD) && Get(m', n, BK) == Get(m, n, BK)
  }

  // Bins 2 and up do not notice a rewrite of bin 1.
  lemma RemainderThreads(m: Mem, m': Mem, A: Arena, bins: seq<seq<int>>, home: map<int, int>, p: int, s: seq<int>)
    requires Tiled(A) && Lists(m, bins, home) && Listed(A, home)
    requires p in home ==> home[p] == 1
    requires forall n {:trigger SameLinks(m, m', n)} ::
      n != p && n != LAST_REMAINDER && Node(A, n) ==> SameLinks(m, m', n)
    requires p == LAST_REMAINDER || p >= LOW
    requires Linked(m', FD, BK, LAST_REMAINDER, s)
    ensures Threads(m', bins[1 := s])
  {
    var bins' := bins[1 := s];
    forall j | 1 <= j < NAV
      ensures Linked(m', FD, BK, BinAt(j), bins'[j])
    {
      if j != 1 {
        forall n | n == BinAt(j) || n in bins[j]
          ensures Get(m', n, FD) == Get(m, n, FD) && Get(m', n, BK) == Get(m, n, BK)
        {
          NodeIsLinkCell(A, bins, home, m, j, n);
          if n in bins[j] { assert home[n] == j && A.Free(n) && n >= LOW; }
          assert SameLinks(m, m', n);
        }
        FrameRing(m, m', FD, BK, BinAt(j), bins[j]);
      }
    }
  }

  lemma RemainderMembers(bins: seq<seq<int>>, home: map<int, int>, s: seq<int>)
    requires Members(bins, home) && |bins[1]| <= 1 && |s| <= 1
    requires s != [] ==> s[0] in home ==> home[s[0]] == 1
    ensures Members(bins[1 := s], RemainderHome(bins, home, s))
  {
    var bins' := bins[1 := s];
    var home' := RemainderHome(bins, home, s);
    forall j, y | 1 <= j < NAV && y in bins'[j]
      ensures y in home' && home'[y] == j
    {
      if j != 1 {
        assert y in bins[j] && y in home && home[y] == j;
        assert y !in bins[1];
      }
    }
    forall y | y in home'
      ensures 1 <= home'[y] < NAV && y in bins'[home'[y]]
    {
      if s == [] || y != s[0] { assert y in home && y in bins[home[y]]; }
    }
  }

  function Elements(s: seq<int>): set<int> {
    set x | x in s
  }

  function RemainderHome(bins: seq<seq<int>>, home: map<int, int>, s: seq<int>): map<int, int>
    requires |bins| > 1
  {
    if s == [] then home - Elements(bins[1]) else (home - Elements(bins[1]))[s[0] := 1]
  }

  lemma LinkRemainderKeeps(m: Mem, A: Arena, bins: seq<seq<int>>, home: map<int, int>, p: int)
    requires Tiled(A) && Lists(m, bins, home) && Listed(A, home)
    requires A.Free(p) && (p in home ==> home[p] == 1)
    requires |bins[1]| <= 1
    ensures Lists(LinkLastRemainder(m, p), bins[1 := [p]], RemainderHome(bins, home, [p]))
    ensures Kept(A, m, LinkLastRemainder(m, p))
  {
    var m' := LinkLastRemainder(m, p);
    assert p in A.chunks && p >= LOW;
    SingletonLinked(m, p);
    forall n | n != p && n != LAST_REMAINDER && Node(A, n)
      ensures SameLinks(m, m', n)
    {
      RemainderWrites(m, A, p, n);
    }
    RemainderThreads(m, m', A, bins, home, p, [p]);
    RemainderMembers(bins, home, [p]);
    RemainderKept(A, m, p);
  }

  lemma RemainderWrites(m: Mem, A: Arena, p: int, n: int)
    requires Tiled(A) && A.Free(p)
    requires n != p && n != LAST_REMAINDER && Node(A, n)
    ensures SameLinks(m, LinkLastRemainder(m, p), n)
  {
    var m1 := Set(m, LAST_REMAINDER, BK, p);
    var m2 := Set(m1, LAST_REMAINDER, FD, p);
    var m3 := Set(m2, p, BK, LAST_REMAINDER);
    NodeWrite(m, A, LAST_REMAINDER, BK, p, n);
    NodeWrite(m1, A, LAST_REMAINDER, FD, p, n);
    NodeWrite(m2, A, p, BK, LAST_REMAINDER, n);
    NodeWrite(m3, A, p, FD, LAST_REMAINDER, n);
  }

  lemma RemainderKept(A: Arena, m: Mem, p: int)
    requires Tiled(A) && A.Free(p)
    ensures Kept(A, m, LinkLastRemainder(m, p))
  {
    assert LinkCell(A, p + FD) && LinkCell(A, p + BK) by {
      assert p + FD - FD == p && p + BK - BK == p;
    }
    var m1 := Set(m, LAST_REMAINDER, BK, p);
    var m2 := Set(m1, LAST_REMAINDER, FD, p);
    var m3 := Set(m2, p, BK, LAST_REMAINDER);
    KeptStep(A, m, m, LAST_REMAINDER, BK, p);
    KeptStep(A, m, m1, LAST_REMAINDER, FD, p);
    KeptStep(A, m, m2, p, BK, LAST_REMAINDER);
    KeptStep(A, m, m3, p, FD, LAST_REMAINDER);
  }

  lemma ClearRemainderKeeps(m: Mem, A: Arena, bins: seq<seq<int>>, home: map<int, int>)
    requires Tiled(A) && Lists(m, bins, home) && Listed(A, home)
    requires |bins[1]| <= 1
    ensures Lists(ClearLastRemainder(m), bins[1 := []], RemainderHome(bins, home, []))
    ensures Kept(A, m, ClearLastRemainder(m))
  {
    var m1 := Set(m, LAST_REMAINDER, BK, LAST_REMAINDER);
    var m' := ClearLastRemainder(m);
    EmptyLinked(m);
    forall n | n != LAST_REMAINDER && Node(A, n)
      ensures SameLinks(m, m', n)
    {
      NodeWrite(m, A, LAST_REMAINDER, BK, LAST_REMAINDER, n);
      NodeWrite(m1, A, LAST_REMAINDER, FD, LAST_REMAINDER, n);
    }
    RemainderThreads(m, m', A, bins, home, LAST_REMAINDER, []) by {
      assert !A.Free(LAST_REMAINDER);
    }
    RemainderMembers(bins, home, []);
    KeptStep(A, m, m, LAST_REMAINDER, BK, LAST_REMAINDER);
    KeptStep(A, m, m1, LAST_REMAINDER, FD, LAST_REMAINDER);
  }

  lemma RemainderHomes(A: Arena, bins: seq<seq<int>>, home: map<int, int>, s: seq<int>)
    requires Homes(A, bins, home) && |s| <= 1 && (s != [] ==> A.Free(s[0]))
    ensures Homes(A, bins[1 := s], RemainderHome(bins, home, s))
  {
  }
}
