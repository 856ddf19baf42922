// Word-addressed memory and the circular doubly linked lists the allocators
// keep inside it.  Memory is a finite map from addresses to words; a cell that
// was never written reads as zero.

module Memory {

  type Mem = map<int, int>

  // The word at address p + off, i.e. the struct field at offset off of p.
  function Get(m: Mem, p: int, off: int): int {
    if p + off in m then m[p + off] else 0
  }

  function Set(m: Mem, p: int, off: int, v: int): (m': Mem)
    ensures Get(m', p, off) == v
    ensures forall q, o :: q + o != p + off ==> Get(m', q, o) == Get(m, q, o)
  {
    m[p + off := v]
  }

  function RemoveAt<T>(s: seq<T>, k: nat): (r: seq<T>)
    requires k < |s|
    ensures |r| == |s| - 1
  {
    s[..k] + s[k + 1..]
  }

  function InsertAt<T>(s: seq<T>, k: nat, x: T): (r: seq<T>)
    requires k <= |s|
    ensures |r| == |s| + 1
  {
    s[..k] + [x] + s[k..]
  }

  ghost predicate NoDup<T(!new)>(s: seq<T>) {
    forall i, j :: 0 <= i < j < |s| ==> s[i] != s[j]
  }
}

// A circular list threaded through memory: header h, then the nodes of s in
// forward order.  Each node (and the header) holds its forward link at offset
// fo and its backward link at offset bo.
module LinkedLists {
  import opened Memory

  // The nodes of the list as they are met on one turn around it.
  function Ring(h: int, s: seq<int>): (r: seq<int>)
    ensures |r| == |s| + 2 && r[0] == h && r[|s| + 1] == h
    ensures forall i :: 0 <= i < |s| ==> r[i + 1] == s[i]
  {
    [h] + s + [h]
  }

  ghost predicate Forward(m: Mem, fo: int, r: seq<int>) {
    forall i {:trigger Get(m, r[i], fo)} :: 0 <= i < |r| - 1 ==> Get(m, r[i], fo) == r[i + 1]
  }

  ghost predicate Backward(m: Mem, bo: int, r: seq<int>) {
    forall i {:trigger Get(m, r[i], bo)} :: 0 < i < |r| ==> Get(m, r[i], bo) == r[i - 1]
  }

  // Any two nodes lie at least two words apart, so no two link cells coincide.
  ghost predicate Apart(r: seq<int>) {
    forall i, j :: 0 <= i < j < |r| - 1 ==> r[i] >= r[j] + 8 || r[i] + 8 <= r[j]
  }

  ghost predicate Linked(m: Mem, fo: int, bo: int, h: int, s: seq<int>) {
    var r := Ring(h, s);
    Forward(m, fo, r) && Backward(m, bo, r) && Apart(r)
  }

  ghost predicate Offsets(fo: int, bo: int) {
    fo == bo + 4 || bo == fo + 4
  }

  // Take node p off its list: p's neighbours are linked to each other.
  function Unlink(m: Mem, fo: int, bo: int, p: int): Mem {
    var prev := Get(m, p, bo);
    var next := Get(m, p, fo);
    Set(Set(m, next, bo, prev), prev, fo, next)
  }

  // Link p between two neighbouring nodes.
  function LinkBetween(m: Mem, fo: int, bo: int, p: int, prev: int, next: int): Mem {
    Set(Set(Set(Set(m, p, bo, prev), p, fo, next), prev, fo, p), next, bo, p)
  }

  lemma UnlinkForward(m: Mem, fo: int, bo: int, r: seq<int>, k: nat)
    requires Offsets(fo, bo) && 0 < k < |r| - 1 && r[0] == r[|r| - 1]
    requires Forward(m, fo, r) && Backward(m, bo, r) && Apart(r)
    ensures Forward(Unlink(m, fo, bo, r[k]), fo, RemoveAt(r, k))
  {
    var q := RemoveAt(r, k);
    var m' := Unlink(m, fo, bo, r[k]);
    assert Get(m, r[k], bo) == r[k - 1] && Get(m, r[k], fo) == r[k + 1];
    forall i | 0 <= i < |q| - 1
      ensures Get(m', q[i], fo) == q[i + 1]
    {
      var j := if i < k then i else i + 1;
      assert q[i] == r[j];
      assert Get(m, r[j], fo) == r[j + 1];
      assert r[j] + fo != r[k + 1] + bo;
    }
  }

  lemma UnlinkBackward(m: Mem, fo: int, bo: int, r: seq<int>, k: nat)
    requires Offsets(fo, bo) && 0 < k < |r| - 1 && r[0] == r[|r| - 1]
    requires Forward(m, fo, r) && Backward(m, bo, r) && Apart(r)
    ensures Backward(Unlink(m, fo, bo, r[k]), bo, RemoveAt(r, k))
  {
    var q := RemoveAt(r, k);
    var m' := Unlink(m, fo, bo, r[k]);
    assert Get(m, r[k], bo) == r[k - 1] && Get(m, r[k], fo) == r[k + 1];
    forall i | 0 < i < |q|
      ensures Get(m', q[i], bo) == q[i - 1]
    {
      var j := if i < k then i else i + 1;
      assert q[i] == r[j];
      assert Get(m, r[j], bo) == r[j - 1];
      assert r[j] + bo != r[k - 1] + fo;
    }
  }

  lemma InsertForward(m: Mem, fo: int, bo: int, r: seq<int>, k: nat, p: int)
    requires Offsets(fo, bo) && 0 < k < |r| && r[0] == r[|r| - 1]
    requires Forward(m, fo, r) && Backward(m, bo, r) && Apart(r)
    requires forall i :: 0 <= i < |r| ==> p >= r[i] + 8 || p + 8 <= r[i]
    ensures Forward(LinkBetween(m, fo, bo, p, r[k - 1], r[k]), fo, InsertAt(r, k, p))
  {
    var q := InsertAt(r, k, p);
    var m' := LinkBetween(m, fo, bo, p, r[k - 1], r[k]);
    forall i | 0 <= i < |q| - 1
      ensures Get(m', q[i], fo) == q[i + 1]
    {
      if i != k {
        var j := if i < k then i else i - 1;
        assert q[i] == r[j];
        assert Get(m, r[j], fo) == r[j + 1];
        assert r[j] + fo != r[k] + bo;
      }
    }
  }

  lemma InsertBackward(m: Mem, fo: int, bo: int, r: seq<int>, k: nat, p: int)
    requires Offsets(fo, bo) && 0 < k < |r| && r[0] == r[|r| - 1]
    requires Forward(m, fo, r) && Backward(m, bo, r) && Apart(r)
    requires forall i :: 0 <= i < |r| ==> p >= r[i] + 8 || p + 8 <= r[i]
    ensures Backward(LinkBetween(m, fo, bo, p, r[k - 1], r[k]), bo, InsertAt(r, k, p))
  {
    var q := InsertAt(r, k, p);
    var m' := LinkBetween(m, fo, bo, p, r[k - 1], r[k]);
    forall i | 0 < i < |q|
      ensures Get(m', q[i], bo) == q[i - 1]
    {
      if i != k {
        var j := if i < k then i else i - 1;
        assert q[i] == r[j];
        assert Get(m, r[j], bo) == r[j - 1];
        assert r[j] + bo != r[k - 1] + fo;
      }
    }
  }

  lemma FrameRing(m: Mem, m': Mem, fo: int, bo: int, h: int, s: seq<int>)
    requires Linked(m, fo, bo, h, s)
    requires forall n :: n == h || n in s ==>
      Get(m', n, fo) == Get(m, n, fo) && Get(m', n, bo) == Get(m, n, bo)
    ensures Linked(m', fo, bo, h, s)
  {
    var r := Ring(h, s);
    forall i | 0 <= i < |r|
      ensures r[i] == h || r[i] in s
    {
      if 0 < i < |r| - 1 { assert r[i] == s[i - 1]; }
    }
  }

  // The ends of the list, and the neighbours of each node, as memory shows them.
  lemma Neighbours(m: Mem, fo: int, bo: int, h: int, s: seq<int>)
    requires Linked(m, fo, bo, h, s)
    ensures Get(m, h, fo) == if s == [] then h else s[0]
    ensures Get(m, h, bo) == if s == [] then h else s[|s| - 1]
    ensures forall i {:trigger Get(m, s[i], fo)} :: 0 <= i < |s| ==>
      Get(m, s[i], fo) == if i + 1 < |s| then s[i + 1] else h
    ensures forall i {:trigger Get(m, s[i], bo)} :: 0 <= i < |s| ==>
      Get(m, s[i], bo) == if i > 0 then s[i - 1] else h
  {
    var r := Ring(h, s);
    assert Get(m, r[0], fo) == r[1] && Get(m, r[|s| + 1], bo) == r[|s|];
    forall i | 0 <= i < |s|
      ensures Get(m, s[i], fo) == if i + 1 < |s| then s[i + 1] else h
      ensures Get(m, s[i], bo) == if i > 0 then s[i - 1] else h
    {
      assert r[i + 1] == s[i];
      assert Get(m, r[i + 1], fo) == r[i + 2] && Get(m, r[i + 1], bo) == r[i];
    }
  }

  lemma NodesApart(m: Mem, fo: int, bo: int, h: int, s: seq<int>)
    requires Linked(m, fo, bo, h, s)
    ensures h !in s && NoDup(s)
    ensures forall i, j :: 0 <= i < j < |s| ==> s[i] >= s[j] + 8 || s[i] + 8 <= s[j]
    ensures forall i :: 0 <= i < |s| ==> s[i] >= h + 8 || s[i] + 8 <= h
  {
    var r := Ring(h, s);
    forall i | 0 <= i < |s|
      ensures s[i] >= h + 8 || s[i] + 8 <= h
    {
      assert r[i + 1] == s[i] && r[0] == h;
    }
    forall i, j | 0 <= i < j < |s|
      ensures s[i] >= s[j] + 8 || s[i] + 8 <= s[j]
    {
      assert r[i + 1] == s[i] && r[j + 1] == s[j];
    }
  }

  lemma RingRemove(h: int, s: seq<int>, k: nat)
    requires k < |s|
    ensures RemoveAt(Ring(h, s), k + 1) == Ring(h, RemoveAt(s, k))
    ensures Ring(h, s)[k + 1] == s[k]
  {
  }

  lemma RingInsert(h: int, s: seq<int>, k: nat, p: int)
    requires k <= |s|
    ensures InsertAt(Ring(h, s), k + 1, p) == Ring(h, InsertAt(s, k, p))
    ensures Ring(h, s)[k] == if k > 0 then s[k - 1] else h
    ensures Ring(h, s)[k + 1] == if k < |s| then s[k] else h
  {
    var a, b := InsertAt(Ring(h, s), k + 1, p), Ring(h, InsertAt(s, k, p));
    forall i | 0 <= i < |a|
      ensures a[i] == b[i]
    {
      if i <= k { assert a[i] == Ring(h, s)[i]; } else if i > k + 1 { assert a[i] == Ring(h, s)[i - 1]; }
    }
  }

  lemma ApartRemove(r: seq<int>, k: nat)
    requires k < |r| - 1 && Apart(r)
    ensures Apart(RemoveAt(r, k))
  {
    var q := RemoveAt(r, k);
    forall i, j | 0 <= i < j < |q| - 1
      ensures q[i] >= q[j] + 8 || q[i] + 8 <= q[j]
    {
      assert q[i] == r[if i < k then i else i + 1];
      assert q[j] == r[if j < k then j else j + 1];
    }
  }

  lemma ApartInsert(r: seq<int>, k: nat, p: int)
    requires 0 < k < |r| && Apart(r)
    requires forall i :: 0 <= i < |r| ==> p >= r[i] + 8 || p + 8 <= r[i]
    ensures Apart(InsertAt(r, k, p))
  {
    var q := InsertAt(r, k, p);
    forall i, j | 0 <= i < j < |q| - 1
      ensures q[i] >= q[j] + 8 || q[i] + 8 <= q[j]
    {
      if i != k { assert q[i] == r[if i < k then i else i - 1]; }
      if j != k { assert q[j] == r[if j < k then j else j - 1]; }
    }
  }

  lemma UnlinkLinked(m: Mem, fo: int, bo: int, h: int, s: seq<int>, k: nat)
    requires Offsets(fo, bo) && k < |s|
    requires Linked(m, fo, bo, h, s)
    ensures Linked(Unlink(m, fo, bo, s[k]), fo, bo, h, RemoveAt(s, k))
  {
    var r := Ring(h, s);
    RingRemove(h, s, k);
    UnlinkForward(m, fo, bo, r, k + 1);
    UnlinkBackward(m, fo, bo, r, k + 1);
    ApartRemove(r, k + 1);
  }

  // Linking p in front of position k, i.e. between node k - 1 and node k.
  lemma InsertLinked(m: Mem, fo: int, bo: int, h: int, s: seq<int>, k: nat, p: int)
    requires Offsets(fo, bo) && k <= |s|
    requires Linked(m, fo, bo, h, s)
    requires p >= h + 8 || p + 8 <= h
    requires forall i :: 0 <= i < |s| ==> p >= s[i] + 8 || p + 8 <= s[i]
    ensures var prev := if k > 0 then s[k - 1] else h;
            var next := if k < |s| then s[k] else h;
            Linked(LinkBetween(m, fo, bo, p, prev, next), fo, bo, h, InsertAt(s, k, p))
  {
    var r := Ring(h, s);
    RingInsert(h, s, k, p);
    forall i | 0 <= i < |r|
      ensures p >= r[i] + 8 || p + 8 <= r[i]
    {
      if 0 < i < |r| - 1 { assert r[i] == s[i - 1]; }
    }
    InsertForward(m, fo, bo, r, k + 1, p);
    InsertBackward(m, fo, bo, r, k + 1, p);
    ApartInsert(r, k + 1, p);
  }
}
