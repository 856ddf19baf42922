// dlmalloc's size arithmetic: request padding, bin indexing and the one-word
// bit vector of possibly non-empty groups of bins.

module DlSizes {

  const WORD: int := 0x1_0000_0000
  const SIGN: int := 0x8000_0000
  const MINSIZE: int := 16
  const NAV: int := 128
  const BINBLOCKWIDTH: int := 4

  // The C type long: a 32-bit word read as a signed number.
  function Signed(w: int): int {
    if w % WORD >= SIGN then w % WORD - WORD else w % WORD
  }

  // request2size: room for one size word, rounded up to eight bytes, never
  // less than MINSIZE.  The comparison is made on signed words.
  function Request2Size(req: int): int
    requires 0 <= req < WORD
  {
    var t := (req + 11) % WORD;
    if Signed(t) < MINSIZE + 7 then MINSIZE else t - t % 8
  }

  const MAX_REQUEST: int := SIGN - 12

  // A chunk of the padded size has room for the request (its payload is the
  // chunk less one word) exactly for requests up to MAX_REQUEST; just above,
  // the signed comparison takes the padded request for a tiny one.
  lemma Request2SizeFits(req: int)
    requires 0 <= req < SIGN
    ensures Request2Size(req) - 4 >= req <==> req <= MAX_REQUEST
    ensures MINSIZE <= Request2Size(req) < SIGN && Request2Size(req) % 8 == 0
    ensures req <= MAX_REQUEST && Request2Size(req) > MINSIZE ==> Request2Size(req) < req + 12
    ensures req > MAX_REQUEST ==> Request2Size(req) == MINSIZE
  {
  }

  function BinIndex(sz: int): int {
    if sz / 512 == 0 then sz / 8
    else if sz / 512 <= 4 then 56 + sz / 64
    else if sz / 512 <= 20 then 91 + sz / 512
    else if sz / 512 <= 84 then 110 + sz / 4096
    else if sz / 512 <= 340 then 119 + sz / 32768
    else if sz / 512 <= 1364 then 124 + sz / 262144
    else 126
  }

  lemma BinIndexRange(sz: int)
    requires MINSIZE <= sz
    ensures 2 <= BinIndex(sz) <= 126
    ensures sz < 512 <==> BinIndex(sz) < 64
    ensures sz < 512 ==> BinIndex(sz) == sz / 8
  {
  }

  lemma BinIndexMonotone(a: int, b: int)
    requires 0 <= a <= b
    ensures BinIndex(a) <= BinIndex(b)
  {
  }

  // The sizes of one bin: they lie within a step of 8, 64, 512, 4096, 32768 or
  // 262144 bytes, and two sizes of a range share a bin exactly if they share
  // such a step.
  lemma BinSpacing(a: int, b: int)
    requires 0 <= a <= b
    ensures b < 512 ==> (BinIndex(a) == BinIndex(b) <==> a / 8 == b / 8)
    ensures 512 <= a && b < 2560 ==> (BinIndex(a) == BinIndex(b) <==> a / 64 == b / 64)
    ensures 2560 <= a && b < 10752 ==> (BinIndex(a) == BinIndex(b) <==> a / 512 == b / 512)
    ensures 10752 <= a && b < 43520 ==> (BinIndex(a) == BinIndex(b) <==> a / 4096 == b / 4096)
    ensures 43520 <= a && b < 174592 ==> (BinIndex(a) == BinIndex(b) <==> a / 32768 == b / 32768)
    ensures 174592 <= a && b < 698880 ==> (BinIndex(a) == BinIndex(b) <==> a / 262144 == b / 262144)
    ensures 698880 <= a ==> BinIndex(a) == BinIndex(b)
  {
  }

  // The bins at the ends of the ranges.
  lemma BinEnds()
    ensures BinIndex(16) == 2 && BinIndex(504) == 63 && BinIndex(512) == 64 && BinIndex(2552) == 95
    ensures BinIndex(2560) == 96 && BinIndex(10744) == 111 && BinIndex(10752) == 112 && BinIndex(43512) == 120
    ensures BinIndex(43520) == 120 && BinIndex(174584) == 124 && BinIndex(174592) == 124 && BinIndex(698872) == 126
    ensures BinIndex(698880) == 126
  {
  }

  // 2^k
  function Pow2(k: nat): (p: int)
    ensures p >= 1
  {
    if k == 0 then 1 else 2 * Pow2(k - 1)
  }

  // Bit k of v.
  predicate Bit(v: int, k: nat)
    requires 0 <= v
  {
    if k == 0 then v % 2 == 1 else Bit(v / 2, k - 1)
  }

  // v | 1 << k and v & ~(1 << k)
  function SetBit(v: int, k: nat): (r: int)
    requires 0 <= v
    ensures v <= r
  {
    if Bit(v, k) then v else v + Pow2(k)
  }

  function ClearBit(v: int, k: nat): (r: int)
    requires 0 <= v
    ensures 0 <= r <= v
  {
    BitBound(v, k);
    if Bit(v, k) then v - Pow2(k) else v
  }

  lemma {:induction false} BitBound(v: int, k: nat)
    requires 0 <= v
    ensures Bit(v, k) ==> v >= Pow2(k)
  {
    if k > 0 { BitBound(v / 2, k - 1); }
  }

  lemma {:induction false} SetBitBits(v: int, k: nat, j: nat)
    requires 0 <= v
    ensures Bit(SetBit(v, k), j) <==> j == k || Bit(v, j)
  {
    if k > 0 {
      assert SetBit(v, k) / 2 == SetBit(v / 2, k - 1);
      assert SetBit(v, k) % 2 == v % 2;
      if j > 0 { SetBitBits(v / 2, k - 1, j - 1); }
    } else if j > 0 {
      assert SetBit(v, k) / 2 == v / 2;
    }
  }

  lemma {:induction false} ClearBitBits(v: int, k: nat, j: nat)
    requires 0 <= v
    ensures Bit(ClearBit(v, k), j) <==> j != k && Bit(v, j)
  {
    BitBound(v, k);
    if k > 0 {
      BitBound(v / 2, k - 1);
      assert ClearBit(v, k) / 2 == ClearBit(v / 2, k - 1);
      assert ClearBit(v, k) % 2 == v % 2;
      if j > 0 { ClearBitBits(v / 2, k - 1, j - 1); }
    } else if j > 0 {
      assert ClearBit(v, k) / 2 == v / 2;
    }
  }

  lemma {:induction false} SetBitRange(v: int, k: nat, n: nat)
    requires 0 <= v < Pow2(n) && k < n
    ensures SetBit(v, k) < Pow2(n)
  {
    if k > 0 {
      SetBitRange(v / 2, k - 1, n - 1);
      assert SetBit(v, k) / 2 == SetBit(v / 2, k - 1);
    }
  }

  lemma Pow2Grows(k: nat, n: nat)
    requires k <= n
    ensures Pow2(k) <= Pow2(n)
  {
  }

  // Comparing the word with a single bit asks whether any bit from there up is set.
  lemma {:induction false} SomeBitFrom(v: int, k: nat, n: nat) returns (j: nat)
    requires 0 <= v < Pow2(n) && Pow2(k) <= v
    ensures k <= j < n && Bit(v, j)
  {
    if n == 0 {
      assert false;
    } else if k == 0 {
      if v % 2 == 1 {
        j := 0;
      } else {
        var i := SomeBitFrom(v / 2, 0, n - 1);
        j := i + 1;
      }
    } else {
      var i := SomeBitFrom(v / 2, k - 1, n - 1);
      j := i + 1;
    }
  }

  lemma NoBitFrom(v: int, k: nat, j: nat)
    requires 0 <= v < Pow2(k) && k <= j
    ensures !Bit(v, j)
  {
    BitBound(v, j);
    Pow2Grows(k, j);
  }
}
