// common/cmd_rootfs.c:44-78: the table-driven CRC of the jffs2 node header,
// against division of the message, bit by bit, by the reflected polynomial.

// The word operations the CRC is made of, with the few laws it rests on.
module Words {

  function Xor(a: bv32, b: bv32): bv32 { a ^ b }

  function Shr(a: bv32): bv32 { a >> 1 }

  function Shr8(a: bv32): bv32 { a >> 8 }

  predicate Odd(a: bv32) { a & 1 == 1 }

  function LowByte(a: bv32): bv32 { a & 0xff }

  function HighBytes(a: bv32): bv32 { a & 0xffffff00 }

  function Widen(b: bv8): bv32 { b as bv32 }

  function Bit(b: bv8): bv8 { b & 1 }

  function Half(b: bv8): bv8 { b >> 1 }

  // A byte of the message as an index, and back.
  function Index(a: bv32): (i: int)
    ensures 0 <= i < 256
  {
    Fits(a);
    Small(LowByte(a));
    LowByte(a) as int
  }

  lemma Small(a: bv32)
    ensures a <= 0xff ==> 0 <= (a as int) < 256
  {
  }

  lemma Fits(a: bv32)
    ensures LowByte(a) <= 0xff
  {
  }

  function FromIndex(i: int): bv32
    requires 0 <= i < 256
  {
    i as bv32
  }

  lemma IndexBack(a: bv32)
    ensures FromIndex(Index(a)) == LowByte(a)
  {
    hide LowByte;
    ThereAndBack(LowByte(a));
  }

  lemma ThereAndBack(a: bv32)
    ensures (a as int) as bv32 == a
  {
  }

  lemma ShrXor(a: bv32, b: bv32)
    ensures Shr(Xor(a, b)) == Xor(Shr(a), Shr(b))
  {
  }

  lemma OddXor(a: bv32, b: bv32)
    ensures Odd(Xor(a, b)) == (Odd(a) != Odd(b))
  {
  }

  lemma XorAssoc(a: bv32, b: bv32, c: bv32)
    ensures Xor(a, Xor(b, c)) == Xor(Xor(a, b), c)
  {
  }

  lemma XorSwap(a: bv32, b: bv32, c: bv32)
    ensures Xor(a, Xor(b, c)) == Xor(b, Xor(a, c))
  {
  }

  lemma XorCancel(p: bv32, a: bv32, b: bv32)
    ensures Xor(a, b) == Xor(Xor(p, a), Xor(p, b))
  {
    hide Xor;
    XorAssoc(p, a, Xor(p, b));
    XorSwap(a, p, b);
    XorTwice(p, Xor(a, b));
  }

  lemma XorTwice(p: bv32, a: bv32)
    ensures Xor(p, Xor(p, a)) == a
  {
  }

  lemma XorZero(a: bv32)
    ensures Xor(a, 0) == a
  {
  }

  lemma Bytes(a: bv32)
    ensures Xor(LowByte(a), HighBytes(a)) == a
  {
  }

  lemma HighOfXor(c: bv32, b: bv8)
    ensures Shr8(HighBytes(Xor(c, Widen(b)))) == Shr8(c)
  {
  }

  lemma Shr8Times(a: bv32)
    ensures Shr(Shr(Shr(Shr(Shr(Shr(Shr(Shr(a)))))))) == Shr8(a)
  {
  }

  lemma HighEven(a: bv32)
    ensures var h := HighBytes(a);
      !Odd(h) && !Odd(Shr(h)) && !Odd(Shr(Shr(h))) && !Odd(Shr(Shr(Shr(h)))) && !Odd(Shr(Shr(Shr(Shr(h)))))
      && !Odd(Shr(Shr(Shr(Shr(Shr(h)))))) && !Odd(Shr(Shr(Shr(Shr(Shr(Shr(h)))))))
      && !Odd(Shr(Shr(Shr(Shr(Shr(Shr(Shr(h))))))))
  {
  }

  lemma BitHalf(b: bv8)
    ensures Odd(Widen(b)) == Odd(Widen(Bit(b))) && Shr(Widen(b)) == Widen(Half(b)) && Shr(Widen(Bit(b))) == 0
  {
  }

  lemma HalfGone(b: bv8)
    ensures Widen(Half(Half(Half(Half(Half(Half(Half(Half(b)))))))))  == 0
  {
  }
}

module Crc {
  import opened Words

  const POLY: bv32 := 0xedb88320

  // One step of the division: the remainder moves down one bit, and the
  // divisor is subtracted when a bit falls out.
  function Step(c: bv32): bv32 {
    if Odd(c) then Xor(POLY, Shr(c)) else Shr(c)
  }

  function Steps(c: bv32, n: nat): bv32
    decreases n
  {
    if n == 0 then c else Steps(Step(c), n - 1)
  }

  // The reference: the message enters one bit at a time, low bit first.
  function DivideBits(rem: bv32, b: bv8, n: nat): bv32
    decreases n
  {
    if n == 0 then rem else DivideBits(Step(Xor(rem, Widen(Bit(b)))), Half(b), n - 1)
  }

  function Divide(rem: bv32, message: seq<bv8>): bv32
    decreases |message|
  {
    if message == [] then rem else Divide(DivideBits(rem, message[0], 8), message[1..])
  }

  // What the bytes of a jffs2 cleanmarker make of the remainder, one by one.
  lemma KnownBytes()
    ensures DivideBits(0x0, 0x85, 8) == 0x9dd277af
    ensures DivideBits(0x9dd277af, 0x19, 8) == 0x229fc4ce
    ensures DivideBits(0x229fc4ce, 0x03, 8) == 0xe5f721c9
    ensures DivideBits(0xe5f721c9, 0x20, 8) == 0xd933adfd
  {
  }

  lemma KnownZeros()
    ensures DivideBits(0xd933adfd, 0x0c, 8) == 0xca63f127
    ensures DivideBits(0xca63f127, 0x00, 8) == 0xa5c0d69a
    ensures DivideBits(0xa5c0d69a, 0x00, 8) == 0x107fba8c
    ensures DivideBits(0x107fba8c, 0x00, 8) == 0xe41eb0b1
  {
  }

  // ---- linearity ----

  lemma StepLinear(x: bv32, y: bv32)
    ensures Step(Xor(x, y)) == Xor(Step(x), Step(y))
  {
    hide Xor, Shr, Odd;
    OddXor(x, y);
    ShrXor(x, y);
    XorAssoc(POLY, Shr(x), Shr(y));
    XorSwap(POLY, Shr(x), Shr(y));
    XorCancel(POLY, Shr(x), Shr(y));
  }

  lemma {:induction false} StepsLinear(x: bv32, y: bv32, n: nat)
    ensures Steps(Xor(x, y), n) == Xor(Steps(x, n), Steps(y, n))
    decreases n
  {
    hide Step, Xor, Shr, Odd;
    if n > 0 {
      StepLinear(x, y);
      StepsLinear(Step(x), Step(y), n - 1);
    }
  }

  function Down(y: bv32, n: nat): bv32
    decreases n
  {
    if n == 0 then y else Down(Shr(y), n - 1)
  }

  predicate EvenSteps(y: bv32, n: nat)
    decreases n
  {
    n == 0 || (!Odd(y) && EvenSteps(Shr(y), n - 1))
  }

  // Low zero bits only make the dividend move down.
  lemma {:induction false} StepsOfZeros(y: bv32, n: nat)
    requires EvenSteps(y, n)
    ensures Steps(y, n) == Down(y, n)
    decreases n
  {
    hide Shr, Odd, Xor;
    if n > 0 { StepsOfZeros(Shr(y), n - 1); }
  }

  lemma HighOnlyMoves(a: bv32)
    ensures Steps(HighBytes(a), 8) == Shr8(HighBytes(a))
  {
    hide Shr, Odd, Xor, HighBytes, Shr8, Steps;
    var h := HighBytes(a);
    HighEven(a);
    assert EvenSteps(Shr(Shr(Shr(Shr(Shr(Shr(h)))))), 2);
    assert EvenSteps(Shr(Shr(Shr(Shr(h)))), 4);
    assert EvenSteps(Shr(Shr(h)), 6);
    assert EvenSteps(h, 8);
    StepsOfZeros(h, 8);
    Shr8Times(h);
    assert Down(h, 8) == Down(Shr(Shr(h)), 6) == Down(Shr(Shr(Shr(Shr(h)))),
      4) == Down(Shr(Shr(Shr(Shr(Shr(Shr(h)))))), 2);
  }

  // ---- feeding a byte at once ----

  function Rest(b: bv8, n: nat): bv8
    decreases n
  {
    if n == 0 then b else Rest(Half(b), n - 1)
  }

  // Feeding n bits one by one is the same as feeding them first, if no more
  // than n bits are there.
  lemma {:induction false} BitsAtOnce(c: bv32, b: bv8, n: nat)
    requires Widen(Rest(b, n)) == 0
    ensures DivideBits(c, b, n) == Steps(Xor(c, Widen(b)), n)
    decreases n
  {
    hide Step, Xor, Shr, Odd, Widen, Half, Bit;
    if n == 0 {
      XorZero(c);
    } else {
      BitsAtOnce(Step(Xor(c, Widen(Bit(b)))), Half(b), n - 1);
      OneBit(c, b);
    }
  }

  lemma OneBit(c: bv32, b: bv8)
    ensures Step(Xor(c, Widen(b))) == Xor(Step(Xor(c, Widen(Bit(b)))), Widen(Half(b)))
  {
    hide Xor, Shr, Odd, Widen, Half, Bit;
    BitHalf(b);
    OddXor(c, Widen(b));
    OddXor(c, Widen(Bit(b)));
    ShrXor(c, Widen(b));
    ShrXor(c, Widen(Bit(b)));
    XorZero(Shr(c));
    XorAssoc(POLY, Shr(c), Widen(Half(b)));
  }

  lemma WholeByte(b: bv8)
    ensures Widen(Rest(b, 8)) == 0
  {
    hide Widen, Half;
    HalfGone(b);
    assert Rest(b, 8) == Rest(Half(Half(b)), 6) == Rest(Half(Half(Half(Half(b)))), 4);
    assert Rest(Half(Half(Half(Half(b)))), 4) == Rest(Half(Half(Half(Half(Half(Half(b)))))), 2);
  }

  // What the table saves: a byte's eight steps in one.
  lemma ByteStep(c: bv32, b: bv8)
    ensures Xor(EightSteps(LowByte(Xor(c, Widen(b)))), Shr8(c)) == DivideBits(c, b, 8)
  {
    hide Steps, DivideBits, Xor, Widen, LowByte, HighBytes, Shr8, Rest;
    var x := Xor(c, Widen(b));
    WholeByte(b);
    BitsAtOnce(c, b, 8);
    Bytes(x);
    StepsLinear(LowByte(x), HighBytes(x), 8);
    HighOnlyMoves(x);
    HighOfXor(c, b);
  }

  // ---- the table ----

  function EightSteps(c: bv32): bv32 {
    Steps(c, 8)
  }

  ghost predicate IsTable(table: seq<bv32>) {
    |table| == 256 && forall n {:trigger table[n]} :: 0 <= n < 256 ==> table[n] == EightSteps(FromIndex(n))
  }

  method MakeCrcTable() returns (table: array<bv32>)
    ensures fresh(table) && IsTable(table[..])
  {
    hide EightSteps, Step, FromIndex, Xor, Shr, Odd;
    table := new bv32[256];
    var n := 0;
    while n < 256
      invariant 0 <= n <= 256
      invariant forall i {:trigger table[i]} :: 0 <= i < n ==> table[i] == EightSteps(FromIndex(i))
    {
      table[n] := Entry(n);
      n := n + 1;
    }
  }

  // The inner loop of make_crc_table.
  method Entry(n: int) returns (c: bv32)
    requires 0 <= n < 256
    ensures c == EightSteps(FromIndex(n))
  {
    hide Step, FromIndex, Xor, Shr, Odd;
    c := FromIndex(n);
    var k := 0;
    while k < 8
      invariant 0 <= k <= 8 && Steps(c, 8 - k) == Steps(FromIndex(n), 8)
    {
      StepIs(c);
      c := if Odd(c) then Xor(POLY, Shr(c)) else Shr(c);
      k := k + 1;
    }
  }

  lemma StepIs(c: bv32)
    ensures Step(c) == if Odd(c) then Xor(POLY, Shr(c)) else Shr(c)
  {
  }

  // crc32_jffs2, with its table: the remainder of the division.
  method Crc32Jffs2(buf: seq<bv8>) returns (crc: bv32)
    ensures crc == Divide(0, buf)
  {
    hide EightSteps, DivideBits, FromIndex, Xor, Widen, LowByte, Shr8, Index;
    var table := MakeCrcTable();
    crc := 0;
    var i := 0;
    while i < |buf|
      invariant 0 <= i <= |buf| && IsTable(table[..])
      invariant Divide(crc, buf[i..]) == Divide(0, buf)
    {
      var index := Index(Xor(crc, Widen(buf[i])));
      IndexBack(Xor(crc, Widen(buf[i])));
      ByteStep(crc, buf[i]);
      assert table[..][index] == EightSteps(FromIndex(index));
      assert buf[i..][1..] == buf[i + 1..];
      crc := Xor(table[index], Shr8(crc));
      i := i + 1;
    }
  }
}
