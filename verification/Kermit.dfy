// common/cmd_load.c:559-965: the Kermit receiver.  It writes data into memory
// before it has seen the check character, so it depends on going back to a
// checkpoint.  Characters are bytes.

module KermitCoding {

  const END_CHAR: int := 0x0D
  const SPACE: int := 0x20
  const K_ESCAPE: int := 0x23
  const SEND_TYPE: int := 0x53
  const DATA_TYPE: int := 0x44
  const BREAK_TYPE: int := 0x42

  predicate IsByte(c: int) { 0 <= c < 256 }

  function Tochar(x: int): int { (x + SPACE) % 256 }

  function Untochar(c: int): int { (c - SPACE) % 256 }

  // (c & 0x60) == 0x40, and so on, on bytes.
  function Ktrans(c: int): int {
    if c / 32 % 4 == 2 then c - 0x40 else if c % 128 == 0x3f then (if c / 64 % 2 == 0 then c + 0x40 else c) else c
  }

  // The data as received: what is in memory, and whether the last character
  // was the quote.
  datatype Data = Data(out: seq<int>, escape: bool)

  function Feed(d: Data, c: int, quote: int): Data {
    if d.escape then Data(d.out + [Ktrans(c)], false)
    else if c == quote then Data(d.out, true)
    else Data(d.out + [c], false)
  }

  function FeedAll(d: Data, cs: seq<int>, quote: int): Data
    decreases |cs|
  {
    if cs == [] then d else FeedAll(Feed(d, cs[0], quote), cs[1..], quote)
  }

  lemma {:induction false} FeedAppend(d: Data, a: seq<int>, b: seq<int>, quote: int)
    ensures FeedAll(d, a + b, quote) == FeedAll(FeedAll(d, a, quote), b, quote)
    decreases |a|
  {
    if a == [] {
      assert a + b == b;
    } else {
      assert (a + b)[1..] == a[1..] + b;
      FeedAppend(Feed(d, a[0], quote), a[1..], b, quote);
    }
  }

  lemma FeedOne(d: Data, cs: seq<int>, j: nat, quote: int)
    requires j < |cs|
    ensures FeedAll(d, cs[..j + 1], quote) == Feed(FeedAll(d, cs[..j], quote), cs[j], quote)
  {
    assert cs[..j + 1] == cs[..j] + [cs[j]];
    FeedAppend(d, cs[..j], [cs[j]], quote);
    assert FeedAll(FeedAll(d, cs[..j], quote), [cs[j]], quote)
        == FeedAll(Feed(FeedAll(d, cs[..j], quote), cs[j], quote), [cs[j]][1..], quote);
  }

  // What a sender makes of a file byte: control characters, and the quote
  // itself, are quoted.
  function Quoted(b: int, quote: int): seq<int> {
    var low := b % 128;
    if low < 32 then [quote, b + 0x40]
    else if low == 127 then [quote, b - 0x40]
    else if low == quote then [quote, b]
    else [b]
  }

  function QuoteAll(file: seq<int>, quote: int): seq<int> {
    if file == [] then [] else Quoted(file[0], quote) + QuoteAll(file[1..], quote)
  }

  // Quote characters Kermit allows: 33 to 62 and 96 to 126.
  predicate IsQuote(q: int) {
    33 <= q <= 62 || 96 <= q <= 126
  }

  lemma UnquoteOne(d: Data, b: int, quote: int)
    requires IsByte(b) && IsQuote(quote) && !d.escape
    ensures FeedAll(d, Quoted(b, quote), quote) == Data(d.out + [b], false)
  {
    var q := Quoted(b, quote);
    if |q| == 1 {
      assert FeedAll(d, q, quote) == FeedAll(Feed(d, b, quote), q[1..], quote);
    } else {
      assert q[1..][1..] == [];
      assert FeedAll(d, q, quote) == FeedAll(Data(d.out, true), q[1..], quote);
      assert FeedAll(Data(d.out, true), q[1..], quote) == FeedAll(Feed(Data(d.out, true), q[1], quote), q[1..][1..],
        quote);
      KtransQuoted(b, quote);
    }
  }

  lemma KtransQuoted(b: int, quote: int)
    requires IsByte(b) && IsQuote(quote) && |Quoted(b, quote)| == 2
    ensures Ktrans(Quoted(b, quote)[1]) == b
  {
    var low := b % 128;
    if low < 32 { } else if low == 127 { } else { }
  }

  // Whatever the file, quoting and unquoting give it back, and what is sent is
  // printable.
  lemma {:induction false} UnquoteAll(d: Data, file: seq<int>, quote: int)
    requires (forall k :: 0 <= k < |file| ==> IsByte(file[k])) && IsQuote(quote) && !d.escape
    ensures FeedAll(d, QuoteAll(file, quote), quote) == Data(d.out + file, false)
    ensures forall k :: 0 <= k < |QuoteAll(file, quote)| ==> 32 <= QuoteAll(file, quote)[k] < 256
    decreases |file|
  {
    if file == [] {
      assert d.out + file == d.out;
    } else {
      hide FeedAll, Feed, Quoted, Ktrans;
      UnquoteOne(d, file[0], quote);
      FeedAppend(d, Quoted(file[0], quote), QuoteAll(file[1..], quote), quote);
      UnquoteAll(Data(d.out + [file[0]], false), file[1..], quote);
      assert d.out + [file[0]] + file[1..] == d.out + file;
    }
  }

  // ---- frames ----

  function Sum(s: seq<int>): int {
    if s == [] then 0 else Sum(s[..|s| - 1]) + s[|s| - 1]
  }

  lemma SumStep(s: seq<int>, j: nat)
    requires j < |s|
    ensures Sum(s[..j + 1]) == Sum(s[..j]) + s[j]
  {
    assert s[..j + 1][..j] == s[..j];
  }

  // chk1, for a sum of characters.
  function Check(sum: int): int {
    Tochar((sum + sum / 64 % 4) % 64)
  }

  // The same over bits, of which only the lowest eight of the sum matter.
  function CheckBits(sum: bv8): bv8 {
    ((sum + ((sum & 0xc0) >> 6)) & 0x3f) + 0x20
  }

  lemma CheckIsBits(sum: int, low: bv8)
    requires 0 <= sum && low as int == sum % 256
    ensures Check(sum) == CheckBits(low) as int
  {
    hide Check, CheckBits;
    SameLow(sum, sum % 256, sum / 256);
    ByteCheck(low);
  }

  lemma CheckIs(s: int)
    requires s >= 0
    ensures Check(s) == (s + s / 64 % 4) % 64 + 32
  {
  }

  lemma SameLow(s: int, t: int, q: int)
    requires s == 256 * q + t && t >= 0 && q >= 0
    ensures Check(s) == Check(t)
  {
    hide Check;
    CheckIs(s);
    CheckIs(t);
    Quarters(t, 4 * q);
    Rest(t + t / 64 % 4, 4 * q);
  }

  lemma Quarters(t: int, k: int)
    requires t >= 0
    ensures (t + 64 * k) / 64 == t / 64 + k && (k % 4 == 0 ==> (t / 64 + k) % 4 == t / 64 % 4)
  {
  }

  lemma Rest(t: int, k: int)
    ensures (t + 64 * k) % 64 == t % 64
  {
  }

  lemma ByteCheck(b: bv8)
    ensures CheckBits(b) as int == Check(b as int)
  {
    hide Check, CheckBits;
    var x := (b & 0xc0) >> 6;
    HighBits(b);
    BitsIs(b, x);
    LowBits(b + x);
    ByteSum(b, x);
    SmallSum(b as int, x as int);
  }

  lemma SmallSum(n: int, y: int)
    requires 0 <= n < 256 && y == n / 64
    ensures Check(n) == (n + y) % 64 + 0x20
  {
    hide Check;
    CheckIs(n);
  }

  lemma BitsIs(b: bv8, x: bv8)
    requires x == (b & 0xc0) >> 6
    ensures CheckBits(b) as int == ((b + x) & 0x3f) as int + 0x20
  {
    Below((b + x));
    Small((b + x) & 0x3f);
  }

  lemma Below(b: bv8)
    ensures b & 0x3f <= 0x3f
  {
  }

  lemma Small(b: bv8)
    requires b <= 0x3f
    ensures (b + 0x20) as int == b as int + 0x20
  {
  }

  lemma HighBits(b: bv8)
    ensures ((b & 0xc0) >> 6) as int == b as int / 64 && (b & 0xc0) >> 6 <= 3
  {
  }

  lemma LowBits(b: bv8)
    ensures (b & 0x3f) as int == b as int % 64
  {
  }

  lemma ByteSum(b: bv8, x: bv8)
    requires x <= 3
    ensures (b + x) as int % 64 == (b as int + x as int) % 64
  {
  }

  // Characters that differ in the two highest bits alone do not add up to the
  // same check.
  lemma CheckSees(s: int, k: int)
    requires s >= 0 && s + 64 * k >= 0 && -4 < k < 4 && k != 0
    ensures Check(s) != Check(s + 64 * k)
  {
    hide Check;
    CheckIs(s);
    CheckIs(s + 64 * k);
    Quarters(s, k);
    var a, b := s / 64 % 4, (s / 64 + k) % 4;
    Differ(s / 64, k);
    Rest(s + b, k);
    Apart(s, a, b);
  }

  lemma Differ(x: int, k: int)
    requires -4 < k < 4 && k != 0
    ensures x % 4 != (x + k) % 4
  {
  }

  lemma Apart(s: int, a: int, b: int)
    requires 0 <= a < 4 && 0 <= b < 4 && a != b
    ensures (s + a) % 64 != (s + b) % 64
  {
  }

  // A frame as it follows the start character: length, sequence number, type,
  // for long packets two length characters and a header check, then the data,
  // the check and the end character.
  predicate Long(f: seq<int>)
    requires |f| > 0
  {
    Untochar(f[0]) == 0
  }

  function First(f: seq<int>): int
    requires |f| > 0
  {
    if Long(f) then 6 else 3
  }

  function Count(f: seq<int>): (n: int)
    requires |f| > 5 || (|f| > 0 && !Long(f))
    ensures n >= 0
  {
    var length := if Long(f) then Untochar(f[3]) * 95 + Untochar(f[4]) else Untochar(f[0]) - 2;
    if length > 1 then length - 1 else 0
  }

  // As many characters as its length characters say.
  predicate Complete(f: seq<int>) {
    && (forall i :: 0 <= i < |f| ==> IsByte(f[i]))
    && (|f| > 5 || (|f| > 0 && !Long(f)))
    && |f| == First(f) + Count(f) + 2
  }

  predicate Accepts(f: seq<int>)
    requires Complete(f)
  {
    var last := First(f) + Count(f);
    && (forall i :: 0 <= i <= last ==> f[i] >= 32)
    && (Long(f) ==> f[5] == Check(Sum(f[..5])))
    && f[last] == Check(Sum(f[..last]))
    && f[last + 1] == END_CHAR
  }

  lemma {:induction false} SumDiffers(f: seq<int>, g: seq<int>, i: int)
    requires |f| == |g| && 0 <= i < |f| && forall j :: 0 <= j < |f| && j != i ==> f[j] == g[j]
    ensures Sum(g) - Sum(f) == g[i] - f[i]
    decreases |f|
  {
    var n := |f| - 1;
    if i < n {
      SumDiffers(f[..n], g[..n], i);
    } else {
      assert f[..n] == g[..n];
    }
  }

  lemma {:induction false} SumPositive(f: seq<int>)
    requires forall j :: 0 <= j < |f| ==> f[j] >= 0
    ensures Sum(f) >= 0
    decreases |f|
  {
    if f != [] { SumPositive(f[..|f| - 1]); }
  }

  // A character damaged in its two highest bits alone is noticed.
  lemma DamageNoticed(f: seq<int>, g: seq<int>, i: int, k: int)
    requires Complete(f) && Complete(g) && |f| == |g| && 0 <= i < |f| - 2 && k != 0 && g[i] == f[i] + 64 * k
    requires forall j :: 0 <= j < |f| && j != i ==> f[j] == g[j]
    ensures !Accepts(f) || !Accepts(g)
  {
    hide Sum, Check;
    var last := |f| - 2;
    SumDiffers(f[..last], g[..last], i);
    SumPositive(f[..last]);
    SumPositive(g[..last]);
    CheckSees(Sum(f[..last]), k);
  }

  // A break packet, with the check it has and with one it has not.
  lemma KnownFrames()
    ensures Complete([35, 35, 66, 42, 13]) && Accepts([35, 35, 66, 42, 13])
    ensures Complete([35, 35, 66, 40, 13]) && !Accepts([35, 35, 66, 40, 13])
  {
    SumOf3(35, 35, 66);
    assert [35, 35, 66, 42, 13][..3] == [35, 35, 66] == [35, 35, 66, 40, 13][..3];
  }

  // A long packet with one byte of data, an A.
  lemma KnownLong()
    ensures var f := [32, 33, 68, 32, 34, 42, 65, 82, 13];
      Complete(f) && Accepts(f) && Untochar(f[1]) == 1 && f[2] == DATA_TYPE && DataOf(f) == [65]
  {
    hide Sum;
    var f := [32, 33, 68, 32, 34, 42, 65, 82, 13];
    SumOf3(32, 33, 68);
    SumMore([32, 33, 68], 32);
    SumMore([32, 33, 68, 32], 34);
    SumMore([32, 33, 68, 32, 34], 42);
    SumMore([32, 33, 68, 32, 34, 42], 65);
    assert [32, 33, 68] + [32] == [32, 33, 68, 32] && [32, 33, 68, 32] + [34] == f[..5] == [32, 33, 68, 32, 34];
    assert f[..5] + [42] == [32, 33, 68, 32, 34, 42] && [32, 33, 68, 32, 34, 42] + [65] == f[..7];
  }

  lemma SumMore(s: seq<int>, c: int)
    ensures Sum(s + [c]) == Sum(s) + c
  {
    assert (s + [c])[..|s|] == s;
  }

  lemma SumOf3(a: int, b: int, c: int)
    ensures Sum([a, b, c]) == a + b + c
  {
    hide Sum;
    SumMore([], a);
    SumMore([a], b);
    SumMore([a, b], c);
    assert [] + [a] == [a] && [a] + [b] == [a, b] && [a, b] + [c] == [a, b, c];
    NoSum();
  }

  lemma NoSum()
    ensures Sum([]) == 0
  {
  }

  // What control characters, and the quote, are sent as.
  lemma KnownEscapes()
    ensures Ktrans(0x4d) == 0x0d && Ktrans(0x40) == 0 && Ktrans(0x3f) == 0x7f && Ktrans(0xcd) == 0x8d
    ensures Ktrans(0x23) == 0x23 && Ktrans(0xbf) == 0xff && Ktrans(0x7e) == 0x7e
  {
  }

  function DataOf(f: seq<int>): seq<int>
    requires Complete(f)
  {
    f[First(f)..First(f) + Count(f)]
  }

  // What a sender puts on the line for a short packet.
  function Encode(seqno: int, typ: int, data: seq<int>): seq<int> {
    var head := [Tochar(|data| + 3), Tochar(seqno), typ] + data;
    head + [Check(Sum(head)), END_CHAR]
  }

  lemma CheckPrintable(sum: int)
    ensures 32 <= Check(sum) < 96
  {
  }

  lemma EncodeAccepted(seqno: int, typ: int, data: seq<int>)
    requires 0 <= seqno < 64 && |data| <= 91 && 32 <= typ < 256
    requires forall k :: 0 <= k < |data| ==> 32 <= data[k] < 256
    ensures var f := Encode(seqno, typ, data);
            Complete(f) && Accepts(f) && Untochar(f[1]) == seqno && f[2] == typ && DataOf(f) == data
  {
    hide Sum, Check;
    var head := [Tochar(|data| + 3), Tochar(seqno), typ] + data;
    var c := Check(Sum(head));
    CheckPrintable(Sum(head));
    HeadPrintable(seqno, typ, data);
    FrameShape(head, c, data);
    var f := Encode(seqno, typ, data);
    assert f == head + [c, END_CHAR];
  }

  lemma HeadPrintable(seqno: int, typ: int, data: seq<int>)
    requires 0 <= seqno < 64 && |data| <= 91 && 32 <= typ < 256
    requires forall k :: 0 <= k < |data| ==> 32 <= data[k] < 256
    ensures var head := [Tochar(|data| + 3), Tochar(seqno), typ] + data;
            && (forall i :: 0 <= i < |head| ==> 32 <= head[i] < 256) && head[3..] == data
            && head[0] == |data| + 35 && head[1] == seqno + 32
  {
    var head := [Tochar(|data| + 3), Tochar(seqno), typ] + data;
    forall i | 0 <= i < |head|
      ensures 32 <= head[i] < 256
    {
      if i >= 3 { assert head[i] == data[i - 3]; }
    }
  }

  lemma FrameShape(head: seq<int>, c: int, data: seq<int>)
    requires |head| == |data| + 3 && head[3..] == data && head[0] == |data| + 35 && |data| <= 91 && 32 <= c < 256
    requires (forall i :: 0 <= i < |head| ==> 32 <= head[i] < 256) && c == Check(Sum(head))
    ensures var f := head + [c, END_CHAR]; Complete(f) && Accepts(f) && DataOf(f) == data
  {
    hide Sum, Check;
    var f := head + [c, END_CHAR];
    assert f[..|head|] == head && f[3..|head|] == head[3..];
    assert f[0] == head[0] && !Long(f) && First(f) == 3 && Count(f) == |data|;
  }

  const MAX_LONG: int := 95 * 95 - 2

  // A long packet: two length characters, for the data and the check, and a
  // check of the header.
  function LongHead(seqno: int, typ: int, n: int): seq<int> {
    [Tochar(0), Tochar(seqno), typ, Tochar((n + 1) / 95), Tochar((n + 1) % 95)]
  }

  function EncodeLong(seqno: int, typ: int, data: seq<int>): seq<int> {
    var first := LongHead(seqno, typ, |data|);
    var head := first + [Check(Sum(first))] + data;
    head + [Check(Sum(head)), END_CHAR]
  }

  lemma EncodeLongAccepted(seqno: int, typ: int, data: seq<int>)
    requires 0 <= seqno < 64 && |data| <= MAX_LONG && 32 <= typ < 256
    requires forall k :: 0 <= k < |data| ==> 32 <= data[k] < 256
    ensures var f := EncodeLong(seqno, typ, data);
            Complete(f) && Accepts(f) && Untochar(f[1]) == seqno && f[2] == typ && DataOf(f) == data
  {
    hide Sum, Check, Accepts, Complete, DataOf;
    var first := LongHead(seqno, typ, |data|);
    CheckPrintable(Sum(first));
    var head := first + [Check(Sum(first))] + data;
    CheckPrintable(Sum(head));
    LongPrintable(seqno, typ, |data|);
    forall i | 0 <= i < |head|
      ensures 32 <= head[i] < 256
    {
      if i >= 6 { assert head[i] == data[i - 6]; }
    }
    LongShape(head, Check(Sum(head)), data, first);
  }

  lemma LongPrintable(seqno: int, typ: int, n: int)
    requires 0 <= seqno < 64 && 0 <= n <= MAX_LONG && 32 <= typ < 256
    ensures var f := LongHead(seqno, typ, n);
            (forall i :: 0 <= i < 5 ==> 32 <= f[i] < 256) && (f[3] - 32) * 95 + f[4] - 32 == n + 1
  {
    assert 0 <= (n + 1) / 95 <= 95 && n + 1 == (n + 1) / 95 * 95 + (n + 1) % 95;
  }

  lemma LongShape(head: seq<int>, c: int, data: seq<int>, first: seq<int>)
    requires |first| == 5 && head == first + [Check(Sum(first))] + data
    requires first[0] == 32 && (first[3] - 32) * 95 + first[4] - 32 == |data| + 1
    requires (forall i :: 0 <= i < |head| ==> 32 <= head[i] < 256) && c == Check(Sum(head)) && 32 <= c < 256
    ensures var f := head + [c, END_CHAR]; Complete(f) && Accepts(f) && DataOf(f) == data
  {
    hide Sum, Check;
    var f := head + [c, END_CHAR];
    assert f[..|head|] == head && f[..5] == first && f[6..|head|] == data;
    assert Long(f) && First(f) == 6 && Count(f) == |data|;
  }
}

module Kermit {
  import opened KermitCoding

  datatype Reply = Ack(n: int) | Nack(n: int)

  // his_quote after an S packet: 18 of its parameters are kept at most.
  function QuoteOf(params: seq<int>): int {
    if |params| >= 6 then params[5] else K_ESCAPE
  }

  // The bytes in memory at [from, to).
  function Cells(m: map<int, int>, from: int, to: int): (s: seq<int>)
    requires from <= to
    ensures |s| == to - from
  {
    seq(to - from, i requires 0 <= i < to - from => if from + i in m then m[from + i] else 0)
  }

  class Receiver {
    const start: int
    var mem: map<int, int>
    // os_data_addr and k_data_escape, and their checkpoint
    var addr: int
    var escape: bool
    var addrSaved: int
    var escapeSaved: bool
    var hisQuote: int
    var lastN: int
    var n: int
    var done: bool
    var replies: seq<Reply>

    ghost predicate Valid()
      reads this
    {
      start <= addrSaved <= addr
    }

    ghost function Now(): Data
      reads this
      requires Valid()
    {
      Data(Cells(mem, start, addr), escape)
    }

    ghost function Saved(): Data
      reads this
      requires Valid()
    {
      Data(Cells(mem, start, addrSaved), escapeSaved)
    }

    constructor (start: int)
      ensures Valid() && this.start == start && Now() == Data([], false) && Saved() == Data([], false)
      ensures hisQuote == K_ESCAPE && lastN == -1 && !done && replies == []
    {
      this.start, addr, addrSaved, mem := start, start, start, map[];
      escape, escapeSaved := false, false;
      hisQuote, lastN, n, done, replies := K_ESCAPE, -1, 0, false, [];
    }

    method DataSave()
      requires Valid()
      modifies `addrSaved, `escapeSaved
      ensures Valid() && Now() == old(Now()) && Saved() == old(Now())
    {
      escapeSaved := escape;
      addrSaved := addr;
    }

    method DataRestore()
      requires Valid()
      modifies `addr, `escape
      ensures Valid() && Now() == old(Saved()) && Saved() == old(Saved())
    {
      escape := escapeSaved;
      addr := addrSaved;
    }

    method OsDataChar(c: int)
      requires Valid()
      modifies `mem, `addr
      ensures Valid() && Now() == Data(old(Now()).out + [c], old(escape)) && Saved() == old(Saved())
    {
      ghost var before := Now();
      mem := mem[addr := c];
      addr := addr + 1;
      assert Now().out == before.out + [c];
    }

    method DataChar(c: int)
      requires Valid()
      modifies `mem, `addr, `escape
      ensures Valid() && Now() == Feed(old(Now()), c, hisQuote) && Saved() == old(Saved())
    {
      if escape {
        OsDataChar(Ktrans(c));
        escape := false;
      } else if c == hisQuote {
        escape := true;
      } else {
        OsDataChar(c);
      }
    }

    // ---- one packet ----

    // From the length character on: false where the code goes to packet_error.
    method GetPacket(f: seq<int>) returns (ok: bool, typ: int)
      requires Valid() && Complete(f) && |f| > 2
      modifies `mem, `addr, `escape, `addrSaved, `escapeSaved, `lastN, `n
      ensures Valid()
      ensures f[0] < 32 || f[1] < 32 ==> !ok && Saved() == old(Saved()) && lastN == old(lastN)
      ensures f[0] >= 32 && f[1] >= 32 ==>
        n == Untochar(f[1]) && lastN == n && Saved() == Base(old(lastN), old(Saved()), old(Now()), n)
      ensures ok <==> Accepts(f)
      ensures ok ==> typ == f[2] && Now() == Result(f, Saved(), hisQuote)
    {
      typ := 0;
      var sum := 0;
      var c := f[0];
      SumStart(f);
      if c < 32 {
        return false, 0;
      }
      SumStep(f, 0);
      sum := sum + c;
      var length := Untochar(c);
      c := f[1];
      if c < 32 {
        return false, 0;
      }
      SumStep(f, 1);
      sum := sum + c;
      n := Untochar(c);
      length := length - 1;
      if n == lastN {
        DataRestore();
      } else {
        lastN := n;
        DataSave();
      }
      ok, typ := GetBody(f, sum, length);
    }

    // From the packet type on.
    method GetBody(f: seq<int>, sum0: int, length0: int) returns (ok: bool, typ: int)
      requires Valid() && Complete(f) && |f| > 2 && f[0] >= 32 && f[1] >= 32 && Now() == Saved()
      requires sum0 == Sum(f[..2]) && length0 == Untochar(f[0]) - 1
      modifies `mem, `addr, `escape
      ensures Valid() && Saved() == old(Saved())
      ensures ok <==> Accepts(f)
      ensures ok ==> typ == f[2] && Now() == Result(f, Saved(), hisQuote)
    {
      hide Accepts, Sum, Check;
      var sum, length := sum0, length0;
      ghost var base := Saved();
      typ := f[2];
      if typ < 32 {
        RejectedChar(f, 2);
        return false, typ;
      }
      SumStep(f, 2);
      sum := sum + typ;
      length := length - 1;
      var i := 3;
      if length == -2 {
        var hi := f[3];
        if hi < 32 {
          RejectedChar(f, 3);
          return false, typ;
        }
        SumStep(f, 3);
        sum := sum + hi;
        var lo := f[4];
        if lo < 32 {
          RejectedChar(f, 4);
          return false, typ;
        }
        SumStep(f, 4);
        sum := sum + lo;
        length := Untochar(hi) * 95 + Untochar(lo);
        var check := f[5];
        if check < 32 {
          RejectedChar(f, 5);
          return false, typ;
        }
        if check != Check(sum) {
          RejectedHeader(f);
          return false, typ;
        }
        SumStep(f, 5);
        sum := sum + check;
        i := 6;
      }
      assert i == First(f) && Count(f) == if length > 1 then length - 1 else 0;
      ghost var data := DataOf(f);
      var k;
      k := 0;
      while length > 1
        invariant Valid() && Saved() == base && 0 <= k <= Count(f) && i == First(f) + k
        invariant if Count(f) > 0 then length == Count(f) + 1 - k else length <= 1
        invariant sum == Sum(f[..i])
        invariant forall j :: 0 <= j < i ==> f[j] >= 32
        invariant Now() == if typ == DATA_TYPE then FeedAll(base, data[..k], hisQuote) else base
        decreases length
      {
        var c := f[i];
        if c < 32 {
          RejectedChar(f, i);
          return false, typ;
        }
        SumStep(f, i);
        sum := sum + c;
        length := length - 1;
        if typ == DATA_TYPE {
          FeedOne(base, data, k, hisQuote);
          DataChar(c);
        }
        i, k := i + 1, k + 1;
      }
      assert data[..k] == data;
      var c := f[i];
      if c < 32 {
        RejectedChar(f, i);
        return false, typ;
      }
      Verdict(f);
      if c != Check(sum) {
        return false, typ;
      }
      c := f[i + 1];
      ok := c == END_CHAR;
    }

    // One turn of the main loop of k_recv, for the characters that follow a
    // start character.
    method OnFrame(f: seq<int>)
      requires Valid() && Complete(f) && |f| > 2
      modifies this
      ensures Valid()
      ensures f[0] < 32 || f[1] < 32 ==> Now() == old(Saved()) && Saved() == old(Saved()) && lastN == old(lastN)
      ensures f[0] < 32 || f[1] < 32 ==> hisQuote == old(hisQuote) && |replies| > 0 && replies[|replies| - 1].Nack?
      ensures f[0] >= 32 && f[1] >= 32 ==>
        Handled(f, old(lastN), old(Saved()), old(Now()), old(hisQuote), lastN, Saved(), Now(), hisQuote)
      ensures f[0] >= 32 && f[1] >= 32 ==> replies == old(replies) + [if Accepts(f) then Ack(lastN) else Nack(lastN)]
      ensures done == (old(done) || (Accepts(f) && f[2] == BREAK_TYPE))
    {
      hide Accepts, Result;
      var ok, typ := GetPacket(f);
      AcceptsHeader(f);
      if !ok {
        DataRestore();
        replies := replies + [Nack(n)];
      } else if typ == SEND_TYPE {
        hisQuote := QuoteOf(DataOf(f));
        replies := replies + [Ack(n)];
      } else {
        replies := replies + [Ack(n)];
        if typ == BREAK_TYPE {
          done := true;
        }
      }
    }

    // k_recv, over the frames that come down the line.  ps are the packets of
    // the sender, and frame t is a transmission of packet idx[t].
    method Receive(frames: seq<seq<int>>, ghost ps: seq<Packet>, ghost idx: seq<nat>) returns (size: int)
      requires Valid() && Now() == Data([], false) && Saved() == Data([], false) && hisQuote == K_ESCAPE
        && lastN == -1 && !done
      requires WellSent(ps) && StopAndWait(frames, ps, idx)
      modifies this
      ensures Valid()
      ensures done <==> Finished(frames, idx, |ps| - 1, |frames|)
      ensures done ==> Now() == After(ps, |ps|).data && size == |After(ps, |ps|).data.out|
    {
      hide Accepts, After, Handled, At, Delivered, StopAndWait, Finished, Complete, WellSent;
      var t := 0;
      ghost var acc := false;
      SameLength(frames, ps, idx);
      NotFinished(frames, idx, |ps| - 1);
      while t < |frames| && !done
        invariant 0 <= t <= |frames| == |idx| && Valid()
        invariant t == 0 ==> Now() == Data([], false) && hisQuote == K_ESCAPE && lastN == -1 && !done
        invariant t > 0 ==> Seen(ps, frames[t - 1], idx[t - 1], acc, lastN, Saved(), Now(), hisQuote)
        invariant done <==> Finished(frames, idx, |ps| - 1, t)
        invariant done ==> t > 0 && acc && idx[t - 1] == |ps| - 1
        decreases |frames| - t, !done
      {
        ghost var i, f := idx[t], frames[t];
        FromSender(frames, ps, idx, t);
        DeliveredFacts(f, ps[i], i);
        ghost var acc0, n0, s0, d0, q0 := acc, lastN, Saved(), Now(), hisQuote;
        OnFrame(frames[t]);
        acc := Accepts(f);
        if t == 0 {
          StepFirst(ps, f, s0, d0, lastN, Saved(), Now(), hisQuote);
        } else {
          StepLater(ps, frames[t - 1], idx[t - 1], acc0, n0, s0, d0, q0, f, i, lastN, Saved(), Now(), hisQuote);
        }
        FinishedStep(frames, ps, idx, t);
        t := t + 1;
      }
      if done {
        AtEnd(ps, frames[t - 1], lastN, Saved(), Now(), hisQuote);
        FinishedStays(frames, idx, |ps| - 1, t);
      }
      size := addr - start;
    }
  }

  // A receiver starts with # as the quote, and stops at a break packet.
  method KnownBreak() returns (r: Receiver)
    ensures r.hisQuote == 35 && r.done && r.replies == [Ack(3)]
  {
    hide Sum, Check, Result, Accepts;
    r := new Receiver(0);
    KnownFrames();
    r.OnFrame([35, 35, 66, 42, 13]);
  }

  // An S packet whose sixth parameter is an ampersand.
  method KnownSend(r: Receiver)
    requires r.Valid()
    modifies r
    ensures r.hisQuote == 38 && r.lastN == 0 && |r.replies| > 0 && r.replies[|r.replies| - 1] == Ack(0)
  {
    hide Sum, Check, Result, Accepts;
    var f := [41, 32, 83, 126, 33, 32, 64, 45, 38, 81, 13];
    SendAccepted(f);
    r.OnFrame(f);
  }

  lemma SendAccepted(f: seq<int>)
    requires f == [41, 32, 83, 126, 33, 32, 64, 45, 38, 81, 13]
    ensures Complete(f) && Accepts(f) && DataOf(f) == [126, 33, 32, 64, 45, 38]
  {
    hide Sum;
    SumOf3(41, 32, 83);
    SumMore([41, 32, 83], 126);
    SumMore([41, 32, 83, 126], 33);
    SumMore([41, 32, 83, 126, 33], 32);
    SumMore([41, 32, 83, 126, 33, 32], 64);
    SumMore([41, 32, 83, 126, 33, 32, 64], 45);
    SumMore([41, 32, 83, 126, 33, 32, 64, 45], 38);
    assert f[..9] == [41, 32, 83, 126, 33, 32, 64, 45] + [38];
    assert f[..9] == [41, 32, 83, 126, 33, 32, 64, 45, 38];
    Sums();
  }

  lemma Sums()
    ensures [41, 32, 83] + [126] == [41, 32, 83, 126] && [41, 32, 83, 126] + [33] == [41, 32, 83, 126, 33]
    ensures [41, 32, 83, 126, 33] + [32] == [41, 32, 83, 126, 33, 32]
    ensures [41, 32, 83, 126, 33, 32] + [64] == [41, 32, 83, 126, 33, 32, 64]
    ensures [41, 32, 83, 126, 33, 32, 64] + [45] == [41, 32, 83, 126, 33, 32, 64, 45]
    ensures Check(494) == 81
  {
  }

  // The checkpoint a packet starts from: a repeated sequence number goes back.
  function Base(lastN: int, saved: Data, now: Data, n: int): Data {
    if n == lastN then saved else now
  }

  // What an accepted packet makes of it.
  function Result(f: seq<int>, base: Data, quote: int): Data
    requires Complete(f) && |f| > 2
  {
    if f[2] == DATA_TYPE then FeedAll(base, DataOf(f), quote) else base
  }

  // The effect of one packet whose length and sequence characters are
  // printable: a rejected one leaves the data as they were before the packet,
  // however often it was sent.
  ghost predicate Handled(f: seq<int>, lastN0: int, saved0: Data, now0: Data, quote0: int,
                          lastN: int, saved: Data, now: Data, quote: int)
    requires Complete(f) && |f| > 2
  {
    && lastN == Untochar(f[1]) && saved == Base(lastN0, saved0, now0, lastN)
    && now == (if Accepts(f) then Result(f, saved, quote0) else saved)
    && quote == (if Accepts(f) && f[2] == SEND_TYPE then QuoteOf(DataOf(f)) else quote0)
  }

  lemma SumStart(f: seq<int>)
    ensures Sum(f[..0]) == 0
  {
  }

  lemma RejectedChar(f: seq<int>, i: int)
    requires Complete(f) && 0 <= i <= First(f) + Count(f) && f[i] < 32
    ensures !Accepts(f)
  {
  }

  lemma RejectedHeader(f: seq<int>)
    requires Complete(f) && Long(f) && f[5] != Check(Sum(f[..5]))
    ensures !Accepts(f)
  {
  }

  lemma Verdict(f: seq<int>)
    requires Complete(f)
    requires forall i :: 0 <= i <= First(f) + Count(f) ==> f[i] >= 32
    requires Long(f) ==> f[5] == Check(Sum(f[..5]))
    ensures Accepts(f) <==>
      f[First(f) + Count(f)] == Check(Sum(f[..First(f) + Count(f)])) && f[First(f) + Count(f) + 1] == END_CHAR
  {
  }

  lemma AcceptsHeader(f: seq<int>)
    requires Complete(f) && |f| > 2
    ensures Accepts(f) ==> f[0] >= 32 && f[1] >= 32
  {
  }

  // ---- a stop-and-wait sender over a corrupting line ----

  datatype Packet = Packet(typ: int, data: seq<int>)

  // The packets of one transfer; the last one, and no other, says "break".
  ghost predicate WellSent(ps: seq<Packet>) {
    |ps| > 0 && forall i :: 0 <= i < |ps| ==> (ps[i].typ == BREAK_TYPE <==> i == |ps| - 1)
  }

  // What may arrive when packet p is sent as number i: the length and sequence
  // characters are intact, anything else may be damaged, but a frame that
  // passes its check is the one that was sent.
  ghost predicate Delivered(f: seq<int>, p: Packet, i: nat) {
    && Complete(f) && |f| > 2 && f[0] >= 32 && f[1] >= 32 && Untochar(f[1]) == i % 64
    && (Accepts(f) ==> f[2] == p.typ && DataOf(f) == p.data)
  }

  // A packet is sent again and again, and the next one only follows a
  // transmission that was accepted.
  ghost predicate StopAndWait(frames: seq<seq<int>>, ps: seq<Packet>, idx: seq<nat>) {
    && |idx| == |frames| && (|idx| > 0 ==> idx[0] == 0)
    && (forall t :: 0 <= t < |idx| ==> idx[t] < |ps| && Delivered(frames[t], ps[idx[t]], idx[t]))
    && (forall t {:trigger idx[t]} :: 0 < t < |idx| ==>
          idx[t] == idx[t - 1] || (idx[t] == idx[t - 1] + 1 && Accepted(frames[t - 1])))
  }

  predicate Accepted(f: seq<int>) {
    Complete(f) && Accepts(f)
  }

  // One of the first t frames was an accepted transmission of the last packet.
  ghost predicate Finished(frames: seq<seq<int>>, idx: seq<nat>, last: int, t: nat)
    requires t <= |frames| == |idx|
  {
    exists u :: 0 <= u < t && idx[u] == last && Accepted(frames[u])
  }

  lemma SameLength(frames: seq<seq<int>>, ps: seq<Packet>, idx: seq<nat>)
    requires StopAndWait(frames, ps, idx)
    ensures |frames| == |idx|
  {
  }

  lemma NotFinished(frames: seq<seq<int>>, idx: seq<nat>, last: int)
    requires |frames| == |idx|
    ensures !Finished(frames, idx, last, 0)
  {
  }

  lemma FinishedStep(frames: seq<seq<int>>, ps: seq<Packet>, idx: seq<nat>, t: nat)
    requires t < |frames| == |idx| && WellSent(ps) && idx[t] < |ps| && Delivered(frames[t], ps[idx[t]], idx[t])
    requires !Finished(frames, idx, |ps| - 1, t)
    ensures Complete(frames[t]) && |frames[t]| > 2
    ensures Finished(frames, idx, |ps| - 1, t + 1) <==> Accepts(frames[t]) && frames[t][2] == BREAK_TYPE
    ensures Accepts(frames[t]) && frames[t][2] == BREAK_TYPE ==> idx[t] == |ps| - 1
  {
    hide Accepts, Complete;
    assert ps[idx[t]].typ == BREAK_TYPE <==> idx[t] == |ps| - 1;
    assert forall u :: 0 <= u < t ==> !(idx[u] == |ps| - 1 && Accepted(frames[u]));
  }

  lemma FinishedStays(frames: seq<seq<int>>, idx: seq<nat>, last: int, t: nat)
    requires t <= |frames| == |idx| && Finished(frames, idx, last, t)
    ensures Finished(frames, idx, last, |frames|)
  {
  }

  lemma FromSender(frames: seq<seq<int>>, ps: seq<Packet>, idx: seq<nat>, t: nat)
    requires StopAndWait(frames, ps, idx) && t < |frames|
    ensures |idx| == |frames| && idx[t] < |ps| && Delivered(frames[t], ps[idx[t]], idx[t])
    ensures t == 0 ==> idx[t] == 0
    ensures t > 0 ==> idx[t] == idx[t - 1] || (idx[t] == idx[t - 1] + 1 && Accepted(frames[t - 1]))
  {
    hide Accepts, Complete;
  }

  // The state after frame f, a transmission of packet i.
  ghost predicate Seen(ps: seq<Packet>, f: seq<int>, i: nat, acc: bool, lastN: int, saved: Data, now: Data,
                       quote: int) {
    acc == Accepted(f) && At(ps, i, acc, lastN, saved, now, quote)
  }

  lemma StepLater(ps: seq<Packet>, f0: seq<int>, i0: nat, acc0: bool, lastN0: int, saved0: Data, now0: Data,
                  quote0: int,
                  f: seq<int>, i: nat, lastN: int, saved: Data, now: Data, quote: int)
    requires Seen(ps, f0, i0, acc0, lastN0, saved0, now0, quote0) && i < |ps| && Delivered(f, ps[i], i)
    requires i == i0 || (i == i0 + 1 && Accepted(f0))
    requires Complete(f) && |f| > 2 && Handled(f, lastN0, saved0, now0, quote0, lastN, saved, now, quote)
    ensures Seen(ps, f, i, Accepts(f), lastN, saved, now, quote)
  {
    hide Accepts, Handled, After, Delivered, At, Complete;
    if i == i0 {
      StepSame(ps, i, acc0, lastN0, saved0, now0, quote0, f, lastN, saved, now, quote);
    } else {
      StepNext(ps, i0, lastN0, saved0, now0, quote0, f, lastN, saved, now, quote);
    }
  }

  datatype Progress = Progress(data: Data, quote: int)

  function Next(g: Progress, p: Packet): Progress {
    if p.typ == DATA_TYPE then Progress(FeedAll(g.data, p.data, g.quote), g.quote)
    else if p.typ == SEND_TYPE then Progress(g.data, QuoteOf(p.data))
    else g
  }

  // Where the receiver should be once it has the first i packets.
  function After(ps: seq<Packet>, i: nat): Progress
    requires i <= |ps|
  {
    if i == 0 then Progress(Data([], false), K_ESCAPE) else Next(After(ps, i - 1), ps[i - 1])
  }

  // The receiver has seen packet i last, and accepted it or not.
  ghost predicate At(ps: seq<Packet>, i: nat, acc: bool, lastN: int, saved: Data, now: Data, quote: int) {
    && i < |ps| && lastN == i % 64 && saved == After(ps, i).data
    && now == (if acc then After(ps, i + 1).data else After(ps, i).data)
    && (acc ==> quote == After(ps, i + 1).quote)
    && (quote == After(ps, i).quote || (ps[i].typ == SEND_TYPE && quote == After(ps, i + 1).quote))
  }

  lemma DeliveredFacts(f: seq<int>, p: Packet, i: nat)
    requires Delivered(f, p, i)
    ensures Complete(f) && |f| > 2 && f[0] >= 32 && f[1] >= 32 && Untochar(f[1]) == i % 64
    ensures Accepts(f) ==> f[2] == p.typ && DataOf(f) == p.data
  {
  }

  lemma AcceptedNext(ps: seq<Packet>, i: nat, f: seq<int>, quote: int)
    requires i < |ps| && Delivered(f, ps[i], i) && Accepts(f)
    requires quote == After(ps, i).quote || ps[i].typ == SEND_TYPE
    ensures Result(f, After(ps, i).data, quote) == After(ps, i + 1).data
    ensures (if f[2] == SEND_TYPE then QuoteOf(DataOf(f)) else quote) == After(ps, i + 1).quote
  {
    hide Accepts;
    assert After(ps, i + 1) == Next(After(ps, i), ps[i]);
  }

  lemma Arrive(ps: seq<Packet>, i: nat, lastN0: int, saved0: Data, now0: Data, quote0: int, f: seq<int>,
               lastN: int, saved: Data, now: Data, quote: int)
    requires i < |ps| && Delivered(f, ps[i], i) && Complete(f) && |f| > 2
      && Handled(f, lastN0, saved0, now0, quote0, lastN, saved, now, quote)
    requires (if lastN0 == i % 64 then saved0 else now0) == After(ps, i).data
    requires quote0 == After(ps, i).quote || (ps[i].typ == SEND_TYPE && quote0 == After(ps, i + 1).quote)
    ensures At(ps, i, Accepts(f), lastN, saved, now, quote)
  {
    hide Accepts, After;
    if Accepts(f) { AcceptedNext(ps, i, f, quote0); }
    if Accepts(f) && f[2] != SEND_TYPE { OnlySendQuotes(ps, i); }
  }

  lemma OnlySendQuotes(ps: seq<Packet>, i: nat)
    requires i < |ps| && ps[i].typ != SEND_TYPE
    ensures After(ps, i + 1).quote == After(ps, i).quote
  {
  }

  lemma StepFirst(ps: seq<Packet>, f: seq<int>, saved0: Data, now0: Data, lastN: int, saved: Data, now: Data,
                  quote: int)
    requires |ps| > 0 && Delivered(f, ps[0], 0) && now0 == Data([], false)
    requires Complete(f) && |f| > 2 && Handled(f, -1, saved0, now0, K_ESCAPE, lastN, saved, now, quote)
    ensures Seen(ps, f, 0, Accepts(f), lastN, saved, now, quote)
  {
    hide Accepts, Handled, At, Delivered;
    assert After(ps, 0) == Progress(Data([], false), K_ESCAPE);
    Arrive(ps, 0, -1, saved0, now0, K_ESCAPE, f, lastN, saved, now, quote);
  }

  lemma StepSame(ps: seq<Packet>, i: nat, acc0: bool, lastN0: int, saved0: Data, now0: Data, quote0: int, f: seq<int>,
                 lastN: int, saved: Data, now: Data, quote: int)
    requires At(ps, i, acc0, lastN0, saved0, now0, quote0) && Delivered(f, ps[i], i)
    requires Complete(f) && |f| > 2 && Handled(f, lastN0, saved0, now0, quote0, lastN, saved, now, quote)
    ensures At(ps, i, Accepts(f), lastN, saved, now, quote)
  {
    hide Accepts, Handled, After, Delivered;
    Arrive(ps, i, lastN0, saved0, now0, quote0, f, lastN, saved, now, quote);
  }

  lemma StepNext(ps: seq<Packet>, i: nat, lastN0: int, saved0: Data, now0: Data, quote0: int, f: seq<int>,
                 lastN: int, saved: Data, now: Data, quote: int)
    requires At(ps, i, true, lastN0, saved0, now0, quote0) && i + 1 < |ps| && Delivered(f, ps[i + 1], i + 1)
    requires Complete(f) && |f| > 2 && Handled(f, lastN0, saved0, now0, quote0, lastN, saved, now, quote)
    ensures At(ps, i + 1, Accepts(f), lastN, saved, now, quote)
  {
    hide Accepts, Handled, After, Delivered;
    assert i % 64 != (i + 1) % 64;
    Arrive(ps, i + 1, lastN0, saved0, now0, quote0, f, lastN, saved, now, quote);
  }

  lemma AtEnd(ps: seq<Packet>, f: seq<int>, lastN: int, saved: Data, now: Data, quote: int)
    requires |ps| > 0 && Seen(ps, f, |ps| - 1, true, lastN, saved, now, quote)
    ensures now == After(ps, |ps|).data
  {
  }

  // The sender must not go on while its latest transmission was rejected, even
  // if an earlier one of the same packet got through: the rejected one has
  // taken the receiver back, and the packet's data are lost.
  lemma LostWhenEarly(ps: seq<Packet>, i: nat, lastN0: int, saved0: Data, now0: Data, quote0: int, f: seq<int>,
                      lastN: int, saved: Data, now: Data, quote: int)
    requires At(ps, i, false, lastN0, saved0, now0, quote0) && i + 1 < |ps| && Delivered(f, ps[i + 1], i + 1)
    requires ps[i].typ == DATA_TYPE && ps[i + 1].typ == DATA_TYPE && Accepts(f)
    requires Complete(f) && |f| > 2 && Handled(f, lastN0, saved0, now0, quote0, lastN, saved, now, quote)
    ensures now == Next(After(ps, i), ps[i + 1]).data
  {
    hide Accepts, After;
    OnlySendQuotes(ps, i);
    assert i % 64 != (i + 1) % 64;
  }

  // A damaged length character that is not printable undoes the packet before:
  // what follows lands where that packet's data were.
  method DamagedLength(r: Receiver, a: seq<int>, bad: seq<int>, b: seq<int>)
    requires r.Valid() && r.Now() == r.Saved()
    requires Complete(a) && |a| > 2 && Accepts(a) && a[2] == DATA_TYPE && Untochar(a[1]) != r.lastN
    requires Complete(bad) && |bad| > 2 && bad[0] < 32
    requires Complete(b) && |b| > 2 && Accepts(b) && b[2] == DATA_TYPE && Untochar(b[1]) != Untochar(a[1])
    modifies r
    ensures r.Valid() && r.Now() == FeedAll(old(r.Now()), DataOf(b), r.hisQuote)
  {
    hide Accepts, FeedAll;
    AcceptsHeader(a);
    AcceptsHeader(b);
    r.OnFrame(a);
    r.OnFrame(bad);
    r.OnFrame(b);
  }

  // ---- what the transfer means ----

  function AllData(ps: seq<Packet>, i: nat): seq<int>
    requires i <= |ps|
  {
    if i == 0 then [] else AllData(ps, i - 1) + if ps[i - 1].typ == DATA_TYPE then ps[i - 1].data else []
  }

  // Packets may end anywhere, also behind a quote character: only the
  // concatenation of their data matters.
  lemma {:induction false} AfterIsConcatenation(ps: seq<Packet>, i: nat)
    requires 0 < i <= |ps| && ps[0].typ == SEND_TYPE && forall j :: 0 < j < |ps| ==> ps[j].typ != SEND_TYPE
    ensures After(ps, i) == Progress(FeedAll(Data([], false), AllData(ps, i), QuoteOf(ps[0].data)), QuoteOf(ps[0].data))
    decreases i
  {
    var q := QuoteOf(ps[0].data);
    if i == 1 {
      assert After(ps, 1) == Next(After(ps, 0), ps[0]);
      assert AllData(ps, 1) == AllData(ps, 0) + [] == [];
    } else {
      AfterIsConcatenation(ps, i - 1);
      assert After(ps, i) == Next(After(ps, i - 1), ps[i - 1]);
      if ps[i - 1].typ == DATA_TYPE {
        FeedAppend(Data([], false), AllData(ps, i - 1), ps[i - 1].data, q);
      } else {
        assert AllData(ps, i) == AllData(ps, i - 1);
      }
    }
  }

  // A file that is quoted and cut into data packets in any way arrives as it was.
  lemma FileArrives(ps: seq<Packet>, file: seq<int>)
    requires |ps| > 0 && ps[0].typ == SEND_TYPE && (forall j :: 0 < j < |ps| ==> ps[j].typ != SEND_TYPE)
    requires (forall k :: 0 <= k < |file| ==> IsByte(file[k])) && IsQuote(QuoteOf(ps[0].data))
    requires AllData(ps, |ps|) == QuoteAll(file, QuoteOf(ps[0].data))
    ensures After(ps, |ps|).data == Data(file, false)
  {
    AfterIsConcatenation(ps, |ps|);
    UnquoteAll(Data([], false), file, QuoteOf(ps[0].data));
    assert [] + file == file;
  }
}
