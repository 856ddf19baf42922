// httpd/uip_arch.c:71-143: the Internet checksum (RFC 1071), on a little-endian
// machine, as the stack computes, fills in, checks and updates it.

module Checksum {

  const ONES: int := 0xffff

  predicate IsWord(w: int) { 0 <= w <= ONES }

  predicate AreBytes(s: seq<int>) {
    forall i :: 0 <= i < |s| ==> 0 <= s[i] < 256
  }

  // acc += w; if (acc < w) ++acc;
  function AddCarry(acc: int, w: int): (r: int)
    requires IsWord(acc) && IsWord(w)
    ensures IsWord(r)
  {
    var s := (acc + w) % 0x1_0000;
    if s < w then (s + 1) % 0x1_0000 else s
  }

  // The reference: the plain sum of the 16-bit words, an odd last byte padded
  // with zero, and its residue modulo 0xffff, where 0xffff stands for every
  // nonzero multiple.
  function Total(s: seq<int>): int
    decreases |s|
  {
    if |s| == 0 then 0 else if |s| == 1 then s[0] else s[0] + 256 * s[1] + Total(s[2..])
  }

  // The last byte of an odd number is the first of its word, in front of a zero.
  lemma {:induction false} OddPadded(s: seq<int>)
    requires |s| % 2 == 1
    ensures Total(s) == Total(s + [0])
    decreases |s|
  {
    if |s| > 1 {
      assert (s + [0])[2..] == s[2..] + [0];
      OddPadded(s[2..]);
    } else {
      assert (s + [0])[2..] == [];
    }
  }

  lemma {:induction false} TotalAppend(s: seq<int>, t: seq<int>)
    requires |s| % 2 == 0
    ensures Total(s + t) == Total(s) + Total(t)
    decreases |s|
  {
    if s == [] {
      assert s + t == t;
    } else {
      assert (s + t)[2..] == s[2..] + t;
      TotalAppend(s[2..], t);
    }
  }

  function Residue(t: int): int {
    if t <= 0 then 0 else (t - 1) % ONES + 1
  }

  lemma {:induction false} TotalBound(s: seq<int>)
    requires AreBytes(s)
    ensures Total(s) >= 0
    ensures Total(s) == 0 <==> forall i :: 0 <= i < |s| ==> s[i] == 0
    decreases |s|
  {
    if |s| >= 2 {
      TotalBound(s[2..]);
      assert forall i :: 2 <= i < |s| ==> s[i] == s[2..][i - 2];
    }
  }

  lemma AddResidue(t: int, w: int)
    requires t >= 0 && IsWord(w)
    ensures IsWord(Residue(t)) && AddCarry(Residue(t), w) == Residue(t + w)
  {
    if t > 0 {
      var q := (t - 1) / ONES;
      var r := Residue(t);
      assert t == q * ONES + r && 1 <= r <= ONES;
      if r + w <= ONES {
        ResidueIs(t + w, q, r + w);
      } else {
        ResidueIs(t + w, q + 1, r + w - ONES);
      }
    } else if w > 0 {
      ResidueIs(w, 0, w);
    }
  }

  lemma ResidueIs(t: int, q: int, r: int)
    requires t == q * ONES + r && 1 <= r <= ONES && q >= 0
    ensures Residue(t) == r
  {
    assert (t - 1) % ONES == r - 1;
  }

  lemma AddResidues(t: int, u: int)
    requires t >= 0 && u >= 0
    ensures IsWord(Residue(t)) && IsWord(Residue(u)) && AddCarry(Residue(t), Residue(u)) == Residue(t + u)
  {
    AddResidue(u, 0);
    AddResidue(t, Residue(u));
    if u > 0 {
      var q := (u - 1) / ONES;
      assert u == q * ONES + Residue(u);
      Shift(t + Residue(u), q);
    }
  }

  lemma Shift(t: int, q: int)
    requires t > 0 && q >= 0
    ensures Residue(t + q * ONES) == Residue(t)
  {
    var p := (t - 1) / ONES;
    assert t == p * ONES + Residue(t);
    ResidueIs(t + q * ONES, p + q, Residue(t));
  }

  // uip_chksum
  method Chksum(s: seq<int>) returns (acc: int)
    requires AreBytes(s)
    ensures acc == Residue(Total(s)) && IsWord(acc)
  {
    hide Residue, AddCarry;
    acc := 0;
    var len, i := |s|, 0;
    AddResidueZero();
    ghost var t := 0;
    while len > 1
      invariant 0 <= i <= |s| && len == |s| - i && t >= 0
      invariant acc == Residue(t) && IsWord(acc) && t + Total(s[i..]) == Total(s)
      decreases len
    {
      var w := s[i] + 256 * s[i + 1];
      AddResidue(t, w);
      acc := AddCarry(acc, w);
      assert s[i..][2..] == s[i + 2..];
      t := t + w;
      len, i := len - 2, i + 2;
    }
    if len == 1 {
      AddResidue(t, s[i]);
      acc := AddCarry(acc, s[i]);
    }
  }

  lemma AddResidueZero()
    ensures Residue(0) == 0
  {
  }

  // A sum of nonnegative parts with the complement of its own residue added
  // checks out.
  lemma Complement(t: int)
    requires t >= 0
    ensures IsWord(ONES - Residue(t)) && Residue(t + (ONES - Residue(t))) == ONES
  {
    if t > 0 {
      var q := (t - 1) / ONES;
      assert t == q * ONES + Residue(t);
      ResidueIs(t + (ONES - Residue(t)), q, ONES);
    } else {
      ResidueIs(ONES, 0, ONES);
    }
  }

  // ---- filling a field in ----

  function Put(s: seq<int>, at: int, w: int): (r: seq<int>)
    requires 0 <= at && at + 1 < |s|
    ensures |r| == |s|
  {
    s[at := w % 256][at + 1 := w / 256]
  }

  lemma {:induction false} PutTotal(s: seq<int>, at: int, w: int)
    requires 0 <= at && at + 1 < |s| && at % 2 == 0 && s[at] == 0 && s[at + 1] == 0
    ensures Total(Put(s, at, w)) == Total(s) + w
    decreases |s|
  {
    if at == 0 {
      assert Put(s, at, w)[2..] == s[2..];
    } else {
      assert Put(s, at, w)[2..] == Put(s[2..], at - 2, w);
      PutTotal(s[2..], at - 2, w);
    }
  }

  const IP_CHECK: int := 10
  const TCP_CHECK: int := 16
  const HTONS_TCP: int := 0x0600

  // BUF->ipchksum = 0; BUF->ipchksum = ~uip_ipchksum();
  method FillIp(header: seq<int>) returns (filled: seq<int>)
    requires AreBytes(header) && |header| == 20
    ensures |filled| == 20 && AreBytes(filled) && Residue(Total(filled)) == ONES
    ensures WordAt(filled, IP_CHECK) == ONES - Residue(Total(Put(header, IP_CHECK, 0)))
    ensures forall i :: 0 <= i < 20 && i != IP_CHECK && i != IP_CHECK + 1 ==> filled[i] == header[i]
  {
    hide Residue, Total;
    var zeroed := Put(header, IP_CHECK, 0);
    var sum := Chksum(zeroed);
    filled := Put(zeroed, IP_CHECK, ONES - sum);
    PutTotal(zeroed, IP_CHECK, ONES - sum);
    TotalBound(zeroed);
    Complement(Total(zeroed));
  }

  // A header with known bytes; in network byte order its checksum is 0xb861.
  method KnownHeader() returns (filled: seq<int>)
    ensures |filled| == 20 && filled[IP_CHECK] == 0xb8 && filled[IP_CHECK + 1] == 0x61
  {
    hide Residue, Total, Put;
    var header := [0x45, 0, 0, 0x73, 0, 0, 0x40, 0, 0x40, 0x11, 0, 0, 0xc0, 0xa8, 0, 1, 0xc0, 0xa8, 0, 0xc7];
    filled := FillIp(header);
    KnownTotal(header);
    OneWord(filled[IP_CHECK], filled[IP_CHECK + 1], 0xb8, 0x61);
  }

  lemma KnownTotal(h: seq<int>)
    requires h == [0x45, 0, 0, 0x73, 0, 0, 0x40, 0, 0x40, 0x11, 0, 0, 0xc0, 0xa8, 0, 1, 0xc0, 0xa8, 0, 0xc7]
    ensures Put(h, IP_CHECK, 0) == h && Residue(Total(h)) == ONES - 0x61b8
  {
    hide Total, Residue;
    var t8 := [0xc0, 0xa8, 0, 0xc7];
    var t6 := [0xc0, 0xa8, 0, 1] + t8;
    var t4 := [0x40, 0x11, 0, 0] + t6;
    var t2 := [0, 0, 0x40, 0] + t4;
    EmptyTotal();
    FourMore(0xc0, 0xa8, 0, 0xc7, []);
    assert [0xc0, 0xa8, 0, 0xc7] + [] == t8;
    FourMore(0xc0, 0xa8, 0, 1, t8);
    FourMore(0x40, 0x11, 0, 0, t6);
    FourMore(0, 0, 0x40, 0, t4);
    FourMore(0x45, 0, 0, 0x73, t2);
    assert h == [0x45, 0, 0, 0x73] + t2;
    ResidueIs(Total(h), 2, ONES - 0x61b8);
  }

  lemma FourMore(a: int, b: int, c: int, d: int, t: seq<int>)
    ensures Total([a, b, c, d] + t) == a + 256 * b + c + 256 * d + Total(t)
  {
    FourBytes([a, b, c, d] + t, t);
  }

  lemma FourBytes(s: seq<int>, t: seq<int>)
    requires |s| >= 4 && s[4..] == t
    ensures Total(s) == s[0] + 256 * s[1] + s[2] + 256 * s[3] + Total(t)
  {
    TwoWords(s);
  }

  lemma OneWord(a: int, b: int, c: int, d: int)
    requires 0 <= a < 256 && 0 <= b < 256 && 0 <= c < 256 && 0 <= d < 256 && a + 256 * b == c + 256 * d
    ensures a == c && b == d
  {
  }

  function Htons(w: int): int { w % 256 * 256 + w / 256 % 256 }

  predicate IsAddress(a: seq<int>) { |a| == 4 && AreBytes(a) }

  // The pseudo header (section 3.1 of RFC 793): the addresses, a zero, the
  // protocol, and the length of TCP header and data.
  function Pseudo(src: seq<int>, dst: seq<int>, n: int): seq<int> {
    src + dst + [0, 6, n / 256, n % 256]
  }

  lemma PseudoTotal(src: seq<int>, dst: seq<int>, n: int, header: seq<int>, data: seq<int>)
    requires IsAddress(src) && IsAddress(dst) && 0 <= n <= ONES && |header| % 2 == 0
    ensures Total(Pseudo(src, dst, n) + header + data) == Total(data) + Total(header) + WordAt(src, 0) + WordAt(src, 2)
      + WordAt(dst, 0) + WordAt(dst, 2) + HTONS_TCP + Htons(n)
  {
    hide Total;
    var last := [0, 6, n / 256, n % 256];
    TotalAppend(Pseudo(src, dst, n) + header, data);
    TotalAppend(Pseudo(src, dst, n), header);
    TotalAppend(src + dst, last);
    TotalAppend(src, dst);
    EmptyTotal();
    FourBytes(src, []);
    FourBytes(dst, []);
    FourBytes(last, []);
  }

  lemma EmptyTotal()
    ensures Total([]) == 0
  {
  }

  // uip_tcpchksum; ipLen is the length field of the IP header.
  method TcpChksum(src: seq<int>, dst: seq<int>, ipLen: int, header: seq<int>, data: seq<int>) returns (sum: int)
    requires IsAddress(src) && IsAddress(dst) && AreBytes(header) && AreBytes(data)
    requires |header| == 20 && ipLen == 40 + |data| <= ONES
    ensures sum == Residue(Total(Pseudo(src, dst, 20 + |data|) + header + data)) && IsWord(sum)
  {
    hide Residue, Total, AddCarry, Pseudo;
    var hsum := Chksum(header);
    sum := Chksum(data);
    TotalBound(header);
    TotalBound(data);
    ghost var t := Total(data) + Total(header);
    AddResidues(Total(data), Total(header));
    sum := AddCarry(sum, hsum);
    sum, t := AddWord(sum, t, WordAt(src, 0));
    sum, t := AddWord(sum, t, WordAt(src, 2));
    sum, t := AddWord(sum, t, WordAt(dst, 0));
    sum, t := AddWord(sum, t, WordAt(dst, 2));
    sum, t := AddWord(sum, t, HTONS_TCP);
    sum, t := AddWord(sum, t, Htons(ipLen - 20));
    PseudoTotal(src, dst, ipLen - 20, header, data);
  }

  // if ((sum += w) < w) ++sum;
  method AddWord(sum: int, ghost t: int, w: int) returns (more: int, ghost t': int)
    requires IsWord(sum) && sum == Residue(t) && t >= 0 && IsWord(w)
    ensures more == Residue(t') && t' == t + w && IsWord(more)
  {
    hide Residue, AddCarry;
    AddResidue(t, w);
    more, t' := AddCarry(sum, w), t + w;
  }

  // BUF->tcpchksum = 0; BUF->tcpchksum = ~uip_tcpchksum();
  method FillTcp(src: seq<int>, dst: seq<int>, ipLen: int, header: seq<int>, data: seq<int>) returns (filled: seq<int>)
    requires IsAddress(src) && IsAddress(dst) && AreBytes(header) && AreBytes(data)
    requires |header| == 20 && ipLen == 40 + |data| <= ONES
    ensures |filled| == 20 && AreBytes(filled)
    ensures Residue(Total(Pseudo(src, dst, 20 + |data|) + filled + data)) == ONES
    ensures forall i :: 0 <= i < 20 && i != 16 && i != 17 ==> filled[i] == header[i]
  {
    hide Residue, Total, Pseudo;
    var zeroed := Put(header, TCP_CHECK, 0);
    var sum := TcpChksum(src, dst, ipLen, zeroed, data);
    filled := Put(zeroed, TCP_CHECK, ONES - sum);
    PutTotal(zeroed, TCP_CHECK, ONES - sum);
    PseudoTotal(src, dst, ipLen - 20, zeroed, data);
    PseudoTotal(src, dst, ipLen - 20, filled, data);
    TotalBound(zeroed);
    TotalBound(data);
    Complement(Total(Pseudo(src, dst, ipLen - 20) + zeroed + data));
  }

  // ---- the echo reply ----

  // ICMP_ECHO << 8 in network byte order, as a little-endian word.
  const ECHO: int := 0x0008

  // uip.c:718-724: the type goes from ECHO to 0, and the checksum makes up for it.
  function EchoReply(chk: int): int {
    if chk >= ONES - ECHO then (chk + ECHO + 1) % 0x1_0000 else chk + ECHO
  }

  const ICMP_ECHO: int := 8
  const ICMP_CHECK: int := 2

  function WordAt(s: seq<int>, at: int): int
    requires 0 <= at && at + 1 < |s|
  {
    s[at] + 256 * s[at + 1]
  }

  // Whether anything but the type and the checksum is nonzero.
  predicate Blank(msg: seq<int>) {
    forall i :: 0 <= i < |msg| && (i == 1 || i >= 4) ==> msg[i] == 0
  }

  // The answer to a ping: the type goes from ECHO to 0, the checksum is updated.
  // It keeps the sum of the message congruent modulo 0xffff, and so is congruent
  // to the checksum computed afresh, as RFC 1624 asks.  A request that checks
  // out gives a reply that does, unless it was blank with that checksum for
  // which the reply is all zero.
  method EchoInput(msg: seq<int>) returns (reply: seq<int>)
    requires AreBytes(msg) && |msg| >= 4 && msg[0] == ICMP_ECHO
    ensures |reply| == |msg| && AreBytes(reply) && reply[0] == 0
    ensures forall i :: 0 <= i < |msg| && i != 0 && i != ICMP_CHECK && i != ICMP_CHECK + 1 ==> reply[i] == msg[i]
    ensures Total(reply) % ONES == Total(msg) % ONES
    ensures Residue(Total(msg)) == ONES ==>
      (Residue(Total(reply)) == ONES <==> WordAt(msg, ICMP_CHECK) != ONES - ECHO || !Blank(msg))
    ensures Residue(Total(msg)) == ONES ==>
      WordAt(reply, ICMP_CHECK) % ONES == (ONES - Residue(Total(Put(reply, ICMP_CHECK, 0)))) % ONES
  {
    hide Residue, Total, EchoReply, Blank;
    var chk := WordAt(msg, ICMP_CHECK);
    var rest := 256 * msg[1] + Total(msg[4..]);
    EchoCongruent(chk, rest);
    reply := Put(msg[0 := 0], ICMP_CHECK, EchoReply(chk));
    TwoWords(msg);
    TwoWords(reply);
    var zeroed := Put(reply, ICMP_CHECK, 0);
    TwoWords(zeroed);
    assert reply[4..] == msg[4..] == zeroed[4..];
    TotalBound(msg[4..]);
    RestBlank(msg);
    if Residue(Total(msg)) == ONES {
      EchoChecks(chk, rest);
      Fresh(EchoReply(chk), rest, ECHO + chk + rest);
    }
  }

  lemma TwoWords(s: seq<int>)
    requires |s| >= 4
    ensures Total(s) == WordAt(s, 0) + WordAt(s, 2) + Total(s[4..])
  {
    assert s[2..][2..] == s[4..];
  }

  lemma RestBlank(msg: seq<int>)
    requires AreBytes(msg) && |msg| >= 4
    ensures 256 * msg[1] + Total(msg[4..]) == 0 <==> Blank(msg)
  {
    TotalBound(msg[4..]);
    assert forall i :: 4 <= i < |msg| ==> msg[i] == msg[4..][i - 4];
    if 256 * msg[1] + Total(msg[4..]) == 0 {
      assert forall i :: 0 <= i < |msg| - 4 ==> msg[4..][i] == 0;
    }
  }

  // A word that takes the sum to a multiple of 0xffff is congruent to the
  // complement of what it is added to.
  lemma Fresh(w: int, rest: int, t: int)
    requires rest >= 0 && t >= 0 && Residue(t) == ONES && (w + rest) % ONES == t % ONES
    ensures w % ONES == (ONES - Residue(rest)) % ONES
  {
    var q := (t - 1) / ONES;
    assert t == q * ONES + ONES;
    Multiple(t, q + 1);
    ResidueMod(rest);
    Cancel(w, rest, Residue(rest));
  }

  lemma Multiple(t: int, q: int)
    requires t == q * ONES
    ensures t % ONES == 0
  {
  }

  lemma ResidueMod(t: int)
    requires t >= 0
    ensures Residue(t) % ONES == t % ONES
  {
  }

  lemma Cancel(w: int, t: int, r: int)
    requires (w + t) % ONES == 0 && r % ONES == t % ONES
    ensures w % ONES == (ONES - r) % ONES
  {
  }

  // rest: the other words of the message.  The update keeps the sum congruent
  // modulo 0xffff to the sum before, as RFC 1624 asks.
  lemma EchoCongruent(chk: int, rest: int)
    requires IsWord(chk)
    ensures IsWord(EchoReply(chk))
    ensures (EchoReply(chk) + rest) % ONES == (ECHO + chk + rest) % ONES
  {
    if chk >= ONES - ECHO {
      assert ECHO + chk + rest == EchoReply(chk) + rest + ONES;
    }
  }

  // A request that checks out gives a reply that checks out, unless nothing of
  // it but the type and the checksum was nonzero: then the reply is all zero.
  lemma EchoChecks(chk: int, rest: int)
    requires IsWord(chk) && rest >= 0 && Residue(ECHO + chk + rest) == ONES
    ensures Residue(EchoReply(chk) + rest) == ONES <==> rest > 0 || chk != ONES - ECHO
    ensures rest == 0 && chk == ONES - ECHO ==> EchoReply(chk) == 0
  {
    var t := ECHO + chk + rest;
    var q := (t - 1) / ONES;
    assert t == q * ONES + ONES;
    if chk >= ONES - ECHO {
      if rest > 0 || chk != ONES - ECHO {
        assert q >= 1;
        ResidueIs(EchoReply(chk) + rest, q - 1, ONES);
      }
    } else {
      ResidueIs(EchoReply(chk) + rest, q, ONES);
    }
  }
}
