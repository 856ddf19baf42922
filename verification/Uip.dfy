// httpd/uip.c and httpd/uip_arch.c: sequence numbers as four bytes.

module Seqno {

  const WRAP: int := 0x1_0000_0000

  // Arithmetic on sequence numbers is modulo 2^32.
  function Mod(x: int): (r: int)
    ensures 0 <= r < WRAP
  {
    x % WRAP
  }

  predicate IsByte(b: int) { 0 <= b < 256 }

  // A sequence number in network byte order.
  predicate IsQuad(q: seq<int>) {
    |q| == 4 && IsByte(q[0]) && IsByte(q[1]) && IsByte(q[2]) && IsByte(q[3])
  }

  function Val(q: seq<int>): (v: int)
    requires IsQuad(q)
    ensures 0 <= v < WRAP
  {
    q[0] * 0x100_0000 + q[1] * 0x1_0000 + q[2] * 0x100 + q[3]
  }

  // Comparing byte by byte compares the numbers.
  lemma SameVal(p: seq<int>, q: seq<int>)
    requires IsQuad(p) && IsQuad(q)
    ensures |p| == 4 && |q| == 4
    ensures Val(p) == Val(q) <==> p[0] == q[0] && p[1] == q[1] && p[2] == q[2] && p[3] == q[3]
    ensures Val(p) == Val(q) <==> p == q
  {
    if Val(p) == Val(q) {
      LastByte((p[0] * 256 + p[1]) * 256 + p[2], p[3], (q[0] * 256 + q[1]) * 256 + q[2], q[3]);
      LastByte(p[0] * 256 + p[1], p[2], q[0] * 256 + q[1], q[2]);
      LastByte(p[0], p[1], q[0], q[1]);
    }
  }

  lemma LastByte(x: int, b: int, y: int, c: int)
    requires 0 <= b < 256 && 0 <= c < 256 && x * 256 + b == y * 256 + c
    ensures x == y && b == c
  {
  }

  // uip_add32: the carries between the bytes, written by hand.
  method Add32(op32: seq<int>, op16: int) returns (acc: seq<int>)
    requires IsQuad(op32) && 0 <= op16 < 0x1_0000
    ensures IsQuad(acc) && Val(acc) == Mod(Val(op32) + op16)
  {
    var a3 := (op32[3] + op16 % 256) % 256;
    var a2 := (op32[2] + op16 / 256) % 256;
    var a1 := op32[1];
    var a0 := op32[0];
    if a2 < op16 / 256 {
      a1 := (a1 + 1) % 256;
      if a1 == 0 {
        a0 := (a0 + 1) % 256;
      }
    }
    if a3 < op16 % 256 {
      a2 := (a2 + 1) % 256;
      if a2 == 0 {
        a1 := (a1 + 1) % 256;
        if a1 == 0 {
          a0 := (a0 + 1) % 256;
        }
      }
    }
    acc := [a0, a1, a2, a3];
    ghost var c3 := if op32[3] + op16 % 256 >= 256 then 1 else 0;
    ghost var c2 := if op32[2] + op16 / 256 + c3 >= 256 then 1 else 0;
    ghost var c1 := if op32[1] + c2 >= 256 then 1 else 0;
    ghost var c0 := if op32[0] + c1 >= 256 then 1 else 0;
    Carries(op32, op16, acc, c0, c1, c2, c3);
  }

  // Long addition with carries c3, c2, c1, c0 out of the four bytes.
  lemma Carries(q: seq<int>, n: int, r: seq<int>, c0: int, c1: int, c2: int, c3: int)
    requires IsQuad(q) && IsQuad(r) && 0 <= n < 0x1_0000
    requires q[3] + n % 256 == 256 * c3 + r[3] && q[2] + n / 256 + c3 == 256 * c2 + r[2]
    requires q[1] + c2 == 256 * c1 + r[1] && q[0] + c1 == 256 * c0 + r[0]
    ensures Val(r) == Mod(Val(q) + n)
  {
    assert n == n / 256 * 256 + n % 256;
    assert Val(q) + n == c0 * WRAP + Val(r);
    ModOfSum(c0, Val(r));
  }

  lemma ModOfSum(c: int, v: int)
    requires 0 <= v < WRAP
    ensures Mod(c * WRAP + v) == v
  {
  }

  // The increment of the initial sequence number on every timer tick.
  method Increment(q: seq<int>) returns (r: seq<int>)
    requires IsQuad(q)
    ensures IsQuad(r) && Val(r) == Mod(Val(q) + 1)
  {
    r := q[3 := (q[3] + 1) % 256];
    if r[3] == 0 {
      r := r[2 := (r[2] + 1) % 256];
      if r[2] == 0 {
        r := r[1 := (r[1] + 1) % 256];
        if r[1] == 0 {
          r := r[0 := (r[0] + 1) % 256];
        }
      }
    }
    hide Val, Mod;
    ghost var c3 := if q[3] == 255 then 1 else 0;
    ghost var c2 := if q[2] + c3 == 256 then 1 else 0;
    ghost var c1 := if q[1] + c2 == 256 then 1 else 0;
    ghost var c0 := if q[0] + c1 == 256 then 1 else 0;
    Carries(q, 1, r, c0, c1, c2, c3);
  }
}

// One connection of the TCP machine, with the HTTP server on top of it.
module Tcp {
  import opened Seqno

  const UIP_RTO: int := 3
  const UIP_MAXRTX: int := 8
  const UIP_MAXSYNRTX: int := 3
  const UIP_TIME_WAIT_TIMEOUT: int := 120
  const UIP_TCP_MSS: int := 1446
  const POLLS: int := 100

  datatype TcpState = Closed | SynRcvd | Established | FinWait1 | FinWait2 | Closing | TimeWait | LastAck

  // uip_flags
  datatype Flags = Flags(acked: bool, newdata: bool, rexmit: bool, poll: bool, close: bool, abort: bool,
                         connected: bool,
                         timedout: bool)

  const NOTHING := Flags(false, false, false, false, false, false, false, false)

  // A segment; sequence numbers are in network byte order.
  datatype Segment = Segment(syn: bool, ack: bool, fin: bool, rst: bool, seqno: seq<int>, ackno: seq<int>, wnd: int,
                             data: seq<int>)

  datatype Out = Nothing | Send(seg: Segment)

  // struct httpd_state; the page being served is file[ptr..].
  datatype AppState = Idle | File | Upload
  datatype Hs = Hs(state: AppState, count: int, file: seq<int>, ptr: int, upload: int, total: int)

  // The upload: whether the start of the file has been found, whether it is of
  // no use, what has been stored of it, whether an answer to it is on its way,
  // and whether the upgrade may start.
  datatype Image = Image(begun: bool, failed: bool, loaded: seq<int>, done: bool, ready: bool)

  // What scanning the incoming text comes to: a GET for a page; a POST with the
  // length of its body; the start of a file of `total` bytes at `at`, in a POST
  // or behind it; a POST that is answered at once; or nothing of the kind.  Once
  // the file has begun nothing is looked for, but `failed` is what its check
  // says and `page` the answer if the chunk is the last one.
  datatype Look = Get(page: seq<int>) | Post(total: int) | Begin(total: int, at: int, failed: bool)
    | Answer(page: seq<int>, failed: bool) | Refuse | Chunk(page: seq<int>, failed: bool)

  // Where the file begins in the data, if its start is found there.
  predicate Found(look: Look, data: seq<int>) {
    look.Begin? && 0 <= look.at <= |data|
  }

  function PageOf(look: Look): seq<int> {
    if look.Get? || look.Answer? || look.Chunk? then look.page else []
  }

  predicate Bad(look: Look) {
    (look.Begin? || look.Answer? || look.Chunk?) && look.failed
  }

  function Min(a: int, b: int): int { if a < b then a else b }

  predicate IsSegment(g: Segment) {
    IsQuad(g.seqno) && IsQuad(g.ackno) && 0 <= g.wnd < 0x1_0000 && |g.data| <= 0x1_0000 - 40
  }

  // What the network may deliver: any part of the peer's stream, any number of
  // times and in any order, as long as its number is less than 2^32 away from
  // what is expected (section 3.3 of RFC 793).
  ghost predicate FromPeer(g: Segment, isn: int, stream: seq<int>, delivered: int, off: int)
    requires IsSegment(g)
  {
    g.data != [] ==>
      && 0 <= off && off + |g.data| <= |stream| && g.data == stream[off..off + |g.data|]
      && Val(g.seqno) == Mod(isn + 1 + off) && -WRAP < off - delivered < WRAP
  }

  // The one offset that a sequence number stands for.
  lemma SameOffset(isn: int, off: int, delivered: int)
    requires Mod(isn + 1 + off) == Mod(isn + 1 + delivered) && -WRAP < off - delivered < WRAP
    ensures off == delivered
  {
  }

  lemma AddOffset(isn: int, k: int, n: int)
    ensures Mod(Mod(isn + k) + n) == Mod(isn + k + n)
  {
  }

  ghost predicate Numbers(len: int, mss: int, initialMss: int, rto: int, timer: int, nrtx: int) {
    && 0 <= len < 0x1_0000 && 0 <= mss <= initialMss < 0x1_0000
    && 0 <= rto < 256 && 0 <= timer < 256 && 0 <= nrtx <= UIP_MAXRTX
  }

  // A SYN or FIN of ours is outstanding until it is acknowledged.
  ghost predicate Outstanding(state: TcpState, len: int, nrtx: int) {
    && (state == SynRcvd ==> nrtx <= UIP_MAXSYNRTX && len == 1)
    && (state == FinWait1 || state == Closing || state == LastAck ==> len > 0)
  }

  // What is in flight of a page was within a segment size, which is not zero.
  ghost predicate Sized(state: TcpState, len: int, mss: int) {
    state == Established && len > 0 ==> mss > 0
  }

  // While established: at most POLLS polls so far; only a page is ever in
  // flight, and no more of it than is left.
  ghost predicate AppOk(state: TcpState, hs: Hs, len: int) {
    if state == Established then
      && 0 <= hs.count <= POLLS
      && (if hs.state == File then 0 <= hs.ptr && hs.upload == |hs.file| - hs.ptr && 0 <= len <= hs.upload
        else len == 0)
    else hs.state == Idle
  }

  // The bytes handed over are a prefix of the stream, and in ESTABLISHED
  // rcv_nxt is the number of the next one.
  ghost predicate RecvOk(state: TcpState, rcvNxt: int, isn: int, stream: seq<int>, delivered: seq<int>) {
    && delivered <= stream
    && (state == SynRcvd ==> delivered == [])
    && (state == SynRcvd || state == Established ==> rcvNxt == Mod(isn + 1 + |delivered|))
  }

  // A download: the client has sent, or will send, a GET for `page`, and the
  // number of the first byte of the answer is `base`.  adv is what has just
  // been acknowledged.
  ghost predicate OnPage(state: TcpState, hs: Hs, len: int, mss: int, initialMss: int, sndNxt: int, base: int,
                         page: seq<int>, adv: int, steady: bool) {
    && page != [] && initialMss > 0
    && (state == SynRcvd ==> mss == initialMss && sndNxt == Mod(base - 1 + adv))
    && (state == Established ==> mss > 0 && hs.state != Upload)
    && (state == Established && hs.state == Idle ==> sndNxt == Mod(base))
    && (state == Established && hs.state == File ==>
          hs.file == page && 0 <= hs.ptr < |page| && 0 < len <= hs.upload && sndNxt == Mod(base + hs.ptr + adv))
    && (state == FinWait1 ==> len == 1 && sndNxt == Mod(base + |page| + adv))
    && state != Closing && state != TimeWait && state != LastAck
    && (steady && state == Established ==> mss == initialMss && (hs.state == File ==> len == Min(hs.upload, mss)))
  }

  // The segment size after a segment that offers this window.
  function NewMss(wnd: int, initialMss: int): int {
    if wnd > initialMss || wnd == 0 then initialMss else wnd
  }

  // The connection state diagram (section 3.2 of RFC 793) as far as segments
  // move a passively opened connection: without CLOSE-WAIT, and with a FIN
  // ignored while something of ours is outstanding.  In ESTABLISHED the
  // application may also close or abort.
  predicate Diagram(from: TcpState, fin: bool, acked: bool, outstanding: bool, to: TcpState) {
    match from
    case SynRcvd => to == if acked then Established else SynRcvd
    case Established =>
      if !fin then to == Established || (acked && to == FinWait1) || to == Closed
      else to == if outstanding then Established else LastAck
    case FinWait1 => to == if fin then (if acked then TimeWait else Closing) else if acked then FinWait2 else FinWait1
    case FinWait2 => to == if fin then TimeWait else FinWait2
    case Closing => to == if acked then TimeWait else Closing
    case LastAck => to == if acked then Closed else LastAck
    case TimeWait => to == TimeWait
    case Closed => to == Closed
  }

  // Whether the part of the file that has come with `data` is all of it.
  predicate Complete(h: Hs, data: seq<int>) {
    h.upload + |data| >= h.total
  }

  function More(u: Image, data: seq<int>): Image {
    if u.failed then u else u.(loaded := u.loaded + data)
  }

  // The answer to an upload has arrived: the upgrade starts if all went well.
  function Finished(u: Image): Image {
    if u.done then u.(begun := false, ready := u.ready || !u.failed, done := false, failed := false)
    else u.(begun := false)
  }

  datatype Verdict = Wait | Page | Drop

  // Data have come that are not for a page being sent.
  predicate OnlyData(f: Flags) {
    f.newdata && !f.acked && !f.rexmit
  }

  // What a request, or a part of an upload, comes to: wait for more, send a
  // page, or drop the connection.
  function Asked(h: Hs, u: Image, data: seq<int>, look: Look): (Hs, Image, Verdict)
  {
    if h.state == Idle && look.Get? then
      (Hs(File, h.count, look.page, 0, |look.page|, h.total), u, Page)
    else if h.state == Idle && look.Post? then
      (h.(state := Upload, total := look.total), u.(begun := false), Wait)
    else if h.state == Idle && look.Answer? then
      (Hs(File, 0, look.page, 0, |look.page|, 0), u.(begun := false, failed := look.failed, done := true), Page)
    else if h.state == Upload && u.begun then
      if Complete(h, data) then
        (Hs(File, 0, PageOf(look), 0, |PageOf(look)|, 0),
         More(u, data).(begun := false, failed := u.failed || Bad(look), done := true), Page)
      else (h.(upload := h.upload + |data|), More(u, data), Wait)
    else if Found(look, data) then
      (h.(state := Upload, total := look.total, upload := |data| - look.at),
       u.(begun := true, failed := u.failed || look.failed, loaded := data[look.at..]), Wait)
    else (Hs(Idle, 0, [], 0, 0, 0), u.(begun := false), Drop)
  }

  // rcv_nxt once n bytes, and the FIN behind them, are counted.
  function Counted(v: int, n: int, fin: bool): int {
    if fin then Mod(Mod(v + n) + 1) else Mod(v + n)
  }

  class Conn {
    var state: TcpState
    var rcvNxt: seq<int>
    var sndNxt: seq<int>
    var len: int
    var mss: int
    var initialMss: int
    var rto: int
    var timer: int
    var nrtx: int
    var hs: Hs
    // uip_flags, and what the application handed to uip_send
    var flags: Flags
    var slen: int
    var sptr: int
    // The upload; the C code keeps it in static variables.
    var img: Image

    // The peer's initial sequence number and all it has to say, and what of
    // that the application was given.
    ghost var isn: int
    ghost var stream: seq<int>
    ghost var delivered: seq<int>
    // All windows taken over so far were closed or held a whole segment.
    ghost var steady: bool

    ghost predicate Valid()
      reads this
    {
      && IsQuad(rcvNxt) && IsQuad(sndNxt) && Numbers(len, mss, initialMss, rto, timer, nrtx)
      && Outstanding(state, len, nrtx) && AppOk(state, hs, len)
      && RecvOk(state, Val(rcvNxt), isn, stream, delivered) && Sized(state, len, mss)
    }

    constructor ()
      ensures Valid() && state == Closed
    {
      state := Closed;
      rcvNxt, sndNxt := [0, 0, 0, 0], [0, 0, 0, 0];
      len, mss, initialMss, rto, timer, nrtx := 0, 0, 0, 0, 0, 0;
      hs := Hs(Idle, 0, [], 0, 0, 0);
      flags, slen, sptr := NOTHING, 0, 0;
      img := Image(false, false, [], false, false);
      isn, stream, delivered, steady := 0, [], [], false;
    }

    // ---- the application: httpd_appcall ----

    method StateReset()
      modifies `hs, `img
      ensures hs == Hs(Idle, 0, [], 0, 0, 0) && img == old(img).(begun := false)
    {
      hs := Hs(Idle, 0, [], 0, 0, 0);
      img := img.(begun := false);
    }

    method SendPage()
      modifies `slen, `sptr
      ensures slen == Min(hs.upload, mss) && sptr == hs.ptr
    {
      slen := if hs.upload > mss then mss else hs.upload;
      sptr := hs.ptr;
    }

    method ServePage(page: seq<int>)
      modifies `hs, `slen, `sptr
      ensures hs == Hs(File, old(hs).count, page, 0, |page|, old(hs).total)
      ensures slen == Min(|page|, mss) && sptr == 0
    {
      hs := hs.(state := File, file := page, ptr := 0, upload := |page|);
      SendPage();
    }

    method PostDone(page: seq<int>)
      modifies `hs, `img, `slen, `sptr
      ensures hs == Hs(File, 0, page, 0, |page|, 0) && slen == Min(|page|, mss) && sptr == 0
      ensures img == old(img).(begun := false, done := true)
    {
      img := img.(done := true);
      StateReset();
      ServePage(page);
    }

    // The start of the file: remember its size and store what there is of it.
    method StoreFirst(data: seq<int>, look: Look)
      requires Found(look, data)
      modifies `hs, `img
      ensures hs == old(hs).(state := Upload, total := look.total, upload := |data| - look.at)
      ensures img == old(img).(begun := true, failed := old(img).failed || look.failed, loaded := data[look.at..])
    {
      img := img.(failed := img.failed || look.failed);
      hs := hs.(state := Upload, total := look.total, upload := |data| - look.at);
      img := img.(loaded := data[look.at..]);
      img := img.(begun := true);
    }

    // Another part of the file.
    method StoreMore(data: seq<int>, look: Look)
      modifies `hs, `img, `slen, `sptr
      ensures !Complete(old(hs), data) ==>
        hs == old(hs).(upload := old(hs).upload + |data|) && img == More(old(img), data) && slen == old(slen)
      ensures Complete(old(hs), data) ==>
        && hs == Hs(File, 0, PageOf(look), 0, |PageOf(look)|, 0) && slen == Min(|PageOf(look)|, mss) && sptr == 0
        && img == More(old(img), data).(begun := false, failed := old(img).failed || Bad(look), done := true)
    {
      hs := hs.(upload := hs.upload + |data|);
      if !img.failed {
        img := img.(loaded := img.loaded + data);
      }
      if hs.upload >= hs.total {
        if Bad(look) {
          img := img.(failed := true);
        }
        PostDone(PageOf(look));
      }
    }

    // Takes the data over when UIP_NEWDATA is set.
    method AppCall(data: seq<int>, look: Look)
      requires (hs.state == File ==> 0 <= hs.ptr && hs.upload == |hs.file| - hs.ptr && 0 <= len <= hs.upload)
        && 0 <= mss
      modifies `hs, `img, `flags, `slen, `sptr, `delivered
      ensures delivered == (if old(flags).newdata then old(delivered) + data else old(delivered))
      ensures old(flags).close ==>
        flags == NOTHING.(close := true) && hs == Hs(Idle, 0, [], 0, 0, 0) && slen == old(slen)
        && img == old(img).(begun := false)
      ensures !old(flags).close && (old(flags).abort || old(flags).timedout) ==>
        flags == NOTHING.(abort := true) && hs == Hs(Idle, 0, [], 0, 0, 0) && slen == old(slen)
        && img == old(img).(begun := false)
      ensures old(flags) == NOTHING.(poll := true) ==>
        && slen == old(slen)
        && if old(hs).count >= POLLS then
             flags == NOTHING.(abort := true) && hs == Hs(Idle, 0, [], 0, 0, 0) && img == old(img).(begun := false)
           else flags == old(flags) && hs == old(hs).(count := old(hs).count + 1) && img == old(img)
      ensures var f0 := old(flags); f0.connected && !f0.close && !f0.abort && !f0.timedout && !f0.poll ==>
        flags == old(flags) && hs == Hs(Idle, 0, [], 0, 0, 0) && slen == old(slen)
        && img == old(img).(begun := false)
      ensures Plain(old(flags)) && old(hs).state == File && old(slen) == 0 ==>
        FileStep(old(flags), old(hs), flags, hs, slen, sptr, mss, len)
        && img == if old(flags).acked && old(hs).upload <= mss then Finished(old(img)) else old(img)
      // A request, or a part of an upload.
      ensures Plain(old(flags)) && old(hs).state != File && OnlyData(old(flags)) && old(slen) == 0 ==>
        var (h, u, verdict) := Asked(old(hs), old(img), data, look);
        && hs == h && img == u
        && flags == (if verdict.Drop? then NOTHING.(abort := true) else old(flags))
        && slen == (if verdict.Page? then Min(|h.file|, mss) else 0) && (verdict.Page? ==> sptr == 0)
      ensures Plain(old(flags)) && old(hs).state != File && old(slen) == 0 ==>
        Served(old(flags), old(hs).count, flags, hs, slen, sptr, mss)
    {
      if flags.newdata { delivered := delivered + data; }
      if flags.close {
        StateReset();
        flags := NOTHING.(close := true);
        return;
      }
      if flags.abort || flags.timedout {
        StateReset();
        flags := NOTHING.(abort := true);
        return;
      }
      if flags.poll {
        hs := hs.(count := hs.count + 1);
        if hs.count - 1 >= POLLS {
          StateReset();
          flags := NOTHING.(abort := true);
        }
        return;
      }
      if flags.connected {
        StateReset();
        return;
      }
      if flags.newdata && hs.state == Idle {
        if look.Get? {
          ServePage(look.page);
        } else if look.Post? {
          hs := hs.(state := Upload, total := look.total);
          img := img.(begun := false);
        } else if Found(look, data) {
          StoreFirst(data, look);
        } else if look.Answer? {
          img := img.(failed := look.failed);
          PostDone(look.page);
        } else {
          StateReset();
          flags := NOTHING.(abort := true);
        }
        return;
      }
      if flags.acked {
        if hs.state == File {
          if hs.upload <= mss {
            if img.done {
              if !img.failed {
                img := img.(ready := true);
              }
              img := img.(done := false, failed := false);
            }
            StateReset();
            flags := NOTHING.(close := true);
            return;
          }
          hs := hs.(ptr := hs.ptr + len, upload := hs.upload - len);
          SendPage();
        }
        return;
      }
      if flags.rexmit {
        if hs.state == File {
          SendPage();
        }
        return;
      }
      if flags.newdata {
        if hs.state == Upload {
          if img.begun {
            StoreMore(data, look);
          } else if Found(look, data) {
            StoreFirst(data, look);
          } else {
            StateReset();
            flags := NOTHING.(abort := true);
          }
        }
      }
    }

    // Calls after which the application is back where it starts.
    method AppTold(data: seq<int>)
      requires flags.close || flags.abort || flags.timedout || (flags.connected && !flags.poll)
      requires (hs.state == File ==> 0 <= hs.ptr && hs.upload == |hs.file| - hs.ptr && 0 <= len <= hs.upload)
        && 0 <= mss
      modifies `hs, `img, `flags, `slen, `sptr, `delivered
      ensures delivered == (if old(flags).newdata then old(delivered) + data else old(delivered))
      ensures hs == Hs(Idle, 0, [], 0, 0, 0) && slen == old(slen) && img == old(img).(begun := false)
      ensures old(flags).connected && !old(flags).close && !old(flags).abort && !old(flags).timedout ==>
        flags == old(flags)
    {
      hide FileStep, Served;
      AppCall(data, Refuse);
    }

    // ---- sending ----

    // From tcp_send_noopts on: the numbers every segment carries.
    method Emit(syn: bool, fin: bool, rst: bool, data: seq<int>) returns (out: Out)
      ensures out == Send(Segment(syn, true, fin, rst, sndNxt, rcvNxt, 0, data))
    {
      out := Send(Segment(syn, true, fin, rst, sndNxt, rcvNxt, 0, data));
    }

    // How much is outstanding after appsend: a new segment, or no more than
    // was already in flight.
    function NewLen(): int
      reads this
    {
      if slen == 0 then 0 else if flags.acked || len == 0 then Min(slen, mss) else len
    }

    // No more than the window allows goes out, and nothing new while something
    // is in flight.
    method FitToWindow()
      requires 0 <= slen && 0 <= mss && 0 <= len
      modifies `len, `slen
      ensures len == old(NewLen()) && (slen > 0 <==> old(slen) > 0 && len > 0) && slen >= 0
    {
      if slen > 0 {
        if flags.acked {
          len := 0;
        }
        if len == 0 {
          if slen > mss {
            slen := mss;
          }
          len := slen;
        } else {
          slen := len;
        }
      } else {
        len := 0;
      }
    }

    // appsend: act on what the application has asked for.
    method AppSend() returns (out: Out)
      requires 0 <= slen && 0 <= mss && 0 <= len && (slen > 0 ==> 0 <= sptr && sptr + NewLen() <= |hs.file|)
      modifies `state, `len, `nrtx, `slen
      ensures Sent(flags, old(state), old(len), old(nrtx), old(NewLen()), state, len, nrtx)
      ensures out == Output(flags, sndNxt, rcvNxt,
                            if len > 0 && !flags.abort && !flags.close then hs.file[sptr..sptr + len] else [])
    {
      if flags.abort {
        slen := 0;
        state := Closed;
        out := Emit(false, false, true, []);
        return;
      }
      if flags.close {
        slen := 0;
        len := 1;
        state := FinWait1;
        nrtx := 0;
        out := Emit(false, true, false, []);
        return;
      }
      FitToWindow();
      nrtx := 0;
      out := AppRexmit();
    }

    // appsend when the application has asked for nothing.
    method SendNothing() returns (out: Out)
      requires slen == 0 && !flags.abort && !flags.close && 0 <= mss && 0 <= len
      modifies `state, `len, `nrtx, `slen
      ensures state == old(state) && len == 0 && nrtx == 0 && out == Output(flags, sndNxt, rcvNxt, [])
    {
      hide Output;
      out := AppSend();
    }

    // apprexmit
    method AppRexmit() returns (out: Out)
      requires slen > 0 && len > 0 ==> 0 <= sptr && sptr + len <= |hs.file|
      ensures out == Output(flags.(abort := false, close := false), sndNxt, rcvNxt,
                            if slen > 0 && len > 0 then hs.file[sptr..sptr + len] else [])
    {
      if slen > 0 && len > 0 {
        out := Emit(false, false, false, hs.file[sptr..sptr + len]);
        return;
      }
      if flags.newdata {
        out := Emit(false, false, false, []);
        return;
      }
      out := Nothing;
    }

    // ---- incoming segments ----

    method AddRcvNxt(n: int)
      requires IsQuad(rcvNxt) && 0 <= n < 0x1_0000
      modifies `rcvNxt
      ensures IsQuad(rcvNxt) && Val(rcvNxt) == Mod(Val(old(rcvNxt)) + n)
    {
      rcvNxt := Add32(rcvNxt, n);
    }

    predicate Acks(g: Segment)
      reads `len, `sndNxt
      requires IsQuad(g.ackno) && IsQuad(sndNxt)
    {
      g.ack && len > 0 && Val(g.ackno) == Mod(Val(sndNxt) + len)
    }

    // Out of order data hide an acknowledgement.
    predicate Takes(g: Segment)
      reads `len, `sndNxt, `rcvNxt
      requires IsSegment(g) && IsQuad(sndNxt) && IsQuad(rcvNxt)
    {
      Acks(g) && (g.data == [] || Val(g.seqno) == Val(rcvNxt))
    }

    // Does the segment acknowledge what is outstanding?
    method AckPart(g: Segment)
      requires IsSegment(g) && IsQuad(sndNxt) && 0 <= nrtx && 0 <= len < 0x1_0000 && 0 <= rto < 256
      modifies `sndNxt, `flags, `rto, `timer
      ensures IsQuad(sndNxt) && 0 <= rto < 256
      ensures old(Acks(g)) ==>
        Val(sndNxt) == Mod(Val(old(sndNxt)) + len) && flags == NOTHING.(acked := true) && timer == rto
      // A round trip is only measured without retransmissions.
      ensures old(!Acks(g) || nrtx > 0) ==> rto == old(rto)
      ensures !old(Acks(g)) ==> sndNxt == old(sndNxt) && flags == NOTHING && timer == old(timer)
    {
      flags := NOTHING;
      if g.ack && len > 0 {
        var acc := Add32(sndNxt, len);
        var hit := Same(g.ackno, acc);
        if hit {
          sndNxt := acc;
          if nrtx == 0 {
            // the round-trip estimate yields some byte
            var estimate: int := *;
            rto := if 0 <= estimate < 256 then estimate else 0;
          }
          flags := NOTHING.(acked := true);
          timer := rto;
        }
      }
    }

    ghost predicate Downloading(base: int, page: seq<int>, adv: int)
      reads this
    {
      IsQuad(sndNxt) && OnPage(state, hs, len, mss, initialMss, Val(sndNxt), base, page, adv, steady)
    }

    // The client asks for the page and otherwise sends only bare
    // acknowledgements and what it has sent before.
    predicate Bare(g: Segment, look: Look, page: seq<int>)
      reads `state, `hs, `rcvNxt
      requires IsSegment(g) && IsQuad(rcvNxt)
    {
      && !g.fin && !g.rst
      && (state == Established && g.data != [] && Val(g.seqno) == Val(rcvNxt) ==> hs.state == Idle && look == Get(page))
    }

    // A segment that acknowledges all that was sent comes with a window in which
    // what was left fits exactly if it was all sent.
    predicate InTime(g: Segment)
      reads `state, `hs, `len, `sndNxt, `rcvNxt, `initialMss
      requires IsSegment(g) && IsQuad(sndNxt) && IsQuad(rcvNxt)
    {
      state == Established && hs.state == File && Takes(g) ==>
        (hs.upload <= NewMss(g.wnd, initialMss) <==> len == hs.upload)
    }

    // The same once the acknowledgement is counted.
    predicate FitsNow(g: Segment)
      reads this
    {
      state == Established && hs.state == File && flags.acked ==>
        (hs.upload <= NewMss(g.wnd, initialMss) <==> len == hs.upload)
    }

    predicate Quiet(g: Segment, look: Look, page: seq<int>)
      reads `state, `hs, `len, `sndNxt, `rcvNxt, `initialMss
      requires IsSegment(g) && IsQuad(sndNxt) && IsQuad(rcvNxt)
    {
      Bare(g, look, page) && InTime(g)
    }

    // The window is closed or holds a whole segment.
    predicate Roomy(g: Segment)
      reads `initialMss
    {
      g.wnd == 0 || g.wnd >= initialMss
    }

    // Any reset is accepted.
    method Reset()
      requires Valid() && state != Closed
      modifies `state, `flags, `hs, `img, `slen, `sptr, `delivered
      ensures Valid() && state == Closed && delivered == old(delivered)
    {
      hide RecvOk, IsQuad, Val, Mod, FileStep, Served;
      RecvLeave(state, Val(rcvNxt), isn, stream, delivered, Closed, Val(rcvNxt));
      state := Closed;
      flags := NOTHING.(abort := true);
      AppTold([]);
    }

    // Count the incoming data, and the FIN behind them, as received.
    method Receive(g: Segment, extra: int, ghost off: int)
      requires IsQuad(rcvNxt) && IsSegment(g) && FromPeer(g, isn, stream, |delivered|, off) && 0 <= extra <= 1
      requires (state == SynRcvd || state == Established) && RecvOk(state, Val(rcvNxt), isn, stream, delivered)
      requires g.data != [] ==> Val(g.seqno) == Val(rcvNxt)
      modifies `rcvNxt, `flags
      ensures IsQuad(rcvNxt) && flags == old(flags).(newdata := old(flags).newdata || g.data != [])
      ensures g.data == [] && extra == 0 ==> rcvNxt == old(rcvNxt)
      ensures Val(rcvNxt) ==
        if extra + |g.data| > 0 then Mod(Val(old(rcvNxt)) + (extra + |g.data|)) else Val(old(rcvNxt))
      ensures Received(extra, Val(rcvNxt), isn, stream, delivered, g.data)
    {
      hide RecvOk, IsQuad, Val, Mod, FromPeer;
      RecvMore(state, g, isn, stream, delivered, off, Val(rcvNxt), extra);
      if |g.data| > 0 {
        flags := flags.(newdata := true);
      }
      if extra + |g.data| > 0 {
        AddRcvNxt(extra + |g.data|);
      }
    }

    // Receive, and tell the application, which starts over.
    method TakeData(g: Segment, extra: int, ghost off: int)
      requires IsQuad(rcvNxt) && IsSegment(g) && FromPeer(g, isn, stream, |delivered|, off) && 0 <= extra <= 1
      requires (state == SynRcvd || state == Established) && RecvOk(state, Val(rcvNxt), isn, stream, delivered)
      requires g.data != [] ==> Val(g.seqno) == Val(rcvNxt)
      requires !flags.newdata && (flags.close || (flags.connected && !flags.abort && !flags.timedout && !flags.poll))
      requires AppOk(state, hs, len) && 0 <= mss && 0 <= len
      modifies `rcvNxt, `hs, `img, `flags, `slen, `sptr, `delivered
      ensures IsQuad(rcvNxt) && old(delivered) <= delivered && hs == Hs(Idle, 0, [], 0, 0, 0) && slen == old(slen)
      ensures forall s :: s != SynRcvd && (s != Established || extra == 0) ==>
        RecvOk(s, Val(rcvNxt), isn, stream, delivered)
      ensures Val(rcvNxt) ==
        if extra + |g.data| > 0 then Mod(Val(old(rcvNxt)) + (extra + |g.data|)) else Val(old(rcvNxt))
      ensures delivered == if g.data != [] then old(delivered) + g.data else old(delivered)
      ensures !old(flags).close ==> flags == old(flags).(newdata := g.data != [])
    {
      hide RecvOk, IsQuad, Val, Mod, FromPeer, Received;
      Receive(g, extra, off);
      ReceivedOk(extra, Val(rcvNxt), isn, stream, delivered, g.data);
      AppTold(g.data);
    }

    method InSynRcvd(g: Segment, ghost off: int, ghost base: int, ghost page: seq<int>) returns (out: Out)
      requires Valid() && state == SynRcvd && IsSegment(g) && FromPeer(g, isn, stream, |delivered|, off)
      requires (g.data != [] ==> Val(g.seqno) == Val(rcvNxt)) && (flags == NOTHING || flags == NOTHING.(acked := true))
      modifies `state, `rcvNxt, `len, `nrtx, `hs, `img, `flags, `slen, `sptr, `delivered
      ensures Valid() && state == if old(flags).acked then Established else SynRcvd
      ensures Elsewhere(SynRcvd, g.fin, |g.data|, old(flags).acked, old(len) > 0, old(Val(rcvNxt)), sndNxt, rcvNxt, out)
      ensures delivered == if g.data != [] && old(flags).acked then old(delivered) + g.data else old(delivered)
      ensures old(Downloading(base, page, if flags.acked then len else 0)) ==>
        Downloading(base, page, 0) && PageOutput(out, base, page)
    {
      hide RecvOk, OnPage, IsQuad, Val, Mod, FromPeer, FileStep, Served, PageOutput, Output;
      out := Nothing;
      BareOutput(sndNxt, rcvNxt, base, page);
      if !flags.acked {
        return;
      }
      out := Connect(g, off, base, page);
    }

    // Our SYN is acknowledged.
    method Connect(g: Segment, ghost off: int, ghost base: int, ghost page: seq<int>) returns (out: Out)
      requires Valid() && state == SynRcvd && IsSegment(g) && FromPeer(g, isn, stream, |delivered|, off)
      requires g.data != [] ==> Val(g.seqno) == Val(rcvNxt)
      modifies `state, `rcvNxt, `len, `nrtx, `hs, `img, `flags, `slen, `sptr, `delivered
      ensures Valid() && state == Established
      ensures out == Reply(SynRcvd, g.fin, |g.data|, true, true, sndNxt, rcvNxt)
      ensures delivered == if g.data != [] then old(delivered) + g.data else old(delivered)
      ensures old(OnPage(state, hs, len, mss, initialMss, Val(sndNxt), base, page, len, steady)) ==>
        OnPage(state, hs, len, mss, initialMss, Val(sndNxt), base, page, 0, steady)
      ensures PageOutput(out, base, page)
    {
      hide RecvOk, OnPage, IsQuad, Val, Mod, FromPeer, Received, Numbers, Outstanding, AppOk, PageOutput;
      Bounds(state, hs, len, mss, initialMss, rto, timer, nrtx);
      StartsIdle(hs, len, mss, initialMss, Val(sndNxt), base, page, steady);
      Connected(len, mss, initialMss, rto, timer, nrtx);
      flags := NOTHING.(connected := true);
      slen := 0;
      TakeData(g, 0, off);
      state := Established;
      len := 0;
      out := SendNothing();
      BareOutput(sndNxt, rcvNxt, base, page);
    }

    method InEstablished(g: Segment, look: Look, ghost off: int, ghost base: int,
                         ghost page: seq<int>) returns (out: Out)
      requires Valid() && state == Established && IsSegment(g) && FromPeer(g, isn, stream, |delivered|, off) && !g.fin
      requires (g.data != [] ==> Val(g.seqno) == Val(rcvNxt))
        && (flags == NOTHING || (flags == NOTHING.(acked := true) && len > 0))
      modifies `steady, `state, `rcvNxt, `len, `mss, `nrtx, `hs, `img, `flags, `slen, `sptr, `delivered
      ensures old(steady) && Roomy(g) ==> steady
      ensures Valid() && (state == Established || state == Closed || (old(flags.acked) && state == FinWait1))
      ensures Whole(out, state, hs, len, sndNxt)
      ensures g.data != [] ==> AcksAll(out, rcvNxt)
      ensures delivered == if g.data != [] then old(delivered) + g.data else old(delivered)
      ensures old(Downloading(base, page, if flags.acked then len else 0) && Bare(g, look, page) && FitsNow(g)) ==>
        Downloading(base, page, 0) && PageOutput(out, base, page)
      ensures Steps(old(hs), old(img), old(len), old(flags).acked, g.data, look, NewMss(g.wnd, initialMss), sndNxt,
                    rcvNxt, state, hs, img, len, out)
    {
      hide AcksAll, Whole, RecvOk, OnPage, IsQuad, Val, Mod, FromPeer, PageOutput, FileStep, Served, Output, Sent,
        AppOk, Received, Numbers, Outstanding, Steps;
      ghost var dl := Downloading(base, page, if flags.acked then len else 0) && Bare(g, look, page) && FitsNow(g);
      BareOutput(sndNxt, rcvNxt, base, page);
      TakeSegment(g, off, base, page);
      out := Nothing;
      DatalessWhole(out, state, hs, len, sndNxt);
      NothingGoes(hs, img, len, look, NewMss(g.wnd, initialMss), sndNxt, rcvNxt);
      if flags.newdata || flags.acked {
        out := Dispatch(g.data, look, base, page, dl);
      }
    }

    // Count the data, and take over the window.
    method TakeSegment(g: Segment, ghost off: int, ghost base: int, ghost page: seq<int>)
      requires Valid() && state == Established && IsSegment(g) && FromPeer(g, isn, stream, |delivered|, off)
      requires (g.data != [] ==> Val(g.seqno) == Val(rcvNxt))
      modifies `steady, `rcvNxt, `flags, `mss
      ensures old(steady) && Roomy(g) ==> steady
      ensures IsQuad(rcvNxt) && mss == NewMss(g.wnd, initialMss) && Numbers(len, mss, initialMss, rto, timer, nrtx)
      ensures Sized(state, len, mss)
      ensures flags == old(flags).(newdata := old(flags).newdata || g.data != [])
      ensures var d := if g.data != [] then delivered + g.data else delivered;
        forall s :: s != SynRcvd ==> RecvOk(s, Val(rcvNxt), isn, stream, d)
      ensures forall adv {:trigger OnPage(state, hs, len, mss, initialMss, Val(sndNxt), base, page, adv, steady)} ::
        old(OnPage(state, hs, len, mss, initialMss, Val(sndNxt), base, page, adv, steady)) ==>
          OnPage(state, hs, len, mss, initialMss, Val(sndNxt), base, page, adv, steady)
    {
      hide RecvOk, OnPage, IsQuad, Val, Mod, FromPeer, AppOk, Received, Numbers, Outstanding, Sized;
      Window(len, mss, initialMss, rto, timer, nrtx, g.wnd);
      ghost var more := steady && Roomy(g);
      forall adv | OnPage(Established, hs, len, mss, initialMss, Val(sndNxt), base, page, adv, steady)
        ensures OnPage(Established, hs, len, NewMss(g.wnd, initialMss), initialMss, Val(sndNxt), base, page, adv, more)
      {
        NewWindow(hs, len, mss, initialMss, Val(sndNxt), base, page, adv, steady, g.wnd, more);
      }
      Receive(g, 0, off);
      ReceivedOk(0, Val(rcvNxt), isn, stream, delivered, g.data);
      mss := NewMss(g.wnd, initialMss);
      steady := more;
    }

    // The application is called, and what it asks for is sent.
    method Dispatch(data: seq<int>, look: Look, ghost base: int, ghost page: seq<int>,
                    ghost dl: bool) returns (out: Out)
      requires IsQuad(sndNxt) && IsQuad(rcvNxt) && Numbers(len, mss, initialMss, rto, timer, nrtx)
      requires state == Established && AppOk(state, hs, len)
      requires Sized(state, len, mss) && (flags.newdata <==> data != [])
      requires Plain(flags) && !flags.rexmit && (flags.acked ==> len > 0) && (flags.acked || flags.newdata)
      requires dl ==>
        OnPage(state, hs, len, mss, initialMss, Val(sndNxt), base, page, if flags.acked then len else 0, steady)
      requires dl ==> (flags.newdata ==> hs.state == Idle && look == Get(page))
      requires dl && hs.state == File && flags.acked ==> (hs.upload <= mss <==> len == hs.upload)
      modifies `hs, `img, `flags, `slen, `sptr, `delivered, `state, `len, `nrtx
      ensures delivered == (if old(flags).newdata then old(delivered) + data else old(delivered))
      ensures Numbers(len, mss, initialMss, rto, timer, nrtx) && Outstanding(state, len, nrtx) && AppOk(state, hs, len)
      ensures state == Established || state == Closed || (old(flags).acked && state == FinWait1)
      ensures Whole(out, state, hs, len, sndNxt)
      ensures dl ==>
        OnPage(state, hs, len, mss, initialMss, Val(sndNxt), base, page, 0, steady) && PageOutput(out, base, page)
      ensures Sized(state, len, mss) && (data != [] ==> AcksAll(out, rcvNxt))
      ensures Steps(old(hs), old(img), old(len), old(flags).acked, data, look, mss, sndNxt, rcvNxt, state, hs, img, len,
                    out)
    {
      hide AcksAll, Whole, OnPage, IsQuad, Val, Mod, PageOutput, Steps, Output, FileStep, Served, Numbers, Outstanding,
        AppOk, Sent;
      ghost var f0, h0, u0, len0 := flags, hs, img, len;
      Polls(hs, len, mss, initialMss, rto, timer, nrtx);
      ghost var f, h, n, k;
      out, f, h, n, k := Answer(data, look);
      if h0.state == File {
        FileGoes(f0, h0, u0, f, h, img, n, sptr, mss, len0, k, len, state, nrtx, sndNxt, rcvNxt, data, look);
      } else {
        AskTakes(f0, h0, u0, f, h, img, n, sptr, mss, k, len, state, nrtx, sndNxt, rcvNxt, data, look);
      }
      Answered(h0, u0, len0, f0.acked, data, look, mss, sndNxt, rcvNxt, state, hs, img, len, out);
      if dl {
        if h0.state == File {
          FileSends(f0, h0, f, h, n, sptr, mss, len0, k, len, state, nrtx, initialMss, sndNxt, rcvNxt, base, page,
            steady);
        } else {
          PageStarts(f0, h0, f, h, n, sptr, mss, k, len, state, nrtx, initialMss, sndNxt, rcvNxt, base, page, steady);
        }
      }
    }

    // f, h, n: what the application asked for; k: how much of it may be sent.
    method Answer(data: seq<int>, look: Look) returns (out: Out, ghost f: Flags, ghost h: Hs, ghost n: int,
                  ghost k: int)
      requires Numbers(len, mss, initialMss, rto, timer, nrtx) && state == Established && AppOk(state, hs, len)
      requires Sized(state, len, mss)
      requires Plain(flags) && !flags.rexmit && (flags.acked ==> len > 0) && (flags.acked || flags.newdata)
      modifies `hs, `img, `flags, `slen, `sptr, `delivered, `state, `len, `nrtx
      ensures delivered == (if old(flags).newdata then old(delivered) + data else old(delivered))
      ensures Numbers(len, mss, initialMss, rto, timer, nrtx) && Outstanding(state, len, nrtx) && AppOk(state, hs, len)
      ensures state == if f.abort then Closed else if f.close then FinWait1 else Established
      ensures hs == h && (f.abort ==> old(hs).state != File)
      ensures if old(hs).state == File then FileStep(old(flags), old(hs), f, h, n, sptr, mss, old(len))
              else Served(old(flags), old(hs).count, f, h, n, sptr, mss)
      ensures f.close ==> old(flags).acked
      ensures Whole(out, state, hs, len, sndNxt)
      ensures old(hs).state != File ==>
        var (h1, u1, verdict) := Asked(old(hs), old(img), data, look);
        && h == h1 && img == u1 && f == (if verdict.Drop? then NOTHING.(abort := true) else old(flags))
        && n == (if verdict.Page? then Min(|h.file|, mss) else 0) && (verdict.Page? ==> sptr == 0)
      ensures old(hs).state == File ==>
        img == if old(flags).acked && old(hs).upload <= mss then Finished(old(img)) else old(img)
      ensures Sized(state, len, mss)
      ensures k == if n == 0 then 0 else if f.acked || old(len) == 0 then Min(n, mss) else old(len)
      ensures !f.abort ==> forall l, r :: Sent(f, Established, l, r, k, state, len, nrtx)
      ensures len > 0 && !f.abort && !f.close ==> 0 <= sptr && sptr + len <= |h.file|
      ensures out == Output(f, sndNxt, rcvNxt, if len > 0 && !f.abort && !f.close then h.file[sptr..sptr + len] else [])
    {
      hide Asked, Output, Whole, FileStep, Served, Numbers, Outstanding, AppOk, Sent;
      Bounds(state, hs, len, mss, initialMss, rto, timer, nrtx);
      Polls(hs, len, mss, initialMss, rto, timer, nrtx);
      slen := 0;
      ghost var f0, h0, len0, nrtx0 := flags, hs, len, nrtx;
      AppCall(data, look);
      f, h, n := flags, hs, slen;
      if h0.state == File {
        FileAsks(f0, h0, f, h, slen, sptr, mss, len);
      } else {
        ServedAsks(f0, h0.count, f, h, slen, sptr, mss);
      }
      k := NewLen();
      out := AppSend();
      SentOk(f, h, k, mss, initialMss, rto, timer, len0, nrtx0, state, len, nrtx);
      WholeOutput(f, h, sptr, len, state, sndNxt, rcvNxt);
    }

    // The peer's FIN, which is only taken while nothing is outstanding.
    method PeerCloses(g: Segment, ghost off: int) returns (out: Out)
      requires Valid() && state == Established && IsSegment(g) && FromPeer(g, isn, stream, |delivered|, off)
      requires g.data != [] ==> Val(g.seqno) == Val(rcvNxt)
      modifies `state, `rcvNxt, `len, `nrtx, `hs, `img, `flags, `slen, `sptr, `delivered
      ensures Valid()
      ensures Elsewhere(Established, true, |g.data|, old(flags).acked, old(len) > 0, old(Val(rcvNxt)), sndNxt, rcvNxt,
                        out)
      ensures if old(len) > 0 then state == Established && delivered == old(delivered) && out == Nothing
              else state == LastAck && delivered == if g.data != [] then old(delivered) + g.data else old(delivered)
    {
      hide Elsewhere, RecvOk, IsQuad, Val, Mod, FromPeer, Received, Numbers, Outstanding, AppOk;
      Bounds(state, hs, len, mss, initialMss, rto, timer, nrtx);
      ghost var acked := flags.acked;
      if len > 0 {
        FinIgnored(|g.data|, flags.acked, Val(rcvNxt), sndNxt, rcvNxt);
        return Nothing;
      }
      Settled(len, mss, initialMss, rto, timer, nrtx, LastAck, Hs(Idle, 0, [], 0, 0, 0));
      flags := NOTHING.(close := true);
      ghost var v := Val(rcvNxt);
      TakeData(g, 1, off);
      len := 1;
      state := LastAck;
      nrtx := 0;
      out := Emit(false, true, false, []);
      FinTaken(|g.data|, acked, v, sndNxt, rcvNxt);
    }

    // The peer's FIN after ours.
    method TakeFin() returns (out: Out)
      requires Valid() && state != SynRcvd && state != Established
      modifies `rcvNxt, `flags, `hs, `img, `slen, `sptr, `delivered
      ensures Valid() && delivered == old(delivered) && Val(rcvNxt) == Mod(Val(old(rcvNxt)) + 1)
      ensures !img.begun && hs == Hs(Idle, 0, [], 0, 0, 0)
      ensures out == BareAck(sndNxt, rcvNxt)
    {
      hide RecvOk, IsQuad, Val, Mod, FileStep, Served;
      RecvAnywhere(state, Val(rcvNxt), isn, stream, delivered);
      AddRcvNxt(1);
      flags := NOTHING.(close := true);
      AppTold([]);
      out := Emit(false, false, false, []);
    }

    // Data behind our FIN are counted and dropped.
    method CountData(g: Segment)
      requires IsQuad(rcvNxt) && IsSegment(g)
      modifies `rcvNxt
      ensures IsQuad(rcvNxt) && Val(rcvNxt) == Mod(Val(old(rcvNxt)) + |g.data|)
    {
      hide IsQuad, Val;
      if |g.data| > 0 {
        AddRcvNxt(|g.data|);
      }
    }

    method InFinWait1(g: Segment, ghost base: int, ghost page: seq<int>) returns (out: Out)
      requires Valid() && state == FinWait1 && IsSegment(g)
      modifies `rcvNxt, `flags, `hs, `img, `slen, `sptr, `delivered, `state, `timer, `len
      ensures Valid() && delivered == old(delivered) && (old(flags).acked ==> len == 0)
      ensures Elsewhere(FinWait1, g.fin, |g.data|, old(flags).acked, old(len) > 0, old(Val(rcvNxt)), sndNxt, rcvNxt,
                        out)
      ensures Diagram(FinWait1, g.fin, old(flags).acked, true, state) && (state == TimeWait ==> timer == 0)
      ensures old(Downloading(base, page, if flags.acked then len else 0)) && !g.fin ==>
        Downloading(base, page, 0) && PageOutput(out, base, page)
    {
      hide RecvOk, OnPage, IsQuad, Val, Mod, PageOutput, Numbers, Outstanding, AppOk;
      Closes(hs, len, mss, initialMss, rto, timer, nrtx);
      BareOutput(sndNxt, rcvNxt, base, page);
      RecvAnywhere(state, Val(rcvNxt), isn, stream, delivered);
      if Downloading(base, page, if flags.acked then len else 0) {
        OnceClosing(state, hs, len, mss, initialMss, Val(sndNxt), base, page, if flags.acked then len else 0, steady);
      }
      CountData(g);
      if g.fin {
        if flags.acked {
          state := TimeWait;
          timer := 0;
          len := 0;
        } else {
          state := Closing;
        }
        out := TakeFin();
        return;
      } else if flags.acked {
        state := FinWait2;
        len := 0;
        return Nothing;
      }
      if |g.data| > 0 {
        out := Emit(false, false, false, []);
        BareOutput(sndNxt, rcvNxt, base, page);
        return;
      }
      return Nothing;
    }

    method InFinWait2(g: Segment, ghost base: int, ghost page: seq<int>) returns (out: Out)
      requires Valid() && state == FinWait2 && IsSegment(g)
      modifies `rcvNxt, `flags, `hs, `img, `slen, `sptr, `delivered, `state, `timer
      ensures Valid() && delivered == old(delivered)
      ensures Elsewhere(FinWait2, g.fin, |g.data|, old(flags).acked, old(len) > 0, old(Val(rcvNxt)), sndNxt, rcvNxt,
                        out)
      ensures Diagram(FinWait2, g.fin, false, false, state) && (state == TimeWait ==> timer == 0)
      ensures old(Downloading(base, page, if flags.acked then len else 0)) && !g.fin ==>
        Downloading(base, page, 0) && PageOutput(out, base, page)
    {
      hide RecvOk, OnPage, IsQuad, Val, Mod, PageOutput;
      BareOutput(sndNxt, rcvNxt, base, page);
      RecvAnywhere(state, Val(rcvNxt), isn, stream, delivered);
      if Downloading(base, page, if flags.acked then len else 0) {
        OnceClosing(state, hs, len, mss, initialMss, Val(sndNxt), base, page, if flags.acked then len else 0, steady);
      }
      CountData(g);
      if g.fin {
        state := TimeWait;
        timer := 0;
        out := TakeFin();
        return;
      }
      if |g.data| > 0 {
        out := Emit(false, false, false, []);
        BareOutput(sndNxt, rcvNxt, base, page);
        return;
      }
      return Nothing;
    }

    // Which data are handed to the application.
    predicate TakesData(g: Segment)
      reads `state, `len, `sndNxt, `rcvNxt
      requires IsSegment(g) && IsQuad(sndNxt) && IsQuad(rcvNxt)
    {
      && g.data != [] && !g.rst && Val(g.seqno) == Val(rcvNxt)
      && ((state == Established && (g.fin ==> len == 0)) || (state == SynRcvd && Acks(g)))
    }

    method TakeAck(g: Segment, ghost base: int, ghost page: seq<int>)
      requires Valid() && IsSegment(g)
      modifies `sndNxt, `flags, `rto, `timer
      ensures Valid() && flags == NOTHING.(acked := old(Acks(g)))
      ensures Val(sndNxt) == if old(Acks(g)) then Mod(old(Val(sndNxt)) + len) else old(Val(sndNxt))
      ensures old(Downloading(base, page, 0)) ==> Downloading(base, page, if flags.acked then len else 0)
    {
      hide RecvOk, OnPage, IsQuad, Val, Mod, Outstanding, AppOk;
      ghost var was := Val(sndNxt);
      AckPart(g);
      if old(Downloading(base, page, 0)) {
        OnPageAcked(state, hs, len, mss, initialMss, was, Val(sndNxt), base, page, flags.acked, steady);
      }
    }

    // Byte by byte.
    method Same(p: seq<int>, q: seq<int>) returns (same: bool)
      requires IsQuad(p) && IsQuad(q)
      ensures same == (Val(p) == Val(q))
    {
      SameVal(p, q);
      same := p[0] == q[0] && p[1] == q[1] && p[2] == q[2] && p[3] == q[3];
    }

    // "found": a segment for this connection.
    method Input(g: Segment, look: Look, ghost off: int, ghost base: int, ghost page: seq<int>) returns (out: Out)
      requires Valid() && state != Closed && IsSegment(g) && FromPeer(g, isn, stream, |delivered|, off)
      modifies `steady, `sndNxt, `rto, `state, `rcvNxt, `len, `mss, `nrtx, `timer, `hs, `img, `flags,
        `slen, `sptr, `delivered
      ensures old(steady) && Roomy(g) ==> steady
      ensures old(state) != TimeWait && state == TimeWait ==> timer == 0
      ensures Valid()
      ensures Whole(out, state, hs, len, sndNxt)
      ensures g.rst ==> state == Closed && out == Nothing
      // Data out of order only cause the acknowledgement to be repeated.
      ensures !g.rst && old(g.data != [] && Val(g.seqno) != Val(rcvNxt)) ==>
        state == old(state) && rcvNxt == old(rcvNxt) && sndNxt == old(sndNxt) && hs == old(hs) && img == old(img)
        && len == old(len)
        && out == Send(Segment(false, true, false, false, sndNxt, rcvNxt, 0, []))
      ensures !g.rst && old(g.data == [] || Val(g.seqno) == Val(rcvNxt)) ==>
        Diagram(old(state), g.fin, old(Acks(g)), old(len) > 0, state)
      ensures old(state == Established && TakesData(g)) && !g.fin ==>
        AcksAll(out, rcvNxt)
      ensures delivered == if old(TakesData(g)) then old(delivered) + g.data else old(delivered)
      ensures old(Downloading(base, page, 0) && Quiet(g, look, page)) ==>
        Downloading(base, page, 0) && PageOutput(out, base, page)
      ensures old(state == Established && (g.data == [] || Val(g.seqno) == Val(rcvNxt))) && !g.fin && !g.rst ==>
        Steps(old(hs), old(img), old(len), old(Acks(g)), g.data, look, NewMss(g.wnd, initialMss), sndNxt, rcvNxt,
              state, hs, img, len, out)
      ensures old((state != Established || g.fin) && (g.data == [] || Val(g.seqno) == Val(rcvNxt))) && !g.rst ==>
        Elsewhere(old(state), g.fin, |g.data|, old(Acks(g)), old(len) > 0, old(Val(rcvNxt)), sndNxt, rcvNxt, out)
      ensures Val(sndNxt) == if old(Takes(g)) && !g.rst then Mod(old(Val(sndNxt)) + old(len)) else old(Val(sndNxt))
    {
      hide AcksAll, Whole, RecvOk, OnPage, IsQuad, Val, Mod, PageOutput, FromPeer, Steps, Elsewhere,
        Outstanding, AppOk, Diagram, Numbers;
      out := Nothing;
      if g.rst {
        Reset();
        DatalessWhole(out, state, hs, len, sndNxt);
        return;
      }
      var n := |g.data|;
      var expected := Same(g.seqno, rcvNxt);
      if n > 0 && !expected {
        out := Emit(false, false, false, []);
        BareOutput(sndNxt, rcvNxt, base, page);
        DatalessWhole(out, state, hs, len, sndNxt);
        return;
      }
      out := InOrder(g, look, off, base, page);
    }

    // A segment without data, or with those that are due.
    method InOrder(g: Segment, look: Look, ghost off: int, ghost base: int, ghost page: seq<int>) returns (out: Out)
      requires Valid() && state != Closed && IsSegment(g) && FromPeer(g, isn, stream, |delivered|, off) && !g.rst
      requires (g.data != [] ==> Val(g.seqno) == Val(rcvNxt))
      modifies `steady, `sndNxt, `rto, `state, `rcvNxt, `len, `mss, `nrtx, `timer, `hs, `img, `flags,
        `slen, `sptr, `delivered
      ensures old(steady) && Roomy(g) ==> steady
      ensures old(state) != TimeWait && state == TimeWait ==> timer == 0
      ensures Valid() && Diagram(old(state), g.fin, old(Acks(g)), old(len) > 0, state)
      ensures Whole(out, state, hs, len, sndNxt)
      ensures old(state) == Established && !g.fin && g.data != [] ==> AcksAll(out, rcvNxt)
      ensures delivered == if old(TakesData(g)) then old(delivered) + g.data else old(delivered)
      ensures old(Downloading(base, page, 0) && Quiet(g, look, page)) ==>
        Downloading(base, page, 0) && PageOutput(out, base, page)
      ensures old(state) == Established && !g.fin ==>
        Steps(old(hs), old(img), old(len), old(Acks(g)), g.data, look, NewMss(g.wnd, initialMss), sndNxt, rcvNxt,
              state, hs, img, len, out)
      ensures old(state) != Established || g.fin ==>
        Elsewhere(old(state), g.fin, |g.data|, old(Acks(g)), old(len) > 0, old(Val(rcvNxt)), sndNxt, rcvNxt, out)
      ensures Val(sndNxt) == if old(Acks(g)) then Mod(old(Val(sndNxt)) + old(len)) else old(Val(sndNxt))
    {
      hide AcksAll, Whole, RecvOk, OnPage, IsQuad, Val, Mod, PageOutput, FromPeer, Steps, Elsewhere,
        Outstanding, AppOk, Diagram, Numbers;
      TakeAck(g, base, page);
      out := ByState(g, look, off, base, page);
    }

    // After the peer's FIN.
    method InClosing(g: Segment) returns (out: Out)
      requires Valid() && IsSegment(g) && (state == LastAck || state == TimeWait || state == Closing)
      modifies `state, `timer, `hs, `img, `flags, `slen, `sptr, `delivered
      ensures Valid() && delivered == old(delivered)
      ensures Diagram(old(state), g.fin, old(flags).acked, len > 0, state)
      ensures old(state) != TimeWait && state == TimeWait ==> timer == 0
      ensures Elsewhere(old(state), g.fin, |g.data|, old(flags).acked, len > 0, Val(rcvNxt), sndNxt, rcvNxt, out)
    {
      hide RecvOk, IsQuad, Val, Mod, Elsewhere, Numbers, Outstanding, AppOk;
      out := Nothing;
      if state == TimeWait {
        out := Emit(false, false, false, []);
        OnlyAcks(g.fin, |g.data|, flags.acked, len > 0, Val(rcvNxt), sndNxt, rcvNxt);
        return;
      }
      StaysSilent(state, g.fin, |g.data|, flags.acked, len > 0, Val(rcvNxt), sndNxt, rcvNxt);
      if flags.acked {
        if state == LastAck {
          Finish();
        } else {
          Closes(hs, len, mss, initialMss, rto, timer, nrtx);
          RecvLeave(state, Val(rcvNxt), isn, stream, delivered, TimeWait, Val(rcvNxt));
          state := TimeWait;
          timer := 0;
        }
      }
    }

    // The switch on the state of the connection.
    method ByState(g: Segment, look: Look, ghost off: int, ghost base: int, ghost page: seq<int>) returns (out: Out)
      requires Valid() && state != Closed && IsSegment(g) && FromPeer(g, isn, stream, |delivered|, off)
      requires (g.data != [] ==> Val(g.seqno) == Val(rcvNxt))
        && (flags == NOTHING || (flags == NOTHING.(acked := true) && len > 0))
      modifies `steady, `state, `rcvNxt, `len, `mss, `nrtx, `timer, `hs, `img, `flags, `slen, `sptr, `delivered
      ensures old(steady) && Roomy(g) ==> steady
      ensures old(state) != TimeWait && state == TimeWait ==> timer == 0
      ensures Valid() && Diagram(old(state), g.fin, old(flags).acked, old(len) > 0, state)
      ensures Whole(out, state, hs, len, sndNxt)
      ensures old(state) == Established && !g.fin && g.data != [] ==> AcksAll(out, rcvNxt)
      ensures delivered ==
        if old(g.data != [] && ((state == Established && (g.fin ==> len == 0)) || (state == SynRcvd && flags.acked)))
        then old(delivered) + g.data else old(delivered)
      ensures old(Downloading(base, page, if flags.acked then len else 0) && Bare(g, look, page) && FitsNow(g)) ==>
        Downloading(base, page, 0) && PageOutput(out, base, page)
      ensures old(state) == Established && !g.fin ==>
        Steps(old(hs), old(img), old(len), old(flags).acked, g.data, look, NewMss(g.wnd, initialMss), sndNxt, rcvNxt,
              state, hs, img, len, out)
      ensures old(state) != Established || g.fin ==>
        Elsewhere(old(state), g.fin, |g.data|, old(flags).acked, old(len) > 0, old(Val(rcvNxt)), sndNxt, rcvNxt, out)
    {
      hide FitsNow, AcksAll, RecvOk, OnPage, IsQuad, Val, Mod, PageOutput, FromPeer, FileStep, Served,
        Steps, Elsewhere, Numbers, Outstanding, AppOk, Whole;
      out := Nothing;
      if Downloading(base, page, if flags.acked then len else 0) {
        NotClosing(state, hs, len, mss, initialMss, Val(sndNxt), base, page, if flags.acked then len else 0, steady);
      }
      ghost var from, acked, waits, v, n := state, flags.acked, len > 0, Val(rcvNxt), |g.data|;
      Bounds(state, hs, len, mss, initialMss, rto, timer, nrtx);
      match state {
        case SynRcvd => out := InSynRcvd(g, off, base, page);
        case Established =>
          if g.fin {
            out := PeerCloses(g, off);
          } else {
            out := InEstablished(g, look, off, base, page);
          }
        case FinWait1 => out := InFinWait1(g, base, page);
        case FinWait2 => out := InFinWait2(g, base, page);
        case LastAck => out := InClosing(g);
        case TimeWait => out := InClosing(g);
        case Closing => out := InClosing(g);
        case Closed =>
      }
      if from != Established || g.fin {
        ElsewhereWhole(from, g.fin, n, acked, waits, v, sndNxt, rcvNxt, out, state, hs, len);
      }
    }

    // Our FIN is acknowledged, and the peer has closed before.
    method Finish()
      requires Valid() && state == LastAck
      modifies `state, `flags, `hs, `img, `slen, `sptr, `delivered
      ensures Valid() && delivered == old(delivered) && state == Closed && !img.begun
    {
      hide RecvOk, IsQuad, Val, Mod, FileStep, Served;
      RecvLeave(state, Val(rcvNxt), isn, stream, delivered, Closed, Val(rcvNxt));
      state := Closed;
      flags := NOTHING.(close := true);
      AppTold([]);
    }

    // ---- opening ----

    // "found_listen": a SYN for an unused connection, or for one in TIME_WAIT.
    // Without an MSS option the sizes of the connection before stay.
    method Listen(g: Segment, iss: seq<int>, mssOption: int, ghost peer: seq<int>, ghost page: seq<int>)
      returns (out: Out)
      requires Valid() && (state == Closed || state == TimeWait) && IsSegment(g) && IsQuad(iss)
        && -1 <= mssOption < 0x1_0000
      modifies this
      ensures Valid() && state == SynRcvd && delivered == [] && stream == peer && isn == Val(g.seqno)
      ensures page != [] && mssOption > 0 ==> Downloading(Val(iss) + 1, page, 0)
      ensures out == Send(Segment(true, true, false, false, iss, rcvNxt, 0, []))
    {
      hide IsQuad, Val, Mod, RecvOk, OnPage, AppOk, Numbers, Outstanding;
      Fresh(state, hs, len, mss, initialMss, rto, timer, nrtx, mssOption);
      FillIn(g, iss);
      ParseMss(mssOption);
      HearFrom(Val(g.seqno), peer);
      Opened(hs, mss, Val(iss), isn, stream, page);
      out := Emit(true, false, false, []);
    }

    method FillIn(g: Segment, iss: seq<int>)
      requires IsQuad(g.seqno)
      modifies `rto, `timer, `nrtx, `len, `state, `sndNxt, `rcvNxt
      ensures rto == timer == UIP_RTO && nrtx == 0 && len == 1 && state == SynRcvd && sndNxt == iss
      ensures IsQuad(rcvNxt) && Val(rcvNxt) == Mod(Val(g.seqno) + 1)
    {
      rto, timer, nrtx, len, state, sndNxt := UIP_RTO, UIP_RTO, 0, 1, SynRcvd, iss;
      rcvNxt := Add32(g.seqno, 1);
    }

    method ParseMss(mssOption: int)
      modifies `mss, `initialMss
      ensures mssOption < 0 ==> mss == old(mss) && initialMss == old(initialMss)
      ensures mssOption >= 0 ==> mss == initialMss == Min(mssOption, 1446)
    {
      if mssOption >= 0 {
        initialMss := if mssOption > UIP_TCP_MSS then UIP_TCP_MSS else mssOption;
        mss := initialMss;
      }
    }

    ghost method HearFrom(isn: int, peer: seq<int>)
      modifies `isn, `stream, `delivered, `steady
      ensures this.isn == isn && stream == peer && delivered == [] && steady
    {
      this.isn, stream, delivered, steady := isn, peer, [], true;
    }

    // ---- the timer ----

    // Something is outstanding, and the timer runs.
    predicate Waits()
      reads `state, `len
    {
      len > 0 && state != Closed && state != TimeWait && state != FinWait2
    }

    // uip_process(UIP_TIMER)
    method Tick(ghost base: int, ghost page: seq<int>) returns (out: Out)
      requires Valid()
      modifies `state, `timer, `nrtx, `len, `hs, `img, `flags, `slen, `sptr, `delivered
      ensures Valid() && delivered == old(delivered)
      ensures old(Downloading(base, page, 0)) ==> Downloading(base, page, 0) && PageOutput(out, base, page)
      ensures out == OnTick(old(state), old(len), old(timer), old(nrtx), old(hs), sndNxt, rcvNxt)
      ensures old(Waits()) && old(timer) > 0 ==> timer == old(timer) - 1 && nrtx == old(nrtx) && state == old(state)
      ensures old(Waits()) && old(timer) == 0 && old(nrtx) < MaxRtx(old(state)) ==>
        timer == Backoff(old(nrtx)) && nrtx == old(nrtx) + 1 && state == old(state)
      // What is outstanding stays so, unless the connection is given up.
      ensures state == old(state) || state == Closed
      ensures old(state) == Established && old(len) > 0 && old(nrtx) < UIP_MAXRTX ==> state == Established
      ensures state == Established ==> hs == old(hs).(count := hs.count) && img == old(img) && len == old(len)
      ensures state == Established && old(len) > 0 ==> hs == old(hs)
      ensures Sooner(old(state), old(len), old(timer), old(nrtx), old(hs.count), state, len, timer, nrtx, hs.count)
    {
      hide RecvOk, OnPage, IsQuad, Val, Mod, PageOutput, Remaining;
      out := Nothing;
      BareOutput(sndNxt, rcvNxt, base, page);
      if state == TimeWait || state == FinWait2 {
        WaitingSooner(state, len, timer, nrtx, hs.count);
        timer := (timer + 1) % 256;
        if timer == UIP_TIME_WAIT_TIMEOUT {
          RecvLeave(state, Val(rcvNxt), isn, stream, delivered, Closed, Val(rcvNxt));
          if Downloading(base, page, 0) {
            OnceClosed(state, hs, len, mss, initialMss, Val(sndNxt), base, page, steady);
          }
          state := Closed;
        }
      } else if state != Closed {
        if len > 0 {
          OutstandingSooner(state, len, timer, nrtx, hs.count);
          if timer == 0 {
            timer := 255;
            out := Expire(base, page);
          } else {
            timer := timer - 1;
          }
        } else if state == Established {
          PollSooner(timer, nrtx, hs.count);
          out := Poll(base, page);
        }
      }
    }

    // The retransmission timer has expired: give up, or send again.
    method Expire(ghost base: int, ghost page: seq<int>) returns (out: Out)
      requires Valid() && len > 0 && state != Closed && state != TimeWait && state != FinWait2
      modifies `state, `timer, `nrtx, `hs, `img, `flags, `slen, `sptr, `delivered
      ensures Valid() && delivered == old(delivered)
      ensures old(Downloading(base, page, 0)) ==> Downloading(base, page, 0) && PageOutput(out, base, page)
      ensures if old(nrtx) >= MaxRtx(old(state)) then state == Closed
              else
                && state == old(state) && timer == Backoff(old(nrtx)) && nrtx == old(nrtx) + 1
                && hs.count == old(hs.count) && (state == Established ==> hs == old(hs))
      ensures out == Again(old(state), old(nrtx), old(hs), len, sndNxt, rcvNxt)
      ensures state == Established ==> img == old(img)
    {
      hide RecvOk, OnPage, IsQuad, Val, Mod, PageOutput, Numbers, Outstanding, AppOk;
      BackedOff(state, hs, len, mss, initialMss, rto, timer, nrtx);
      BareOutput(sndNxt, rcvNxt, base, page);
      if nrtx == UIP_MAXRTX || (state == SynRcvd && nrtx == UIP_MAXSYNRTX) {
        out := GiveUp(base, page);
        return;
      }
      timer := Backoff(nrtx);
      nrtx := nrtx + 1;
      if state == SynRcvd {
        out := Emit(true, false, false, []);
      } else if state == Established {
        out := Retransmit(base, page);
      } else {
        if Downloading(base, page, 0) { FinAgain(state, hs, len, mss, initialMss, sndNxt, rcvNxt, base, page, steady); }
        out := Emit(false, true, false, []);
      }
    }

    method TimedOut()
      requires Valid() && state != Closed
      modifies `state, `hs, `img, `flags, `slen, `sptr, `delivered
      ensures Valid() && delivered == old(delivered) && state == Closed && !img.begun
    {
      hide RecvOk, IsQuad, Val, Mod, Numbers, Outstanding, AppOk;
      Bounds(state, hs, len, mss, initialMss, rto, timer, nrtx);
      ClosedOk(len, nrtx);
      RecvLeave(state, Val(rcvNxt), isn, stream, delivered, Closed, Val(rcvNxt));
      state := Closed;
      flags := NOTHING.(timedout := true);
      AppTold([]);
    }

    method GiveUp(ghost base: int, ghost page: seq<int>) returns (out: Out)
      requires Valid() && state != Closed
      modifies `state, `hs, `img, `flags, `slen, `sptr, `delivered
      ensures Valid() && delivered == old(delivered) && state == Closed
      ensures out == RstAck(sndNxt, rcvNxt)
      ensures old(Downloading(base, page, 0)) ==> Downloading(base, page, 0)
      ensures PageOutput(out, base, page)
    {
      hide RecvOk, OnPage, IsQuad, Val, Mod, PageOutput, Numbers, Outstanding, AppOk, Sized;
      BareOutput(sndNxt, rcvNxt, base, page);
      if Downloading(base, page, 0) { OnceClosed(state, hs, len, mss, initialMss, Val(sndNxt), base, page, steady); }
      TimedOut();
      out := Emit(false, false, true, []);
    }

    // The application makes up the outstanding data once more.
    method Retransmit(ghost base: int, ghost page: seq<int>) returns (out: Out)
      requires Valid() && state == Established && len > 0
      modifies `flags, `hs, `img, `slen, `sptr, `delivered
      ensures hs == old(hs) && delivered == old(delivered)
      ensures img == old(img) && out == Again(Established, 0, hs, len, sndNxt, rcvNxt)
      ensures old(Downloading(base, page, 0)) ==> PageOutput(out, base, page)
    {
      hide RecvOk, OnPage, IsQuad, Val, Mod, PageOutput, FileStep, Served;
      slen := 0;
      flags := NOTHING.(rexmit := true);
      ghost var h0 := hs;
      AppCall([], Refuse);
      FileRepeats(h0, flags, hs, slen, sptr, mss, len);
      out := AppRexmit();
      PartIs(hs.file, hs.ptr, len);
      if Downloading(base, page, 0) {
        DataAgain(hs, len, mss, initialMss, slen, sptr, flags, sndNxt, rcvNxt, base, page, steady);
      }
    }

    method Poll(ghost base: int, ghost page: seq<int>) returns (out: Out)
      requires Valid() && state == Established && len == 0
      modifies `state, `nrtx, `len, `hs, `img, `flags, `slen, `sptr, `delivered
      ensures Valid() && delivered == old(delivered)
      ensures out == if old(hs).count >= POLLS then RstAck(sndNxt, rcvNxt) else Nothing
      ensures state == Established ==> hs == old(hs).(count := hs.count) && img == old(img)
      ensures old(Downloading(base, page, 0)) ==> Downloading(base, page, 0) && PageOutput(out, base, page)
      ensures if old(hs).count >= POLLS then state == Closed
              else state == Established && len == 0 && nrtx == 0 && hs.count == old(hs).count + 1
    {
      hide RecvOk, OnPage, IsQuad, Val, Mod, PageOutput, FileStep, Served, Numbers, Outstanding, AppOk;
      BareOutput(sndNxt, rcvNxt, base, page);
      RecvLeave(state, Val(rcvNxt), isn, stream, delivered, Closed, Val(rcvNxt));
      PolledState(hs, mss, initialMss, rto, timer, nrtx);
      if Downloading(base, page, 0) {
        OnceClosed(state, hs, len, mss, initialMss, Val(sndNxt), base, page, steady);
        Polled(hs, mss, initialMss, Val(sndNxt), base, page, steady);
      }
      out := AnswerPoll();
    }

    // The poll is counted, or answered with a reset once there were too many.
    method AnswerPoll() returns (out: Out)
      requires state == Established && len == 0 && 0 <= mss
      requires hs.state == File ==> 0 <= hs.ptr && hs.upload == |hs.file| - hs.ptr && hs.upload >= 0
      modifies `state, `nrtx, `len, `hs, `img, `flags, `slen, `sptr, `delivered
      ensures delivered == old(delivered) && len == 0
      ensures old(hs).count >= POLLS ==>
        && state == Closed && nrtx == old(nrtx) && hs == Hs(Idle, 0, [], 0, 0, 0)
        && out == Send(Segment(false, true, false, true, sndNxt, rcvNxt, 0, []))
      ensures old(hs).count < POLLS ==>
        && state == Established && nrtx == 0 && hs == old(hs).(count := old(hs).count + 1) && img == old(img)
        && out == Nothing
    {
      hide FileStep, Served;
      slen := 0;
      flags := NOTHING.(poll := true);
      AppCall([], Refuse);
      out := AppSend();
    }

    // Where nothing comes in, what is in flight of a page goes out again, with the
    // same number, as soon as the timer has run down.
    method Resend() returns (out: Out, ticks: int)
      requires Valid() && state == Established && len > 0 && nrtx < UIP_MAXRTX
      modifies this
      ensures Valid() && state == Established && ticks == old(timer) + 1 && delivered == old(delivered)
      ensures hs == old(hs) && len == old(len) && sndNxt == old(sndNxt) && rcvNxt == old(rcvNxt)
      ensures hs.state == File && 0 <= hs.ptr && hs.ptr + len <= |hs.file|
      ensures out == Send(Segment(false, true, false, false, sndNxt, rcvNxt, 0, hs.file[hs.ptr..hs.ptr + len]))
      ensures nrtx == old(nrtx) + 1 && timer == Backoff(old(nrtx))
    {
      hide RecvOk, IsQuad, Val, Mod, OnPage, PageOutput, Sooner, Numbers, Outstanding;
      Bounds(state, hs, len, mss, initialMss, rto, timer, nrtx);
      TimerRuns(len, mss, initialMss, rto, timer, nrtx);
      ticks, out := 0, Nothing;
      while timer > 0
        invariant Valid() && state == Established && ticks + timer == old(timer) && timer >= 0
        invariant hs == old(hs) && len == old(len) && sndNxt == old(sndNxt) && rcvNxt == old(rcvNxt)
        invariant nrtx == old(nrtx) && delivered == old(delivered)
      {
        out := Tick(0, []);
        ticks := ticks + 1;
      }
      out := Tick(0, []);
      ticks := ticks + 1;
      PartIs(hs.file, hs.ptr, len);
    }

    // With no more segments the connection is closed after exactly the ticks that
    // Remaining counts, which are at most LONGEST_WAIT.
    method Reclaim() returns (ticks: int)
      requires Valid()
      modifies this
      ensures Valid() && state == Closed && delivered == old(delivered)
      ensures ticks == old(Remaining(state, len, timer, nrtx, hs.count)) <= LONGEST_WAIT
    {
      hide RecvOk, IsQuad, Val, Mod, OnPage, PageOutput, Remaining;
      ticks := 0;
      RemainingBound(state, len, timer, nrtx, hs);
      while state != Closed
        invariant Valid() && ticks >= 0 && delivered == old(delivered)
        invariant Remaining(state, len, timer, nrtx, hs.count) >= 0
        invariant Remaining(state, len, timer, nrtx, hs.count) == 0 <==> state == Closed
        invariant ticks + Remaining(state, len, timer, nrtx, hs.count) ==
                  old(Remaining(state, len, timer, nrtx, hs.count))
        decreases Remaining(state, len, timer, nrtx, hs.count)
      {
        var out := Tick(0, []);
        RemainingBound(state, len, timer, nrtx, hs);
        ticks := ticks + 1;
      }
    }

    // Whatever comes in, in any order, with whatever application requests, and
    // whenever the timer ticks: what the application has been given grows along
    // the peer's stream, and while established rcv_nxt is the number of the next
    // byte.
    method Hear(events: seq<Event>)
      requires Valid() && |stream| < WRAP
      requires forall e :: e in events && e.Arrival? ==> IsSegment(e.seg) && FromStream(e.seg, isn, stream, e.off)
      modifies this
      ensures Valid() && stream == old(stream) && isn == old(isn) && old(delivered) <= delivered <= stream
      ensures state == Established ==> Val(rcvNxt) == Mod(isn + 1 + |delivered|)
      ensures old(state) == Closed ==> delivered == old(delivered) && state == Closed
    {
      hide OnPage, IsQuad, Val, Mod, PageOutput, FromPeer, FromStream, Numbers, Outstanding, AppOk, RecvOk, Steps,
        Elsewhere, OnTick, TakesData, Quiet;
      var i := 0;
      IsPrefix(state, Val(rcvNxt), isn, stream, delivered);
      while i < |events|
        invariant 0 <= i <= |events| && Valid() && stream == old(stream) && isn == old(isn)
        invariant old(delivered) <= delivered <= stream
        invariant old(state) == Closed ==> delivered == old(delivered) && state == Closed
      {
        assert events[i] in events;
        match events[i] {
          case Timer => var _ := Tick(0, []);
          case Arrival(seg, look, off) =>
            if state != Closed {
              Within(seg, isn, stream, |delivered|, off);
              var _ := Input(seg, look, off, 0, []);
            }
        }
        IsPrefix(state, Val(rcvNxt), isn, stream, delivered);
        i := i + 1;
      }
      NextNumber(state, Val(rcvNxt), isn, stream, delivered);
    }

    // From a request to the answer, over a network that loses, repeats, reorders
    // and delays: until the answer nothing but acknowledgements is sent.  What
    // has come of a file is in memory, and it is answered with the part that
    // completes it and with none before.
    method Load(events: seq<Event>)
      returns (outs: seq<Out>, ghost start: int, ghost total: int, ghost began: int, ghost before: int)
      requires Valid() && |stream| < WRAP && state == Established && hs.state == Idle
      requires forall e :: e in events && e.Arrival? ==> IsSegment(e.seg) && FromStream(e.seg, isn, stream, e.off)
      modifies this
      ensures Valid() && stream == old(stream) && delivered <= stream && -1 <= start && |outs| <= |events|
      ensures |outs| < |events| ==> state != Established || hs.state == File
      ensures state == Established && hs.state != File ==> Awaiting(hs, img, delivered, start, total, began)
      ensures forall i :: 0 <= i < |outs| ==> Dataless(outs[i]) || (i == |outs| - 1 && state == Established)
      ensures state == Established && hs.state == File ==>
        && 0 < |outs| && events[|outs| - 1].Arrival?
        && Settles(img, delivered, before, start, total, began, events[|outs| - 1].look, hs.file)
        && Begins(hs.file, NewMss(events[|outs| - 1].seg.wnd, initialMss), sndNxt, rcvNxt, state, hs, len,
                  outs[|outs| - 1])
    {
      hide OnPage, IsQuad, Val, Mod, PageOutput, FromPeer, FromStream, Numbers, Outstanding, RecvOk, Sooner, Took,
        Quiet, Awaiting, Settles, Begins, Whole;
      outs := [];
      var i := 0;
      start, total, began, before := -1, 0, 0, 0;
      StartsWaiting(hs, img, delivered);
      IsPrefix(state, Val(rcvNxt), isn, stream, delivered);
      while i < |events| && state == Established && hs.state != File
        invariant 0 <= i == |outs| <= |events| && Valid() && stream == old(stream) && isn == old(isn)
        invariant delivered <= stream && -1 <= start
        invariant state == Established && hs.state != File ==> Awaiting(hs, img, delivered, start, total, began)
        invariant forall k :: 0 <= k < i ==>
          Dataless(outs[k]) || (k == i - 1 && state == Established && hs.state == File)
        invariant state == Established && hs.state == File ==>
          && 0 < i && events[i - 1].Arrival?
          && Settles(img, delivered, before, start, total, began, events[i - 1].look, hs.file)
          && Begins(hs.file, NewMss(events[i - 1].seg.wnd, initialMss), sndNxt, rcvNxt, state, hs, len, outs[i - 1])
        decreases |events| - i
      {
        assert events[i] in events;
        var out;
        ghost var h0, u0, d0 := hs, img, delivered;
        Polls(hs, len, mss, initialMss, rto, timer, nrtx);
        match events[i] {
          case Timer =>
            out := Tick(0, []);
            if state == Established { OnlyCounted(h0, u0, d0, hs, img, start, total, began); }
          case Arrival(seg, look, off) =>
            Within(seg, isn, stream, |delivered|, off);
            ghost var due := seg.data == [] || Val(seg.seqno) == Val(rcvNxt);
            out := Input(seg, look, off, 0, []);
            if due && !seg.fin && !seg.rst && seg.data != [] {
              LoadStep(h0, u0, d0, seg.data, look, NewMss(seg.wnd, initialMss), sndNxt, rcvNxt, state, hs,
                img, len, out, start, total, began);
              before := |d0|;
              if start < 0 && hs.state == Upload && img.begun && look.Begin? {
                start, total, began := |d0| + look.at, look.total, |delivered|;
              }
            }
        }
        IsPrefix(state, Val(rcvNxt), isn, stream, delivered);
        outs := outs + [out];
        i := i + 1;
      }
    }

    // One event of a quiet download.
    method Turn(e: Event, ghost base: int, page: seq<int>) returns (out: Out)
      requires Valid() && Downloading(base, page, 0) && |stream| < WRAP
      requires e.Arrival? ==> IsSegment(e.seg) && FromStream(e.seg, isn, stream, e.off)
      requires e.Arrival? && state != Closed ==> Quiet(e.seg, e.look, page)
      modifies this
      ensures Valid() && Downloading(base, page, 0) && PageOutput(out, base, page)
      ensures stream == old(stream) && isn == old(isn) && initialMss == old(initialMss) && delivered <= stream
      ensures old(steady) && (e.Arrival? ==> Roomy(e.seg)) ==> steady
      ensures Carried(e, old(state), old(hs), old(len), old(sndNxt), state, hs, len, sndNxt)
      ensures Whole(out, state, hs, len, sndNxt)
    {
      hide RecvOk, OnPage, IsQuad, Val, Mod, PageOutput, FromPeer, FromStream, Numbers, Outstanding, AppOk, Whole,
        Carried, Diagram, Steps, Elsewhere, OnTick, Sized;
      out := Nothing;
      ghost var s0, h0, u0, n0, q0, t0, x0 := state, hs, img, len, sndNxt, timer, nrtx;
      IsPrefix(state, Val(rcvNxt), isn, stream, delivered);
      match e {
        case Timer =>
          out := Tick(base, page);
          TickCarries(s0, h0, n0, q0, state, hs, len);
          WholeTick(s0, n0, t0, x0, h0, sndNxt, rcvNxt, state, hs, len);
        case Arrival(seg, look, off) =>
          BareOutput(sndNxt, rcvNxt, base, page);
          if state != Closed {
            Within(seg, isn, stream, |delivered|, off);
            ghost var acks, due := Acks(seg), seg.data == [] || Val(seg.seqno) == Val(rcvNxt);
            out := Input(seg, look, off, base, page);
            InputCarries(seg, look, off, s0, h0, u0, n0, q0, acks, due, state, hs, img, len, sndNxt, rcvNxt, out,
                         initialMss);
          } else {
            IsCarried(state, hs, len, sndNxt, e);
            DatalessWhole(out, state, hs, len, sndNxt);
          }
      }
      IsPrefix(state, Val(rcvNxt), isn, stream, delivered);
    }

    // A whole download over a network that loses, repeats, reorders and delays:
    // as long as the client is quiet, everything sent is right.
    method Serve(events: seq<Event>, ghost base: int, page: seq<int>) returns (outs: seq<Out>)
      requires Valid() && Downloading(base, page, 0) && |stream| < WRAP
      requires forall e :: e in events && e.Arrival? ==> IsSegment(e.seg) && FromStream(e.seg, isn, stream, e.off)
      modifies this
      ensures Valid() && stream == old(stream) && delivered <= stream
      ensures forall out :: out in outs ==> PageOutput(out, base, page)
      // Only one segment is in flight at any time.
      ensures |outs| <= |events| && OneAtATime(events, outs)
      // It ends early only at a segment by which the client breaks its silence.
      ensures |outs| < |events| ==>
        var e := events[|outs|]; e.Arrival? && state != Closed && !Quiet(e.seg, e.look, page)
      // With windows that stay closed or hold a whole segment only a FIN, a reset
      // or other data can do that.
      ensures |outs| < |events| && old(steady) && (forall e :: e in events && e.Arrival? ==> old(Roomy(e.seg))) ==>
        var e := events[|outs|]; !Bare(e.seg, e.look, page)
    {
      hide RecvOk, OnPage, IsQuad, Val, Mod, PageOutput, FromPeer, FromStream, Numbers, Outstanding, AppOk, Whole,
        OneAtATime, InStep, Carried;
      outs := [];
      NothingSent(events, state, hs, len, sndNxt);
      var i := 0;
      IsPrefix(state, Val(rcvNxt), isn, stream, delivered);
      while i < |events|
        invariant 0 <= i == |outs| <= |events| && Valid() && Downloading(base, page, 0)
        invariant stream == old(stream) && isn == old(isn) && delivered <= stream
        invariant forall out :: out in outs ==> PageOutput(out, base, page)
        invariant OneAtATime(events, outs) && InStep(events, outs, state, hs, len, sndNxt)
        invariant initialMss == old(initialMss)
        invariant old(steady) && (forall e :: e in events && e.Arrival? ==> old(Roomy(e.seg))) ==> steady
        decreases |events| - i
      {
        assert events[i] in events;
        var e := events[i];
        if e.Arrival? && state != Closed && !Quiet(e.seg, e.look, page) {
          Bounds(state, hs, len, mss, initialMss, rto, timer, nrtx);
          if steady && Roomy(e.seg) && state == Established && hs.state == File {
            SteadyInTime(hs, len, mss, initialMss, Val(sndNxt), base, page, e.seg.wnd);
          }
          return;
        }
        ghost var s0, h0, n0, q0 := state, hs, len, sndNxt;
        var out := Turn(e, base, page);
        OneMore(events, outs, s0, h0, n0, q0, state, hs, len, sndNxt, out);
        outs := outs + [out];
        i := i + 1;
      }
    }
  }

  lemma TimerRuns(len: int, mss: int, initialMss: int, rto: int, timer: int, nrtx: int)
    requires Numbers(len, mss, initialMss, rto, timer, nrtx)
    ensures timer >= 0
  {
  }

  // ---- an upload ----

  // So much of the file, which begins at `start` in the stream, has come, and is
  // in memory unless it is of no use.
  ghost predicate Loading(h: Hs, u: Image, delivered: seq<int>, start: int) {
    && h.state == Upload && u.begun && 0 <= start <= |delivered| && h.upload == |delivered| - start
    && (!u.failed ==> u.loaded == delivered[start..])
  }

  // From the request to the answer: nothing of the file yet, or less than all.
  // What has come with its start, `began` bytes in all, is not looked at.
  ghost predicate Awaiting(h: Hs, u: Image, delivered: seq<int>, start: int, total: int, began: int) {
    if start < 0 then h.state == Idle || (h.state == Upload && !u.begun)
    else Loading(h, u, delivered, start) && h.total == total && (h.upload < total || |delivered| == began)
  }

  // The page that answers the last part of the file, or a request without one.
  ghost predicate Settles(u: Image, delivered: seq<int>, before: int, start: int, total: int, began: int,
                            look: Look, file: seq<int>) {
    && file == PageOf(look)
    && if start < 0 then look.Get? || look.Answer?
       else
         && u.done && (before - start < total || before == began) && |delivered| - start >= total
         && start <= |delivered| && (!u.failed ==> u.loaded == delivered[start..])
  }

  // Data behind a request: the start of the file, a part of it, or the answer.
  lemma LoadStep(h0: Hs, u0: Image, d0: seq<int>, data: seq<int>, look: Look, mss: int, sndNxt: seq<int>,
                 rcvNxt: seq<int>, state: TcpState, hs: Hs, img: Image, len: int, out: Out, start: int, total: int,
                 began: int)
    requires h0.state != File && Awaiting(h0, u0, d0, start, total, began) && data != [] && -1 <= start
    requires Took(h0, u0, data, look, mss, sndNxt, rcvNxt, state, hs, img, len, out)
    ensures var d := d0 + data;
      var starts := start < 0 && hs.state == Upload && img.begun && look.Begin?;
      var start' := if starts then |d0| + look.at else start;
      var total' := if starts then look.total else total;
      var began' := if starts then |d| else began;
      && (state == Established && hs.state != File ==>
            -1 <= start' && Awaiting(hs, img, d, start', total', began') && Dataless(out))
      && (state == Established && hs.state == File ==>
            && start' == start && Settles(img, d, |d0|, start, total, began, look, hs.file)
            && Begins(hs.file, mss, sndNxt, rcvNxt, state, hs, len, out))
      && (state != Established ==> Dataless(out))
  {
    var d := d0 + data;
    if start >= 0 {
      assert d[start..] == d0[start..] + data;
    } else if Found(look, data) {
      assert d[|d0| + look.at..] == data[look.at..];
    }
  }

  lemma StartsWaiting(h: Hs, u: Image, delivered: seq<int>)
    requires h.state == Idle
    ensures Awaiting(h, u, delivered, -1, 0, 0)
  {
  }

  lemma OnlyCounted(h0: Hs, u0: Image, d: seq<int>, h: Hs, u: Image, start: int, total: int, began: int)
    requires Awaiting(h0, u0, d, start, total, began) && h == h0.(count := h.count) && u == u0
    ensures Awaiting(h, u, d, start, total, began)
  {
  }

  // ---- one segment at a time ----

  predicate Carries(out: Out) {
    out.Send? && out.seg.data != [] && IsQuad(out.seg.seqno)
  }

  predicate AckOf(e: Event, last: int) {
    e.Arrival? && IsSegment(e.seg) && e.seg.ack && Val(e.seg.ackno) == Mod(last)
  }

  // A segment that acknowledges `out` to its end has come in behind it.
  predicate Acked(events: seq<Event>, i: int, n: int, out: Out)
    requires Carries(out) && 0 <= i <= n <= |events|
  {
    exists k :: i < k < n && AckOf(events[k], Val(out.seg.seqno) + |out.seg.data|)
  }

  // outs[i] answers events[i].  Of any two that carry data either the second is
  // the first one again, or the first one has been acknowledged to its end.
  predicate OneAtATime(events: seq<Event>, outs: seq<Out>)
    requires |outs| <= |events|
  {
    forall i, j :: 0 <= i < j < |outs| && Carries(outs[i]) && Carries(outs[j]) ==>
      || (outs[j].seg.seqno == outs[i].seg.seqno && |outs[j].seg.data| == |outs[i].seg.data|)
      || Acked(events, i, j + 1, outs[i])
  }

  // What was sent is still outstanding, or acknowledged, or no more will follow.
  predicate InStep(events: seq<Event>, outs: seq<Out>, state: TcpState, hs: Hs, len: int, sndNxt: seq<int>)
    requires |outs| <= |events|
  {
    forall i :: 0 <= i < |outs| && Carries(outs[i]) ==>
      || (state == Established && hs.state == File && sndNxt == outs[i].seg.seqno && len == |outs[i].seg.data|)
      || Acked(events, i, |outs|, outs[i])
      || (state != SynRcvd && state != Established)
  }

  // What an event leaves of a segment that is outstanding.
  predicate Carried(e: Event, s0: TcpState, h0: Hs, len0: int, q0: seq<int>, state: TcpState, hs: Hs, len: int,
                    q: seq<int>)
    requires IsQuad(q0)
  {
    && (s0 != SynRcvd && s0 != Established ==> state != SynRcvd && state != Established)
    && (s0 == Established && h0.state == File && len0 > 0 ==>
          || (state != SynRcvd && state != Established)
          || (state == Established && hs.state == File && len == len0 && q == q0)
          || AckOf(e, Val(q0) + len0))
  }

  lemma NothingSent(events: seq<Event>, state: TcpState, hs: Hs, len: int, sndNxt: seq<int>)
    ensures OneAtATime(events, []) && InStep(events, [], state, hs, len, sndNxt)
  {
  }

  lemma IsCarried(state: TcpState, hs: Hs, len: int, q: seq<int>, e: Event)
    requires IsQuad(q)
    ensures Carried(e, state, hs, len, q, state, hs, len, q)
  {
  }

  lemma TickCarries(s0: TcpState, h0: Hs, len0: int, q: seq<int>, state: TcpState, hs: Hs, len: int)
    requires IsQuad(q) && (state == s0 || state == Closed)
    requires state == Established && len0 > 0 ==> hs == h0 && len == len0
    ensures Carried(Timer, s0, h0, len0, q, state, hs, len, q)
  {
  }

  lemma InputCarries(g: Segment, look: Look, off: int, s0: TcpState, h0: Hs, u0: Image, len0: int, q0: seq<int>,
                     acks: bool, due: bool, state: TcpState, hs: Hs, img: Image, len: int, q: seq<int>,
                     rcvNxt: seq<int>, out: Out,
                     initialMss: int)
    requires IsSegment(g) && IsQuad(q0) && IsQuad(q)
    requires acks <==> g.ack && len0 > 0 && Val(g.ackno) == Mod(Val(q0) + len0)
    requires due ==> Diagram(s0, g.fin, acks, len0 > 0, state)
    requires !due ==> state == s0 && hs == h0 && len == len0 && q == q0
    requires s0 == Established && h0.state == File ==> (g.data == [] <==> due)
    requires s0 == Established && due ==>
      Steps(h0, u0, len0, acks, g.data, look, NewMss(g.wnd, initialMss), q, rcvNxt, state, hs, img, len, out)
    requires !acks ==> Val(q) == Val(q0)
    ensures Carried(Arrival(g, look, off), s0, h0, len0, q0, state, hs, len, q)
  {
    hide Val, Mod, IsQuad;
    SameVal(q, q0);
  }

  lemma OneMore(events: seq<Event>, outs: seq<Out>, s0: TcpState, h0: Hs, len0: int, q0: seq<int>, state: TcpState,
                hs: Hs, len: int, q: seq<int>, out: Out)
    requires |outs| < |events| && OneAtATime(events, outs) && InStep(events, outs, s0, h0, len0, q0) && IsQuad(q0)
    requires Carried(events[|outs|], s0, h0, len0, q0, state, hs, len, q) && Whole(out, state, hs, len, q)
    ensures OneAtATime(events, outs + [out]) && InStep(events, outs + [out], state, hs, len, q)
  {
    hide IsQuad, Val, Mod, AckOf;
    var n, more := |outs|, outs + [out];
    forall i | 0 <= i < |outs| && Carries(outs[i])
      ensures || (state == Established && hs.state == File && q == outs[i].seg.seqno && len == |outs[i].seg.data|)
              || Acked(events, i, n + 1, outs[i])
              || (state != SynRcvd && state != Established)
    {
      if Acked(events, i, n, outs[i]) {
        var k :| i < k < n && AckOf(events[k], Val(outs[i].seg.seqno) + |outs[i].seg.data|);
      }
    }
    forall i, j | 0 <= i < j < |more| && Carries(more[i]) && Carries(more[j])
      ensures || (more[j].seg.seqno == more[i].seg.seqno && |more[j].seg.data| == |more[i].seg.data|)
              || Acked(events, i, j + 1, more[i])
    {
    }
  }

  // A bare acknowledgement of `all`, with a window.
  predicate IsAck(g: Segment, all: int, wnd: int) {
    && IsSegment(g) && g.ack && !g.syn && !g.fin && !g.rst && g.data == []
    && Val(g.ackno) == Mod(all) && g.wnd == wnd
  }

  // The client asks for a page of 1400 bytes with a window of 1000 and
  // acknowledges those with a window of 1446: the FIN takes the place of the
  // last 400 bytes.
  method EarlyFin(c: Conn, get: Segment, ack: Segment, page: seq<int>, ghost off: int) returns (out: Out)
    requires c.Valid() && c.state == Established && c.hs.state == Idle && c.len == 0 && c.initialMss == 1446
      && |page| == 1400
    requires IsSegment(get) && !get.fin && !get.rst && get.data != [] && get.wnd == 1000
      && Val(get.seqno) == Val(c.rcvNxt)
    requires FromPeer(get, c.isn, c.stream, |c.delivered|, off)
    requires IsAck(ack, Val(c.sndNxt) + 1000, 1446)
    modifies c
    ensures out.Send? && out.seg.fin && IsQuad(out.seg.seqno)
    ensures Val(out.seg.seqno) == Mod(old(Val(c.sndNxt)) + 1000) != Mod(old(Val(c.sndNxt)) + |page|)
  {
    hide RecvOk, OnPage, IsQuad, Val, Mod, FromPeer, PageOutput, Outstanding, Numbers;
    ghost var was := Val(c.sndNxt);
    out := c.Input(get, Get(page), off, 0, []);
    assert c.len == 1000 && c.hs.upload == 1400 && Val(c.sndNxt) == was;
    BareComes(ack, c.isn, c.stream, |c.delivered|);
    out := c.Input(ack, Refuse, 0, 0, []);
    FarApart(was, 1000, 1400);
  }

  // The other way round, with a window of 1446 and then of 1000, all of the page
  // is sent and acknowledged, but no FIN follows: nothing is outstanding, and no
  // acknowledgement can bring one about.
  method NoFin(c: Conn, get: Segment, ack: Segment, again: Segment, page: seq<int>, ghost off: int) returns (out: Out,
               later: Out)
    requires c.Valid() && c.state == Established && c.hs.state == Idle && c.len == 0 && c.initialMss == 1446
      && |page| == 1400
    requires IsSegment(get) && !get.fin && !get.rst && get.data != [] && get.wnd == 1446
      && Val(get.seqno) == Val(c.rcvNxt)
    requires FromPeer(get, c.isn, c.stream, |c.delivered|, off)
    requires IsAck(ack, Val(c.sndNxt) + 1400, 1000)
    requires IsSegment(again) && again.data == [] && !again.fin && !again.rst
    modifies c
    ensures out == later == Nothing && c.state == Established && c.hs.state == File && c.hs.ptr == |page| && c.len == 0
  {
    hide RecvOk, OnPage, IsQuad, Val, Mod, FromPeer, PageOutput, Outstanding, Numbers;
    ghost var was := Val(c.sndNxt);
    out := c.Input(get, Get(page), off, 0, []);
    assert c.len == 1400 && Val(c.sndNxt) == was;
    BareComes(ack, c.isn, c.stream, |c.delivered|);
    out := c.Input(ack, Refuse, 0, 0, []);
    BareComes(again, c.isn, c.stream, |c.delivered|);
    later := c.Input(again, Refuse, 0, 0, []);
  }

  lemma BareComes(g: Segment, isn: int, stream: seq<int>, delivered: int)
    requires IsSegment(g) && g.data == []
    ensures FromPeer(g, isn, stream, delivered, 0)
  {
  }

  datatype Event = Timer | Arrival(seg: Segment, look: Look, off: int)

  // The segment carries some part of the stream.
  ghost predicate FromStream(g: Segment, isn: int, stream: seq<int>, off: int)
    requires IsSegment(g)
  {
    g.data != [] ==>
      0 <= off && off + |g.data| <= |stream| && g.data == stream[off..off + |g.data|]
        && Val(g.seqno) == Mod(isn + 1 + off)
  }

  lemma Within(g: Segment, isn: int, stream: seq<int>, delivered: int, off: int)
    requires IsSegment(g) && FromStream(g, isn, stream, off) && |stream| < WRAP && 0 <= delivered <= |stream|
    ensures FromPeer(g, isn, stream, delivered, off)
  {
  }

  lemma IsPrefix(state: TcpState, v: int, isn: int, stream: seq<int>, delivered: seq<int>)
    requires RecvOk(state, v, isn, stream, delivered)
    ensures delivered <= stream && |delivered| <= |stream|
  {
  }

  lemma Fresh(state: TcpState, hs: Hs, len: int, mss: int, initialMss: int, rto: int, timer: int, nrtx: int,
              option: int)
    requires AppOk(state, hs, len) && state != Established && Numbers(len, mss, initialMss, rto, timer, nrtx)
    requires -1 <= option < 0x1_0000
    ensures AppOk(SynRcvd, hs, 1) && Outstanding(SynRcvd, 1, 0)
    ensures Numbers(1, mss, initialMss, UIP_RTO, UIP_RTO, 0)
    ensures option >= 0 ==> Numbers(1, Min(option, UIP_TCP_MSS), Min(option, UIP_TCP_MSS), UIP_RTO, UIP_RTO, 0)
  {
  }

  lemma Opened(hs: Hs, mss: int, iss: int, isn: int, stream: seq<int>, page: seq<int>)
    requires 0 <= iss < WRAP
    ensures RecvOk(SynRcvd, Mod(isn + 1), isn, stream, [])
    ensures page != [] && mss > 0 ==> OnPage(SynRcvd, hs, 1, mss, mss, iss, iss + 1, page, 0, true)
  {
  }

  // ---- reclaiming ----

  const LONGEST_WAIT: int := 501

  function MaxRtx(state: TcpState): int {
    if state == SynRcvd then UIP_MAXSYNRTX else UIP_MAXRTX
  }

  // UIP_RTO << (nrtx > 4 ? 4 : nrtx)
  function Backoff(nrtx: int): int {
    if nrtx <= 0 then 3 else if nrtx == 1 then 6 else if nrtx == 2 then 12 else if nrtx == 3 then 24 else 48
  }

  // The ticks the remaining retransmissions take.
  function Retries(nrtx: int, max: int): int
    decreases max - nrtx
  {
    if nrtx >= max then 0 else Backoff(nrtx) + 1 + Retries(nrtx + 1, max)
  }

  // How many ticks a connection that hears nothing has left.
  function Remaining(state: TcpState, len: int, timer: int, nrtx: int, count: int): int {
    if state == Closed then 0
    else if state == TimeWait || state == FinWait2 then (UIP_TIME_WAIT_TIMEOUT - 1 - timer) % 256 + 1
    else if len > 0 then timer + 1 + Retries(nrtx, MaxRtx(state))
    else POLLS - count + 1
  }

  ghost predicate Sooner(state0: TcpState, len0: int, timer0: int, nrtx0: int, count0: int,
                         state: TcpState, len: int, timer: int, nrtx: int, count: int) {
    state0 != Closed ==> Remaining(state, len, timer, nrtx, count) == Remaining(state0, len0, timer0, nrtx0, count0) - 1
  }

  lemma BackoffDoubles(nrtx: int)
    requires 0 <= nrtx
    ensures Backoff(0) == UIP_RTO && Backoff(nrtx + 1) == if nrtx < 4 then 2 * Backoff(nrtx) else Backoff(nrtx)
  {
  }

  // How long a connection lasts that hears nothing: with a segment just sent, a
  // SYN just answered, in TIME-WAIT, and with nothing to do.
  lemma WaitsAre()
    ensures Remaining(Established, 1, UIP_RTO, 0, 0) == 249 && Remaining(SynRcvd, 1, UIP_RTO, 0, 0) == 28
    ensures Remaining(TimeWait, 0, 0, 0, 0) == 120 && Remaining(Established, 0, 0, 0, 0) == 101
  {
    assert Retries(8, 8) == 0;
    assert Retries(7, 8) == 49 && Retries(6, 8) == 98 && Retries(5, 8) == 147 && Retries(4, 8) == 196;
    assert Retries(3, 8) == 221 && Retries(2, 8) == 234 && Retries(1, 8) == 241 && Retries(0, 8) == 245;
    assert Retries(3, 3) == 0;
    assert Retries(2, 3) == 13 && Retries(1, 3) == 20 && Retries(0, 3) == 24;
  }

  lemma RetriesBound(nrtx: int, max: int)
    requires 0 <= nrtx <= UIP_MAXRTX && (max == UIP_MAXRTX || max == UIP_MAXSYNRTX)
    ensures 0 <= Retries(nrtx, max) <= 245
  {
    var r := n => Retries(n, max);
    assert Retries(8, max) == 0;
    assert Retries(7, max) <= 49 && Retries(6, max) <= 98 && Retries(5, max) <= 147 && Retries(4, max) <= 196;
    assert Retries(3, max) <= 221 && Retries(2, max) <= 234 && Retries(1, max) <= 241 && Retries(0, max) <= 245;
  }

  lemma RemainingBound(state: TcpState, len: int, timer: int, nrtx: int, hs: Hs)
    requires 0 <= timer < 256 && 0 <= nrtx <= UIP_MAXRTX && AppOk(state, hs, len) && Outstanding(state, len, nrtx)
    ensures 0 <= Remaining(state, len, timer, nrtx, hs.count) <= LONGEST_WAIT
    ensures Remaining(state, len, timer, nrtx, hs.count) == 0 <==> state == Closed
  {
    RetriesBound(nrtx, MaxRtx(state));
  }

  lemma WaitingSooner(state: TcpState, len: int, timer: int, nrtx: int, count: int)
    requires (state == TimeWait || state == FinWait2) && 0 <= timer < 256
    ensures var t := (timer + 1) % 256; var s := if t == UIP_TIME_WAIT_TIMEOUT then Closed else state;
            Sooner(state, len, timer, nrtx, count, s, len, t, nrtx, count)
  {
  }

  lemma OutstandingSooner(state: TcpState, len: int, timer: int, nrtx: int, count: int)
    requires state != Closed && state != TimeWait && state != FinWait2 && len > 0 && 0 <= timer < 256
      && 0 <= nrtx <= UIP_MAXRTX
    ensures timer > 0 ==> Sooner(state, len, timer, nrtx, count, state, len, timer - 1, nrtx, count)
    ensures timer == 0 && nrtx < MaxRtx(state) ==>
      Sooner(state, len, timer, nrtx, count, state, len, Backoff(nrtx), nrtx + 1, count)
    ensures timer == 0 && nrtx >= MaxRtx(state) ==>
      forall l, t, n, c :: Sooner(state, len, timer, nrtx, count, Closed, l, t, n, c)
  {
    RetriesBound(nrtx, MaxRtx(state));
  }

  lemma PollSooner(timer: int, nrtx: int, count: int)
    requires count <= POLLS
    ensures Sooner(Established, 0, timer, nrtx, count, Established, 0, timer, 0, count + 1)
    ensures count == POLLS ==> forall l, t, n, c :: Sooner(Established, 0, timer, nrtx, count, Closed, l, t, n, c)
  {
  }

  // ---- sending a page again ----

  lemma OnceClosed(state: TcpState, hs: Hs, len: int, mss: int, initialMss: int, sndNxt: int, base: int,
                   page: seq<int>, steady: bool)
    requires OnPage(state, hs, len, mss, initialMss, sndNxt, base, page, 0, steady)
    ensures forall h, l :: OnPage(Closed, h, l, mss, initialMss, sndNxt, base, page, 0, steady)
  {
  }

  lemma FinAgain(state: TcpState, hs: Hs, len: int, mss: int, initialMss: int, sndNxt: seq<int>, rcvNxt: seq<int>,
                 base: int,
                 page: seq<int>, steady: bool)
    requires IsQuad(sndNxt) && OnPage(state, hs, len, mss, initialMss, Val(sndNxt), base, page, 0, steady)
    requires state == FinWait1 || state == Closing || state == LastAck
    ensures PageOutput(Send(Segment(false, true, true, false, sndNxt, rcvNxt, 0, [])), base, page)
  {
  }

  lemma FileRepeats(h0: Hs, f: Flags, h: Hs, slen: int, sptr: int, mss: int, len: int)
    requires AppOk(Established, h0, len) && len > 0
    requires FileStep(NOTHING.(rexmit := true), h0, f, h, slen, sptr, mss, len)
    ensures h0.state == File && f == NOTHING.(rexmit := true) && h == h0 && sptr == h.ptr && slen == Min(h.upload, mss)
    ensures 0 <= sptr && sptr + len <= |h.file|
  {
  }

  lemma DataAgain(hs: Hs, len: int, mss: int, initialMss: int, slen: int, sptr: int, f: Flags, sndNxt: seq<int>,
                  rcvNxt: seq<int>, base: int, page: seq<int>, steady: bool)
    requires IsQuad(sndNxt) && OnPage(Established, hs, len, mss, initialMss, Val(sndNxt), base, page, 0, steady)
    requires hs.state == File && sptr == hs.ptr && 0 <= sptr && sptr + len <= |hs.file| && len > 0
    ensures PageOutput(Output(f.(abort := false, close := false), sndNxt, rcvNxt,
                              if slen > 0 && len > 0 then hs.file[sptr..sptr + len] else []), base, page)
  {
    hide IsQuad, Val, Mod;
    assert PageBytes(hs.file[sptr..sptr + len], Val(sndNxt), base, page, sptr);
  }

  // Polls only happen before the request.
  lemma Polled(hs: Hs, mss: int, initialMss: int, sndNxt: int, base: int, page: seq<int>, steady: bool)
    requires OnPage(Established, hs, 0, mss, initialMss, sndNxt, base, page, 0, steady) && AppOk(Established, hs, 0)
    ensures OnPage(Established, hs.(count := hs.count + 1), 0, mss, initialMss, sndNxt, base, page, 0, steady)
  {
  }

  // The application only counts the poll, or gives up.
  lemma PolledState(hs: Hs, mss: int, initialMss: int, rto: int, timer: int, nrtx: int)
    requires Numbers(0, mss, initialMss, rto, timer, nrtx) && AppOk(Established, hs, 0)
    ensures Numbers(0, mss, initialMss, rto, timer, 0) && mss >= 0
    ensures Outstanding(Established, 0, 0) && Outstanding(Closed, 0, nrtx)
    ensures hs.state == File ==> 0 <= hs.ptr && hs.upload == |hs.file| - hs.ptr && hs.upload >= 0
    ensures hs.count < POLLS ==> AppOk(Established, hs.(count := hs.count + 1), 0)
    ensures AppOk(Closed, Hs(Idle, 0, [], 0, 0, 0), 0)
  {
  }

  predicate Plain(f: Flags) {
    !f.close && !f.abort && !f.timedout && !f.poll && !f.connected
  }

  // The connection after appsend.
  ghost predicate Sent(f: Flags, state0: TcpState, len0: int, nrtx0: int, n: int, state: TcpState, len: int,
                       nrtx: int) {
    if f.abort then state == Closed && len == len0 && nrtx == nrtx0
    else if f.close then state == FinWait1 && len == 1 && nrtx == 0
    else state == state0 && len == n && nrtx == 0
  }

  // What carries data carries all that is then outstanding.
  predicate Whole(out: Out, state: TcpState, hs: Hs, len: int, sndNxt: seq<int>) {
    out.Send? && out.seg.data != [] ==>
      state == Established && hs.state == File && |out.seg.data| == len && out.seg.seqno == sndNxt
  }

  predicate Dataless(out: Out) {
    out.Send? ==> out.seg.data == []
  }

  lemma DatalessWhole(out: Out, state: TcpState, hs: Hs, len: int, sndNxt: seq<int>)
    requires Dataless(out)
    ensures Whole(out, state, hs, len, sndNxt)
  {
  }

  lemma WholeOutput(f: Flags, h: Hs, sptr: int, len: int, state: TcpState, sndNxt: seq<int>, rcvNxt: seq<int>)
    requires state == (if f.abort then Closed else if f.close then FinWait1 else Established)
    requires AppOk(state, h, len) && (len > 0 && !f.abort && !f.close ==> 0 <= sptr && sptr + len <= |h.file|)
    ensures Whole(Output(f, sndNxt, rcvNxt, if len > 0 && !f.abort && !f.close then h.file[sptr..sptr + len] else []),
                  state, h, len, sndNxt)
  {
  }

  lemma PartIs(file: seq<int>, from: int, n: int)
    ensures 0 <= from && 0 <= n && from + n <= |file| ==> Part(file, from, n) == file[from..from + n]
  {
  }

  lemma WholeTick(state0: TcpState, len0: int, timer0: int, nrtx0: int, h0: Hs, sndNxt: seq<int>, rcvNxt: seq<int>,
                  state: TcpState, hs: Hs, len: int)
    requires AppOk(state0, h0, len0) && (state == state0 || state == Closed)
    requires state0 == Established && len0 > 0 && nrtx0 < UIP_MAXRTX ==>
      state == Established && hs == h0 && len == len0
    ensures Whole(OnTick(state0, len0, timer0, nrtx0, h0, sndNxt, rcvNxt), state, hs, len, sndNxt)
  {
  }

  // The segment appsend produces: a reset, a FIN, data, or a bare acknowledgement.
  function Output(f: Flags, sndNxt: seq<int>, rcvNxt: seq<int>, data: seq<int>): Out {
    if f.abort then Send(Segment(false, true, false, true, sndNxt, rcvNxt, 0, []))
    else if f.close then Send(Segment(false, true, true, false, sndNxt, rcvNxt, 0, []))
    else if data != [] || f.newdata then Send(Segment(false, true, false, false, sndNxt, rcvNxt, 0, data))
    else Nothing
  }

  // What the application does while a page is being sent.
  ghost predicate FileStep(f0: Flags, h0: Hs, f: Flags, h: Hs, slen: int, sptr: int, mss: int, len: int) {
    if f0.acked then
      (if h0.upload <= mss then f == NOTHING.(close := true) && slen == 0 && h == Hs(Idle, 0, [], 0, 0, 0)
       else
         && f == f0 && h == h0.(ptr := h0.ptr + len, upload := h0.upload - len)
         && slen == Min(h.upload, mss) && sptr == h.ptr)
    else f == f0 && h == h0 && (if f0.rexmit then slen == Min(h.upload, mss) && sptr == h.ptr else slen == 0)
  }

  // When no page is being sent yet: the connection is given up, or nothing is
  // sent, or a page is started.
  ghost predicate Served(f0: Flags, count: int, f: Flags, h: Hs, slen: int, sptr: int, mss: int) {
    || (f == NOTHING.(abort := true) && slen == 0 && h.state == Idle)
    || (f == f0 && h.state != File && slen == 0 && h.count == count)
    || (f == f0 && h.state == File && h.ptr == 0 && h.upload == |h.file| && slen == Min(h.upload, mss) && sptr == 0
        && (h.count == count || h.count == 0))
  }

  // What may be sent in a download: no data, or the page's bytes at their
  // numbers; and the FIN only behind the last of them.
  ghost predicate PageOutput(out: Out, base: int, page: seq<int>) {
    out.Send? ==>
      var g := out.seg;
      && IsQuad(g.seqno)
      && (g.data != [] ==> !g.fin && exists k :: PageBytes(g.data, Val(g.seqno), base, page, k))
      && (g.fin ==> Val(g.seqno) == Mod(base + |page|))
  }

  ghost predicate PageBytes(data: seq<int>, seqno: int, base: int, page: seq<int>, k: int) {
    0 <= k && k + |data| <= |page| && data == page[k..k + |data|] && seqno == Mod(base + k)
  }

  // What becomes of a page when a segment comes in: nothing, until all that was
  // sent is acknowledged; then the connection is closed if what was left fits
  // the segment size of now, and the bytes behind what was sent follow
  // otherwise.  Data that come instead have what is in flight forgotten.
  ghost predicate Goes(h0: Hs, u0: Image, len0: int, acked: bool, newdata: bool, mss: int, sndNxt: seq<int>,
                       rcvNxt: seq<int>, state: TcpState, hs: Hs, img: Image, len: int, out: Out) {
    if !acked then
      && state == Established && hs == h0 && img == u0
      && (if newdata then len == 0 && out == BareAck(sndNxt, rcvNxt) else len == len0 && out == Nothing)
    else if h0.upload <= mss then
      && state == FinWait1 && hs == Hs(Idle, 0, [], 0, 0, 0) && img == Finished(u0) && len == 1
      && out == FinAck(sndNxt, rcvNxt)
    else
      && state == Established && hs == h0.(ptr := h0.ptr + len0, upload := h0.upload - len0) && img == u0
        && len == Min(hs.upload, mss)
      && (len > 0 ==> 0 <= hs.ptr && hs.ptr + len <= |hs.file|
                      && out == Send(Segment(false, true, false, false, sndNxt, rcvNxt, 0,
                                             hs.file[hs.ptr..hs.ptr + len])))
      && (len <= 0 ==> out == if newdata then BareAck(sndNxt, rcvNxt) else Nothing)
  }

  // The answer to a request, or to a part of an upload: an acknowledgement, the
  // first bytes of a page, or a reset.
  ghost predicate Took(h0: Hs, u0: Image, data: seq<int>, look: Look, mss: int, sndNxt: seq<int>, rcvNxt: seq<int>,
                       state: TcpState, hs: Hs, img: Image, len: int, out: Out) {
    var (h, u, verdict) := Asked(h0, u0, data, look);
    && hs == h && img == u
    && match verdict
       case Wait => state == Established && len == 0 && out == BareAck(sndNxt, rcvNxt)
       case Page => Begins(h.file, mss, sndNxt, rcvNxt, state, hs, len, out)
       case Drop => state == Closed && out == RstAck(sndNxt, rcvNxt)
  }

  // A segment without FIN or RST in ESTABLISHED, in order if it has data.
  ghost predicate Steps(h0: Hs, u0: Image, len0: int, acked: bool, data: seq<int>, look: Look, mss: int,
                        sndNxt: seq<int>, rcvNxt: seq<int>, state: TcpState, hs: Hs, img: Image, len: int, out: Out) {
    if h0.state == File then
      Goes(h0, u0, len0, acked, data != [], mss, sndNxt, rcvNxt, state, hs, img, len, out)
    else if data != [] then Took(h0, u0, data, look, mss, sndNxt, rcvNxt, state, hs, img, len, out)
    else state == Established && hs == h0 && img == u0 && len == len0 && out == Nothing
  }

  // The upgrade may start from the moment that the last of the answer to an
  // upload that went well is acknowledged, and from no other.
  lemma UpgradeStarts(h0: Hs, u0: Image, len0: int, acked: bool, data: seq<int>, look: Look, mss: int,
                      sndNxt: seq<int>, rcvNxt: seq<int>, state: TcpState, hs: Hs, img: Image, len: int, out: Out)
    requires Steps(h0, u0, len0, acked, data, look, mss, sndNxt, rcvNxt, state, hs, img, len, out)
    ensures img.ready <==>
      u0.ready || (h0.state == File && acked && h0.upload <= mss && u0.done && !u0.failed)
  {
  }

  predicate AcksAll(out: Out, rcvNxt: seq<int>) {
    out.Send? && out.seg.ack && out.seg.ackno == rcvNxt
  }

  // Data that are taken are acknowledged at once.
  lemma Answered(h0: Hs, u0: Image, len0: int, acked: bool, data: seq<int>, look: Look, mss: int, sndNxt: seq<int>,
                 rcvNxt: seq<int>, state: TcpState, hs: Hs, img: Image, len: int, out: Out)
    requires Steps(h0, u0, len0, acked, data, look, mss, sndNxt, rcvNxt, state, hs, img, len, out) 
    ensures data != [] ==> AcksAll(out, rcvNxt)
  {
  }

  // The segments without data.
  function BareAck(sndNxt: seq<int>, rcvNxt: seq<int>): Out {
    Send(Segment(false, true, false, false, sndNxt, rcvNxt, 0, []))
  }

  function SynAck(sndNxt: seq<int>, rcvNxt: seq<int>): Out {
    Send(Segment(true, true, false, false, sndNxt, rcvNxt, 0, []))
  }

  function FinAck(sndNxt: seq<int>, rcvNxt: seq<int>): Out {
    Send(Segment(false, true, true, false, sndNxt, rcvNxt, 0, []))
  }

  function RstAck(sndNxt: seq<int>, rcvNxt: seq<int>): Out {
    Send(Segment(false, true, false, true, sndNxt, rcvNxt, 0, []))
  }

  // The answer to a segment in the other states, and to a FIN.
  function Reply(from: TcpState, fin: bool, n: int, acked: bool, outstanding: bool, sndNxt: seq<int>,
                 rcvNxt: seq<int>): (out: Out)
    ensures Dataless(out)
  {
    match from
    case SynRcvd => if acked && n > 0 then BareAck(sndNxt, rcvNxt) else Nothing
    case Established => if outstanding then Nothing else FinAck(sndNxt, rcvNxt)
    case FinWait1 => if fin || (n > 0 && !acked) then BareAck(sndNxt, rcvNxt) else Nothing
    case FinWait2 => if fin || n > 0 then BareAck(sndNxt, rcvNxt) else Nothing
    case TimeWait => BareAck(sndNxt, rcvNxt)
    case Closing => Nothing
    case LastAck => Nothing
    case Closed => Nothing
  }

  // rcv_nxt behind such a segment: data and FIN count where they are taken.
  function HeardTo(from: TcpState, fin: bool, n: int, outstanding: bool, v: int): int {
    if from == FinWait1 || from == FinWait2 || (from == Established && !outstanding) then Counted(v, n, fin) else v
  }

  ghost predicate Elsewhere(from: TcpState, fin: bool, n: int, acked: bool, outstanding: bool, v: int,
                            sndNxt: seq<int>, rcvNxt: seq<int>, out: Out)
    requires IsQuad(rcvNxt)
  {
    && out == Reply(from, fin, n, acked, outstanding, sndNxt, rcvNxt)
    && (from != SynRcvd ==> Val(rcvNxt) == HeardTo(from, fin, n, outstanding, v))
  }

  lemma StaysSilent(from: TcpState, fin: bool, n: int, acked: bool, outstanding: bool, v: int, sndNxt: seq<int>,
                    rcvNxt: seq<int>)
    requires IsQuad(rcvNxt) && v == Val(rcvNxt) && (from == LastAck || from == Closing)
    ensures Elsewhere(from, fin, n, acked, outstanding, v, sndNxt, rcvNxt, Nothing)
  {
  }

  lemma ElsewhereWhole(from: TcpState, fin: bool, n: int, acked: bool, outstanding: bool, v: int, sndNxt: seq<int>,
                       rcvNxt: seq<int>, out: Out, state: TcpState, hs: Hs, len: int)
    requires IsQuad(rcvNxt) && Elsewhere(from, fin, n, acked, outstanding, v, sndNxt, rcvNxt, out)
    ensures Whole(out, state, hs, len, sndNxt)
  {
  }

  lemma FinIgnored(n: int, acked: bool, v: int, sndNxt: seq<int>, rcvNxt: seq<int>)
    requires IsQuad(rcvNxt) && v == Val(rcvNxt)
    ensures Elsewhere(Established, true, n, acked, true, v, sndNxt, rcvNxt, Nothing)
  {
  }

  lemma FinTaken(n: int, acked: bool, v: int, sndNxt: seq<int>, rcvNxt: seq<int>)
    requires IsQuad(rcvNxt) && Val(rcvNxt) == Mod(v + (1 + n))
    ensures Elsewhere(Established, true, n, acked, false, v, sndNxt, rcvNxt, FinAck(sndNxt, rcvNxt))
  {
    hide Val, IsQuad;
    AddOffset(v, n, 1);
  }

  lemma OnlyAcks(fin: bool, n: int, acked: bool, outstanding: bool, v: int, sndNxt: seq<int>, rcvNxt: seq<int>)
    requires IsQuad(rcvNxt) && v == Val(rcvNxt)
    ensures Elsewhere(TimeWait, fin, n, acked, outstanding, v, sndNxt, rcvNxt, BareAck(sndNxt, rcvNxt))
  {
  }

  // What goes out when the retransmission timer has expired: the SYN, the bytes
  // of the page in flight, or the FIN once more, until there were too many.
  function Again(state: TcpState, nrtx: int, hs: Hs, len: int, sndNxt: seq<int>, rcvNxt: seq<int>): Out {
    if nrtx >= MaxRtx(state) then RstAck(sndNxt, rcvNxt)
    else if state == SynRcvd then SynAck(sndNxt, rcvNxt)
    else if state == Established then
      Send(Segment(false, true, false, false, sndNxt, rcvNxt, 0, Part(hs.file, hs.ptr, len)))
    else FinAck(sndNxt, rcvNxt)
  }

  function Part(file: seq<int>, from: int, n: int): seq<int> {
    if 0 <= from <= from + n <= |file| then file[from..from + n] else []
  }

  // What goes out on a tick.
  function OnTick(state: TcpState, len: int, timer: int, nrtx: int, hs: Hs, sndNxt: seq<int>, rcvNxt: seq<int>): Out {
    if state == Closed || state == TimeWait || state == FinWait2 then Nothing
    else if len > 0 then if timer == 0 then Again(state, nrtx, hs, len, sndNxt, rcvNxt) else Nothing
    else if state == Established && hs.count >= POLLS then RstAck(sndNxt, rcvNxt)
    else Nothing
  }

  // The answer to a GET begins with the first bytes of the page.
  ghost predicate Begins(page: seq<int>, mss: int, sndNxt: seq<int>, rcvNxt: seq<int>, state: TcpState, hs: Hs,
                         len: int, out: Out) {
    && state == Established && hs.state == File && hs.file == page && hs.ptr == 0 && hs.upload == |page|
    && 0 <= len == Min(|page|, mss)
    && out == Send(Segment(false, true, false, false, sndNxt, rcvNxt, 0, page[..len]))
  }

  // ---- the other invariants ----

  lemma Bounds(state: TcpState, hs: Hs, len: int, mss: int, initialMss: int, rto: int, timer: int, nrtx: int)
    requires Numbers(len, mss, initialMss, rto, timer, nrtx) && AppOk(state, hs, len) && Outstanding(state, len, nrtx)
    ensures 0 <= len < 0x1_0000 && 0 <= mss < 0x1_0000 && 0 <= initialMss < 0x1_0000 && 0 <= nrtx <= UIP_MAXRTX
    ensures hs.state == File ==> 0 <= hs.ptr && hs.upload == |hs.file| - hs.ptr && 0 <= len <= hs.upload
    ensures state == SynRcvd ==> len == 1
  {
  }

  lemma Settled(len: int, mss: int, initialMss: int, rto: int, timer: int, nrtx: int, state: TcpState, hs: Hs)
    requires Numbers(len, mss, initialMss, rto, timer, nrtx) && state != SynRcvd && state != Established
      && hs.state == Idle
    ensures Numbers(1, mss, initialMss, rto, timer, 0) && Outstanding(state, 1, 0) && AppOk(state, hs, 1)
  {
  }

  lemma ClosedOk(len: int, nrtx: int)
    ensures Outstanding(Closed, len, nrtx) && AppOk(Closed, Hs(Idle, 0, [], 0, 0, 0), len)
  {
  }

  lemma BackedOff(state: TcpState, hs: Hs, len: int, mss: int, initialMss: int, rto: int, timer: int, nrtx: int)
    requires Numbers(len, mss, initialMss, rto, timer, nrtx) && Outstanding(state, len, nrtx) && AppOk(state, hs, len)
    ensures nrtx <= MaxRtx(state) <= UIP_MAXRTX
    ensures nrtx < MaxRtx(state) ==>
      Numbers(len, mss, initialMss, rto, Backoff(nrtx), nrtx + 1) && Outstanding(state, len, nrtx + 1)
  {
  }

  // The ways out of FIN-WAIT-1 and CLOSING.
  lemma Closes(hs: Hs, len: int, mss: int, initialMss: int, rto: int, timer: int, nrtx: int)
    requires Numbers(len, mss, initialMss, rto, timer, nrtx)
    requires (AppOk(FinWait1, hs, len) && Outstanding(FinWait1, len, nrtx))
      || (AppOk(Closing, hs, len) && Outstanding(Closing, len, nrtx))
    ensures Numbers(0, mss, initialMss, rto, 0, nrtx) && Numbers(0, mss, initialMss, rto, timer, nrtx)
    ensures Numbers(len, mss, initialMss, rto, 0, nrtx) && Outstanding(TimeWait, len, nrtx) && AppOk(TimeWait, hs, len)
    ensures Outstanding(TimeWait, 0, nrtx) && Outstanding(FinWait2, 0, nrtx) && Outstanding(Closing, len, nrtx)
    ensures AppOk(TimeWait, hs, 0) && AppOk(FinWait2, hs, 0) && AppOk(Closing, hs, len)
  {
  }

  lemma Connected(len: int, mss: int, initialMss: int, rto: int, timer: int, nrtx: int)
    requires Numbers(len, mss, initialMss, rto, timer, nrtx)
    ensures Numbers(0, mss, initialMss, rto, timer, 0) && Outstanding(Established, 0, 0)
    ensures AppOk(Established, Hs(Idle, 0, [], 0, 0, 0), 0)
  {
  }

  // The window the peer offers becomes the segment size, within limits.
  lemma Window(len: int, mss: int, initialMss: int, rto: int, timer: int, nrtx: int, wnd: int)
    requires Numbers(len, mss, initialMss, rto, timer, nrtx) && 0 <= wnd < 0x1_0000
    ensures Numbers(len, NewMss(wnd, initialMss), initialMss, rto, timer, nrtx)
    ensures Sized(Established, len, mss) ==> Sized(Established, len, NewMss(wnd, initialMss))
  {
  }

  // ---- receiving ----

  // Once the application has the data, the invariant holds again.
  ghost predicate Received(extra: int, v: int, isn: int, stream: seq<int>, delivered: seq<int>, data: seq<int>) {
    var d := if data != [] then delivered + data else delivered;
    && delivered <= d
    && forall s :: s != SynRcvd && (s != Established || extra == 0) ==> RecvOk(s, v, isn, stream, d)
  }

  lemma RecvLeave(state: TcpState, v: int, isn: int, stream: seq<int>, delivered: seq<int>, state': TcpState, v': int)
    requires RecvOk(state, v, isn, stream, delivered) && state' != SynRcvd && state' != Established
    ensures RecvOk(state', v', isn, stream, delivered)
  {
  }

  lemma RecvAnywhere(state: TcpState, v: int, isn: int, stream: seq<int>, delivered: seq<int>)
    requires RecvOk(state, v, isn, stream, delivered)
    ensures forall s, w :: s != SynRcvd && s != Established ==> RecvOk(s, w, isn, stream, delivered)
  {
  }

  lemma ReceivedOk(extra: int, v: int, isn: int, stream: seq<int>, delivered: seq<int>, data: seq<int>)
    requires Received(extra, v, isn, stream, delivered, data)
    ensures var d := if data != [] then delivered + data else delivered;
            delivered <= d && forall s :: s != SynRcvd && (s != Established || extra == 0) ==>
              RecvOk(s, v, isn, stream, d)
  {
  }

  // Data that carry the expected number are the next bytes of the stream.
  lemma RecvMore(state: TcpState, g: Segment, isn: int, stream: seq<int>, delivered: seq<int>, off: int, v: int,
                 extra: int)
    requires IsSegment(g) && FromPeer(g, isn, stream, |delivered|, off) && RecvOk(state, v, isn, stream, delivered)
    requires (state == SynRcvd || state == Established) && (g.data != [] ==> Val(g.seqno) == v) && extra >= 0
    ensures Received(extra, if extra + |g.data| > 0 then Mod(v + (extra + |g.data|))
      else v, isn, stream, delivered, g.data)
  {
    if g.data != [] {
      SameOffset(isn, off, |delivered|);
      assert stream[..off + |g.data|] == delivered + g.data;
    }
    AddOffset(isn, 1 + |delivered|, |g.data|);
  }

  // ---- sending a page ----

  lemma StartsIdle(hs: Hs, len: int, mss: int, initialMss: int, sndNxt: int, base: int, page: seq<int>, steady: bool)
    ensures OnPage(SynRcvd, hs, 1, mss, initialMss, sndNxt, base, page, 1, steady) ==>
      OnPage(Established, Hs(Idle, 0, [], 0, 0, 0), 0, mss, initialMss, sndNxt, base, page, 0, steady)
  {
  }

  // A window that does not change the segment size keeps a steady download
  // steady; any window keeps the download.
  lemma NewWindow(hs: Hs, len: int, mss: int, initialMss: int, sndNxt: int, base: int, page: seq<int>, adv: int,
                  steady: bool, wnd: int,
                  more: bool)
    requires OnPage(Established, hs, len, mss, initialMss, sndNxt, base, page, adv, steady) && wnd >= 0
    requires more ==> steady && (wnd == 0 || wnd >= initialMss)
    ensures OnPage(Established, hs, len, NewMss(wnd, initialMss), initialMss, sndNxt, base, page, adv, more)
  {
  }

  // With a steady window what was left fits exactly if it was all sent.
  lemma SteadyInTime(hs: Hs, len: int, mss: int, initialMss: int, sndNxt: int, base: int, page: seq<int>, wnd: int)
    requires OnPage(Established, hs, len, mss, initialMss, sndNxt, base, page, 0, true)
    requires hs.state == File && hs.upload == |hs.file| - hs.ptr && (wnd == 0 || wnd >= initialMss)
    ensures hs.upload <= NewMss(wnd, initialMss) <==> len == hs.upload
  {
  }

  lemma NotClosing(state: TcpState, hs: Hs, len: int, mss: int, initialMss: int, sndNxt: int, base: int, page: seq<int>,
                   adv: int, steady: bool)
    requires OnPage(state, hs, len, mss, initialMss, sndNxt, base, page, adv, steady)
    ensures state != Closing && state != TimeWait && state != LastAck
  {
  }

  lemma OnceClosing(state: TcpState, hs: Hs, len: int, mss: int, initialMss: int, sndNxt: int, base: int,
                    page: seq<int>,
                    adv: int, steady: bool)
    requires OnPage(state, hs, len, mss, initialMss, sndNxt, base, page, adv, steady)
    ensures forall h, l :: OnPage(FinWait2, h, l, mss, initialMss, sndNxt, base, page, 0, steady)
  {
  }

  // An acknowledgement moves snd_nxt over what was outstanding.
  lemma OnPageAcked(state: TcpState, hs: Hs, len: int, mss: int, initialMss: int, was: int, sndNxt: int, base: int,
                    page: seq<int>, acked: bool, steady: bool)
    requires if acked then sndNxt == Mod(was + len) else sndNxt == was
    requires OnPage(state, hs, len, mss, initialMss, was, base, page, 0, steady) && (acked ==> len > 0)
      && AppOk(state, hs, len)
    ensures OnPage(state, hs, len, mss, initialMss, sndNxt, base, page, if acked then len else 0, steady)
  {
    AddOffset(base, -1, len);
    AddOffset(base, hs.ptr, len);
    AddOffset(base, |page|, len);
  }

  // What appsend is asked for is within the page.
  lemma FileAsks(f0: Flags, h0: Hs, f: Flags, h: Hs, slen: int, sptr: int, mss: int, len: int)
    requires FileStep(f0, h0, f, h, slen, sptr, mss, len) && AppOk(Established, h0, len) && h0.state == File && mss >= 0
    requires !f0.rexmit && Plain(f0) && (f0.acked ==> len > 0)
    ensures slen >= 0 && (slen > 0 ==> mss > 0 && f.acked && 0 <= sptr && sptr + slen <= |h.file|) && !f.abort
    ensures f.close ==> h.state == Idle && slen == 0
    ensures !f.close ==>
      0 <= h.count <= POLLS && h.state == File && 0 <= h.ptr && h.upload == |h.file| - h.ptr >= 0 && slen <= h.upload
  {
  }

  lemma ServedAsks(f0: Flags, count: int, f: Flags, h: Hs, slen: int, sptr: int, mss: int)
    requires Served(f0, count, f, h, slen, sptr, mss) && 0 <= count <= POLLS && mss >= 0 && Plain(f0)
    ensures slen >= 0 && (slen > 0 ==> mss > 0 && h.state == File && sptr == 0 == h.ptr && slen <= |h.file|) && !f.close
    ensures f.abort ==> h.state == Idle && slen == 0
    ensures !f.abort ==>
      0 <= h.count <= POLLS && (h.state == File ==> h.ptr == 0 && h.upload == |h.file| && slen <= h.upload)
    ensures !f.abort && h.state != File ==> slen == 0
  {
  }

  lemma Polls(hs: Hs, len: int, mss: int, initialMss: int, rto: int, timer: int, nrtx: int)
    requires AppOk(Established, hs, len) && Numbers(len, mss, initialMss, rto, timer, nrtx)
    ensures 0 <= hs.count <= POLLS && (hs.state != File ==> len == 0) && mss >= 0
    ensures hs.state == File ==> hs.upload == |hs.file| - hs.ptr
  {
  }

  // What the application asks for leaves the connection in order once it is
  // sent.
  lemma SentOk(f: Flags, h: Hs, k: int, mss: int, initialMss: int, rto: int, timer: int, len0: int, nrtx0: int,
               state: TcpState, len: int, nrtx: int)
    requires Numbers(len0, mss, initialMss, rto, timer, nrtx0) && Sent(f, Established, len0, nrtx0, k, state, len, nrtx)
    requires f.abort || f.close ==> h.state == Idle
    requires !f.abort && !f.close ==>
      && 0 <= h.count <= POLLS && 0 <= k < 0x1_0000
      && if h.state == File then 0 <= h.ptr && h.upload == |h.file| - h.ptr && k <= h.upload else k == 0
    ensures Numbers(len, mss, initialMss, rto, timer, nrtx) && Outstanding(state, len, nrtx) && AppOk(state, h, len)
    ensures state == if f.abort then Closed else if f.close then FinWait1 else Established
    ensures !f.abort && !f.close ==> len == k
    ensures !f.abort ==> forall l, r :: Sent(f, Established, l, r, k, state, len, nrtx)
  {
  }

  lemma NextNumber(state: TcpState, v: int, isn: int, stream: seq<int>, delivered: seq<int>)
    requires RecvOk(state, v, isn, stream, delivered)
    ensures state == Established ==> v == Mod(isn + 1 + |delivered|)
  {
  }

  lemma NothingGoes(h: Hs, u: Image, len: int, look: Look, mss: int, sndNxt: seq<int>, rcvNxt: seq<int>)
    ensures Steps(h, u, len, false, [], look, mss, sndNxt, rcvNxt, Established, h, u, len, Nothing)
  {
  }

  lemma AskTakes(f0: Flags, h0: Hs, u0: Image, f: Flags, h: Hs, u: Image, n: int, sptr: int, mss: int, k: int, len: int,
                 state: TcpState, nrtx: int, sndNxt: seq<int>, rcvNxt: seq<int>, data: seq<int>, look: Look)
    requires h0.state != File && f0.newdata && data != [] && !f0.acked && Plain(f0) && mss >= 0
    requires var (h1, u1, verdict) := Asked(h0, u0, data, look);
      && h == h1 && u == u1 && f == (if verdict.Drop? then NOTHING.(abort := true) else f0)
      && n == (if verdict.Page? then Min(|h.file|, mss) else 0) && (verdict.Page? ==> sptr == 0)
    requires k == (if n == 0 then 0 else Min(n, mss)) && (state == if f.abort then Closed else Established)
    requires !f.abort ==> Sent(f, Established, 0, 0, k, state, len, nrtx)
    requires len > 0 && !f.abort && !f.close ==> 0 <= sptr && sptr + len <= |h.file|
    ensures Steps(h0, u0, 0, false, data, look, mss, sndNxt, rcvNxt, state, h, u, len,
                  Output(f, sndNxt, rcvNxt, if len > 0 && !f.abort && !f.close then h.file[sptr..sptr + len] else []))
  {
    var (h1, u1, verdict) := Asked(h0, u0, data, look);
    PageAsked(h0, u0, data, look);
  }

  lemma PageAsked(h0: Hs, u0: Image, data: seq<int>, look: Look)
    ensures var (h, u, verdict) := Asked(h0, u0, data, look);
            verdict.Page? ==> h.state == File && h.ptr == 0 && h.upload == |h.file|
  {
  }

  // Where a full acknowledgement comes with the wrong window, the download goes
  // wrong: either the FIN is sent before the end of the page, or there is
  // nothing left to send and no FIN either.
  lemma NotInTime(h0: Hs, u0: Image, len0: int, mss0: int, initialMss: int, was: int, base: int,
                  page: seq<int>, steady: bool,
                  mss: int, sndNxt: seq<int>, rcvNxt: seq<int>, state: TcpState, hs: Hs, img: Image, len: int, out: Out)
    requires OnPage(Established, h0, len0, mss0, initialMss, was, base, page, 0, steady) && h0.state == File
    requires h0.upload == |h0.file| - h0.ptr && |page| < WRAP && IsQuad(sndNxt) && Val(sndNxt) == Mod(was + len0)
      && mss >= 0
    requires Goes(h0, u0, len0, true, false, mss, sndNxt, rcvNxt, state, hs, img, len, out)
    requires !(h0.upload <= mss <==> len0 == h0.upload)
    ensures h0.upload <= mss ==> state == FinWait1 && out.Send? && out.seg.fin && !PageOutput(out, base, page)
    ensures h0.upload > mss ==>
      state == Established && hs.state == File && hs.ptr == |page| && len == 0 && out == Nothing
  {
    hide IsQuad, Val, Mod;
    AddOffset(base, h0.ptr, len0);
    if h0.upload <= mss { FarApart(base, h0.ptr + len0, |page|); }
  }

  lemma FarApart(base: int, i: int, j: int)
    requires 0 <= i < j < WRAP
    ensures Mod(base + i) != Mod(base + j)
  {
  }

  lemma FileSends(f0: Flags, h0: Hs, f: Flags, h: Hs, n: int, sptr: int, mss: int, len0: int, k: int, len: int,
                  state: TcpState, nrtx: int, initialMss: int, sndNxt: seq<int>, rcvNxt: seq<int>, base: int,
                  page: seq<int>, steady: bool)
    requires IsQuad(sndNxt) && h0.state == File && f0.acked && !f0.newdata && Plain(f0) && len0 > 0
    requires FileStep(f0, h0, f, h, n, sptr, mss, len0) && Sent(f, Established, len0, 0, k, state, len, nrtx)
    requires k == (if n == 0 then 0 else if f.acked || len0 == 0 then Min(n, mss) else len0)
    requires OnPage(Established, h0, len0, mss, initialMss, Val(sndNxt), base, page, len0, steady)
      && h0.upload == |h0.file| - h0.ptr
    requires h0.upload <= mss <==> len0 == h0.upload
    ensures OnPage(state, h, len, mss, initialMss, Val(sndNxt), base, page, 0, steady)
    ensures PageOutput(Output(f, sndNxt, rcvNxt, if len > 0 && !f.abort && !f.close then h.file[sptr..sptr + len]
      else []), base, page)
  {
    hide IsQuad, Val, Mod;
    if !f.close { assert PageBytes(h.file[sptr..sptr + len], Val(sndNxt), base, page, sptr); }
  }

  lemma PageStarts(f0: Flags, h0: Hs, f: Flags, h: Hs, n: int, sptr: int, mss: int, k: int, len: int,
                   state: TcpState, nrtx: int, initialMss: int, sndNxt: seq<int>, rcvNxt: seq<int>, base: int,
                   page: seq<int>, steady: bool)
    requires IsQuad(sndNxt) && h0.state == Idle && !f0.acked && Plain(f0)
    requires f == f0 && h == Hs(File, h0.count, page, 0, |page|, h0.total) && n == Min(|page|, mss) && sptr == 0
    requires Sent(f, Established, 0, 0, k, state, len, nrtx) && k == (if n == 0 then 0 else Min(n, mss))
    requires OnPage(Established, h0, 0, mss, initialMss, Val(sndNxt), base, page, 0, steady)
    ensures OnPage(state, h, len, mss, initialMss, Val(sndNxt), base, page, 0, steady)
    ensures PageOutput(Output(f, sndNxt, rcvNxt, if len > 0 && !f.abort && !f.close then h.file[sptr..sptr + len]
      else []), base, page)
  {
    hide IsQuad, Val, Mod;
    assert PageBytes(h.file[sptr..sptr + len], Val(sndNxt), base, page, sptr);
  }

  lemma FileGoes(f0: Flags, h0: Hs, u0: Image, f: Flags, h: Hs, u: Image, n: int, sptr: int, mss: int,
                 len0: int, k: int,
                 len: int, state: TcpState, nrtx: int, sndNxt: seq<int>, rcvNxt: seq<int>, data: seq<int>, look: Look)
    requires h0.state == File && (f0.acked ==> len0 > 0) && Plain(f0) && !f0.rexmit && mss >= 0
      && AppOk(Established, h0, len0) && (f0.newdata <==> data != []) && (f0.acked || f0.newdata)
    requires FileStep(f0, h0, f, h, n, sptr, mss, len0) && Sent(f, Established, len0, 0, k, state, len, nrtx)
    requires u == if f0.acked && h0.upload <= mss then Finished(u0) else u0
    requires k == (if n == 0 then 0 else if f.acked || len0 == 0 then Min(n, mss) else len0)
    requires len > 0 && !f.close ==> 0 <= sptr && sptr + len <= |h.file|
    ensures Steps(h0, u0, len0, f0.acked, data, look, mss, sndNxt, rcvNxt, state, h, u, len,
                  Output(f, sndNxt, rcvNxt, if len > 0 && !f.abort && !f.close then h.file[sptr..sptr + len] else []))
  {
  }

  lemma BareOutput(sndNxt: seq<int>, rcvNxt: seq<int>, base: int, page: seq<int>)
    requires IsQuad(sndNxt)
    ensures PageOutput(Send(Segment(false, true, false, false, sndNxt, rcvNxt, 0, [])), base, page)
    ensures PageOutput(Send(Segment(false, true, false, true, sndNxt, rcvNxt, 0, [])), base, page)
    ensures PageOutput(Send(Segment(true, true, false, false, sndNxt, rcvNxt, 0, [])), base, page)
    ensures PageOutput(Nothing, base, page)
  {
  }
}
