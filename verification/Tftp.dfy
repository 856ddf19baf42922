// common/cmd_tftpServer.c: the TFTP server that takes an image in and has it
// written to flash.

module TftpServer {

  const TFTP_BLOCK_SIZE: int := 512
  const IMAGE_HEADER: int := 64

  datatype Packet = Rrq | Wrq | Data(block: int, bytes: seq<int>) | Error
  datatype Reply = NoReply | VacantData(block: int) | Ack(block: int) | FinishAck(flag: bool)
  datatype State = StateRrq | StateWrq | StateData | StateFinishAck

  // Memory from the load address on; block 0 would lie before it.
  type Memory = int -> int

  function Write(m: Memory, offset: int, bytes: seq<int>): Memory {
    i => if offset <= i < offset + |bytes| then bytes[i - offset] else m(i)
  }

  function Image(m: Memory, len: int): (s: seq<int>)
    requires len >= 0
    ensures |s| == len
  {
    seq(len, i requires 0 <= i < len => m(i))
  }

  function Offset(block: int): int { (block - 1) * TFTP_BLOCK_SIZE }

  class Server {
    var state: State
    var block: int
    var lastBlock: int
    var imageLen: int
    var mem: Memory
    var rescueAck: bool
    // the images handed to flash_kernel_image, in order
    ghost var flashed: seq<seq<int>>

    constructor (mem: Memory)
      ensures state == StateRrq && lastBlock == 0 && block == 0 && flashed == []
    {
      state, block, lastBlock, imageLen, rescueAck := StateRrq, 0, 0, 0, false;
      this.mem := Write(mem, 0, seq(IMAGE_HEADER, _ => 0));
      flashed := [];
    }

    // TftpdStart, also what NetStartAgain comes back to.  TftpLastBlock stays.
    method Start()
      modifies `state, `block, `imageLen, `mem, `rescueAck
      ensures state == StateRrq && block == 0 && imageLen == 0 && !rescueAck
      ensures mem == Write(old(mem), 0, seq(64, _ => 0))
    {
      imageLen := 0;
      rescueAck := false;
      mem := Write(mem, 0, seq(IMAGE_HEADER, _ => 0));
      state := StateRrq;
      block := 0;
    }

    // TftpdSend
    method SendReply() returns (reply: Reply)
      ensures reply == match state
        case StateRrq => VacantData(block)
        case StateWrq => Ack(block)
        case StateData => Ack(block)
        case StateFinishAck => FinishAck(rescueAck)
    {
      match state
      case StateRrq => reply := VacantData(block);
      case StateWrq => reply := Ack(block);
      case StateData => reply := Ack(block);
      case StateFinishAck => reply := FinishAck(rescueAck);
    }

    // TftpHandler; flashOk is what flash_kernel_image reports.
    method Handler(p: Packet, flashOk: bool) returns (reply: Reply)
      requires p.Data? ==> 0 <= p.block < 0x1_0000 && |p.bytes| <= TFTP_BLOCK_SIZE
      modifies this
      ensures p.Wrq? ==> state == StateWrq && block == 0 && reply == Ack(0)
      ensures p.Rrq? ==> state == StateRrq && reply == VacantData(1)
      ensures p.Wrq? || p.Rrq? ==> Kept(old(mem), old(lastBlock), old(flashed), mem, lastBlock, flashed)
      ensures p.Error? || (p.Data? && old(state) == StateWrq && p.block != 1) ==>
        state == StateRrq && mem == Write(old(mem), 0, seq(IMAGE_HEADER, _ => 0)) && flashed == old(flashed)
        && reply == NoReply && lastBlock == (if p.Data? then 0 else old(lastBlock))
      ensures Repeats(p, old(state), old(lastBlock)) ==>
        state == old(state) && block == p.block && reply == NoReply
        && Kept(old(mem), old(lastBlock), old(flashed), mem, lastBlock, flashed)
      ensures Stores(p, old(state), old(lastBlock)) ==>
        mem == Write(old(mem), Offset(p.block), p.bytes) && block == lastBlock == p.block
        && imageLen == Offset(p.block) + |p.bytes|
      ensures Stores(p, old(state), old(lastBlock)) && |p.bytes| == TFTP_BLOCK_SIZE ==>
        flashed == old(flashed) && state == (if old(state) == StateWrq then StateData else old(state))
        && (reply == Ack(p.block) <==> state == StateData) && (reply.Ack? ==> reply.block == p.block)
        && (state == StateRrq ==> reply == VacantData(p.block))
        && (state == StateFinishAck ==> reply == FinishAck(rescueAck))
      ensures Stores(p, old(state), old(lastBlock)) && |p.bytes| < TFTP_BLOCK_SIZE ==>
        flashed == old(flashed) + [Flashed(mem, imageLen)] && state == StateFinishAck && reply == FinishAck(flashOk)
    {
      reply := NoReply;
      match p
      case Rrq =>
        block := 1;
        state := StateRrq;
        reply := SendReply();
      case Wrq =>
        block := 0;
        state := StateWrq;
        reply := SendReply();
      case Data(n, bytes) =>
        block := n;
        if state == StateWrq {
          state := StateData;
          lastBlock := 0;
          if block != 1 {
            Start();
            return;
          }
        }
        if block == lastBlock {
          return;
        }
        lastBlock := block;
        var offset := (block - 1) * TFTP_BLOCK_SIZE;
        imageLen := offset + |bytes|;
        mem := Write(mem, offset, bytes);
        reply := SendReply();
        if |bytes| < TFTP_BLOCK_SIZE {
          flashed := flashed + [Flashed(mem, imageLen)];
          rescueAck := flashOk;
          state := StateFinishAck;
          reply := SendReply();
        }
      case Error =>
        Start();
    }

    // TftpTimeout
    method Timeout() returns (reply: Reply)
      ensures state == StateWrq || state == StateData ==> reply == Ack(block)
      ensures state == StateRrq ==> reply == VacantData(block)
      ensures state == StateFinishAck ==> reply == FinishAck(rescueAck)
    {
      reply := SendReply();
    }
  }

  function Flashed(m: Memory, len: int): seq<int> {
    if len >= 0 then Image(m, len) else []
  }

  predicate Repeats(p: Packet, state: State, lastBlock: int) {
    p.Data? && state != StateWrq && p.block == lastBlock
  }

  // Any block but the last one seen is stored, also one that is not the next.
  predicate Stores(p: Packet, state: State, lastBlock: int) {
    p.Data? && (if state == StateWrq then p.block == 1 else p.block != lastBlock)
  }

  ghost predicate Kept(m: Memory, lastBlock: int, flashed: seq<seq<int>>, m': Memory, lastBlock': int,
                       flashed': seq<seq<int>>) {
    m' == m && lastBlock' == lastBlock && flashed' == flashed
  }
}

// The server with a lock-step sender (section 2 of RFC 1350) on the other side
// of a network that loses, repeats, delays and reorders.
module TftpUpload {
  import opened TftpServer

  // A file that needs no block number above 65535.
  predicate IsFile(file: seq<int>) {
    |file| / TFTP_BLOCK_SIZE + 1 < 0x1_0000
  }

  function Blocks(file: seq<int>): int { |file| / TFTP_BLOCK_SIZE + 1 }

  // Blocks are of 512 bytes, and a file of whole blocks ends with an empty one.
  lemma BlocksAre(file: seq<int>)
    ensures |file| == 511 ==> Blocks(file) == 1
    ensures |file| == 512 ==> Blocks(file) == 2 && BlockOf(file, 1) == file && BlockOf(file, 2) == []
    ensures |file| == 1000 ==> Blocks(file) == 2 && BlockOf(file, 1) == file[..512] && BlockOf(file, 2) == file[512..]
  {
  }

  function BlockOf(file: seq<int>, n: int): (s: seq<int>)
    requires 1 <= n <= Blocks(file)
    ensures |s| <= TFTP_BLOCK_SIZE && (|s| < TFTP_BLOCK_SIZE <==> n == Blocks(file))
  {
    var a := Offset(n);
    file[a..if a + TFTP_BLOCK_SIZE <= |file| then a + TFTP_BLOCK_SIZE else |file|]
  }

  // The file with its image header cleared, as a restart leaves it.
  function Wiped(file: seq<int>): (w: seq<int>)
    ensures |w| == |file|
    ensures w == file <==> HeaderClear(file)
  {
    var w := seq(|file|, i requires 0 <= i < |file| => if i < IMAGE_HEADER then 0 else file[i]);
    assert HeaderClear(file) ==> w == file;
    assert w == file ==> forall i :: 0 <= i < IMAGE_HEADER && i < |file| ==> file[i] == w[i];
    w
  }

  predicate HeaderClear(file: seq<int>) {
    forall i :: 0 <= i < IMAGE_HEADER && i < |file| ==> file[i] == 0
  }

  // Block n of the file is in memory, but for the header if that is lost.
  ghost predicate Stored(m: Memory, file: seq<int>, n: int, lost: bool) {
    1 <= n <= Blocks(file) &&
    forall i {:trigger m(i)} :: Offset(n) <= i < Offset(n) + |BlockOf(file, n)| && !(lost && i < IMAGE_HEADER) ==>
      m(i) == file[i]
  }

  ghost predicate Cleared(m: Memory, lost: bool) {
    lost ==> forall i {:trigger m(i)} :: 0 <= i < IMAGE_HEADER ==> m(i) == 0
  }

  // Storing the first block brings a lost header back.
  lemma WriteStores(m: Memory, file: seq<int>, n: int, lost: bool)
    requires 1 <= n <= Blocks(file) && Cleared(m, lost)
    ensures var m', lost' := Write(m, Offset(n), BlockOf(file, n)), lost && n != 1;
            && Cleared(m', lost') && Stored(m', file, n, lost')
            && forall k :: Stored(m, file, k, lost) ==> Stored(m', file, k, lost')
  {
    var b, a := BlockOf(file, n), Offset(n);
    var m', lost' := Write(m, a, b), lost && n != 1;
    forall i | a <= i < a + |b|
      ensures m'(i) == file[i]
    {
      assert m'(i) == b[i - a];
    }
    forall k | Stored(m, file, k, lost)
      ensures Stored(m', file, k, lost')
    {
      forall i | Offset(k) <= i < Offset(k) + |BlockOf(file, k)| && !(lost' && i < IMAGE_HEADER)
        ensures m'(i) == file[i]
      {
        if !(a <= i < a + |b|) {
          assert m'(i) == m(i);
          assert lost && i < IMAGE_HEADER ==> n == 1;
        }
      }
    }
  }

  // Clearing the header loses nothing else.
  lemma ClearStores(m: Memory, file: seq<int>, lost: bool)
    ensures var m' := Write(m, 0, seq(IMAGE_HEADER, _ => 0));
            Cleared(m', true) && forall k :: Stored(m, file, k, lost) ==> Stored(m', file, k, true)
  {
    var m' := Write(m, 0, seq(IMAGE_HEADER, _ => 0));
    forall k | Stored(m, file, k, lost)
      ensures Stored(m', file, k, true)
    {
      forall i | Offset(k) <= i < Offset(k) + |BlockOf(file, k)| && i >= IMAGE_HEADER
        ensures m'(i) == file[i]
      {
        assert m(i) == file[i];
      }
    }
  }

  // What the sender may have put on the network by now.
  ghost predicate Sendable(p: Packet, file: seq<int>, current: int) {
    p.Wrq? || (p.Data? && 1 <= p.block <= current && p.block <= Blocks(file) && p.bytes == BlockOf(file, p.block))
  }

  lemma DataIs(p: Packet, file: seq<int>, current: int)
    requires Sendable(p, file, current)
    ensures !p.Wrq? ==>
      p.Data? && 1 <= p.block <= current && p.block <= Blocks(file) && p.bytes == BlockOf(file, p.block)
  {
  }

  // The sender is only ahead of what is in memory by the block it is sending.
  ghost predicate Progress(m: Memory, file: seq<int>, current: int, acks: set<int>, lost: bool) {
    && (forall k :: 1 <= k < current ==> Stored(m, file, k, lost))
    && (forall a :: a in acks ==> 0 <= a <= current && (a > 0 ==> Stored(m, file, a, lost)))
    && Cleared(m, lost) && (lost ==> current > 1)
  }

  ghost predicate ServerAt(state: State, block: int, lastBlock: int, m: Memory, file: seq<int>, current: int,
                           lost: bool) {
    && (state == StateWrq ==> block == 0)
    && (state == StateData ==> 0 < block <= current && Stored(m, file, block, lost))
    && 0 <= lastBlock <= current && (lastBlock > 0 ==> Stored(m, file, lastBlock, lost))
  }

  // Until a request comes late, data take the server from waiting for them to
  // taking them, for good, and the header is safe.
  ghost predicate OnTime(state: State, current: int, acks: set<int>, dataSeen: bool, late: bool, lost: bool) {
    && (!late ==> !lost && (dataSeen <==> state == StateData || state == StateFinishAck))
    && (!dataSeen ==> !late && current <= 1 && forall a :: a in acks ==> a == 0)
    && (!dataSeen && state == StateRrq ==> current == 0 && acks == {})
  }

  // Storing a block the sender has sent.
  lemma StoreKeeps(m: Memory, file: seq<int>, n: int, current: int, acks: set<int>, lost: bool)
    requires Progress(m, file, current, acks, lost) && 1 <= n <= current && n <= Blocks(file)
    ensures var m', lost' := Write(m, Offset(n), BlockOf(file, n)), lost && n != 1;
            && Progress(m', file, current, acks, lost') && Progress(m', file, current, acks + {n}, lost')
            && Stored(m', file, n, lost') && forall k :: Stored(m, file, k, lost) ==> Stored(m', file, k, lost')
  {
    hide Stored, Cleared;
    WriteStores(m, file, n, lost);
    var m', lost' := Write(m, Offset(n), BlockOf(file, n)), lost && n != 1;
    forall k | 1 <= k < current || (k in acks && k > 0)
      ensures Stored(m', file, k, lost')
    {
      assert Stored(m, file, k, lost);
    }
  }

  // Starting again once block 1 has been acknowledged.
  lemma RestartKeeps(m: Memory, file: seq<int>, current: int, acks: set<int>, lost: bool)
    requires Progress(m, file, current, acks, lost) && current > 1
    ensures Progress(Write(m, 0, seq(IMAGE_HEADER, _ => 0)), file, current, acks, true)
  {
    hide Stored, Cleared;
    ClearStores(m, file, lost);
  }

  lemma RequestKeeps(m: Memory, file: seq<int>, current: int, acks: set<int>, lost: bool)
    requires Progress(m, file, current, acks, lost) && current >= 0
    ensures Progress(m, file, current, acks + {0}, lost)
  {
  }

  lemma FlashMore(flashed: seq<seq<int>>, file: seq<int>, spoilt: seq<bool>, late: bool, lost: bool, image: seq<int>)
    requires FlashedAs(flashed, file, spoilt, late) && (!late ==> !lost)
    requires image == if lost then Wiped(file) else file
    ensures FlashedAs(flashed, file, spoilt, true) && FlashedAs(flashed + [image], file, spoilt + [lost], late)
  {
  }

  // The last block completes the image.
  lemma ImageIs(m: Memory, file: seq<int>, acks: set<int>, lost: bool)
    requires Progress(m, file, Blocks(file), acks, lost) && Stored(m, file, Blocks(file), lost)
    ensures Flashed(m, Offset(Blocks(file)) + |BlockOf(file, Blocks(file))|) == if lost then Wiped(file) else file
  {
    AllStored(m, file, lost);
  }

  // With every block stored, memory holds the file.
  lemma AllStored(m: Memory, file: seq<int>, lost: bool)
    requires forall k :: 1 <= k <= Blocks(file) ==> Stored(m, file, k, lost)
    requires Cleared(m, lost)
    ensures Offset(Blocks(file)) + |BlockOf(file, Blocks(file))| == |file|
    ensures Image(m, |file|) == if lost then Wiped(file) else file
  {
    forall i | 0 <= i < |file|
      ensures m(i) == (if lost then Wiped(file) else file)[i]
    {
      var k := i / TFTP_BLOCK_SIZE + 1;
      assert 1 <= k <= Blocks(file) && Stored(m, file, k, lost);
      assert Offset(k) <= i < Offset(k) + |BlockOf(file, k)|;
    }
  }

  datatype Event = Resend | ToServer(p: Packet, flashOk: bool) | ToSender(ack: int) | ServerTimeout

  class Transfer {
    const file: seq<int>
    const server: Server
    // The block the sender is sending; 0 stands for the request.
    var current: int
    // All that has been sent, and may be delivered at any time, again and again.
    var packets: set<Packet>
    var acks: set<int>
    // Data, and a request after them, have reached the server.
    var dataSeen: bool
    var late: bool
    // A restart has cleared the header and block 1 has not been stored since.
    var lost: bool
    // For each image that was flashed, whether the header was lost.
    var spoilt: seq<bool>
    // The packets that have reached the server, in order.
    var history: seq<Packet>

    // Sender, network and server agree.
    ghost predicate Valid()
      reads this, server
    {
      && IsFile(file) && 0 <= current <= Blocks(file)
      && (forall p :: p in packets ==> Sendable(p, file, current))
      && Progress(server.mem, file, current, acks, lost)
      && ServerAt(server.state, server.block, server.lastBlock, server.mem, file, current, lost)
      && OnTime(server.state, current, acks, dataSeen, late, lost)
      && FlashedAs(server.flashed, file, spoilt, late)
      && Watched(history, Blocks(file)) ==
         Watch(server.state == StateWrq, server.lastBlock, dataSeen, late, lost, spoilt)
    }

    constructor (file: seq<int>, mem: Memory)
      requires IsFile(file)
      ensures Valid() && this.file == file && fresh(server) && history == [] && current == 0 && packets == {Wrq}
        && acks == {}
    {
      this.file := file;
      server := new Server(mem);
      current := 0;
      packets, acks, dataSeen, late, lost, spoilt, history := {Wrq}, {}, false, false, false, [], [];
    }

    // The sender (re)transmits.
    method Send()
      requires Valid()
      modifies `packets
      ensures Valid()
      ensures packets == old(packets) + {if current == 0 then Wrq else Data(current, BlockOf(file, current))}
    {
      var p := if current == 0 then Wrq else Data(current, BlockOf(file, current));
      packets := packets + {p};
    }

    // An acknowledgement of the current block, and no other, lets the sender
    // go on.
    method AckArrives(a: int)
      requires Valid() && a in acks
      modifies `current, `packets
      ensures Valid()
      ensures current == if a == old(current) && old(current) < Blocks(file) then old(current) + 1 else old(current)
      ensures packets == old(packets) + (if current > old(current) then {Data(current, BlockOf(file, current))} else {})
    {
      if a == current && current < Blocks(file) {
        current := current + 1;
        Send();
      }
    }

    predicate Acknowledging()
      reads this, server
    {
      server.state == StateWrq || server.state == StateData
    }

    // A request, again and at any time.
    method RequestArrives(flashOk: bool)
      requires Valid() && Wrq in packets
      modifies this, server
      ensures Valid() && history == old(history) + [Wrq] && current == old(current) && packets == old(packets)
      ensures acks == old(acks) + {0}
    {
      hide Stored, Progress, Cleared, Flashed, Wiped, BlockOf, Write, Offset, FlashedAs, Sendable, Watched;
      RequestKeeps(server.mem, file, current, acks, lost);
      WatchedMore(history, Wrq, Blocks(file));
      FlashMore(server.flashed, file, spoilt, late, lost, if lost then Wiped(file) else file);
      var reply := server.Handler(Wrq, flashOk);
      late := late || dataSeen;
      history := history + [Wrq];
      acks := acks + {0};
    }

    method PacketArrives(p: Packet, flashOk: bool)
      requires Valid() && p in packets && p.Data?
      modifies this, server
      ensures Valid() && history == old(history) + [p] && current == old(current) && packets == old(packets)
      ensures acks == old(acks) +
        if old(Stores(p, server.state, server.lastBlock) && Acknowledging()) && p.block < Blocks(file)
        then {p.block} else {}
    {
      hide Stored, Progress, Cleared, Flashed, Wiped, BlockOf, Write, Offset, FlashedAs, Sendable, Watched, OnTime,
        ServerAt;
      if Stores(p, server.state, server.lastBlock) {
        BlockComes(p, flashOk);
      } else {
        NoBlock(p, flashOk);
      }
    }

    // A block that is stored, and flashed with the others if it is the last.
    method BlockComes(p: Packet, flashOk: bool)
      requires Valid() && p in packets && Stores(p, server.state, server.lastBlock)
      modifies this, server
      ensures Valid() && history == old(history) + [p] && current == old(current) && packets == old(packets)
      ensures acks == old(acks) + if old(Acknowledging()) && p.block < Blocks(file)
        then {p.block} else {}
    {
      hide Stored, Progress, Cleared, Flashed, Wiped, BlockOf, Write, Offset, FlashedAs, Sendable, Watched;
      DataIs(p, file, current);
      WatchedMore(history, p, Blocks(file));
      StoreKeeps(server.mem, file, p.block, current, acks, lost);
      lost := lost && p.block != 1;
      var reply := server.Handler(p, flashOk);
      if p.block == Blocks(file) {
        ImageIs(server.mem, file, acks, lost);
        FlashMore(old(server.flashed), file, spoilt, late, lost, if lost then Wiped(file) else file);
        spoilt := spoilt + [lost];
      }
      dataSeen := true;
      history := history + [p];
      if reply.Ack? {
        acks := acks + {reply.block};
      }
    }

    // A block that is not: the last one again, or not the first one behind a
    // request, for which the server starts again.
    method NoBlock(p: Packet, flashOk: bool)
      requires Valid() && p in packets && p.Data? && !Stores(p, server.state, server.lastBlock)
      modifies this, server
      ensures Valid() && history == old(history) + [p] && current == old(current) && packets == old(packets)
      ensures acks == old(acks)
    {
      hide Stored, Progress, Cleared, Flashed, Wiped, BlockOf, Write, Offset, FlashedAs, Sendable, Watched;
      DataIs(p, file, current);
      WatchedMore(history, p, Blocks(file));
      if current > 1 { RestartKeeps(server.mem, file, current, acks, lost); }
      lost := lost || server.state == StateWrq;
      var reply := server.Handler(p, flashOk);
      dataSeen := true;
      history := history + [p];
    }

    method TimerFires()
      requires Valid()
      modifies `acks
      ensures Valid()
      ensures acks == old(acks) + if server.state == StateWrq || server.state == StateData then {server.block} else {}
    {
      var reply := server.Timeout();
      if reply.Ack? {
        acks := acks + {reply.block};
      }
    }

    // Any run over any network.  The packets that reached the server tell, for
    // each image that was flashed, whether its header was lost by then; the image
    // is the sender's file if and only if it was not, or was clear anyway.
    method Run(events: seq<Event>)
      requires Valid()
      modifies this, server
      ensures Valid() && old(history) <= history
      ensures var spoilt := Watched(history, Blocks(file)).spoilt;
        && |server.flashed| == |spoilt|
        && forall i :: 0 <= i < |spoilt| ==>
             && (server.flashed[i] == file <==> !spoilt[i] || HeaderClear(file))
             && (spoilt[i] ==> server.flashed[i] == Wiped(file))
      ensures RequestsFirst(history) ==> forall image :: image in server.flashed ==> image == file
    {
      var i := 0;
      while i < |events|
        invariant 0 <= i <= |events| && Valid() && old(history) <= history
      {
        match events[i] {
          case Resend => Send();
          case ToServer(p, flashOk) =>
            if p in packets {
              if p.Wrq? { RequestArrives(flashOk); } else { PacketArrives(p, flashOk); }
            }
          case ToSender(a) =>
            if a in acks { AckArrives(a); }
          case ServerTimeout => TimerFires();
        }
        i := i + 1;
      }
      if RequestsFirst(history) { NeverLate(history, Blocks(file)); }
    }
  }

  // What the packets that reach the server come to: whether a block is awaited
  // behind a request, the last block taken, whether data have come, and a request
  // behind them, whether the header is lost, and whether it was for each image.
  datatype Watch = Watch(waiting: bool, last: int, seen: bool, late: bool, lost: bool, spoilt: seq<bool>)

  function Took(w: Watch, p: Packet, blocks: int): Watch {
    match p
    case Wrq => w.(waiting := true, late := w.late || w.seen)
    case Data(b, _) =>
      if w.waiting && b != 1 then w.(waiting := false, last := 0, seen := true, lost := true)
      else if !w.waiting && b == w.last then w.(seen := true)
      else
        var lost := w.lost && b != 1;
        Watch(false, b, true, w.late, lost, if b == blocks then w.spoilt + [lost] else w.spoilt)
    case _ => w
  }

  function Watched(history: seq<Packet>, blocks: int): Watch {
    if history == [] then Watch(false, 0, false, false, false, [])
    else Took(Watched(history[..|history| - 1], blocks), history[|history| - 1], blocks)
  }

  lemma WatchedMore(history: seq<Packet>, p: Packet, blocks: int)
    ensures Watched(history + [p], blocks) == Took(Watched(history, blocks), p, blocks)
  {
    assert (history + [p])[..|history|] == history;
  }

  // No request comes behind data.
  predicate RequestsFirst(history: seq<Packet>) {
    forall i, j :: 0 <= i < j < |history| && history[i].Data? ==> !history[j].Wrq?
  }

  lemma {:induction false} NeverLate(history: seq<Packet>, blocks: int)
    requires RequestsFirst(history)
    ensures !Watched(history, blocks).late
    ensures Watched(history, blocks).seen ==> exists i :: 0 <= i < |history| && history[i].Data?
    decreases |history|
  {
    if history != [] {
      var n := |history| - 1;
      NeverLate(history[..n], blocks);
      if Watched(history[..n], blocks).seen {
        var i :| 0 <= i < n && history[..n][i].Data?;
        assert history[i].Data?;
      }
      assert history[n].Data? || !history[n].Data?;
    }
  }

  ghost predicate FlashedAs(flashed: seq<seq<int>>, file: seq<int>, spoilt: seq<bool>, late: bool) {
    && |flashed| == |spoilt|
    && (forall i :: 0 <= i < |flashed| ==> flashed[i] == if spoilt[i] then Wiped(file) else file)
    && (!late ==> forall i :: 0 <= i < |spoilt| ==> !spoilt[i])
  }

  // Why the request must not come late: once the first block has been taken, a
  // repeated request and the next block make the server start again.  It then
  // takes data without a request, over an image whose header it has cleared, and
  // flashes that.  The sender is in lock step all the way.
  method LateRequest(file: seq<int>, mem: Memory, ok: bool) returns (t: Transfer)
    requires Blocks(file) == 2 && !HeaderClear(file)
    ensures t.Valid() && t.file == file && |t.server.flashed| == 1 && t.server.flashed[0] == Wiped(file) != file
  {
    hide Stored, Progress, Cleared, Flashed, Wiped, BlockOf, Write, Offset, Sendable, ServerAt, OnTime, Watched;
    t := new Transfer(file, mem);
    WatchTwo(file);
    t.RequestArrives(ok);
    assert t.history == [Wrq];
    t.AckArrives(0);
    var one, two := Data(1, BlockOf(file, 1)), Data(2, BlockOf(file, 2));
    t.PacketArrives(one, ok);
    t.AckArrives(1);
    t.RequestArrives(ok);
    t.PacketArrives(two, ok);
    t.PacketArrives(two, ok);
    assert t.history == [Wrq, one, Wrq, two, two];
  }

  lemma WatchTwo(file: seq<int>)
    requires Blocks(file) == 2
    ensures var one, two := Data(1, BlockOf(file, 1)), Data(2, BlockOf(file, 2));
            && Watched([], 2) == Watch(false, 0, false, false, false, [])
            && Watched([Wrq], 2) == Watch(true, 0, false, false, false, [])
            && Watched([Wrq, one, Wrq, two, two], 2) == Watch(false, 2, true, true, true, [true])
  {
    hide BlockOf;
    var one, two := Data(1, BlockOf(file, 1)), Data(2, BlockOf(file, 2));
    assert [Wrq, one, Wrq, two, two][..4] == [Wrq, one, Wrq, two];
    assert [Wrq, one, Wrq, two][..3] == [Wrq, one, Wrq];
    assert [Wrq, one, Wrq][..2] == [Wrq, one];
    assert [Wrq, one][..1] == [Wrq];
    assert [Wrq][..0] == [];
    assert Watched([], 2) == Watch(false, 0, false, false, false, []);
    assert Watched([Wrq], 2) == Watch(true, 0, false, false, false, []);
    assert Watched([Wrq, one], 2) == Watch(false, 1, true, false, false, []);
    assert Watched([Wrq, one, Wrq], 2) == Watch(true, 1, true, true, false, []);
    assert Watched([Wrq, one, Wrq, two], 2) == Watch(false, 0, true, true, true, []);
  }
}
