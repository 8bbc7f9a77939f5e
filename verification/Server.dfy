/** `startMyftpServer`: its loops, over an inbox of `recvfrom` results. */
module MyftpServer {
  import opened Words
  import opened InternetChecksum
  import opened Numbering
  import opened Packets
  import opened Buffers
  import opened Endpoints

  /** The wait for a request. `started`: the transfer begins after event `k - 1`. */
  method AwaitFrq(cfg: Config, inbox: seq<Event>) returns (started: bool, k: nat, final: Server)
    requires cfg.Valid()
    ensures !started ==> (final, []) == ServerRun(cfg, inbox)
    ensures started ==> final.chunk == 0 && final.ack == cfg.heap && ServerLoads(cfg, inbox, k, final, 1, [])
  {
    var frq := new byte[cfg.FrqSize()];
    var timeoutNum := 0;
    k := 0;
    while true
      invariant ServerAt(cfg, inbox, k, Server(WaitFrq, 1, 0, timeoutNum, cfg.heap), [])
      decreases |inbox| - k
    {
      final := Server(WaitFrq, 1, 0, timeoutNum, cfg.heap);
      if k == |inbox| {
        ServerStays(cfg, inbox, k, final, []);
        return false, k, final;
      }
      var ev := inbox[k];
      ServerAdvances(cfg, inbox, k, final, []);
      k := k + 1;
      if ev.Timeout? {
        if timeoutNum > 10 {
          final := final.(phase := Exited);
          ServerStays(cfg, inbox, k, final, []);
          return false, k, final;
        }
        timeoutNum := timeoutNum + 1;
        continue;
      }
      Memset0(frq);
      var recBytes := RecvFrom(frq, ev.bytes);
      if recBytes == 0 {
        final := final.(phase := Exited);
        ServerStays(cfg, inbox, k, final, []);
        return false, k, final;
      }
      ClearedBuffer(ev.bytes, cfg.FrqSize());
      assert frq[..cfg.FrqSize()] == frq[..];
      var sum := InCksum(cfg.server, frq, cfg.FrqSize());
      if sum != 0 {
        continue;
      }
      return true, k, final;
    }
  }

  /** Read chunk `chunk + 1` into the packet buffer, which shrinks to fit the last one. */
  method LoadChunk(cfg: Config, filePacket: array<byte>, chunk: nat) returns (packet: array<byte>)
    requires HEADER <= filePacket.Length <= FULL_PACKET
    requires filePacket.Length == FULL_PACKET || Cut(cfg.file, chunk) == |cfg.file|
    modifies filePacket
    ensures packet == filePacket || fresh(packet)
    ensures HEADER <= packet.Length <= FULL_PACKET
    ensures packet[HEADER..] == Chunk(cfg.file, chunk + 1)
    ensures packet.Length == FULL_PACKET || Cut(cfg.file, chunk + 1) == |cfg.file|
  {
    Memset0(filePacket);
    var readSize := FRead(cfg.file, Cut(cfg.file, chunk), filePacket);
    ghost var data := filePacket[HEADER..HEADER + readSize];
    assert Cut(cfg.file, chunk + 1) == Cut(cfg.file, chunk) + readSize && data == Chunk(cfg.file, chunk + 1);
    if readSize < MFMAXDATA {
      packet := new byte[HEADER + readSize];
      forall i | HEADER <= i < HEADER + readSize {
        packet[i] := filePacket[i];
      }
    } else {
      packet := filePacket;
    }
    assert packet[HEADER..] == data;
  }

  /** The tests the inner loop makes on a received packet, in order. */
  method JudgeAck(order: Order, ackPacket: array<byte>, block: Block) returns (verdict: Verdict)
    requires ackPacket.Length == 6
    ensures verdict == Judge(order, ackPacket[..], block)
  {
    var opcode := NetWord(ackPacket[0], ackPacket[1]);
    var ackBlock := NetWord(ackPacket[4], ackPacket[5]);
    if opcode == FRQ {
      return Ignore;
    }
    if opcode == ERROR {
      return if ackBlock == block - 1 then Resend else Ignore;
    }
    var sum := InCksum(order, ackPacket, 6);
    assert ackPacket[..6] == ackPacket[..];
    if sum != 0 {
      return Resend;
    }
    if opcode == ACK {
      if ackBlock == 0 {
        return EndOfFile;
      }
      if ackBlock != block {
        return Ignore;
      }
      return Advance;
    }
    return Ignore;
  }

  /** Seal the current packet again and send it. */
  method SendAgain(cfg: Config, filePacket: array<byte>, s: Server, log: seq<seq<byte>>) returns (sent: seq<seq<byte>>)
    requires s.chunk >= 1 && HEADER <= filePacket.Length <= FULL_PACKET
    requires filePacket[HEADER..] == Chunk(cfg.file, s.chunk)
    modifies filePacket
    ensures filePacket[HEADER..] == Chunk(cfg.file, s.chunk)
    ensures sent == log + [CurrentData(cfg, s)]
  {
    var packet := SealData(cfg.server, filePacket, s.block);
    sent := log + [packet];
  }

  /** Judge packet `k - 1` of the inbox, just received, and repeat the current packet if that is
      the verdict. `was` is the server before it. */
  method AnswerAck(cfg: Config, ghost inbox: seq<Event>, ghost k: nat, ghost was: Server,
                   filePacket: array<byte>, ackPacket: array<byte>, s: Server, log: seq<seq<byte>>)
    returns (verdict: Verdict, sent: seq<seq<byte>>)
    requires 1 <= k <= |inbox| && ServerAt(cfg, inbox, k - 1, was, log)
    requires was.phase == Sending && inbox[k - 1].Datagram? && inbox[k - 1].bytes != []
    requires s == was.(timeouts := 0, ack := Overlaid(inbox[k - 1].bytes, was.ack))
    requires filePacket != ackPacket && ackPacket[..] == s.ack
    requires HEADER <= filePacket.Length <= FULL_PACKET && filePacket[HEADER..] == Chunk(cfg.file, s.chunk)
    modifies filePacket
    ensures filePacket[HEADER..] == Chunk(cfg.file, s.chunk)
    ensures verdict == EndOfFile ==> ServerAt(cfg, inbox, k, s.(phase := Delivered), sent)
    ensures verdict == Advance ==> ServerLoads(cfg, inbox, k, s, ServerAdvance(s.block), sent)
    ensures verdict == Ignore || verdict == Resend ==> ServerAt(cfg, inbox, k, s, sent)
  {
    verdict := JudgeAck(cfg.server, ackPacket, s.block);
    sent := log;
    if verdict == Resend {
      sent := SendAgain(cfg, filePacket, s, log);
    }
    ServerJudged(cfg, inbox, k, was, log, s, sent);
  }

  /** The inner loop: send chunk `chunk` again as often as needed. `verdict` is `Advance` or
      `EndOfFile` when the loop is left, `Ignore` when the server stops or waits for ever. */
  method AwaitAck(cfg: Config, inbox: seq<Event>, start: nat, filePacket: array<byte>, ackPacket: array<byte>,
                  block: Block, chunk: nat, log: seq<seq<byte>>)
    returns (verdict: Verdict, k: nat, final: Server, sent: seq<seq<byte>>)
    requires chunk >= 1 && filePacket != ackPacket && ackPacket.Length == 6
    requires HEADER <= filePacket.Length <= FULL_PACKET && filePacket[HEADER..] == Chunk(cfg.file, chunk)
    requires ServerAt(cfg, inbox, start, Server(Sending, block, chunk, 0, ackPacket[..]), log)
    modifies filePacket, ackPacket
    ensures verdict == Ignore ==> (final, sent) == ServerRun(cfg, inbox)
    ensures verdict == EndOfFile ==>
              ServerAt(cfg, inbox, k, Server(Delivered, block, chunk, 0, ackPacket[..]), sent)
    ensures verdict == Advance ==> final == Server(Sending, block, chunk, 0, ackPacket[..])
    ensures verdict == Advance ==> ServerLoads(cfg, inbox, k, final, ServerAdvance(block), sent)
    ensures verdict != Resend && start <= k && (verdict == Advance ==> start < k)
  {
    k, sent := start, log;
    var timeoutNum := 0;
    final := Server(Sending, block, chunk, 0, ackPacket[..]);
    while true
      invariant filePacket[HEADER..] == Chunk(cfg.file, chunk) && start <= k
      invariant final == Server(Sending, block, chunk, timeoutNum, ackPacket[..])
      invariant ServerAt(cfg, inbox, k, final, sent)
      decreases |inbox| - k
    {
      if k == |inbox| {
        ServerStays(cfg, inbox, k, final, sent);
        return Ignore, k, final, sent;
      }
      var ev := inbox[k];
      k := k + 1;
      ghost var was, log := final, sent;
      if ev.Timeout? {
        if timeoutNum > 10 {
          final := final.(phase := Exited);
          ServerExits(cfg, inbox, k, was, log, final);
          return Ignore, k, final, sent;
        }
        timeoutNum := timeoutNum + 1;
        sent := SendAgain(cfg, filePacket, final, sent);
        final := final.(timeouts := timeoutNum);
        ServerRepeats(cfg, inbox, k, was, log, final, sent);
        continue;
      }
      var recBytes := RecvFrom(ackPacket, ev.bytes);
      timeoutNum := 0;
      final := Server(Sending, block, chunk, 0, ackPacket[..]);
      if recBytes == 0 {
        final := final.(phase := Exited);
        ServerExits(cfg, inbox, k, was, log, final);
        return Ignore, k, final, sent;
      }
      verdict, sent := AnswerAck(cfg, inbox, k, was, filePacket, ackPacket, final, sent);
      if verdict == EndOfFile || verdict == Advance {
        return verdict, k, final, sent;
      }
    }
  }

  /** Read the next chunk and send it for the first time. */
  method SendFirst(cfg: Config, ghost inbox: seq<Event>, ghost start: nat, ghost before: Server,
                   filePacket: array<byte>, block: Block, chunk: nat, log: seq<seq<byte>>)
    returns (packet: array<byte>, sent: seq<seq<byte>>)
    requires HEADER <= filePacket.Length <= FULL_PACKET
    requires filePacket.Length == FULL_PACKET || Cut(cfg.file, chunk) == |cfg.file|
    requires before.chunk == chunk && ServerLoads(cfg, inbox, start, before, block, log)
    modifies filePacket
    ensures packet == filePacket || fresh(packet)
    ensures HEADER <= packet.Length <= FULL_PACKET && packet[HEADER..] == Chunk(cfg.file, chunk + 1)
    ensures packet.Length == FULL_PACKET || Cut(cfg.file, chunk + 1) == |cfg.file|
    ensures ServerAt(cfg, inbox, start, Server(Sending, block, chunk + 1, 0, before.ack), sent)
  {
    packet := LoadChunk(cfg, filePacket, chunk);
    var bytes := SealData(cfg.server, packet, block);
    sent := log + [bytes];
    ghost var loaded := Server(Sending, block, chunk + 1, 0, before.ack);
    assert bytes == CurrentData(cfg, loaded);
    ServerLoaded(cfg, inbox, start, before, block, log, loaded, sent);
  }

  /** One pass of the outer loop: read the next chunk, send it, see it acknowledged. */
  method SendChunk(cfg: Config, inbox: seq<Event>, start: nat, ghost before: Server, filePacket: array<byte>,
                   ackPacket: array<byte>, block: Block, chunk: nat, log: seq<seq<byte>>)
    returns (verdict: Verdict, k: nat, final: Server, sent: seq<seq<byte>>, packet: array<byte>)
    requires filePacket != ackPacket && ackPacket.Length == 6
    requires HEADER <= filePacket.Length <= FULL_PACKET
    requires filePacket.Length == FULL_PACKET || Cut(cfg.file, chunk) == |cfg.file|
    requires before.chunk == chunk && before.ack == ackPacket[..]
    requires ServerLoads(cfg, inbox, start, before, block, log)
    modifies filePacket, ackPacket
    ensures packet == filePacket || fresh(packet)
    ensures HEADER <= packet.Length <= FULL_PACKET
    ensures packet.Length == FULL_PACKET || Cut(cfg.file, chunk + 1) == |cfg.file|
    ensures verdict == Ignore ==> (final, sent) == ServerRun(cfg, inbox)
    ensures verdict == EndOfFile ==>
              ServerAt(cfg, inbox, k, Server(Delivered, block, chunk + 1, 0, ackPacket[..]), sent)
    ensures verdict == Advance ==> final == Server(Sending, block, chunk + 1, 0, ackPacket[..])
    ensures verdict == Advance ==> ServerLoads(cfg, inbox, k, final, ServerAdvance(block), sent)
    ensures verdict != Resend && start <= k && (verdict == Advance ==> start < k)
  {
    packet, sent := SendFirst(cfg, inbox, start, before, filePacket, block, chunk, log);
    verdict, k, final, sent := AwaitAck(cfg, inbox, start, packet, ackPacket, block, chunk + 1, sent);
  }

  method StartMyftpServer(cfg: Config, inbox: seq<Event>) returns (final: Server, sent: seq<seq<byte>>)
    requires cfg.Valid()
    ensures (final, sent) == ServerRun(cfg, inbox)
  {
    sent := [];
    var started, k;
    started, k, final := AwaitFrq(cfg, inbox);
    if !started {
      return;
    }
    var ackPacket := new byte[6](i requires 0 <= i < 6 => cfg.heap[i]);
    assert ackPacket[..] == cfg.heap;
    var filePacket := new byte[FULL_PACKET];
    var block: Block := 1;
    var chunk := 0;
    var getBlock0 := false;
    while !getBlock0
      invariant ackPacket.Length == 6
      invariant fresh(ackPacket) && fresh(filePacket) && filePacket != ackPacket
      invariant HEADER <= filePacket.Length <= FULL_PACKET
      invariant filePacket.Length == FULL_PACKET || Cut(cfg.file, chunk) == |cfg.file|
      invariant !getBlock0 ==> final.chunk == chunk && final.ack == ackPacket[..]
      invariant !getBlock0 ==> ServerLoads(cfg, inbox, k, final, block, sent)
      invariant getBlock0 ==>
                  ServerAt(cfg, inbox, k, Server(Delivered, block, chunk, 0, ackPacket[..]), sent)
      decreases |inbox| - k, !getBlock0
    {
      var verdict;
      verdict, k, final, sent, filePacket :=
        SendChunk(cfg, inbox, k, final, filePacket, ackPacket, block, chunk, sent);
      chunk := chunk + 1;
      match verdict
      case Ignore =>
        return;
      case EndOfFile =>
        getBlock0 := true;
      case Advance =>
        // 65000 is replaced by 2: the client's count restarts at 1, not at 0
        block := if block + 1 == 65000 then 2 else block + 1;
    }
    final := Server(Delivered, block, chunk, 0, ackPacket[..]);
    ServerStays(cfg, inbox, k, final, sent);
  }
}
