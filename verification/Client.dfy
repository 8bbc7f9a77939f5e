/** `startMyftpClient`: its receive loop, over an inbox of `recvfrom` results. */
module MyftpClient {
  import opened Words
  import opened InternetChecksum
  import opened Numbering
  import opened Packets
  import opened Buffers
  import opened Endpoints

  /** Fill in an ACK or ERROR and hand it to `sendto`. */
  method SendControl(order: Order, ackPacket: array<byte>, opcode: byte, block: u16) returns (packet: seq<byte>)
    requires ackPacket.Length == HEADER
    modifies ackPacket
    ensures packet == Control(order, opcode, block)
  {
    SealInPlace(order, ackPacket, opcode, block);
    assert Header(opcode, block) + old(ackPacket[HEADER..]) == Header(opcode, block);
    packet := ackPacket[..];
  }

  /** One received packet, already in `filePacket`: write it or not, and answer it or not. */
  method HandlePacket(cfg: Config, ghost datagram: seq<byte>, filePacket: array<byte>, ackPacket: array<byte>,
                      recBytes: nat, block: Kept, got: nat, fout: seq<byte>)
    returns (phase: ClientPhase, block': Kept, got': nat, fout': seq<byte>, o: Output)
    requires filePacket.Length == FULL_PACKET && ackPacket.Length == HEADER && filePacket != ackPacket
    requires datagram != [] && filePacket[..] == Received(datagram, FULL_PACKET)
    requires recBytes == if |datagram| < FULL_PACKET then |datagram| else FULL_PACKET
    modifies ackPacket
    ensures (Client(phase, block', got', 0, 0, fout'), o) ==
            ClientReceive(cfg, Client(Running, block, got, 0, 0, fout), datagram)
  {
    phase, block', got', fout', o := Running, block, got, fout, Nothing;
    var sum := InCksum(cfg.client, filePacket, FULL_PACKET);
    assert filePacket[..FULL_PACKET] == filePacket[..];
    if sum != 0 {
      var packet := SendControl(cfg.client, ackPacket, ERROR, block);
      o := Packet(packet);
      return;
    }
    var opcode := NetWord(filePacket[0], filePacket[1]);
    var number := NetWord(filePacket[4], filePacket[5]);
    if opcode == DATA && number != block + 1 {
      var packet := SendControl(cfg.client, ackPacket, ACK, number);
      o := Packet(packet);
      return;
    }
    if opcode == DATA && number == block + 1 {
      if recBytes < HEADER {
        phase := Overread;
        return;
      }
      var writeBytes := recBytes - HEADER;
      fout' := fout + filePacket[HEADER..recBytes];
      got' := got + 1;
      if writeBytes < MFMAXDATA {
        block' := 0;
        var packet := SendControl(cfg.client, ackPacket, ACK, 0);
        phase, o := Finished, Packet(packet);
      } else {
        var packet := SendControl(cfg.client, ackPacket, ACK, number);
        o := Packet(packet);
        // the count restarts at 1, since 0 means that nothing has been received
        block' := if number == 64999 then 1 else number;
      }
    }
  }

  method StartMyftpClient(cfg: Config, inbox: seq<Event>) returns (final: Client, sent: seq<seq<byte>>)
    requires cfg.Valid()
    ensures (final, sent) == ClientRun(cfg, inbox)
  {
    var frqPacket := MakeFrq(cfg.client, cfg.name);
    sent := [frqPacket[..]];
    var filePacket := new byte[FULL_PACKET];
    var ackPacket := new byte[HEADER];
    var phase, block: Kept, got, fout := Running, 0, 0, [];
    var timeoutFirstNum, timeoutNum, k := 0, 0, 0;
    while phase == Running
      invariant frqPacket[..] == FrqPacket(cfg.client, cfg.name)
      invariant ClientAt(cfg, inbox, k, Client(phase, block, got, timeoutFirstNum, timeoutNum, fout), sent)
      decreases |inbox| - k
    {
      final := Client(phase, block, got, timeoutFirstNum, timeoutNum, fout);
      if k == |inbox| {
        ClientStays(cfg, inbox, k, final, sent);
        return;
      }
      var ev := inbox[k];
      ClientAdvances(cfg, inbox, k, final, sent);
      k := k + 1;
      if ev.Timeout? {
        if block == 0 {
          if timeoutFirstNum > 10 {
            phase := Stopped;
          } else {
            timeoutFirstNum := timeoutFirstNum + 1;
            sent := sent + [frqPacket[..]];
          }
        } else {
          if timeoutNum > 10 {
            phase := Stopped;
          } else {
            timeoutNum := timeoutNum + 1;
            var packet := SendControl(cfg.client, ackPacket, ERROR, block);
            sent := sent + [packet];
          }
        }
      } else {
        Memset0(filePacket);
        var recBytes := RecvFrom(filePacket, ev.bytes);
        ClearedBuffer(ev.bytes, FULL_PACKET);
        timeoutFirstNum, timeoutNum := 0, 0;
        if recBytes == 0 {
          phase := Stopped;
        } else {
          var o;
          phase, block, got, fout, o :=
            HandlePacket(cfg, ev.bytes, filePacket, ackPacket, recBytes, block, got, fout);
          if o.Packet? {
            sent := sent + [o.bytes];
          }
        }
      }
    }
    final := Client(phase, block, got, timeoutFirstNum, timeoutNum, fout);
    ClientStays(cfg, inbox, k, final, sent);
  }
}
