/** What each kind of packet, clean or damaged, does to the end that receives it. */
module Delivery {
  import opened Words
  import opened Checksum
  import opened Numbering
  import opened Packets
  import opened Endpoints

  /** A chunk arriving undamaged: accepted if it carries the expected number, else re-acknowledged. */
  lemma CleanData(cfg: Config, c: Client, i: nat)
    requires i >= 1
    ensures var number := Number(i);
            ClientReceive(cfg, c, DataPacket(cfg.server, number, Chunk(cfg.file, i))) ==
            if number == c.block + 1 then ClientAccept(cfg, c, number, Chunk(cfg.file, i))
            else (c, Reply(cfg, ACK, number))
  {
    var d := DataPacket(cfg.server, Number(i), Chunk(cfg.file, i));
    DataRead(cfg.server, cfg.client, Number(i), Chunk(cfg.file, i));
    ChunkSize(cfg.file, i);
    ReceivedIntact(cfg.client, d, FULL_PACKET);
    assert Received(d, FULL_PACKET)[HEADER..|d|] == d[HEADER..];
  }

  /** A packet with one bit inverted is answered with ERROR and changes nothing else. */
  lemma DamagedData(cfg: Config, c: Client, d: seq<byte>, bit: nat)
    requires bit < 8 * |d| && |d| <= FULL_PACKET && Intact(cfg.client, d)
    ensures ClientReceive(cfg, c, Flip(d, bit)) == (c, Packet(Control(cfg.client, ERROR, c.block)))
  {
    BitFlipDetected(cfg.client, d, bit);
    ReceivedIntact(cfg.client, Flip(d, bit), FULL_PACKET);
  }

  /** An intact packet that is not DATA is passed over. */
  lemma NotData(cfg: Config, c: Client, opcode: byte, number: u16)
    requires opcode != 2
    ensures ClientReceive(cfg, c, Control(cfg.server, opcode, number)) == (c, Nothing)
  {
    var d := Control(cfg.server, opcode, number);
    ControlRead(cfg.server, cfg.client, opcode, number);
    ReceivedIntact(cfg.client, d, FULL_PACKET);
  }

  /** A datagram too short for a header never leads to a write or to success. */
  lemma ShortPacket(cfg: Config, c: Client, d: seq<byte>)
    requires c.phase == Running && 0 < |d| < 6
    ensures var t := ClientStep(cfg, c, Datagram(d)).0;
            t.phase in {Running, Overread} && t.out == c.out && t.got == c.got && t.block == c.block
  {
  }

  /** But it can lead to an `fwrite` of a negative size: a DATA header of the expected number that
      has lost its last byte, if that byte was zero. */
  lemma CutHeader(cfg: Config, c: Client)
    requires c.phase == Running && (c.block + 1) % 256 == 0
    ensures var d := Control(cfg.server, DATA, c.block + 1)[..5];
            ClientStep(cfg, c, Datagram(d)) == (c.(phase := Overread, first := 0, later := 0), Nothing)
  {
    var whole := Control(cfg.server, DATA, c.block + 1);
    ControlRead(cfg.server, cfg.client, DATA, c.block + 1);
    ControlShape(cfg.server, DATA, c.block + 1);
    ReceivedIntact(cfg.client, whole, FULL_PACKET);
    assert Received(whole[..5], FULL_PACKET) == Received(whole, FULL_PACKET);
  }

  /** An empty datagram ends either end at once, without a packet and without success. */
  lemma EmptyDatagram(cfg: Config, s: Server, c: Client)
    ensures s.phase in {WaitFrq, Sending} ==>
              ServerStep(cfg, s, Datagram([])).0.phase == Exited && ServerStep(cfg, s, Datagram([])).1 == Nothing
    ensures c.phase == Running ==>
              ClientStep(cfg, c, Datagram([])) == (c.(phase := Stopped, first := 0, later := 0), Nothing)
  {
  }

  /** A full-size control packet replaces the whole ACK buffer. */
  lemma ControlFills(d: seq<byte>, was: AckBuffer)
    requires |d| == HEADER
    ensures Overlaid(d, was) == d
  {
  }

  lemma CleanControl(cfg: Config, was: AckBuffer, opcode: byte, number: u16, block: Block)
    requires opcode == ACK || opcode == ERROR
    ensures Judge(cfg.server, Overlaid(Control(cfg.client, opcode, number), was), block) ==
            if opcode == ERROR then (if number == block - 1 then Resend else Ignore)
            else if number == 0 then EndOfFile
            else if number == block then Advance else Ignore
  {
    ControlRead(cfg.client, cfg.server, opcode, number);
    ControlFills(Control(cfg.client, opcode, number), was);
  }

  /** The verdicts on any six bytes, whatever sent them. FRQ and ERROR are recognised before the
      checksum is looked at. */
  lemma Verdicts(order: Order, ack: AckBuffer, block: Block)
    ensures var opcode, number := 0x100 * ack[0] as int + ack[1] as int, 0x100 * ack[4] as int + ack[5] as int;
            var v := Judge(order, ack, block);
            && (v == Advance <==> opcode == 3 && Intact(order, ack) && number == block != 0)
            && (v == EndOfFile <==> opcode == 3 && Intact(order, ack) && number == 0)
            && (v == Resend <==> (opcode == 4 && number == block - 1) ||
                                 (opcode != 1 && opcode != 4 && !Intact(order, ack)))
  {
  }

  /** A single inverted bit never turns ACK into ERROR or back; it turns ACK and FRQ into one another. */
  lemma OpcodeFlips(j: nat)
    requires j < 8
    ensures FlipBit(0, j) != 0
    ensures FlipBit(1, j) !in {1, 4} && (FlipBit(1, j) == 3 <==> j == 1)
    ensures FlipBit(3, j) !in {3, 4} && (FlipBit(3, j) == 1 <==> j == 1)
    ensures FlipBit(4, j) !in {1, 3, 4}
  {
    if j == 0 {} else if j == 1 {} else if j == 2 {} else if j == 3 {}
    else if j == 4 {} else if j == 5 {} else if j == 6 {} else {}
  }

  lemma FlippedFields(d: seq<byte>, bit: nat)
    requires |d| == HEADER && bit < 48
    ensures BlockOf(Flip(d, bit)) == BlockOf(d) <==> bit < 32
    ensures Opcode(Flip(d, bit)) == Opcode(d) <==> bit >= 16
  {
  }

  lemma FlippedOpcode(d: seq<byte>, bit: nat)
    requires |d| == HEADER && bit < 16 && d[0] == 0 && d[1] in {3, 4}
    ensures Opcode(Flip(d, bit)) != ERROR && (Opcode(Flip(d, bit)) == FRQ <==> d[1] == 3 && bit == 9)
  {
    OpcodeFlips(bit % 8);
  }

  /** An ACK or ERROR with one bit inverted. */
  lemma FlippedControl(cfg: Config, opcode: byte, number: u16, bit: nat) returns (d: AckBuffer)
    requires opcode in {3, 4} && bit < 48
    ensures d == Flip(Control(cfg.client, opcode, number), bit) && !Intact(cfg.server, d)
    ensures BlockOf(d) == number <==> bit < 32
    ensures if bit >= 16 then Opcode(d) == opcode
            else Opcode(d) != ERROR && (Opcode(d) == FRQ <==> opcode == 3 && bit == 9)
  {
    var p := Control(cfg.client, opcode, number);
    d := Flip(p, bit);
    ControlRead(cfg.client, cfg.server, opcode, number);
    ControlShape(cfg.client, opcode, number);
    BitFlipDetected(cfg.server, p, bit);
    FlippedFields(p, bit);
    if bit < 16 {
      FlippedOpcode(p, bit);
    }
  }

  /** What a packet leaves of the server's state if it does not advance it. */
  function Heard(s: Server, ack: AckBuffer): Server {
    s.(timeouts := 0, ack := ack)
  }

  /** The packet for a sending server's chunk. */
  function Current(cfg: Config, s: Server): Output
    requires s.chunk >= 1
  {
    Packet(DataPacket(cfg.server, s.block, Chunk(cfg.file, s.chunk)))
  }

  /** Six bytes that are no intact ACK, at a server with a packet outstanding. */
  lemma SixBytes(cfg: Config, s: Server, d: AckBuffer)
    requires s.phase == Sending && Judge(cfg.server, d, s.block) in {Ignore, Resend}
    ensures ServerStep(cfg, s, Datagram(d)) ==
            (Heard(s, d), if Judge(cfg.server, d, s.block) == Resend then Current(cfg, s) else Nothing)
  {
    ControlFills(d, s.ack);
  }

  /** An ACK with bit `bit` inverted makes the server repeat its packet, whatever it acknowledged,
      except when the bit makes it a file request. */
  lemma DamagedAck(cfg: Config, s: Server, number: u16, bit: nat)
    requires s.phase == Sending && bit < 48
    ensures var d := Flip(Control(cfg.client, ACK, number), bit);
            ServerStep(cfg, s, Datagram(d)) == (Heard(s, d), if bit == 9 then Nothing else Current(cfg, s))
  {
    var d := FlippedControl(cfg, ACK, number, bit);
    SixBytes(cfg, s, d);
  }

  /** An ERROR with an inverted bit is judged by the block it now names if it is still an ERROR,
      although its checksum is wrong; otherwise it makes the server repeat its packet. */
  lemma DamagedError(cfg: Config, s: Server, number: u16, bit: nat)
    requires s.phase == Sending && bit < 48
    ensures var d := Flip(Control(cfg.client, ERROR, number), bit);
            && ServerStep(cfg, s, Datagram(d)) ==
               (Heard(s, d), if bit < 16 || BlockOf(d) == s.block - 1 then Current(cfg, s) else Nothing)
            && (BlockOf(d) == number <==> bit < 32)
  {
    var d := FlippedControl(cfg, ERROR, number, bit);
    SixBytes(cfg, s, d);
  }

  /** An intact ACK of any other block is passed over. */
  lemma OldAck(cfg: Config, s: Server, number: u16)
    requires s.phase == Sending && number != 0 && number != s.block
    ensures var d := Control(cfg.client, ACK, number);
            ServerStep(cfg, s, Datagram(d)) == (Heard(s, d), Nothing)
  {
    CleanControl(cfg, s.ack, ACK, number, s.block);
    SixBytes(cfg, s, Control(cfg.client, ACK, number));
  }

  /** No damaged ACK or ERROR moves the server. */
  lemma DamagedControl(cfg: Config, was: AckBuffer, opcode: byte, number: u16, bit: nat, block: Block)
    requires bit < 8 * HEADER
    ensures Judge(cfg.server, Overlaid(Flip(Control(cfg.client, opcode, number), bit), was), block) in {Ignore, Resend}
  {
    var d := Control(cfg.client, opcode, number);
    ControlRead(cfg.client, cfg.server, opcode, number);
    BitFlipDetected(cfg.server, d, bit);
    ControlFills(Flip(d, bit), was);
  }

  // ---------- file requests seen through the 6-byte ACK buffer ----------

  /** What the ACK buffer has no room for. */
  function Tail(name: seq<byte>): seq<byte>
    requires |name| >= 1
  {
    (name + [0])[2..]
  }

  /** The first two bytes of the name, where an ACK keeps its block. */
  function NameAsBlock(name: seq<byte>): u16
    requires |name| >= 1
  {
    NetWord((name + [0])[0], (name + [0])[1])
  }

  /** The bit that turns opcode FRQ into ACK. */
  const FRQ_TO_ACK := 9

  /** The cut-off request passes for an ACK after inverting that bit exactly when the cut-off
      part sums to 2. */
  predicate LooksLikeAck(name: seq<byte>)
    requires |name| >= 1
  {
    WordSum(Big, Tail(name)) % 65535 == 2
  }

  lemma FrqShape(order: Order, name: seq<byte>)
    requires |name| >= 1
    ensures var d := FrqPacket(order, name);
            |d| >= HEADER && Opcode(d) == FRQ && BlockOf(d) == NameAsBlock(name) && d[HEADER..] == Tail(name)
  {
  }

  /** A request with one bit inverted, cut to six bytes: only one bit gives it opcode ACK. Once the
      opcode is hit, the checksum is right exactly when the bytes cut off sum to what the opcode
      has gained. */
  lemma CutRequest(cfg: Config, bit: nat)
    requires cfg.Valid() && bit < 8 * cfg.FrqSize()
    ensures var d := Flip(FrqPacket(cfg.client, cfg.name), bit)[..HEADER];
            && (Opcode(d) == ACK <==> bit == FRQ_TO_ACK)
            && (Opcode(d) == FRQ <==> bit >= 16) && Opcode(d) != ERROR
            && (bit < 16 ==>
                  BlockOf(d) == NameAsBlock(cfg.name) &&
                  (Intact(cfg.server, d) <==> WordSum(Big, Tail(cfg.name)) % 65535 == (Opcode(d) - 1) % 65535))
  {
    var frq := FrqPacket(cfg.client, cfg.name);
    FrqShape(cfg.client, cfg.name);
    RequestShape(cfg.client, cfg.name);
    if bit < 16 {
      CutOpcode(frq, bit);
      CutIntact(cfg, bit);
    } else {
      assert Flip(frq, bit)[..2] == frq[..2];
    }
  }

  lemma CutIntact(cfg: Config, bit: nat)
    requires cfg.Valid() && bit < 16
    ensures var d := Flip(FrqPacket(cfg.client, cfg.name), bit)[..HEADER];
            Intact(cfg.server, d) <==> WordSum(Big, Tail(cfg.name)) % 65535 == (Opcode(d) - 1) % 65535
  {
    var frq := WholeRequest(cfg);
    CutFlipped(frq, bit);
    OrderIndependence(Flip(frq, bit)[..HEADER]);
  }

  lemma WholeRequest(cfg: Config) returns (frq: seq<byte>)
    requires cfg.Valid()
    ensures frq == FrqPacket(cfg.client, cfg.name) && |frq| >= HEADER
    ensures Intact(Big, frq) && Opcode(frq) == 1 && frq[4] != 0 && frq[HEADER..] == Tail(cfg.name)
  {
    frq := FrqPacket(cfg.client, cfg.name);
    FrqShape(cfg.client, cfg.name);
    RequestShape(cfg.client, cfg.name);
    assert frq[4] == frq[4..][0] == cfg.name[0];
    SealAnyOrder(cfg.client, Big, [0, FRQ, 0, 0] + cfg.name + [0]);
  }

  lemma CutOpcode(d: seq<byte>, bit: nat)
    requires |d| >= HEADER && bit < 16 && d[0] == 0 && d[1] == 1
    ensures var cut := Flip(d, bit)[..HEADER];
            BlockOf(cut) == BlockOf(d) && (Opcode(cut) == ACK <==> bit == FRQ_TO_ACK) && Opcode(cut) !in {1, 4}
  {
    OpcodeFlips(bit % 8);
  }

  /** An intact packet with a bit of its opcode inverted, cut to six bytes. */
  lemma CutFlipped(d: seq<byte>, bit: nat)
    requires |d| >= HEADER && bit < 16 && Intact(Big, d) && d[4] != 0
    ensures var cut := Flip(d, bit)[..HEADER];
            Intact(Big, cut) <==> WordSum(Big, d[HEADER..]) % 65535 == (Opcode(cut) - Opcode(d)) % 65535
  {
    var f, i := Flip(d, bit), bit / 8;
    var cut, tail := f[..HEADER], d[HEADER..];
    var gain := Opcode(cut) - Opcode(d);
    SumUpdate(Big, d, i, f[i]);
    assert gain == Scaled(Big, i, f[i] as int - d[i] as int);
    assert f == cut + tail;
    SumConcat(Big, cut, tail);
    IntactMeaning(Big, d);
    CutResidue(WordSum(Big, d), WordSum(Big, cut), WordSum(Big, tail), gain);
    IntactMeaning(Big, cut);
    PositiveSum(cut);
  }

  lemma PositiveSum(cut: seq<byte>)
    requires |cut| == HEADER && cut[4] != 0
    ensures WordSum(Big, cut) > 0
  {
    SumStep(Big, cut);
    SumStep(Big, cut[2..]);
    SumStep(Big, cut[4..]);
    assert cut[2..][2..] == cut[4..];
  }

  lemma CutResidue(total: nat, cut: nat, tail: nat, gain: int)
    requires total % 65535 == 0 && cut + tail == total + gain
    ensures cut % 65535 == 0 <==> tail % 65535 == gain % 65535
  {
    AddMultiple(gain - tail, total / 65535);
    assert cut % 65535 == (gain - tail) % 65535;
    var g, t := gain % 65535, tail % 65535;
    AddMultiple(g - t, gain / 65535 - tail / 65535);
    assert gain - tail == g - t + 65535 * (gain / 65535 - tail / 65535);
  }

  lemma CleanRequest(cfg: Config, was: AckBuffer, block: Block)
    requires cfg.Valid()
    ensures Judge(cfg.server, Overlaid(FrqPacket(cfg.client, cfg.name), was), block) == Ignore
  {
    FrqShape(cfg.client, cfg.name);
  }

  /** A damaged late request moves the server only in the one case above. */
  lemma DamagedRequest(cfg: Config, was: AckBuffer, bit: nat, block: Block)
    requires cfg.Valid() && bit < 8 * cfg.FrqSize()
    ensures var v := Judge(cfg.server, Overlaid(Flip(FrqPacket(cfg.client, cfg.name), bit), was), block);
            v == Advance <==> bit == FRQ_TO_ACK && LooksLikeAck(cfg.name) && NameAsBlock(cfg.name) == block
    ensures Judge(cfg.server, Overlaid(Flip(FrqPacket(cfg.client, cfg.name), bit), was), block) != EndOfFile
  {
    CutRequest(cfg, bit);
  }

  /** All a late request with an inverted bit does: ignored unless its opcode is hit; then the
      packet is repeated, unless the cut-off bytes hide the damage. */
  lemma DamagedRequestExactly(cfg: Config, s: Server, bit: nat)
    requires cfg.Valid() && s.phase == Sending && bit < 8 * cfg.FrqSize()
    ensures var d := Flip(FrqPacket(cfg.client, cfg.name), bit)[..HEADER];
            var hidden := WordSum(Big, Tail(cfg.name)) % 65535 == (Opcode(d) - 1) % 65535;
            ServerStep(cfg, s, Datagram(Flip(FrqPacket(cfg.client, cfg.name), bit))) ==
            if bit >= 16 then (Heard(s, d), Nothing)
            else if !hidden then (Heard(s, d), Current(cfg, s))
            else if bit == 9 && NameAsBlock(cfg.name) == s.block then
              NextChunk(cfg, Heard(s, d), ServerAdvance(s.block))
            else (Heard(s, d), Nothing)
  {
    var d := Flip(FrqPacket(cfg.client, cfg.name), bit)[..HEADER];
    CutRequest(cfg, bit);
  }

  /** A server that waits for a request reads as many bytes as one for its own file has. */
  lemma LongRequest(cfg: Config, s: Server, more: seq<byte>)
    requires cfg.Valid()
    ensures var d := FrqPacket(cfg.client, cfg.name);
            |d| == cfg.FrqSize() && ServerAwait(cfg, s, Datagram(d + more)) == ServerAwait(cfg, s, Datagram(d))
  {
    var d := FrqPacket(cfg.client, cfg.name);
    assert (d + more)[..|d|] == d == d[..|d|];
  }

  /** The client reads 518 bytes of a longer datagram. */
  lemma LongData(cfg: Config, c: Client, d: seq<byte>, more: seq<byte>)
    requires |d| == 518
    ensures ClientReceive(cfg, c, d + more) == ClientReceive(cfg, c, d)
  {
    assert (d + more)[..518] == d == d[..518];
  }

  /** A server that waits for a request starts on any intact packet, here an ACK or an ERROR. */
  lemma AnythingStarts(cfg: Config, s: Server, opcode: byte, number: u16)
    requires cfg.Valid() && s.phase == WaitFrq
    ensures ServerStep(cfg, s, Datagram(Control(cfg.client, opcode, number))) ==
            (Server(Sending, 1, s.chunk + 1, 0, s.ack),
             Packet(DataPacket(cfg.server, 1, Chunk(cfg.file, s.chunk + 1))))
  {
    ControlRead(cfg.client, cfg.server, opcode, number);
    ReceivedIntact(cfg.server, Control(cfg.client, opcode, number), cfg.FrqSize());
  }

  /** While the server waits for its first request it checks the whole packet. */
  lemma FirstRequest(cfg: Config, s: Server, bit: nat)
    requires cfg.Valid() && bit < 8 * cfg.FrqSize()
    ensures var d := FrqPacket(cfg.client, cfg.name);
            ServerAwait(cfg, s, Datagram(d)) == NextChunk(cfg, s, 1) &&
            ServerAwait(cfg, s, Datagram(Flip(d, bit))) == (s, Nothing)
  {
    var d := FrqPacket(cfg.client, cfg.name);
    SealAnyOrder(cfg.client, cfg.server, [0, FRQ, 0, 0] + cfg.name + [0]);
    BitFlipDetected(cfg.server, d, bit);
    ReceivedIntact(cfg.server, d, cfg.FrqSize());
    ReceivedIntact(cfg.server, Flip(d, bit), cfg.FrqSize());
  }

  /** What a packet that is not a sound ACK can do to a sending server: restart its timeout
      count and make it repeat its current packet, byte for byte. */
  lemma UnsoundIsHarmless(cfg: Config, s: Server, d: seq<byte>)
    requires s.phase == Sending && d != []
    requires var ack := Overlaid(d, s.ack); Opcode(ack) != ACK || !Intact(cfg.server, ack)
    ensures var (t, o) := ServerStep(cfg, s, Datagram(d));
            t == s.(timeouts := 0, ack := Overlaid(d, s.ack)) &&
            (o == Nothing || o == Packet(CurrentData(cfg, s)))
  {
  }
}
