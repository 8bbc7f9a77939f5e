/** What holds in every state the transfer can reach. */
module Safety {
  import opened Numbering
  import opened Packets
  import opened Endpoints
  import opened Transfer
  import opened Delivery

  // ---------- the invariant ----------

  /** A damaged late request can be taken for the ACK of a chunk this file has. */
  predicate RequestForgesAck(cfg: Config)
    requires cfg.Valid()
  {
    LooksLikeAck(cfg.name) && NameAsBlock(cfg.name) <= 64999 && NameAsBlock(cfg.name) <= Count(cfg.file)
  }

  predicate ServerOk(cfg: Config, s: Server) {
    && s.chunk <= Count(cfg.file)
    && (s.phase == WaitFrq ==> s.chunk == 0)
    && (s.phase == Delivered ==> s.chunk == Count(cfg.file))
    && (s.chunk >= 1 ==> s.block == Number(s.chunk))
  }

  predicate ClientOk(cfg: Config, c: Client) {
    && c.phase != Overread
    && c.got <= Count(cfg.file)
    && c.out == Prefix(cfg.file, c.got)
    && (c.phase == Running ==> c.got < Count(cfg.file) && c.block == ClientBlock(c.got))
    && (c.phase == Finished ==> c.got == Count(cfg.file))
  }

  /** A packet on its way to the client is the one packet there is for its chunk. */
  predicate DataMsg(cfg: Config, sent: nat, m: Msg) {
    && m.about.OfChunk?
    && 1 <= m.about.index <= sent
    && m.bytes == DataPacket(cfg.server, Number(m.about.index), Chunk(cfg.file, m.about.index))
  }

  predicate AckMsg(cfg: Config, c: Client, m: Msg) {
    && m.about.OfChunk?
    && 1 <= m.about.index <= c.got
    && (m.about.index < Count(cfg.file) ==> m.bytes == Control(cfg.client, ACK, Number(m.about.index)))
    && (m.about.index == Count(cfg.file) ==> c.phase == Finished && m.bytes == Control(cfg.client, ACK, 0))
  }

  predicate RequestMsg(cfg: Config, m: Msg) {
    m == Msg(FrqPacket(cfg.client, cfg.name), NoChunk)
  }

  ghost predicate ErrorMsg(cfg: Config, m: Msg) {
    exists b: Kept :: m == Msg(Control(cfg.client, ERROR, b), NoChunk)
  }

  ghost predicate Inv(cfg: Config, sys: System) {
    && ServerOk(cfg, sys.server)
    && ClientOk(cfg, sys.client)
    && sys.client.got <= sys.server.chunk <= sys.client.got + 1
    && (sys.server.phase == Delivered ==> sys.client.phase == Finished)
    && (forall m <- sys.toClient :: DataMsg(cfg, sys.server.chunk, m))
    && (forall m <- sys.toServer :: RequestMsg(cfg, m) || ErrorMsg(cfg, m) || AckMsg(cfg, sys.client, m))
    && (sys.server.chunk == 0 ==> forall m <- sys.toServer :: RequestMsg(cfg, m))
  }

  /** Everything a reader of the protocol would ask of a state. */
  ghost predicate Safe(cfg: Config, sys: System) {
    && sys.client.out == Prefix(cfg.file, sys.client.got)
    && sys.client.phase != Overread
    && (sys.client.phase == Finished ==> sys.client.out == cfg.file)
    && (sys.server.phase == Delivered ==> sys.client.phase == Finished)
    && sys.client.got <= sys.server.chunk <= sys.client.got + 1
    && sys.server.chunk <= Count(cfg.file)
    && (sys.server.chunk >= 1 ==> sys.server.block == Number(sys.server.chunk))
    && (sys.client.phase == Running ==> sys.client.block + 1 == Number(sys.client.got + 1))
  }

  lemma InvIsSafe(cfg: Config, sys: System)
    requires Inv(cfg, sys)
    ensures Safe(cfg, sys)
  {
    ChunkSize(cfg.file, Count(cfg.file));
    ClientExpects(sys.client.got);
  }

  lemma InvStart(cfg: Config)
    ensures Inv(cfg, Start(cfg))
  {
  }

  /** The delivered packet's number means to the receiver the chunk it meant to the sender. */
  predicate Unambiguous(sys: System, a: Action) {
    match a
    case ToServer(m, _) =>
      m.about.OfChunk? && m.about.index >= 1 && sys.server.chunk >= 1 ==>
        (Number(m.about.index) == Number(sys.server.chunk) ==> m.about.index == sys.server.chunk)
    case ToClient(m, _) =>
      m.about.OfChunk? && m.about.index >= 1 && sys.client.phase == Running ==>
        (Number(m.about.index) == Number(sys.client.got + 1) ==> m.about.index == sys.client.got + 1)
    case _ => true
  }

  /** Numbers are unambiguous while packets live less than a cycle, and always in a file too
      short for two chunks of the same number. */
  lemma NumbersClear(cfg: Config, sys: System, a: Action, lifetime: nat)
    requires Inv(cfg, sys) && Enabled(sys, a) && Recent(sys, a, lifetime)
    requires lifetime <= CYCLE || Count(cfg.file) < 65000
    ensures Unambiguous(sys, a)
  {
    match a
    case ToServer(m, _) =>
      if m.about.OfChunk? && sys.server.chunk >= 1 && Number(m.about.index) == Number(sys.server.chunk) {
        FreshNumber(m.about.index, sys.server.chunk);
      }
    case ToClient(m, _) =>
      if sys.client.phase == Running && Number(m.about.index) == Number(sys.client.got + 1) {
        FreshNumber(m.about.index, sys.client.got + 1);
      }
    case _ =>
  }

  // ---------- the client's steps ----------

  lemma InvClientTimer(cfg: Config, sys: System)
    requires cfg.Valid() && Inv(cfg, sys)
    ensures Inv(cfg, Next(cfg, sys, ClientTimer))
  {
    var (c, o) := ClientStep(cfg, sys.client, Timeout);
    if o.Packet? {
      if sys.client.block == 0 {
        FrqShape(cfg.client, cfg.name);
        assert RequestMsg(cfg, Msg(o.bytes, Answering(o.bytes, NoChunk)));
      } else {
        ErrorReply(cfg, sys.client.block, NoChunk);
      }
    }
    ClientMoved(cfg, sys, ClientTimer);
  }

  lemma ErrorReply(cfg: Config, b: Kept, about: About)
    ensures var p := Control(cfg.client, ERROR, b); ErrorMsg(cfg, Msg(p, Answering(p, about)))
  {
    ControlRead(cfg.client, cfg.client, ERROR, b);
  }

  lemma AckReply(cfg: Config, b: Block, about: About)
    ensures var p := Control(cfg.client, ACK, b); Answering(p, about) == about
  {
    ControlRead(cfg.client, cfg.client, ACK, b);
  }

  /** Messages already sent stay what they were as long as the client only moves forward. */
  lemma ClientMoved(cfg: Config, sys: System, a: Action)
    requires Inv(cfg, sys) && Enabled(sys, a) && (a.ClientTimer? || a.ToClient?)
    requires var t := Next(cfg, sys, a);
             && ClientOk(cfg, t.client) && t.client.got <= sys.server.chunk <= t.client.got + 1
             && sys.client.got <= t.client.got
             && (sys.client.phase == Finished ==> t.client.phase == Finished)
             && forall m <- t.toServer - sys.toServer ::
                  if sys.server.chunk == 0 then RequestMsg(cfg, m)
                  else RequestMsg(cfg, m) || ErrorMsg(cfg, m) || AckMsg(cfg, t.client, m)
    ensures Inv(cfg, Next(cfg, sys, a))
  {
    var t := Next(cfg, sys, a);
    forall m <- t.toServer ensures RequestMsg(cfg, m) || ErrorMsg(cfg, m) || AckMsg(cfg, t.client, m) {
      assert m in sys.toServer || m in t.toServer - sys.toServer;
    }
    if sys.server.chunk == 0 {
      forall m <- t.toServer ensures RequestMsg(cfg, m) {
        assert m in sys.toServer || m in t.toServer - sys.toServer;
      }
    }
  }

  lemma InvToClientDamaged(cfg: Config, sys: System, m: Msg, bit: nat)
    requires Inv(cfg, sys) && Enabled(sys, ToClient(m, Flipped(bit)))
    ensures Inv(cfg, Next(cfg, sys, ToClient(m, Flipped(bit))))
  {
    var a := ToClient(m, Flipped(bit));
    if sys.client.phase == Running {
      var i := m.about.index;
      DataRead(cfg.server, cfg.client, Number(i), Chunk(cfg.file, i));
      ChunkSize(cfg.file, i);
      DamagedData(cfg, sys.client.(first := 0, later := 0), m.bytes, bit);
      ErrorReply(cfg, sys.client.block, m.about);
    }
    ClientMoved(cfg, sys, a);
  }

  /** Any chunk but the expected one is acknowledged again and changes nothing else. */
  lemma ClientKnows(cfg: Config, c: Client, i: nat)
    requires ClientOk(cfg, c) && c.phase == Running && i >= 1 && Number(i) != Number(c.got + 1)
    ensures ClientStep(cfg, c, Datagram(DataPacket(cfg.server, Number(i), Chunk(cfg.file, i)))) ==
            (c.(first := 0, later := 0), Reply(cfg, ACK, Number(i)))
  {
    CleanData(cfg, c.(first := 0, later := 0), i);
    ClientExpects(c.got);
  }

  lemma ClientAccepts(cfg: Config, c: Client, i: nat)
    requires ClientOk(cfg, c) && c.phase == Running && i == c.got + 1
    ensures var last := i == Count(cfg.file);
            var (t, o) := ClientAccept(cfg, c, Number(i), Chunk(cfg.file, i));
            ClientOk(cfg, t) && t.got == i && t.phase == (if last then Finished else Running) &&
            o == Reply(cfg, ACK, if last then 0 else Number(i))
  {
    ChunkSize(cfg.file, i);
    RulesAgree(i);
  }

  /** The expected chunk is written, and acknowledged by its number or, if it is the last, by 0. */
  lemma ClientTakes(cfg: Config, c: Client, i: nat)
    requires ClientOk(cfg, c) && c.phase == Running && i == c.got + 1
    ensures var last := i == Count(cfg.file);
            var (t, o) := ClientStep(cfg, c, Datagram(DataPacket(cfg.server, Number(i), Chunk(cfg.file, i))));
            ClientOk(cfg, t) && t.got == i && t.phase == (if last then Finished else Running) &&
            o == Reply(cfg, ACK, if last then 0 else Number(i))
  {
    CleanData(cfg, c.(first := 0, later := 0), i);
    ClientExpects(c.got);
    ClientAccepts(cfg, c.(first := 0, later := 0), i);
  }

  lemma InvToClientClean(cfg: Config, sys: System, m: Msg)
    requires Inv(cfg, sys) && Enabled(sys, ToClient(m, Clean)) && Unambiguous(sys, ToClient(m, Clean))
    ensures Inv(cfg, Next(cfg, sys, ToClient(m, Clean)))
  {
    if sys.client.phase == Running {
      var i := m.about.index;
      if i == sys.client.got + 1 {
        ClientTakes(cfg, sys.client, i);
      } else {
        ClientKnows(cfg, sys.client, i);
      }
      AckReply(cfg, Number(i), m.about);
      AckReply(cfg, 0, m.about);
    }
    ClientMoved(cfg, sys, ToClient(m, Clean));
  }

  // ---------- the server's steps ----------

  lemma ServerMoved(cfg: Config, sys: System, ev: Event)
    requires Inv(cfg, sys)
    requires var (s, o) := ServerStep(cfg, sys.server, ev);
             && ServerOk(cfg, s) && sys.server.chunk <= s.chunk
             && sys.client.got <= s.chunk <= sys.client.got + 1
             && (s.phase == Delivered ==> sys.client.phase == Finished)
             && (o.Packet? ==> s.chunk >= 1 && o.bytes == CurrentData(cfg, s))
    ensures Inv(cfg, ServerActs(cfg, sys, ev))
  {
  }

  lemma InvServerTimer(cfg: Config, sys: System)
    requires Inv(cfg, sys)
    ensures Inv(cfg, Next(cfg, sys, ServerTimer))
  {
    ServerMoved(cfg, sys, Timeout);
  }

  /** A packet that does not advance the server leaves block, position and end flag alone. */
  lemma InvNoAdvance(cfg: Config, sys: System, ev: Event)
    requires Inv(cfg, sys) && ev.Datagram?
    requires sys.server.phase == Sending ==>
               ev.bytes != [] &&
               Judge(cfg.server, Overlaid(ev.bytes, sys.server.ack), sys.server.block) in {Ignore, Resend}
    requires sys.server.phase == WaitFrq ==> ServerAwait(cfg, sys.server, ev) == (sys.server, Nothing)
    ensures Inv(cfg, ServerActs(cfg, sys, ev))
  {
    ServerMoved(cfg, sys, ev);
  }

  lemma InvToServerRequest(cfg: Config, sys: System, m: Msg, d: Damage)
    requires cfg.Valid() && !RequestForgesAck(cfg)
    requires Inv(cfg, sys) && Enabled(sys, ToServer(m, d)) && RequestMsg(cfg, m)
    ensures Inv(cfg, Next(cfg, sys, ToServer(m, d)))
  {
    var s, ev := sys.server, Arrival(m, d);
    if s.phase == Sending {
      if d.Clean? {
        CleanRequest(cfg, s.ack, s.block);
      } else {
        DamagedRequest(cfg, s.ack, d.bit, s.block);
        assert Number(s.chunk) <= s.chunk;
      }
      InvNoAdvance(cfg, sys, ev);
    } else if s.phase == WaitFrq {
      var bit := if d.Clean? then 0 else d.bit;
      FirstRequest(cfg, s, bit);
      ServerMoved(cfg, sys, ev);
    } else {
      ServerMoved(cfg, sys, ev);
    }
  }

  lemma InvToServerError(cfg: Config, sys: System, m: Msg, d: Damage)
    requires cfg.Valid() && sys.server.chunk >= 1
    requires Inv(cfg, sys) && Enabled(sys, ToServer(m, d)) && ErrorMsg(cfg, m)
    ensures Inv(cfg, Next(cfg, sys, ToServer(m, d)))
  {
    var s := sys.server;
    var b: Kept :| m == Msg(Control(cfg.client, ERROR, b), NoChunk);
    if d.Clean? {
      CleanControl(cfg, s.ack, ERROR, b, s.block);
    } else {
      DamagedControl(cfg, s.ack, ERROR, b, d.bit, s.block);
    }
    InvNoAdvance(cfg, sys, Arrival(m, d));
  }

  lemma InvToServerAck(cfg: Config, sys: System, m: Msg, d: Damage)
    requires cfg.Valid() && sys.server.chunk >= 1
    requires Inv(cfg, sys) && Enabled(sys, ToServer(m, d)) && AckMsg(cfg, sys.client, m)
    requires Unambiguous(sys, ToServer(m, d))
    ensures Inv(cfg, Next(cfg, sys, ToServer(m, d)))
  {
    var j := m.about.index;
    var number: Block := if j < Count(cfg.file) then Number(j) else 0;
    if d.Flipped? {
      DamagedControl(cfg, sys.server.ack, ACK, number, d.bit, sys.server.block);
      InvNoAdvance(cfg, sys, Arrival(m, d));
    } else {
      AckHeard(cfg, sys, j, number);
      ServerMoved(cfg, sys, Datagram(m.bytes));
    }
  }

  /** The answer to chunk `j` ends or advances only a server that was waiting for it. */
  lemma AckHeard(cfg: Config, sys: System, j: nat, number: Block)
    requires ServerOk(cfg, sys.server) && sys.server.chunk >= 1 && 1 <= j <= sys.client.got <= sys.server.chunk
    requires number == if j < Count(cfg.file) then Number(j) else 0
    requires j == Count(cfg.file) ==> sys.client.phase == Finished
    requires sys.server.chunk <= sys.client.got + 1 && sys.client.got <= Count(cfg.file)
    requires Number(j) == Number(sys.server.chunk) ==> j == sys.server.chunk
    requires sys.server.phase == Delivered ==> sys.client.phase == Finished
    ensures var (s, o) := ServerStep(cfg, sys.server, Datagram(Control(cfg.client, ACK, number)));
            && ServerOk(cfg, s) && sys.server.chunk <= s.chunk
            && sys.client.got <= s.chunk <= sys.client.got + 1
            && (s.phase == Delivered ==> sys.client.phase == Finished)
            && (o.Packet? ==> s.chunk >= 1 && o.bytes == CurrentData(cfg, s))
  {
    var s := sys.server;
    CleanControl(cfg, s.ack, ACK, number, s.block);
    if s.phase == Sending && number == s.block {
      RulesAgree(j);
    }
  }

  // ---------- whole runs ----------

  lemma InvNext(cfg: Config, sys: System, a: Action)
    requires cfg.Valid() && !RequestForgesAck(cfg)
    requires Inv(cfg, sys) && Enabled(sys, a) && Unambiguous(sys, a)
    ensures Inv(cfg, Next(cfg, sys, a))
  {
    match a
    case ServerTimer => InvServerTimer(cfg, sys);
    case ClientTimer => InvClientTimer(cfg, sys);
    case ToClient(m, d) =>
      if d.Clean? {
        InvToClientClean(cfg, sys, m);
      } else {
        InvToClientDamaged(cfg, sys, m, d.bit);
      }
    case ToServer(m, d) =>
      if RequestMsg(cfg, m) {
        InvToServerRequest(cfg, sys, m, d);
      } else if ErrorMsg(cfg, m) {
        InvToServerError(cfg, sys, m, d);
      } else {
        InvToServerAck(cfg, sys, m, d);
      }
  }

  lemma {:induction false} InvRun(cfg: Config, sys: System, run: seq<Action>, lifetime: nat)
    requires cfg.Valid() && !RequestForgesAck(cfg) && (lifetime <= CYCLE || Count(cfg.file) < 65000)
    requires Inv(cfg, sys) && IsRun(cfg, sys, run, lifetime)
    ensures Inv(cfg, After(cfg, sys, run, lifetime))
    decreases |run|
  {
    if run != [] {
      NumbersClear(cfg, sys, run[0], lifetime);
      InvNext(cfg, sys, run[0]);
      InvRun(cfg, Next(cfg, sys, run[0]), run[1..], lifetime);
    }
  }

  /** A state some run from the start reaches on a network with this packet lifetime. */
  ghost predicate Reachable(cfg: Config, sys: System, lifetime: nat) {
    exists run :: IsRun(cfg, Start(cfg), run, lifetime) && After(cfg, Start(cfg), run, lifetime) == sys
  }

  /** Every reachable state is safe. */
  ghost predicate TransferIsSafe(cfg: Config, lifetime: nat) {
    forall sys :: Reachable(cfg, sys, lifetime) ==> Safe(cfg, sys)
  }

  lemma ReachableInv(cfg: Config, sys: System, lifetime: nat)
    requires cfg.Valid() && !RequestForgesAck(cfg) && (lifetime <= CYCLE || Count(cfg.file) < 65000)
    requires Reachable(cfg, sys, lifetime)
    ensures Inv(cfg, sys)
  {
    var run :| IsRun(cfg, Start(cfg), run, lifetime) && After(cfg, Start(cfg), run, lifetime) == sys;
    InvStart(cfg);
    InvRun(cfg, Start(cfg), run, lifetime);
  }

  /** Every transmission of a chunk, first or repeated, is the same packet, byte for byte, and
      never carries number 0. */
  lemma OnePacketPerChunk(cfg: Config, sys: System, lifetime: nat)
    requires cfg.Valid() && !RequestForgesAck(cfg) && (lifetime <= CYCLE || Count(cfg.file) < 65000)
    requires Reachable(cfg, sys, lifetime)
    ensures forall m, n | m in sys.toClient && n in sys.toClient && m.about == n.about :: m.bytes == n.bytes
    ensures forall m <- sys.toClient ::
              |m.bytes| >= HEADER && Opcode(m.bytes) == DATA && 1 <= BlockOf(m.bytes) <= 64999
  {
    ReachableInv(cfg, sys, lifetime);
    forall m <- sys.toClient
      ensures |m.bytes| >= HEADER && Opcode(m.bytes) == DATA && 1 <= BlockOf(m.bytes) <= 64999
    {
      var i := m.about.index;
      DataRead(cfg.server, cfg.client, Number(i), Chunk(cfg.file, i));
    }
  }

  /** An ACK of block 0 is sent only by a client that has the whole file. */
  lemma EndAckMeansDelivered(cfg: Config, sys: System, m: Msg, lifetime: nat)
    requires cfg.Valid() && !RequestForgesAck(cfg) && (lifetime <= CYCLE || Count(cfg.file) < 65000)
    requires Reachable(cfg, sys, lifetime) && m in sys.toServer
    ensures |m.bytes| >= HEADER
    ensures Opcode(m.bytes) == ACK && BlockOf(m.bytes) == 0 ==>
              sys.client.phase == Finished && sys.client.out == cfg.file
  {
    ReachableInv(cfg, sys, lifetime);
    InvIsSafe(cfg, sys);
    if RequestMsg(cfg, m) {
      FrqShape(cfg.client, cfg.name);
    } else if ErrorMsg(cfg, m) {
      var b: Kept :| m == Msg(Control(cfg.client, ERROR, b), NoChunk);
      ControlRead(cfg.client, cfg.client, ERROR, b);
    } else if m.about.index < Count(cfg.file) {
      ControlRead(cfg.client, cfg.client, ACK, Number(m.about.index));
    }
  }
}
