/** One undisturbed exchange: the current chunk goes over and its acknowledgement comes back. */
module Exchange {
  import opened Numbering
  import opened Packets
  import opened Endpoints
  import opened Transfer
  import opened Delivery
  import opened Safety

  function RequestOf(cfg: Config): Msg {
    Msg(FrqPacket(cfg.client, cfg.name), NoChunk)
  }

  function DataOf(cfg: Config, i: nat): Msg
    requires i >= 1
  {
    Msg(DataPacket(cfg.server, Number(i), Chunk(cfg.file, i)), OfChunk(i))
  }

  /** The acknowledgement that delivering chunk `i` provokes. */
  function ReplyTo(cfg: Config, i: nat): Msg
    requires i >= 1
  {
    Msg(Control(cfg.client, ACK, if i < Count(cfg.file) then Number(i) else 0), OfChunk(i))
  }

  /** Both ends run, in step, and the server's current packet is on its way. */
  ghost predicate Resumable(cfg: Config, sys: System) {
    && sys.server.phase == Sending && ServerOk(cfg, sys.server)
    && sys.client.phase == Running && ClientOk(cfg, sys.client)
    && sys.client.got <= sys.server.chunk <= sys.client.got + 1
    && DataOf(cfg, sys.server.chunk) in sys.toClient
  }

  lemma RequestArrives(cfg: Config, sys: System)
    requires cfg.Valid() && sys.server.phase == WaitFrq && ServerOk(cfg, sys.server)
    requires sys.client.phase == Running && ClientOk(cfg, sys.client) && sys.client.got == 0
    requires RequestOf(cfg) in sys.toServer
    ensures var t := Next(cfg, sys, ToServer(RequestOf(cfg), Clean));
            Resumable(cfg, t) && t.server.chunk == 1 && t.client == sys.client && t.toServer == sys.toServer
  {
    FirstRequest(cfg, sys.server, 0);
  }

  /** What the client's receipt of chunk `i` leaves behind. */
  predicate Accepted(cfg: Config, sys: System, t: System, i: nat)
    requires i >= 1
  {
    && t == sys.(client := t.client, toServer := sys.toServer + {ReplyTo(cfg, i)})
    && ClientOk(cfg, t.client) && t.client.got == i
    && t.client.phase == (if i < Count(cfg.file) then Running else Finished)
  }

  lemma LackedArrives(cfg: Config, sys: System)
    requires Resumable(cfg, sys) && sys.server.chunk == sys.client.got + 1
    ensures var i := sys.server.chunk; Accepted(cfg, sys, Next(cfg, sys, ToClient(DataOf(cfg, i), Clean)), i)
  {
    var i := sys.server.chunk;
    ClientTakes(cfg, sys.client, i);
    AckReply(cfg, if i < Count(cfg.file) then Number(i) else 0, OfChunk(i));
  }

  lemma HeldArrives(cfg: Config, sys: System)
    requires Resumable(cfg, sys) && sys.server.chunk == sys.client.got
    ensures var i := sys.server.chunk; Accepted(cfg, sys, Next(cfg, sys, ToClient(DataOf(cfg, i), Clean)), i)
  {
    var i := sys.server.chunk;
    NeighboursDiffer(i);
    ClientKnows(cfg, sys.client, i);
    AckReply(cfg, Number(i), OfChunk(i));
  }

  /** The current packet reaches the client, which holds the chunk afterwards and answers. */
  lemma CurrentArrives(cfg: Config, sys: System)
    requires Resumable(cfg, sys)
    ensures var i := sys.server.chunk;
            var a := ToClient(DataOf(cfg, i), Clean);
            Enabled(sys, a) && Accepted(cfg, sys, Next(cfg, sys, a), i)
  {
    if sys.server.chunk == sys.client.got + 1 {
      LackedArrives(cfg, sys);
    } else {
      HeldArrives(cfg, sys);
    }
  }

  /** The answer reaches the server, which goes on to the next chunk or returns. */
  lemma AnswerArrives(cfg: Config, sys: System)
    requires sys.server.phase == Sending && ServerOk(cfg, sys.server)
    requires ReplyTo(cfg, sys.server.chunk) in sys.toServer
    ensures var i := sys.server.chunk;
            var t := Next(cfg, sys, ToServer(ReplyTo(cfg, i), Clean));
            t.client == sys.client && t.toServer == sys.toServer && ServerOk(cfg, t.server) &&
            if i < Count(cfg.file) then
              t.server.phase == Sending && t.server.chunk == i + 1 &&
              t.toClient == sys.toClient + {DataOf(cfg, i + 1)}
            else t.server.phase == Delivered && t.toClient == sys.toClient
  {
    var i := sys.server.chunk;
    CleanControl(cfg, sys.server.ack, ACK, if i < Count(cfg.file) then Number(i) else 0, sys.server.block);
    RulesAgree(i);
  }
}
