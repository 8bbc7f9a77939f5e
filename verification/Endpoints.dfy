/** One received event at a time: what the server and the client do with it. */
module Endpoints {
  import opened Words
  import opened Checksum
  import opened Numbering
  import opened Packets

  /** What one `recvfrom` returns. */
  datatype Event = Timeout | Datagram(bytes: seq<byte>)

  datatype Output = Nothing | Packet(bytes: seq<byte>)

  /** The file served, its name at both ends, the two hosts' byte orders, and whatever
      `malloc` left in the server's 6-byte ACK buffer. */
  datatype Config = Config(file: seq<byte>, name: seq<byte>, server: Order, client: Order, heap: AckBuffer) {
    predicate Valid() {
      1 <= |name| <= 120 && forall i :: 0 <= i < |name| ==> name[i] != 0
    }

    /** Size of a file request, and of the server's buffer for it. */
    function FrqSize(): nat {
      4 + |name| + 1
    }
  }

  type AckBuffer = s: seq<byte> | |s| == 6 witness [0, 0, 0, 0, 0, 0]

  const GIVE_UP := 10
  const FULL_PACKET := HEADER + MFMAXDATA

  // ---------- server ----------

  datatype ServerPhase = WaitFrq | Sending | Delivered | Exited

  /** `chunk` counts the chunks read so far; the server's own variable is `block`. */
  datatype ServerState = Server(phase: ServerPhase, block: Block, chunk: nat, timeouts: nat, ack: AckBuffer)

  type Server = s: ServerState | s.phase == Sending ==> s.chunk >= 1
    witness Server(WaitFrq, 1, 0, 0, [0, 0, 0, 0, 0, 0])

  function ServerInit(cfg: Config): Server {
    Server(WaitFrq, 1, 0, 0, cfg.heap)
  }

  /** The packet for the server's current chunk. */
  function CurrentData(cfg: Config, s: Server): seq<byte>
    requires s.chunk >= 1
  {
    DataPacket(cfg.server, s.block, Chunk(cfg.file, s.chunk))
  }

  /** Read the next chunk and send it for the first time. */
  function NextChunk(cfg: Config, s: Server, block: Block): (r: (Server, Output)) {
    var t := Server(Sending, block, s.chunk + 1, 0, s.ack);
    (t, Packet(CurrentData(cfg, t)))
  }

  function ServerStep(cfg: Config, s: Server, ev: Event): (r: (Server, Output)) {
    match s.phase
    case WaitFrq => ServerAwait(cfg, s, ev)
    case Sending => ServerServe(cfg, s, ev)
    case Delivered => (s, Nothing)
    case Exited => (s, Nothing)
  }

  /** Only an intact packet starts the transfer; a damaged one does not reset the count. */
  function ServerAwait(cfg: Config, s: Server, ev: Event): (r: (Server, Output)) {
    if ev.Timeout? then
      (if s.timeouts > GIVE_UP then s.(phase := Exited) else s.(timeouts := s.timeouts + 1), Nothing)
    else if ev.bytes == [] then (s.(phase := Exited), Nothing)
    else if !Intact(cfg.server, Received(ev.bytes, cfg.FrqSize())) then (s, Nothing)
    else NextChunk(cfg, s, 1)
  }

  function ServerServe(cfg: Config, s: Server, ev: Event): (r: (Server, Output))
    requires s.chunk >= 1
  {
    if ev.Timeout? then
      if s.timeouts > GIVE_UP then (s.(phase := Exited), Nothing)
      else (s.(timeouts := s.timeouts + 1), Packet(CurrentData(cfg, s)))
    else if ev.bytes == [] then (s.(phase := Exited, timeouts := 0), Nothing)
    else ServerReceive(cfg, s.(timeouts := 0, ack := Overlaid(ev.bytes, s.ack)))
  }

  /** What the server makes of the six bytes in its ACK buffer while `block` is outstanding. */
  datatype Verdict = Ignore | Resend | EndOfFile | Advance

  function Judge(order: Order, ack: AckBuffer, block: Block): Verdict {
    if Opcode(ack) == FRQ then Ignore
    else if Opcode(ack) == ERROR then (if BlockOf(ack) == block - 1 then Resend else Ignore)
    else if !Intact(order, ack) then Resend
    else if Opcode(ack) != ACK then Ignore
    else if BlockOf(ack) == 0 then EndOfFile
    else if BlockOf(ack) != block then Ignore
    else Advance
  }

  function ServerReceive(cfg: Config, s: Server): (r: (Server, Output))
    requires s.chunk >= 1
  {
    match Judge(cfg.server, s.ack, s.block)
    case Ignore => (s, Nothing)
    case Resend => (s, Packet(CurrentData(cfg, s)))
    case EndOfFile => (s.(phase := Delivered), Nothing)
    case Advance => NextChunk(cfg, s, ServerAdvance(s.block))
  }

  // ---------- client ----------

  /** `Overread`: `fwrite` called with a negative byte count. */
  datatype ClientPhase = Running | Finished | Stopped | Overread

  /** `got` counts accepted chunks; `out` is the file written. */
  datatype Client = Client(phase: ClientPhase, block: Kept, got: nat, first: nat, later: nat, out: seq<byte>)

  function ClientInit(): Client {
    Client(Running, 0, 0, 0, 0, [])
  }

  function Reply(cfg: Config, opcode: byte, block: u16): Output {
    Packet(Control(cfg.client, opcode, block))
  }

  function ClientStep(cfg: Config, c: Client, ev: Event): (r: (Client, Output)) {
    if c.phase != Running then (c, Nothing)
    else if ev.Timeout? then ClientTimeout(cfg, c)
    else ClientReceive(cfg, c.(first := 0, later := 0), ev.bytes)
  }

  function ClientTimeout(cfg: Config, c: Client): (r: (Client, Output)) {
    if c.block == 0 then
      if c.first > GIVE_UP then (c.(phase := Stopped), Nothing)
      else (c.(first := c.first + 1), Packet(FrqPacket(cfg.client, cfg.name)))
    else
      if c.later > GIVE_UP then (c.(phase := Stopped), Nothing)
      else (c.(later := c.later + 1), Reply(cfg, ERROR, c.block))
  }

  function ClientReceive(cfg: Config, c: Client, d: seq<byte>): (r: (Client, Output)) {
    var buffer := Received(d, FULL_PACKET);
    var received := if |d| < FULL_PACKET then |d| else FULL_PACKET;
    if received == 0 then (c.(phase := Stopped), Nothing)
    else if !Intact(cfg.client, buffer) then (c, Reply(cfg, ERROR, c.block))
    else if Opcode(buffer) != DATA then (c, Nothing)
    else if BlockOf(buffer) != c.block + 1 then (c, Reply(cfg, ACK, BlockOf(buffer)))
    else if received < HEADER then (c.(phase := Overread), Nothing)
    else ClientAccept(cfg, c, BlockOf(buffer), buffer[HEADER..received])
  }

  /** Write the expected chunk; a short one ends the transfer and is acknowledged with 0. */
  function ClientAccept(cfg: Config, c: Client, block: Block, data: seq<byte>): (r: (Client, Output)) {
    var written := c.(got := c.got + 1, out := c.out + data);
    if |data| < MFMAXDATA then
      (written.(phase := Finished, block := 0), Reply(cfg, ACK, 0))
    else
      (written.(block := ClientKeep(block)), Reply(cfg, ACK, block))
  }

  // ---------- whole inputs ----------

  function Logged(sent: seq<seq<byte>>, o: Output): seq<seq<byte>> {
    if o.Packet? then sent + [o.bytes] else sent
  }

  /** The server after a whole inbox, and everything it has sent. */
  function ServerRun(cfg: Config, inbox: seq<Event>): (Server, seq<seq<byte>>) {
    if inbox == [] then (ServerInit(cfg), [])
    else
      var (s, sent) := ServerRun(cfg, inbox[..|inbox| - 1]);
      var (t, o) := ServerStep(cfg, s, inbox[|inbox| - 1]);
      (t, Logged(sent, o))
  }

  /** The client likewise; it opens by sending its request. */
  function ClientRun(cfg: Config, inbox: seq<Event>): (Client, seq<seq<byte>>) {
    if inbox == [] then (ClientInit(), [FrqPacket(cfg.client, cfg.name)])
    else
      var (c, sent) := ClientRun(cfg, inbox[..|inbox| - 1]);
      var (t, o) := ClientStep(cfg, c, inbox[|inbox| - 1]);
      (t, Logged(sent, o))
  }

  /** What has been sent stays sent, in order. */
  lemma {:induction false} SentGrows(cfg: Config, inbox: seq<Event>, k: nat)
    requires k <= |inbox|
    ensures ServerRun(cfg, inbox[..k]).1 <= ServerRun(cfg, inbox).1
    ensures ClientRun(cfg, inbox[..k]).1 <= ClientRun(cfg, inbox).1
    decreases |inbox|
  {
    if k == |inbox| {
      assert inbox[..k] == inbox;
    } else {
      var shorter := inbox[..|inbox| - 1];
      assert shorter[..k] == inbox[..k];
      SentGrows(cfg, shorter, k);
    }
  }

  /** After the first `k` events the server is in state `s` and has sent `sent`. */
  ghost predicate ServerAt(cfg: Config, inbox: seq<Event>, k: nat, s: Server, sent: seq<seq<byte>>) {
    k <= |inbox| && ServerRun(cfg, inbox[..k]) == (s, sent)
  }

  /** After the first `k` events the server is about to send its next chunk as `block`. */
  ghost predicate ServerLoads(cfg: Config, inbox: seq<Event>, k: nat, s: Server, block: Block, sent: seq<seq<byte>>) {
    var (t, o) := NextChunk(cfg, s, block);
    ServerAt(cfg, inbox, k, t, Logged(sent, o))
  }

  lemma ServerLoaded(cfg: Config, inbox: seq<Event>, k: nat, s: Server, block: Block, log: seq<seq<byte>>,
                     t: Server, sent: seq<seq<byte>>)
    requires ServerLoads(cfg, inbox, k, s, block, log)
    requires t == Server(Sending, block, s.chunk + 1, 0, s.ack) && sent == log + [CurrentData(cfg, t)]
    ensures ServerAt(cfg, inbox, k, t, sent)
  {
    var (next, o) := NextChunk(cfg, s, block);
    assert t == next && sent == Logged(log, o);
  }

  lemma ServerAdvances(cfg: Config, inbox: seq<Event>, k: nat, s: Server, sent: seq<seq<byte>>)
    requires k < |inbox| && ServerAt(cfg, inbox, k, s, sent)
    ensures var (t, o) := ServerStep(cfg, s, inbox[k]);
            ServerAt(cfg, inbox, k + 1, t, Logged(sent, o))
  {
    assert inbox[..k + 1][..k] == inbox[..k];
  }

  /** One more timeout while a chunk is outstanding. */
  lemma ServerRepeats(cfg: Config, inbox: seq<Event>, k: nat, s: Server, log: seq<seq<byte>>,
                      t: Server, sent: seq<seq<byte>>)
    requires 1 <= k <= |inbox| && ServerAt(cfg, inbox, k - 1, s, log)
    requires s.phase == Sending && inbox[k - 1].Timeout? && s.timeouts <= GIVE_UP
    requires t == s.(timeouts := s.timeouts + 1) && sent == log + [CurrentData(cfg, s)]
    ensures ServerAt(cfg, inbox, k, t, sent)
  {
    ServerAdvances(cfg, inbox, k - 1, s, log);
  }

  /** The last timeout, or an empty packet, while a chunk is outstanding. */
  lemma ServerExits(cfg: Config, inbox: seq<Event>, k: nat, s: Server, log: seq<seq<byte>>, t: Server)
    requires 1 <= k <= |inbox| && ServerAt(cfg, inbox, k - 1, s, log) && s.phase == Sending
    requires if inbox[k - 1].Timeout? then s.timeouts > GIVE_UP && t == s.(phase := Exited)
             else inbox[k - 1].bytes == [] && t == s.(phase := Exited, timeouts := 0)
    ensures ServerRun(cfg, inbox) == (t, log)
  {
    ServerAdvances(cfg, inbox, k - 1, s, log);
    ServerStays(cfg, inbox, k, t, log);
  }

  /** A packet has been judged while a chunk is outstanding. */
  lemma ServerJudged(cfg: Config, inbox: seq<Event>, k: nat, s: Server, log: seq<seq<byte>>,
                     t: Server, sent: seq<seq<byte>>)
    requires 1 <= k <= |inbox| && ServerAt(cfg, inbox, k - 1, s, log)
    requires s.phase == Sending && inbox[k - 1].Datagram? && inbox[k - 1].bytes != []
    requires t == s.(timeouts := 0, ack := Overlaid(inbox[k - 1].bytes, s.ack))
    requires sent == if Judge(cfg.server, t.ack, t.block) == Resend then log + [CurrentData(cfg, t)] else log
    ensures match Judge(cfg.server, t.ack, t.block)
            case EndOfFile => ServerAt(cfg, inbox, k, t.(phase := Delivered), sent)
            case Advance => ServerLoads(cfg, inbox, k, t, ServerAdvance(t.block), sent)
            case _ => ServerAt(cfg, inbox, k, t, sent)
  {
    ServerAdvances(cfg, inbox, k - 1, s, log);
  }

  /** A server that has returned or exited reads nothing more. */
  lemma {:induction false} ServerStays(cfg: Config, inbox: seq<Event>, k: nat, s: Server, sent: seq<seq<byte>>)
    requires ServerAt(cfg, inbox, k, s, sent) && (s.phase in {Delivered, Exited} || k == |inbox|)
    ensures ServerRun(cfg, inbox) == (s, sent)
    decreases |inbox| - k
  {
    if k == |inbox| {
      assert inbox[..k] == inbox;
    } else {
      ServerAdvances(cfg, inbox, k, s, sent);
      ServerStays(cfg, inbox, k + 1, s, sent);
    }
  }

  ghost predicate ClientAt(cfg: Config, inbox: seq<Event>, k: nat, c: Client, sent: seq<seq<byte>>) {
    k <= |inbox| && ClientRun(cfg, inbox[..k]) == (c, sent)
  }

  lemma ClientAdvances(cfg: Config, inbox: seq<Event>, k: nat, c: Client, sent: seq<seq<byte>>)
    requires k < |inbox| && ClientAt(cfg, inbox, k, c, sent)
    ensures var (t, o) := ClientStep(cfg, c, inbox[k]);
            ClientAt(cfg, inbox, k + 1, t, Logged(sent, o))
  {
    assert inbox[..k + 1][..k] == inbox[..k];
  }

  lemma {:induction false} ClientStays(cfg: Config, inbox: seq<Event>, k: nat, c: Client, sent: seq<seq<byte>>)
    requires ClientAt(cfg, inbox, k, c, sent) && (c.phase != Running || k == |inbox|)
    ensures ClientRun(cfg, inbox) == (c, sent)
    decreases |inbox| - k
  {
    if k == |inbox| {
      assert inbox[..k] == inbox;
    } else {
      ClientAdvances(cfg, inbox, k, c, sent);
      ClientStays(cfg, inbox, k + 1, c, sent);
    }
  }
}
