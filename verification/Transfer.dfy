/** The whole transfer: both ends and a network that may lose, repeat, delay and reorder
    packets and invert one bit of any delivery. */
module Transfer {
  import opened Words
  import opened Packets
  import opened Endpoints

  /** Which chunk a DATA packet holds or an ACK answers; no part of the packet itself. */
  datatype About = NoChunk | OfChunk(index: nat)

  datatype Msg = Msg(bytes: seq<byte>, about: About)

  /** Each direction is the set of all packets ever sent that way. */
  datatype System = System(server: Server, client: Client, toClient: set<Msg>, toServer: set<Msg>)

  datatype Damage = Clean | Flipped(bit: nat)

  datatype Action =
    | ServerTimer
    | ClientTimer
    | ToServer(m: Msg, damage: Damage)
    | ToClient(m: Msg, damage: Damage)

  predicate Possible(m: Msg, damage: Damage) {
    damage.Flipped? ==> damage.bit < 8 * |m.bytes|
  }

  /** What is delivered of `m`. */
  function Arrival(m: Msg, damage: Damage): Event
    requires Possible(m, damage)
  {
    Datagram(if damage.Clean? then m.bytes else Flip(m.bytes, damage.bit))
  }

  predicate Enabled(sys: System, a: Action) {
    match a
    case ToServer(m, d) => m in sys.toServer && Possible(m, d)
    case ToClient(m, d) => m in sys.toClient && Possible(m, d)
    case _ => true
  }

  /** The packet-lifetime assumption: nothing delivered is `lifetime` or more chunks old. */
  predicate Recent(sys: System, a: Action, lifetime: nat) {
    match a
    case ToServer(m, _) => m.about.OfChunk? ==> sys.server.chunk < m.about.index + lifetime
    case ToClient(m, _) => m.about.OfChunk? ==> sys.client.got + 1 < m.about.index + lifetime
    case _ => true
  }

  function Start(cfg: Config): System {
    System(ServerInit(cfg), ClientInit(), {}, {Msg(FrqPacket(cfg.client, cfg.name), NoChunk)})
  }

  /** What the server sends on one event. */
  function ServerSends(cfg: Config, s: Server, ev: Event): set<Msg> {
    var (t, o) := ServerStep(cfg, s, ev);
    if o.Packet? then {Msg(o.bytes, OfChunk(t.chunk))} else {}
  }

  function ServerActs(cfg: Config, sys: System, ev: Event): System {
    sys.(server := ServerStep(cfg, sys.server, ev).0, toClient := sys.toClient + ServerSends(cfg, sys.server, ev))
  }

  /** An ACK is about the chunk whose delivery provoked it. */
  function Answering(bytes: seq<byte>, about: About): About {
    if |bytes| >= HEADER && Opcode(bytes) == ACK then about else NoChunk
  }

  function ClientSends(cfg: Config, c: Client, ev: Event, about: About): set<Msg> {
    var (_, o) := ClientStep(cfg, c, ev);
    if o.Packet? then {Msg(o.bytes, Answering(o.bytes, about))} else {}
  }

  function ClientActs(cfg: Config, sys: System, ev: Event, about: About): System {
    sys.(client := ClientStep(cfg, sys.client, ev).0,
         toServer := sys.toServer + ClientSends(cfg, sys.client, ev, about))
  }

  function Next(cfg: Config, sys: System, a: Action): System
    requires Enabled(sys, a)
  {
    match a
    case ServerTimer => ServerActs(cfg, sys, Timeout)
    case ClientTimer => ClientActs(cfg, sys, Timeout, NoChunk)
    case ToServer(m, d) => ServerActs(cfg, sys, Arrival(m, d))
    case ToClient(m, d) => ClientActs(cfg, sys, Arrival(m, d), m.about)
  }

  /** `run` can happen from `sys` on a network with the given packet lifetime. */
  predicate IsRun(cfg: Config, sys: System, run: seq<Action>, lifetime: nat)
    decreases |run|
  {
    run == [] ||
    (Enabled(sys, run[0]) && Recent(sys, run[0], lifetime) && IsRun(cfg, Next(cfg, sys, run[0]), run[1..], lifetime))
  }

  function After(cfg: Config, sys: System, run: seq<Action>, lifetime: nat): System
    requires IsRun(cfg, sys, run, lifetime)
    decreases |run|
  {
    if run == [] then sys else After(cfg, Next(cfg, sys, run[0]), run[1..], lifetime)
  }

  lemma {:induction false} RunThen(cfg: Config, sys: System, run: seq<Action>, a: Action, lifetime: nat)
    requires IsRun(cfg, sys, run, lifetime)
    requires Enabled(After(cfg, sys, run, lifetime), a) && Recent(After(cfg, sys, run, lifetime), a, lifetime)
    ensures IsRun(cfg, sys, run + [a], lifetime)
    ensures After(cfg, sys, run + [a], lifetime) == Next(cfg, After(cfg, sys, run, lifetime), a)
    decreases |run|
  {
    if run == [] {
      assert run + [a] == [a];
      assert [a][1..] == [];
    } else {
      assert (run + [a])[1..] == run[1..] + [a];
      RunThen(cfg, Next(cfg, sys, run[0]), run[1..], a, lifetime);
    }
  }
}
