/** A network that may lose, delay and reorder packets but delivers no packet more often than it
    was sent. On it, when one end has stopped the other one stops too. */
module Once {
  import opened Packets
  import opened Endpoints
  import opened Transfer
  import opened Safety
  import opened Progress

  /** Each direction holds the packets still in flight, one entry for every transmission. */
  datatype Net = Net(server: Server, client: Client, toClient: multiset<Msg>, toServer: multiset<Msg>)

  /** Which packets there are, without their number. */
  function Seen(net: Net): System {
    System(net.server, net.client, set m | m in net.toClient, set m | m in net.toServer)
  }

  function Opening(cfg: Config): Net {
    Net(ServerInit(cfg), ClientInit(), multiset{}, multiset{Msg(FrqPacket(cfg.client, cfg.name), NoChunk)})
  }

  function ServerTurn(cfg: Config, net: Net, ev: Event): Net {
    net.(server := ServerStep(cfg, net.server, ev).0,
         toClient := net.toClient + multiset(ServerSends(cfg, net.server, ev)))
  }

  function ClientTurn(cfg: Config, net: Net, ev: Event, about: About): Net {
    net.(client := ClientStep(cfg, net.client, ev).0,
         toServer := net.toServer + multiset(ClientSends(cfg, net.client, ev, about)))
  }

  /** The same actions; a delivery takes the packet off the network. */
  function Turn(cfg: Config, net: Net, a: Action): Net
    requires Enabled(Seen(net), a)
  {
    match a
    case ServerTimer => ServerTurn(cfg, net, Timeout)
    case ClientTimer => ClientTurn(cfg, net, Timeout, NoChunk)
    case ToServer(m, d) => ServerTurn(cfg, net.(toServer := net.toServer - multiset{m}), Arrival(m, d))
    case ToClient(m, d) => ClientTurn(cfg, net.(toClient := net.toClient - multiset{m}), Arrival(m, d), m.about)
  }

  predicate IsOnceRun(cfg: Config, net: Net, run: seq<Action>, lifetime: nat)
    decreases |run|
  {
    run == [] ||
    (Enabled(Seen(net), run[0]) && Recent(Seen(net), run[0], lifetime) &&
     IsOnceRun(cfg, Turn(cfg, net, run[0]), run[1..], lifetime))
  }

  function AfterOnce(cfg: Config, net: Net, run: seq<Action>, lifetime: nat): Net
    requires IsOnceRun(cfg, net, run, lifetime)
    decreases |run|
  {
    if run == [] then net else AfterOnce(cfg, Turn(cfg, net, run[0]), run[1..], lifetime)
  }

  ghost predicate ReachableOnce(cfg: Config, net: Net, lifetime: nat) {
    exists run :: IsOnceRun(cfg, Opening(cfg), run, lifetime) && AfterOnce(cfg, Opening(cfg), run, lifetime) == net
  }

  // ---------- these runs are runs of the transfer ----------

  /** `sys` has the same ends, and all the packets of `net` at least. */
  ghost predicate Covers(sys: System, net: Net) {
    && sys.server == net.server && sys.client == net.client
    && (forall m <- net.toClient :: m in sys.toClient)
    && (forall m <- net.toServer :: m in sys.toServer)
  }

  lemma TurnIsNext(cfg: Config, sys: System, net: Net, a: Action, lifetime: nat)
    requires Covers(sys, net) && Enabled(Seen(net), a) && Recent(Seen(net), a, lifetime)
    ensures Enabled(sys, a) && Recent(sys, a, lifetime) && Covers(Next(cfg, sys, a), Turn(cfg, net, a))
  {
  }

  /** Whatever holds of all runs of the transfer holds of these. */
  lemma {:induction false} OnceIsRun(cfg: Config, sys: System, net: Net, run: seq<Action>, lifetime: nat)
    requires Covers(sys, net) && IsOnceRun(cfg, net, run, lifetime)
    ensures IsRun(cfg, sys, run, lifetime)
    ensures Covers(After(cfg, sys, run, lifetime), AfterOnce(cfg, net, run, lifetime))
    decreases |run|
  {
    if run != [] {
      TurnIsNext(cfg, sys, net, run[0], lifetime);
      OnceIsRun(cfg, Next(cfg, sys, run[0]), Turn(cfg, net, run[0]), run[1..], lifetime);
    }
  }

  lemma OnceReaches(cfg: Config, net: Net, lifetime: nat) returns (sys: System)
    requires ReachableOnce(cfg, net, lifetime)
    ensures Reachable(cfg, sys, lifetime) && Covers(sys, net)
  {
    var run :| IsOnceRun(cfg, Opening(cfg), run, lifetime) && AfterOnce(cfg, Opening(cfg), run, lifetime) == net;
    OnceIsRun(cfg, Start(cfg), Opening(cfg), run, lifetime);
    sys := After(cfg, Start(cfg), run, lifetime);
  }

  // ---------- the counters ----------

  predicate CountersOk(server: Server, client: Client) {
    && (client.phase == Running ==> Waited(client) <= 11)
    && (server.phase in {WaitFrq, Sending} ==> server.timeouts <= 11)
  }

  lemma ServerCounts(cfg: Config, server: Server, client: Client, ev: Event)
    requires CountersOk(server, client)
    ensures CountersOk(ServerStep(cfg, server, ev).0, client)
  {
  }

  lemma ClientCounts(cfg: Config, server: Server, client: Client, ev: Event)
    requires CountersOk(server, client)
    ensures CountersOk(server, ClientStep(cfg, client, ev).0)
  {
  }

  lemma TurnCounts(cfg: Config, net: Net, a: Action)
    requires CountersOk(net.server, net.client) && Enabled(Seen(net), a)
    ensures var t := Turn(cfg, net, a); CountersOk(t.server, t.client)
  {
    match a
    case ServerTimer => ServerCounts(cfg, net.server, net.client, Timeout);
    case ClientTimer => ClientCounts(cfg, net.server, net.client, Timeout);
    case ToServer(m, d) => ServerCounts(cfg, net.server, net.client, Arrival(m, d));
    case ToClient(m, d) => ClientCounts(cfg, net.server, net.client, Arrival(m, d));
  }

  lemma {:induction false} CountersRun(cfg: Config, net: Net, run: seq<Action>, lifetime: nat)
    requires CountersOk(net.server, net.client) && IsOnceRun(cfg, net, run, lifetime)
    ensures var t := AfterOnce(cfg, net, run, lifetime); CountersOk(t.server, t.client)
    decreases |run|
  {
    if run != [] {
      TurnCounts(cfg, net, run[0]);
      CountersRun(cfg, Turn(cfg, net, run[0]), run[1..], lifetime);
    }
  }

  lemma ReachableCounts(cfg: Config, net: Net, lifetime: nat)
    requires ReachableOnce(cfg, net, lifetime)
    ensures CountersOk(net.server, net.client)
  {
    var run :| IsOnceRun(cfg, Opening(cfg), run, lifetime) && AfterOnce(cfg, Opening(cfg), run, lifetime) == net;
    CountersRun(cfg, Opening(cfg), run, lifetime);
  }

  // ---------- one end has stopped ----------

  function ClientEvents(run: seq<Action>): nat {
    if run == [] then 0 else ClientEvents(run[1..]) + if run[0].ClientTimer? || run[0].ToClient? then 1 else 0
  }

  function ServerEvents(run: seq<Action>): nat {
    if run == [] then 0 else ServerEvents(run[1..]) + if run[0].ServerTimer? || run[0].ToServer? then 1 else 0
  }

  predicate ServerStopped(s: Server) {
    s.phase == Delivered || s.phase == Exited
  }

  predicate ClientStopped(c: Client) {
    c.phase != Running
  }

  /** Events the client can still take part in while nothing more is sent to it. */
  function ClientLeft(net: Net): int {
    12 * |net.toClient| + 11 - Waited(net.client)
  }

  function ServerLeft(net: Net): int {
    12 * |net.toServer| + 11 - net.server.timeouts
  }

  lemma ClientNears(cfg: Config, net: Net, a: Action)
    requires CountersOk(net.server, net.client) && ServerStopped(net.server) && Enabled(Seen(net), a)
    ensures var t := Turn(cfg, net, a);
            && CountersOk(t.server, t.client) && ServerStopped(t.server)
            && (ClientStopped(net.client) ==> ClientStopped(t.client))
            && (!ClientStopped(t.client) ==> ClientLeft(t) <= ClientLeft(net) - ClientEvents([a]))
  {
    TurnCounts(cfg, net, a);
  }

  lemma ServerNears(cfg: Config, net: Net, a: Action)
    requires CountersOk(net.server, net.client) && ClientStopped(net.client) && Enabled(Seen(net), a)
    ensures var t := Turn(cfg, net, a);
            && CountersOk(t.server, t.client) && ClientStopped(t.client)
            && (ServerStopped(net.server) ==> ServerStopped(t.server))
            && (!ServerStopped(t.server) ==> ServerLeft(t) <= ServerLeft(net) - ServerEvents([a]))
  {
    TurnCounts(cfg, net, a);
  }

  lemma {:induction false} ClientRunsOut(cfg: Config, net: Net, run: seq<Action>, lifetime: nat)
    requires CountersOk(net.server, net.client) && ServerStopped(net.server) && IsOnceRun(cfg, net, run, lifetime)
    ensures var t := AfterOnce(cfg, net, run, lifetime);
            && CountersOk(t.server, t.client)
            && (ClientStopped(net.client) ==> ClientStopped(t.client))
            && (!ClientStopped(t.client) ==> ClientLeft(t) <= ClientLeft(net) - ClientEvents(run))
    decreases |run|
  {
    if run != [] {
      ClientNears(cfg, net, run[0]);
      ClientRunsOut(cfg, Turn(cfg, net, run[0]), run[1..], lifetime);
    }
  }

  lemma {:induction false} ServerRunsOut(cfg: Config, net: Net, run: seq<Action>, lifetime: nat)
    requires CountersOk(net.server, net.client) && ClientStopped(net.client) && IsOnceRun(cfg, net, run, lifetime)
    ensures var t := AfterOnce(cfg, net, run, lifetime);
            && CountersOk(t.server, t.client)
            && (ServerStopped(net.server) ==> ServerStopped(t.server))
            && (!ServerStopped(t.server) ==> ServerLeft(t) <= ServerLeft(net) - ServerEvents(run))
    decreases |run|
  {
    if run != [] {
      ServerNears(cfg, net, run[0]);
      ServerRunsOut(cfg, Turn(cfg, net, run[0]), run[1..], lifetime);
    }
  }

  /** Once the server has returned or exited, the client stops too, at its `12 n + 12`-th event at
      the latest, where `n` packets were in flight to it. */
  lemma ClientHalts(cfg: Config, net: Net, run: seq<Action>, lifetime: nat)
    requires ReachableOnce(cfg, net, lifetime) && ServerStopped(net.server)
    requires IsOnceRun(cfg, net, run, lifetime) && ClientEvents(run) >= 12 * |net.toClient| + 12
    ensures ClientStopped(AfterOnce(cfg, net, run, lifetime).client)
  {
    ReachableCounts(cfg, net, lifetime);
    ClientRunsOut(cfg, net, run, lifetime);
  }

  /** Once the client has finished or given up, so does the server. */
  lemma ServerHalts(cfg: Config, net: Net, run: seq<Action>, lifetime: nat)
    requires ReachableOnce(cfg, net, lifetime) && ClientStopped(net.client)
    requires IsOnceRun(cfg, net, run, lifetime) && ServerEvents(run) >= 12 * |net.toServer| + 12
    ensures ServerStopped(AfterOnce(cfg, net, run, lifetime).server)
  {
    ReachableCounts(cfg, net, lifetime);
    ServerRunsOut(cfg, net, run, lifetime);
  }
}
