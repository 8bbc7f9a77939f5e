/** The two programs inside a run of the whole transfer. */
module Views {
  import opened Words
  import opened Packets
  import opened Endpoints
  import opened Transfer
  import opened Numbering
  import opened Safety

  /** What the server's `recvfrom` returns in one action, if it returns. */
  function ServerSees(a: Action): seq<Event> {
    match a
    case ServerTimer => [Timeout]
    case ToServer(m, d) => if Possible(m, d) then [Arrival(m, d)] else []
    case _ => []
  }

  function ClientSees(a: Action): seq<Event> {
    match a
    case ClientTimer => [Timeout]
    case ToClient(m, d) => if Possible(m, d) then [Arrival(m, d)] else []
    case _ => []
  }

  function ServerInbox(run: seq<Action>): seq<Event> {
    if run == [] then [] else ServerSees(run[0]) + ServerInbox(run[1..])
  }

  function ClientInbox(run: seq<Action>): seq<Event> {
    if run == [] then [] else ClientSees(run[0]) + ClientInbox(run[1..])
  }

  /** `net` holds exactly the packets in `sent`. */
  ghost predicate Carries(net: set<Msg>, sent: seq<seq<byte>>) {
    (forall m <- net :: m.bytes in sent) && (forall p <- sent :: exists m <- net :: m.bytes == p)
  }

  lemma CarriesMore(net: set<Msg>, sent: seq<seq<byte>>, p: seq<byte>, about: About)
    requires Carries(net, sent)
    ensures Carries(net + {Msg(p, about)}, sent + [p])
  {
    var more := net + {Msg(p, about)};
    forall q <- sent + [p] ensures exists m <- more :: m.bytes == q {
      if q == p {
        assert Msg(p, about) in more;
      } else {
        var m :| m in net && m.bytes == q;
        assert m in more;
      }
    }
  }

  /** What an inbox so far has to do with the state of the system. */
  ghost predicate Matches(cfg: Config, sys: System, p: seq<Event>, q: seq<Event>) {
    && ServerRun(cfg, p).0 == sys.server && Carries(sys.toClient, ServerRun(cfg, p).1)
    && ClientRun(cfg, q).0 == sys.client && Carries(sys.toServer, ClientRun(cfg, q).1)
  }

  lemma ServerMatches(cfg: Config, sys: System, ev: Event, p: seq<Event>, q: seq<Event>)
    requires Matches(cfg, sys, p, q)
    ensures Matches(cfg, ServerActs(cfg, sys, ev), p + [ev], q)
  {
    assert (p + [ev])[..|p|] == p;
    var (s, o) := ServerStep(cfg, sys.server, ev);
    if o.Packet? {
      CarriesMore(sys.toClient, ServerRun(cfg, p).1, o.bytes, OfChunk(s.chunk));
    } else {
      assert sys.toClient + {} == sys.toClient;
    }
  }

  lemma ClientMatches(cfg: Config, sys: System, ev: Event, about: About, p: seq<Event>, q: seq<Event>)
    requires Matches(cfg, sys, p, q)
    ensures Matches(cfg, ClientActs(cfg, sys, ev, about), p, q + [ev])
  {
    assert (q + [ev])[..|q|] == q;
    var (c, o) := ClientStep(cfg, sys.client, ev);
    if o.Packet? {
      CarriesMore(sys.toServer, ClientRun(cfg, q).1, o.bytes, Answering(o.bytes, about));
    } else {
      assert sys.toServer + {} == sys.toServer;
    }
  }

  lemma NextMatches(cfg: Config, sys: System, a: Action, p: seq<Event>, q: seq<Event>)
    requires Enabled(sys, a) && Matches(cfg, sys, p, q)
    ensures Matches(cfg, Next(cfg, sys, a), p + ServerSees(a), q + ClientSees(a))
  {
    assert p + [] == p && q + [] == q;
    match a
    case ServerTimer => ServerMatches(cfg, sys, Timeout, p, q);
    case ClientTimer => ClientMatches(cfg, sys, Timeout, NoChunk, p, q);
    case ToServer(m, d) => ServerMatches(cfg, sys, Arrival(m, d), p, q);
    case ToClient(m, d) => ClientMatches(cfg, sys, Arrival(m, d), m.about, p, q);
  }

  lemma Regroup(a: seq<Event>, b: seq<Event>, c: seq<Event>)
    ensures a + (b + c) == a + b + c
  {
  }

  lemma {:induction false} RunMatches(cfg: Config, sys: System, run: seq<Action>, lifetime: nat,
                                      p: seq<Event>, q: seq<Event>)
    requires IsRun(cfg, sys, run, lifetime) && Matches(cfg, sys, p, q)
    ensures Matches(cfg, After(cfg, sys, run, lifetime), p + ServerInbox(run), q + ClientInbox(run))
    decreases |run|
  {
    if run == [] {
      assert p + [] == p && q + [] == q;
    } else {
      var a := run[0];
      NextMatches(cfg, sys, a, p, q);
      RunMatches(cfg, Next(cfg, sys, a), run[1..], lifetime, p + ServerSees(a), q + ClientSees(a));
      Regroup(p, ServerSees(a), ServerInbox(run[1..]));
      Regroup(q, ClientSees(a), ClientInbox(run[1..]));
    }
  }

  /** In every run each end is where its program gets to on its own inbox, and the network
      carries exactly the packets the two programs send. */
  lemma RunsAreProgramRuns(cfg: Config, run: seq<Action>, lifetime: nat)
    requires IsRun(cfg, Start(cfg), run, lifetime)
    ensures var sys := After(cfg, Start(cfg), run, lifetime);
            && sys.server == ServerRun(cfg, ServerInbox(run)).0
            && Carries(sys.toClient, ServerRun(cfg, ServerInbox(run)).1)
            && sys.client == ClientRun(cfg, ClientInbox(run)).0
            && Carries(sys.toServer, ClientRun(cfg, ClientInbox(run)).1)
  {
    RunMatches(cfg, Start(cfg), run, lifetime, [], []);
    assert [] + ServerInbox(run) == ServerInbox(run) && [] + ClientInbox(run) == ClientInbox(run);
  }

  /** The two programs, each run on what the network gave it: if the server's returns, the
      client's has written exactly the file; and whenever the client's finishes, it has. */
  lemma ProgramsDeliver(cfg: Config, run: seq<Action>, lifetime: nat)
    requires cfg.Valid() && !RequestForgesAck(cfg) && (lifetime <= CYCLE || Count(cfg.file) < 65000)
    requires IsRun(cfg, Start(cfg), run, lifetime)
    ensures var (s, _) := ServerRun(cfg, ServerInbox(run));
            var (c, _) := ClientRun(cfg, ClientInbox(run));
            && (s.phase == Delivered ==> c.phase == Finished)
            && (c.phase == Finished ==> c.out == cfg.file)
            && c.out <= cfg.file
  {
    RunsAreProgramRuns(cfg, run, lifetime);
    ReachableInv(cfg, After(cfg, Start(cfg), run, lifetime), lifetime);
    InvIsSafe(cfg, After(cfg, Start(cfg), run, lifetime));
  }
}
