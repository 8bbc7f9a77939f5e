/** When a transfer can still complete, how long an end waits, and what an ERROR achieves. */
module Progress {
  import opened Words
  import opened Numbering
  import opened Packets
  import opened Endpoints
  import opened Transfer
  import opened Delivery
  import opened Safety
  import opened Exchange

  // ---------- completion ----------

  ghost predicate CanComplete(cfg: Config, sys: System, lifetime: nat) {
    exists run :: IsRun(cfg, sys, run, lifetime) && Complete(After(cfg, sys, run, lifetime))
  }

  /** Both ends have reached their successful exit. */
  predicate Complete(sys: System) {
    sys.server.phase == Delivered && sys.client.phase == Finished
  }

  /** Everything in flight, in both directions, is lost. */
  function Lost(sys: System): System {
    sys.(toClient := {}, toServer := {})
  }

  /** Timeouts in a row counted by the client's variable that is in use. */
  function Waited(c: Client): nat {
    if c.block == 0 then c.first else c.later
  }

  lemma StepFirst(cfg: Config, sys: System, a: Action, lifetime: nat)
    requires Enabled(sys, a) && Recent(sys, a, lifetime) && CanComplete(cfg, Next(cfg, sys, a), lifetime)
    ensures CanComplete(cfg, sys, lifetime)
  {
    var t := Next(cfg, sys, a);
    var run :| IsRun(cfg, t, run, lifetime) && Complete(After(cfg, t, run, lifetime));
    var longer := [a] + run;
    assert longer[1..] == run;
    assert IsRun(cfg, sys, longer, lifetime) && After(cfg, sys, longer, lifetime) == After(cfg, t, run, lifetime);
  }

  lemma {:induction false} Resume(cfg: Config, sys: System, lifetime: nat)
    requires Resumable(cfg, sys) && lifetime >= 2
    ensures CanComplete(cfg, sys, lifetime)
    decreases Count(cfg.file) - sys.server.chunk, 1
  {
    var a := ToClient(DataOf(cfg, sys.server.chunk), Clean);
    CurrentArrives(cfg, sys);
    Answered(cfg, Next(cfg, sys, a), lifetime);
    StepFirst(cfg, sys, a, lifetime);
  }

  /** The client holds the current chunk and its answer is on its way. */
  lemma {:induction false} Answered(cfg: Config, sys: System, lifetime: nat)
    requires sys.server.phase == Sending && ServerOk(cfg, sys.server) && lifetime >= 2
    requires ClientOk(cfg, sys.client) && sys.client.got == sys.server.chunk
    requires sys.client.phase == (if sys.server.chunk < Count(cfg.file) then Running else Finished)
    requires ReplyTo(cfg, sys.server.chunk) in sys.toServer
    ensures CanComplete(cfg, sys, lifetime)
    decreases Count(cfg.file) - sys.server.chunk, 0
  {
    var a := ToServer(ReplyTo(cfg, sys.server.chunk), Clean);
    AnswerArrives(cfg, sys);
    var t := Next(cfg, sys, a);
    if sys.server.chunk < Count(cfg.file) {
      Resume(cfg, t, lifetime);
    } else {
      assert IsRun(cfg, t, [], lifetime) && Complete(After(cfg, t, [], lifetime));
    }
    StepFirst(cfg, sys, a, lifetime);
  }

  lemma ServerTimerResumes(cfg: Config, sys: System, lifetime: nat)
    requires Inv(cfg, sys) && sys.server.phase == Sending && sys.client.phase == Running && lifetime >= 2
    requires sys.server.timeouts <= GIVE_UP
    ensures CanComplete(cfg, sys, lifetime)
  {
    Resume(cfg, Next(cfg, sys, ServerTimer), lifetime);
    StepFirst(cfg, sys, ServerTimer, lifetime);
  }

  /** The client's timer sends a request or an ERROR; either revives the server. */
  lemma ClientTimerResumes(cfg: Config, sys: System, lifetime: nat)
    requires cfg.Valid() && Inv(cfg, sys) && sys.client.phase == Running && lifetime >= 2
    requires sys.server.phase in {WaitFrq, Sending} && Waited(sys.client) <= GIVE_UP
    ensures CanComplete(cfg, sys, lifetime)
  {
    var mid := Next(cfg, sys, ClientTimer);
    InvClientTimer(cfg, sys);
    var c := sys.client;
    var m := if c.block == 0 then RequestOf(cfg) else Msg(Control(cfg.client, ERROR, c.block), NoChunk);
    assert m in mid.toServer by {
      FrqShape(cfg.client, cfg.name);
      ControlRead(cfg.client, cfg.client, ERROR, c.block);
    }
    var a := ToServer(m, Clean);
    var t := Next(cfg, mid, a);
    if sys.server.phase == WaitFrq {
      RequestArrives(cfg, mid);
      Resume(cfg, t, lifetime);
    } else {
      if c.block == 0 {
        CleanRequest(cfg, mid.server.ack, mid.server.block);
      } else {
        CleanControl(cfg, mid.server.ack, ERROR, c.block, mid.server.block);
      }
      InvNoAdvance(cfg, mid, Arrival(m, Clean));
      ServerTimerResumes(cfg, t, lifetime);
    }
    StepFirst(cfg, mid, a, lifetime);
    StepFirst(cfg, sys, ClientTimer, lifetime);
  }

  /** No continuation of any kind lets this server return successfully. */
  predicate Stuck(sys: System) {
    && sys.server.phase != Delivered
    && (|| sys.server.phase == Exited
        || (sys.client.phase != Running && sys.toServer == {})
        || (&& sys.toServer == {} && sys.toClient == {} && Waited(sys.client) > GIVE_UP
            && (sys.server.phase == WaitFrq || sys.server.timeouts > GIVE_UP)))
  }

  lemma StuckNext(cfg: Config, sys: System, a: Action)
    requires Stuck(sys) && Enabled(sys, a)
    ensures Stuck(Next(cfg, sys, a))
  {
  }

  lemma {:induction false} StuckRun(cfg: Config, sys: System, run: seq<Action>, lifetime: nat)
    requires Stuck(sys) && IsRun(cfg, sys, run, lifetime)
    ensures Stuck(After(cfg, sys, run, lifetime))
    decreases |run|
  {
    if run != [] {
      StuckNext(cfg, sys, run[0]);
      StuckRun(cfg, Next(cfg, sys, run[0]), run[1..], lifetime);
    }
  }

  /** The server has succeeded, or both ends run and one of them still has a timeout to spend on
      sending: the client in any phase, the server once it serves. */
  predicate CanStillSend(sys: System) {
    sys.server.phase == Delivered ||
    (sys.client.phase == Running && sys.server.phase in {WaitFrq, Sending} &&
     (Waited(sys.client) <= GIVE_UP || (sys.server.phase == Sending && sys.server.timeouts <= GIVE_UP)))
  }

  lemma CompletionFrom(cfg: Config, sys: System, lifetime: nat)
    requires cfg.Valid() && Inv(cfg, sys) && lifetime >= 2
    ensures CanComplete(cfg, Lost(sys), lifetime) <==> CanStillSend(sys)
  {
    var lost := Lost(sys);
    if sys.server.phase == Delivered {
      assert IsRun(cfg, lost, [], lifetime) && Complete(After(cfg, lost, [], lifetime));
    } else if Stuck(lost) {
      forall run | IsRun(cfg, lost, run, lifetime) ensures !Complete(After(cfg, lost, run, lifetime)) {
        StuckRun(cfg, lost, run, lifetime);
      }
    } else if Waited(sys.client) <= GIVE_UP {
      ClientTimerResumes(cfg, lost, lifetime);
    } else {
      ServerTimerResumes(cfg, lost, lifetime);
    }
  }

  /** In every reachable state, even if everything in flight is now lost, both ends can still
      succeed exactly when the server has, or both run and at least one that has something to
      send has not run out of timeouts. With a lifetime of 1 a chunk the client already holds
      could not be delivered again, so that its ACK could not be repeated. */
  lemma CompletionExactly(cfg: Config, sys: System, lifetime: nat)
    requires cfg.Valid() && !RequestForgesAck(cfg) && (lifetime <= CYCLE || Count(cfg.file) < 65000)
    requires Reachable(cfg, sys, lifetime) && lifetime >= 2
    ensures CanComplete(cfg, Lost(sys), lifetime) <==> CanStillSend(sys)
  {
    ReachableInv(cfg, sys, lifetime);
    CompletionFrom(cfg, sys, lifetime);
  }

  /** Once the client has finished, a server that has not heard of it and gets no more packets
      never returns successfully: a lost final ACK is never repeated. */
  lemma LostFinalAck(cfg: Config, sys: System, lifetime: nat)
    requires sys.client.phase == Finished && sys.server.phase == Sending
    ensures !CanComplete(cfg, Lost(sys), lifetime)
  {
    forall run | IsRun(cfg, Lost(sys), run, lifetime) ensures !Complete(After(cfg, Lost(sys), run, lifetime)) {
      StuckRun(cfg, Lost(sys), run, lifetime);
    }
  }

  // ---------- ERROR ----------

  lemma ErrorJudged(cfg: Config, s: Server, c: Client)
    requires s.phase == Sending && ServerOk(cfg, s) && c.phase == Running && ClientOk(cfg, c)
    requires c.got <= s.chunk <= c.got + 1
    ensures Judge(cfg.server, Overlaid(Control(cfg.client, ERROR, c.block), s.ack), s.block) ==
            if c.got < s.chunk then Resend else Ignore
  {
    CleanControl(cfg, s.ack, ERROR, c.block, s.block);
    ClientExpects(c.got);
    SameNumber(c.got + 1, s.chunk);
  }

  /** An ERROR the client would send now makes the server repeat its packet exactly when the
      client lacks that chunk, at every point of the numbering cycle. */
  lemma ErrorMatches(cfg: Config, sys: System, lifetime: nat)
    requires cfg.Valid() && !RequestForgesAck(cfg) && (lifetime <= CYCLE || Count(cfg.file) < 65000)
    requires Reachable(cfg, sys, lifetime) && sys.server.phase == Sending && sys.client.phase == Running
    ensures sys.server.chunk >= 1
    ensures var error := Control(cfg.client, ERROR, sys.client.block);
            ServerStep(cfg, sys.server, Datagram(error)).1 ==
            if sys.client.got < sys.server.chunk then Packet(CurrentData(cfg, sys.server)) else Nothing
  {
    ReachableInv(cfg, sys, lifetime);
    ErrorJudged(cfg, sys.server, sys.client);
  }

  /** What the client sends on a timeout makes the server repeat exactly the chunk that is missing,
      once the client has accepted any. Before that it is a request, which a server that has
      already started ignores. */
  lemma TimeoutRepairs(cfg: Config, sys: System, lifetime: nat)
    requires cfg.Valid() && !RequestForgesAck(cfg) && (lifetime <= CYCLE || Count(cfg.file) < 65000)
    requires Reachable(cfg, sys, lifetime) && sys.server.phase == Sending && sys.client.phase == Running
    requires Waited(sys.client) <= 10
    ensures sys.server.chunk >= 1
    ensures var o := ClientStep(cfg, sys.client, Timeout).1;
            o.Packet? &&
            ServerStep(cfg, sys.server, Datagram(o.bytes)).1 ==
            if 1 <= sys.client.got < sys.server.chunk
            then Packet(DataPacket(cfg.server, Number(sys.server.chunk), Chunk(cfg.file, sys.server.chunk)))
            else Nothing
  {
    ReachableInv(cfg, sys, lifetime);
    ErrorJudged(cfg, sys.server, sys.client);
    CleanRequest(cfg, sys.server.ack, sys.server.block);
  }

  /** The request repeated on a timeout starts a server that waits for it, with chunk 1. */
  lemma TimeoutStarts(cfg: Config, sys: System, lifetime: nat)
    requires cfg.Valid() && !RequestForgesAck(cfg) && (lifetime <= CYCLE || Count(cfg.file) < 65000)
    requires Reachable(cfg, sys, lifetime) && sys.server.phase == WaitFrq && sys.client.phase == Running
    requires Waited(sys.client) <= 10
    ensures var o := ClientStep(cfg, sys.client, Timeout).1;
            o.Packet? &&
            var (s, first) := ServerStep(cfg, sys.server, Datagram(o.bytes));
            s.phase == Sending && s.block == s.chunk == 1 && s.timeouts == 0 &&
            first == Packet(DataPacket(cfg.server, 1, Chunk(cfg.file, 1)))
  {
    ReachableInv(cfg, sys, lifetime);
    FirstRequest(cfg, sys.server, 0);
  }

  /** So does what it sends on a damaged packet, from the first on. */
  lemma DamageRepairs(cfg: Config, sys: System, m: Msg, bit: nat, lifetime: nat)
    requires cfg.Valid() && !RequestForgesAck(cfg) && (lifetime <= CYCLE || Count(cfg.file) < 65000)
    requires Reachable(cfg, sys, lifetime) && sys.server.phase == Sending && sys.client.phase == Running
    requires m in sys.toClient && bit < 8 * |m.bytes|
    ensures sys.server.chunk >= 1
    ensures var o := ClientStep(cfg, sys.client, Datagram(Flip(m.bytes, bit))).1;
            o.Packet? &&
            ServerStep(cfg, sys.server, Datagram(o.bytes)).1 ==
            if sys.client.got < sys.server.chunk
            then Packet(DataPacket(cfg.server, Number(sys.server.chunk), Chunk(cfg.file, sys.server.chunk)))
            else Nothing
  {
    ReachableInv(cfg, sys, lifetime);
    var i := m.about.index;
    DataRead(cfg.server, cfg.client, Number(i), Chunk(cfg.file, i));
    ChunkSize(cfg.file, i);
    DamagedData(cfg, sys.client.(first := 0, later := 0), m.bytes, bit);
    ErrorJudged(cfg, sys.server, sys.client);
  }

  // ---------- giving up ----------

  function TimeoutsAtEnd(inbox: seq<Event>): nat {
    if inbox == [] || inbox[|inbox| - 1].Datagram? then 0 else TimeoutsAtEnd(inbox[..|inbox| - 1]) + 1
  }

  /** A running client's count is the number of timeouts since its last datagram, sound or not. */
  lemma {:induction false} ClientCount(cfg: Config, inbox: seq<Event>)
    requires ClientRun(cfg, inbox).0.phase == Running
    ensures Waited(ClientRun(cfg, inbox).0) == TimeoutsAtEnd(inbox)
    decreases |inbox|
  {
    if inbox != [] {
      ClientCount(cfg, inbox[..|inbox| - 1]);
    }
  }

  lemma ServerCountStep(cfg: Config, s: Server, ev: Event)
    ensures var t := ServerStep(cfg, s, ev).0;
            && (t.phase == Sending ==>
                  if ev.Timeout? then s.phase == Sending && t.timeouts == s.timeouts + 1 else t.timeouts == 0)
            && (t.phase == WaitFrq ==>
                  s.phase == WaitFrq && t.timeouts == s.timeouts + if ev.Timeout? then 1 else 0)
  {
  }

  /** So is a sending server's. While it waits for a request it counts all timeouts. */
  lemma {:induction false} ServerCount(cfg: Config, inbox: seq<Event>)
    ensures var s := ServerRun(cfg, inbox).0;
            (s.phase == Sending ==> s.timeouts == TimeoutsAtEnd(inbox)) &&
            (s.phase == WaitFrq ==> s.timeouts == |inbox| - Datagrams(inbox))
    decreases |inbox|
  {
    if inbox != [] {
      var shorter := inbox[..|inbox| - 1];
      ServerCount(cfg, shorter);
      ServerCountStep(cfg, ServerRun(cfg, shorter).0, inbox[|inbox| - 1]);
    }
  }

  function Datagrams(inbox: seq<Event>): nat {
    if inbox == [] then 0
    else Datagrams(inbox[..|inbox| - 1]) + if inbox[|inbox| - 1].Datagram? then 1 else 0
  }

  /** A client that has received `d` datagrams has stopped after `12 d + 12` events at the latest. */
  lemma {:induction false} ClientGivesUp(cfg: Config, inbox: seq<Event>)
    requires ClientRun(cfg, inbox).0.phase == Running
    ensures var c := ClientRun(cfg, inbox).0;
            Waited(c) <= 11 && |inbox| <= 12 * Datagrams(inbox) + Waited(c)
    decreases |inbox|
  {
    if inbox != [] {
      ClientGivesUp(cfg, inbox[..|inbox| - 1]);
    }
  }

  lemma {:induction false} ServerGivesUp(cfg: Config, inbox: seq<Event>)
    requires ServerRun(cfg, inbox).0.phase in {WaitFrq, Sending}
    ensures var s := ServerRun(cfg, inbox).0;
            s.timeouts <= 11 && |inbox| <= 12 * Datagrams(inbox) + s.timeouts
    decreases |inbox|
  {
    if inbox != [] {
      ServerGivesUp(cfg, inbox[..|inbox| - 1]);
    }
  }

  function Least(a: nat, b: nat): nat {
    if a <= b then a else b
  }

  lemma {:induction false} ClientPatience(cfg: Config, inbox: seq<Event>, n: nat, was: Client, before: seq<seq<byte>>,
                                          c: Client, sent: seq<seq<byte>>)
    requires n <= |inbox| && (forall i :: n <= i < |inbox| ==> inbox[i] == Timeout)
    requires ClientAt(cfg, inbox, n, was, before) && was.phase == Running && Waited(was) <= 11
    requires ClientRun(cfg, inbox) == (c, sent)
    ensures var more := |inbox| - n;
            c.phase == (if Waited(was) + more <= 11 then Running else Stopped) &&
            |sent| == |before| + Least(more, 11 - Waited(was))
    decreases |inbox| - n
  {
    if n == |inbox| {
      ClientStays(cfg, inbox, n, was, before);
    } else {
      ClientAdvances(cfg, inbox, n, was, before);
      var (t, o) := ClientStep(cfg, was, Timeout);
      if t.phase == Running {
        ClientPatience(cfg, inbox, n + 1, t, Logged(before, o), c, sent);
      } else {
        ClientStays(cfg, inbox, n + 1, t, before);
      }
    }
  }

  lemma {:induction false} ServerPatience(cfg: Config, inbox: seq<Event>, n: nat, was: Server, before: seq<seq<byte>>,
                                          s: Server, sent: seq<seq<byte>>)
    requires n <= |inbox| && (forall i :: n <= i < |inbox| ==> inbox[i] == Timeout)
    requires ServerAt(cfg, inbox, n, was, before) && was.phase in {WaitFrq, Sending} && was.timeouts <= 11
    requires ServerRun(cfg, inbox) == (s, sent)
    ensures var more := |inbox| - n;
            s.phase == (if was.timeouts + more <= 11 then was.phase else Exited) &&
            |sent| == |before| + if was.phase == Sending then Least(more, 11 - was.timeouts) else 0
    decreases |inbox| - n
  {
    if n == |inbox| {
      ServerStays(cfg, inbox, n, was, before);
    } else {
      ServerAdvances(cfg, inbox, n, was, before);
      var (t, o) := ServerStep(cfg, was, Timeout);
      if t.phase == was.phase {
        ServerPatience(cfg, inbox, n + 1, t, Logged(before, o), s, sent);
      } else {
        ServerStays(cfg, inbox, n + 1, t, before);
      }
    }
  }

  /** A running client that has waited `w` timeouts survives exactly `11 - w` more in a row, each
      of them answered by one packet. */
  lemma PatienceExactly(cfg: Config, inbox: seq<Event>, n: nat, was: Client, before: seq<seq<byte>>,
                        c: Client, sent: seq<seq<byte>>)
    requires n <= |inbox| && (forall i :: n <= i < |inbox| ==> inbox[i] == Timeout)
    requires ClientRun(cfg, inbox[..n]) == (was, before) && was.phase == Running
    requires ClientRun(cfg, inbox) == (c, sent)
    ensures var more := |inbox| - n;
            Waited(was) <= 11 && c.phase == (if Waited(was) + more <= 11 then Running else Stopped) &&
            |sent| == |before| + Least(more, 11 - Waited(was))
  {
    ClientGivesUp(cfg, inbox[..n]);
    ClientPatience(cfg, inbox, n, was, before, c, sent);
  }

  /** The same for the server, which repeats its packet once it serves and sends nothing before.
      While it waits for a request, damaged requests do not restart its count. */
  lemma ServerPatienceExactly(cfg: Config, inbox: seq<Event>, n: nat, was: Server, before: seq<seq<byte>>,
                              s: Server, sent: seq<seq<byte>>)
    requires n <= |inbox| && (forall i :: n <= i < |inbox| ==> inbox[i] == Timeout)
    requires ServerRun(cfg, inbox[..n]) == (was, before) && was.phase in {WaitFrq, Sending}
    requires ServerRun(cfg, inbox) == (s, sent)
    ensures var more := |inbox| - n;
            was.timeouts <= 11 && s.phase == (if was.timeouts + more <= 11 then was.phase else Exited) &&
            |sent| == |before| + if was.phase == Sending then Least(more, 11 - was.timeouts) else 0
  {
    ServerGivesUp(cfg, inbox[..n]);
    ServerPatience(cfg, inbox, n, was, before, s, sent);
  }
}
