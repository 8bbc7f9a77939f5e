/** Exactly when the transfer is safe, with the runs that break it otherwise. */
module EndToEnd {
  import opened Words
  import opened Checksum
  import opened Numbering
  import opened Packets
  import opened Endpoints
  import opened Transfer
  import opened Delivery
  import opened Safety
  import opened Exchange

  // ---------- the undisturbed run ----------

  ghost predicate AllSent(cfg: Config, net: set<Msg>, k: nat) {
    forall i :: 1 <= i <= k ==> DataOf(cfg, i) in net
  }

  ghost predicate AllAnswered(cfg: Config, net: set<Msg>, k: nat) {
    forall i :: 1 <= i <= k ==> ReplyTo(cfg, i) in net
  }

  /** The client has accepted `k` chunks, the server has just sent the next one, and all earlier
      packets are still about. */
  ghost predicate Midway(cfg: Config, sys: System, k: nat) {
    && Resumable(cfg, sys) && sys.server.chunk == k + 1 && sys.client.got == k
    && RequestOf(cfg) in sys.toServer
    && AllSent(cfg, sys.toClient, k + 1) && AllAnswered(cfg, sys.toServer, k)
  }

  lemma ReachNext(cfg: Config, sys: System, a: Action, lifetime: nat)
    requires Reachable(cfg, sys, lifetime) && Enabled(sys, a) && Recent(sys, a, lifetime)
    ensures Reachable(cfg, Next(cfg, sys, a), lifetime)
  {
    var run :| IsRun(cfg, Start(cfg), run, lifetime) && After(cfg, Start(cfg), run, lifetime) == sys;
    RunThen(cfg, Start(cfg), run, a, lifetime);
  }

  lemma ReachFirst(cfg: Config, lifetime: nat) returns (sys: System)
    requires cfg.Valid()
    ensures Reachable(cfg, sys, lifetime) && Midway(cfg, sys, 0)
  {
    var start, a := Start(cfg), ToServer(RequestOf(cfg), Clean);
    assert IsRun(cfg, start, [], lifetime) && After(cfg, start, [], lifetime) == start;
    RequestArrives(cfg, start);
    ReachNext(cfg, start, a, lifetime);
    sys := Next(cfg, start, a);
  }

  lemma ReachData(cfg: Config, was: System, lifetime: nat) returns (sys: System)
    requires Reachable(cfg, was, lifetime) && lifetime >= 1
    requires Resumable(cfg, was) && was.client.got + 1 == was.server.chunk < Count(cfg.file)
    ensures var i := was.server.chunk;
            Reachable(cfg, sys, lifetime) && sys.server == was.server &&
            sys.client.phase == Running && ClientOk(cfg, sys.client) && sys.client.got == i &&
            sys.toClient == was.toClient && sys.toServer == was.toServer + {ReplyTo(cfg, i)}
  {
    var a := ToClient(DataOf(cfg, was.server.chunk), Clean);
    CurrentArrives(cfg, was);
    ReachNext(cfg, was, a, lifetime);
    sys := Next(cfg, was, a);
  }

  lemma ReachAnswer(cfg: Config, was: System, lifetime: nat) returns (sys: System)
    requires Reachable(cfg, was, lifetime) && lifetime >= 1
    requires was.server.phase == Sending && ServerOk(cfg, was.server) && was.server.chunk < Count(cfg.file)
    requires was.client.phase == Running && ClientOk(cfg, was.client) && was.client.got == was.server.chunk
    requires ReplyTo(cfg, was.server.chunk) in was.toServer
    ensures var i := was.server.chunk;
            Reachable(cfg, sys, lifetime) && sys.client == was.client && sys.server.chunk == i + 1 &&
            sys.toClient == was.toClient + {DataOf(cfg, i + 1)} && sys.toServer == was.toServer
    ensures Resumable(cfg, sys)
  {
    var a := ToServer(ReplyTo(cfg, was.server.chunk), Clean);
    AnswerArrives(cfg, was);
    ReachNext(cfg, was, a, lifetime);
    sys := Next(cfg, was, a);
  }

  lemma {:induction false} ReachMidway(cfg: Config, k: nat, lifetime: nat) returns (sys: System)
    requires cfg.Valid() && k < Count(cfg.file) && lifetime >= 1
    ensures Reachable(cfg, sys, lifetime) && Midway(cfg, sys, k)
  {
    if k == 0 {
      sys := ReachFirst(cfg, lifetime);
    } else {
      var was := ReachMidway(cfg, k - 1, lifetime);
      sys := ReachNextChunk(cfg, was, k, lifetime);
    }
  }

  /** One chunk further. */
  lemma ReachNextChunk(cfg: Config, was: System, k: nat, lifetime: nat) returns (sys: System)
    requires Reachable(cfg, was, lifetime) && lifetime >= 1
    requires 1 <= k < Count(cfg.file) && Midway(cfg, was, k - 1)
    ensures Reachable(cfg, sys, lifetime) && Midway(cfg, sys, k)
  {
    var mid := ReachData(cfg, was, lifetime);
    sys := ReachAnswer(cfg, mid, lifetime);
    MidwayGrows(cfg, was, sys, k);
  }

  lemma MidwayGrows(cfg: Config, was: System, sys: System, k: nat)
    requires k >= 1 && Resumable(cfg, sys) && RequestOf(cfg) in was.toServer
    requires AllSent(cfg, was.toClient, k) && AllAnswered(cfg, was.toServer, k - 1)
    requires sys.server.chunk == k + 1 && sys.client.got == k
    requires sys.toClient == was.toClient + {DataOf(cfg, k + 1)}
    requires sys.toServer == was.toServer + {ReplyTo(cfg, k)}
    ensures Midway(cfg, sys, k)
  {
    SentGrows(cfg, was.toClient, k);
    AnsweredGrows(cfg, was.toServer, k - 1);
  }

  lemma SentGrows(cfg: Config, net: set<Msg>, k: nat)
    requires AllSent(cfg, net, k)
    ensures AllSent(cfg, net + {DataOf(cfg, k + 1)}, k + 1)
  {
  }

  lemma AnsweredGrows(cfg: Config, net: set<Msg>, k: nat)
    requires AllAnswered(cfg, net, k)
    ensures AllAnswered(cfg, net + {ReplyTo(cfg, k + 1)}, k + 1)
  {
  }

  // ---------- what breaks it ----------

  lemma RequestAdvances(cfg: Config, mid: System, b: nat)
    requires cfg.Valid() && LooksLikeAck(cfg.name) && NameAsBlock(cfg.name) == b == Number(b) && b >= 1
    requires Midway(cfg, mid, b - 1)
    ensures var a := ToServer(RequestOf(cfg), Flipped(FRQ_TO_ACK));
            Enabled(mid, a) && Next(cfg, mid, a).client.got == b - 1 && Next(cfg, mid, a).server.chunk == b + 1
  {
    DamagedRequest(cfg, mid.server.ack, FRQ_TO_ACK, mid.server.block);
  }

  /** The request, delivered again with one bit inverted, acknowledges a chunk the client lacks. */
  lemma ForgedAck(cfg: Config, lifetime: nat) returns (sys: System)
    requires cfg.Valid() && RequestForgesAck(cfg) && lifetime >= 1
    ensures Reachable(cfg, sys, lifetime)
    ensures sys.server.chunk == NameAsBlock(cfg.name) + 1 && sys.client.got == NameAsBlock(cfg.name) - 1
  {
    var b := NameAsBlock(cfg.name);
    assert b >= 1 && Number(b) == b;
    var mid := ReachMidway(cfg, b - 1, lifetime);
    var a := ToServer(RequestOf(cfg), Flipped(FRQ_TO_ACK));
    RequestAdvances(cfg, mid, b);
    ReachNext(cfg, mid, a, lifetime);
    sys := Next(cfg, mid, a);
  }

  /** One step beyond the bound, the ACK of chunk 2 acknowledges chunk 65000 unseen. */
  lemma StaleAck(cfg: Config, lifetime: nat) returns (sys: System)
    requires cfg.Valid() && Count(cfg.file) >= 65000 && lifetime > CYCLE
    ensures Reachable(cfg, sys, lifetime)
    ensures sys.server.chunk == 65001 && sys.client.got == 64999
  {
    var mid := ReachMidway(cfg, 64999, lifetime);
    var a := ToServer(ReplyTo(cfg, 2), Clean);
    assert Number(65000) == Number(2) == 2;
    CleanControl(cfg, mid.server.ack, ACK, 2, mid.server.block);
    ReachNext(cfg, mid, a, lifetime);
    sys := Next(cfg, mid, a);
  }

  /** Equally, the client writes chunk 2 a second time in the place of chunk 65000. */
  lemma StaleData(cfg: Config, lifetime: nat) returns (sys: System)
    requires cfg.Valid() && Count(cfg.file) >= 65000 && lifetime > CYCLE
    ensures Reachable(cfg, sys, lifetime)
    ensures sys.client.got == 65000 && sys.client.out == Prefix(cfg.file, 64999) + Chunk(cfg.file, 2)
    ensures Chunk(cfg.file, 2) != Chunk(cfg.file, 65000) ==> sys.client.out != Prefix(cfg.file, 65000)
  {
    var mid := ReachMidway(cfg, 64999, lifetime);
    var a := ToClient(DataOf(cfg, 2), Clean);
    assert Number(2) == 2 && ClientBlock(64999) == 1;
    CleanData(cfg, mid.client.(first := 0, later := 0), 2);
    ReachNext(cfg, mid, a, lifetime);
    sys := Next(cfg, mid, a);
    ChunkSize(cfg.file, 65000);
    TailsDiffer(Prefix(cfg.file, 64999), Chunk(cfg.file, 2), Chunk(cfg.file, 65000));
  }

  lemma TailsDiffer(a: seq<byte>, b: seq<byte>, c: seq<byte>)
    ensures b != c ==> a + b != a + c
  {
    assert (a + b)[|a|..] == b && (a + c)[|a|..] == c;
  }

  // ---------- the theorem ----------

  /** The transfer is safe in every reachable state exactly when the file's name cannot pass for
      an ACK and either packets live less than one cycle of numbers or the file needs no cycle.
      With a lifetime of 0 nothing about any chunk is ever delivered. */
  lemma SafeExactly(cfg: Config, lifetime: nat)
    requires cfg.Valid() && lifetime >= 1
    ensures TransferIsSafe(cfg, lifetime) <==>
            !RequestForgesAck(cfg) && (lifetime <= 64998 || |cfg.file| / 512 + 1 < 65000)
  {
    if RequestForgesAck(cfg) {
      var sys := ForgedAck(cfg, lifetime);
      assert !Safe(cfg, sys);
    } else if lifetime <= CYCLE || Count(cfg.file) < 65000 {
      forall sys | Reachable(cfg, sys, lifetime) ensures Safe(cfg, sys) {
        ReachableInv(cfg, sys, lifetime);
        InvIsSafe(cfg, sys);
      }
    } else {
      var sys := StaleAck(cfg, lifetime);
      assert !Safe(cfg, sys);
    }
  }

  /** A name that passes for the ACK of block 12337, for any file of at least that many chunks. */
  lemma ForgingName(cfg: Config)
    requires cfg.name == [0x30, 0x31, 0x55, 0x55, 0x55, 0x56, 0x55, 0x56] && Count(cfg.file) >= 12337
    ensures cfg.Valid() && RequestForgesAck(cfg)
  {
    var t := Tail(cfg.name);
    assert t == [0x55, 0x55, 0x55, 0x56, 0x55, 0x56, 0];
    var u, v, w: seq<byte> := [0x55, 0x56, 0x55, 0x56, 0], [0x55, 0x56, 0], [0];
    assert t[2..] == u && u[2..] == v && v[2..] == w;
    assert WordSum(Big, w) == 0;
    assert WordSum(Big, v) == 0x5556;
    assert WordSum(Big, u) == 0x5556 + 0x5556;
    assert WordSum(Big, t) == 0x5555 + 0x5556 + 0x5556;
  }

  /** Files below 130 560 bytes, and names of up to four characters, are never affected. */
  lemma NeverForges(cfg: Config)
    requires cfg.Valid() && (|cfg.file| < 255 * 512 || |cfg.name| <= 4)
    ensures !RequestForgesAck(cfg)
  {
    var t := Tail(cfg.name);
    if |cfg.name| <= 2 {
      assert |t| <= 1 && forall i :: 0 <= i < |t| ==> t[i] == 0;
    } else if |cfg.name| <= 4 {
      assert t[0] == cfg.name[2] && |t| == |cfg.name| - 1 && t[|t| - 1] == 0;
      SumStep(Big, t);
      assert WordSum(Big, t[2..]) == 0;
    } else {
      assert NameAsBlock(cfg.name) >= 256;
    }
  }

  /** Five characters are enough. */
  lemma ShortestForgingName(cfg: Config)
    requires cfg.name == [0x30, 0x31, 0x80, 0x01, 0x80] && Count(cfg.file) >= 12337
    ensures cfg.Valid() && RequestForgesAck(cfg)
  {
    var t := Tail(cfg.name);
    assert t == [0x80, 0x01, 0x80, 0];
    var u: seq<byte> := [0x80, 0];
    assert t[2..] == u && u[2..] == [];
    assert WordSum(Big, u) == 0x8000;
    assert WordSum(Big, t) == 0x8001 + 0x8000;
  }
}
