/** What the chat server's threads guarantee, and where they lose messages. */
module ChatResults {
  import opened Chat
  import opened Ledger
  import opened ChatLocks
  import opened ChatServer

  // ---------- messages ----------

  function Reversed(r: seq<Message>): (s: seq<Message>) {
    if r == [] then [] else Reversed(r[1..]) + [r[0]]
  }

  /** All rounds, each in the order its messages were posted. */
  function Spelled(rounds: seq<seq<Message>>): seq<Message> {
    if rounds == [] then [] else Spelled(rounds[..|rounds| - 1]) + Reversed(rounds[|rounds| - 1])
  }

  lemma {:induction false} ReversedStretch(posted: seq<Message>, r: seq<Message>, end: nat)
    requires Stretch(posted, r, end)
    ensures Reversed(r) == posted[end - |r|..end]
  {
    if r != [] {
      var rest := r[1..];
      assert forall i :: 0 <= i < |rest| ==> rest[i] == r[i + 1];
      ReversedStretch(posted, rest, end - 1);
      assert posted[end - |r|..end] == posted[end - |r|..end - 1] + [posted[end - 1]];
    }
  }

  lemma {:induction false} InOrderSpells(posted: seq<Message>, rounds: seq<seq<Message>>)
    requires InOrder(posted, rounds)
    ensures Drained(rounds) <= |posted| && Spelled(rounds) == posted[..Drained(rounds)]
  {
    if rounds != [] {
      var earlier, r := rounds[..|rounds| - 1], rounds[|rounds| - 1];
      InOrderSpells(posted, earlier);
      ReversedStretch(posted, r, Drained(rounds));
      assert posted[..Drained(earlier)] + posted[Drained(earlier)..Drained(rounds)] == posted[..Drained(rounds)];
    }
  }

  /** Under every interleaving each posted message is either still queued or was taken off the
      queue by exactly one round, in the order of posting. */
  lemma EveryMessageDrainedOnce(who: seq<Profile>, st: State)
    requires Reachable(who, st)
    ensures Spelled(st.rounds) + Reversed(st.queue) == st.posted
  {
    ReachableInv(who, st);
    InOrderSpells(st.posted, st.rounds);
    ReversedStretch(st.posted, st.queue, |st.posted|);
  }

  lemma DispatchedCount(st: State, s: nat)
    requires QueueOk(st) && LogOk(st) && s < Drained(st.rounds)
    ensures multiset(st.dispatched)[st.posted[s]] == Copies(st.rounds, s)
  {
    LogCount(st.posted, st.rounds, s);
    if st.queue != [] {
      StretchPlace(st.posted, st.queue, |st.posted|, 0);
      RepeatCount(Done(st), st.queue[0], st.posted[s]);
      assert st.posted[s].serial == s;
    }
  }

  /** A round dispatches its newest message as often as it has messages, and its others never. */
  lemma RoundDispatches(who: seq<Profile>, st: State, j: nat, p: nat)
    requires Reachable(who, st) && j < |st.rounds| && p < |st.rounds[j]|
    ensures multiset(st.dispatched)[st.rounds[j][p]] == if p == 0 then |st.rounds[j]| else 0
  {
    ReachableInv(who, st);
    RoundPlace(st.posted, st.rounds, j, p);
    DispatchedCount(st, st.rounds[j][p].serial);
  }

  /** Every drained message has been dispatched exactly once precisely when no round ever found
      more than one message in the queue. */
  lemma NothingLostExactly(who: seq<Profile>, st: State)
    requires Reachable(who, st)
    ensures (forall m <- Spelled(st.rounds) :: multiset(st.dispatched)[m] == 1) <==>
            forall r <- st.rounds :: |r| <= 1
  {
    ReachableInv(who, st);
    InOrderSpells(st.posted, st.rounds);
    var d := Drained(st.rounds);
    forall s | 0 <= s < d ensures multiset(st.dispatched)[st.posted[s]] == Copies(st.rounds, s) {
      DispatchedCount(st, s);
    }
    OnceExactly(st.rounds);
    assert (forall m <- Spelled(st.rounds) :: multiset(st.dispatched)[m] == 1) <==> SentOnce(st.rounds) by {
      if s :| 0 <= s < d && Copies(st.rounds, s) != 1 {
        assert st.posted[s] in Spelled(st.rounds);
      }
      forall m <- Spelled(st.rounds) | SentOnce(st.rounds) ensures multiset(st.dispatched)[m] == 1 {
        var s :| 0 <= s < d && st.posted[s] == m;
      }
    }
  }

  lemma ReachNext(who: seq<Profile>, st: State, a: Action) returns (t: State)
    requires Reachable(who, st) && |st.pcs| == |who| && Enabled(who, st, a)
    ensures t == Next(who, st, a) && Reachable(who, t)
  {
    t := Next(who, st, a);
    var run :| IsRun(who, Start(|who|), run) && After(who, Start(|who|), run) == st;
    RunThen(who, Start(|who|), run, a);
  }

  lemma {:induction false} RunThen(who: seq<Profile>, st: State, run: seq<Action>, a: Action)
    requires IsRun(who, st, run) && |After(who, st, run).pcs| == |who| && Enabled(who, After(who, st, run), a)
    ensures IsRun(who, st, run + [a]) && After(who, st, run + [a]) == Next(who, After(who, st, run), a)
    decreases |run|
  {
    if run == [] {
      assert run + [a] == [a] && [a][1..] == [];
    } else {
      assert (run + [a])[1..] == run[1..] + [a];
      RunThen(who, Next(who, st, run[0]), run[1..], a);
    }
  }

  lemma ReachStart(who: seq<Profile>)
    ensures Reachable(who, Start(|who|))
  {
    assert IsRun(who, Start(|who|), []) && After(who, Start(|who|), []) == Start(|who|);
  }

  /** A client asks for a lock that is free, gets it and does its job. */
  lemma Turn(who: seq<Profile>, st: State, i: nat, job: Job) returns (t: State)
    requires Reachable(who, st) && |st.pcs| == |who| > i && st.memberLock == st.messageLock == Nobody
    requires st.pcs[i].Free? && Follows(st.pcs[i].stage, job)
    ensures Reachable(who, t) && t == Work(who, st, i, job).(pcs := st.pcs[i := Free(Stop(job))])
  {
    t := ReachNext(who, st, Ask(i, job));
    t := ReachNext(who, t, Grant(i));
    t := ReachNext(who, t, Finish(i));
    assert t.pcs == st.pcs[i := Free(Stop(job))];
  }

  /** A new client goes through to the conversation. */
  lemma Enter(who: seq<Profile>, st: State, i: nat) returns (t: State)
    requires Reachable(who, st) && |st.pcs| == |who| > i && st.memberLock == st.messageLock == Nobody
    requires Enabled(who, st, Accept(i))
    ensures Reachable(who, t)
    ensures t == st.(members := [Record(who, i)] + st.members, pcs := st.pcs[i := Free(Inside)])
  {
    t := ReachNext(who, st, Accept(i));
    t := Turn(who, t, i, Announce);
    t := Turn(who, t, i, Join);
    assert t.pcs == st.pcs[i := Free(Inside)];
  }

  /** One iteration of the dispatcher's loop. */
  lemma Iteration(who: seq<Profile>, st: State) returns (t: State)
    requires Reachable(who, st) && |st.pcs| == |who| && st.memberLock == Nobody
    requires st.dispatcher.Scanning? && st.dispatcher.k < |st.queue| && Routable(st.queue[0])
    ensures Reachable(who, t)
    ensures t == st.(dispatcher := Scanning(st.dispatcher.k + 1), wire := st.wire + Deliver(st.members, st.queue[0]),
                     dispatched := st.dispatched + [st.queue[0]])
  {
    t := ReachNext(who, st, Dispatch);
    t := ReachNext(who, t, Dispatch);
    t := ReachNext(who, t, Dispatch);
  }

  lemma TwoPosted(who: seq<Profile>) returns (st: State)
    requires |who| > 0
    ensures Reachable(who, st) && |st.pcs| == |who| && st.memberLock == st.messageLock == Nobody
    ensures st.dispatcher == Outside && st.rounds == [] && st.dispatched == []
    ensures |st.posted| == 2 && st.posted[0] != st.posted[1] && st.queue == [st.posted[1], st.posted[0]]
    ensures Routable(st.queue[0])
  {
    ReachStart(who);
    st := Enter(who, Start(|who|), 0);
    st := Turn(who, st, 0, Post("a"));
    st := Turn(who, st, 0, Post("b"));
  }

  /** Two messages posted before the dispatcher runs: the newer goes out twice, the older never. */
  lemma MessageLost(who: seq<Profile>) returns (st: State)
    requires |who| > 0
    ensures Reachable(who, st) && |st.posted| == 2 && st.posted[0] != st.posted[1]
    ensures st.queue == [] && st.rounds == [[st.posted[1], st.posted[0]]]
    ensures st.dispatched == [st.posted[1], st.posted[1]]
  {
    st := TwoPosted(who);
    st := ReachNext(who, st, Dispatch);
    st := Iteration(who, st);
    st := Iteration(who, st);
    st := ReachNext(who, st, Dispatch);
  }

  // ---------- a client's thread ----------

  /** The critical sections client `i` asks for in a run, in order. */
  function Asked(run: seq<Action>, i: nat): seq<Job> {
    if run == [] then []
    else if run[0].Ask? && run[0].i == i then [run[0].job] + Asked(run[1..], i)
    else Asked(run[1..], i)
  }

  predicate Accepts(stage: Stage, jobs: seq<Job>)
    decreases |jobs|
  {
    jobs == [] || (Follows(stage, jobs[0]) && Accepts(Stop(jobs[0]), jobs[1..]))
  }

  /** Perhaps the group list, then the login notice, then joining, then any messages, then leaving;
      or less. */
  predicate ThreadOrder(jobs: seq<Job>) {
    var n := if jobs != [] && jobs[0] == ListGroups then 1 else 0;
    && (|jobs| > n ==> jobs[n] == Announce)
    && (|jobs| > n + 1 ==> jobs[n + 1] == Join)
    && forall k :: n + 2 <= k < |jobs| ==> MessageOrLast(jobs, k)
  }

  predicate MessageOrLast(jobs: seq<Job>, k: nat)
    requires k < |jobs|
  {
    match jobs[k]
    case Post(text) => !Parse(text).NoTarget?
    case Leave => k == |jobs| - 1
    case _ => false
  }

  lemma {:induction false} InsideOrder(jobs: seq<Job>)
    ensures Accepts(Inside, jobs) <==> forall k :: 0 <= k < |jobs| ==> MessageOrLast(jobs, k)
  {
    if jobs != [] {
      var rest := jobs[1..];
      InsideOrder(rest);
      assert forall k :: 1 <= k < |jobs| ==> (MessageOrLast(jobs, k) <==> MessageOrLast(rest, k - 1));
      if jobs[0].Leave? {
        assert Accepts(Inside, jobs) <==> rest == [];
        assert MessageOrLast(jobs, 0) <==> rest == [];
      } else if MessageOrLast(jobs, 0) {
        assert Accepts(Inside, jobs) <==> Accepts(Inside, rest);
        assert forall k :: 0 <= k < |rest| ==> (MessageOrLast(jobs, k + 1) <==> MessageOrLast(rest, k));
      }
    }
  }

  lemma AnnounceOrder(jobs: seq<Job>, n: nat)
    requires n <= |jobs| && (n < |jobs| ==> jobs[n] != ListGroups)
    ensures Accepts(Fresh, jobs[n..]) <==>
            (|jobs| > n ==> jobs[n] == Announce) && (|jobs| > n + 1 ==> jobs[n + 1] == Join) &&
            forall k :: n + 2 <= k < |jobs| ==> MessageOrLast(jobs, k)
    ensures Accepts(Listed, jobs[n..]) <==> Accepts(Fresh, jobs[n..])
  {
    if n + 2 <= |jobs| {
      var rest := jobs[n + 2..];
      assert jobs[n..][1..] == jobs[n + 1..] && jobs[n + 1..][1..] == rest;
      InsideOrder(rest);
      assert forall k :: n + 2 <= k < |jobs| ==> (MessageOrLast(jobs, k) <==> MessageOrLast(rest, k - n - 2));
      assert forall k :: 0 <= k < |rest| ==> (MessageOrLast(jobs, k + n + 2) <==> MessageOrLast(rest, k));
    }
  }

  lemma ThreadOrderExactly(jobs: seq<Job>)
    ensures Accepts(Fresh, jobs) <==> ThreadOrder(jobs)
  {
    assert jobs[0..] == jobs;
    if jobs != [] && jobs[0] == ListGroups {
      if |jobs| > 1 && jobs[1] == ListGroups {
        assert !Accepts(Listed, jobs[1..]);
      } else {
        AnnounceOrder(jobs, 1);
      }
    } else {
      AnnounceOrder(jobs, 0);
    }
  }

  function StageOf(pc: Pc): Stage {
    match pc
    case Free(stage) => if stage.Absent? then Fresh else stage
    case Waiting(job) => Stop(job)
    case Holding(job) => Stop(job)
  }

  lemma {:induction false} AskedAccepted(who: seq<Profile>, st: State, run: seq<Action>, i: nat)
    requires IsRun(who, st, run) && i < |st.pcs|
    ensures Accepts(StageOf(st.pcs[i]), Asked(run, i))
    decreases |run|
  {
    if run != [] {
      AskedAccepted(who, Next(who, st, run[0]), run[1..], i);
    }
  }

  /** In every run each client goes through its sections in the order of its thread's code. */
  lemma ClientsInOrder(who: seq<Profile>, run: seq<Action>, i: nat)
    requires IsRun(who, Start(|who|), run) && i < |who|
    ensures ThreadOrder(Asked(run, i))
  {
    AskedAccepted(who, Start(|who|), run, i);
    ThreadOrderExactly(Asked(run, i));
  }

  lemma {:induction false} SoloFrom(who: seq<Profile>, st: State, jobs: seq<Job>) returns (run: seq<Action>)
    requires |st.pcs| == |who| > 0 && st.memberLock == st.messageLock == Nobody
    requires st.pcs[0].Free? && Accepts(st.pcs[0].stage, jobs)
    ensures IsRun(who, st, run) && Asked(run, 0) == jobs
    decreases |jobs|
  {
    if jobs == [] {
      run := [];
    } else {
      var asked := Next(who, st, Ask(0, jobs[0]));
      var granted := Next(who, asked, Grant(0));
      var done := Next(who, granted, Finish(0));
      var rest := SoloFrom(who, done, jobs[1..]);
      var r1 := [Finish(0)] + rest;
      var r2 := [Grant(0)] + r1;
      run := [Ask(0, jobs[0])] + r2;
      assert r1[1..] == rest && r2[1..] == r1 && run[1..] == r2;
      assert IsRun(who, granted, r1) && IsRun(who, asked, r2);
      assert Asked(r2, 0) == Asked(r1, 0) == Asked(rest, 0);
    }
  }

  /** And every such sequence of sections occurs in a run. */
  lemma AllOrdersOccur(who: seq<Profile>, jobs: seq<Job>) returns (run: seq<Action>)
    requires |who| > 0 && ThreadOrder(jobs)
    ensures IsRun(who, Start(|who|), run) && Asked(run, 0) == jobs
  {
    ThreadOrderExactly(jobs);
    var st := Next(who, Start(|who|), Accept(0));
    var rest := SoloFrom(who, st, jobs);
    run := [Accept(0)] + rest;
    assert run[1..] == rest;
  }

  // ---------- recipients ----------

  /** Client `j`'s record makes the dispatcher send `m` on client `i`'s descriptor. */
  predicate Shares(who: seq<Profile>, st: State, m: Message, i: nat, j: nat)
    requires |st.pcs| == |who| && i < |who| && j < |who|
  {
    j != i && Linked(st.pcs[j]) && who[j].fd == who[i].fd && Addressed(m, Record(who, j))
  }

  predicate Shared(who: seq<Profile>, st: State, m: Message, i: nat)
    requires |st.pcs| == |who| && i < |who|
  {
    exists j :: 0 <= j < |who| && Shares(who, st, m, i, j)
  }

  predicate MeantFor(who: seq<Profile>, st: State, m: Message, i: nat)
    requires |st.pcs| == |who| && i < |who|
  {
    Linked(st.pcs[i]) && Addressed(m, Record(who, i))
  }

  /** An addressed member on socket `fd` that is not record `id`. */
  predicate OtherOn(members: seq<Member>, m: Message, fd: nat, id: nat) {
    exists k :: 0 <= k < |members| && members[k].id != id && OnSocket(m, fd, members[k])
  }

  lemma ListedCount(members: seq<Member>, m: Message, k: nat)
    requires Routable(m) && k < |members| && DistinctRecords(members)
    ensures multiset(Deliver(members, m))[Sent(members[k].fd, Line(m))] ==
            (if Addressed(m, members[k]) then 1 else 0) <==>
            !OtherOn(members, m, members[k].fd, members[k].id)
  {
    DeliverExactly(members, m, k);
  }

  lemma UnlistedCount(members: seq<Member>, m: Message, fd: nat, id: nat)
    requires Routable(m) && forall k :: 0 <= k < |members| ==> members[k].id != id
    ensures multiset(Deliver(members, m))[Sent(fd, Line(m))] == 0 <==> !OtherOn(members, m, fd, id)
  {
    DeliverCount(members, m, fd);
    if k :| 0 <= k < |members| && OnSocket(m, fd, members[k]) {
      assert k in Targets(members, m, fd);
    } else {
      assert Targets(members, m, fd) == {};
    }
  }

  lemma SharedPlace(who: seq<Profile>, st: State, m: Message, i: nat)
    requires MembersOk(who, st) && i < |who|
    ensures Shared(who, st, m, i) <==> OtherOn(st.members, m, who[i].fd, i)
  {
    if Shared(who, st, m, i) {
      var j :| 0 <= j < |who| && Shares(who, st, m, i, j);
      var k :| 0 <= k < |st.members| && st.members[k] == Record(who, j);
      assert st.members[k].id != i && OnSocket(m, who[i].fd, st.members[k]);
    }
    if k :| 0 <= k < |st.members| && st.members[k].id != i && OnSocket(m, who[i].fd, st.members[k]) {
      assert st.members[k] in st.members && Known(who, st.members[k]);
      assert Shares(who, st, m, i, st.members[k].id);
    }
  }

  /** Dispatching `m` sends its line on client `i`'s descriptor as often as `i` should get it. */
  predicate RightlySent(who: seq<Profile>, st: State, m: Message, i: nat)
    requires |st.pcs| == |who| && i < |who| && Routable(m)
  {
    multiset(Deliver(st.members, m))[Sent(who[i].fd, Line(m))] == if MeantFor(who, st, m, i) then 1 else 0
  }

  lemma RightSends(who: seq<Profile>, st: State, m: Message, i: nat)
    requires MembersOk(who, st) && i < |who| && Routable(m)
    ensures RightlySent(who, st, m, i) <==> !Shared(who, st, m, i)
  {
    SharedPlace(who, st, m, i);
    if Linked(st.pcs[i]) {
      var k :| 0 <= k < |st.members| && st.members[k] == Record(who, i);
      ListedCount(st.members, m, k);
    } else {
      forall k | 0 <= k < |st.members| ensures st.members[k].id != i {
        assert st.members[k] in st.members && Known(who, st.members[k]);
      }
      UnlistedCount(st.members, m, who[i].fd, i);
    }
  }

  lemma SharerLeaves(who: seq<Profile>, st: State, i: nat, j: nat)
    requires SocketsOk(who, st) && LocksOk(st) && st.dispatcher.Sending? && i < |who| && j < |who|
    requires Open(st.pcs[i]) && j != i && Linked(st.pcs[j]) && who[j].fd == who[i].fd
    ensures st.pcs[j] == Waiting(Leave)
  {
    assert !HoldsMembers(st.pcs[j]);
  }

  /** One dispatch sends the line once on the descriptor of each client that is linked at that
      moment and is addressed, and no line on any other's, exactly if no addressed record of
      another client has the same descriptor. While a client's socket is open, such a record's
      client has closed its own and waits to be unlinked. */
  lemma DispatchReaches(who: seq<Profile>, st: State, i: nat)
    requires Reachable(who, st) && st.dispatcher.Sending? && i < |who|
    ensures st.queue != [] && Routable(st.queue[0]) && |st.pcs| == |who|
    ensures var m := st.queue[0];
            var sends := Deliver(st.members, m);
            && DispatchStep(st).wire == st.wire + sends
            && (forall s <- sends :: s.text == Line(m))
            && (RightlySent(who, st, m, i) <==> !Shared(who, st, m, i))
            && (Open(st.pcs[i]) ==>
                forall j :: 0 <= j < |who| && Shares(who, st, m, i, j) ==> st.pcs[j] == Waiting(Leave))
  {
    ReachableInv(who, st);
    var m := st.queue[0];
    RightSends(who, st, m, i);
    DeliverCount(st.members, m, who[i].fd);
    forall j | 0 <= j < |who| && Shares(who, st, m, i, j) && Open(st.pcs[i]) ensures st.pcs[j] == Waiting(Leave) {
      SharerLeaves(who, st, i, j);
    }
  }

  lemma {:induction false} IdsCount(members: seq<Member>, places: set<nat>)
    requires DistinctRecords(members) && forall k <- places :: k < |members|
    ensures |set k | k in places :: members[k].id| == |places|
  {
    if places != {} {
      var k :| k in places;
      var fewer := places - {k};
      IdsCount(members, fewer);
      assert (set j | j in places :: members[j].id) == (set j | j in fewer :: members[j].id) + {members[k].id};
    }
  }

  /** The listed members with some property on a socket are as many as the linked clients with it. */
  lemma ClientsCount(who: seq<Profile>, st: State, places: set<nat>, clients: set<nat>)
    requires MembersOk(who, st)
    requires forall k <- places :: k < |st.members|
    requires forall i <- clients :: i < |who|
    requires forall k :: 0 <= k < |st.members| ==> (k in places <==> st.members[k].id in clients)
    requires forall i <- clients :: Linked(st.pcs[i])
    ensures |places| == |clients|
  {
    IdsCount(st.members, places);
    forall i <- clients ensures exists k :: k in places && st.members[k].id == i {
      var k :| 0 <= k < |st.members| && st.members[k] == Record(who, i);
      assert k in places;
    }
    assert clients == set k | k in places :: st.members[k].id;
  }

  lemma KnownMembers(who: seq<Profile>, st: State)
    requires MembersOk(who, st)
    ensures forall k :: 0 <= k < |st.members| ==>
              var i := st.members[k].id; i < |who| && st.members[k] == Record(who, i) && Linked(st.pcs[i])
  {
    forall k | 0 <= k < |st.members|
      ensures var i := st.members[k].id; i < |who| && st.members[k] == Record(who, i) && Linked(st.pcs[i])
    {
      assert st.members[k] in st.members && Known(who, st.members[k]);
    }
  }

  lemma Dispatching(who: seq<Profile>, st: State) returns (m: Message)
    requires Reachable(who, st) && st.dispatcher.Sending?
    ensures st.queue != [] && m == st.queue[0] && Routable(m) && MembersOk(who, st)
    ensures var wire := DispatchStep(st).wire; st.wire <= wire && wire[|st.wire|..] == Deliver(st.members, m)
    ensures forall k :: 0 <= k < |st.members| ==>
              var i := st.members[k].id; i < |who| && st.members[k] == Record(who, i) && Linked(st.pcs[i])
  {
    ReachableInv(who, st);
    m := st.queue[0];
    KnownMembers(who, st);
  }

  /** What a dispatch of a group message sends on a descriptor, in every reachable state: the
      sender's name and text, once for each linked client of the group. */
  lemma DispatchToGroup(who: seq<Profile>, st: State, fd: nat)
    requires Reachable(who, st) && st.dispatcher.Sending?
    requires st.queue != [] ==> !("/W " <= st.queue[0].text)
    ensures st.queue != [] && Routable(st.queue[0]) && |st.pcs| == |who|
    ensures var m, wire := st.queue[0], DispatchStep(st).wire;
            var line := m.from + " : " + m.text + "\n";
            && st.wire <= wire && (forall s <- wire[|st.wire|..] :: s.text == line)
            && multiset(wire[|st.wire|..])[Sent(fd, line)] ==
               |set i: nat | i < |who| && Linked(st.pcs[i]) && who[i].fd == fd && who[i].group == m.group|
  {
    var m := Dispatching(who, st);
    GroupReaches(st.members, m, fd);
    ClientsCount(who, st,
      set k: nat | k < |st.members| && st.members[k].fd == fd && st.members[k].group == m.group,
      set i: nat | i < |who| && Linked(st.pcs[i]) && who[i].fd == fd && who[i].group == m.group);
  }

  /** And of a private one: the sender's name and the body, once for each linked client whose
      group or whose name is the target. */
  lemma DispatchPrivately(who: seq<Profile>, st: State, gap: nat, target: string, body: string, fd: nat)
    requires Reachable(who, st) && st.dispatcher.Sending?
    requires st.queue != [] ==> Private(st.queue[0].text, gap, target, body)
    ensures st.queue != [] && Routable(st.queue[0]) && |st.pcs| == |who|
    ensures var m, wire := st.queue[0], DispatchStep(st).wire;
            var line := m.from + " : " + body + "\n";
            && st.wire <= wire && (forall s <- wire[|st.wire|..] :: s.text == line)
            && multiset(wire[|st.wire|..])[Sent(fd, line)] ==
               |set i: nat | i < |who| && Linked(st.pcs[i]) && who[i].fd == fd &&
                             (who[i].group == target || who[i].name == target)|
  {
    var m := Dispatching(who, st);
    WhisperReaches(st.members, m, gap, target, body, fd);
    ClientsCount(who, st,
      set k: nat | k < |st.members| && st.members[k].fd == fd &&
                   (st.members[k].group == target || st.members[k].name == target),
      set i: nat | i < |who| && Linked(st.pcs[i]) && who[i].fd == fd &&
                   (who[i].group == target || who[i].name == target));
  }

  /** A client posts its last message and closes its socket; the next one gets the descriptor. */
  lemma PostAndClose(who: seq<Profile>) returns (st: State)
    requires |who| == 2 && who[0].fd == who[1].fd
    ensures Reachable(who, st) && st.pcs == [Waiting(Leave), Free(Inside)]
    ensures st.memberLock == st.messageLock == Nobody && st.dispatcher == Outside
    ensures st.members == [Record(who, 1), Record(who, 0)]
    ensures st.queue == [Message(0, who[0].name, who[0].group, "x")] && st.wire == [] && st.dispatched == []
  {
    ReachStart(who);
    st := Enter(who, Start(2), 0);
    st := Turn(who, st, 0, Post("x"));
    st := ReachNext(who, st, Ask(0, Leave));
    st := Enter(who, st, 1);
  }

  lemma OnlyFirst(who: seq<Profile>, m: Message)
    requires |who| == 2 && Routable(m) && Addressed(m, Record(who, 0)) && !Addressed(m, Record(who, 1))
    ensures Deliver([Record(who, 1), Record(who, 0)], m) == [Sent(who[0].fd, Line(m))]
  {
    var list := [Record(who, 1), Record(who, 0)];
    assert list[..1] == [Record(who, 1)] && list[..1][..0] == [];
    assert Deliver(list[..1], m) == [];
  }

  /** The last message reaches the newcomer, who is in another group. */
  lemma SocketReused() returns (who: seq<Profile>, st: State)
    ensures Reachable(who, st) && |who| == |st.pcs| == 2 && who[1].group == "h"
    ensures st.pcs == [Waiting(Leave), Free(Inside)]
    ensures st.dispatched == [Message(0, "a", "g", "x")] && st.wire == [Sent(who[1].fd, "a : x\n")]
  {
    who := [Profile(5, "a", "g"), Profile(5, "b", "h")];
    st := PostAndClose(who);
    var m := st.queue[0];
    assert Parse(m.text) == Local("x") && Line(m) == "a : x\n";
    OnlyFirst(who, m);
    st := ReachNext(who, st, Dispatch);
    st := Iteration(who, st);
  }

  // ---------- one round, undisturbed ----------

  /** Steps the dispatcher needs to let go of the message lock. */
  function ToGo(st: State): nat
    requires Done(st) <= |st.queue|
  {
    var left := 4 * (|st.queue| - Done(st));
    match st.dispatcher
    case Outside => 0
    case Scanning(_) => left + 3
    case Asking(_) => left + 1
    case Sending(_) => left
  }

  /** The dispatcher's steps to the end of its round, with no client step in between. */
  function RestOfRound(st: State): State
    requires LogOk(st) && TextsOk(st) && (st.memberLock == Nobody || st.dispatcher.Sending?)
    decreases ToGo(st)
  {
    if st.dispatcher.Outside? then st
    else
      assert st.dispatcher.Sending? ==> st.queue[0] in st.queue;
      if st.dispatcher.Sending? then MessageSent(st); RestOfRound(DispatchStep(st))
      else if st.dispatcher == Scanning(|st.queue|) then DispatchStep(st)
      else RestOfRound(DispatchStep(st))
  }

  lemma {:induction false} RepeatFront<T>(n: nat, x: seq<T>)
    ensures Repeat(n + 1, x) == x + Repeat(n, x)
  {
    if n > 0 {
      RepeatFront(n - 1, x);
      assert Repeat(n + 1, x) == x + Repeat(n - 1, x) + x;
    }
  }

  /** One iteration of the loop. */
  lemma RestAfterOne(st: State) returns (t: State)
    requires LogOk(st) && TextsOk(st) && st.memberLock == Nobody
    requires st.dispatcher.Scanning? && Done(st) < |st.queue|
    ensures Routable(st.queue[0])
    ensures t == st.(dispatcher := Scanning(Done(st) + 1), dispatched := st.dispatched + [st.queue[0]],
                     wire := st.wire + Deliver(st.members, st.queue[0]))
    ensures LogOk(t) && TextsOk(t) && RestOfRound(st) == RestOfRound(t)
  {
    assert st.queue[0] in st.queue;
    var asking := DispatchStep(st);
    var sending := DispatchStep(asking);
    MessageSent(sending);
    t := DispatchStep(sending);
    assert RestOfRound(st) == RestOfRound(asking) == RestOfRound(sending) == RestOfRound(t);
  }

  lemma {:induction false} RestSends(st: State)
    requires LogOk(st) && TextsOk(st) && st.memberLock == Nobody && st.dispatcher.Scanning? && st.queue != []
    ensures RestOfRound(st).queue == [] && RestOfRound(st).members == st.members
    ensures Routable(st.queue[0]) &&
            RestOfRound(st).wire == st.wire + Repeat(|st.queue| - Done(st), Deliver(st.members, st.queue[0]))
    decreases |st.queue| - Done(st)
  {
    assert st.queue[0] in st.queue;
    var left, once := |st.queue| - Done(st), Deliver(st.members, st.queue[0]);
    if left > 0 {
      var again := RestAfterOne(st);
      RestSends(again);
      RepeatFront(left - 1, once);
      Appended(st.wire, once, Repeat(left - 1, once));
    }
  }

  /** A round that no client interrupts sends what the dispatcher's loops over the two linked
      lists send: `ChatServer.Server.DispatchRound` ensures the same. */
  lemma UndisturbedRound(st: State)
    requires LogOk(st) && TextsOk(st) && st.memberLock == Nobody && st.dispatcher == Scanning(0)
    ensures RestOfRound(st).queue == [] && RestOfRound(st).members == st.members
    ensures (st.queue != [] ==> Routable(st.queue[0])) &&
            RestOfRound(st).wire == st.wire + Round(st.members, st.queue)
  {
    if st.queue != [] {
      RestSends(st);
    }
  }

  // ---------- locks ----------

  /** At most one client is in a section that uses the member list, and none while the dispatcher
      walks it; likewise for the message list, from the start of a round to its end. */
  lemma MutualExclusion(who: seq<Profile>, st: State)
    requires Reachable(who, st)
    ensures forall i, j :: 0 <= i < j < |st.pcs| && st.pcs[i].Holding? && st.pcs[j].Holding? ==>
              (st.pcs[i].job.Post? <==> !st.pcs[j].job.Post?)
    ensures forall i :: 0 <= i < |st.pcs| && st.pcs[i].Holding? ==>
              if st.pcs[i].job.Post? then st.dispatcher == Outside else !st.dispatcher.Sending?
  {
    ReachableInv(who, st);
    forall i | 0 <= i < |st.pcs| && st.pcs[i].Holding?
      ensures if st.pcs[i].job.Post? then st.messageLock == Client(i) else st.memberLock == Client(i)
    {
      assert HoldsMembers(st.pcs[i]) || HoldsMessages(st.pcs[i]);
    }
  }

  /** In every reachable state the dispatcher can step, or a client that holds a lock can. */
  lemma NoDeadlock(who: seq<Profile>, st: State)
    requires Reachable(who, st)
    ensures |st.pcs| == |who|
    ensures Enabled(who, st, Dispatch) || exists i :: Enabled(who, st, Finish(i))
  {
    ReachableInv(who, st);
    if st.dispatcher.Outside? && st.messageLock.Client? {
      assert HoldsMessages(st.pcs[st.messageLock.i]);
      assert Enabled(who, st, Finish(st.messageLock.i));
    } else if st.dispatcher.Asking? && st.memberLock.Client? {
      assert HoldsMembers(st.pcs[st.memberLock.i]);
      assert Enabled(who, st, Finish(st.memberLock.i));
    }
  }

  /** Some continuation leaves client `i` waiting as before, with its lock free. */
  ghost predicate CanGet(who: seq<Profile>, st: State, i: nat, job: Job) {
    exists run :: IsRun(who, st, run) &&
                  var t := After(who, st, run);
                  i < |t.pcs| == |who| && t.pcs[i] == Waiting(job) && Enabled(who, t, Grant(i))
  }

  lemma MoveFirst(who: seq<Profile>, st: State, a: Action, i: nat, job: Job)
    requires |who| == |st.pcs| && Enabled(who, st, a) && CanGet(who, Next(who, st, a), i, job)
    ensures CanGet(who, st, i, job)
  {
    var next := Next(who, st, a);
    var run :| IsRun(who, next, run) &&
               var t := After(who, next, run);
               i < |t.pcs| == |who| && t.pcs[i] == Waiting(job) && Enabled(who, t, Grant(i));
    var longer := [a] + run;
    assert longer[1..] == run;
    assert IsRun(who, st, longer) && After(who, st, longer) == After(who, next, run);
  }

  function Rank(st: State, job: Job): nat
    requires Done(st) <= |st.queue|
  {
    if LockFor(st, job) == Nobody then 0
    else 1 + ToGo(st) + (if st.memberLock.Client? then 1 else 0) + (if st.messageLock.Client? then 1 else 0)
  }

  /** Who moves next so that a waiting client gets nearer to its lock. */
  function Mover(st: State, job: Job): Action {
    match LockFor(st, job)
    case Client(j) => Finish(j)
    case _ => if st.dispatcher.Asking? && st.memberLock.Client? then Finish(st.memberLock.i) else Dispatch
  }

  lemma MoverCan(who: seq<Profile>, st: State, i: nat)
    requires Inv(who, st) && i < |who| && st.pcs[i].Waiting?
    requires LockFor(st, st.pcs[i].job) != Nobody
    ensures var a := Mover(st, st.pcs[i].job);
            Enabled(who, st, a) && (a == Dispatch || (a.Finish? && a.i != i))
  {
    var a := Mover(st, st.pcs[i].job);
    if a.Finish? {
      assert HoldsMembers(st.pcs[a.i]) || HoldsMessages(st.pcs[a.i]);
    }
  }

  lemma FinishNears(who: seq<Profile>, st: State, i: nat, j: nat)
    requires |who| == |st.pcs| && i < |who| && st.pcs[i].Waiting? && Enabled(who, st, Finish(j)) && j != i
    requires LocksOk(st) && Done(st) <= |st.queue| && LockFor(st, st.pcs[i].job) != Nobody
    requires st.pcs[j].job.Post? ==> st.dispatcher.Outside?
    ensures var t := Next(who, st, Finish(j));
            t.pcs[i] == st.pcs[i] && Done(t) <= |t.queue| && Rank(t, st.pcs[i].job) < Rank(st, st.pcs[i].job)
  {
    assert HoldsMembers(st.pcs[j]) || HoldsMessages(st.pcs[j]);
  }

  lemma ToGoFalls(st: State)
    requires CanDispatch(st) && !st.dispatcher.Outside? && Done(st) <= |st.queue|
    requires st.dispatcher.Asking? || st.dispatcher.Sending? ==> Done(st) < |st.queue|
    ensures var t := DispatchStep(st); t.pcs == st.pcs && Done(t) <= |t.queue| && ToGo(t) < ToGo(st)
  {
  }

  lemma DispatchNears(st: State, job: Job)
    requires CanDispatch(st) && !st.dispatcher.Outside? && Done(st) <= |st.queue| && LockFor(st, job) != Nobody
    requires st.dispatcher.Asking? || st.dispatcher.Sending? ==> Done(st) < |st.queue|
    requires st.memberLock == Dispatcher <==> st.dispatcher.Sending?
    requires st.messageLock == Dispatcher
    ensures var t := DispatchStep(st); t.pcs == st.pcs && Done(t) <= |t.queue| && Rank(t, job) < Rank(st, job)
  {
    ToGoFalls(st);
    RankFalls(st, DispatchStep(st), job);
  }

  lemma RankFalls(st: State, t: State, job: Job)
    requires Done(st) <= |st.queue| && Done(t) <= |t.queue| && LockFor(st, job) != Nobody && ToGo(t) < ToGo(st)
    requires t.memberLock.Client? ==> st.memberLock.Client?
    requires t.messageLock.Client? ==> st.messageLock.Client?
    ensures Rank(t, job) < Rank(st, job)
  {
  }

  lemma MoverNears(who: seq<Profile>, st: State, i: nat)
    requires Inv(who, st) && i < |who| && st.pcs[i].Waiting? && LockFor(st, st.pcs[i].job) != Nobody
    requires var a := Mover(st, st.pcs[i].job);
             Enabled(who, st, a) && (a == Dispatch || (a.Finish? && a.i != i)) && Inv(who, Next(who, st, a))
    ensures var job := st.pcs[i].job;
            var t := Next(who, st, Mover(st, job));
            t.pcs[i] == st.pcs[i] && Rank(t, job) < Rank(st, job)
  {
    var a := Mover(st, st.pcs[i].job);
    if a == Dispatch {
      DispatchNears(st, st.pcs[i].job);
    } else {
      assert HoldsMembers(st.pcs[a.i]) || HoldsMessages(st.pcs[a.i]);
      FinishNears(who, st, i, a.i);
    }
  }

  lemma MoverHelps(who: seq<Profile>, st: State, i: nat)
    requires Inv(who, st) && i < |who| && st.pcs[i].Waiting? && LockFor(st, st.pcs[i].job) != Nobody
    ensures var job := st.pcs[i].job;
            var a := Mover(st, job);
            Enabled(who, st, a) && Inv(who, Next(who, st, a)) &&
            Next(who, st, a).pcs[i] == st.pcs[i] && Rank(Next(who, st, a), job) < Rank(st, job)
  {
    MoverCan(who, st, i);
    InvNext(who, st, Mover(st, st.pcs[i].job));
    MoverNears(who, st, i);
  }

  lemma {:induction false} Served(who: seq<Profile>, st: State, i: nat)
    requires Inv(who, st) && i < |who| && st.pcs[i].Waiting?
    ensures CanGet(who, st, i, st.pcs[i].job)
    decreases Rank(st, st.pcs[i].job)
  {
    var job := st.pcs[i].job;
    if LockFor(st, job) == Nobody {
      assert IsRun(who, st, []) && After(who, st, []) == st;
    } else {
      MoverHelps(who, st, i);
      var a := Mover(st, job);
      Served(who, Next(who, st, a), i);
      MoveFirst(who, st, a, i, job);
    }
  }

  /** No client ever waits for a lock it can no longer get, with any number of clients. */
  lemma EveryWaiterCanBeServed(who: seq<Profile>, st: State, i: nat)
    requires Reachable(who, st) && i < |st.pcs| && st.pcs[i].Waiting?
    ensures CanGet(who, st, i, st.pcs[i].job)
  {
    ReachableInv(who, st);
    Served(who, st, i);
  }
}
