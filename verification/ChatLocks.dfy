/** The chat server's threads: any number of clients and the dispatcher, under two mutexes. */
module ChatLocks {
  import opened Chat
  import opened Ledger

  /** A client that connects at some time; `fd` is the descriptor `accept` will return for it. */
  datatype Profile = Profile(fd: nat, name: string, group: string)

  function Record(who: seq<Profile>, i: nat): Member
    requires i < |who|
  {
    Member(i, who[i].fd, who[i].name, who[i].group)
  }

  /** How far a client's thread has come, between its critical sections. */
  datatype Stage = Absent | Fresh | Listed | Announced | Inside | Gone

  /** What it does in one. All but `Post` are under the member lock. */
  datatype Job = ListGroups | Announce | Join | Post(text: string) | Leave

  datatype Pc = Free(stage: Stage) | Waiting(job: Job) | Holding(job: Job)

  /** The dispatcher: outside; at the head of its loop with `k` rounds done; waiting for the
      member lock; holding both locks. */
  datatype DispatcherPc = Outside | Scanning(k: nat) | Asking(k: nat) | Sending(k: nat)

  datatype Owner = Nobody | Client(i: nat) | Dispatcher

  datatype State = State(
    pcs: seq<Pc>, dispatcher: DispatcherPc, memberLock: Owner, messageLock: Owner,
    members: seq<Member>, queue: seq<Message>, wire: seq<Sent>,
    posted: seq<Message>, rounds: seq<seq<Message>>, dispatched: seq<Message>)

  datatype Action = Accept(i: nat) | Ask(i: nat, job: Job) | Grant(i: nat) | Finish(i: nat) | Dispatch

  predicate Follows(stage: Stage, job: Job) {
    match stage
    case Absent => false
    case Fresh => job.ListGroups? || job.Announce?
    case Listed => job.Announce?
    case Announced => job.Join?
    case Inside => job.Leave? || (job.Post? && !Parse(job.text).NoTarget?)
    case Gone => false
  }

  function Stop(job: Job): Stage {
    match job
    case ListGroups => Listed
    case Announce => Announced
    case Join => Inside
    case Post(_) => Inside
    case Leave => Gone
  }

  function LockFor(st: State, job: Job): Owner {
    if job.Post? then st.messageLock else st.memberLock
  }

  function Taken(st: State, job: Job, owner: Owner): State {
    if job.Post? then st.(messageLock := owner) else st.(memberLock := owner)
  }

  /** Its socket is open: from `accept` to the `close` that precedes the last critical section. */
  predicate Open(pc: Pc) {
    match pc
    case Free(stage) => !stage.Absent? && !stage.Gone?
    case Waiting(job) => !job.Leave?
    case Holding(job) => !job.Leave?
  }

  /** `accept` returns a descriptor that is not open. */
  predicate Unused(who: seq<Profile>, st: State, fd: nat)
    requires |who| == |st.pcs|
  {
    forall j :: 0 <= j < |who| && Open(st.pcs[j]) ==> who[j].fd != fd
  }

  predicate CanDispatch(st: State) {
    match st.dispatcher
    case Outside => st.messageLock == Nobody
    case Scanning(_) => true
    case Asking(_) => st.memberLock == Nobody
    case Sending(_) => st.queue != [] && Routable(st.queue[0])
  }

  /** To ask for `Leave` is to close the socket too. */
  predicate Enabled(who: seq<Profile>, st: State, a: Action)
    requires |who| == |st.pcs|
  {
    match a
    case Accept(i) => i < |who| && st.pcs[i] == Free(Absent) && Unused(who, st, who[i].fd)
    case Ask(i, job) => i < |who| && st.pcs[i].Free? && Follows(st.pcs[i].stage, job)
    case Grant(i) => i < |who| && st.pcs[i].Waiting? && LockFor(st, st.pcs[i].job) == Nobody
    case Finish(i) => i < |who| && st.pcs[i].Holding?
    case Dispatch => CanDispatch(st)
  }

  /** The body of a client's critical section. */
  function Work(who: seq<Profile>, st: State, i: nat, job: Job): State
    requires i < |who|
  {
    match job
    case ListGroups => st
    case Announce => st
    case Join => st.(members := [Record(who, i)] + st.members)
    case Leave => st.(members := Without(st.members, Record(who, i)))
    case Post(text) =>
      var m := Message(|st.posted|, who[i].name, who[i].group, text);
      st.(queue := [m] + st.queue, posted := st.posted + [m])
  }

  function DispatchStep(st: State): State
    requires CanDispatch(st)
  {
    match st.dispatcher
    case Outside => st.(messageLock := Dispatcher, dispatcher := Scanning(0))
    case Scanning(k) =>
      if k < |st.queue| then st.(dispatcher := Asking(k))
      else st.(queue := [], rounds := st.rounds + [st.queue], messageLock := Nobody, dispatcher := Outside)
    case Asking(k) => st.(memberLock := Dispatcher, dispatcher := Sending(k))
    case Sending(k) =>
      var m := st.queue[0];
      st.(dispatched := st.dispatched + [m], wire := st.wire + Deliver(st.members, m),
          memberLock := Nobody, dispatcher := Scanning(k + 1))
  }

  function Next(who: seq<Profile>, st: State, a: Action): State
    requires |who| == |st.pcs| && Enabled(who, st, a)
  {
    match a
    case Accept(i) => st.(pcs := st.pcs[i := Free(Fresh)])
    case Ask(i, job) => st.(pcs := st.pcs[i := Waiting(job)])
    case Grant(i) =>
      var job := st.pcs[i].job;
      Taken(st, job, Client(i)).(pcs := st.pcs[i := Holding(job)])
    case Finish(i) =>
      var job := st.pcs[i].job;
      Taken(Work(who, st, i, job), job, Nobody).(pcs := st.pcs[i := Free(Stop(job))])
    case Dispatch => DispatchStep(st)
  }

  function Start(n: nat): State {
    State(seq(n, _ => Free(Absent)), Outside, Nobody, Nobody, [], [], [], [], [], [])
  }

  predicate IsRun(who: seq<Profile>, st: State, run: seq<Action>)
    decreases |run|
  {
    run == [] ||
    (|who| == |st.pcs| && Enabled(who, st, run[0]) && IsRun(who, Next(who, st, run[0]), run[1..]))
  }

  function After(who: seq<Profile>, st: State, run: seq<Action>): State
    requires IsRun(who, st, run)
    decreases |run|
  {
    if run == [] then st else After(who, Next(who, st, run[0]), run[1..])
  }

  ghost predicate Reachable(who: seq<Profile>, st: State) {
    exists run :: IsRun(who, Start(|who|), run) && After(who, Start(|who|), run) == st
  }

  // ---------- the invariant ----------

  /** A client is linked from the end of its Join to the end of its Leave. */
  predicate Linked(pc: Pc) {
    match pc
    case Free(stage) => stage.Inside?
    case Waiting(job) => job.Post? || job.Leave?
    case Holding(job) => job.Post? || job.Leave?
  }

  predicate HoldsMembers(pc: Pc) {
    pc.Holding? && !pc.job.Post?
  }

  predicate HoldsMessages(pc: Pc) {
    pc.Holding? && pc.job.Post?
  }

  /** Each lock has the one owner whose program counter says so. */
  predicate LocksOk(st: State) {
    && (forall i :: 0 <= i < |st.pcs| ==> (HoldsMembers(st.pcs[i]) <==> st.memberLock == Client(i)))
    && (forall i :: 0 <= i < |st.pcs| ==> (HoldsMessages(st.pcs[i]) <==> st.messageLock == Client(i)))
    && (st.memberLock.Client? ==> st.memberLock.i < |st.pcs|)
    && (st.messageLock.Client? ==> st.messageLock.i < |st.pcs|)
    && (st.memberLock == Dispatcher <==> st.dispatcher.Sending?)
    && (st.messageLock == Dispatcher <==> !st.dispatcher.Outside?)
  }

  predicate DistinctRecords(members: seq<Member>) {
    forall i, j :: 0 <= i < j < |members| ==> members[i].id != members[j].id
  }

  predicate Known(who: seq<Profile>, m: Member) {
    m.id < |who| && m == Record(who, m.id)
  }

  /** The member list holds each linked client once, and nobody else. */
  ghost predicate MembersOk(who: seq<Profile>, st: State) {
    && DistinctRecords(st.members)
    && |st.pcs| == |who|
    && (forall i :: 0 <= i < |who| ==> (Linked(st.pcs[i]) <==> Record(who, i) in st.members))
    && (forall m <- st.members :: Known(who, m))
  }

  /** No two open sockets have the same descriptor. */
  predicate SocketsOk(who: seq<Profile>, st: State) {
    && |st.pcs| == |who|
    && forall i, j :: 0 <= i < j < |who| && Open(st.pcs[i]) && Open(st.pcs[j]) ==> who[i].fd != who[j].fd
  }

  predicate TextOk(pc: Pc) {
    !pc.Free? && pc.job.Post? ==> !Parse(pc.job.text).NoTarget?
  }

  /** Messages whose text names no target are never posted. */
  predicate TextsOk(st: State) {
    && (forall m <- st.queue :: Routable(m))
    && (forall i :: 0 <= i < |st.pcs| ==> TextOk(st.pcs[i]))
  }

  /** Times the current round has dispatched its message so far. */
  function Done(st: State): nat {
    match st.dispatcher
    case Outside => 0
    case Scanning(k) => k
    case Asking(k) => k
    case Sending(k) => k
  }

  /** What the current round has dispatched so far. */
  function Current(st: State): seq<Message> {
    if st.queue == [] then [] else Repeat(Done(st), [st.queue[0]])
  }

  /** The rounds and the queue together are the messages in the order of posting. */
  predicate QueueOk(st: State) {
    && Numbered(st.posted) && InOrder(st.posted, st.rounds)
    && Drained(st.rounds) + |st.queue| == |st.posted| && Stretch(st.posted, st.queue, |st.posted|)
  }

  predicate LogOk(st: State) {
    && Done(st) <= |st.queue|
    && (st.dispatcher.Asking? || st.dispatcher.Sending? ==> Done(st) < |st.queue|)
    && st.dispatched == Log(st.rounds) + Current(st)
  }

  ghost predicate Inv(who: seq<Profile>, st: State) {
    && LocksOk(st) && SocketsOk(who, st) && MembersOk(who, st)
    && TextsOk(st) && QueueOk(st) && LogOk(st)
  }

  lemma InvStart(who: seq<Profile>)
    ensures Inv(who, Start(|who|))
  {
  }

  lemma InvAccept(who: seq<Profile>, st: State, i: nat)
    requires Inv(who, st) && Enabled(who, st, Accept(i))
    ensures Inv(who, Next(who, st, Accept(i)))
  {
  }

  /** A client that moves on outside a critical section leaves everything but the locks as it is. */
  lemma Moved(who: seq<Profile>, st: State, t: State, i: nat)
    requires Inv(who, st) && i < |who| && |t.pcs| == |who|
    requires t == st.(pcs := st.pcs[i := t.pcs[i]], memberLock := t.memberLock, messageLock := t.messageLock)
    requires (Linked(t.pcs[i]) <==> Linked(st.pcs[i])) && (Open(t.pcs[i]) ==> Open(st.pcs[i])) && TextOk(t.pcs[i])
    ensures SocketsOk(who, t) && MembersOk(who, t) && TextsOk(t) && QueueOk(t) && LogOk(t)
  {
  }

  lemma InvAsk(who: seq<Profile>, st: State, i: nat, job: Job)
    requires Inv(who, st) && Enabled(who, st, Ask(i, job))
    ensures Inv(who, Next(who, st, Ask(i, job)))
  {
    Moved(who, st, Next(who, st, Ask(i, job)), i);
  }

  lemma LocksGrant(st: State, t: State, i: nat, job: Job)
    requires LocksOk(st) && i < |st.pcs| && st.pcs[i] == Waiting(job) && t.pcs == st.pcs[i := Holding(job)]
    requires LockFor(st, job) == Nobody && t.dispatcher == st.dispatcher
    requires t.memberLock == (if job.Post? then st.memberLock else Client(i))
    requires t.messageLock == (if job.Post? then Client(i) else st.messageLock)
    ensures LocksOk(t)
  {
  }

  lemma InvGrant(who: seq<Profile>, st: State, i: nat)
    requires Inv(who, st) && Enabled(who, st, Grant(i))
    ensures Inv(who, Next(who, st, Grant(i)))
  {
    Moved(who, st, Next(who, st, Grant(i)), i);
    LocksGrant(st, Next(who, st, Grant(i)), i, st.pcs[i].job);
  }

  lemma {:induction false} WithoutIn(members: seq<Member>, x: Member, y: Member)
    requires DistinctRecords(members)
    ensures y in Without(members, x) <==> y in members && y != x
  {
    if members != [] {
      assert members == [members[0]] + members[1..];
      WithoutIn(members[1..], x, y);
    }
  }

  lemma {:induction false} WithoutDistinct(members: seq<Member>, x: Member)
    requires DistinctRecords(members)
    ensures DistinctRecords(Without(members, x))
  {
    if members != [] && members[0] != x {
      var rest := Without(members[1..], x);
      WithoutDistinct(members[1..], x);
      forall i | 0 <= i < |rest| ensures rest[i].id != members[0].id {
        WithoutIn(members[1..], x, rest[i]);
      }
    }
  }

  lemma LocksFinish(who: seq<Profile>, st: State, i: nat)
    requires Inv(who, st) && Enabled(who, st, Finish(i))
    ensures LocksOk(Next(who, st, Finish(i)))
  {
    LocksLetGo(st, Next(who, st, Finish(i)), i);
  }

  lemma LocksLetGo(st: State, t: State, i: nat)
    requires LocksOk(st) && i < |st.pcs| == |t.pcs| && st.pcs[i].Holding?
    requires t.pcs == st.pcs[i := t.pcs[i]] && t.pcs[i].Free?
    requires t.memberLock == (if st.pcs[i].job.Post? then st.memberLock else Nobody)
    requires t.messageLock == (if st.pcs[i].job.Post? then Nobody else st.messageLock)
    requires t.dispatcher == st.dispatcher
    ensures LocksOk(t)
  {
    assert HoldsMembers(st.pcs[i]) || HoldsMessages(st.pcs[i]);
  }

  lemma MembersJoin(who: seq<Profile>, st: State, i: nat)
    requires MembersOk(who, st) && i < |who| && !Linked(st.pcs[i])
    ensures MembersOk(who, st.(members := [Record(who, i)] + st.members, pcs := st.pcs[i := Free(Inside)]))
  {
    forall j | 0 <= j < |st.members| ensures st.members[j].id != i {
      assert st.members[j] in st.members && Known(who, st.members[j]);
    }
    assert forall m :: m in [Record(who, i)] + st.members <==> m == Record(who, i) || m in st.members;
  }

  lemma MembersLeave(who: seq<Profile>, st: State, i: nat)
    requires MembersOk(who, st) && i < |who|
    ensures MembersOk(who, st.(members := Without(st.members, Record(who, i)), pcs := st.pcs[i := Free(Gone)]))
  {
    WithoutDistinct(st.members, Record(who, i));
    forall y ensures y in Without(st.members, Record(who, i)) <==> y in st.members && y != Record(who, i) {
      WithoutIn(st.members, Record(who, i), y);
    }
  }

  lemma MembersFinish(who: seq<Profile>, st: State, i: nat)
    requires Inv(who, st) && Enabled(who, st, Finish(i))
    ensures MembersOk(who, Next(who, st, Finish(i)))
  {
    match st.pcs[i].job
    case Join => MembersJoin(who, st, i);
    case Leave => MembersLeave(who, st, i);
    case _ =>
  }

  lemma QueuePost(st: State, m: Message)
    requires QueueOk(st) && m.serial == |st.posted|
    ensures QueueOk(st.(queue := [m] + st.queue, posted := st.posted + [m]))
  {
    InOrderGrows(st.posted, st.rounds, m);
  }

  lemma QueueFinish(who: seq<Profile>, st: State, i: nat)
    requires Inv(who, st) && Enabled(who, st, Finish(i))
    ensures QueueOk(Next(who, st, Finish(i)))
  {
    var job := st.pcs[i].job;
    if job.Post? {
      QueuePost(st, Message(|st.posted|, who[i].name, who[i].group, job.text));
    }
  }

  lemma LogFinish(who: seq<Profile>, st: State, i: nat)
    requires Inv(who, st) && Enabled(who, st, Finish(i))
    ensures LogOk(Next(who, st, Finish(i)))
  {
    LogKept(st, Next(who, st, Finish(i)));
  }

  /** Only while the dispatcher is outside does a client change the queue. */
  lemma LogKept(st: State, t: State)
    requires LogOk(st) && (t.queue == st.queue || st.dispatcher.Outside?)
    requires t.dispatcher == st.dispatcher && t.rounds == st.rounds && t.dispatched == st.dispatched
    ensures LogOk(t)
  {
    assert st.dispatcher.Outside? ==> Current(st) == [] && Current(t) == [];
  }

  lemma TextsFinish(who: seq<Profile>, st: State, i: nat)
    requires Inv(who, st) && Enabled(who, st, Finish(i))
    ensures TextsOk(Next(who, st, Finish(i)))
  {
  }

  lemma SocketsFinish(who: seq<Profile>, st: State, i: nat)
    requires Inv(who, st) && Enabled(who, st, Finish(i))
    ensures SocketsOk(who, Next(who, st, Finish(i)))
  {
  }

  lemma InvFinish(who: seq<Profile>, st: State, i: nat)
    requires Inv(who, st) && Enabled(who, st, Finish(i))
    ensures Inv(who, Next(who, st, Finish(i)))
  {
    LocksFinish(who, st, i);
    SocketsFinish(who, st, i);
    MembersFinish(who, st, i);
    QueueFinish(who, st, i);
    LogFinish(who, st, i);
    TextsFinish(who, st, i);
  }

  lemma LogClosed(st: State)
    requires LogOk(st) && st.dispatcher == Scanning(|st.queue|)
    ensures LogOk(DispatchStep(st))
  {
    var t := DispatchStep(st);
    RoundAppended([], st.rounds, st.queue);
    assert Current(st) == RoundLog(st.queue);
    assert Current(t) == [] && t.dispatched == Log(t.rounds) + [];
  }

  /** Emptying the queue closes the round. */
  lemma QueueDrained(st: State)
    requires QueueOk(st) && LogOk(st) && st.dispatcher == Scanning(|st.queue|)
    ensures QueueOk(DispatchStep(st)) && LogOk(DispatchStep(st))
  {
    LogClosed(st);
    QueueClosed(st.posted, st.rounds, st.queue);
  }

  lemma QueueClosed(posted: seq<Message>, rounds: seq<seq<Message>>, queue: seq<Message>)
    requires InOrder(posted, rounds) && Drained(rounds) + |queue| == |posted| && Stretch(posted, queue, |posted|)
    ensures InOrder(posted, rounds + [queue]) && Drained(rounds + [queue]) == |posted| && Stretch(posted, [], |posted|)
  {
    RoundAppended(posted, rounds, queue);
  }

  lemma MessageSent(st: State)
    requires LogOk(st) && st.dispatcher.Sending? && CanDispatch(st)
    ensures LogOk(DispatchStep(st))
  {
    var log, sofar, once := Log(st.rounds), Repeat(st.dispatcher.k, [st.queue[0]]), [st.queue[0]];
    assert log + sofar + once == log + (sofar + once);
  }

  lemma InvDispatch(who: seq<Profile>, st: State)
    requires Inv(who, st) && Enabled(who, st, Dispatch)
    ensures Inv(who, Next(who, st, Dispatch))
  {
    match st.dispatcher
    case Scanning(k) =>
      if k == |st.queue| {
        QueueDrained(st);
      }
    case Sending(_) => MessageSent(st);
    case _ =>
  }

  lemma InvNext(who: seq<Profile>, st: State, a: Action)
    requires Inv(who, st) && Enabled(who, st, a)
    ensures Inv(who, Next(who, st, a))
  {
    match a
    case Accept(i) => InvAccept(who, st, i);
    case Ask(i, job) => InvAsk(who, st, i, job);
    case Grant(i) => InvGrant(who, st, i);
    case Finish(i) => InvFinish(who, st, i);
    case Dispatch => InvDispatch(who, st);
  }

  lemma {:induction false} InvRun(who: seq<Profile>, st: State, run: seq<Action>)
    requires Inv(who, st) && IsRun(who, st, run)
    ensures Inv(who, After(who, st, run))
    decreases |run|
  {
    if run != [] {
      InvNext(who, st, run[0]);
      InvRun(who, Next(who, st, run[0]), run[1..]);
    }
  }

  lemma ReachableInv(who: seq<Profile>, st: State)
    requires Reachable(who, st)
    ensures Inv(who, st)
  {
    var run :| IsRun(who, Start(|who|), run) && After(who, Start(|who|), run) == st;
    InvStart(who);
    InvRun(who, Start(|who|), run);
  }
}
