/** The chat server's two lists, and one round of its dispatcher thread over them. */
module ChatServer {
  import opened Chat
  import opened ChatList

  /** What one round sends: the newest message, once for every message queued. */
  function Round(members: seq<Member>, queue: seq<Message>): seq<Sent>
    requires queue != [] ==> Routable(queue[0])
  {
    if queue == [] then [] else Repeat(|queue|, Deliver(members, queue[0]))
  }

  lemma {:induction false} RepeatSends(n: nat, once: seq<Sent>, x: Sent)
    ensures multiset(Repeat(n, once))[x] == n * multiset(once)[x]
    ensures forall s <- Repeat(n, once) :: s in once
  {
    if n > 0 {
      RepeatSends(n - 1, once, x);
      CountConcat(Repeat(n - 1, once), once, x);
      assert n * multiset(once)[x] == (n - 1) * multiset(once)[x] + multiset(once)[x];
    }
  }

  /** A round whose newest message is for its sender's group. */
  lemma GroupRound(members: seq<Member>, queue: seq<Message>, fd: nat)
    requires queue != [] && !("/W " <= queue[0].text)
    ensures Routable(queue[0])
    ensures var m, sends := queue[0], Round(members, queue);
            var line := m.from + " : " + m.text + "\n";
            (forall s <- sends :: s.text == line) &&
            multiset(sends)[Sent(fd, line)] == |queue| *
            |set k: nat | k < |members| && members[k].fd == fd && members[k].group == m.group|
  {
    GroupReaches(members, queue[0], fd);
    var line := queue[0].from + " : " + queue[0].text + "\n";
    RepeatSends(|queue|, Deliver(members, queue[0]), Sent(fd, line));
  }

  /** A round whose newest message is private. */
  lemma WhisperRound(members: seq<Member>, queue: seq<Message>, gap: nat, target: string, body: string, fd: nat)
    requires queue != [] && Private(queue[0].text, gap, target, body)
    ensures Routable(queue[0])
    ensures var m, sends := queue[0], Round(members, queue);
            var line := m.from + " : " + body + "\n";
            (forall s <- sends :: s.text == line) &&
            multiset(sends)[Sent(fd, line)] == |queue| *
            |set k: nat | k < |members| && members[k].fd == fd &&
                          (members[k].group == target || members[k].name == target)|
  {
    WhisperReaches(members, queue[0], gap, target, body, fd);
    var line := queue[0].from + " : " + body + "\n";
    RepeatSends(|queue|, Deliver(members, queue[0]), Sent(fd, line));
  }

  lemma Appended(wire: seq<Sent>, a: seq<Sent>, b: seq<Sent>)
    ensures wire + a + b == wire + (a + b)
  {
  }

  lemma RoundTexts(members: seq<Member>, queue: seq<Message>)
    requires queue != [] ==> Routable(queue[0])
    ensures queue != [] && !("/W " <= queue[0].text) ==>
              forall s <- Round(members, queue) :: s.text == queue[0].from + " : " + queue[0].text + "\n"
    ensures queue != [] ==> forall gap: nat, target, body | Private(queue[0].text, gap, target, body) ::
              forall s <- Round(members, queue) :: s.text == queue[0].from + " : " + body + "\n"
  {
    if queue != [] {
      DeliverTexts(members, queue[0]);
      RepeatSends(|queue|, Deliver(members, queue[0]), Sent(0, []));
    }
  }

  class Server {
    const members: List<Member>
    const messages: List<Message>
    var wire: seq<Sent>

    ghost predicate Valid()
      reads members, members.nodes, messages, messages.nodes
    {
      members.Valid() && messages.Valid()
    }

    constructor ()
      ensures Valid() && members.nodes == [] && messages.nodes == [] && wire == []
      ensures fresh(members) && fresh(messages)
    {
      members := new List();
      messages := new List();
      wire := [];
    }

    /** A message record is taken from `malloc` and linked without clearing its links. */
    method Post(m: Message, junkPrev: Node?<Message>, junkNext: Node?<Message>)
      returns (node: Node<Message>)
      requires Valid()
      modifies messages, messages.nodes
      ensures fresh(node) && messages.first == node && node.prev == junkPrev
      ensures node.next == if old(messages.nodes) == [] then junkNext else old(messages.first)
      ensures messages.nodes == [node] + old(messages.nodes)
      ensures messages.Contents() == [m] + old(messages.Contents()) && members.Valid()
      ensures Valid() <==> junkPrev == null && (old(messages.nodes) == [] ==> junkNext == null)
    {
      node := new Node.Uncleared(m, junkPrev, junkNext);
      messages.Link(node);
    }

    /** `send`, when the comparison of names and groups says so. */
    method SendIfAddressed(m: Message, member: Member)
      requires Routable(m)
      modifies this`wire
      ensures wire == old(wire) + SendTo(m, member)
    {
      if Addressed(m, member) {
        wire := wire + [Sent(member.fd, Line(m))];
      }
    }

    /** The walk over the member list for one message. */
    method SendToMatching(m: Message)
      requires Valid() && Routable(m)
      modifies this`wire
      ensures wire == old(wire) + Deliver(members.Contents(), m)
      ensures !("/W " <= m.text) ==>
                forall s <- wire[|old(wire)|..] :: s.text == m.from + " : " + m.text + "\n"
      ensures forall gap: nat, target, body | Private(m.text, gap, target, body) ::
                forall s <- wire[|old(wire)|..] :: s.text == m.from + " : " + body + "\n"
    {
      ghost var list := members.Contents();
      var temp := members.first;
      var j := 0;
      var size := members.Size();
      while j < size
        invariant j <= size == |list|
        invariant j < size ==> temp == members.nodes[j]
        invariant wire == old(wire) + Deliver(list[..j], m)
      {
        assert temp.data == list[j];
        DeliverNext(list, j, m);
        Appended(old(wire), Deliver(list[..j], m), SendTo(m, list[j]));
        SendIfAddressed(m, temp.data);
        members.Walk(j);
        j := j + 1;
        if temp.next == null {
          assert j == |list|;
          break;
        }
        temp := temp.next;
        size := members.Size();
      }
      assert j == |list| && list[..j] == list;
      DeliverTexts(list, m);
      assert wire[|old(wire)|..] == Deliver(list, m);
    }

    /** The loop over the batch. Its pointer is set before the loop and never moved. */
    method DispatchBatch()
      requires Valid()
      requires messages.nodes != [] ==> Routable(messages.nodes[0].data)
      modifies this`wire
      ensures wire == old(wire) + Round(members.Contents(), messages.Contents())
    {
      ghost var queue := messages.Contents();
      var tempM := messages.first;
      ghost var once := if queue == [] then [] else Deliver(members.Contents(), queue[0]);
      var k := 0;
      var size := messages.Size();
      while k < size
        invariant k <= size == |queue|
        invariant wire == old(wire) + Repeat(k, once)
      {
        assert tempM.data == queue[0];
        Appended(old(wire), Repeat(k, once), once);
        SendToMatching(tempM.data);
        k := k + 1;
        size := messages.Size();
      }
    }

    /** The loop that unlinks the first message until none is left. */
    method Drain()
      requires Valid()
      modifies messages, messages.nodes
      ensures messages.Valid() && messages.nodes == [] && members.Valid()
    {
      var size := messages.Size();
      while size > 0
        invariant messages.Valid() && size == |messages.nodes|
        invariant forall i :: 0 <= i < |messages.nodes| ==> messages.nodes[i] in old(messages.nodes)
        decreases size
      {
        messages.Unlink(messages.first);
        size := messages.Size();
      }
    }

    /** One pass of the dispatcher's endless loop. */
    method DispatchRound()
      requires Valid()
      requires messages.nodes != [] ==> Routable(messages.nodes[0].data)
      modifies this`wire, messages, messages.nodes
      ensures Valid() && messages.nodes == [] && members.nodes == old(members.nodes)
      ensures wire == old(wire) + Round(members.Contents(), old(messages.Contents()))
      ensures var queue := old(messages.Contents());
              queue != [] && !("/W " <= queue[0].text) ==>
                forall s <- wire[|old(wire)|..] :: s.text == queue[0].from + " : " + queue[0].text + "\n"
      ensures var queue := old(messages.Contents());
              queue != [] ==> forall gap: nat, target, body | Private(queue[0].text, gap, target, body) ::
                forall s <- wire[|old(wire)|..] :: s.text == queue[0].from + " : " + body + "\n"
    {
      ghost var list, queue := members.Contents(), messages.Contents();
      RoundTexts(list, queue);
      DispatchBatch();
      Drain();
      assert wire[|old(wire)|..] == Round(list, queue);
    }
  }

  /** Any number of passes of the loop that drains the list, once its first node has a `prev`:
      none gets past that node. */
  method DrainPasses(messages: List<Message>, n: nat)
    requires messages.first != null && messages.first.prev != null
    modifies messages`first, Referent(messages.first.prev)`next, Referent(messages.first.next)`prev
    ensures messages.first == old(messages.first)
    ensures messages.first.prev == old(messages.first.prev) && messages.first.next == old(messages.first.next)
  {
    for k := 0 to n
      invariant messages.first == old(messages.first)
      invariant messages.first.prev == old(messages.first.prev) && messages.first.next == old(messages.first.next)
    {
      messages.Dislink(messages.first);
    }
  }

  /** A message with a stray `prev`, posted to an empty server: the list is none, and draining it
      never ends, however long it goes on. */
  method StrayLink(m: Message, n: nat) returns (server: Server, node: Node<Message>)
    ensures fresh(server) && !server.Valid() && server.messages.nodes == [node]
    ensures server.messages.first == node && node.prev != null
  {
    server := new Server();
    var stray := new Node(m);
    node := server.Post(m, stray, null);
    DrainPasses(server.messages, n);
  }
}
