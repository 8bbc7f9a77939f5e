/** The critical sections of the chat server, carried out on the linked lists. */
module ChatThreads {
  import opened Chat
  import opened ChatList
  import opened ChatServer
  import opened ChatLocks
  import opened ChatResults

  /** The server's memory holds the lists, and has sent the lines, of the state `st`. */
  ghost predicate Represents(server: Server, st: State)
    reads server, server.members, server.members.nodes, server.messages, server.messages.nodes
  {
    && server.Valid() && server.wire == st.wire
    && server.members.Contents() == st.members && server.messages.Contents() == st.queue
  }

  /** A new client is linked; `accept`'s caller has cleared its links. */
  method JoinSection(server: Server, client: Node<Member>, ghost who: seq<Profile>, ghost st: State, ghost i: nat)
    requires MembersOk(who, st) && i < |who| && st.pcs[i] == Holding(Join) && Represents(server, st)
    requires client.data == Record(who, i) && client.prev == client.next == null
    modifies server.members, client, server.members.nodes
    ensures Represents(server, Next(who, st, Finish(i)))
  {
    assert client.data !in server.members.Contents();
    DataListed(server.members.nodes, client);
    server.members.Link(client);
  }

  lemma RecordsWithout(nodes: seq<Node<Member>>, client: Node<Member>)
    requires client in nodes && DistinctRecords(DataOf(nodes))
    ensures DataOf(Without(nodes, client)) == Without(DataOf(nodes), client.data)
  {
    assert forall i :: 0 <= i < |nodes| ==> nodes[i].data == DataOf(nodes)[i];
    DataWithout(nodes, client);
  }

  /** A client that has closed its socket is unlinked. */
  method LeaveSection(server: Server, client: Node<Member>, ghost who: seq<Profile>, ghost st: State, ghost i: nat)
    requires MembersOk(who, st) && i < |who| && st.pcs[i] == Holding(Leave) && Represents(server, st)
    requires client.data == Record(who, i) && client in server.members.nodes
    modifies server.members, server.members.nodes
    ensures Represents(server, Next(who, st, Finish(i)))
  {
    RecordsWithout(server.members.nodes, client);
    server.members.Unlink(client);
    assert server.members.Contents() == Without(st.members, Record(who, i));
  }

  /** A message is linked with whatever its links are. */
  method PostSection(server: Server, m: Message, junkPrev: Node?<Message>, junkNext: Node?<Message>,
                     ghost who: seq<Profile>, ghost st: State, ghost i: nat)
    requires i < |who| == |st.pcs| && st.pcs[i].Holding? && st.pcs[i].job.Post? && Represents(server, st)
    requires m == Message(|st.posted|, who[i].name, who[i].group, st.pcs[i].job.text)
    modifies server.messages, server.messages.nodes
    ensures Represents(server, Next(who, st, Finish(i))) <==>
            junkPrev == null && (st.queue == [] ==> junkNext == null)
  {
    var _ := server.Post(m, junkPrev, junkNext);
  }

  /** The dispatcher's whole round. */
  method RoundSection(server: Server, ghost who: seq<Profile>, ghost st: State)
    requires Inv(who, st) && st.memberLock == Nobody && st.dispatcher == Scanning(0) && Represents(server, st)
    modifies server`wire, server.messages, server.messages.nodes
    ensures Represents(server, RestOfRound(st))
  {
    UndisturbedRound(st);
    assert server.messages.nodes != [] ==> server.messages.nodes[0].data == st.queue[0];
    server.DispatchRound();
  }
}
