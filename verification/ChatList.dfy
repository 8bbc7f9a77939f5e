/** The intrusive doubly linked list that both the members and the messages of HW3 are kept in. */
module ChatList {
  import opened Chat

  class Node<T> {
    const data: T
    var prev: Node?<T>
    var next: Node?<T>

    /** A member record, with both links cleared. */
    constructor (data: T)
      ensures this.data == data && prev == null && next == null
    {
      this.data := data;
      prev, next := null, null;
    }

    /** A message record: `malloc` leaves the links as they happen to be. */
    constructor Uncleared(data: T, junkPrev: Node?<T>, junkNext: Node?<T>)
      ensures this.data == data && prev == junkPrev && next == junkNext
    {
      this.data := data;
      prev, next := junkPrev, junkNext;
    }
  }

  ghost function DataOf<T>(nodes: seq<Node<T>>): seq<T> {
    seq(|nodes|, i requires 0 <= i < |nodes| => nodes[i].data)
  }

  ghost predicate Distinct<T>(nodes: seq<Node<T>>) {
    forall i, j :: 0 <= i < j < |nodes| ==> nodes[i] != nodes[j]
  }

  /** The links that its place in `nodes` calls for. */
  ghost function Before<T>(nodes: seq<Node<T>>, i: nat): Node?<T>
    requires i < |nodes|
  {
    if i == 0 then null else nodes[i - 1]
  }

  ghost function Behind<T>(nodes: seq<Node<T>>, i: nat): Node?<T>
    requires i < |nodes|
  {
    if i == |nodes| - 1 then null else nodes[i + 1]
  }

  ghost predicate LinkedAt<T>(nodes: seq<Node<T>>, i: nat)
    reads nodes
    requires i < |nodes|
  {
    nodes[i].prev == Before(nodes, i) && nodes[i].next == Behind(nodes, i)
  }

  ghost function Referent<T>(link: Node?<T>): set<Node<T>> {
    if link == null then {} else {link}
  }

  /** An acyclic doubly linked chain. */
  ghost predicate Chain<T>(nodes: seq<Node<T>>)
    reads nodes
  {
    Distinct(nodes) && forall i :: 0 <= i < |nodes| ==> LinkedAt(nodes, i)
  }

  /** Node `j` is linked, past node `k`, to its neighbours. */
  ghost predicate BypassedAt<T>(nodes: seq<Node<T>>, k: nat, j: nat)
    reads nodes
    requires k < |nodes| && j < |nodes|
  {
    && nodes[j].prev == Before(nodes, if j == k + 1 then k else j)
    && nodes[j].next == Behind(nodes, if j + 1 == k then k else j)
  }

  lemma BypassedIsChain<T>(was: seq<Node<T>>, k: nat)
    requires k < |was| && Distinct(was)
    requires forall j :: 0 <= j < |was| && j != k ==> BypassedAt(was, k, j)
    ensures Chain(was[..k] + was[k + 1..])
  {
    var now := was[..k] + was[k + 1..];
    forall i | 0 <= i < |now| ensures LinkedAt(now, i) {
      assert BypassedAt(was, k, if i < k then i else i + 1);
    }
  }

  lemma DataListed<T>(nodes: seq<Node<T>>, client: Node<T>)
    ensures client in nodes ==> client.data in DataOf(nodes)
  {
    if k :| 0 <= k < |nodes| && nodes[k] == client {
      assert DataOf(nodes)[k] == client.data;
    }
  }

  /** Taking out one node takes out its data, if no two nodes have the same. */
  lemma DataWithout<T>(was: seq<Node<T>>, client: Node<T>)
    requires client in was && forall i, j :: 0 <= i < j < |was| ==> was[i].data != was[j].data
    ensures DataOf(Without(was, client)) == Without(DataOf(was), client.data)
  {
    var k :| 0 <= k < |was| && was[k] == client;
    WithoutAt(was, k);
    WithoutAt(DataOf(was), k);
  }

  class List<T> {
    var first: Node?<T>
    ghost var nodes: seq<Node<T>>

    /** A chain that `first` points to. */
    ghost predicate Valid()
      reads this, nodes
    {
      Chain(nodes) && first == if nodes == [] then null else nodes[0]
    }

    ghost function Contents(): seq<T>
      reads this
    {
      DataOf(nodes)
    }

    constructor ()
      ensures Valid() && nodes == []
    {
      first := null;
      nodes := [];
    }

    /** Insert at the front. The result is a list exactly when the node came with clear links,
        of which `next` matters only in an empty list. */
    method Link(client: Node<T>)
      requires Valid() && client !in nodes
      modifies this, client, nodes
      ensures nodes == [client] + old(nodes) && Contents() == [client.data] + old(Contents())
      ensures first == client && client.prev == old(client.prev)
      ensures client.next == if old(nodes) == [] then old(client.next) else old(first)
      ensures Valid() <==> old(client.prev) == null && (old(nodes) == [] ==> old(client.next) == null)
    {
      if first == null {
        first := client;
      } else {
        first.prev := client;
        client.next := first;
        first := client;
      }
      nodes := [client] + nodes;
      ghost var was := old(nodes);
      forall i | 1 <= i < |nodes| ensures LinkedAt(nodes, i) {
        assert nodes[i] == was[i - 1] && old(LinkedAt(was, i - 1));
      }
      assert Valid() <==> LinkedAt(nodes, 0);
    }

    /** Take a node out, whatever its links and the list's are: `first` moves on only if the node's
        `prev` is null. */
    method Dislink(client: Node<T>)
      modifies this`first, Referent(client.prev)`next, Referent(client.next)`prev
      ensures first == if old(client.prev) == null then old(client.next) else old(first)
      ensures old(client.prev) != null ==> old(client.prev).next == old(client.next)
      ensures old(client.next) != null ==> old(client.next).prev == old(client.prev)
    {
      if client.prev == null {
        first := client.next;
        if first != null {
          first.prev := null;
        }
      } else if client.next == null {
        client.prev.next := client.next;
      } else {
        client.prev.next := client.next;
        client.next.prev := client.prev;
      }
    }

    /** Take one linked node out; the others keep their order. */
    method Unlink(client: Node<T>)
      requires Valid() && client in nodes
      modifies this, nodes
      ensures Valid() && nodes == Without(old(nodes), client)
      ensures exists k :: 0 <= k < |old(nodes)| && old(nodes)[k] == client &&
                          nodes == old(nodes)[..k] + old(nodes)[k + 1..]
    {
      ghost var k :| 0 <= k < |nodes| && nodes[k] == client;
      WithoutAt(nodes, k);
      ghost var was := nodes;
      assert LinkedAt(was, k);
      Dislink(client);
      nodes := was[..k] + was[k + 1..];
      forall j | 0 <= j < |was| && j != k ensures BypassedAt(was, k, j) {
        assert old(LinkedAt(was, j));
      }
      BypassedIsChain(was, k);
    }

    /** Where a walk that has reached node `i` goes next. */
    lemma Walk(i: nat)
      requires Valid() && i < |nodes|
      ensures nodes[i].next == if i == |nodes| - 1 then null else nodes[i + 1]
    {
      assert LinkedAt(nodes, i);
    }

    /** The walk that counts the nodes. */
    method Size() returns (i: nat)
      requires Valid()
      ensures i == |nodes|
    {
      var temp := first;
      i := 0;
      while temp != null
        invariant i <= |nodes|
        invariant temp == if i < |nodes| then nodes[i] else null
        decreases |nodes| - i
      {
        Walk(i);
        i := i + 1;
        if temp.next == null {
          break;
        }
        temp := temp.next;
      }
    }
  }
}
