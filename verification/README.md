# A verified model of the myftp transfer, its checksum, and the chat server

Three programs of the repository are modelled and their properties proved in Dafny 4.11.
`dafny verify dfyconfig.toml` checks everything.

**HW5, myftp.** A file goes from server to client over UDP by stop-and-wait. The server cuts it
into 512-byte chunks, numbers them 1, 2, ..., 64999, 2, 3, ..., and repeats a chunk until it is
acknowledged; the client writes the chunk it expects, acknowledges any other again, asks for a
repeat with ERROR, and answers the short last chunk with ACK 0.

* `Buffers`, `MyftpServer`, `MyftpClient` are the two programs with their loops, their packet
  buffers as arrays, and their counters. What `recvfrom` returns is a parameter: an inbox of
  timeouts and datagrams. When the inbox is used up the program is still waiting, and the method
  returns where it has got to. What `malloc` left in the server's ACK buffer is a parameter too.
* `Endpoints` says what either end does with one event. The two methods are proved to compute
  exactly the fold of these steps over the inbox, and everything they send.
* `Transfer` puts both ends and a network together. Each direction is the set of all packets ever
  sent that way, so a packet may be lost, repeated, delayed or overtaken; any delivery may have
  one bit inverted. The packets are the real bytes, checksum included. Each is tagged with the
  chunk it is about; neither end sees the tag. The hosts may have different byte orders.
* The *lifetime* of packets is a parameter: no DATA or ACK is delivered that is `lifetime` or more
  chunks old. File requests and ERRORs may be arbitrarily old. Safety is stated for every lifetime
  from 1, completion for every lifetime from 2, the least that lets a chunk be delivered twice.
* `Safety`, `EndToEnd`, `Exchange`, `Progress`, `Views` hold the results.
* `Once` is the same transfer on a network that delivers no packet more often than it was sent, the
  assumption under which an end cannot be kept busy for ever by one packet. Its runs are runs of
  `Transfer`, so all results hold there too.

**HW5 and HW6, the Internet checksum.** `Checksum` defines it over unbounded integers, for hosts of
either byte order; `InternetChecksum` is the 32-bit loop, `Icmp` its use for the echo request.

**HW3, the chat server.** `ChatList` is the intrusive doubly linked list on the heap, used for both
members and messages; `ChatServer` is one round of the dispatcher over two such lists; `ChatLocks`
is any number of clients, which connect and leave at any time, and the dispatcher as a step system
under the two mutexes; `accept` gives out any descriptor that is not open, so numbers are used again.
`Ledger` and `ChatResults` say what becomes of the messages, and `ChatThreads` carries the critical
sections out on the linked lists.

## What the code does not do

Four things one would expect turn out false; the code is modelled as it is, and each has a lemma
or method with a failing case and one with the exact condition.

1. *A damaged packet can be taken for an ACK.* In the data phase the server reads packets into six
   bytes, so a late file request loses its tail, and one inverted bit turns its opcode into ACK.
   The checksum over the six bytes is right exactly when the bytes cut off sum to 2 modulo 65535,
   and the first two characters of the name are then taken for a block number. `EndToEnd.ForgingName`
   gives such a name, `ForgedAck` the run, and `SafeExactly` the condition.
2. *The chat dispatcher loses messages.* Its loop over a batch never moves its message pointer: it
   sends the newest message once for every message queued, then frees them all.
   `ChatResults.MessageLost` is a run with two messages; `NothingLostExactly` the condition.
3. *Messages are linked with whatever links `malloc` left in them.* `ChatServer.Server.Post` keeps
   the list a list exactly when those happen to be clear. `ChatServer.StrayLink` is the case of one
   message with a stray `prev` in an empty server: unlinking it does not move the head of the list
   (`ChatList.List.Dislink` says when it does), so draining the list gets nowhere; the
   code goes on with a node it has freed.
4. *A message for one client can reach another.* A leaving client closes its socket before it is
   taken off the member list; in between, a new client may be given the same descriptor, and gets
   what the first is sent. `ChatResults.SocketReused` is such a run; `DispatchReaches` gives the
   condition, and shows that a client whose socket is open can be misdirected in no other way.

Two more limits of the design are stated as such: the packet lifetime of 64998 chunks is necessary
and sufficient (`SafeExactly`, `StaleAck`, `StaleData`), and a lost final ACK is never repeated
(`LostFinalAck`), so only the server's success implies the client's, not the converse.

The checks have gaps outside the damage modelled: a waiting server starts on any intact packet
(`Delivery.AnythingStarts`), and a DATA header that has lost its last byte can make the client call
`fwrite` with a negative size (`CutHeader`).

Where the program's messages speak of 20 seconds, the code counts 12 receive timeouts; the model
counts timeouts.

## Model

| member | source | states |
|---|---|---|
| EndToEnd.SafeExactly | HW5/B013040033_TCPIP_HW5/myftp.c:231-667 | For every file, name, byte orders and packet lifetime: all reachable states are safe (client output is the prefix of the file made of the accepted chunks, and the whole file once it finishes; server success only after the client's; with server chunk s and accepted count c, c <= s <= c+1; both block counters right across any number of wraps; no negative write) if and only if the name cannot pass for an ACK of a chunk the file has, and either the lifetime is at most 64998 or the file has fewer than 65000 chunks |
| Safety.InvNext | HW5/B013040033_TCPIP_HW5/myftp.c:333-662 | Every step of either end or the network keeps the invariant behind this, given only that the delivered packet's number is not ambiguous |
| Safety.NumbersClear | HW5/B013040033_TCPIP_HW5/myftp.c:465-471 | A lifetime of at most one cycle, or a file below one cycle, rules ambiguous numbers out |
| EndToEnd.ForgedAck | HW5/B013040033_TCPIP_HW5/myftp.c:379-472 | For every name that passes, a run with one inverted bit in which the server goes past a chunk the client never got |
| EndToEnd.ForgingName | HW5/B013040033_TCPIP_HW5/myftp.c:509-512 | A concrete name of eight characters that passes, for files of 12337 chunks or more |
| EndToEnd.NeverForges | HW5/B013040033_TCPIP_HW5/myftp.c:451-465 | No name passes for files below 130560 bytes, nor any name of up to four characters |
| EndToEnd.ShortestForgingName | HW5/B013040033_TCPIP_HW5/myftp.c:509-512 | A name of five characters passes, so that four is the bound |
| EndToEnd.StaleAck | HW5/B013040033_TCPIP_HW5/myftp.c:460-471 | One chunk beyond the lifetime bound, the old ACK of chunk 2 makes the server skip chunk 65000 |
| EndToEnd.StaleData | HW5/B013040033_TCPIP_HW5/myftp.c:617-658 | Likewise the client writes chunk 2 in place of chunk 65000, and its output is no prefix of the file if the two differ |
| EndToEnd.ReachMidway | HW5/B013040033_TCPIP_HW5/myftp.c:333-662 | From the start, for every chunk of every file, the state just before that chunk's delivery is reachable, across any number of wraps |
| Safety.OnePacketPerChunk | HW5/B013040033_TCPIP_HW5/myftp.c:388-395 | All transmissions of a chunk in any reachable state are byte-identical, and none carries number 0 |
| Safety.EndAckMeansDelivered | HW5/B013040033_TCPIP_HW5/myftp.c:451-458 | Whenever any ACK of block 0 is in flight the client has finished with exactly the file |
| Views.RunsAreProgramRuns | HW5/B013040033_TCPIP_HW5/myftp.c:231-667 | In every run each end is in the state its program computes from its own inbox, and the network carries exactly the packets the two programs send |
| Views.ProgramsDeliver | HW5/B013040033_TCPIP_HW5/myftp.c:451-458 | Hence: if the server program returns, the client program has finished; if the client program finishes it has written the file; it never writes anything but a prefix |
| Endpoints.SentGrows | HW5/B013040033_TCPIP_HW5/myftp.c:231-667 | What either program has sent after part of an inbox is the beginning of what it has sent after all of it |
| Progress.CompletionExactly | HW5/B013040033_TCPIP_HW5/myftp.c:376-397 | In every reachable state, even after losing everything in flight, both ends can still succeed if and only if the server has, or both run and the client has timeouts left, or the server does in its data phase |
| Progress.LostFinalAck | HW5/B013040033_TCPIP_HW5/myftp.c:623-639 | If the client has finished and its ACK 0 is lost, no continuation ends with success at the server |
| Progress.ErrorMatches | HW5/B013040033_TCPIP_HW5/myftp.c:413-433 | In every reachable state an ERROR with the client's block makes the server repeat its packet if and only if the client lacks that chunk, at every point of the cycle |
| Progress.TimeoutRepairs | HW5/B013040033_TCPIP_HW5/myftp.c:545-576 | In every reachable state with both ends at work, what the client sends on a timeout makes the server repeat its chunk if and only if the client has accepted some chunk and lacks this one; otherwise the server sends nothing |
| Progress.TimeoutStarts | HW5/B013040033_TCPIP_HW5/myftp.c:547-559 | With the server still waiting, what it sends on a timeout starts the transfer: the server answers with chunk 1 |
| Progress.DamageRepairs | HW5/B013040033_TCPIP_HW5/myftp.c:589-602 | What it sends on a damaged packet makes the server repeat its chunk if and only if the client lacks it |
| Progress.ClientGivesUp | HW5/B013040033_TCPIP_HW5/myftp.c:545-580 | Over any inbox with d datagrams a running client has seen at most 12 d + 11 events |
| Progress.ServerGivesUp | HW5/B013040033_TCPIP_HW5/myftp.c:269-398 | The same for the server in both of its phases |
| Progress.ClientCount | HW5/B013040033_TCPIP_HW5/myftp.c:579-580 | A running client's count is exactly the number of timeouts since its last datagram |
| Progress.ServerCount | HW5/B013040033_TCPIP_HW5/myftp.c:269-398 | So is the server's in the data phase; while it waits for a request it counts all timeouts so far |
| Progress.PatienceExactly | HW5/B013040033_TCPIP_HW5/myftp.c:547-576 | In any run, a client that has counted w timeouts survives n more in a row if and only if w + n is at most 11, and sends one packet for each it survives |
| Progress.ServerPatienceExactly | HW5/B013040033_TCPIP_HW5/myftp.c:269-397 | The same for the server: while it waits for a request, where it sends nothing and damaged requests do not restart the count, and in the data phase, where it repeats its packet |
| Once.OnceIsRun | HW5/B013040033_TCPIP_HW5/myftp.c:231-667 | Every run on the network that delivers each sent packet at most once is a run of the transfer with the same ends |
| Once.ClientHalts | HW5/B013040033_TCPIP_HW5/myftp.c:545-580 | From any reachable state of that network with the server stopped and n packets in flight to the client, every run stops the client by its event 12 n + 12 |
| Once.ServerHalts | HW5/B013040033_TCPIP_HW5/myftp.c:267-398 | Likewise with the client stopped, for the server in either of its waits |
| Once.ClientRunsOut | HW5/B013040033_TCPIP_HW5/myftp.c:545-580 | What remains: a client still running after a run has used up at most 12 events for every packet that was in flight, and 11 less the timeouts already counted |
| Exchange.CurrentArrives | HW5/B013040033_TCPIP_HW5/myftp.c:603-659 | Delivering the server's current packet leaves the client holding that chunk, whether it had it before or not, and its answer in flight |
| Exchange.AnswerArrives | HW5/B013040033_TCPIP_HW5/myftp.c:451-473 | Delivering that answer moves the server to the next chunk, or to its successful return after the last |
| Delivery.CutRequest | HW5/B013040033_TCPIP_HW5/myftp.c:379-437 | Of a request with one inverted bit, cut to six bytes: it has opcode ACK for one bit only, and once the opcode is hit its checksum is right if and only if the bytes cut off sum, modulo 65535, to what the opcode has gained |
| Delivery.DamagedRequest | HW5/B013040033_TCPIP_HW5/myftp.c:407-473 | Such a packet advances the server if and only if that is the case and the name's first two bytes are the current block; it never ends the transfer |
| Delivery.DamagedRequestExactly | HW5/B013040033_TCPIP_HW5/myftp.c:379-474 | Exactly what the server does on it: ignores it if the opcode is untouched; repeats its packet if it is hit, unless the cut-off bytes hide that; advances in the one case above |
| Delivery.Verdicts | HW5/B013040033_TCPIP_HW5/myftp.c:406-474 | For any six bytes: which opcode, block and checksum make the server advance, end or repeat its packet, each as an if-and-only-if |
| Delivery.DamagedAck | HW5/B013040033_TCPIP_HW5/myftp.c:406-448 | An ACK with one inverted bit makes the server repeat its packet at once, for every bit but the one that makes it a request, and changes no block, chunk or phase |
| Delivery.DamagedError | HW5/B013040033_TCPIP_HW5/myftp.c:413-448 | An ERROR with one inverted bit is judged by the block it then names if its opcode is whole, and otherwise makes the server repeat its packet |
| Delivery.OldAck | HW5/B013040033_TCPIP_HW5/myftp.c:460-464 | An intact ACK of any block but 0 and the current one is passed over |
| Delivery.AnythingStarts | HW5/B013040033_TCPIP_HW5/myftp.c:272-303 | A server waiting for a request starts with chunk 1 on any intact packet, whatever its opcode |
| Delivery.LongRequest | HW5/B013040033_TCPIP_HW5/myftp.c:262-276 | It reads no more bytes than a request for its own file has |
| Delivery.DamagedData | HW5/B013040033_TCPIP_HW5/myftp.c:589-602 | Any packet with an inverted bit is answered with ERROR and leaves the client's file and block alone |
| Delivery.NotData | HW5/B013040033_TCPIP_HW5/myftp.c:589-617 | An intact packet that is not DATA changes nothing and is not answered |
| Delivery.EmptyDatagram | HW5/B013040033_TCPIP_HW5/myftp.c:581-587 | An empty datagram ends either end at once, without success and without a packet |
| Delivery.ShortPacket | HW5/B013040033_TCPIP_HW5/myftp.c:617-658 | A datagram shorter than a header never makes the client write or finish |
| Delivery.CutHeader | HW5/B013040033_TCPIP_HW5/myftp.c:617-621 | But a DATA header of the expected number, cut before a last byte of zero, leads to `fwrite` with a negative size |
| Delivery.LongData | HW5/B013040033_TCPIP_HW5/myftp.c:543-544 | The client reads 518 bytes of a longer datagram |
| Delivery.UnsoundIsHarmless | HW5/B013040033_TCPIP_HW5/myftp.c:406-448 | A received packet that is not an intact ACK, though FRQ and ERROR are acted on before the checksum test, leaves block, chunk and phase alone and causes at most a repeat of the current packet |
| MyftpServer.StartMyftpServer | HW5/B013040033_TCPIP_HW5/myftp.c:231-483 | For every inbox the server's nested loops end in exactly the state, and send exactly the packets, of the step-by-step specification |
| MyftpServer.AwaitFrq | HW5/B013040033_TCPIP_HW5/myftp.c:267-305 | The request loop, against the same specification |
| MyftpServer.LoadChunk | HW5/B013040033_TCPIP_HW5/myftp.c:336-356 | Reading at the current file position leaves in the packet buffer exactly the next chunk, in a buffer shrunk to fit if it is short |
| MyftpServer.AwaitAck | HW5/B013040033_TCPIP_HW5/myftp.c:376-476 | The inner loop, against the same specification |
| MyftpServer.JudgeAck | HW5/B013040033_TCPIP_HW5/myftp.c:406-474 | The tests on a received packet, in the order the code makes them, give the verdict that `Delivery.Verdicts` and the lemmas on damaged packets determine |
| MyftpClient.StartMyftpClient | HW5/B013040033_TCPIP_HW5/myftp.c:485-667 | For every inbox the client's loop ends in exactly the state, output file included, and sends exactly the packets, of the specification; what they are on a timeout or damage, and what they achieve, `Progress.TimeoutRepairs`, `TimeoutStarts` and `DamageRepairs` say |
| MyftpClient.HandlePacket | HW5/B013040033_TCPIP_HW5/myftp.c:589-660 | The tests on a received packet and the writing of the expected chunk |
| Buffers.SealInPlace | HW5/B013040033_TCPIP_HW5/myftp.c:358-361 | The four header assignments in place give the sealed packet and keep the data |
| Buffers.RecvFrom | HW5/B013040033_TCPIP_HW5/myftp.c:379-379 | A datagram overwrites the front of the buffer; the rest keeps what it held |
| Numbering.RulesAgree | HW5/B013040033_TCPIP_HW5/myftp.c:465-472 | The server's wrap (65000 becomes 2) and the client's (64999 becomes 1, after the ACK) produce one and the same numbering |
| Numbering.SameNumber | HW5/B013040033_TCPIP_HW5/myftp.c:465-471 | Two chunks share a number if and only if they are equal, or both from chunk 2 on and a multiple of 64998 apart |
| Packets.Chunking | HW5/B013040033_TCPIP_HW5/myftp.c:342-368 | A file of n bytes is n/512+1 chunks that spell it, all full but the last, which has n mod 512 bytes |
| Packets.DataShape | HW5/B013040033_TCPIP_HW5/myftp.h:35-43 | A DATA packet byte by byte: 0, 2, checksum, block in network order, data |
| Packets.ControlShape | HW5/B013040033_TCPIP_HW5/myftp.h:35-43 | An ACK or ERROR likewise: six bytes |
| Packets.RequestShape | HW5/B013040033_TCPIP_HW5/myftp.c:500-512 | A file request likewise: 0, 1, checksum, the name and its terminator, |name| + 5 bytes |
| Packets.ReceivedIntact | HW5/B013040033_TCPIP_HW5/myftp.c:543-590 | The client's check over its whole zeroed buffer equals a check over the exact packet, of odd or even length |
| InternetChecksum.InCksum | HW5/B013040033_TCPIP_HW5/myftp.c:668-689 | The 32-bit loop and two folds compute the complement of the canonical ones'-complement sum (RFC 1071, section 1) and never overflow, up to 65537 bytes (65536 on a big-endian host) |
| InternetChecksum.NoOverflowExactly | HW5/B013040033_TCPIP_HW5/myftp.c:671-683 | Those lengths are exactly the ones at which no buffer overflows the accumulator |
| Checksum.OrderIndependence | HW5/B013040033_TCPIP_HW5/myftp.c:675-688 | Computing with byte-swapped words gives the byte-swapped checksum for every buffer, odd trailing byte included (RFC 1071, section 2(B)) |
| Checksum.WorkedExample | HW5/B013040033_TCPIP_HW5/myftp.c:668-689 | The worked example of RFC 1071, section 3 |
| Checksum.SealAnyOrder | HW5/B013040033_TCPIP_HW5/myftp.c:358-361 | Hosts of both byte orders seal a packet to the same bytes, and each accepts it |
| Checksum.BitFlipDetected | HW5/B013040033_TCPIP_HW5/myftp.c:668-689 | Inverting any one bit of any intact buffer makes the check fail |
| Checksum.WordChange | HW5/B013040033_TCPIP_HW5/myftp.c:668-689 | Exactly which replacements of one aligned word the check misses: 0000 by FFFF, and FFFF by 0000 if something else is non-zero |
| Icmp.FillCksum | HW6/HW6/fill_packet.c:79-105 | The same checksum over the 64-byte ICMP message |
| Icmp.FillIcmphdr | HW6/HW6/fill_packet.c:36-56 | Field by field: type 8, code 0, process id modulo 65536 in bytes 4 and 5 and sequence number modulo 65536 in bytes 6 and 7, both in network order, the payload untouched, and a checksum any host accepts |
| ChatList.List.Link | HW3/HW3/recv_from_client.c:168-187 | Prepends the node; the result is a doubly linked list if and only if the node came with a clear `prev`, and a clear `next` when the list was empty |
| ChatList.List.Unlink | HW3/HW3/recv_from_client.c:188-217 | Removes that one node and keeps the list a list, the others in order |
| ChatList.List.Dislink | HW3/HW3/recv_from_client.c:188-217 | The unlinking code on any links whatever: its effect on the list head and on both neighbours; the head moves only if the node's `prev` is null |
| ChatList.List.Size | HW3/HW3/recv_from_client.c:219-236 | The walk ends, with the number of linked nodes |
| ChatServer.Server.Post | HW3/HW3/recv_from_client.c:118-127 | Linking an uncleared message keeps the lists valid exactly when the leftover links are clear |
| ChatServer.StrayLink | HW3/HW3/send_to_client.c:190-194 | One message with a stray `prev`, posted to an empty server: no longer a list, and any number of passes of the draining loop leaves it at the head |
| ChatServer.DrainPasses | HW3/HW3/send_to_client.c:190-194 | No pass of that loop gets past a first node with a `prev` |
| ChatServer.Server.SendToMatching | HW3/HW3/send_to_client.c:112-179 | The walk over the member list sends the lines for the addressed members; each is the sender's name, " : " and the text, or of a private message its body |
| ChatServer.Server.DispatchBatch | HW3/HW3/send_to_client.c:88-186 | The loop over a batch sends the newest message's lines once for every message queued |
| ChatServer.Server.DispatchRound | HW3/HW3/send_to_client.c:82-198 | A whole round: that, with every line so made up, and then an empty message list and an unchanged member list |
| ChatServer.GroupRound | HW3/HW3/send_to_client.c:88-159 | If the newest message is for its group, a round sends on a descriptor as many lines as messages queued times members of that group with that descriptor |
| ChatServer.WhisperRound | HW3/HW3/send_to_client.c:88-180 | If it is private, as many as messages queued times members with that descriptor whose group or name is the target |
| Chat.WhisperRoundTrip | HW3/HW3/send_to_client.c:99-127 | A private message, with any number of spaces before its target, is routed to that target with that body |
| Chat.RouteExactly | HW3/HW3/send_to_client.c:112-127 | Which texts are for the group, which are private with what target and body, and which lack a target: three equivalences over all texts |
| Chat.GroupReaches | HW3/HW3/send_to_client.c:141-154 | For every member list: a message not starting with "/W " is sent on a descriptor once for each member with it whose group is the sender's, as the sender's name, " : " and the whole text |
| Chat.WhisperReaches | HW3/HW3/send_to_client.c:163-177 | For every member list: a private message is sent on a descriptor once for each member with it whose group or whose name is the target, as the sender's name, " : " and the body |
| Chat.DeliverInOrder | HW3/HW3/send_to_client.c:141-179 | The sends are in the order of the member list |
| Chat.DeliverCount | HW3/HW3/send_to_client.c:141-179 | For every member list: a descriptor is sent the line once for each addressed member on it, and nothing else is sent |
| Chat.DeliverExactly | HW3/HW3/send_to_client.c:141-179 | For every member list: a member gets what it should, once or nothing, if and only if no other addressed member has its descriptor |
| ChatResults.DispatchReaches | HW3/HW3/send_to_client.c:141-179 | In every reachable state, for every client: its descriptor is sent the line once if the client is linked and addressed, and not otherwise, if and only if no other client's linked record with that descriptor is addressed; and if its socket is open, such another client has closed its own and waits to be unlinked |
| ChatResults.DispatchToGroup | HW3/HW3/send_to_client.c:141-154 | In every reachable state, dispatching a message not starting with "/W " adds to the wire, on each descriptor, one line with sender and text for every linked client of that group with that descriptor, and nothing else |
| ChatResults.DispatchPrivately | HW3/HW3/send_to_client.c:163-177 | Likewise a private one: one line with sender and body for every linked client whose group or name is the target |
| ChatResults.SocketReused | HW3/HW3/recv_from_client.c:157-163 | A run in which a client's last message, sent to its own group, reaches only a client of another group |
| ChatResults.EveryMessageDrainedOnce | HW3/HW3/send_to_client.c:190-194 | Under every interleaving the rounds, reversed, followed by the queue, reversed, are the messages in the order of posting |
| ChatResults.RoundDispatches | HW3/HW3/send_to_client.c:88-89 | In every reachable state the newest message of a finished round has been dispatched as often as the round has messages, its others never |
| ChatResults.NothingLostExactly | HW3/HW3/send_to_client.c:84-196 | All drained messages have been dispatched exactly once if and only if no round found more than one |
| ChatResults.MessageLost | HW3/HW3/send_to_client.c:88-186 | A run of one client that posts twice before a round: one message goes out twice, the other never |
| ChatResults.UndisturbedRound | HW3/HW3/send_to_client.c:84-196 | The dispatcher's steps, uninterrupted, send what the loops over the linked lists send |
| ChatResults.MutualExclusion | HW3/HW3/recv_from_client.c:83-163 | In every reachable state at most one client is at the member list and at most one at the message list, none at the former while the dispatcher walks it, none at the latter during a round |
| ChatResults.ClientsInOrder | HW3/HW3/recv_from_client.c:34-166 | In every run each client goes through its sections in the order of the code: perhaps the group list, the notice, joining, messages, leaving |
| ChatResults.AllOrdersOccur | HW3/HW3/recv_from_client.c:34-166 | Every such sequence occurs in a run |
| ChatResults.NoDeadlock | HW3/HW3/send_to_client.c:84-196 | For any number of clients, in every reachable state the dispatcher or a client that holds a lock can step |
| ChatResults.EveryWaiterCanBeServed | HW3/HW3/recv_from_client.c:83-163 | From every reachable state every waiting client can still get its lock |
| ChatLocks.InvNext | HW3/HW3/recv_from_client.c:83-163 | Every step keeps: one owner per lock, matching the threads' positions; open sockets with different descriptors; the member list holding each joined client once; messages in order; the dispatch log |
| ChatThreads.JoinSection | HW3/HW3/recv_from_client.c:97-99 | Linking the record on the heap gives the member list of the step system |
| ChatThreads.LeaveSection | HW3/HW3/recv_from_client.c:160-163 | So does unlinking it |
| ChatThreads.PostSection | HW3/HW3/recv_from_client.c:118-127 | Linking a message gives its queue if and only if the message's leftover links are clear |
| ChatThreads.RoundSection | HW3/HW3/send_to_client.c:84-196 | A dispatcher's round on the heap ends with the lists, and the sends, of its uninterrupted steps |

## Left out

- HW5 discovery and set-up (interface lookup, broadcast, both `main` functions): socket calls, with no contract of their own. Both ends are taken to have the same file name, as the broadcast phase arranges.
- Clocks: a timeout may happen at any time. Nothing is claimed about how soon a transfer completes.
- Damage to more than one bit of a delivery, and datagrams shortened by the network: the checksum does not promise to detect them.
- Failing `sendto`, `fopen` and `fread`, and packets from third parties.
- `PreFilePacket`, memory release and printing in HW5: they have no effect on the protocol.
- Liveness in real time: after a lost ACK the client's 1 s ERROR is ignored and restarts the server's 2 s wait, so only the possibility of completion is claimed.
- HW3 accesses without a lock (the list head read before the login notice, the exit notice, one size call): only the sections under a lock are modelled. The notices and the group list themselves are not.
- HW3 failing socket calls, which end the server (`DIE`), among them a `send` on a descriptor that its client has closed and nobody has been given yet: the model records the send and goes on.
- HW3 fixed 512-byte strings: texts are sequences. A text that is `/W` followed by spaces only makes `strtok` return NULL; such a text is a precondition of dispatch, and `ChatLocks` never posts one.
- The order of a client thread's sections is in `ChatLocks`, not in one method; `ChatThreads` has the sections one by one. Members that join or leave between two messages of a round are in `ChatLocks` too, not in the heap methods, which run one round with the lists held still.
- HW3 `client.c` and `server.c`, HW4, HW6 `main.c`, `pcap.c` and the IP header: sockets, ioctl and libpcap.
