/** HW6: the echo request header, filled in place over a 64-byte ICMP message. */
module Icmp {
  import opened Words
  import opened Checksum
  import opened InternetChecksum

  const ICMP_HEADER := 8
  const ICMP_DATA := 92 - 20 - 8 - ICMP_HEADER

  method FillCksum(order: Order, message: array<byte>) returns (answer: u16)
    requires message.Length == 64
    ensures answer == Cksum(order, message[..])
  {
    answer := InCksum(order, message, ICMP_HEADER + ICMP_DATA);
    assert message[..ICMP_HEADER + ICMP_DATA] == message[..];
  }

  /** `htons` truncates both the process id and the sequence number to 16 bits. */
  method FillIcmphdr(order: Order, message: array<byte>, pid: nat, sequence: nat)
    requires message.Length == 64
    modifies message
    ensures message[0] == 8 && message[1] == 0 && message[8..] == old(message[8..])
    ensures NetWord(message[4], message[5]) == pid % 0x10000 && NetWord(message[6], message[7]) == sequence % 0x10000
    ensures forall receiver: Order :: Intact(receiver, message[..])
  {
    message[0] := 8;
    message[1] := 0;
    var id, number := NetBytes(pid % 0x10000), NetBytes(sequence % 0x10000);
    message[4], message[5] := id[0], id[1];
    message[6], message[7] := number[0], number[1];
    message[2], message[3] := 0, 0;
    ghost var clear := message[..];
    assert clear == clear[2 := 0][3 := 0];
    var answer := FillCksum(order, message);
    var bytes := WordBytes(order, answer);
    message[2], message[3] := bytes[0], bytes[1];
    assert message[..] == Seal(order, clear);
    forall receiver: Order ensures Intact(receiver, message[..]) {
      SealAnyOrder(order, receiver, clear);
    }
  }
}
