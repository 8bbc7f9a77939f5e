/** The C library calls and header assignments both ends apply to their packet buffers. */
module Buffers {
  import opened Words
  import opened Checksum
  import opened InternetChecksum
  import opened Packets

  method Memset0(buf: array<byte>)
    modifies buf
    ensures buf[..] == Zeros(buf.Length)
  {
    for i := 0 to buf.Length
      invariant forall j :: 0 <= j < i ==> buf[j] == 0
    {
      buf[i] := 0;
    }
  }

  /** `recvfrom`: at most a buffer's worth of the datagram, the rest of the buffer untouched. */
  method RecvFrom(buf: array<byte>, datagram: seq<byte>) returns (received: nat)
    modifies buf
    ensures buf[..] == Overlaid(datagram, old(buf[..]))
    ensures forall i :: 0 <= i < buf.Length ==> buf[i] == if i < |datagram| then datagram[i] else old(buf[i])
    ensures received == if |datagram| < buf.Length then |datagram| else buf.Length
  {
    received := if |datagram| < buf.Length then |datagram| else buf.Length;
    for i := 0 to received
      invariant buf[..i] == datagram[..i]
      invariant buf[i..] == old(buf[i..])
    {
      buf[i] := datagram[i];
    }
  }

  /** `fread` of up to 512 bytes at file position `pos` into the data part of `buf`. */
  method FRead(file: seq<byte>, pos: nat, buf: array<byte>) returns (n: nat)
    requires pos <= |file|
    requires HEADER + MFMAXDATA <= buf.Length || (HEADER <= buf.Length && pos == |file|)
    modifies buf
    ensures n == if |file| - pos < MFMAXDATA then |file| - pos else MFMAXDATA
    ensures HEADER + n <= buf.Length
    ensures buf[HEADER..HEADER + n] == file[pos..pos + n]
  {
    n := if |file| - pos < MFMAXDATA then |file| - pos else MFMAXDATA;
    for i := 0 to n
      invariant buf[HEADER..HEADER + i] == file[pos..pos + i]
    {
      buf[HEADER + i] := file[pos + i];
    }
  }

  /** The four assignments made before every send: opcode, cleared checksum, block, checksum. */
  method SealInPlace(order: Order, buf: array<byte>, opcode: byte, block: u16)
    requires HEADER <= buf.Length <= Longest(order)
    modifies buf
    ensures buf[..] == Seal(order, Header(opcode, block) + old(buf[HEADER..]))
  {
    var number := NetBytes(block);
    buf[0], buf[1] := 0, opcode;
    buf[2], buf[3] := 0, 0;
    buf[4], buf[5] := number[0], number[1];
    ghost var clear := Header(opcode, block) + old(buf[HEADER..]);
    assert buf[..] == clear == clear[2 := 0][3 := 0];
    var sum := InCksum(order, buf, buf.Length);
    assert buf[..buf.Length] == buf[..];
    var stored := WordBytes(order, sum);
    buf[2], buf[3] := stored[0], stored[1];
  }

  /** The same assignments over a packet buffer that already holds its data. */
  method SealData(order: Order, buf: array<byte>, block: u16) returns (packet: seq<byte>)
    requires HEADER <= buf.Length <= Longest(order)
    modifies buf
    ensures packet == DataPacket(order, block, old(buf[HEADER..]))
    ensures buf[HEADER..] == old(buf[HEADER..])
  {
    SealInPlace(order, buf, DATA, block);
    packet := buf[..];
    assert packet[HEADER..] == (Header(DATA, block) + old(buf[HEADER..]))[HEADER..];
  }

  /** The client's request, filled in once and sent unchanged every time. */
  method MakeFrq(order: Order, name: seq<byte>) returns (frq: array<byte>)
    requires |name| <= 120
    ensures fresh(frq) && frq[..] == FrqPacket(order, name)
  {
    frq := new byte[4 + |name| + 1];
    Memset0(frq);
    frq[0], frq[1] := 0, FRQ;
    for i := 0 to |name|
      invariant frq[..4] == [0, FRQ, 0, 0]
      invariant frq[4..4 + i] == name[..i]
      invariant forall j :: 4 + i <= j < frq.Length ==> frq[j] == 0
    {
      frq[4 + i] := name[i];
    }
    ghost var clear := [0, FRQ, 0, 0] + name + [0];
    assert frq[..] == clear == clear[2 := 0][3 := 0];
    var sum := InCksum(order, frq, frq.Length);
    assert frq[..frq.Length] == frq[..];
    var stored := WordBytes(order, sum);
    frq[2], frq[3] := stored[0], stored[1];
  }
}
