/** The myftp header, its four packets, and the file's chunks. */
module Packets {
  import opened Words
  import opened Checksum

  const FRQ: byte := 1
  const DATA: byte := 2
  const ACK: byte := 3
  const ERROR: byte := 4

  const MFMAXDATA := 512
  const HEADER := 6

  /** opcode, cleared checksum, block; all but the checksum in network order. */
  function Header(opcode: byte, block: u16): (h: seq<byte>)
    ensures |h| == HEADER
  {
    [0, opcode, 0, 0] + NetBytes(block)
  }

  function DataPacket(order: Order, block: u16, chunk: seq<byte>): (p: seq<byte>)
    ensures |p| == HEADER + |chunk|
  {
    Seal(order, Header(DATA, block) + chunk)
  }

  /** An ACK or an ERROR. */
  function Control(order: Order, opcode: byte, block: u16): (p: seq<byte>)
    ensures |p| == HEADER
  {
    Seal(order, Header(opcode, block))
  }

  /** A file request: the name, with its terminator, starts where other packets keep the block. */
  function FrqPacket(order: Order, name: seq<byte>): (p: seq<byte>)
    ensures |p| == 4 + |name| + 1
  {
    Seal(order, [0, FRQ, 0, 0] + name + [0])
  }

  function Opcode(d: seq<byte>): u16
    requires |d| >= HEADER
  {
    NetWord(d[0], d[1])
  }

  function BlockOf(d: seq<byte>): u16
    requires |d| >= HEADER
  {
    NetWord(d[4], d[5])
  }

  lemma ControlRead(sender: Order, receiver: Order, opcode: byte, block: u16)
    ensures var p := Control(sender, opcode, block);
            Opcode(p) == opcode && BlockOf(p) == block && Intact(receiver, p)
  {
    SealAnyOrder(sender, receiver, Header(opcode, block));
  }

  /** An ACK or ERROR on the wire. */
  lemma ControlShape(order: Order, opcode: byte, block: u16)
    ensures var p := Control(order, opcode, block);
            |p| == 6 && p[0] == 0 && p[1] == opcode && 0x100 * p[4] as int + p[5] as int == block
  {
  }

  /** A DATA packet on the wire. */
  lemma DataShape(order: Order, block: u16, chunk: seq<byte>)
    ensures var p := DataPacket(order, block, chunk);
            |p| == 6 + |chunk| && p[0] == 0 && p[1] == 2 && p[6..] == chunk &&
            0x100 * p[4] as int + p[5] as int == block
  {
  }

  /** A file request on the wire. */
  lemma RequestShape(order: Order, name: seq<byte>)
    ensures var p := FrqPacket(order, name);
            |p| == 5 + |name| && p[0] == 0 && p[1] == 1 && p[4..] == name + [0]
  {
  }

  lemma DataRead(sender: Order, receiver: Order, block: u16, chunk: seq<byte>)
    ensures var p := DataPacket(sender, block, chunk);
            Opcode(p) == DATA && BlockOf(p) == block && Intact(receiver, p) && p[HEADER..] == chunk
  {
    SealAnyOrder(sender, receiver, Header(DATA, block) + chunk);
  }

  /** `recvfrom` into a zeroed buffer of `size` bytes: truncate, or leave the rest zero. */
  function Received(d: seq<byte>, size: nat): (b: seq<byte>)
    ensures |b| == size
  {
    if |d| >= size then d[..size] else d + Zeros(size - |d|)
  }

  /** `recvfrom` into a buffer that is not cleared first. */
  function Overlaid(d: seq<byte>, was: seq<byte>): (b: seq<byte>)
    ensures |b| == |was|
  {
    if |d| >= |was| then d[..|was|] else d + was[|d|..]
  }

  /** Clearing a buffer before `recvfrom`. */
  lemma ClearedBuffer(d: seq<byte>, n: nat)
    ensures Overlaid(d, Zeros(n)) == Received(d, n)
  {
  }

  /** The client checks its whole zero-filled buffer; the answer is that of the exact packet. */
  lemma ReceivedIntact(order: Order, d: seq<byte>, size: nat)
    requires |d| <= size
    ensures Cksum(order, Received(d, size)) == Cksum(order, d)
  {
    if |d| == size {
      assert d[..size] == d;
    } else {
      PadInvisible(order, d, size - |d|);
    }
  }

  // ---------- chunks ----------

  function Count(file: seq<byte>): (n: nat)
    ensures n >= 1
  {
    |file| / MFMAXDATA + 1
  }

  /** Bytes in the first `k` chunks. */
  function Cut(file: seq<byte>, k: nat): (c: nat)
    ensures c <= |file|
  {
    if MFMAXDATA * k <= |file| then MFMAXDATA * k else |file|
  }

  function Prefix(file: seq<byte>, k: nat): seq<byte> {
    file[..Cut(file, k)]
  }

  /** What the `i`-th `fread` of 512 bytes yields. */
  function Chunk(file: seq<byte>, i: nat): seq<byte>
    requires i >= 1
  {
    file[Cut(file, i - 1)..Cut(file, i)]
  }

  lemma ChunkSize(file: seq<byte>, i: nat)
    requires i >= 1
    ensures i < Count(file) <==> |Chunk(file, i)| == MFMAXDATA
    ensures i >= Count(file) ==> |Chunk(file, i)| < MFMAXDATA && Prefix(file, i) == file
    ensures i > Count(file) ==> Chunk(file, i) == []
    ensures |Chunk(file, i)| <= MFMAXDATA
    ensures Prefix(file, i - 1) + Chunk(file, i) == Prefix(file, i)
  {
  }

  function Concat(chunks: seq<seq<byte>>): seq<byte> {
    if chunks == [] then [] else Concat(chunks[..|chunks| - 1]) + chunks[|chunks| - 1]
  }

  function Chunks(file: seq<byte>, k: nat): (c: seq<seq<byte>>) {
    seq(k, i requires 0 <= i => Chunk(file, i + 1))
  }

  lemma {:induction false} ConcatPrefix(file: seq<byte>, k: nat)
    ensures Concat(Chunks(file, k)) == Prefix(file, k)
  {
    if k > 0 {
      ConcatPrefix(file, k - 1);
      assert Chunks(file, k)[..k - 1] == Chunks(file, k - 1);
      ChunkSize(file, k);
    }
  }

  /** n bytes make n / 512 + 1 chunks that spell the file; all but the last are full,
      the last is shorter, possibly empty. */
  lemma Chunking(file: seq<byte>)
    ensures Count(file) == |file| / 512 + 1 && Concat(Chunks(file, Count(file))) == file
    ensures forall i :: 1 <= i < Count(file) ==> |Chunk(file, i)| == 512
    ensures |Chunk(file, Count(file))| == |file| % 512
  {
    ConcatPrefix(file, Count(file));
    forall i | 1 <= i < Count(file) ensures |Chunk(file, i)| == MFMAXDATA {
      ChunkSize(file, i);
    }
  }
}
