/** Bytes, 16-bit words and the two host byte orders. */
module Words {
  type byte = x: int | 0 <= x < 0x100
  type u16 = x: int | 0 <= x < 0x10000

  /** Order in which a host stores the two bytes of an `unsigned short`. */
  datatype Order = Little | Big

  /** The `unsigned short` a host of byte order `order` reads at two consecutive addresses. */
  function Word(order: Order, first: byte, second: byte): u16 {
    match order
    case Little => first + 0x100 * second
    case Big => 0x100 * first + second
  }

  /** The two bytes such a host stores for `w`. */
  function WordBytes(order: Order, w: u16): (bytes: seq<byte>)
    ensures |bytes| == 2 && Word(order, bytes[0], bytes[1]) == w
  {
    match order
    case Little => [w % 0x100, w / 0x100]
    case Big => [w / 0x100, w % 0x100]
  }

  /** `htons` followed by a store: network order, whatever the host. */
  function NetBytes(w: u16): (bytes: seq<byte>)
    ensures |bytes| == 2 && NetWord(bytes[0], bytes[1]) == w
  {
    WordBytes(Big, w)
  }

  /** A load followed by `ntohs`. */
  function NetWord(first: byte, second: byte): u16 {
    Word(Big, first, second)
  }

  function SwapBytes(w: u16): u16 {
    0x100 * (w % 0x100) + w / 0x100
  }

  function Zeros(n: nat): (z: seq<byte>)
    ensures |z| == n && forall i :: 0 <= i < n ==> z[i] == 0
  {
    seq(n, _ => 0)
  }

  const BIT: seq<byte> := [1, 2, 4, 8, 16, 32, 64, 128]

  /** The byte with bit `j` inverted. */
  function FlipBit(b: byte, j: nat): (r: byte)
    requires j < 8
    ensures r == b + BIT[j] || r == b - BIT[j]
  {
    if (b / BIT[j]) % 2 == 1 then b - BIT[j] else
      assert b + BIT[j] < 0x100 by { BitClear(b, j); }
      b + BIT[j]
  }

  lemma Quotient(x: int, w: int, q: int, m: int)
    requires w > 0 && 0 <= m < w && x == w * q + m
    ensures x / w == q && x % w == m
  {
    var d := x / w - q;
    assert x % w == m - w * d;
    assert (d >= 1 ==> w * d >= w) && (d <= -1 ==> w * d <= -w);
  }

  /** Bit `j`, of weight 2 to the `j`, is inverted, and the bits below and above it are not. */
  lemma OneBit(b: byte, j: nat)
    requires j < 8
    ensures BIT[0] == 1 && (j > 0 ==> BIT[j] == 2 * BIT[j - 1] as int)
    ensures var r, w := FlipBit(b, j), BIT[j];
            r / w % 2 != b / w % 2 && r % w == b % w && r / w / 2 == b / w / 2
  {
    var r, w := FlipBit(b, j), BIT[j] as int;
    assert BIT[j] in [1, 2, 4, 8, 16, 32, 64, 128];
    var q := if b / w % 2 == 1 then b / w - 1 else b / w + 1;
    assert w * (b / w - 1) == w * (b / w) - w && w * (b / w + 1) == w * (b / w) + w;
    Quotient(r, w, q, b % w);
  }

  lemma BitClear(b: byte, j: nat)
    requires j < 8 && (b / BIT[j]) % 2 == 0
    ensures b + BIT[j] < 0x100
  {
    assert BIT[j] in [1, 2, 4, 8, 16, 32, 64, 128];
    if j == 0 {} else if j == 1 {} else if j == 2 {} else if j == 3 {}
    else if j == 4 {} else if j == 5 {} else if j == 6 {} else {}
  }

  /** A datagram with exactly one bit inverted. */
  function Flip(s: seq<byte>, bit: nat): (r: seq<byte>)
    requires bit < 8 * |s|
    ensures |r| == |s|
  {
    s[bit / 8 := FlipBit(s[bit / 8], bit % 8)]
  }
}
