/** The checksum loop as both programs run it, in a 32-bit signed accumulator. */
module InternetChecksum {
  import opened Words
  import opened Checksum

  newtype int32 = x: int | -0x8000_0000 <= x < 0x8000_0000

  const INT_MAX := 0x7FFF_FFFF

  /** The longest buffer whose word sum always fits an `int`. */
  function Longest(order: Order): nat {
    if order == Little then 65537 else 65536
  }

  /** The largest word sum of a buffer of `len` bytes: all of them 0xFF. */
  function MaxSum(order: Order, len: nat): nat {
    65535 * (len / 2) + (if len % 2 == 1 then Word(order, 255, 0) else 0)
  }

  lemma {:induction false} SumBound(order: Order, s: seq<byte>)
    ensures WordSum(order, s) <= MaxSum(order, |s|)
    ensures (forall i :: 0 <= i < |s| ==> s[i] == 255) ==> WordSum(order, s) == MaxSum(order, |s|)
    decreases |s|
  {
    if |s| >= 2 {
      SumBound(order, s[2..]);
    }
  }

  /** The accumulator cannot overflow on any buffer of length `len` iff `len <= Longest(order)`. */
  lemma NoOverflowExactly(order: Order, len: nat)
    ensures (forall s: seq<byte> :: |s| == len ==> WordSum(order, s) <= INT_MAX) <==> len <= Longest(order)
  {
    forall s: seq<byte> | |s| == len && len <= Longest(order)
      ensures WordSum(order, s) <= INT_MAX
    {
      SumBound(order, s);
    }
    if len > Longest(order) {
      var ones: seq<byte> := seq(len, _ => 255);
      SumBound(order, ones);
      assert WordSum(order, ones) > INT_MAX;
    }
  }

  /** Two end-around folds bring a 31-bit sum to canonical form, up to bit 16. */
  lemma TwoFolds(total: nat)
    requires total <= INT_MAX
    ensures var once := total / 0x10000 + total % 0x10000;
            once + once / 0x10000 <= INT_MAX && (once + once / 0x10000) % 0x10000 == Fold(total)
  {
    var high, low := total / 0x10000, total % 0x10000;
    var once := high + low;
    assert total == once + 65535 * high;
    if total > 0 {
      var r := if once < 0x10000 then once else once - 65535;
      AddMultiple(once, high);
      FoldUnique(total, r);
    }
  }

  /** The last lines: fold twice, complement, truncate to 16 bits. */
  method FoldAndComplement(total: int32) returns (answer: u16)
    requires total >= 0
    ensures answer == 65535 - Fold(total as int)
  {
    TwoFolds(total as int);
    var sum := total / 0x10000 + total % 0x10000;
    sum := sum + sum / 0x10000;
    answer := 65535 - (sum % 0x10000) as int;
  }

  method InCksum(order: Order, addr: array<byte>, len: nat) returns (answer: u16)
    requires len <= addr.Length && len <= Longest(order)
    ensures answer == Cksum(order, addr[..len])
  {
    var nleft := len;
    var sum: int32 := 0;
    var w := 0;
    ghost var total, rest := WordSum(order, addr[..len]), addr[..len];
    SumBound(order, rest);
    while nleft > 1
      invariant w + nleft == len && 0 <= sum && rest == addr[w..len]
      invariant sum as int + WordSum(order, rest) == total <= INT_MAX
    {
      SumStep(order, rest);
      rest := rest[2..];
      sum := sum + Word(order, addr[w], addr[w + 1]) as int32;
      w := w + 2;
      nleft := nleft - 2;
    }
    if nleft == 1 {
      sum := sum + Word(order, addr[w], 0) as int32;
    }
    assert sum as int == total;
    answer := FoldAndComplement(sum);
  }
}
