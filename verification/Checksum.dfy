/** The Internet checksum of RFC 1071 over unbounded integers, and what it detects. */
module Checksum {
  import opened Words

  /** Sum of the 16-bit words of `s`; an odd trailing byte is paired with a zero byte. */
  function WordSum(order: Order, s: seq<byte>): nat
    decreases |s|
  {
    if |s| == 0 then 0
    else if |s| == 1 then Word(order, s[0], 0)
    else Word(order, s[0], s[1]) + WordSum(order, s[2..])
  }

  /** The ones'-complement sum in canonical form: 0 only for an all-zero total. */
  function Fold(total: nat): (r: u16) {
    if total == 0 then 0 else (total - 1) % 65535 + 1
  }

  function Cksum(order: Order, s: seq<byte>): u16 {
    65535 - Fold(WordSum(order, s))
  }

  /** The receiver's test `in_cksum(...) == 0`. */
  predicate Intact(order: Order, s: seq<byte>) {
    Cksum(order, s) == 0
  }

  lemma IntactMeaning(order: Order, s: seq<byte>)
    ensures Intact(order, s) <==> WordSum(order, s) > 0 && WordSum(order, s) % 65535 == 0
  {
  }

  // ---------- structure of the sum ----------

  /** What changing the byte at position `i` by `d` adds to the sum. */
  function Scaled(order: Order, i: nat, d: int): int {
    if (i % 2 == 0) == (order == Little) then d else 0x100 * d
  }

  lemma {:induction false} SumUpdate(order: Order, s: seq<byte>, i: nat, b: byte)
    requires i < |s|
    ensures WordSum(order, s[i := b]) == WordSum(order, s) + Scaled(order, i, b as int - s[i] as int)
    decreases |s|
  {
    var t := s[i := b];
    if i >= 2 {
      assert t[2..] == s[2..][i - 2 := b];
      SumUpdate(order, s[2..], i - 2, b);
    } else if |s| >= 2 {
      assert t[2..] == s[2..];
    }
  }

  lemma SumStep(order: Order, s: seq<byte>)
    requires |s| >= 2
    ensures WordSum(order, s) == Word(order, s[0], s[1]) + WordSum(order, s[2..])
  {
  }

  lemma {:induction false} SumConcat(order: Order, a: seq<byte>, b: seq<byte>)
    requires |a| % 2 == 0
    ensures WordSum(order, a + b) == WordSum(order, a) + WordSum(order, b)
    decreases |a|
  {
    if |a| == 0 {
      assert a + b == b;
    } else {
      assert (a + b)[2..] == a[2..] + b;
      SumConcat(order, a[2..], b);
    }
  }

  lemma {:induction false} SumPad(order: Order, s: seq<byte>, n: nat)
    ensures WordSum(order, s + Zeros(n)) == WordSum(order, s)
    decreases |s| + n
  {
    var p := s + Zeros(n);
    if |s| >= 2 {
      assert p[2..] == s[2..] + Zeros(n);
      SumPad(order, s[2..], n);
    } else if |s| + n >= 2 {
      assert p[2..] == [] + Zeros(|s| + n - 2);
      SumPad(order, [], |s| + n - 2);
    }
  }

  /** Zero-filling the rest of a receive buffer does not change the answer. */
  lemma PadInvisible(order: Order, s: seq<byte>, n: nat)
    ensures Cksum(order, s + Zeros(n)) == Cksum(order, s)
  {
    SumPad(order, s, n);
  }

  /** Replace the aligned word at byte `i`. */
  function SetWord(order: Order, s: seq<byte>, i: nat, w: u16): seq<byte>
    requires i % 2 == 0 && i + 1 < |s|
  {
    var c := WordBytes(order, w);
    s[i := c[0]][i + 1 := c[1]]
  }

  lemma SetWordSum(order: Order, s: seq<byte>, i: nat, w: u16)
    requires i % 2 == 0 && i + 1 < |s|
    ensures WordSum(order, SetWord(order, s, i, w)) ==
            WordSum(order, s) + w as int - Word(order, s[i], s[i + 1]) as int
  {
    var c := WordBytes(order, w);
    SumUpdate(order, s, i, c[0]);
    SumUpdate(order, s[i := c[0]], i + 1, c[1]);
  }

  // ---------- byte-order independence (RFC 1071, section 2(B)) ----------

  lemma {:induction false} SumOrder(s: seq<byte>)
    ensures WordSum(Big, s) % 65535 == (0x100 * WordSum(Little, s)) % 65535
    ensures WordSum(Big, s) == 0 <==> WordSum(Little, s) == 0
    decreases |s|
  {
    if |s| >= 2 {
      SumOrder(s[2..]);
      var k, l := WordSum(Big, s[2..]), WordSum(Little, s[2..]);
      var x, y := s[0] as int, s[1] as int;
      assert 0x100 * (x + 0x100 * y + l) == 0x100 * x + y + 65535 * y + 0x100 * l;
      SameResidue(0x100 * x + y, k, 0x100 * l, y);
    }
  }

  lemma SameResidue(w: int, a: int, b: int, m: int)
    requires a % 65535 == b % 65535
    ensures (w + a) % 65535 == (w + 65535 * m + b) % 65535
  {
    var q := a / 65535 - b / 65535;
    assert a == b + 65535 * q;
    AddMultiple(w + b, q);
    AddMultiple(w + b, m);
    assert w + a == w + b + 65535 * q;
    assert w + 65535 * m + b == w + b + 65535 * m;
  }

  lemma AddMultiple(x: int, m: int)
    ensures (x + 65535 * m) % 65535 == x % 65535
  {
  }

  lemma MultipleShift(total: int, d: int)
    requires total % 65535 == 0 && -65535 <= d <= 65535
    ensures (total + d) % 65535 == 0 <==> d == 0 || d == 65535 || d == -65535
  {
    AddMultiple(d, total / 65535);
  }

  lemma FoldUnique(total: nat, r: nat)
    requires total > 0 && 1 <= r <= 65535 && r % 65535 == total % 65535
    ensures Fold(total) == r
  {
  }

  lemma SwapResidue(f: u16)
    ensures SwapBytes(f) % 65535 == (0x100 * f as int) % 65535
    ensures f > 0 ==> SwapBytes(f) > 0
    ensures SwapBytes(65535 - f) == 65535 - SwapBytes(f)
  {
    var hi: int := f / 0x100;
    assert 0x100 * f as int == SwapBytes(f) as int + 65535 * hi;
    AddMultiple(SwapBytes(f), hi);
  }

  lemma FoldSwap(little: nat, big: nat)
    requires little > 0 && big > 0 && big % 65535 == (0x100 * little) % 65535
    ensures Fold(big) == SwapBytes(Fold(little))
  {
    var f := Fold(little);
    var q := (little - 1) / 65535;
    assert 0x100 * little == 0x100 * f as int + 65535 * (0x100 * q);
    AddMultiple(0x100 * f as int, 0x100 * q);
    SwapResidue(f);
    FoldUnique(big, SwapBytes(f));
  }

  /** Computing on byte-swapped words gives exactly the byte-swapped checksum. */
  lemma OrderIndependence(s: seq<byte>)
    ensures Cksum(Big, s) == SwapBytes(Cksum(Little, s))
    ensures Intact(Big, s) <==> Intact(Little, s)
  {
    SumOrder(s);
    var big, little := WordSum(Big, s), WordSum(Little, s);
    SwapResidue(Fold(little));
    if little > 0 {
      FoldSwap(little, big);
    }
  }

  // ---------- sealing ----------

  /** Clear the checksum field (bytes 2 and 3), then store the checksum in host order. */
  function Seal(order: Order, p: seq<byte>): (r: seq<byte>)
    requires |p| >= 4
    ensures |r| == |p|
    ensures forall i :: 0 <= i < |p| && i != 2 && i != 3 ==> r[i] == p[i]
  {
    var c := WordBytes(order, Cksum(order, p[2 := 0][3 := 0]));
    p[2 := c[0]][3 := c[1]]
  }

  lemma FoldCompletes(total: nat)
    ensures var whole := total + (65535 - Fold(total) as int); whole > 0 && whole % 65535 == 0
  {
    if total > 0 {
      var q := (total - 1) / 65535;
      assert total == 65535 * q + Fold(total) as int;
      AddMultiple(0, q + 1);
    }
  }

  lemma SealIntact(order: Order, p: seq<byte>)
    requires |p| >= 4
    ensures Intact(order, Seal(order, p))
  {
    var z := p[2 := 0][3 := 0];
    SealedWord(order, p);
    SetWordSum(order, z, 2, Cksum(order, z));
    FoldCompletes(WordSum(order, z));
    IntactMeaning(order, Seal(order, p));
  }

  lemma SealedWord(order: Order, p: seq<byte>)
    requires |p| >= 4
    ensures var z := p[2 := 0][3 := 0];
            Seal(order, p) == SetWord(order, z, 2, Cksum(order, z)) && Word(order, z[2], z[3]) == 0
  {
  }

  lemma SwappedBytes(w: u16)
    ensures WordBytes(Big, SwapBytes(w)) == WordBytes(Little, w)
  {
  }

  /** Hosts of either byte order put the same bytes on the wire, and accept each other's. */
  lemma SealOrder(p: seq<byte>)
    requires |p| >= 4
    ensures Seal(Big, p) == Seal(Little, p)
  {
    var z := p[2 := 0][3 := 0];
    OrderIndependence(z);
    SwappedBytes(Cksum(Little, z));
  }

  lemma SealAnyOrder(sender: Order, receiver: Order, p: seq<byte>)
    requires |p| >= 4
    ensures Seal(sender, p) == Seal(receiver, p)
    ensures Intact(receiver, Seal(sender, p))
  {
    SealOrder(p);
    SealIntact(receiver, p);
  }

  /** The worked example of RFC 1071, section 3: the words 0001 f203 f4f5 f6f7 sum to ddf2. */
  lemma WorkedExample()
    ensures Cksum(Big, [0x00, 0x01, 0xf2, 0x03, 0xf4, 0xf5, 0xf6, 0xf7]) == 0xffff - 0xddf2
  {
    var s: seq<byte> := [0x00, 0x01, 0xf2, 0x03, 0xf4, 0xf5, 0xf6, 0xf7];
    var t, u, v: seq<byte> := [0xf2, 0x03, 0xf4, 0xf5, 0xf6, 0xf7], [0xf4, 0xf5, 0xf6, 0xf7], [0xf6, 0xf7];
    assert s[2..] == t && t[2..] == u && u[2..] == v && v[2..] == [];
    assert WordSum(Big, v) == 0xf6f7;
    assert WordSum(Big, u) == 0xf4f5 + 0xf6f7;
    assert WordSum(Big, t) == 0xf203 + 0xf4f5 + 0xf6f7;
  }

  // ---------- detection ----------

  /** Exactly which values of one aligned word pass unnoticed: the original one, and all zeros for
      all ones and back, unless nothing non-zero would be left. */
  lemma WordChange(order: Order, s: seq<byte>, i: nat, w: u16)
    requires i % 2 == 0 && i + 1 < |s| && Intact(order, s)
    ensures var was := Word(order, s[i], s[i + 1]);
            Intact(order, SetWord(order, s, i, w)) <==>
            was == w || (was == 0 && w == 65535) || (was == 65535 && w == 0 && WordSum(order, s) > 65535)
  {
    var change := w as int - Word(order, s[i], s[i + 1]) as int;
    SetWordSum(order, s, i, w);
    IntactMeaning(order, s);
    IntactMeaning(order, SetWord(order, s, i, w));
    MultipleShift(WordSum(order, s), change);
  }

  /** Every single-bit error is detected, at any length, odd trailing byte included. */
  lemma BitFlipDetected(order: Order, s: seq<byte>, bit: nat)
    requires bit < 8 * |s| && Intact(order, s)
    ensures !Intact(order, Flip(s, bit))
  {
    var i, j := bit / 8, bit % 8;
    var b := FlipBit(s[i], j);
    SumUpdate(order, s, i, b);
    var d := Scaled(order, i, b as int - s[i] as int);
    assert BIT[j] in [1, 2, 4, 8, 16, 32, 64, 128];
    assert d != 0 && -32768 <= d <= 32768;
    IntactMeaning(order, s);
    IntactMeaning(order, Flip(s, bit));
    MultipleShift(WordSum(order, s), d);
  }
}
