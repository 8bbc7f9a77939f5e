/** Block numbers: 1, 2, ..., 64999, 2, 3, ... and the two rules that produce them. */
module Numbering {
  const CYCLE := 64998

  type Block = x: int | 0 <= x < 65000

  /** What the client keeps between packets; its `block + 1` is again a block number. */
  type Kept = x: int | 0 <= x < 64999

  /** The number that chunk `i` (counted from 1) carries. */
  function Number(i: nat): (n: Block)
    requires i >= 1
    ensures 1 <= n <= 64999
  {
    if i == 1 then 1 else 2 + (i - 2) % CYCLE
  }

  /** The server's rule: count up, and continue with 2 in place of 65000. */
  function ServerAdvance(block: Block): Block {
    if block + 1 == 65000 then 2 else block + 1
  }

  /** The client's rule, applied after its ACK has gone out: 64999 becomes 1. */
  function ClientKeep(block: Block): Kept {
    if block == 64999 then 1 else block
  }

  /** A running client's `block` once it has accepted `got` chunks. */
  function ClientBlock(got: nat): Kept {
    if got == 0 then 0 else ClientKeep(Number(got))
  }

  /** Both wrap rules produce the same sequence of numbers, across any number of wraps. */
  lemma RulesAgree(i: nat)
    requires i >= 1
    ensures Number(1) == 1 && ServerAdvance(Number(i)) == Number(i + 1)
    ensures ClientKeep(Number(i)) + 1 == Number(i + 1)
  {
  }

  lemma ClientExpects(got: nat)
    ensures ClientBlock(got) + 1 == Number(got + 1)
  {
    if got > 0 {
      RulesAgree(got);
    }
  }

  /** Two chunks share a number exactly when they are a whole number of cycles apart. */
  lemma SameNumber(i: nat, j: nat)
    requires i >= 1 && j >= 1
    ensures Number(i) == Number(j) <==> i == j || (i >= 2 && j >= 2 && (j - i) % 64998 == 0)
  {
  }

  lemma NeighboursDiffer(i: nat)
    requires i >= 1
    ensures Number(i) != Number(i + 1)
  {
  }

  /** Within one cycle, and in the first 64999 chunks, a number determines its chunk. */
  lemma FreshNumber(i: nat, j: nat)
    requires 1 <= i <= j && (j < i + CYCLE || j <= 64999) && Number(i) == Number(j)
    ensures i == j
  {
    SameNumber(i, j);
  }
}
