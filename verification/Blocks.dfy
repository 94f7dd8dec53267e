/** Disk blocks, and the log header stored in one of them. */
module Blocks {
  import opened Machine

  const WORDS := 128
  const LOGSIZE := 30

  /** A block as its 128 words: log.c copies whole blocks and reads header words. */
  type Block = b: seq<Word> | |b| == WORDS witness seq(WORDS, _ => 0)

  predicate GoodHead(b: Block) {
    b[0] <= LOGSIZE
  }

  /** The block numbers read_head finds in a header block. */
  function HeadOf(b: Block): (lh: seq<nat>)
    requires GoodHead(b)
  {
    b[1..b[0] + 1]
  }

  /** What write_head leaves in the header block: words past the entries stay as they were. */
  function PutHead(b: Block, lh: seq<nat>): (r: Block)
    requires |lh| <= LOGSIZE && forall i :: 0 <= i < |lh| ==> lh[i] < UINT_LIMIT
    ensures GoodHead(r) && HeadOf(r) == lh
    ensures forall i :: |lh| < i < WORDS ==> r[i] == b[i]
  {
    [|lh|] + lh + b[|lh| + 1..]
  }
}
