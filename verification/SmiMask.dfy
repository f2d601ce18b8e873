/** The block mask of the shared memory interface, as qem_trace_smi_engine.c handles it.

The mask is 16 bits wide and lies in shared memory.  The client copies its two bytes into
the low half of a 32-bit variable (the hosts are little-endian), tests or sets the bit of
a block there, and copies the low half back.  The upper half of that variable is whatever
it was: in qem_smi_client_flush it is never initialised.  Words are sequences of bits, the
lowest first. */
module SmiMask {
  const ZERO16: seq<bool> := [
    false, false, false, false, false, false, false, false,
    false, false, false, false, false, false, false, false
  ]

  type Mask = m: seq<bool> | |m| == 16 witness ZERO16

  type Word = w: seq<bool> | |w| == 32 witness ZERO16 + ZERO16

  const EMPTY: Mask := ZERO16

  const ZERO: Word := ZERO16 + ZERO16

  /** 1 << i. */
  function One(i: nat): Word
    requires i < 32
  {
    seq(32, k => k == i)
  }

  function And(a: Word, b: Word): Word {
    seq(32, k requires 0 <= k < 32 => a[k] && b[k])
  }

  function Or(a: Word, b: Word): Word {
    seq(32, k requires 0 <= k < 32 => a[k] || b[k])
  }

  /** The variable after the mask has been copied over its low half. */
  function Load(blocks: Word, mask: Mask): Word {
    mask + blocks[16..]
  }

  /** The two bytes copied back. */
  function Store(blocks: Word): Mask {
    blocks[..16]
  }

  /** The test of the wait loop. */
  predicate Used(blocks: Word, i: nat)
    requires i < 32
  {
    And(blocks, One(i)) != ZERO
  }

  function Marked(blocks: Word, i: nat): Word
    requires i < 32
  {
    Or(blocks, One(i))
  }

  lemma UsedIsBit(blocks: Word, i: nat)
    requires i < 32
    ensures Used(blocks, i) <==> blocks[i]
  {
    if blocks[i] {
      assert And(blocks, One(i))[i] && !ZERO[i];
    }
  }

  lemma MarkedBits(blocks: Word, i: nat)
    requires i < 32
    ensures Marked(blocks, i) == blocks[i := true]
  {
  }

  /** The wait loop tests the bit of the mask, and marking sets that bit and no other,
      whatever the upper half of the variable holds. */
  lemma MaskOperations(blocks: Word, mask: Mask, i: nat)
    requires i < 16
    ensures Used(Load(blocks, mask), i) <==> mask[i]
    ensures Store(Marked(Load(blocks, mask), i)) == mask[i := true]
  {
    UsedIsBit(Load(blocks, mask), i);
    MarkedBits(Load(blocks, mask), i);
  }

  ghost predicate IgnoresUpperHalf(i: nat)
    requires i < 32
  {
    forall b: Word, c: Word, mask: Mask :: Used(Load(b, mask), i) <==> Used(Load(c, mask), i)
  }

  /** The uninitialised half never matters for the blocks the mask has a bit for, and
      always matters for the others: sixteen blocks are the exact bound. */
  lemma UpperHalfMatters(i: nat)
    requires i < 32
    ensures IgnoresUpperHalf(i) <==> i < 16
    ensures i >= 16 ==> forall b: Word, mask: Mask :: Store(Marked(Load(b, mask), i)) == mask
  {
    if i < 16 {
      forall b: Word, c: Word, mask: Mask
        ensures Used(Load(b, mask), i) <==> Used(Load(c, mask), i)
      {
        MaskOperations(b, mask, i);
        MaskOperations(c, mask, i);
      }
    } else {
      UsedIsBit(Load(One(i), EMPTY), i);
      UsedIsBit(Load(ZERO, EMPTY), i);
    }
  }
}
