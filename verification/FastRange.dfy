/** Mapping a 32-bit hash onto a range without a division: the high half of a 64-bit product. */
module FastRange {
  import opened Powers

  type Word = n: nat | n < 0x1_0000_0000

  function Scale(h: Word, size: nat): nat { h * size / 0x1_0000_0000 }

  lemma ScaleOk(h: Word, size: nat)
    requires size > 0
    ensures Scale(h, size) < size
  {
    MulLe(h, 0xFFFF_FFFF, size);
    HighHalf(h * size, size);
  }

  /** The scaled hash is the share of the range that the hash is of all words, rounded down. */
  lemma ScaleShare(h: Word, size: nat)
    ensures Scale(h, size) * 0x1_0000_0000 <= h * size < (Scale(h, size) + 1) * 0x1_0000_0000
  {
  }

  lemma HighHalf(x: nat, size: nat)
    requires x < 0x1_0000_0000 * size
    ensures x / 0x1_0000_0000 < size
  {
  }
}
