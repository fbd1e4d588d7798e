/** Java's `byte`: a signed two's-complement 8-bit integer, and the narrowing
    cast `(byte) i` from `int`, which keeps the low 8 bits of `i`. */
module JavaByte {

  newtype Int8 = x: int | -128 <= x < 128

  /** `(byte) i`: the unique byte congruent to `i` modulo 256. */
  function NarrowToByte(i: int): (b: Int8)
    ensures (b as int - i) % 256 == 0
  {
    ((i + 128) % 256 - 128) as Int8
  }

  /** The bit pattern of a byte read as unsigned (Java's `b & 0xFF`). */
  function Unsigned(b: Int8): (u: nat)
    ensures u < 256
    ensures (u - b as int) % 256 == 0
  {
    if b < 0 then b as int + 256 else b as int
  }

  /** The cast keeps exactly the low 8 bits. */
  lemma NarrowKeepsLowBits(i: int)
    ensures Unsigned(NarrowToByte(i)) == i % 256
  {
  }

  /** Integers 256 apart narrow to the same byte. */
  lemma NarrowWrapsAt256(i: int)
    ensures NarrowToByte(i + 256) == NarrowToByte(i)
  {
  }

  /** Distinct integers less than 256 apart narrow to distinct bytes. */
  lemma NarrowInjectiveOnWindow(i: int, j: int)
    requires i < j < i + 256
    ensures NarrowToByte(i) != NarrowToByte(j)
  {
  }
}
