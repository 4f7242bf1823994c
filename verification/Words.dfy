/** Unsigned 32-bit and 8-bit values, and clocks that wrap round. */
module Words {
  const WORDS: int := 0x1_0000_0000

  type Word = x: int | 0 <= x < WORDS witness 0
  type Byte = x: int | 0 <= x < 0x100 witness 0

  /** (s_ticks_t)(now - expire) >= 0: the difference modulo 2^32 is below 2^31. */
  predicate Passed(expire: Word, now: Word) {
    var d := now - expire;
    0 <= d < WORDS / 2 || d < -(WORDS / 2)
  }
}
