/** Counters of 32 bits. */
module Modular {
  const TWO32: nat := 0x1_0000_0000

  predicate Congruent(x: int, y: int) { (x - y) % TWO32 == 0 }

  lemma CongruentSmall(x: int, y: int)
    requires Congruent(x, y) && x - y < TWO32 && y - x < TWO32
    ensures x == y
  {
  }

  lemma CongruentWrap(x: int, rest: int, y: int)
    requires Congruent(x + rest, y)
    ensures 0 <= x % TWO32 < TWO32 && Congruent(x % TWO32 + rest, y)
  {
  }

  lemma CongruentShift(x: int, y: int, d: int)
    requires Congruent(x, y)
    ensures Congruent(x + d, y + d)
  {
  }
}
