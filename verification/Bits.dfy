/** 32-bit words by their bits.

    A word is the set of the positions of its one bits.  The bitwise operations of C act on each
    position alone, so `|` is union, `&` is intersection, `& ~` is difference, and 0 is the empty set. */
module Bits {
  newtype bit = b: int | 0 <= b < 32
  type Word = set<bit>
}
