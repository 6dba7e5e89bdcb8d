/** lib/bitmap.cc on the unsigned words themselves: the shifts and masks of Mark, Clear and Test. */
module BitmapWords {
  import opened Bits
  import opened BitmapModel

  /** The `unsigned int` array. */
  function Numbers(map_: Words): (r: seq<nat>)
    ensures |r| == |map_|
  {
    seq(|map_|, k requires 0 <= k < |map_| => Value(map_[k]))
  }

  /** map[which / 32] |= 1 << (which % 32) */
  lemma MarkIsOr(map_: Words, which: nat)
    requires which < 32 * |map_|
    ensures Numbers(Mark(map_, which))
         == Numbers(map_)[which / 32 := Bitwise(Disjunction(), Numbers(map_)[which / 32], PowerOfTwo(which % 32), 32)]
  {
    OrSetsBit(map_[which / 32], which % 32);
  }

  /** map[which / 32] &= ~(1 << (which % 32)) */
  lemma ClearIsAndNot(map_: Words, which: nat)
    requires which < 32 * |map_|
    ensures PowerOfTwo(which % 32) < PowerOfTwo(32)
    ensures var mask := PowerOfTwo(32) - 1 - PowerOfTwo(which % 32);
      Numbers(Clear(map_, which))
        == Numbers(map_)[which / 32 := Bitwise(Conjunction(), Numbers(map_)[which / 32], mask, 32)]
  {
    AndNotClearsBit(map_[which / 32], which % 32);
  }

  /** Test answers whether map[which / 32] & (1 << (which % 32)) is nonzero. */
  lemma TestIsAnd(map_: Words, which: nat)
    requires which < 32 * |map_|
    ensures Bit(map_, which) <==> Bitwise(Conjunction(), Numbers(map_)[which / 32], PowerOfTwo(which % 32), 32) != 0
  {
    AndFindsBit(map_[which / 32], which % 32);
  }
}
