/** The part of the `bitflags` crate the model relies on: a flag set is a
    32-bit word, and `contains` is a subset test on its bits. */
module Flags {

  /** Bit `i` of `x` is set. */
  predicate HasBit(x: bv32, i: nat)
    requires i < 32
  {
    ((x >> i) & 1) == 1
  }

  /** `bits.contains(other)`: every flag of `other` is also in `bits`. */
  predicate Contains(bits: bv32, other: bv32)
  {
    (bits & other) == other
  }

  /** The lowest set bit of `d` at or above position `i`. */
  function LowestSetBit(d: bv32, i: nat): (r: nat)
    requires i < 32 && (d >> i) != 0
    ensures i <= r < 32 && HasBit(d, r)
    decreases 32 - i
  {
    if HasBit(d, i) then i else LowestSetBit(d, i + 1)
  }

  /** A bit of `other` that is missing from `bits`. */
  lemma MissingBit(bits: bv32, other: bv32, i: nat)
    requires i < 32 && HasBit(other & !bits, i)
    ensures HasBit(other, i) && !HasBit(bits, i)
  {
  }

  /** When `bits` does not contain `other`, some bit of `other` is
      missing from `bits`. */
  lemma SomeBitMissing(bits: bv32, other: bv32)
    requires !Contains(bits, other)
    ensures ((other & !bits) >> 0) != 0
  {
  }

  /** A set bit of `other` stays set in any word that contains `other`. */
  lemma ContainedBit(bits: bv32, other: bv32, i: nat)
    requires i < 32 && Contains(bits, other) && HasBit(other, i)
    ensures HasBit(bits, i)
  {
  }

  /** `Contains` is exactly the subset relation on the positions of set
      bits: the flags of `other` all appear in `bits`. */
  lemma ContainsIsBitSubset(bits: bv32, other: bv32)
    ensures Contains(bits, other) <==>
      forall i :: 0 <= i < 32 ==> HasBit(other, i) ==> HasBit(bits, i)
  {
    if Contains(bits, other) {
      forall i | 0 <= i < 32 && HasBit(other, i)
        ensures HasBit(bits, i)
      {
        ContainedBit(bits, other, i);
      }
    } else {
      var d := other & !bits;
      SomeBitMissing(bits, other);
      var i := LowestSetBit(d, 0);
      MissingBit(bits, other, i);
    }
  }
}
