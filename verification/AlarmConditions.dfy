/** The conditions of the alarm table on the value of a register: as evaluated, and as meant. */
module AlarmConditions {
  function BitmaskHolds(mask: bv16, value: bv16): bool {
    value & mask == mask
  }

  function RangeHolds(lo: bv16, hi: bv16, value: bv16): bool {
    value < lo || value > hi
  }

  // ---------- As meant

  predicate SingleBit(b: bv16) { b != 0 && b & (b - 1) == 0 }

  predicate HasBit(value: bv16, b: bv16) { value & b != 0 }

  ghost predicate AllBitsSet(mask: bv16, value: bv16) {
    forall b :: SingleBit(b) && HasBit(mask, b) ==> HasBit(value, b)
  }

  predicate Within(lo: bv16, hi: bv16, value: bv16) { lo <= value <= hi }

  lemma RangeMeans(lo: bv16, hi: bv16, value: bv16)
    ensures RangeHolds(lo, hi, value) <==> !Within(lo, hi, value)
  {
  }

  /** The mask test holds exactly if each bit of the mask is set in the value. */
  lemma BitmaskMeans(mask: bv16, value: bv16)
    ensures BitmaskHolds(mask, value) <==> AllBitsSet(mask, value)
  {
    hide BitmaskHolds, SingleBit, HasBit, Lacking;
    if BitmaskHolds(mask, value) {
      forall b | SingleBit(b) && HasBit(mask, b) ensures HasBit(value, b) {
        MaskKeepsBit(mask, value, b);
      }
    } else {
      SomeBitMissing(mask, value);
      var b := LowestBit(Lacking(mask, value));
      BitMissing(mask, value, b);
    }
  }

  function Lacking(mask: bv16, value: bv16): bv16 { mask & !value }

  lemma MaskKeepsBit(mask: bv16, value: bv16, b: bv16)
    requires BitmaskHolds(mask, value) && HasBit(mask, b)
    ensures HasBit(value, b)
  {
  }

  lemma SomeBitMissing(mask: bv16, value: bv16)
    requires !BitmaskHolds(mask, value)
    ensures Lacking(mask, value) != 0
  {
  }

  lemma LowestBit(x: bv16) returns (b: bv16)
    requires x != 0
    ensures SingleBit(b) && HasBit(x, b)
  {
    b := x & (!x + 1);
  }

  lemma BitMissing(mask: bv16, value: bv16, b: bv16)
    requires SingleBit(b) && HasBit(Lacking(mask, value), b)
    ensures HasBit(mask, b) && !HasBit(value, b)
  {
  }
}
