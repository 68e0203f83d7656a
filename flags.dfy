/**
 * The flag-subset test NI_IS_FLAG_SET(value, flag) of NimbusKit Basics.
 *
 * The macro expands to `((value) & (flag)) == (flag)`: it answers YES only when
 * every bit of a (possibly multi-bit) flag is present in the mask, as opposed to
 * the tempting `value & flag`, which answers YES as soon as ANY bit is present.
 * Masks are modelled as 64-bit unsigned words (NSUInteger on a 64-bit target).
 */
module Flags {

  type Mask = bv64

  /** NI_IS_FLAG_SET(value, flag): no bit of `flag` lies outside `value`. */
  predicate IsFlagSet(value: Mask, flag: Mask): (r: bool)
    ensures r <==> flag & !value == 0
  {
    value & flag == flag
  }

  /** The test the documentation warns against: some bit of `flag` is present in `value`. */
  predicate IsAnyFlagBitSet(value: Mask, flag: Mask) {
    value & flag != 0
  }

  /** `b` is a mask with exactly one bit set, i.e. one "bit" of a flag. */
  predicate IsSingleBit(b: Mask) {
    b != 0 && b & (b - 1) == 0
  }

  /** Reference meaning of the macro: every single bit of `flag` is also a bit of `value`. */
  ghost predicate HasEveryBitOf(value: Mask, flag: Mask) {
    forall b :: IsSingleBit(b) && b & flag != 0 ==> b & value != 0
  }

  /** The lowest set bit of a mask (two's-complement trick `m & -m`). */
  function LowestBit(m: Mask): (b: Mask)
    ensures m != 0 ==> IsSingleBit(b) && b & m == b
    ensures m == 0 ==> b == 0
  {
    m & (0 - m)
  }

  /** The macro is true exactly when every bit of the flag is set in the value (both directions). */
  lemma IsFlagSetMeansEveryBit(value: Mask, flag: Mask)
    ensures IsFlagSet(value, flag) <==> HasEveryBitOf(value, flag)
  {
    if IsFlagSet(value, flag) {
      EveryBitWhenFlagSet(value, flag);
    } else {
      SomeBitMissingWhenFlagNotSet(value, flag);
    }
  }

  lemma EveryBitWhenFlagSet(value: Mask, flag: Mask)
    requires IsFlagSet(value, flag)
    ensures HasEveryBitOf(value, flag)
  {
    forall b | IsSingleBit(b) && b & flag != 0 ensures b & value != 0 {
      BitOfSubset(value, flag, b);
    }
  }

  /** When the test fails, the lowest bit of `flag & ~value` is a bit of the flag missing from the value. */
  lemma SomeBitMissingWhenFlagNotSet(value: Mask, flag: Mask)
    requires !IsFlagSet(value, flag)
    ensures !HasEveryBitOf(value, flag)
  {
    var b := MissingBit(value, flag);
    assert IsSingleBit(b) && b & flag != 0 && !(b & value != 0);
  }

  /** A single bit of `flag` that `value` lacks: the lowest bit of `flag & ~value`. */
  lemma MissingBit(value: Mask, flag: Mask) returns (b: Mask)
    requires !IsFlagSet(value, flag)
    ensures IsSingleBit(b) && b & flag != 0 && b & value == 0
  {
    MissingBitsOfUnsetFlag(value, flag);
    b := LowestBit(flag & !value);
    BitOfDifference(value, flag, b);
  }

  lemma MissingBitsOfUnsetFlag(value: Mask, flag: Mask)
    requires !IsFlagSet(value, flag)
    ensures flag & !value != 0
  {
  }

  lemma BitOfSubset(value: Mask, flag: Mask, b: Mask)
    requires value & flag == flag && b & flag != 0
    ensures b & value != 0
  {
  }

  lemma BitOfDifference(value: Mask, flag: Mask, b: Mask)
    requires b != 0 && b & (flag & !value) == b
    ensures b & flag != 0 && b & value == 0
  {
  }

  /** A combined flag `f1 | f2` is set exactly when both parts are fully set. */
  lemma IsFlagSetOfUnion(value: Mask, f1: Mask, f2: Mask)
    ensures IsFlagSet(value, f1 | f2) <==> IsFlagSet(value, f1) && IsFlagSet(value, f2)
  {
    if IsFlagSet(value, f1 | f2) {
      PartOfSetFlagIsSet(value, f1, f2);
      assert f2 | f1 == f1 | f2;
      PartOfSetFlagIsSet(value, f2, f1);
    }
    if IsFlagSet(value, f1) && IsFlagSet(value, f2) {
      BothPartsMakeUnion(value, f1, f2);
    }
  }

  lemma PartOfSetFlagIsSet(value: Mask, f1: Mask, f2: Mask)
    requires IsFlagSet(value, f1 | f2)
    ensures IsFlagSet(value, f1)
  {
  }

  lemma BothPartsMakeUnion(value: Mask, f1: Mask, f2: Mask)
    requires IsFlagSet(value, f1) && IsFlagSet(value, f2)
    ensures IsFlagSet(value, f1 | f2)
  {
  }

  /** A partial overlap is not enough: one missing part makes the combined test false. */
  lemma PartialOverlapIsNotSet(value: Mask, f1: Mask, f2: Mask)
    requires IsFlagSet(value, f1) && !IsFlagSet(value, f2)
    ensures !IsFlagSet(value, f1 | f2)
  {
    IsFlagSetOfUnion(value, f1, f2);
  }

  /** The all-bits test implies the any-bit test for a non-empty flag, and the two agree on a single-bit flag. */
  lemma FlagSetVersusAnyBit(value: Mask, flag: Mask)
    ensures flag != 0 && IsFlagSet(value, flag) ==> IsAnyFlagBitSet(value, flag)
    ensures IsSingleBit(flag) ==> (IsFlagSet(value, flag) <==> IsAnyFlagBitSet(value, flag))
  {
  }

  /** The empty flag is set on every mask. */
  lemma EmptyFlagAlwaysSet(value: Mask)
    ensures IsFlagSet(value, 0)
  {
  }

  /** Concrete cases (binary 110 vs 100, 010 vs 100, 110 vs 101): a superset passes, a disjoint mask fails, a partial overlap fails the all-bits test
      although the any-bit test would accept it. */
  lemma FlagExamples()
    ensures IsFlagSet(0x6, 0x4)
    ensures !IsFlagSet(0x2, 0x4)
    ensures !IsFlagSet(0x6, 0x5) && IsAnyFlagBitSet(0x6, 0x5)
  {
  }

  // UIKit's autoresizing-mask bits used in the header's example; their values are UIKit's, not the header's.
  const FlexibleWidth: Mask := 1 << 1
  const FlexibleHeight: Mask := 1 << 4

  /** The header's example: the test on FlexibleWidth | FlexibleHeight says YES only if BOTH are on the mask. */
  lemma AutoresizingExample(mask: Mask)
    ensures IsFlagSet(mask, FlexibleWidth | FlexibleHeight)
        <==> IsFlagSet(mask, FlexibleWidth) && IsFlagSet(mask, FlexibleHeight)
    ensures !IsFlagSet(FlexibleWidth, FlexibleWidth | FlexibleHeight)
  {
    IsFlagSetOfUnion(mask, FlexibleWidth, FlexibleHeight);
  }
}
