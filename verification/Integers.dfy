/** Machine integers, and the checked operations of the static-analysis header. */
module Integers {
  const UINT64_MAX: int := 0xFFFF_FFFF_FFFF_FFFF
  const INT64_MAX: int := 0x7FFF_FFFF_FFFF_FFFF
  const UINT32_MAX: int := 0xFFFF_FFFF

  type uint64 = x: int | 0 <= x <= 0xFFFF_FFFF_FFFF_FFFF
  type int64 = x: int | -0x8000_0000_0000_0000 <= x <= 0x7FFF_FFFF_FFFF_FFFF
  type uint32 = x: int | 0 <= x <= 0xFFFF_FFFF

  /** The sum when it fits; otherwise a refusal, and the caller's variable keeps its value. */
  method AddU64(op1: uint64, op2: uint64, result: uint64) returns (e: bool, sum: uint64)
    ensures e <==> op1 + op2 <= UINT64_MAX
    ensures sum == if e then op1 + op2 else result
  {
    e, sum := false, result;
    if !(UINT64_MAX - op1 < op2) {
      sum := op1 + op2;
      e := true;
    }
  }

  lemma QuotientBound(a: int, b: int, c: int)
    requires 0 < a && 0 <= b && 0 <= c
    ensures b <= c / a <==> a * b <= c
  {
    assert c == a * (c / a) + c % a;
    if b <= c / a {
      assert a * b <= a * (c / a);
    } else {
      assert a * b >= a * (c / a + 1) == a * (c / a) + a;
    }
  }

  method MultU64(op1: uint64, op2: uint64, result: uint64) returns (e: bool, product: uint64)
    ensures e <==> op1 * op2 <= UINT64_MAX
    ensures product == if e then op1 * op2 else result
  {
    e, product := false, result;
    if op1 == 0 || op2 == 0 {
      product := 0;
      e := true;
    } else {
      QuotientBound(op2, op1, UINT64_MAX);
      if !(op1 > UINT64_MAX / op2) {
        product := op1 * op2;
        e := true;
      }
    }
  }
}
