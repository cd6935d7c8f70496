/** Shared vocabulary: optional values and the arithmetic of 64-bit unsigned integers. */
module Wrappers {

  datatype Option<+T> = None | Some(value: T)

  const U64_LIMIT: nat := 0x1_0000_0000_0000_0000

  type u64 = n: nat | n < 0x1_0000_0000_0000_0000

  function Min(a: int, b: int): int { if a <= b then a else b }

  function Max(a: int, b: int): int { if a <= b then b else a }

  function SaturatingAdd(a: u64, b: u64): u64 { Min(a + b, U64_LIMIT - 1) }

  function SaturatingSub(a: u64, b: u64): u64 { if b <= a then a - b else 0 }

  function SaturatingMul(a: u64, b: u64): u64 { Min(a * b, U64_LIMIT - 1) }

  lemma {:induction false} SubsetSize<T>(a: set<T>, b: set<T>)
    requires a <= b
    ensures |a| <= |b| && (|a| == |b| ==> a == b)
  {
    if a != {} {
      var x :| x in a;
      SubsetSize(a - {x}, b - {x});
    }
  }
}
