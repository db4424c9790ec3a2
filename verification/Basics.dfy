/** Small definitions shared by the other modules. */
module Basics {

  datatype Option<+T> = None | Some(value: T)

  type byte = x: int | 0 <= x < 256

  type int8 = x: int | -128 <= x <= 127

  predicate Int32(x: int) { -0x8000_0000 <= x < 0x8000_0000 }

  type int32 = x: int | Int32(x)

  function Min(a: nat, b: nat): nat { if a < b then a else b }

  function Max(x: int, y: int): int { if x >= y then x else y }

  /** max(x, 0) */
  function Positive(x: int): nat { if x > 0 then x else 0 }

  lemma {:induction false} SubsetSize<T>(a: set<T>, b: set<T>)
    requires a <= b
    ensures |a| <= |b|
    decreases a
  {
    if a != {} {
      var x :| x in a;
      SubsetSize(a - {x}, b - {x});
    }
  }
}
