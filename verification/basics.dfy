/**
 * Small shared vocabulary: optional values, results with an error, the
 * fixed-width integer types of the C# source and screen points.
 */
module Basics {

  datatype Option<T> = None | Some(value: T)

  datatype Result<T, E> = Ok(value: T) | Err(error: E)

  const Int32Min: int := -0x8000_0000
  const Int32Max: int := 0x7FFF_FFFF
  const TwoTo32: int := 0x1_0000_0000

  /** C#'s `int`. */
  type int32 = x: int | Int32Min <= x <= Int32Max

  /** C#'s `long`. */
  type int64 = x: int | -0x8000_0000_0000_0000 <= x <= 0x7FFF_FFFF_FFFF_FFFF

  /** C#'s `ushort`. */
  type uint16 = x: int | 0 <= x <= 0xFFFF

  predicate InInt32(x: int) {
    Int32Min <= x <= Int32Max
  }

  /** A screen position, as the Win32 POINT structure holds it. */
  datatype Point = Point(x: int32, y: int32)

  function Max(a: int, b: int): int {
    if a >= b then a else b
  }

  function Min(a: int, b: int): int {
    if a <= b then a else b
  }

  /** `Math.Max(0, v)`: what the clamping setters store. */
  function NonNegative(v: int32): (c: int32)
    ensures c >= 0
    ensures v >= 0 ==> c == v
    ensures v < 0 ==> c == 0
  {
    Max(0, v)
  }

  /**
   * Unchecked narrowing to a 32-bit int: the C# `(int)` cast of a `long`, and
   * the result of an `int` addition that overflows.
   */
  function WrapInt32(x: int): (r: int32)
    ensures (r - x) % TwoTo32 == 0
    ensures InInt32(x) ==> r == x
  {
    (x - Int32Min) % TwoTo32 + Int32Min
  }

  /** Integer division rounding toward zero, as C# does, by a positive divisor. */
  function TruncDiv(a: int, d: int): (q: int)
    requires d > 0
    ensures a >= 0 ==> q >= 0
    ensures a <= 0 ==> q <= 0
    ensures Abs(q) == Abs(a) / d
  {
    if a >= 0 then a / d else -((-a) / d)
  }

  function Abs(a: int): nat {
    if a < 0 then -a else a
  }

  /** `n` copies of `x` (none when `n` is not positive). */
  function Repeat<T>(x: T, n: int): (r: seq<T>)
    ensures |r| == Max(n, 0)
    ensures forall i :: 0 <= i < |r| ==> r[i] == x
    decreases n
  {
    if n <= 0 then [] else [x] + Repeat(x, n - 1)
  }

  /** `n` copies of `xs`, one after another. */
  function Times<T>(xs: seq<T>, n: nat): seq<T> {
    if n == 0 then [] else xs + Times(xs, n - 1)
  }

  lemma Assoc<T>(a: seq<T>, b: seq<T>, c: seq<T>)
    ensures a + (b + c) == a + b + c
  {
  }

  lemma RepeatAppend<T>(x: T, m: nat, n: nat)
    ensures Repeat(x, m) + Repeat(x, n) == Repeat(x, m + n)
  {
    assert |Repeat(x, m) + Repeat(x, n)| == m + n;
  }
}
