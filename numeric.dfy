/** The optional-value type used for JavaScript's `undefined` and `null`. */
module Wrappers {
  datatype Option<+T> = None | Some(value: T)
}

/**
 * Numeric helpers shared by the scene and the worker: the `clamp` and `sqr` helpers of
 * scene.js, the byte conversion a `Uint8ClampedArray` performs on every store, and the
 * pieces of JavaScript's `Math` object the renderer calls, which stay uninterpreted.
 */
module Numeric {

  /** An element of a `Uint8ClampedArray`. */
  type Byte = b: int | 0 <= b < 256

  /** `sqr` of scene.js. */
  function Sqr(n: real): real { n * n }

  /** `clamp(n, min, max)` of scene.js: the lower bound is tested first. */
  function Clamp(n: real, min: real, max: real): (r: real)
    ensures min <= max ==> min <= r <= max
    ensures min <= n <= max ==> r == n
    ensures n < min ==> r == min
    ensures min <= max < n ==> r == max
  {
    if n < min then min else if n > max then max else n
  }

  /**
   * Real division. IEEE division by zero gives an infinity or NaN, which real numbers do
   * not have; the model yields 0.0 there instead.
   */
  function Quotient(a: real, b: real): (r: real)
    ensures b != 0.0 ==> r * b == a
    ensures b == 0.0 ==> r == 0.0
  {
    if b == 0.0 then 0.0 else a / b
  }

  /**
   * The parts of JavaScript's `Math` that the renderer uses: `Math.sqrt` and `Math.PI`.
   * They are kept abstract; properties that depend on a square root say so with `SqrtAt`.
   */
  datatype MathLib = MathLib(sqrt: real -> real, pi: real)

  /** `sqrt` behaves as a square root at `x`. */
  predicate SqrtAt(sqrt: real -> real, x: real)
  {
    0.0 <= sqrt(x) && sqrt(x) * sqrt(x) == x
  }

  /**
   * The conversion a `Uint8ClampedArray` applies when a number is stored (ToUint8Clamp):
   * values at or below 0 become 0, values at or above 255 become 255, and everything else
   * is rounded to the nearest integer, ties to the even neighbour.
   */
  function ToUint8Clamped(v: real): (b: Byte)
    ensures v <= 0.0 ==> b == 0
    ensures 255.0 <= v ==> b == 255
    ensures 0.0 <= v <= 255.0 ==> -0.5 <= b as real - v <= 0.5
    ensures 0.0 <= v <= 255.0 && v == v.Floor as real ==> b == v.Floor
  {
    if v <= 0.0 then 0
    else if 255.0 <= v then 255
    else
      var f := v.Floor;
      if f as real + 0.5 < v then f + 1
      else if v < f as real + 0.5 then f
      else if f % 2 == 0 then f
      else f + 1
  }
}
