/** Small value-level helpers shared by every component of the model. */
module Common {

  /** A value that may be absent: `null`/`undefined` in the application. */
  datatype Option<+T> = None | Some(value: T) {
    function GetOr(default: T): T {
      match this
      case Some(v) => v
      case None => default
    }
  }

  /** The JavaScript idiom `x || 0` applied to an optional count. */
  function OrZero(x: Option<int>): (r: int)
    ensures x.None? ==> r == 0
    ensures x.Some? ==> r == x.value
  {
    x.GetOr(0)
  }

  /** `Math.round` over exact rationals: the nearest integer, halves rounded up. */
  function Round(x: real): (r: int)
    ensures r as real - 0.5 <= x < r as real + 0.5
  {
    (x + 0.5).Floor
  }

  /** `Math.floor(r * n)` for a random draw `r` in [0, 1): an index below `n`. */
  function ScaleDraw(r: real, n: nat): (k: int)
    requires 0.0 <= r < 1.0 && n > 0
    ensures 0 <= k < n
  {
    assert r * n as real < 1.0 * n as real;
    (r * n as real).Floor
  }

  function Max(a: int, b: int): int { if a < b then b else a }
}
