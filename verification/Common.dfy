/** Shared vocabulary: optional values and the JavaScript numbers that reach the modelled code. */
module Common {

  datatype Option<+T> = None | Some(value: T) {
    function GetOr(default: T): T {
      if Some? then value else default
    }
  }

  /** A JavaScript number whose rounding is not at stake: a real, or one of the non-finite values. */
  datatype Num = NaN | PosInf | NegInf | Finite(r: real)

  /** How a transaction ends for its caller; after `AckLost` it is committed but the call throws. */
  datatype Fate = Commits | RollsBack | AckLost

  function Max(a: int, b: int): int {
    if a < b then b else a
  }

  function Min(a: int, b: int): int {
    if a < b then a else b
  }

  function MaxReal(a: real, b: real): real {
    if a < b then b else a
  }

  function MinReal(a: real, b: real): real {
    if a < b then a else b
  }

  /** `Math.ceil` */
  function Ceil(r: real): int {
    -(-r).Floor
  }

  /** `Math.round`: halves go up */
  function Round(r: real): int {
    (r + 0.5).Floor
  }

  function Pow2(n: nat): (p: nat)
    ensures p >= 1
  {
    if n == 0 then 1 else 2 * Pow2(n - 1)
  }
}
