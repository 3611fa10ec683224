/** JavaScript values as the storefront code meets them: optional fields,
    numbers that may be NaN or infinite, loosely typed row columns, and
    `Math.round`. */
module JsValues {

  /** `null`/`undefined` versus a present value. */
  datatype Option<+T> = None | Some(value: T) {
    function GetOr(default: T): T {
      match this
      case Some(v) => v
      case None => default
    }

    /** JavaScript's `a ?? b` on two optional values. */
    function OrElse(other: Option<T>): Option<T> {
      if Some? then this else other
    }
  }

  /** A JavaScript `number`: finite values are modelled exactly as reals. */
  datatype Num = Finite(v: real) | NaN | PosInf | NegInf {
    /** `Number.isFinite`. */
    predicate IsFinite() { Finite? }
  }

  /** A column typed `unknown` (or `number | string`) in a row: absent
      (`null`/`undefined`), a number, a string, or anything else. */
  datatype Loose = Absent | NumVal(n: Num) | StrVal(s: string) | OtherVal

  /** `Math.round`: the nearest integer, halves rounded towards +infinity. */
  function Round(x: real): (r: int)
    ensures r as real - 0.5 <= x < r as real + 0.5
  {
    (x + 0.5).Floor
  }

  /** `Math.max` over two finite numbers. */
  function Max(a: real, b: real): (r: real)
    ensures r >= a && r >= b
    ensures r == a || r == b
  {
    if a >= b then a else b
  }

  /** `Math.floor` on a finite number. */
  function FloorOf(x: real): (r: int)
    ensures r as real <= x < r as real + 1.0
  {
    x.Floor
  }
}
