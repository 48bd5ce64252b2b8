/** Small definitions the other modules share. */
module Basics {
  datatype Maybe<T> = None | Some(value: T)

  // The side of an order this system places itself.
  datatype Side = BuySide | SellSide

  function Min(a: real, b: real): real { if a <= b then a else b }
  function Max(a: real, b: real): real { if a >= b then a else b }
}
