/**
 Small functions on integers.
 */
module Integers {

  function Abs(x: int): nat {
    if x < 0 then -x else x
  }

  function Min(a: nat, b: nat): nat {
    if a < b then a else b
  }

  function Larger(a: int, b: int): int {
    if a < b then b else a
  }

  function NonNegative(x: int): nat {
    if x < 0 then 0 else x
  }
}
