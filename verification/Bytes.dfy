/** Bytes and small helpers shared by the models. */
module Bytes {
  newtype byte = x: int | 0 <= x < 256

  function Min(a: nat, b: nat): nat {
    if a <= b then a else b
  }
}
