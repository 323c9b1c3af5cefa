/** Shared odds and ends. */
module Basics {

  datatype Option<+T> = None | Some(value: T)

  /** Counters and durations are unsigned 64-bit. */
  const TWO_64: nat := 0x1_0000_0000_0000_0000
  const TWO_63: nat := 0x8000_0000_0000_0000

  /** An unsigned 64-bit number cast to a signed one. */
  function AsI64(d: nat): (r: int) {
    if d < TWO_63 then d else d - TWO_64
  }

  type Address = nat

  function Min(a: nat, b: nat): (r: nat) {
    if a <= b then a else b
  }

  function Max(a: nat, b: nat): (r: nat) {
    if a <= b then b else a
  }

  // Products and quotients of variables by name: that they are natural numbers is shown
  // once, and a lemma can speak of one at a time.

  function Product(x: nat, y: nat): (r: nat) {
    x * y
  }

  function Quotient(n: nat, d: nat): (r: nat)
    requires d > 0
  {
    n / d
  }

  lemma Scaled(x: nat, y: nat, n: nat)
    requires x <= y
    ensures x * n <= y * n
  {
  }
}
