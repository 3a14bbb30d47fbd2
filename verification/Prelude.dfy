/** What several modules share: optional values and 64-bit words. */
module Prelude {

  const TWO64: nat := 0x1_0000_0000_0000_0000

  datatype Option<+T> = None | Some(value: T) {
    function ValueOr(other: T): T {
      if None? then other else value
    }

    /** The first value there is. */
    function Else(other: Option<T>): Option<T> {
      if None? then other else this
    }
  }

  function Min(a: nat, b: nat): nat {
    if a < b then a else b
  }
}
