/** What several modules need. */
module Wrappers {

  datatype Option<+T> = None | Some(value: T)

  function Power(b: nat, e: nat): (p: nat)
    ensures b > 0 ==> p > 0
  {
    if e == 0 then 1 else b * Power(b, e - 1)
  }

  function Min(a: nat, b: nat): nat {
    if a < b then a else b
  }
}
