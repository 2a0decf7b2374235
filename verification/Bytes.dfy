/** Octets and integer powers, shared by every codec. */
module Bytes {
  type byte = x: int | 0 <= x < 256

  datatype Option<+T> = None | Some(value: T)

  function Pow(b: nat, e: nat): (p: nat) {
    if e == 0 then 1 else b * Pow(b, e - 1)
  }
}
