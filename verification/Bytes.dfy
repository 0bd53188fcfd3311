/** Byte strings, and the option type used for Go's nil and comma-ok results. */
module Bytes {

  newtype Byte = x: int | 0 <= x < 256

  type Pack = seq<Byte>

  datatype Option<+T> = None | Some(value: T)

  function Zeros(n: nat): (z: Pack)
    ensures |z| == n && forall i :: 0 <= i < n ==> z[i] == 0
  {
    seq(n, _ => 0)
  }
}
