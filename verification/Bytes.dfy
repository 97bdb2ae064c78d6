/** Runs of bytes. */
module Bytes {
  type byte = bv8

  function Zeros(n: nat): (z: seq<byte>)
    ensures |z| == n
  {
    seq(n, _ => 0 as byte)
  }
}
