/** Byte strings of fixed length. */
module Bytes {
  import opened Bits

  function Zeros(n: nat): (s: seq<u8>)
    ensures |s| == n && forall i :: 0 <= i < n ==> s[i] == 0
  {
    if n == 0 then [] else [0] + Zeros(n - 1)
  }

  /** A WireGuard key: 32 bytes. */
  type Key = s: seq<u8> | |s| == 32 witness Zeros(32)
}
