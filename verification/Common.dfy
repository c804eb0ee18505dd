/**
 Types shared by all subsystems.
 */
module Common {
  type Byte = b: nat | b < 256

  datatype Option<+T> = None | Some(value: T)

  // The n lowest bytes of a number, lowest first.
  function LeBytes(x: nat, n: nat): (s: seq<Byte>)
    ensures |s| == n
  {
    if n == 0 then [] else [x % 256] + LeBytes(x / 256, n - 1)
  }

  function Pow256(n: nat): nat { if n == 0 then 1 else 256 * Pow256(n - 1) }
}
