/** Octets, machine integers and optional values. */
module Basics {
  type Byte = b: int | 0 <= b < 256
  type Bytes = seq<Byte>
  type U16 = x: int | 0 <= x < 0x1_0000
  type U32 = x: int | 0 <= x < 0x1_0000_0000

  datatype Option<T> = None | Some(value: T)

  function Zeros(n: nat): (z: Bytes)
    ensures |z| == n
  {
    seq(n, _ => 0)
  }

  /** Two octets as a number, the high one first. */
  function WordAt(buf: Bytes, at: nat): nat
    requires at + 2 <= |buf|
  {
    buf[at] as int * 0x100 + buf[at + 1] as int
  }

  /** Four octets as a number, the high one first. */
  function LongAt(buf: Bytes, at: nat): nat
    requires at + 4 <= |buf|
  {
    WordAt(buf, at) * 0x1_0000 + WordAt(buf, at + 2)
  }
}
