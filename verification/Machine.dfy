/** Machine integers, bytes and optional results shared by the modules. */
module Machine {
  const U16: nat := 0x1_0000
  const U32: nat := 0x1_0000_0000

  type Byte = n: nat | n < 256

  datatype Option<+T> = None | Some(value: T)

  /** The number whose bytes these are, the lowest first. */
  function LittleEndian(b: seq<Byte>): nat {
    if b == [] then 0 else b[0] + 256 * LittleEndian(b[1..])
  }

  function Zeros(n: nat): (z: seq<Byte>)
    ensures |z| == n && forall i :: 0 <= i < n ==> z[i] == 0
  {
    seq(n, (_: nat) => 0)
  }
}
