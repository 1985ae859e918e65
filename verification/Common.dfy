/** Notions that several components share. */
module Common {
  type Byte = b: int | 0 <= b < 256

  /** An Ethernet frame. */
  type Frame = seq<Byte>

  /** 32-bit arithmetic wraps here. */
  const WORD: nat := 0x1_0000_0000

  datatype Option<T> = None | Some(value: T)

  /** Step an index round n slots: increment, then compare with n. */
  function Next(i: nat, n: nat): nat {
    if i + 1 == n then 0 else i + 1
  }
}
