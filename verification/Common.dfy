/** Values shared by the models of the kernel components. */
module Common {

  datatype Option<+T> = None | Some(value: T)

  type Byte = x: int | 0 <= x < 256

  const UINT32_RANGE := 0x1_0000_0000
  const UINT64_RANGE := 0x1_0000_0000_0000_0000

  /** A uint32 counter after `+= 1`. */
  function Next32(n: nat): (r: nat)
  {
    (n + 1) % UINT32_RANGE
  }
}
