/** Machine words as bounded integers, and the small types every module shares. */
module Words {
  type byte = x: int | 0 <= x < 256
  type u32 = x: int | 0 <= x < U32
  type u64 = x: int | 0 <= x < U64
  type int16 = x: int | -0x8000 <= x < 0x8000
  type i64 = x: int | -0x8000_0000_0000_0000 <= x < 0x8000_0000_0000_0000

  const U32 := 0x1_0000_0000
  const U64 := 0x1_0000_0000_0000_0000
  const U64_MAX := U64 - 1
  const SIZE_MAX := U64 - 1

  type pos = n: int | n >= 1 witness 1

  datatype Option<+T> = None | Some(value: T)

  /** A complex sample. */
  datatype Cx<+F> = Cx(i: F, q: F)
}
