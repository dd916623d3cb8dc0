/** Types shared by every module: optional values and Go's fixed-width unsigned integers. */
module Base {

  datatype Option<+T> = None | Some(value: T)

  const U32_SIZE: int := 0x1_0000_0000
  const U64_SIZE: int := 0x1_0000_0000_0000_0000
  const MAX_U32: int := 0xFFFF_FFFF

  type byte = x: int | 0 <= x < 0x100
  type u16 = x: int | 0 <= x < 0x1_0000
  type u32 = x: int | 0 <= x < 0x1_0000_0000
  type u64 = x: int | 0 <= x < 0x1_0000_0000_0000_0000

  /** Go's conversion `uint32(x)` of a non-negative integer: the low 32 bits. */
  function ToU32(x: nat): (r: u32)
    ensures x < U32_SIZE ==> r == x
  {
    x % U32_SIZE
  }

  /** Addition and subtraction of `uint64` values, which wrap around. */
  function AddU64(a: u64, b: nat): (r: u64)
    ensures a + b < U64_SIZE ==> r == a + b
  {
    (a + b) % U64_SIZE
  }

  function SubU64(a: u64, b: nat): (r: u64)
    ensures b <= a ==> r == a - b
  {
    (a - b) % U64_SIZE
  }

  function Min(a: int, b: int): int {
    if a < b then a else b
  }

  function Max(a: int, b: int): int {
    if a > b then a else b
  }
}
