/** The machine's integer widths and the casts between them. */
module Words {

  const U16_SIZE: nat := 0x1_0000
  const U32_SIZE: nat := 0x1_0000_0000
  const U64_SIZE: nat := 0x1_0000_0000_0000_0000
  const I32_LIMIT: int := 0x8000_0000
  const I64_LIMIT: int := 0x8000_0000_0000_0000

  /** `x as u32` */
  function AsU32(x: nat): nat
    ensures x < U32_SIZE ==> AsU32(x) == x
  {
    x % U32_SIZE
  }

  /** `x as i64` for a `u64` */
  function AsI64(x: nat): int {
    if x < I64_LIMIT then x else x - U64_SIZE
  }

  /** `x as u64` for an `i64` */
  function AsU64(x: int): nat
    requires -I64_LIMIT <= x
  {
    if x < 0 then x + U64_SIZE else x
  }
}
