/** Bytes and machine words. */
module Words {
  type byte = b: int | 0 <= b < 256 witness 0

  /** 2^32 and 2^64, where unsigned arithmetic wraps. */
  const WORD32: int := 0x1_0000_0000
  const WORD64: int := 0x1_0000_0000_0000_0000

  /** The conversion to a 32-bit int. */
  function CastInt(x: nat): int {
    var low := x % WORD32;
    if low < 0x8000_0000 then low else low - WORD32
  }
}
