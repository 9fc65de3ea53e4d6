/** C integer types of the kernel as the DVFS limit code uses them, and the
    error number it returns. */
module KernelTypes {

  /** C `unsigned int` (32 bits). */
  newtype u32 = x: int | 0 <= x < 0x1_0000_0000

  /** C `int` (32 bits, two's complement). */
  newtype int32 = x: int | -0x8000_0000 <= x < 0x8000_0000

  /** `EINVAL` from errno-base.h; handlers return `-EINVAL`. */
  const EINVAL: int := 22

  /** The C conversion `(unsigned int)v`: a negative value wraps around to
      `v + 2^32`, a non-negative one is kept. */
  function ToU32(v: int32): (r: u32)
    ensures v >= 0 ==> r as int == v as int
    ensures v < 0 ==> r as int == v as int + 0x1_0000_0000
    ensures r as int % 0x1_0000_0000 == v as int % 0x1_0000_0000
  {
    ((v as int) % 0x1_0000_0000) as u32
  }
}
