/** The C++ integer types the pool's interface uses, and the implicit
    conversions between them that change a value. Arithmetic on the pool's
    counters is unbounded in the model; only the conversions of a signed
    `int` argument into an unsigned field are written out here. */
module CppInts {

  const INT32_MIN: int := -0x8000_0000
  const INT32_MAX: int := 0x7fff_ffff

  const INT64_MIN: int := -0x8000_0000_0000_0000
  const INT64_MAX: int := 0x7fff_ffff_ffff_ffff

  /** Number of values of a 32-bit `unsigned int`. */
  const UINT_RANGE: int := 0x1_0000_0000

  /** Number of values of a 64-bit `size_t`. */
  const SIZE_T_RANGE: int := 0x1_0000_0000_0000_0000

  /** A C++ `int`. */
  type Int32 = x: int | INT32_MIN <= x <= INT32_MAX

  /** A C++ `long long`. */
  type Int64 = x: int | INT64_MIN <= x <= INT64_MAX

  /** A C++ `unsigned int`. */
  type UInt32 = x: int | 0 <= x < UINT_RANGE

  /** The value an `int` takes when it is converted to `size_t`: a negative
      argument wraps around to a very large bound. */
  function ToSizeT(x: Int32): (r: nat)
    ensures r < SIZE_T_RANGE
    ensures (r - x) % SIZE_T_RANGE == 0
    ensures 0 <= x ==> r == x
    ensures x < 0 ==> r > INT32_MAX
  {
    if x >= 0 then x else x + SIZE_T_RANGE
  }

  /** The value an `int` takes when it is compared with an `unsigned int`
      (the usual arithmetic conversions turn the `int` into `unsigned int`). */
  function ToUInt(x: Int32): (r: nat)
    ensures r < UINT_RANGE
    ensures (r - x) % UINT_RANGE == 0
    ensures 0 <= x ==> r == x
    ensures x < 0 ==> r > INT32_MAX
  {
    if x >= 0 then x else x + UINT_RANGE
  }
}
