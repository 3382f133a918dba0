/** Fixed-width integer types and the Option wrapper shared by every module. */
module Common {

  /** An octet, the element type of `std::vector<uint8_t>`. */
  type byte = x: int | 0 <= x < 0x100

  /** C++ `uint32_t`. */
  type u32 = x: int | 0 <= x < 0x1_0000_0000

  const U32_MODULUS: int := 0x1_0000_0000

  /** The implicit `size_t -> uint32_t` conversion: reduction modulo 2^32. */
  function ToU32(n: nat): (r: u32)
    ensures n < U32_MODULUS ==> r == n
    ensures r <= n
  {
    n % U32_MODULUS
  }

  datatype Option<+T> = None | Some(value: T)
}
