/** Types shared by the models of the kernel's components. */
module Common {

  type byte = x: int | 0 <= x < 0x100
  type u16 = x: int | 0 <= x < 0x1_0000
  type u32 = x: int | 0 <= x < 0x1_0000_0000
  type u64 = x: int | 0 <= x < 0x1_0000_0000_0000_0000
  type i32 = x: int | -0x8000_0000 <= x < 0x8000_0000

  datatype Option<+T> = None | Some(value: T)

  datatype Result<+T, +E> = Ok(value: T) | Err(error: E)

  /** `fetch_add(1)` on an `AtomicU32`: wraps at 2^32. */
  function Next32(n: u32): (r: u32)
    ensures (r - n - 1) % 0x1_0000_0000 == 0
  {
    if n == 0xFFFF_FFFF then 0 else n + 1
  }

  /** `fetch_add(1)` on an `AtomicU64`: wraps at 2^64. */
  function Next64(n: u64): (r: u64)
    ensures (r - n - 1) % 0x1_0000_0000_0000_0000 == 0
  {
    if n == 0xFFFF_FFFF_FFFF_FFFF then 0 else n + 1
  }

  /** `x as usize` for an `i32` on x86_64: sign extension to 64 bits. */
  function AsUsize(x: i32): (r: u64)
    ensures (r - x) % 0x1_0000_0000_0000_0000 == 0
  {
    if x < 0 then x + 0x1_0000_0000_0000_0000 else x
  }

  function Min(a: int, b: int): (m: int)
    ensures m <= a && m <= b && (m == a || m == b)
  {
    if a <= b then a else b
  }
}
