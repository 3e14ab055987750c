/** Shared vocabulary: Rust's fixed-width unsigned integers, Option and Result. */
module Common {

  type u8 = x: int | 0 <= x < 0x100
  type u16 = x: int | 0 <= x < 0x1_0000
  type u32 = x: int | 0 <= x < 0x1_0000_0000
  type u64 = x: int | 0 <= x < 0x1_0000_0000_0000_0000

  /** A byte string, as `Vec<u8>` / `&[u8]`. */
  type Bytes = seq<u8>

  /** A socket address: the IP address bytes and the port. */
  datatype SocketAddr = SocketAddr(ip: seq<u8>, port: u16)

  datatype Option<T> = None | Some(value: T)

  datatype Result<T, E> = Ok(value: T) | Err(error: E)

  function Pow2(n: nat): (r: nat)
    ensures r > 0
  {
    if n == 0 then 1 else 2 * Pow2(n - 1)
  }

  /** `x as u16` in Rust: truncation to the low 16 bits. */
  function TruncU16(x: nat): (r: u16)
    ensures x < 0x1_0000 ==> r == x
  {
    x % 0x1_0000
  }

  /** `x as u32` in Rust: truncation to the low 32 bits. */
  function TruncU32(x: nat): (r: u32)
    ensures x < 0x1_0000_0000 ==> r == x
  {
    x % 0x1_0000_0000
  }

  /** Wrapping `+ 1` on a `u8` (release-build arithmetic). */
  function WrappingIncU8(x: u8): (r: u8)
    ensures x < 0xFF ==> r == x + 1
    ensures x == 0xFF ==> r == 0
  {
    (x + 1) % 0x100
  }

  /** Wrapping `+ 1` on a `u32` (`AtomicU32::fetch_add` and release-build `+`). */
  function WrappingIncU32(x: u32): (r: u32)
    ensures x < 0xFFFF_FFFF ==> r == x + 1
    ensures x == 0xFFFF_FFFF ==> r == 0
  {
    (x + 1) % 0x1_0000_0000
  }
}
