/** Machine integer types, failure wrappers and the panic outcome shared by every module. */
module Base {

  /** Rust `u8`. */
  type byte = b: int | 0 <= b < 0x100
  /** Rust `u16`, the UTF-16 code unit. */
  type uint16 = x: int | 0 <= x < 0x1_0000
  /** Rust `u32`. */
  type uint32 = x: int | 0 <= x < 0x1_0000_0000
  /** Rust `u64`, and `usize` on the 64-bit targets the project builds for. */
  type uint64 = x: int | 0 <= x < 0x1_0000_0000_0000_0000

  /**
   * A byte vector as Rust can hold one: no allocation exceeds `isize::MAX` bytes, so every
   * length fits a `usize`.
   */
  type Bytes = b: seq<byte> | |b| < 0x8000_0000_0000_0000

  datatype Option<+T> = None | Some(value: T)

  datatype Result<+T, +E> = Ok(value: T) | Err(error: E)

  /** The result of a call whose failure path may also `panic!` (an `unwrap` on an error). */
  datatype Outcome<+T, +E> = Done(value: T) | Failed(error: E) | Panic

  /** How a call that may `panic!` ends: a panic unwinds out of the whole program. */
  datatype Exit = Returned | Panicked

  /** `n` modulo 2^16: what an `as u16` cast of a non-negative number keeps. */
  function AsU16(n: nat): (r: uint16)
    ensures n < 0x1_0000 ==> r == n
  {
    n % 0x1_0000
  }

  /** `n` modulo 2^32: what an `as u32` cast of a non-negative number keeps. */
  function AsU32(n: nat): (r: uint32)
    ensures n < 0x1_0000_0000 ==> r == n
  {
    n % 0x1_0000_0000
  }

  /** The `k` bytes of `n` in memory on a little-endian target, lowest byte first. */
  function LeBytes(n: nat, k: nat): (r: seq<byte>)
    ensures |r| == k
  {
    if k == 0 then [] else [n % 0x100] + LeBytes(n / 0x100, k - 1)
  }

  /** The number a little-endian byte sequence holds. */
  function FromLe(b: seq<byte>): nat
  {
    if b == [] then 0 else b[0] + 0x100 * FromLe(b[1..])
  }

  /** 256 to the power `k`: the first number that `k` bytes cannot hold. */
  function Pow256(k: nat): (r: nat)
    ensures r > 0
  {
    if k == 0 then 1 else 0x100 * Pow256(k - 1)
  }

  /** Reading back the bytes written for a value that fits gives the value. */
  lemma {:induction false} FromLeBytes(n: nat, k: nat)
    requires n < Pow256(k)
    ensures FromLe(LeBytes(n, k)) == n
  {
    if k > 0 {
      FromLeBytes(n / 0x100, k - 1);
      assert LeBytes(n, k)[1..] == LeBytes(n / 0x100, k - 1);
    }
  }

  /** Eight bytes hold any `u64`, so a `usize` written to memory reads back unchanged. */
  lemma UsizeRoundTrip(n: uint64)
    ensures FromLe(LeBytes(n, 8)) == n
  {
    assert Pow256(8) == 0x1_0000_0000_0000_0000;
    FromLeBytes(n, 8);
  }
}
