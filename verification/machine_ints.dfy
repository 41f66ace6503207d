/** Fixed-width integers of the Rust source, as subset types of `int`,
    with the wrap-around that atomic counters and `as` casts perform
    written out explicitly. `usize` is taken to be 64 bits wide. */
module MachineInts {

  const TWO_TO_THE_32: int := 0x1_0000_0000
  const TWO_TO_THE_64: int := 0x1_0000_0000_0000_0000

  type uint8 = x: int | 0 <= x < 0x100
  type uint32 = x: int | 0 <= x < 0x1_0000_0000
  type uint64 = x: int | 0 <= x < 0x1_0000_0000_0000_0000
  type int32 = x: int | -0x8000_0000 <= x < 0x8000_0000
  type int64 = x: int | -0x8000_0000_0000_0000 <= x < 0x8000_0000_0000_0000

  /** `AtomicU32::fetch_add`: addition modulo 2^32. */
  function WrappingAdd32(a: uint32, b: uint32): (r: uint32)
    ensures a + b < TWO_TO_THE_32 ==> r == a + b
    ensures a + b >= TWO_TO_THE_32 ==> r == a + b - TWO_TO_THE_32
  {
    (a + b) % TWO_TO_THE_32
  }

  /** `AtomicU64::fetch_add` / `AtomicUsize::fetch_add`: addition modulo 2^64. */
  function WrappingAdd64(a: uint64, b: uint64): (r: uint64)
    ensures a + b < TWO_TO_THE_64 ==> r == a + b
    ensures a + b >= TWO_TO_THE_64 ==> r == a + b - TWO_TO_THE_64
  {
    (a + b) % TWO_TO_THE_64
  }

  /** `AtomicUsize::fetch_sub`: subtraction modulo 2^64. */
  function WrappingSub64(a: uint64, b: uint64): (r: uint64)
    ensures a >= b ==> r == a - b
    ensures a < b ==> r == a - b + TWO_TO_THE_64
  {
    (a - b) % TWO_TO_THE_64
  }

  /** Reducing a partial sum modulo 2^64 early does not change the
      final remainder. */
  lemma ModAbsorb64(a: int, b: int)
    ensures ((a % TWO_TO_THE_64) + b) % TWO_TO_THE_64 == (a + b) % TWO_TO_THE_64
  {
    var q := a / TWO_TO_THE_64;
    assert a == q * TWO_TO_THE_64 + a % TWO_TO_THE_64;
  }

  /** The same for 2^32. */
  lemma ModAbsorb32(a: int, b: int)
    ensures ((a % TWO_TO_THE_32) + b) % TWO_TO_THE_32 == (a + b) % TWO_TO_THE_32
  {
    var q := a / TWO_TO_THE_32;
    assert a == q * TWO_TO_THE_32 + a % TWO_TO_THE_32;
  }

  /** Unchecked `usize` multiplication in a release build: the product
      modulo 2^64. */
  function WrappingMul64(a: uint64, b: uint64): (r: uint64)
    ensures a * b < TWO_TO_THE_64 ==> r == a * b
    ensures (r - a * b) % TWO_TO_THE_64 == 0
  {
    (a * b) % TWO_TO_THE_64
  }

  /** `x as i32` for `x: u32`: the same 32 bits read as two's complement. */
  function AsInt32(x: uint32): (r: int32)
    ensures (r - x) % TWO_TO_THE_32 == 0
  {
    if x < 0x8000_0000 then x else x - TWO_TO_THE_32
  }

  /** `x as i64` for `x: u64` (also for `usize as i64`). */
  function AsInt64(x: uint64): (r: int64)
    ensures (r - x) % TWO_TO_THE_64 == 0
  {
    if x < 0x8000_0000_0000_0000 then x else x - TWO_TO_THE_64
  }
}
