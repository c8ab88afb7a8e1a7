/** Values shared by every component: machine integer ranges, hashes, addresses and
    the failure-carrying results of fallible calls. */
module Types {
  const TWO64: nat := 0x1_0000_0000_0000_0000
  const TWO127: nat := 0x8000_0000_0000_0000_0000_0000_0000_0000
  const TWO128: nat := 0x1_0000_0000_0000_0000_0000_0000_0000_0000
  const U64_MAX: nat := TWO64 - 1
  const U128_MAX: nat := TWO128 - 1

  type u64 = x: nat | x < TWO64
  type u128 = x: nat | x < TWO128

  datatype H256 = H256(word: nat)
  datatype Address = Address(word: nat)
  datatype PublicKey = PublicKey(bytes: string)

  /** `H256::zero()`. */
  const ZERO_HASH: H256 := H256(0)

  datatype Option<+T> = None | Some(value: T)

  function Min(a: int, b: int): int {
    if a <= b then a else b
  }

  function Max(a: int, b: int): int {
    if a >= b then a else b
  }

  function SaturatingAdd64(a: u64, b: u64): u64 {
    Min(a + b, U64_MAX)
  }

  function SaturatingAdd(a: u128, b: u128): u128 {
    Min(a + b, U128_MAX)
  }

  function SaturatingSub(a: u128, b: u128): u128 {
    if a <= b then 0 else a - b
  }

  function SaturatingMul(a: u128, b: u128): u128 {
    Min(a * b, U128_MAX)
  }
}
