/** Vocabulary shared by the other modules: optional values, results, bytes and fixed-width numbers. */
module Common {
  datatype Option<+T> = None | Some(value: T)

  datatype Result<+T, +E> = Ok(value: T) | Err(error: E)

  type Byte = x: int | 0 <= x < 0x100
  type U32 = x: int | 0 <= x < 0x1_0000_0000
  type U64 = x: int | 0 <= x < 0x1_0000_0000_0000_0000

  const U16_MAX: nat := 0xFFFF
  const U32_MAX: nat := 0xFFFF_FFFF
  const U64_MAX: nat := 0xFFFF_FFFF_FFFF_FFFF
  const U128_MAX: nat := 0xFFFF_FFFF_FFFF_FFFF_FFFF_FFFF_FFFF_FFFF

  /** Thirty-two bytes. */
  type Bytes32 = b: seq<Byte> | |b| == 32 witness seq(32, _ => 0)

  /** A key or a secret, a digest, and the digest of a key that names a device. */
  type Key32 = Bytes32
  type Digest = Bytes32
  type DeviceId = Bytes32

  function Min(a: nat, b: nat): nat {
    if a <= b then a else b
  }

  /** Subtraction that stops at zero. */
  function SatSub(a: nat, b: nat): nat {
    if a > b then a - b else 0
  }

  function Max(a: nat, b: nat): nat {
    if a <= b then b else a
  }
}
