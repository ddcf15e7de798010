// Shared vocabulary: 32-bit ledger sequences, closed ledger ranges, and the
// facts a coverage claim is about.
module Basics {

  const MAX_U32 := 0xFFFF_FFFF

  /** A ledger sequence as the program stores it: an unsigned 32-bit integer. */
  type uint32 = x: int | 0 <= x <= MAX_U32

  /** The value an unsigned 32-bit computation leaves behind. */
  function Wrap32(x: int): uint32 {
    x % (MAX_U32 + 1)
  }

  type Byte = x: int | 0 <= x < 256

  type Bytes = seq<Byte>

  function Max(a: int, b: int): int {
    if a > b then a else b
  }

  function Min(a: int, b: int): int {
    if a < b then a else b
  }

  datatype Option<+T> = None | Some(value: T)

  datatype Result<+T, +E> = Ok(value: T) | Err(error: E)

  /** A closed ledger range [from .. to]. */
  datatype Interval = Interval(from: uint32, to: uint32) {
    predicate Has(l: int) {
      from <= l <= to
    }
  }

  /** One unit of derived history: the ledger was extracted for the contract under the kind. */
  datatype Fact = Fact(contract: string, kind: string, ledger: nat)
}
