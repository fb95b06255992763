/** What several parts of the model use. */
module Shared {
  type TaskId = int

  type Byte = b: int | 0 <= b < 256

  datatype Option<T> = None | Some(value: T)

  /** The number of values of a 32-bit word: TickType_t, UBaseType_t, size_t and uint32. */
  const WORD: nat := 0x1_0000_0000

  /** portMAX_DELAY. */
  const MAX_DELAY: nat := WORD - 1

  function Min(a: nat, b: nat): nat {
    if a < b then a else b
  }
}
