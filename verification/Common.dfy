/** Small shared vocabulary: optional values, bytes and the ESP-IDF error codes the components return. */
module Common {

  datatype Option<+T> = None | Some(value: T)

  datatype Err = Ok | InvalidArg | InvalidState | NotFound | NoMem | Timeout | Fail

  const WORD := 0x1_0000_0000

  type byte = b: int | 0 <= b < 256

  function Max(a: nat, b: nat): nat { if a < b then b else a }

  predicate Distinct<T(==)>(s: seq<T>) {
    forall i, j | 0 <= i < j < |s| :: s[i] != s[j]
  }
}
