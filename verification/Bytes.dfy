/** Bytes and the few facts about byte strings the readers share. */
module Bytes {
  type byte = x: int | 0 <= x < 256

  type Bytes = seq<byte>

  ghost predicate IsPrefix(a: Bytes, b: Bytes) {
    |a| <= |b| && a == b[..|a|]
  }
}
