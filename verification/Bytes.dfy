/** Bytes, and NUL-terminated strings of them. */
module Bytes {
  type Byte = b: int | 0 <= b < 256

  /** What C reads at index `i` of a NUL-terminated string: the terminator is the last index it may read. */
  function At(s: seq<Byte>, i: nat): Byte
    requires i <= |s|
  {
    if i < |s| then s[i] else 0
  }

  /** The contents of a C string hold no NUL. */
  predicate NulFree(s: seq<Byte>) {
    forall i :: 0 <= i < |s| ==> s[i] != 0
  }
}
