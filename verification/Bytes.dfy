/** Octets and octet strings, the data every other module moves around. */
module Bytes {
  type byte = x: int | 0 <= x < 256
  type bytes = seq<byte>

  const SPACE: byte := 32
  const COLON: byte := 58
  const CRLF: bytes := [13, 10]

  datatype Option<+T> = None | Some(value: T)

  /** All the parts, one after the other. */
  function Concat(parts: seq<bytes>): bytes {
    if parts == [] then [] else Concat(parts[..|parts| - 1]) + parts[|parts| - 1]
  }

  lemma ConcatSnoc(parts: seq<bytes>, last: bytes)
    ensures Concat(parts + [last]) == Concat(parts) + last
  {
    assert (parts + [last])[..|parts|] == parts;
  }
}
