/** Bytes, byte strings and the Option type shared by the Rust half of the model. */
module Bytes {
  datatype Option<+T> = None | Some(value: T)

  type Byte = b: int | 0 <= b < 256
  type Bytes = seq<Byte>

  function Min(a: nat, b: nat): nat { if a <= b then a else b }

  /** The bytes of `blob` at [offset, offset + length), as far as they exist; None when the
      offset is past the end. */
  function Slice(blob: Bytes, offset: nat, length: nat): Option<Bytes> {
    if offset < |blob| then Some(blob[offset..Min(offset + length, |blob|)]) else None
  }
}
