/** Byte strings and the keys of items. */
module Bytes {
  type byte = x: int | 0 <= x < 256

  type Bytes = seq<byte>

  /** The identity of an item: the encoded hash key and the encoded sort key. The empty sort key is the absent one. */
  datatype ItemKey = ItemKey(hk: Bytes, sk: Bytes)

  datatype Option<+T> = None | Some(value: T)

  function Max(a: int, b: int): int {
    if a >= b then a else b
  }

  function Min(a: int, b: int): int {
    if a <= b then a else b
  }
}
