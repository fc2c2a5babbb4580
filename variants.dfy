/** Option, used for `std::optional` results (a request with no handler). */
module Optional {
  datatype Option<+T> = None | Some(value: T)
}

/**
 * The untyped payload of the event bus: a `QVariant` is a tagged value, a
 * `QVariantMap` a mapping from string keys to such values. Only the kinds an
 * event payload carries are modelled; floating-point numbers are not.
 */
module Variants {

  /** A signed 64-bit integer (`qint64`). */
  newtype int64 = x: int | -0x8000_0000_0000_0000 <= x < 0x8000_0000_0000_0000

  /** A signed 32-bit integer (`int`). */
  newtype int32 = x: int | -0x8000_0000 <= x < 0x8000_0000

  datatype Variant =
    | VNull                                // an invalid (default-constructed) QVariant
    | VBool(b: bool)
    | VInt(i: int)
    | VString(s: string)
    | VList(items: seq<Variant>)
    | VMap(entries: map<string, Variant>)

  type VariantMap = map<string, Variant>

  /** `QVariantMap::value(key)`: the stored value, or an invalid variant when the key is absent. */
  function Value(m: VariantMap, key: string): Variant
  {
    if key in m then m[key] else VNull
  }

  /** The string a variant holds; any other kind yields the empty string. */
  function AsString(v: Variant): string
  {
    if v.VString? then v.s else ""
  }

  /** The map a variant holds; any other kind yields the empty map. */
  function AsMap(v: Variant): VariantMap
  {
    if v.VMap? then v.entries else map[]
  }

  /** The 64-bit integer a variant holds; any other kind, or a value out of range, yields 0. */
  function AsInt64(v: Variant): int64
  {
    if v.VInt? && -0x8000_0000_0000_0000 <= v.i < 0x8000_0000_0000_0000 then v.i as int64 else 0
  }
}
