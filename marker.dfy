/** The type marker every header's first byte carries. */
module Markers {

  /** One marker per kind of value, in the order of the `Header` enum. */
  datatype Marker = Int | String | Seq | Map | Float | Bytes | Bool | Unit | Null

  /** `Marker::detect`: the kind is given by the highest set bit of the tag byte, that is, by the
      highest power of two not above it. `Int` owns bit 7,
      `String` bit 6, and so on down to `Unit` on bit 0; the zero byte is `Null`. This layout is an
      assumption of the model; it agrees with the boolean tag bits `0b0000_001x`. */
  function Detect(tag: bv8): Marker {
    if tag >= 0x80 then Marker.Int
    else if tag >= 0x40 then Marker.String
    else if tag >= 0x20 then Marker.Seq
    else if tag >= 0x10 then Marker.Map
    else if tag >= 0x08 then Marker.Float
    else if tag >= 0x04 then Marker.Bytes
    else if tag >= 0x02 then Marker.Bool
    else if tag >= 0x01 then Marker.Unit
    else Marker.Null
  }

  /** `Marker::validate`: a tag byte is accepted for `m` exactly when it carries `m`. */
  predicate Validate(m: Marker, tag: bv8) {
    Detect(tag) == m
  }
}
