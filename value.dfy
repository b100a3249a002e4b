/** Decoded values. Only the integer, byte-array, sequence and boolean payloads are modelled in
    detail; the other kinds carry a payload the model never inspects. */
module Values {
  import opened IntValues

  datatype BoolValue = BoolValue(value: bool)
  datatype BytesValue = BytesValue(bytes: seq<bv8>)

  datatype Value =
    | Int(intValue: IntValue)
    | String(text: seq<char>)
    | Seq(seqValue: SeqValue)
    | Map(entries: seq<MapEntry>)
    | Float(bits: bv64)
    | Bytes(bytesValue: BytesValue)
    | Bool(boolValue: BoolValue)
    | Unit
    | Null

  datatype SeqValue = SeqValue(items: seq<Value>)
  datatype MapEntry = MapEntry(key: Value, value: Value)
}
