/** Encoding of booleans: one tag byte that holds the value. */
module BoolEncoding {
  import opened Errors
  import opened BoolHeaders
  import Values

  /** `binary::bits_if`: `bits` when `condition` holds, no bits otherwise. */
  function BitsIf(bits: bv8, condition: bool): (r: bv8)
    ensures condition ==> r == bits
    ensures !condition ==> r == 0
  {
    if condition then bits else 0
  }

  /** The byte `encode_bool_header` writes: the boolean type bits, with the value bit set exactly
      when the header holds `true`, and nothing outside `MASK`. */
  function BoolHeaderByte(h: BoolHeader): (b: bv8)
    ensures b & !MASK == 0
    ensures b & TYPE_BITS == TYPE_BITS
    ensures (b & VALUE_BIT != 0) <==> Value(h)
  {
    TYPE_BITS | BitsIf(VALUE_BIT, Value(h))
  }

  /** `true` encodes as `0b11` and `false` as `0b10`; distinct booleans give distinct bytes. */
  lemma BoolBytes(a: bool, b: bool)
    ensures BoolHeaderByte(New(true)) == 0x03 && BoolHeaderByte(New(false)) == 0x02
    ensures BoolHeaderByte(New(a)) == BoolHeaderByte(New(b)) <==> a == b
  {
  }

  /** An encoder over a growable output buffer. */
  class Encoder {
    var output: seq<bv8>

    constructor ()
      ensures output == []
    {
      output := [];
    }

    /** Appends one byte to the writer; a growable buffer never refuses one. */
    method PushByte(byte: bv8) returns (r: Result<()>)
      modifies this
      ensures r.Ok? && output == old(output) + [byte]
    {
      output := output + [byte];
      r := Ok(());
    }

    /** `encode_bool_header`: appends exactly one byte, `BoolHeaderByte(header)`. */
    method EncodeBoolHeader(header: BoolHeader) returns (r: Result<()>)
      modifies this
      ensures r.Ok? && output == old(output) + [BoolHeaderByte(header)]
    {
      var byte := TYPE_BITS;
      byte := byte | BitsIf(VALUE_BIT, Value(header));
      r := PushByte(byte);
    }

    /** `header_for_bool`. */
    function HeaderForBool(value: bool): (h: BoolHeader)
      ensures Value(h) == value
    {
      New(value)
    }

    /** `encode_bool`: writes the header built for `value`, which is all a boolean needs. */
    method EncodeBool(value: bool) returns (r: Result<()>)
      modifies this
      ensures r.Ok? && output == old(output) + [BoolHeaderByte(HeaderForBool(value))]
      ensures |output| == |old(output)| + 1
      ensures (output[|output| - 1] & VALUE_BIT != 0) <==> value
    {
      var header := HeaderForBool(value);
      r := EncodeBoolHeader(header);
    }

    /** `encode_bool_value`: the same bytes as `encode_bool` of the wrapped boolean. */
    method EncodeBoolValue(value: Values.BoolValue) returns (r: Result<()>)
      modifies this
      ensures r.Ok? && output == old(output) + [BoolHeaderByte(HeaderForBool(value.value))]
    {
      r := EncodeBool(value.value);
    }
  }
}
