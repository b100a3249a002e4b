/** The header of a boolean, which carries the boolean itself. */
module BoolHeaders {

  datatype BoolHeader = BoolHeader(value: bool)

  /** The bits a boolean tag byte may use. */
  const MASK: bv8 := 0x03 // 0b0000_0011
  /** The bits that mark a byte as a boolean tag. */
  const TYPE_BITS: bv8 := 0x02 // 0b0000_0010
  /** The bit that holds the boolean. */
  const VALUE_BIT: bv8 := 0x01 // 0b0000_0001

  /** `BoolHeader::new`. */
  function New(value: bool): (h: BoolHeader)
    ensures Value(h) == value
  {
    BoolHeader(value)
  }

  /** `BoolHeader::value`. */
  function Value(h: BoolHeader): (v: bool)
    ensures v <==> h == BoolHeader(true)
  {
    h.value
  }

  /** The type bits and the value bit do not overlap, both lie inside `MASK`, and together they are `MASK`. */
  lemma BitLayout()
    ensures TYPE_BITS & VALUE_BIT == 0
    ensures TYPE_BITS & !MASK == 0 && VALUE_BIT & !MASK == 0
    ensures TYPE_BITS | VALUE_BIT == MASK
  {
  }
}
