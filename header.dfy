/** Value headers: the descriptor in front of every encoded value. */
module Headers {
  import opened Markers
  import opened BoolHeaders

  /** The header of a kind whose header layout is not part of this model: the model only passes it
      between the decoders of that kind. */
  datatype OpaqueHeader = OpaqueHeader(raw: seq<bv8>)

  type IntHeader = OpaqueHeader
  type StringHeader = OpaqueHeader
  type MapHeader = OpaqueHeader
  type FloatHeader = OpaqueHeader
  type UnitHeader = OpaqueHeader

  /** The null header has no content. */
  datatype NullHeader = NullHeader

  /** A byte array's header: the number of bytes that follow it. */
  datatype BytesHeader = BytesHeader(len: nat)

  /** The low bits of a byte-array tag: the base-2 logarithm of the length field's width in bytes
      (assumed layout, the header's own file is not part of this model). */
  const LEN_WIDTH_EXPONENT_BITS: bv8 := 0x03 // 0b0000_0011

  /** `BytesHeader::for_len`. */
  function BytesForLen(len: nat): (h: BytesHeader)
    ensures h.len == len
  {
    BytesHeader(len)
  }

  /** A sequence's header: its element count, either inlined in the tag byte (compact) or held in a
      separate length field (extended). */
  datatype SeqHeader = Compact(len: nat) | Extended(len: nat)

  /** Tag bit that selects the compact form (assumed layout). */
  const COMPACT_VARIANT_BIT: bv8 := 0x10 // 0b0001_0000
  /** Tag bits of a compact sequence that hold its length (assumed layout). */
  const COMPACT_LEN_BITS: bv8 := 0x0F // 0b0000_1111
  /** Tag bits of an extended sequence that hold its length field's width minus one (assumed layout). */
  const EXTENDED_LEN_WIDTH_BITS: bv8 := 0x07 // 0b0000_0111

  /** A value's header. */
  datatype Header =
    | Int(intHeader: IntHeader)
    | String(stringHeader: StringHeader)
    | Seq(seqHeader: SeqHeader)
    | Map(mapHeader: MapHeader)
    | Float(floatHeader: FloatHeader)
    | Bytes(bytesHeader: BytesHeader)
    | Bool(boolHeader: BoolHeader)
    | Unit(unitHeader: UnitHeader)
    | Null(nullHeader: NullHeader)

  /** `Header::default`. */
  function Default(): (h: Header)
    ensures h.Null? && MarkerOf(h) == Marker.Null
  {
    Header.Null(NullHeader)
  }

  // The `From<XHeader>` wrappers: each keeps its argument and tags it with its kind.

  function FromIntHeader(h: IntHeader): (r: Header)
    ensures r.Int? && r.intHeader == h && MarkerOf(r) == Marker.Int
  { Header.Int(h) }

  function FromStringHeader(h: StringHeader): (r: Header)
    ensures r.String? && r.stringHeader == h && MarkerOf(r) == Marker.String
  { Header.String(h) }

  function FromSeqHeader(h: SeqHeader): (r: Header)
    ensures r.Seq? && r.seqHeader == h && MarkerOf(r) == Marker.Seq
  { Header.Seq(h) }

  function FromMapHeader(h: MapHeader): (r: Header)
    ensures r.Map? && r.mapHeader == h && MarkerOf(r) == Marker.Map
  { Header.Map(h) }

  function FromFloatHeader(h: FloatHeader): (r: Header)
    ensures r.Float? && r.floatHeader == h && MarkerOf(r) == Marker.Float
  { Header.Float(h) }

  function FromBytesHeader(h: BytesHeader): (r: Header)
    ensures r.Bytes? && r.bytesHeader == h && MarkerOf(r) == Marker.Bytes
  { Header.Bytes(h) }

  function FromBoolHeader(h: BoolHeader): (r: Header)
    ensures r.Bool? && r.boolHeader == h && MarkerOf(r) == Marker.Bool
  { Header.Bool(h) }

  function FromUnitHeader(h: UnitHeader): (r: Header)
    ensures r.Unit? && r.unitHeader == h && MarkerOf(r) == Marker.Unit
  { Header.Unit(h) }

  function FromNullHeader(h: NullHeader): (r: Header)
    ensures r.Null? && r.nullHeader == h && MarkerOf(r) == Marker.Null
  { Header.Null(h) }

  /** `Header::marker`: each variant's same-named marker. */
  function MarkerOf(h: Header): (m: Marker)
    ensures m.Int? <==> h.Int?
    ensures m.String? <==> h.String?
    ensures m.Seq? <==> h.Seq?
    ensures m.Map? <==> h.Map?
    ensures m.Float? <==> h.Float?
    ensures m.Bytes? <==> h.Bytes?
    ensures m.Bool? <==> h.Bool?
    ensures m.Unit? <==> h.Unit?
    ensures m.Null? <==> h.Null?
  {
    match h
    case Int(_) => Marker.Int
    case String(_) => Marker.String
    case Seq(_) => Marker.Seq
    case Map(_) => Marker.Map
    case Float(_) => Marker.Float
    case Bytes(_) => Marker.Bytes
    case Bool(_) => Marker.Bool
    case Unit(_) => Marker.Unit
    case Null(_) => Marker.Null
  }

  /** Two headers have the same marker exactly when they are of the same variant. */
  lemma MarkerInjective(a: Header, b: Header)
    ensures MarkerOf(a) == MarkerOf(b) <==>
      (a.Int? && b.Int?) || (a.String? && b.String?) || (a.Seq? && b.Seq?) ||
      (a.Map? && b.Map?) || (a.Float? && b.Float?) || (a.Bytes? && b.Bytes?) ||
      (a.Bool? && b.Bool?) || (a.Unit? && b.Unit?) || (a.Null? && b.Null?)
  {
  }
}
