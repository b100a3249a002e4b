/** Encoding and then decoding gives back what was encoded: booleans through the boolean encoder,
    byte-array and sequence headers through the tag bytes and big-endian length fields the decoder
    reads, for every width of the length field. */
module RoundTrips {
  import opened Errors
  import opened Binary
  import opened Markers
  import opened BoolHeaders
  import opened Headers
  import opened BoolEncoding
  import Values
  import opened DecoderSpec
  import opened Decoding

  /** After a byte-array header of length `len`, the value is the next `len` bytes. */
  lemma ValueAfterBytesHeader(ctx: Context, input: seq<bv8>, c: Cursor, w: nat, data: seq<bv8>)
    requires WellBehaved(ctx.others) && c.index + 1 + w + |data| <= |input|
    requires input[c.index + 1 + w..c.index + 1 + w + |data|] == data
    requires HeaderAt(ctx, input, c) == Outcome(Ok(Header.Bytes(BytesForLen(|data|))), Advance(c, 1 + w))
    ensures ValueAt(ctx, input, c) == Outcome(Ok(Values.Value.Bytes(Values.BytesValue(data))), Advance(c, 1 + w + |data|))
  {
    var after := Advance(c, 1 + w);
    BytesBodyAt(ctx, input, after, data);
    assert ValueAt(ctx, input, c) == ValueOfAt(ctx, input, after, Header.Bytes(BytesForLen(|data|)));
  }

  /** The body of a byte array of length `|data|` is the next `|data|` bytes; serves
      `BytesValueRoundTrip` through `ValueAfterBytesHeader`. */
  lemma BytesBodyAt(ctx: Context, input: seq<bv8>, at: Cursor, data: seq<bv8>)
    requires WellBehaved(ctx.others) && at.index + |data| <= |input|
    requires input[at.index..at.index + |data|] == data
    ensures ValueOfAt(ctx, input, at, Header.Bytes(BytesForLen(|data|))) ==
      Outcome(Ok(Values.Value.Bytes(Values.BytesValue(data))), Advance(at, |data|))
  {
    var body := PullBytesAt(input, at, |data|);
    assert body.result.value == data;
  }

  /** After a byte-array header of length `len`, skipping moves the reader past `len` bytes and
      leaves `pos` where the header put it. */
  lemma SkipAfterBytesHeader(ctx: Context, input: seq<bv8>, c: Cursor, w: nat, len: nat)
    requires WellBehaved(ctx.others) && c.index + 1 + w + len <= |input|
    requires HeaderAt(ctx, input, c) == Outcome(Ok(Header.Bytes(BytesForLen(len))), Advance(c, 1 + w))
    ensures SkipAt(ctx, input, c) == Outcome(Ok(()), Cursor(c.index + 1 + w + len, c.pos + 1 + w))
  {
  }

  /** A tag byte carrying the bytes marker makes `decode_header` a byte-array header decoder; serves
      `BytesHeaderRoundTrip`. */
  lemma HeaderOfBytes(ctx: Context, input: seq<bv8>, c: Cursor)
    requires c.index < |input| && Detect(input[c.index]) == Marker.Bytes && WellBehaved(ctx.others)
    ensures var h := BytesHeaderAt(ctx, input, c);
      HeaderAt(ctx, input, c) ==
        Outcome(if h.result.Ok? then Ok(Header.Bytes(h.result.value)) else Err(h.result.error), h.after)
  {
  }

  /** A tag byte carrying the sequence marker makes `decode_header` a sequence header decoder; serves
      `CompactSeqHeaderRoundTrip` and `ExtendedSeqHeaderRoundTrip`. */
  lemma HeaderOfSeq(ctx: Context, input: seq<bv8>, c: Cursor)
    requires c.index < |input| && Detect(input[c.index]) == Marker.Seq && WellBehaved(ctx.others)
    ensures var h := SeqHeaderAt(ctx, input, c);
      HeaderAt(ctx, input, c) ==
        Outcome(if h.result.Ok? then Ok(Header.Seq(h.result.value)) else Err(h.result.error), h.after)
  {
  }

  // ---------------------------------------------------------------------------------------------
  // Booleans

  /** The byte the boolean encoder writes decodes to the header it was written from, consuming
      exactly that byte. */
  lemma BoolHeaderRoundTrip(input: seq<bv8>, c: Cursor, h: BoolHeader)
    requires c.index < |input| && input[c.index] == BoolHeaderByte(h)
    ensures BoolHeaderAt(input, c) == Outcome(Ok(h), Advance(c, 1))
  {
    BoolBytes(true, false);
    assert h == New(h.value);
  }

  /** A boolean written by the encoder decodes as that boolean value and skips as one byte. */
  lemma BoolValueRoundTrip(ctx: Context, input: seq<bv8>, c: Cursor, b: bool)
    requires c.index < |input| && input[c.index] == BoolHeaderByte(New(b)) && WellBehaved(ctx.others)
    ensures ValueAt(ctx, input, c) == Outcome(Ok(Values.Value.Bool(Values.BoolValue(b))), Advance(c, 1))
    ensures SkipAt(ctx, input, c) == Outcome(Ok(()), Advance(c, 1))
  {
    BoolHeaderRoundTrip(input, c, New(b));
  }

  /** Encoding a boolean header writes one byte, and a decoder reading that byte gives back the header. */
  method EncodeThenDecodeBoolHeader(ctx: Context, header: BoolHeader) returns (encoded: seq<bv8>, decoded: Result<BoolHeader>)
    requires WellBehaved(ctx.others)
    ensures |encoded| == 1 && decoded == Ok(header)
  {
    var encoder := new Encoder();
    var _ := encoder.EncodeBoolHeader(header);
    encoded := encoder.output;
    var decoder := new Decoder.FromReader(encoded, ctx);
    BoolHeaderRoundTrip(encoded, decoder.At(), header);
    decoded := decoder.DecodeBoolHeader();
  }

  // ---------------------------------------------------------------------------------------------
  // Byte arrays

  /** A length field holding `len` in `w` big-endian bytes reads as `len` and is consumed whole. */
  lemma LenFieldDecodes(ctx: Context, input: seq<bv8>, at: Cursor, w: nat, len: nat)
    requires w <= 8 && len < Pow256(w) && len < Limit(ctx.usizeWidth)
    requires at.index + w <= |input| && input[at.index..at.index + w] == ToBigEndian(len, w)
    ensures PullLenBytesAt(ctx, input, at, w) == Outcome(Ok(len), Advance(at, w))
  {
    BigEndianOfToBigEndian(len, w);
    PullLenBytesValue(ctx, input, at, w);
  }

  /** A byte-array tag byte announcing a length field `2^e` bytes wide. */
  function BytesTag(e: bv8): (tag: bv8)
    requires e <= 3
    ensures Detect(tag) == Marker.Bytes && tag & LEN_WIDTH_EXPONENT_BITS == e
  {
    0x04 | e
  }

  /** A byte-array header written as its tag byte and `len` in `w == 2^e` big-endian bytes decodes
      to `len`, wherever it sits in the input and whatever follows it. */
  lemma BytesHeaderRoundTrip(ctx: Context, input: seq<bv8>, c: Cursor, e: bv8, w: nat, len: nat)
    requires e <= 3 && w == BytesLenWidth(BytesTag(e)) && len < Pow256(w) && len < Limit(ctx.usizeWidth)
    requires c.index + 1 + w <= |input| && input[c.index] == BytesTag(e)
    requires input[c.index + 1..c.index + 1 + w] == ToBigEndian(len, w)
    requires WellBehaved(ctx.others)
    ensures HeaderAt(ctx, input, c) == Outcome(Ok(Header.Bytes(BytesForLen(len))), Advance(c, 1 + w))
  {
    BytesHeaderDecodes(ctx, input, c, e, w, len);
    HeaderOfBytes(ctx, input, c);
  }

  lemma BytesHeaderDecodes(ctx: Context, input: seq<bv8>, c: Cursor, e: bv8, w: nat, len: nat)
    requires e <= 3 && w == BytesLenWidth(BytesTag(e)) && len < Pow256(w) && len < Limit(ctx.usizeWidth)
    requires c.index + 1 + w <= |input| && input[c.index] == BytesTag(e)
    requires input[c.index + 1..c.index + 1 + w] == ToBigEndian(len, w)
    ensures BytesHeaderAt(ctx, input, c) == Outcome(Ok(BytesForLen(len)), Advance(c, 1 + w))
  {
    LenFieldDecodes(ctx, input, Advance(c, 1), w, len);
  }

  /** A byte array written as its header and then its bytes decodes to those bytes. */
  lemma BytesValueRoundTrip(ctx: Context, input: seq<bv8>, c: Cursor, e: bv8, w: nat, data: seq<bv8>)
    requires e <= 3 && w == BytesLenWidth(BytesTag(e)) && |data| < Pow256(w) && |data| < Limit(ctx.usizeWidth)
    requires c.index + 1 + w + |data| <= |input| && input[c.index] == BytesTag(e)
    requires input[c.index + 1..c.index + 1 + w] == ToBigEndian(|data|, w)
    requires input[c.index + 1 + w..c.index + 1 + w + |data|] == data
    requires WellBehaved(ctx.others)
    ensures ValueAt(ctx, input, c) == Outcome(Ok(Values.Value.Bytes(Values.BytesValue(data))), Advance(c, 1 + w + |data|))
  {
    BytesHeaderRoundTrip(ctx, input, c, e, w, |data|);
    ValueAfterBytesHeader(ctx, input, c, w, data);
  }

  /** Skipping the same byte array stops where decoding it stops, but moves `pos` only past the
      header. */
  lemma BytesSkipRoundTrip(ctx: Context, input: seq<bv8>, c: Cursor, e: bv8, w: nat, len: nat)
    requires e <= 3 && w == BytesLenWidth(BytesTag(e)) && len < Pow256(w) && len < Limit(ctx.usizeWidth)
    requires c.index + 1 + w + len <= |input| && input[c.index] == BytesTag(e)
    requires input[c.index + 1..c.index + 1 + w] == ToBigEndian(len, w)
    requires WellBehaved(ctx.others)
    ensures SkipAt(ctx, input, c) == Outcome(Ok(()), Cursor(c.index + 1 + w + len, c.pos + 1 + w))
  {
    BytesHeaderRoundTrip(ctx, input, c, e, w, len);
    SkipAfterBytesHeader(ctx, input, c, w, len);
  }

  // ---------------------------------------------------------------------------------------------
  // Sequences

  /** A compact sequence tag byte holding `len` itself. */
  function CompactSeqTag(len: nat): (tag: bv8)
    requires len <= 0x0F
    ensures Detect(tag) == Marker.Seq && tag & COMPACT_VARIANT_BIT != 0
    ensures (tag & COMPACT_LEN_BITS) as nat == len
  {
    0x20 | COMPACT_VARIANT_BIT | ByteOf(len)
  }

  /** An extended sequence tag byte announcing a length field `w` bytes wide. */
  function ExtendedSeqTag(w: nat): (tag: bv8)
    requires 1 <= w <= 8
    ensures Detect(tag) == Marker.Seq && tag & COMPACT_VARIANT_BIT == 0 && SeqLenWidth(tag) == w
  {
    0x20 | ByteOf(w - 1)
  }

  /** A compact sequence header is its tag byte alone, and decodes to the length it holds. */
  lemma CompactSeqHeaderRoundTrip(ctx: Context, input: seq<bv8>, c: Cursor, len: nat)
    requires len <= 0x0F && c.index < |input| && input[c.index] == CompactSeqTag(len) && WellBehaved(ctx.others)
    ensures HeaderAt(ctx, input, c) == Outcome(Ok(Header.Seq(Compact(len))), Advance(c, 1))
  {
    HeaderOfSeq(ctx, input, c);
  }

  /** An extended sequence header written as its tag byte and `len` in `w` big-endian bytes decodes
      to `len`, for every width from 1 to 8. */
  lemma ExtendedSeqHeaderRoundTrip(ctx: Context, input: seq<bv8>, c: Cursor, w: nat, len: nat)
    requires 1 <= w <= 8 && len < Pow256(w) && len < Limit(ctx.usizeWidth)
    requires c.index + 1 + w <= |input| && input[c.index] == ExtendedSeqTag(w)
    requires input[c.index + 1..c.index + 1 + w] == ToBigEndian(len, w)
    requires WellBehaved(ctx.others)
    ensures HeaderAt(ctx, input, c) == Outcome(Ok(Header.Seq(Extended(len))), Advance(c, 1 + w))
  {
    ExtendedSeqHeaderDecodes(ctx, input, c, w, len);
    HeaderOfSeq(ctx, input, c);
  }

  lemma ExtendedSeqHeaderDecodes(ctx: Context, input: seq<bv8>, c: Cursor, w: nat, len: nat)
    requires 1 <= w <= 8 && len < Pow256(w) && len < Limit(ctx.usizeWidth)
    requires c.index + 1 + w <= |input| && input[c.index] == ExtendedSeqTag(w)
    requires input[c.index + 1..c.index + 1 + w] == ToBigEndian(len, w)
    ensures SeqHeaderAt(ctx, input, c) == Outcome(Ok(Extended(len)), Advance(c, 1 + w))
  {
    ExtendedSeqTagDecodes(input, c, w);
    LenFieldDecodes(ctx, input, Advance(c, 1), w, len);
  }

  /** The extended sequence tag byte is accepted as a sequence tag and consumed alone. */
  lemma ExtendedSeqTagDecodes(input: seq<bv8>, c: Cursor, w: nat)
    requires 1 <= w <= 8 && c.index < |input| && input[c.index] == ExtendedSeqTag(w)
    ensures PullByteExpectingAt(input, c, Marker.Seq) == Outcome(Ok(ExtendedSeqTag(w)), Advance(c, 1))
  {
  }

  /** The bytes the boolean encoder writes for `bs`, one after the other. */
  function BoolBytesOf(bs: seq<bool>): (r: seq<bv8>)
    ensures |r| == |bs| && forall i :: 0 <= i < |bs| ==> r[i] == BoolHeaderByte(New(bs[i]))
  {
    seq(|bs|, i requires 0 <= i < |bs| => BoolHeaderByte(New(bs[i])))
  }

  /** `bs` as decoded values. */
  function BoolValuesOf(bs: seq<bool>): (r: seq<Values.Value>)
    ensures |r| == |bs| && forall i :: 0 <= i < |bs| ==> r[i] == Values.Value.Bool(Values.BoolValue(bs[i]))
  {
    seq(|bs|, i requires 0 <= i < |bs| => Values.Value.Bool(Values.BoolValue(bs[i])))
  }

  /** `|bs|` encoded booleans decode, as sequence items, to those booleans in the order written. */
  lemma {:induction false} BoolItemsRoundTrip(ctx: Context, input: seq<bv8>, c: Cursor, bs: seq<bool>)
    requires c.index + |bs| <= |input| && input[c.index..c.index + |bs|] == BoolBytesOf(bs)
    requires WellBehaved(ctx.others)
    ensures SeqItemsAt(ctx, input, c, |bs|) == Outcome(Ok(BoolValuesOf(bs)), Advance(c, |bs|))
    decreases |bs|
  {
    if |bs| > 0 {
      assert input[c.index] == BoolBytesOf(bs)[0];
      BoolValueRoundTrip(ctx, input, c, bs[0]);
      assert input[c.index + 1..c.index + |bs|] == BoolBytesOf(bs)[1..] == BoolBytesOf(bs[1..]);
      BoolItemsRoundTrip(ctx, input, Advance(c, 1), bs[1..]);
      assert BoolValuesOf(bs) == [Values.Value.Bool(Values.BoolValue(bs[0]))] + BoolValuesOf(bs[1..]);
    }
  }

  /** A compact sequence of up to 15 encoded booleans decodes to the sequence of those booleans. */
  lemma CompactBoolSeqRoundTrip(ctx: Context, input: seq<bv8>, c: Cursor, bs: seq<bool>)
    requires |bs| <= 0x0F && c.index + 1 + |bs| <= |input| && WellBehaved(ctx.others)
    requires input[c.index] == CompactSeqTag(|bs|) && input[c.index + 1..c.index + 1 + |bs|] == BoolBytesOf(bs)
    ensures ValueAt(ctx, input, c) ==
      Outcome(Ok(Values.Value.Seq(Values.SeqValue(BoolValuesOf(bs)))), Advance(c, 1 + |bs|))
  {
    CompactSeqHeaderRoundTrip(ctx, input, c, |bs|);
    assert ValueAt(ctx, input, c) == ValueOfAt(ctx, input, Advance(c, 1), Header.Seq(Compact(|bs|)));
    BoolItemsRoundTrip(ctx, input, Advance(c, 1), bs);
  }
}
