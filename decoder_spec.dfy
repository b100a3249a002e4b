/** What decoding does to the input, stated as functions: each takes the input, the cursor where
    decoding starts and returns the outcome together with the cursor where it stops. The methods
    of `Decoding.Decoder` are proved to do exactly this. */
module DecoderSpec {
  import opened Errors
  import opened Binary
  import opened Markers
  import BoolHeaders
  import opened Headers
  import opened Values

  /** Where decoding stands: the reader's index into the input and the decoder's own `pos`
      counter. Every pull moves both by the same amount; skipping a byte array moves only the reader. */
  datatype Cursor = Cursor(index: nat, pos: nat)

  function Advance(c: Cursor, n: nat): Cursor {
    Cursor(c.index + n, c.pos + n)
  }

  /** The result of a decoding step and the cursor it leaves behind, on success and on failure alike. */
  datatype Outcome<+T> = Outcome(result: Result<T>, after: Cursor)

  /** The header decoders, body decoders and skippers of the kinds whose code is not part of this
      model (integers, strings, maps, floats, unit and null), taken as given. */
  datatype OpaqueKinds = OpaqueKinds(
    header: (Marker, seq<bv8>, Cursor) -> Outcome<Header>,
    valueOf: (Header, seq<bv8>, Cursor) -> Outcome<Value>,
    skipOf: (Header, seq<bv8>, Cursor) -> Outcome<()>)

  /** What decoding depends on besides the input: the opaque decoders and the platform's `usize` width. */
  datatype Context = Context(others: OpaqueKinds, usizeWidth: Width)

  /** The step neither moves backwards nor past the end of the input. */
  ghost predicate Within<T>(o: Outcome<T>, input: seq<bv8>, c: Cursor) {
    c.index <= o.after.index <= |input|
  }

  /** All that is assumed of the opaque decoders: they stay within the input, and a header that
      decodes consumes at least its tag byte. */
  ghost predicate WellBehaved(k: OpaqueKinds) {
    && (forall m: Marker, input: seq<bv8>, c: Cursor | c.index <= |input| ::
          Within(k.header(m, input, c), input, c) &&
          (k.header(m, input, c).result.Ok? ==> c.index < k.header(m, input, c).after.index))
    && (forall h: Header, input: seq<bv8>, c: Cursor | c.index <= |input| :: Within(k.valueOf(h, input, c), input, c))
    && (forall h: Header, input: seq<bv8>, c: Cursor | c.index <= |input| :: Within(k.skipOf(h, input, c), input, c))
  }

  // ---------------------------------------------------------------------------------------------
  // Pulling bytes off the reader

  /** `peek_byte`: the next byte, which stays unread. */
  function PeekByteAt(input: seq<bv8>, c: Cursor): (r: Result<bv8>)
    ensures r.Ok? <==> c.index < |input|
    ensures r.Ok? ==> r.value == input[c.index]
    ensures r.Err? ==> r.error == EndOfFile()
  {
    if c.index < |input| then Ok(input[c.index]) else Err(EndOfFile())
  }

  /** `pull_byte`: the next byte, advancing `pos` by one; at the end of input an end-of-file error
      that leaves the cursor where it was. */
  function PullByteAt(input: seq<bv8>, c: Cursor): (o: Outcome<bv8>)
    ensures o.result.Ok? <==> c.index < |input|
    ensures o.result.Ok? ==> o.result.value == input[c.index] && o.after == Advance(c, 1)
    ensures o.result.Err? ==> o.result.error == EndOfFile() && o.after == c
  {
    if c.index < |input| then Outcome(Ok(input[c.index]), Advance(c, 1))
    else Outcome(Err(EndOfFile()), c)
  }

  /** `pull_bytes` and `pull_bytes_into`: exactly the next `len` bytes, advancing `pos` by `len`; if
      fewer remain, an end-of-file error that leaves the cursor where it was. Pulling nothing always
      succeeds and moves nothing. */
  function PullBytesAt(input: seq<bv8>, c: Cursor, len: nat): (o: Outcome<seq<bv8>>)
    requires c.index <= |input|
    ensures o.result.Ok? <==> c.index + len <= |input|
    ensures o.result.Ok? ==>
      |o.result.value| == len && o.result.value == input[c.index..c.index + len] && o.after == Advance(c, len)
    ensures o.result.Err? ==> o.result.error == EndOfFile() && o.after == c
    ensures len == 0 ==> o == Outcome(Ok([]), c)
  {
    if c.index + len <= |input| then Outcome(Ok(input[c.index..c.index + len]), Advance(c, len))
    else Outcome(Err(EndOfFile()), c)
  }

  /** `pull_len_bytes`: a length field of `width` bytes, big-endian, converted to `usize`. The bytes
      are consumed even when the value does not fit a `usize`; that error carries the `pos` the
      field started at. On a 64-bit platform every field of at most 8 bytes fits. */
  function PullLenBytesAt(ctx: Context, input: seq<bv8>, c: Cursor, width: nat): (o: Outcome<nat>)
    requires c.index <= |input| && width <= 8
    ensures c.index + width > |input| ==> o == Outcome(Err(EndOfFile()), c)
    ensures c.index + width <= |input| ==> o.after == Advance(c, width)
  {
    var bytes := PullBytesAt(input, c, width);
    if bytes.result.Err? then Outcome(Err(bytes.result.error), bytes.after)
    else
      var v := BigEndian(bytes.result.value);
      if v < Limit(ctx.usizeWidth) then Outcome(Ok(v), bytes.after)
      else Outcome(Err(Error(NumberOutOfRange, Some(c.pos))), bytes.after)
  }

  /** The value `pull_len_bytes` returns is the big-endian reading of the field, which always fits
      `width` bytes; it fails with number-out-of-range, at the `pos` the field started at, exactly
      when that value does not fit a `usize`, which never happens on a 64-bit platform. */
  lemma PullLenBytesValue(ctx: Context, input: seq<bv8>, c: Cursor, width: nat)
    requires c.index + width <= |input| && width <= 8
    ensures var o := PullLenBytesAt(ctx, input, c, width);
      var field := input[c.index..c.index + width];
      && (o.result.Ok? <==> BigEndian(field) < Limit(ctx.usizeWidth))
      && (o.result.Ok? ==> o.result.value == BigEndian(field) && o.result.value < Pow256(width))
      && (o.result.Err? ==> o.result.error == Error(NumberOutOfRange, Some(c.pos)))
  {
    var field := input[c.index..c.index + width];
    assert PullBytesAt(input, c, width) == Outcome(Ok(field), Advance(c, width));
    BigEndianBound(field);
  }

  /** On a 64-bit platform every length field of at most 8 bytes that is all there decodes. */
  lemma PullLenBytesFits64(ctx: Context, input: seq<bv8>, c: Cursor, width: nat)
    requires c.index + width <= |input| && width <= 8 && ctx.usizeWidth == W64
    ensures PullLenBytesAt(ctx, input, c, width).result.Ok?
  {
    EightBytesFit64(input[c.index..c.index + width]);
  }

  /** `pull_byte_expecting`: pulls a tag byte and accepts it only if it carries `m`. A byte of another
      kind is consumed all the same, and the invalid-type error carries the `pos` before the pull. */
  function PullByteExpectingAt(input: seq<bv8>, c: Cursor, m: Marker): (o: Outcome<bv8>)
    ensures o.result.Ok? <==> c.index < |input| && Detect(input[c.index]) == m
    ensures o.result.Ok? ==> o.result.value == input[c.index]
    ensures c.index < |input| ==> o.after == Advance(c, 1)
    ensures c.index < |input| && Detect(input[c.index]) != m ==> o.result == Err(Error(InvalidType, Some(c.pos)))
    ensures c.index >= |input| ==> o == Outcome(Err(EndOfFile()), c)
  {
    var byte := PullByteAt(input, c);
    if byte.result.Err? then byte
    else if Validate(m, byte.result.value) then byte
    else Outcome(Err(Error(InvalidType, Some(c.pos))), byte.after)
  }

  // ---------------------------------------------------------------------------------------------
  // Headers

  /** The width in bytes of a byte array's length field: two to the power of the tag's low bits. */
  function BytesLenWidth(tag: bv8): (w: nat)
    ensures w == 1 || w == 2 || w == 4 || w == 8
  {
    var exponent := tag & LEN_WIDTH_EXPONENT_BITS;
    if exponent == 0 then 1 else if exponent == 1 then 2 else if exponent == 2 then 4 else 8
  }

  /** `decode_bytes_header`: a tag byte carrying the bytes marker, then a big-endian length field of
      `BytesLenWidth(tag)` bytes right after it. */
  function BytesHeaderAt(ctx: Context, input: seq<bv8>, c: Cursor): (o: Outcome<BytesHeader>)
    requires c.index <= |input|
    ensures Within(o, input, c)
    ensures o.after.pos + c.index == o.after.index + c.pos
  {
    var tag := PullByteExpectingAt(input, c, Marker.Bytes);
    if tag.result.Err? then Outcome(Err(tag.result.error), tag.after)
    else
      var len := PullLenBytesAt(ctx, input, tag.after, BytesLenWidth(tag.result.value));
      if len.result.Err? then Outcome(Err(len.result.error), len.after)
      else Outcome(Ok(BytesForLen(len.result.value)), len.after)
  }

  /** A byte-array header decodes exactly when the tag byte carries the bytes marker, its length
      field is all there and the length fits a `usize`; it then holds the field's big-endian value
      and ends right after the field. A tag byte of another kind fails with invalid-type after
      consuming that one byte. */
  lemma BytesHeaderAtMeaning(ctx: Context, input: seq<bv8>, c: Cursor)
    requires c.index <= |input|
    ensures var o := BytesHeaderAt(ctx, input, c);
      && (o.result.Ok? <==>
            && c.index < |input|
            && Detect(input[c.index]) == Marker.Bytes
            && c.index + 1 + BytesLenWidth(input[c.index]) <= |input|
            && BigEndian(input[c.index + 1..c.index + 1 + BytesLenWidth(input[c.index])]) < Limit(ctx.usizeWidth))
      && (o.result.Ok? ==>
            && c.index < |input|
            && var w := BytesLenWidth(input[c.index]);
            && c.index + 1 + w <= |input|
            && o.result.value.len == BigEndian(input[c.index + 1..c.index + 1 + w])
            && o.after == Advance(c, 1 + w))
      && (c.index < |input| && Detect(input[c.index]) != Marker.Bytes ==>
            o == Outcome(Err(Error(InvalidType, Some(c.pos))), Advance(c, 1)))
  {
    if c.index < |input| && Detect(input[c.index]) == Marker.Bytes {
      var w := BytesLenWidth(input[c.index]);
      if c.index + 1 + w <= |input| {
        PullLenBytesValue(ctx, input, Advance(c, 1), w);
      }
    }
  }

  /** The width in bytes of an extended sequence's length field: one more than the tag's width bits. */
  function SeqLenWidth(tag: bv8): (w: nat)
    ensures 1 <= w <= 8
    ensures w - 1 == (tag & EXTENDED_LEN_WIDTH_BITS) as nat
  {
    (1 + (tag & EXTENDED_LEN_WIDTH_BITS)) as nat
  }

  /** `decode_seq_header`: a tag byte carrying the sequence marker. With the compact bit set the
      length is in the tag's low bits and nothing more is read; otherwise a big-endian length field
      of `SeqLenWidth(tag)` bytes follows. */
  function SeqHeaderAt(ctx: Context, input: seq<bv8>, c: Cursor): (o: Outcome<SeqHeader>)
    requires c.index <= |input|
    ensures Within(o, input, c)
    ensures o.after.pos + c.index == o.after.index + c.pos
  {
    var tag := PullByteExpectingAt(input, c, Marker.Seq);
    if tag.result.Err? then Outcome(Err(tag.result.error), tag.after)
    else if tag.result.value & COMPACT_VARIANT_BIT != 0 then
      Outcome(Ok(Compact((tag.result.value & COMPACT_LEN_BITS) as nat)), tag.after)
    else
      var len := PullLenBytesAt(ctx, input, tag.after, SeqLenWidth(tag.result.value));
      if len.result.Err? then Outcome(Err(len.result.error), len.after)
      else Outcome(Ok(Extended(len.result.value)), len.after)
  }

  /** A sequence header needs a tag byte carrying the sequence marker; another kind fails with
      invalid-type after consuming that byte. With the compact bit set, the header is that byte
      alone and its length the tag's low bits (the extended form: `ExtendedSeqHeaderAtMeaning`). */
  lemma SeqHeaderAtMeaning(ctx: Context, input: seq<bv8>, c: Cursor)
    requires c.index <= |input|
    ensures var o := SeqHeaderAt(ctx, input, c);
      && (o.result.Ok? ==> c.index < |input| && Detect(input[c.index]) == Marker.Seq)
      && (c.index < |input| && Detect(input[c.index]) != Marker.Seq ==>
            o == Outcome(Err(Error(InvalidType, Some(c.pos))), Advance(c, 1)))
      && (c.index < |input| && Detect(input[c.index]) == Marker.Seq && input[c.index] & COMPACT_VARIANT_BIT != 0 ==>
            o == Outcome(Ok(Compact((input[c.index] & COMPACT_LEN_BITS) as nat)), Advance(c, 1)))
  {
  }

  /** An extended sequence header (tag byte with the compact bit clear) decodes exactly when its
      length field is all there and fits a `usize`, holds the field's big-endian value and ends
      right after it. */
  lemma ExtendedSeqHeaderAtMeaning(ctx: Context, input: seq<bv8>, c: Cursor)
    requires c.index < |input| && Detect(input[c.index]) == Marker.Seq && input[c.index] & COMPACT_VARIANT_BIT == 0
    ensures var o := SeqHeaderAt(ctx, input, c);
      var w := SeqLenWidth(input[c.index]);
      && (o.result.Ok? <==>
            c.index + 1 + w <= |input| && BigEndian(input[c.index + 1..c.index + 1 + w]) < Limit(ctx.usizeWidth))
      && (o.result.Ok? ==>
            && o.result.value == Extended(BigEndian(input[c.index + 1..c.index + 1 + w]))
            && o.after == Advance(c, 1 + w))
  {
    var w := SeqLenWidth(input[c.index]);
    if c.index + 1 + w <= |input| {
      PullLenBytesValue(ctx, input, Advance(c, 1), w);
    }
  }

  /** Decoding a boolean header (the decoder's boolean file is not part of this model; this is the
      inverse of the boolean encoder): a tag byte carrying the boolean marker, whose value bit is the
      boolean. */
  function BoolHeaderAt(input: seq<bv8>, c: Cursor): (o: Outcome<BoolHeaders.BoolHeader>)
    ensures o.result.Ok? <==> c.index < |input| && Detect(input[c.index]) == Marker.Bool
    ensures o.result.Ok? ==>
      o.after == Advance(c, 1) && (o.result.value.value <==> input[c.index] & BoolHeaders.VALUE_BIT != 0)
  {
    var tag := PullByteExpectingAt(input, c, Marker.Bool);
    if tag.result.Err? then Outcome(Err(tag.result.error), tag.after)
    else Outcome(Ok(BoolHeaders.New(tag.result.value & BoolHeaders.VALUE_BIT != 0)), tag.after)
  }

  /** `decode_header`: peeks at the tag byte and hands over to the decoder of the kind it carries. A
      header that decodes consumes at least its tag byte, and a modelled kind's header has the
      marker its tag byte carries. */
  function HeaderAt(ctx: Context, input: seq<bv8>, c: Cursor): (o: Outcome<Header>)
    requires c.index <= |input| && WellBehaved(ctx.others)
    ensures Within(o, input, c)
    ensures o.result.Ok? ==> c.index < o.after.index
    ensures c.index == |input| ==> o == Outcome(Err(EndOfFile()), c)
    ensures o.result.Ok? && (Detect(input[c.index]) == Marker.Bytes || Detect(input[c.index]) == Marker.Seq || Detect(input[c.index]) == Marker.Bool) ==>
      MarkerOf(o.result.value) == Detect(input[c.index])
  {
    if c.index == |input| then Outcome(Err(EndOfFile()), c)
    else
      match Detect(input[c.index])
      case Bytes =>
        var h := BytesHeaderAt(ctx, input, c);
        Outcome(if h.result.Ok? then Ok(FromBytesHeader(h.result.value)) else Err(h.result.error), h.after)
      case Seq =>
        var h := SeqHeaderAt(ctx, input, c);
        Outcome(if h.result.Ok? then Ok(FromSeqHeader(h.result.value)) else Err(h.result.error), h.after)
      case Bool =>
        // a tag byte carrying the boolean marker is all a boolean header is, so this cannot fail
        var h := BoolHeaderAt(input, c);
        Outcome(Ok(FromBoolHeader(h.result.value)), h.after)
      case _ => ctx.others.header(Detect(input[c.index]), input, c)
  }

  // ---------------------------------------------------------------------------------------------
  // Values

  /** `decode_value`: a header, then the value that header announces. */
  function ValueAt(ctx: Context, input: seq<bv8>, c: Cursor): (o: Outcome<Value>)
    requires c.index <= |input| && WellBehaved(ctx.others)
    ensures Within(o, input, c)
    ensures o.result.Ok? ==> c.index < o.after.index
    ensures c.index == |input| ==> o == Outcome(Err(EndOfFile()), c)
    decreases |input| - c.index, 0, 0
  {
    var h := HeaderAt(ctx, input, c);
    if h.result.Err? then Outcome(Err(h.result.error), h.after)
    else ValueOfAt(ctx, input, h.after, h.result.value)
  }

  /** `decode_value_of`: the body a header announces. A byte array is exactly `len` bytes, a
      sequence exactly `len` values, and a boolean is all in its header. */
  function ValueOfAt(ctx: Context, input: seq<bv8>, c: Cursor, h: Header): (o: Outcome<Value>)
    requires c.index <= |input| && WellBehaved(ctx.others)
    ensures Within(o, input, c)
    ensures h.Bytes? && o.result.Ok? ==>
      o.result.value.Bytes? && |o.result.value.bytesValue.bytes| == h.bytesHeader.len
    ensures h.Seq? && o.result.Ok? ==>
      o.result.value.Seq? && |o.result.value.seqValue.items| == h.seqHeader.len
    ensures h.Bool? ==> o == Outcome(Ok(Value.Bool(BoolValue(h.boolHeader.value))), c)
    decreases |input| - c.index, 2, 0
  {
    match h
    case Bytes(bh) =>
      var b := PullBytesAt(input, c, bh.len);
      Outcome(if b.result.Ok? then Ok(Value.Bytes(BytesValue(b.result.value))) else Err(b.result.error), b.after)
    case Seq(sh) =>
      var s := SeqItemsAt(ctx, input, c, sh.len);
      Outcome(if s.result.Ok? then Ok(Value.Seq(SeqValue(s.result.value))) else Err(s.result.error), s.after)
    case Bool(bh) => Outcome(Ok(Value.Bool(BoolValue(bh.value))), c)
    case _ => ctx.others.valueOf(h, input, c)
  }

  /** Puts `items` in front of the items of a successful outcome; a failure stays as it is. */
  function Prepend(items: seq<Value>, o: Outcome<seq<Value>>): Outcome<seq<Value>> {
    if o.result.Ok? then Outcome(Ok(items + o.result.value), o.after) else o
  }

  /** `decode_seq_of`: `n` values one after the other. The first failing element's error fails the
      whole sequence, and no items are returned with it. */
  function SeqItemsAt(ctx: Context, input: seq<bv8>, c: Cursor, n: nat): (o: Outcome<seq<Value>>)
    requires c.index <= |input| && WellBehaved(ctx.others)
    ensures Within(o, input, c)
    ensures o.result.Ok? ==> |o.result.value| == n
    decreases |input| - c.index, 1, n
  {
    if n == 0 then Outcome(Ok([]), c)
    else
      var first := ValueAt(ctx, input, c);
      if first.result.Err? then Outcome(Err(first.result.error), first.after)
      else Prepend([first.result.value], SeqItemsAt(ctx, input, first.after, n - 1))
  }

  /** `decode_bytes` and `decode_bytes_buf`: a byte array's header, then exactly its `len` bytes. */
  function BytesAt(ctx: Context, input: seq<bv8>, c: Cursor): (o: Outcome<seq<bv8>>)
    requires c.index <= |input|
    ensures Within(o, input, c)
    ensures o.result.Ok? ==>
      && var h := BytesHeaderAt(ctx, input, c);
      && h.result.Ok?
      && h.after.index + h.result.value.len <= |input|
      && o.result.value == input[h.after.index..h.after.index + h.result.value.len]
      && o.after == Advance(h.after, h.result.value.len)
  {
    var h := BytesHeaderAt(ctx, input, c);
    if h.result.Err? then Outcome(Err(h.result.error), h.after)
    else PullBytesAt(input, h.after, h.result.value.len)
  }

  /** `decode_seq`: a sequence's header, then exactly `len` values. */
  function SeqAt(ctx: Context, input: seq<bv8>, c: Cursor): (o: Outcome<seq<Value>>)
    requires c.index <= |input| && WellBehaved(ctx.others)
    ensures Within(o, input, c)
    ensures o.result.Ok? ==>
      && var h := SeqHeaderAt(ctx, input, c);
      && h.result.Ok? && |o.result.value| == h.result.value.len
  {
    var h := SeqHeaderAt(ctx, input, c);
    if h.result.Err? then Outcome(Err(h.result.error), h.after)
    else SeqItemsAt(ctx, input, h.after, h.result.value.len)
  }

  // ---------------------------------------------------------------------------------------------
  // Skipping

  /** The reader's `skip`: moves the reader past `len` bytes, or fails with end-of-file and moves
      nothing. The decoder's `pos` is not involved. */
  function ReaderSkipAt(input: seq<bv8>, c: Cursor, len: nat): (o: Outcome<()>)
    ensures o.result.Ok? <==> c.index + len <= |input|
    ensures o.result.Ok? ==> o.after == Cursor(c.index + len, c.pos)
    ensures o.result.Err? ==> o.result.error == EndOfFile() && o.after == c
  {
    if c.index + len <= |input| then Outcome(Ok(()), Cursor(c.index + len, c.pos))
    else Outcome(Err(EndOfFile()), c)
  }

  /** `skip_value`: a header, then skipping the body it announces. */
  function SkipAt(ctx: Context, input: seq<bv8>, c: Cursor): (o: Outcome<()>)
    requires c.index <= |input| && WellBehaved(ctx.others)
    ensures Within(o, input, c)
    ensures o.result.Ok? ==> c.index < o.after.index
    ensures c.index == |input| ==> o == Outcome(Err(EndOfFile()), c)
    decreases |input| - c.index, 0, 0
  {
    var h := HeaderAt(ctx, input, c);
    if h.result.Err? then Outcome(Err(h.result.error), h.after)
    else SkipOfAt(ctx, input, h.after, h.result.value)
  }

  /** `skip_value_of`: a byte array's body is skipped by the reader alone, so `pos` stays where it
      was; a sequence skips its `len` items one by one; a boolean has no body. */
  function SkipOfAt(ctx: Context, input: seq<bv8>, c: Cursor, h: Header): (o: Outcome<()>)
    requires c.index <= |input| && WellBehaved(ctx.others)
    ensures Within(o, input, c)
    ensures h.Bytes? ==> o.after.pos == c.pos
    ensures h.Bytes? && o.result.Ok? ==> o.after.index == c.index + h.bytesHeader.len
    ensures h.Bool? ==> o == Outcome(Ok(()), c)
    decreases |input| - c.index, 2, 0
  {
    match h
    case Bytes(bh) => ReaderSkipAt(input, c, bh.len)
    case Seq(sh) => SkipItemsAt(ctx, input, c, sh.len)
    case Bool(_) => Outcome(Ok(()), c)
    case _ => ctx.others.skipOf(h, input, c)
  }

  /** `skip_seq_value_of`'s loop: skips `n` values one after the other, stopping at the first failure. */
  function SkipItemsAt(ctx: Context, input: seq<bv8>, c: Cursor, n: nat): (o: Outcome<()>)
    requires c.index <= |input| && WellBehaved(ctx.others)
    ensures Within(o, input, c)
    ensures n == 0 ==> o == Outcome(Ok(()), c)
    ensures n > 0 && o.result.Ok? ==> c.index + n <= o.after.index
    decreases |input| - c.index, 1, n
  {
    if n == 0 then Outcome(Ok(()), c)
    else
      var first := SkipAt(ctx, input, c);
      if first.result.Err? then first
      else SkipItemsAt(ctx, input, first.after, n - 1)
  }
}
